/** Fragmenting commands, timeouts, sending, and a host's whole turn, followed for one destination at a time. */
module SendingTurn {
  import opened Common
  import opened SeqNum
  import opened Frames
  import opened HostModel
  import opened Congestion
  import opened Messages
  import opened SenderPasses
  import Flow

  // ---------- handle_input_cmds ----------

  /** The messages waiting in a command list for destination d. */
  function Pending(cmds: seq<Cmd>, d: int): seq<CString> {
    if cmds == [] then []
    else (if cmds[0].dst == d then [cmds[0].message] else []) + Pending(cmds[1..], d)
  }

  /** A command's first fragment from byte `start` on, buffered. */
  function FragmentStep(cfg: Config, h: HostState, cmd: Cmd, start: nat): HostState
    requires cmd.dst < |h.send| && start < |Stored(cmd.message)|
  {
    var p := h.send[cmd.dst];
    var f := FragmentAt(cmd, start, p.currSeq, cfg.heap(h.id, h.mallocs));
    SetSend(h, cmd.dst, p.(currSeq := Wrap(p.currSeq + 1))).(buffered := h.buffered + [f], mallocs := h.mallocs + 1)
  }

  lemma FragmentUnfold(cfg: Config, h: HostState, cmd: Cmd, start: nat)
    requires cmd.dst < |h.send| && start < |Stored(cmd.message)|
    ensures |FragmentStep(cfg, h, cmd, start).send| == |h.send|
    ensures Fragment(cfg, h, cmd, start)
         == Fragment(cfg, FragmentStep(cfg, h, cmd, start), cmd, EndOf(cmd.message, start))
  {
    hide FragmentAt;
    hide Stored;
    hide Wrap;
  }

  lemma FragmentDone(cfg: Config, h: HostState, cmd: Cmd, start: nat)
    requires cmd.dst < |h.send| && start >= |Stored(cmd.message)|
    ensures Fragment(cfg, h, cmd, start) == h && Carries([], cmd.message, start)
  {}

  lemma FragmentStepIs(cfg: Config, h: HostState, cmd: Cmd, start: nat)
    requires cmd.dst < |h.send| && start < |Stored(cmd.message)|
    ensures var p := h.send[cmd.dst];
            var f := FragmentAt(cmd, start, p.currSeq, cfg.heap(h.id, h.mallocs));
            FragmentStep(cfg, h, cmd, start) ==
            h.(send := h.send[cmd.dst := p.(currSeq := Wrap(p.currSeq + 1))], buffered := h.buffered + [f],
               mallocs := h.mallocs + 1)
  {
    hide FragmentAt;
    hide Wrap;
  }

  /** Buffering one more frame for some destination. */
  lemma BufferedSide(cfg: Config, h: HostState, r: HostState, f: Frame, d: nat, fl: Flow.Flow, fl': Flow.Flow,
                     o: Outside)
    requires d < |h.send| && Holds(cfg, h) && SideOk(cfg, h, d, fl, o)
    requires FrameValid(f) && f.src == h.id && f.dst != h.id && f.dst < cfg.hosts == |h.send| && f.isAck == 0
    requires f.seqNum == h.send[f.dst].currSeq
    requires r == h.(send := h.send[f.dst := h.send[f.dst].(currSeq := Wrap(h.send[f.dst].currSeq + 1))],
                     buffered := h.buffered + [f], mallocs := r.mallocs)
    requires fl' == if f.dst == d then fl.(gen := fl.gen + [f]) else fl
    ensures Holds(cfg, r) && SideOk(cfg, r, d, fl', o)
  {
    hide FrameValid;
    hide Sel;
    hide Wrap;
    hide CcInv;
    hide NullSuffix;
    hide Flow.SenderOk;
    hide Flow.ReceiverOk;
    hide Flow.FlightOk;
    hide Flow.AcksOk;
    SelSnoc(h.buffered, f, h.id, d, false);
    if f.dst == d {
      var data, acks := o.ahead + Sel(h.outgoing, h.id, d, false), Sel(h.incoming, d, h.id, true) + o.behind;
      Flow.GenGrows(cfg, fl, o.recv, data, acks, f);
      Flow.GenerateOk(cfg, fl, h.send[d], Sel(h.buffered, h.id, d, false), f);
    }
  }

  /** One fragment joins its flow's stream; other flows do not notice. */
  lemma FragmentStepSide(cfg: Config, h: HostState, cmd: Cmd, start: nat, d: nat, fl: Flow.Flow, o: Outside)
    returns (fl': Flow.Flow, f: Frame)
    requires cmd.dst < |h.send| == cfg.hosts && d < |h.send| && start < |Stored(cmd.message)|
    requires cmd.src == h.id && cmd.dst != h.id
    requires Holds(cfg, h) && SideOk(cfg, h, d, fl, o)
    ensures var end := EndOf(cmd.message, start);
            && f.length == end - start
            && f.remaining == (|Stored(cmd.message)| - end) % 65536
            && f.data[..end - start] == Stored(cmd.message)[start..end]
    ensures fl' == if cmd.dst == d then fl.(gen := fl.gen + [f]) else fl
    ensures var r := FragmentStep(cfg, h, cmd, start);
            Holds(cfg, r) && SideOk(cfg, r, d, fl', o) && |r.send| == |h.send| && r.send[d].window == h.send[d].window
  {
    hide *;
    var seqNum, raw := h.send[cmd.dst].currSeq, cfg.heap(h.id, h.mallocs);
    f := FragmentAt(cmd, start, seqNum, raw);
    FragmentCarries(cmd, start, seqNum, raw);
    FragmentValid(cmd, start, seqNum, raw);
    fl' := fl;
    if cmd.dst == d {
      fl' := fl.(gen := fl.gen + [f]);
    }
    FragmentStepIs(cfg, h, cmd, start);
    BufferedSide(cfg, h, FragmentStep(cfg, h, cmd, start), f, d, fl, fl', o);
  }

  lemma FragmentValid(cmd: Cmd, start: nat, seqNum: uint8, raw: Frame)
    requires start < |Stored(cmd.message)|
    ensures FrameValid(FragmentAt(cmd, start, seqNum, raw))
  {
    hide FrameValid;
    hide SetChecksum;
    var text := Stored(cmd.message);
    var end := Min(start + PAYLOAD_SIZE, |text|);
    var copied := StrNCpy(text[start..], end - start);
    var payload := (if end == |text| then copied[end - start - 1 := NUL] else copied) + raw.data[end - start..];
    SetChecksumValid(Frame((|text| - end) % 65536, cmd.dst, cmd.src, seqNum, 0, end - start, payload, raw.checksum));
  }

  /** All fragments of a command from byte `start` on. */
  lemma {:induction false} FragmentSide(cfg: Config, h: HostState, cmd: Cmd, start: nat, d: nat, fl: Flow.Flow,
                                        o: Outside)
    returns (fl': Flow.Flow, frames: seq<Frame>)
    requires cmd.dst < |h.send| == cfg.hosts && d < |h.send|
    requires cmd.src == h.id && cmd.dst != h.id
    requires Holds(cfg, h) && SideOk(cfg, h, d, fl, o)
    ensures Carries(frames, cmd.message, start)
    ensures fl' == if cmd.dst == d then fl.(gen := fl.gen + frames) else fl
    ensures Holds(cfg, Fragment(cfg, h, cmd, start)) && SideOk(cfg, Fragment(cfg, h, cmd, start), d, fl', o)
    ensures Fragment(cfg, h, cmd, start).send[d].window == h.send[d].window
    decreases |Stored(cmd.message)| - start
  {
    hide *;
    if start >= |Stored(cmd.message)| {
      FragmentDone(cfg, h, cmd, start);
      fl', frames := fl, [];
      assert fl.gen + [] == fl.gen;
    } else {
      var end := EndOf(cmd.message, start);
      FragmentUnfold(cfg, h, cmd, start);
      var fl1, f := FragmentStepSide(cfg, h, cmd, start, d, fl, o);
      FragmentStepSame(cfg, h, cmd, start);
      var rest;
      fl', rest := FragmentSide(cfg, FragmentStep(cfg, h, cmd, start), cmd, end, d, fl1, o);
      frames := [f] + rest;
      CarriesCons(frames, cmd.message, start);
      assert (fl.gen + [f]) + rest == fl.gen + frames;
    }
  }

  lemma FragmentStepSame(cfg: Config, h: HostState, cmd: Cmd, start: nat)
    requires cmd.dst < |h.send| && start < |Stored(cmd.message)|
    ensures FragmentStep(cfg, h, cmd, start).id == h.id
  {
    hide FragmentAt;
    hide Wrap;
  }

  lemma CarriesCons(frames: seq<Frame>, message: CString, start: nat)
    requires start < |Stored(message)| && frames != []
    requires var end := EndOf(message, start);
             && frames[0].length == end - start
             && frames[0].remaining == (|Stored(message)| - end) % 65536
             && frames[0].data[..end - start] == Stored(message)[start..end]
             && Carries(frames[1..], message, end)
    ensures Carries(frames, message, start)
  {}

  lemma InputUnfold(cfg: Config, h: HostState)
    requires WellFormed(cfg, h) && h.cmds != []
    ensures var h1 := h.(cmds := h.cmds[1..]);
            && (Holds(cfg, h) ==> Holds(cfg, h1) && h.cmds[0].src == h.id && h.cmds[0].dst != h.id)
            && h.cmds[0].dst < |h1.send| == cfg.hosts
            && WellFormed(cfg, Fragment(cfg, h1, h.cmds[0], 0))
            && InputPass(cfg, h) == InputPass(cfg, Fragment(cfg, h1, h.cmds[0], 0))
            && Fragment(cfg, h1, h.cmds[0], 0) ==
               h1.(buffered := Fragment(cfg, h1, h.cmds[0], 0).buffered, send := Fragment(cfg, h1, h.cmds[0], 0).send,
                   mallocs := Fragment(cfg, h1, h.cmds[0], 0).mallocs)
  {
    hide FrameValid;
    hide Fragment;
    var h1 := h.(cmds := h.cmds[1..]);
    assert h.cmds[0] in h.cmds;
    FragmentKeepsDestinations(cfg, h1, h.cmds[0], 0);
  }

  lemma SideSame(cfg: Config, h: HostState, h': HostState, d: nat, fl: Flow.Flow, o: Outside)
    requires d < |h.send| && SideOk(cfg, h, d, fl, o) && h'.id == h.id && h'.send == h.send
    requires h'.buffered == h.buffered && h'.outgoing == h.outgoing && h'.incoming == h.incoming
    ensures SideOk(cfg, h', d, fl, o)
  {}

  /** The whole input pass: the stream of each flow grows by exactly the fragments of its pending messages. */
  lemma {:induction false} InputPassSide(cfg: Config, h: HostState, d: nat, fl: Flow.Flow, o: Outside,
                                         taken: seq<CString>)
    returns (fl': Flow.Flow)
    requires WellFormed(cfg, h) && Holds(cfg, h) && d < cfg.hosts && SideOk(cfg, h, d, fl, o)
    requires CarriesAll(fl.gen, taken)
    ensures var r := InputPass(cfg, h);
            && Holds(cfg, r) && |r.send| == |h.send| && SideOk(cfg, r, d, fl', o)
            && r.send[d].window == h.send[d].window
            && r == h.(cmds := [], buffered := r.buffered, send := r.send, mallocs := r.mallocs)
    ensures CarriesAll(fl'.gen, taken + Pending(h.cmds, d))
    ensures fl.gen <= fl'.gen && fl' == fl.(gen := fl'.gen)
    decreases |h.cmds|
  {
    hide *;
    Indices(cfg, h);
    if h.cmds == [] {
      InputPassEnd(cfg, h);
      NothingPending(d);
      fl' := fl;
      assert taken + [] == taken;
    } else {
      InputUnfold(cfg, h);
      var h1 := h.(cmds := h.cmds[1..]);
      var cmd := h.cmds[0];
      SideSame(cfg, h, h1, d, fl, o);
      var fl1, frames := FragmentSide(cfg, h1, cmd, 0, d, fl, o);
      var taken1 := taken;
      if cmd.dst == d {
        CarriesAllAppend(fl.gen, taken, frames, cmd.message);
        taken1 := taken + [cmd.message];
      }
      fl' := InputPassSide(cfg, Fragment(cfg, h1, cmd, 0), d, fl1, o, taken1);
      PendingUnfold(h.cmds, d);
      assert taken1 + Pending(h1.cmds, d) == taken + Pending(h.cmds, d);
    }
  }

  /** Taking up the input leaves the incoming list alone. */
  lemma {:induction false} InputIncoming(cfg: Config, h: HostState)
    requires WellFormed(cfg, h)
    ensures InputPass(cfg, h).incoming == h.incoming && InputPass(cfg, h).id == h.id
    decreases |h.cmds|
  {
    hide *;
    if h.cmds == [] {
      InputPassEnd(cfg, h);
    } else {
      InputUnfold(cfg, h);
      InputIncoming(cfg, Fragment(cfg, h.(cmds := h.cmds[1..]), h.cmds[0], 0));
    }
  }

  lemma PendingUnfold(cmds: seq<Cmd>, d: int)
    requires cmds != []
    ensures Pending(cmds, d) == (if cmds[0].dst == d then [cmds[0].message] else []) + Pending(cmds[1..], d)
  {}

  lemma InputPassEnd(cfg: Config, h: HostState)
    requires WellFormed(cfg, h) && h.cmds == []
    ensures InputPass(cfg, h) == h
  {}

  lemma {:induction false} NothingPending(d: int)
    ensures Pending([], d) == []
  {}

  // ---------- handle_timedout_frames ----------

  lemma TimeoutPassAt(h: HostState, curr: int, d: nat)
    requires d < |h.send|
    ensures |TimeoutPass(h, curr).send| == |h.send|
    ensures TimeoutPass(h, curr).send[d] == if d == h.id then h.send[d] else OnTimeout(h.send[d], curr)
    ensures TimeoutPass(h, curr) == h.(send := TimeoutPass(h, curr).send)
  {
    hide OnTimeout;
  }

  lemma OnTimeoutFrames(p: Sending, curr: int)
    ensures var q := OnTimeout(p, curr);
            && |q.window| == |p.window| && q.currSeq == p.currSeq && q.dupSeq == p.dupSeq
            && (forall i :: 0 <= i < |p.window| ==> q.window[i].frame == p.window[i].frame)
            && (NullSuffix(p.window) ==> NullSuffix(q.window))
  {}

  lemma TimeoutHolds(cfg: Config, h: HostState, curr: int)
    requires Holds(cfg, h)
    ensures Holds(cfg, TimeoutPass(h, curr))
  {
    hide FrameValid;
    hide OnTimeout;
    var r := TimeoutPass(h, curr);
    forall e, i | 0 <= e < |r.send| && 0 <= i < |r.send[e].window|
      ensures OwnData(cfg, r.send[e].window[i].frame, h.id) && r.send[e].window[i].frame.dst == e
    {
      OnTimeoutFrames(h.send[e], curr);
      assert r.send[e].window[i].frame == h.send[e].window[i].frame;
    }
  }

  /** Stopping timers moves no frame. */
  lemma TimeoutPassSide(cfg: Config, h: HostState, curr: int, d: nat, fl: Flow.Flow, o: Outside)
    requires Holds(cfg, h) && d < |h.send| && SideOk(cfg, h, d, fl, o)
    ensures Holds(cfg, TimeoutPass(h, curr)) && |TimeoutPass(h, curr).send| == |h.send|
    ensures SideOk(cfg, TimeoutPass(h, curr), d, fl, o)
  {
    hide FrameValid;
    hide Sel;
    hide OnTimeout;
    hide TimeoutPass;
    hide CcInv;
    hide NullSuffix;
    hide Holds;
    hide Flow.SenderOk;
    hide Flow.ReceiverOk;
    hide Flow.FlightOk;
    hide Flow.AcksOk;
    TimeoutHolds(cfg, h, curr);
    TimeoutPassAt(h, curr, d);
    OnTimeoutFrames(h.send[d], curr);
    TimeoutKeepsCc(h.send[d], curr);
    Flow.Retimed(cfg, fl, h.send[d], Sel(h.buffered, h.id, d, false), fl, TimeoutPass(h, curr).send[d]);
  }

  // ---------- handle_outgoing_frames: resending ----------

  lemma ResendUnfold(cfg: Config, h: HostState, d: nat, i: nat, budget: int)
    requires d < |h.send|
    ensures i >= |h.send[d].window| ==> ResendWindow(cfg, h, d, i, budget) == (h, budget)
    ensures i < |h.send[d].window| ==>
            var slot := h.send[d].window[i];
            ResendWindow(cfg, h, d, i, budget) ==
            if slot.timeout.None? && budget > 0
            then ResendWindow(cfg, Retransmit(cfg, h, d, slot.frame.seqNum), d, i + 1, budget - 1)
            else ResendWindow(cfg, h, d, i + 1, budget)
  {
    hide Retransmit;
  }

  lemma RetransmitFrame(cfg: Config, h: HostState, d: nat, seqNum: uint8)
    requires d < |h.send|
    ensures var r := Retransmit(cfg, h, d, seqNum);
            && |r.send| == |h.send| && |r.send[d].window| == |h.send[d].window|
            && r == h.(outgoing := r.outgoing, send := r.send, latestTimeout := r.latestTimeout, ticks := r.ticks)
  {
    hide FindSeq;
  }

  lemma {:induction false} ResendWindowOther(cfg: Config, h: HostState, e: nat, i: nat, budget: int, d: nat)
    requires e < |h.send| && d < |h.send| && d != e && Holds(cfg, h)
    ensures var r := ResendWindow(cfg, h, e, i, budget).0;
            && Holds(cfg, r) && |r.send| == |h.send| && r.send[d] == h.send[d]
            && Sel(r.outgoing, h.id, d, false) == Sel(h.outgoing, h.id, d, false)
            && r == h.(outgoing := r.outgoing, send := r.send, latestTimeout := r.latestTimeout, ticks := r.ticks)
    decreases |h.send[e].window| - i
  {
    hide *;
    ResendUnfold(cfg, h, e, i, budget);
    if i < |h.send[e].window| {
      var slot := h.send[e].window[i];
      if slot.timeout.None? && budget > 0 {
        RetransmitOther(cfg, h, e, slot.frame.seqNum, d);
        RetransmitFrame(cfg, h, e, slot.frame.seqNum);
        ResendWindowOther(cfg, Retransmit(cfg, h, e, slot.frame.seqNum), e, i + 1, budget - 1, d);
      } else {
        ResendWindowOther(cfg, h, e, i + 1, budget, d);
      }
    }
  }

  /** What resending window d leaves behind: budget is left over only if every timer runs. */
  ghost predicate Resent(p: Sending, budget: int, q: Sending, left: int) {
    && |q.window| == |p.window| && 0 <= left <= budget && (p.window == [] ==> left == budget)
    && (left > 0 ==> AllRunning(q.window))
    && (forall j :: 0 <= j < |p.window| && p.window[j].timeout.Some? ==> q.window[j].timeout.Some?)
  }

  lemma WindowNumber(cfg: Config, h: HostState, d: nat, i: nat, fl: Flow.Flow, o: Outside)
    requires d < |h.send| && SideOk(cfg, h, d, fl, o) && i < |h.send[d].window|
    ensures h.send[d].window[i].frame.seqNum == Wrap(fl.base + i)
    ensures h.send[d].window[i].timeout.None? ==>
              forall j :: i <= j < |h.send[d].window| ==> h.send[d].window[j].timeout.None?
  {
    hide Sel;
    hide Wrap;
    hide CcInv;
  }

  lemma {:induction false} ResendWindowSelf(cfg: Config, h: HostState, d: nat, i: nat, budget: int, fl: Flow.Flow,
                                            o: Outside)
    returns (fl': Flow.Flow)
    requires ValidConfig(cfg) && d < |h.send| && Holds(cfg, h) && SideOk(cfg, h, d, fl, o)
    requires budget >= 0 && i <= |h.send[d].window|
    requires budget > 0 ==> forall j :: 0 <= j < i ==> h.send[d].window[j].timeout.Some?
    ensures var (r, left) := ResendWindow(cfg, h, d, i, budget);
            && Holds(cfg, r) && |r.send| == |h.send| && SideOk(cfg, r, d, fl', o)
            && Resent(h.send[d], budget, r.send[d], left)
            && (i == 0 < |h.send[d].window| && budget > 0 ==> r.send[d].window[0].timeout.Some?)
            && |fl'.flight| == |fl.flight| + (budget - left)
            && r == h.(outgoing := r.outgoing, send := r.send, latestTimeout := r.latestTimeout, ticks := r.ticks)
    ensures fl' == fl.(flight := fl'.flight) && fl.flight <= fl'.flight
    ensures i == 0 < |h.send[d].window| && budget > 0 && h.send[d].window[0].timeout.None? ==>
            HeadResent(fl.flight, fl.base, fl'.flight)
    decreases |h.send[d].window| - i
  {
    hide *;
    ResendUnfold(cfg, h, d, i, budget);
    var w := h.send[d].window;
    if i >= |w| {
      fl' := fl;
      ResentSame(h.send[d], budget);
    } else {
      WindowNumber(cfg, h, d, i, fl, o);
      if w[i].timeout.None? && budget > 0 {
        var fl1 := RetransmitSelf(cfg, h, d, i, fl, o);
        RetransmitFrame(cfg, h, d, w[i].frame.seqNum);
        var h1 := Retransmit(cfg, h, d, w[i].frame.seqNum);
        fl' := ResendWindowSelf(cfg, h1, d, i + 1, budget - 1, fl1, o);
        if i == 0 {
          HeadResentNow(fl.flight, fl.base, fl'.flight);
        }
        var (r, left) := ResendWindow(cfg, h1, d, i + 1, budget - 1);
        ResentTrans(h.send[d], budget, h1.send[d], r.send[d], left);
      } else {
        fl' := ResendWindowSelf(cfg, h, d, i + 1, budget, fl, o);
        var (r, left) := ResendWindow(cfg, h, d, i + 1, budget);
        if w[0].timeout.Some? {
          ResentHead(h.send[d], budget, r.send[d], left);
        }
      }
    }
  }

  lemma ResentSame(p: Sending, budget: int)
    requires budget >= 0 && (budget > 0 ==> forall j :: 0 <= j < |p.window| ==> p.window[j].timeout.Some?)
    ensures Resent(p, budget, p, budget)
  {}

  lemma ResentHead(p: Sending, budget: int, q: Sending, left: int)
    requires Resent(p, budget, q, left) && p.window != [] && p.window[0].timeout.Some?
    ensures q.window != [] && q.window[0].timeout.Some?
  {}

  lemma ResentTrans(p: Sending, budget: int, p1: Sending, q: Sending, left: int)
    requires budget > 0 && Resent(p1, budget - 1, q, left) && |p1.window| == |p.window| > 0
    requires forall j :: 0 <= j < |p.window| && p.window[j].timeout.Some? ==> p1.window[j].timeout.Some?
    ensures Resent(p, budget, q, left)
    ensures p1.window != [] && p1.window[0].timeout.Some? ==> q.window[0].timeout.Some?
  {}

  lemma ResendPassUnfold(cfg: Config, h: HostState, e: nat, budgets: seq<int>)
    requires |budgets| == |h.send|
    ensures e >= |h.send| ==> ResendPass(cfg, h, e, budgets) == (h, budgets)
    ensures e < |h.send| && e == h.id ==> ResendPass(cfg, h, e, budgets) == ResendPass(cfg, h, e + 1, budgets)
    ensures e < |h.send| && e != h.id ==>
            var (h1, b) := ResendWindow(cfg, h, e, 0, budgets[e]);
            |h1.send| == |h.send| && ResendPass(cfg, h, e, budgets) == ResendPass(cfg, h1, e + 1, budgets[e := b])
  {
    hide ResendWindow;
  }

  lemma {:induction false} ResendPassOther(cfg: Config, h: HostState, e: nat, budgets: seq<int>, d: nat)
    requires |budgets| == |h.send| && d < |h.send| && (d < e || d == h.id) && Holds(cfg, h)
    ensures var (r, left) := ResendPass(cfg, h, e, budgets);
            && Holds(cfg, r) && |r.send| == |left| == |h.send| && r.send[d] == h.send[d] && left[d] == budgets[d]
            && Sel(r.outgoing, h.id, d, false) == Sel(h.outgoing, h.id, d, false)
            && r == h.(outgoing := r.outgoing, send := r.send, latestTimeout := r.latestTimeout, ticks := r.ticks)
    decreases |h.send| - e
  {
    hide *;
    ResendPassUnfold(cfg, h, e, budgets);
    if e < |h.send| {
      if e == h.id {
        ResendPassOther(cfg, h, e + 1, budgets, d);
      } else {
        ResendWindowOther(cfg, h, e, 0, budgets[e], d);
        var (h1, b) := ResendWindow(cfg, h, e, 0, budgets[e]);
        ResendPassOther(cfg, h1, e + 1, budgets[e := b], d);
      }
    }
  }

  /** Resending for all destinations, seen by one of them. */
  lemma {:induction false} ResendPassSide(cfg: Config, h: HostState, e: nat, budgets: seq<int>, d: nat, fl: Flow.Flow,
                                          o: Outside)
    returns (fl': Flow.Flow)
    requires ValidConfig(cfg) && |budgets| == |h.send| && e <= d < |h.send| && d != h.id && budgets[d] >= 0
    requires Holds(cfg, h) && SideOk(cfg, h, d, fl, o)
    ensures var (r, left) := ResendPass(cfg, h, e, budgets);
            && Holds(cfg, r) && |r.send| == |left| == |h.send| && SideOk(cfg, r, d, fl', o)
            && Resent(h.send[d], budgets[d], r.send[d], left[d])
            && (h.send[d].window != [] && budgets[d] > 0 ==> r.send[d].window[0].timeout.Some?)
            && |fl'.flight| == |fl.flight| + (budgets[d] - left[d])
            && r == h.(outgoing := r.outgoing, send := r.send, latestTimeout := r.latestTimeout, ticks := r.ticks)
    ensures fl' == fl.(flight := fl'.flight) && fl.flight <= fl'.flight
    ensures h.send[d].window != [] && budgets[d] > 0 && h.send[d].window[0].timeout.None? ==>
            HeadResent(fl.flight, fl.base, fl'.flight)
    decreases |h.send| - e
  {
    hide *;
    ResendPassUnfold(cfg, h, e, budgets);
    if e == h.id {
      fl' := ResendPassSide(cfg, h, e + 1, budgets, d, fl, o);
    } else {
      var (h1, b) := ResendWindow(cfg, h, e, 0, budgets[e]);
      if e == d {
        fl' := ResendWindowSelf(cfg, h, d, 0, budgets[d], fl, o);
        ResendPassOther(cfg, h1, e + 1, budgets[e := b], d);
        SideRests(cfg, h1, ResendPass(cfg, h1, e + 1, budgets[e := b]).0, d, fl', o);
      } else {
        ResendWindowOther(cfg, h, e, 0, budgets[e], d);
        SideRests(cfg, h, h1, d, fl, o);
        fl' := ResendPassSide(cfg, h1, e + 1, budgets[e := b], d, fl, o);
      }
    }
  }

  // ---------- handle_outgoing_frames: sending ----------

  /** One buffered frame leaves the list for the network and its window. */
  function SendStep(cfg: Config, h: HostState, pos: nat, timeout: int): HostState
    requires pos < |h.buffered| && h.buffered[pos].dst < |h.send|
  {
    var f := h.buffered[pos];
    var p := h.send[f.dst];
    SetSend(h, f.dst, p.(window := p.window + [Slot(f, Some(timeout))]))
    .(buffered := RemoveAt(h.buffered, pos), outgoing := h.outgoing + [f])
  }

  predicate Stays(cfg: Config, h: HostState, d: nat, budgets: seq<int>)
    requires d < |h.send| == |budgets|
  {
    |h.send[d].window| == cfg.window || budgets[d] == 0
  }

  lemma SendUnfold(cfg: Config, h: HostState, pos: nat, budgets: seq<int>, curr: int, extra: int)
    requires WellFormed(cfg, h) && |budgets| == |h.send|
    ensures pos >= |h.buffered| ==> SendPass(cfg, h, pos, budgets, curr, extra) == h.(latestTimeout := curr + extra)
    ensures pos < |h.buffered| ==>
            var e := h.buffered[pos].dst;
            && e < |h.send|
            && (Stays(cfg, h, e, budgets) ==>
                  SendPass(cfg, h, pos, budgets, curr, extra) == SendPass(cfg, h, pos + 1, budgets, curr, extra))
            && var h1 := SendStep(cfg, h, pos, curr + TIMEOUT_INTERVAL_USEC + extra);
               && WellFormed(cfg, h1) && |h1.send| == |h.send| && |h1.buffered| == |h.buffered| - 1
               && h1 == h.(buffered := h1.buffered, outgoing := h1.outgoing, send := h1.send)
               && (!Stays(cfg, h, e, budgets) ==>
                     SendPass(cfg, h, pos, budgets, curr, extra) ==
                     SendPass(cfg, h1, pos, budgets[e := budgets[e] - 1], curr, extra + FRAME_GAP_USEC))
  {
    hide FrameValid;
    if pos < |h.buffered| {
      assert h.buffered[pos] in h.buffered;
    }
  }

  /** A sent frame of another flow passes by. */
  lemma SendStepOther(cfg: Config, h: HostState, pos: nat, timeout: int, d: nat, fl: Flow.Flow, o: Outside)
    requires pos < |h.buffered| && h.buffered[pos].dst < |h.send| && d < |h.send| && d != h.buffered[pos].dst
    requires Holds(cfg, h) && SideOk(cfg, h, d, fl, o)
    ensures var r := SendStep(cfg, h, pos, timeout);
            && Holds(cfg, r) && |r.send| == |h.send| && SideOk(cfg, r, d, fl, o) && r.send[d] == h.send[d]
            && r.buffered[..pos] == h.buffered[..pos]
            && Sel(r.buffered, h.id, d, false) == Sel(h.buffered, h.id, d, false)
  {
    hide FrameValid;
    hide Sel;
    hide Flow.FlowOk;
    hide Disciplined;
    assert h.buffered[pos] in h.buffered;
    SelSnoc(h.outgoing, h.buffered[pos], h.id, d, false);
    SelRemoveAt(h.buffered, pos, h.id, d, false);
    assert [] + Sel(h.buffered[pos + 1..], h.id, d, false) == Sel(h.buffered[pos + 1..], h.id, d, false);
  }

  /** The frame picked is the flow's oldest buffered frame, because none of the flow's frames was stepped over. */
  lemma PickedIsOldest(h: HostState, pos: nat, d: nat)
    requires pos < |h.buffered|
    requires Sel(h.buffered[..pos], h.id, d, false) == [] && Matches(h.buffered[pos], h.id, d, false)
    ensures Sel(h.buffered, h.id, d, false) == [h.buffered[pos]] + Sel(RemoveAt(h.buffered, pos), h.id, d, false)
  {
    hide Matches;
    hide Sel;
    SelRemoveAt(h.buffered, pos, h.id, d, false);
    var rest := Sel(h.buffered[pos + 1..], h.id, d, false);
    assert [] + rest == rest && [] + ([h.buffered[pos]] + rest) == [h.buffered[pos]] + rest;
  }

  lemma SendStepHolds(cfg: Config, h: HostState, pos: nat, timeout: int)
    requires pos < |h.buffered| && h.buffered[pos].dst < |h.send| && Holds(cfg, h)
    ensures Holds(cfg, SendStep(cfg, h, pos, timeout)) && OwnData(cfg, h.buffered[pos], h.id)
  {
    hide FrameValid;
    assert h.buffered[pos] in h.buffered;
  }

  lemma SendStepSelf(cfg: Config, h: HostState, pos: nat, timeout: int, fl: Flow.Flow, o: Outside)
    returns (fl': Flow.Flow)
    requires pos < |h.buffered| && h.buffered[pos].dst < |h.send| && Holds(cfg, h)
    requires var d := h.buffered[pos].dst;
             && SideOk(cfg, h, d, fl, o) && |h.send[d].window| < cfg.window && AllRunning(h.send[d].window)
             && Sel(h.buffered[..pos], h.id, d, false) == []
    ensures var d, r := h.buffered[pos].dst, SendStep(cfg, h, pos, timeout);
            && Holds(cfg, r) && |r.send| == |h.send| && SideOk(cfg, r, d, fl', o) && AllRunning(r.send[d].window)
            && r.send[d].window == h.send[d].window + [Slot(h.buffered[pos], Some(timeout))]
            && r.buffered[..pos] == h.buffered[..pos]
    ensures fl' == fl.(top := fl.top + 1, flight := fl.flight + [fl.top])
  {
    hide FrameValid;
    hide Sel;
    hide CcInv;
    hide Holds;
    hide Flow.SenderOk;
    hide Flow.ReceiverOk;
    hide Flow.FlightOk;
    hide Flow.AcksOk;
    SendStepHolds(cfg, h, pos, timeout);
    var f := h.buffered[pos];
    var d := f.dst;
    PickedIsOldest(h, pos, d);
    var buf, out := Sel(h.buffered, h.id, d, false), Sel(h.outgoing, h.id, d, false);
    SelSnoc(h.outgoing, f, h.id, d, false);
    assert buf[0] == f && buf[1..] == Sel(RemoveAt(h.buffered, pos), h.id, d, false);
    Flow.SendNewOk(cfg, fl, h.send[d], buf, o.recv, o.ahead + out, Sel(h.incoming, d, h.id, true) + o.behind,
                   Some(timeout));
    assert o.ahead + (out + [f]) == (o.ahead + out) + [f];
    fl' := fl.(top := fl.top + 1, flight := fl.flight + [fl.top]);
  }

  /** What the send loop leaves behind for one destination: frames wait only for room or for budget. */
  ghost predicate SentAll(cfg: Config, h: HostState, budget: int, r: HostState, d: nat, sent: int)
    requires d < |h.send| == |r.send|
  {
    && 0 <= sent <= budget
    && |r.send[d].window| == |h.send[d].window| + sent
    && (Sel(r.buffered, h.id, d, false) == [] || |r.send[d].window| == cfg.window || sent == budget)
    && (h.send[d].window != [] ==> r.send[d].window != [] && r.send[d].window[0] == h.send[d].window[0])
    && (h.send[d].window == [] && sent > 0 ==> r.send[d].window[0].timeout.Some?)
  }

  lemma SentNone(cfg: Config, h: HostState, budget: int, r: HostState, d: nat)
    requires d < |h.send| && budget >= 0 && r.send == h.send && r.buffered == h.buffered
    requires Sel(h.buffered, h.id, d, false) == [] || |h.send[d].window| == cfg.window || budget == 0
    ensures SentAll(cfg, h, budget, r, d, 0)
  {
    hide Sel;
  }

  lemma SentMore(cfg: Config, h: HostState, budget: int, h1: HostState, slot: Slot, r: HostState, d: nat, sent: int)
    requires d < |h.send| == |h1.send| == |r.send| && h1.id == h.id
    requires h1.send[d].window == h.send[d].window + [slot] && slot.timeout.Some?
    requires SentAll(cfg, h1, budget - 1, r, d, sent)
    ensures SentAll(cfg, h, budget, r, d, sent + 1)
  {
    hide Sel;
  }

  lemma SentSame(cfg: Config, h: HostState, budget: int, h1: HostState, r: HostState, d: nat, sent: int)
    requires d < |h.send| == |h1.send| == |r.send| && h1.id == h.id && h1.send[d] == h.send[d]
    requires SentAll(cfg, h1, budget, r, d, sent)
    ensures SentAll(cfg, h, budget, r, d, sent)
  {
    hide Sel;
  }

  /** No frame of the flow was stepped over while there was still room and budget. */
  ghost predicate SkippedOk(cfg: Config, h: HostState, pos: nat, budgets: seq<int>, d: nat)
    requires d < |h.send| == |budgets|
  {
    pos <= |h.buffered| && (Sel(h.buffered[..pos], h.id, d, false) == [] || Stays(cfg, h, d, budgets))
  }

  lemma SkipOne(cfg: Config, h: HostState, pos: nat, budgets: seq<int>, d: nat)
    requires d < |h.send| == |budgets| && pos < |h.buffered| && h.buffered[pos].dst < |h.send|
    requires SkippedOk(cfg, h, pos, budgets, d) && Stays(cfg, h, h.buffered[pos].dst, budgets)
    ensures SkippedOk(cfg, h, pos + 1, budgets, d)
  {
    hide FrameValid;
    hide Sel;
    assert h.buffered[..pos + 1] == h.buffered[..pos] + [h.buffered[pos]];
    SelSnoc(h.buffered[..pos], h.buffered[pos], h.id, d, false);
  }

  lemma SkippedEnd(cfg: Config, h: HostState, pos: nat, budgets: seq<int>, d: nat)
    requires d < |h.send| == |budgets| && pos >= |h.buffered| && SkippedOk(cfg, h, pos, budgets, d)
    ensures Sel(h.buffered, h.id, d, false) == [] || Stays(cfg, h, d, budgets)
  {
    hide Sel;
    assert h.buffered[..pos] == h.buffered;
  }

  lemma SkippedSame(cfg: Config, h: HostState, h1: HostState, pos: nat, budgets: seq<int>, budgets1: seq<int>, d: nat)
    requires d < |h.send| == |budgets| == |h1.send| == |budgets1| && h1.id == h.id
    requires h1.send[d] == h.send[d] && budgets1[d] == budgets[d]
    requires pos <= |h.buffered| && pos <= |h1.buffered| && h1.buffered[..pos] == h.buffered[..pos]
    requires SkippedOk(cfg, h, pos, budgets, d)
    ensures SkippedOk(cfg, h1, pos, budgets1, d)
  {
    hide Sel;
  }

  lemma PickedFacts(cfg: Config, h: HostState, pos: nat, budgets: seq<int>, fl: Flow.Flow, o: Outside)
    requires |budgets| == |h.send| && pos < |h.buffered|
    requires var d := h.buffered[pos].dst;
             d < |h.send| && SkippedOk(cfg, h, pos, budgets, d) && !Stays(cfg, h, d, budgets) &&
             SideOk(cfg, h, d, fl, o)
    ensures var d := h.buffered[pos].dst;
            && Sel(h.buffered[..pos], h.id, d, false) == [] && |h.send[d].window| < cfg.window && budgets[d] != 0
  {
    hide Sel;
    hide Wrap;
  }

  /**
   * The send loop, seen by one destination: it sends the flow's oldest buffered frames in order, never more than the
   * budget, and steps over a frame only if the window is full or the budget spent.
   */
  lemma {:induction false} SendPassSide(cfg: Config, h: HostState, pos: nat, budgets: seq<int>, curr: int, extra: int,
                                        d: nat, fl: Flow.Flow, o: Outside)
    returns (fl': Flow.Flow, sent: nat)
    requires WellFormed(cfg, h) && Holds(cfg, h) && |budgets| == |h.send| && d < |h.send|
    requires budgets[d] >= 0 && (budgets[d] > 0 ==> AllRunning(h.send[d].window))
    requires SideOk(cfg, h, d, fl, o) && SkippedOk(cfg, h, pos, budgets, d)
    ensures var r := SendPass(cfg, h, pos, budgets, curr, extra);
            && Holds(cfg, r) && |r.send| == |h.send| && SideOk(cfg, r, d, fl', o)
            && SentAll(cfg, h, budgets[d], r, d, sent)
            && r == h.(buffered := r.buffered, outgoing := r.outgoing, send := r.send, latestTimeout := r.latestTimeout)
    ensures |fl'.flight| == |fl.flight| + sent && fl.flight <= fl'.flight
    ensures fl' == fl.(top := fl.top + sent, flight := fl'.flight)
    decreases |h.buffered| - pos
  {
    hide *;
    SendUnfold(cfg, h, pos, budgets, curr, extra);
    if pos >= |h.buffered| {
      fl', sent := fl, 0;
      SkippedEnd(cfg, h, pos, budgets, d);
      SendDone(cfg, h, budgets, curr + extra, d, fl, o);
    } else {
      var e := h.buffered[pos].dst;
      if Stays(cfg, h, e, budgets) {
        SkipOne(cfg, h, pos, budgets, d);
        fl', sent := SendPassSide(cfg, h, pos + 1, budgets, curr, extra, d, fl, o);
      } else {
        var timeout := curr + TIMEOUT_INTERVAL_USEC + extra;
        var h1 := SendStep(cfg, h, pos, timeout);
        var budgets1 := budgets[e := budgets[e] - 1];
        var r := SendPass(cfg, h1, pos, budgets1, curr, extra + FRAME_GAP_USEC);
        if e == d {
          PickedFacts(cfg, h, pos, budgets, fl, o);
          var fl1 := SendStepSelf(cfg, h, pos, timeout, fl, o);
          SkippedFresh(cfg, h, h1, pos, budgets1, d);
          fl', sent := SendPassSide(cfg, h1, pos, budgets1, curr, extra + FRAME_GAP_USEC, d, fl1, o);
          SentMore(cfg, h, budgets[d], h1, Slot(h.buffered[pos], Some(timeout)), r, d, sent);
          sent := sent + 1;
        } else {
          SendStepOther(cfg, h, pos, timeout, d, fl, o);
          SkippedSame(cfg, h, h1, pos, budgets, budgets1, d);
          fl', sent := SendPassSide(cfg, h1, pos, budgets1, curr, extra + FRAME_GAP_USEC, d, fl, o);
          SentSame(cfg, h, budgets[d], h1, r, d, sent);
        }
      }
    }
  }

  lemma SkippedFresh(cfg: Config, h: HostState, h1: HostState, pos: nat, budgets: seq<int>, d: nat)
    requires d < |h.send| == |h1.send| == |budgets| && h1.id == h.id
    requires pos <= |h.buffered| && pos <= |h1.buffered| && h1.buffered[..pos] == h.buffered[..pos]
    requires Sel(h.buffered[..pos], h.id, d, false) == []
    ensures SkippedOk(cfg, h1, pos, budgets, d)
  {
    hide Sel;
  }

  lemma SendDone(cfg: Config, h: HostState, budgets: seq<int>, latest: int, d: nat, fl: Flow.Flow, o: Outside)
    requires Holds(cfg, h) && |budgets| == |h.send| && d < |h.send| && SideOk(cfg, h, d, fl, o) && budgets[d] >= 0
    requires Sel(h.buffered, h.id, d, false) == [] || Stays(cfg, h, d, budgets)
    ensures var r := h.(latestTimeout := latest);
            Holds(cfg, r) && SideOk(cfg, r, d, fl, o) && SentAll(cfg, h, budgets[d], r, d, 0)
  {
    hide FrameValid;
    hide Sel;
    hide SideOk;
    hide Holds;
    hide SentAll;
    var r := h.(latestTimeout := latest);
    HoldsSame(cfg, h, r);
    SideSame(cfg, h, r, d, fl, o);
    SentNone(cfg, h, budgets[d], r, d);
  }

  // ---------- a whole turn ----------

  /** An occupied window has its oldest timer running, and frames wait only behind an occupied window. */
  ghost predicate Armed(h: HostState, d: nat)
    requires d < |h.send|
  {
    && (h.send[d].window != [] ==> h.send[d].window[0].timeout.Some?)
    && (Sel(h.buffered, h.id, d, false) != [] ==> h.send[d].window != [])
  }

  lemma BudgetAt(h: HostState, d: nat)
    requires d < |h.send| && CcInv(h.send[d].cc)
    ensures Budgets(h)[d] == h.send[d].cc.cwnd.Floor >= 1
  {
    BudgetPositive(h.send[d].cc);
  }

  lemma SideCc(cfg: Config, h: HostState, d: nat, fl: Flow.Flow, o: Outside)
    requires d < |h.send| && SideOk(cfg, h, d, fl, o)
    ensures CcInv(h.send[d].cc)
  {}

  lemma ArmedAfter(cfg: Config, p: Sending, budget: int, h1: HostState, left: int, r: HostState, d: nat, sent: int)
    requires ValidConfig(cfg) && d < |h1.send| == |r.send| && r.id == h1.id && budget >= 1
    requires Resent(p, budget, h1.send[d], left) && SentAll(cfg, h1, left, r, d, sent)
    requires p.window != [] ==> h1.send[d].window[0].timeout.Some?
    ensures Armed(r, d)
    ensures budget - left + sent <= budget
    ensures Sel(r.buffered, r.id, d, false) == [] || |r.send[d].window| == cfg.window || budget - left + sent == budget
  {
    hide Sel;
  }

  lemma OutUnfold(cfg: Config, h: HostState, curr: int)
    requires WellFormed(cfg, h)
    ensures |Budgets(h)| == |h.send|
    ensures var (h1, left) := ResendPass(cfg, h, 0, Budgets(h));
            && WellFormed(cfg, h1)
            && OutPass(cfg, h, curr) == SendPass(cfg, h1, 0, left, Max(curr, h.latestTimeout), 0)
  {
    hide FrameValid;
    hide ResendPass;
    hide SendPass;
  }

  /**
   * The sending pass that led from e to r put at most floor(cwnd) frames for d on the network, and left a frame
   * buffered only if the window is full or that budget is spent.
   */
  ghost predicate WithinBudget(cfg: Config, e: HostState, r: HostState, d: nat)
    requires d < |e.send| == |r.send|
  {
    var out := |Sel(r.outgoing, r.id, d, false)| - |Sel(e.outgoing, e.id, d, false)|;
    var budget := e.send[d].cc.cwnd.Floor;
    && 0 <= out <= budget && 1 <= budget
    && (Sel(r.buffered, r.id, d, false) == [] || |r.send[d].window| == cfg.window || out == budget)
  }

  lemma WithinBudgetIs(cfg: Config, e: HostState, r: HostState, d: nat)
    requires d < |e.send| == |r.send|
    requires var out := |Sel(r.outgoing, r.id, d, false)| - |Sel(e.outgoing, e.id, d, false)|;
             var budget := e.send[d].cc.cwnd.Floor;
             && 0 <= out <= budget && 1 <= budget
             && (Sel(r.buffered, r.id, d, false) == [] || |r.send[d].window| == cfg.window || out == budget)
    ensures WithinBudget(cfg, e, r, d)
  {
    hide Sel;
  }

  /** As many frames of a flow are in flight as lie ahead in the network and in the sender's outgoing list. */
  lemma FlightCount(cfg: Config, h: HostState, d: nat, fl: Flow.Flow, o: Outside)
    requires d < |h.send| && SideOk(cfg, h, d, fl, o)
    ensures |fl.flight| == |o.ahead| + |Sel(h.outgoing, h.id, d, false)|
  {
    hide Sel;
    hide Wrap;
    hide Disciplined;
    hide Flow.SenderOk;
    hide Flow.ReceiverOk;
    hide Flow.AcksOk;
  }

  /**
   * Sending for one destination: at most floor(cwnd) frames go out, retransmissions first, and a frame stays buffered
   * only if the window is full or that budget is spent.
   */
  lemma OutPassSide(cfg: Config, h: HostState, curr: int, d: nat, fl: Flow.Flow, o: Outside) returns (fl': Flow.Flow)
    requires ValidConfig(cfg) && WellFormed(cfg, h) && Holds(cfg, h)
    requires d < |h.send| && d != h.id && SideOk(cfg, h, d, fl, o)
    ensures var r := OutPass(cfg, h, curr);
            && Holds(cfg, r) && |r.send| == |h.send| && SideOk(cfg, r, d, fl', o) && Armed(r, d)
            && r == h.(buffered := r.buffered, outgoing := r.outgoing, send := r.send, latestTimeout := r.latestTimeout,
                       ticks := r.ticks)
            && WithinBudget(cfg, h, r, d)
    ensures fl.flight <= fl'.flight && fl' == fl.(top := fl'.top, flight := fl'.flight)
    ensures h.send[d].window != [] && h.send[d].window[0].timeout.None? ==> HeadResent(fl.flight, fl.base, fl'.flight)
  {
    hide *;
    Indices(cfg, h);
    OutUnfold(cfg, h, curr);
    SideCc(cfg, h, d, fl, o);
    BudgetAt(h, d);
    var budgets := Budgets(h);
    var fl1 := ResendPassSide(cfg, h, 0, budgets, d, fl, o);
    var (h1, left) := ResendPass(cfg, h, 0, budgets);
    ResentFacts(h.send[d], budgets[d], h1.send[d], left[d], fl, fl1, cfg, h1, o, d);
    SkippedStart(cfg, h1, left, d);
    var sent;
    fl', sent := SendPassSide(cfg, h1, 0, left, Max(curr, h.latestTimeout), 0, d, fl1, o);
    ArmedAfter(cfg, h.send[d], budgets[d], h1, left[d], OutPass(cfg, h, curr), d, sent);
    FlightCount(cfg, h, d, fl, o);
    FlightCount(cfg, OutPass(cfg, h, curr), d, fl', o);
    WithinBudgetIs(cfg, h, OutPass(cfg, h, curr), d);
    if h.send[d].window != [] && h.send[d].window[0].timeout.None? {
      HeadResentLater(fl.flight, fl.base, fl1.flight, fl'.flight);
    }
  }

  lemma SkippedStart(cfg: Config, h: HostState, budgets: seq<int>, d: nat)
    requires d < |h.send| == |budgets|
    ensures SkippedOk(cfg, h, 0, budgets, d)
  {
    assert h.buffered[..0] == [];
  }

  lemma ResentFacts(p: Sending, budget: int, q: Sending, left: int, fl: Flow.Flow, fl1: Flow.Flow, cfg: Config,
                    h1: HostState, o: Outside, d: nat)
    requires Resent(p, budget, q, left) && d < |h1.send| && h1.send[d] == q && SideOk(cfg, h1, d, fl1, o)
    ensures left >= 0 && (left > 0 ==> AllRunning(q.window))
  {
    hide SideOk;
  }

  lemma ExpiredStops(p: Sending, curr: int)
    requires SomeExpired(p.window, curr)
    ensures var q := OnTimeout(p, curr); q.window != [] && q.window[0].timeout.None?
  {}

  /** An expired timer stops the oldest timer of its window. */
  lemma ExpiredHead(h: HostState, curr: int, d: nat)
    requires d < |h.send| && d != h.id && SomeExpired(h.send[d].window, curr)
    ensures var q := TimeoutPass(h, curr).send;
            |q| == |h.send| && q[d].window != [] && q[d].window[0].timeout.None?
  {
    hide *;
    TimeoutPassAt(h, curr, d);
    ExpiredStops(h.send[d], curr);
  }

  lemma PassesUnfold(cfg: Config, h: HostState, curr: int)
    requires WellFormed(cfg, h)
    ensures var h1 := InputPass(cfg, h);
            && WellFormed(cfg, h1)
            && var h2 := AckPass(cfg, h1, 0);
               && WellFormed(cfg, h2) && WellFormed(cfg, TimeoutPass(h2, curr))
               && TimeoutPass(h2, curr) == h2.(send := TimeoutPass(h2, curr).send)
               && EarlyPasses(cfg, h, curr) == TimeoutPass(h2, curr)
               && Passes(cfg, h, curr) == OutPass(cfg, EarlyPasses(cfg, h, curr), curr)
  {
    hide FrameValid;
    hide InputPass;
    hide AckPass;
    hide OutPass;
    hide OnTimeout;
  }

  lemma OnlyAcksSame(cfg: Config, h: HostState, r: HostState)
    requires OnlyAcks(cfg, h) && r.id == h.id && r.incoming == h.incoming
    ensures OnlyAcks(cfg, r)
  {}

  /** The first three passes of a woken host, seen by one destination. */
  lemma EarlyPassesSide(cfg: Config, h: HostState, curr: int, d: nat, fl: Flow.Flow, o: Outside, taken: seq<CString>)
    returns (fl': Flow.Flow)
    requires ValidConfig(cfg) && WellFormed(cfg, h) && Holds(cfg, h) && OnlyAcks(cfg, h)
    requires d < |h.send| && d != h.id && SideOk(cfg, h, d, fl, o) && CarriesAll(fl.gen, taken)
    ensures var r := EarlyPasses(cfg, h, curr);
            && Holds(cfg, r) && |r.send| == |h.send| && SideOk(cfg, r, d, fl', o)
            && r == h.(cmds := [], incoming := [], buffered := r.buffered, outgoing := r.outgoing, send := r.send,
                       latestTimeout := r.latestTimeout, ticks := r.ticks, mallocs := r.mallocs)
            && (SomeExpired(h.send[d].window, curr) && fl'.base == fl.base ==>
                  HeadResent(fl.flight, fl.base, fl'.flight) ||
                  (fl'.flight == fl.flight && r.send[d].window != [] && r.send[d].window[0].timeout.None?))
    ensures CarriesAll(fl'.gen, taken + Pending(h.cmds, d)) && fl.gen <= fl'.gen && fl'.next == fl.next
    ensures var n := |Sel(h.incoming, d, h.id, true)|;
            && n <= |fl.acks| && fl'.base == (if n == 0 then fl.base else fl.acks[n - 1])
            && fl.base <= fl'.base && fl.flight <= fl'.flight && |fl'.flight| <= |fl.flight| + n
  {
    hide *;
    Indices(cfg, h);
    PassesUnfold(cfg, h, curr);
    var fl1 := InputPassSide(cfg, h, d, fl, o, taken);
    var h1 := InputPass(cfg, h);
    OnlyAcksSame(cfg, h, h1);
    fl' := AckPassSide(cfg, h1, d, fl1, o);
    var h2 := AckPass(cfg, h1, 0);
    AcksDoneIs(h1.send[d], fl1, h2.send[d], fl', |Sel(h.incoming, d, h.id, true)|);
    TimeoutPassSide(cfg, h2, curr, d, fl', o);
    if SomeExpired(h2.send[d].window, curr) {
      ExpiredHead(h2, curr, d);
    }
  }

  lemma AcksDoneIs(p: Sending, fl: Flow.Flow, q: Sending, fl': Flow.Flow, n: nat)
    requires AcksDone(p, fl, q, fl', n)
    ensures fl.base <= fl'.base && fl.flight <= fl'.flight && |fl'.flight| <= |fl.flight| + n
    ensures fl'.base == fl.base ==>
              HeadResent(fl.flight, fl.base, fl'.flight) || (fl'.flight == fl.flight && q.window == p.window)
  {
    hide HeadResent;
  }

  /** The four passes of a woken host, seen by one destination. */
  lemma PassesSide(cfg: Config, h: HostState, curr: int, d: nat, fl: Flow.Flow, o: Outside, taken: seq<CString>)
    returns (fl': Flow.Flow)
    requires ValidConfig(cfg) && WellFormed(cfg, h) && Holds(cfg, h) && OnlyAcks(cfg, h)
    requires d < |h.send| && d != h.id && SideOk(cfg, h, d, fl, o) && CarriesAll(fl.gen, taken)
    ensures var e, r := EarlyPasses(cfg, h, curr), Passes(cfg, h, curr);
            && Holds(cfg, r) && |r.send| == |e.send| == |h.send| && SideOk(cfg, r, d, fl', o) && Armed(r, d)
            && r == h.(cmds := [], incoming := [], buffered := r.buffered, outgoing := r.outgoing, send := r.send,
                       latestTimeout := r.latestTimeout, ticks := r.ticks, mallocs := r.mallocs)
            && WithinBudget(cfg, e, r, d)
            && 0 <= |Sel(e.outgoing, h.id, d, false)| - |Sel(h.outgoing, h.id, d, false)|
                 <= |Sel(h.incoming, d, h.id, true)|
    ensures CarriesAll(fl'.gen, taken + Pending(h.cmds, d)) && fl.gen <= fl'.gen && fl'.next == fl.next
    ensures var n := |Sel(h.incoming, d, h.id, true)|;
            n <= |fl.acks| && fl.base <= fl'.base == (if n == 0 then fl.base else fl.acks[n - 1])
    ensures SomeExpired(h.send[d].window, curr) && fl'.base == fl.base ==> HeadResent(fl.flight, fl.base, fl'.flight)
  {
    hide *;
    PassesUnfold(cfg, h, curr);
    var fl2 := EarlyPassesSide(cfg, h, curr, d, fl, o, taken);
    var e := EarlyPasses(cfg, h, curr);
    fl' := OutPassSide(cfg, e, curr, d, fl2, o);
    FlightCount(cfg, h, d, fl, o);
    FlightCount(cfg, e, d, fl2, o);
    if HeadResent(fl.flight, fl.base, fl2.flight) {
      HeadResentLater(fl.flight, fl.base, fl2.flight, fl'.flight);
    }
  }

  /**
   * What one turn, from h to r, puts on the network for d: if the host wakes, at most one frame for each ACK that has
   * come from d, and then at most floor(cwnd) frames, of which it spares one only if nothing is left to send or the
   * window is full; if it sleeps, nothing.
   */
  ghost predicate Thrifty(cfg: Config, h: HostState, r: HostState, d: nat)
    requires WellFormed(cfg, h) && d < |h.send| == |r.send|
  {
    var curr, h0 := cfg.clock(h.id, h.ticks), h.(ticks := h.ticks + 1);
    if Awake(h0, curr) then
      var e := EarlyPasses(cfg, h0, curr);
      && |e.send| == |h.send| && WithinBudget(cfg, e, r, d)
      && 0 <= |Sel(e.outgoing, h.id, d, false)| - |Sel(h.outgoing, h.id, d, false)|
           <= |Sel(h.incoming, d, h.id, true)|
    else Sel(r.outgoing, h.id, d, false) == Sel(h.outgoing, h.id, d, false)
  }

  lemma ThriftyAwake(cfg: Config, h: HostState, h0: HostState, curr: int, h1: HostState, r: HostState, d: nat)
    requires WellFormed(cfg, h) && d < |h.send| == |h1.send| == |r.send| && curr == cfg.clock(h.id, h.ticks)
    requires h0 == h.(ticks := h.ticks + 1) && WellFormed(cfg, h0) && Awake(h0, curr)
    requires r.id == h1.id && r.send == h1.send && r.outgoing == h1.outgoing && r.buffered == h1.buffered
    requires var e := EarlyPasses(cfg, h0, curr);
             && |e.send| == |h.send| && WithinBudget(cfg, e, h1, d)
             && 0 <= |Sel(e.outgoing, h0.id, d, false)| - |Sel(h0.outgoing, h0.id, d, false)|
                  <= |Sel(h0.incoming, d, h0.id, true)|
    ensures Thrifty(cfg, h, r, d)
  {
    hide Sel;
    hide Awake;
    hide EarlyPasses;
  }

  lemma ThriftyAsleep(cfg: Config, h: HostState, r: HostState, d: nat)
    requires WellFormed(cfg, h) && d < |h.send| == |r.send|
    requires !Awake(h.(ticks := h.ticks + 1), cfg.clock(h.id, h.ticks)) && r.outgoing == h.outgoing
    ensures Thrifty(cfg, h, r, d)
  {
    hide Sel;
    hide Awake;
    hide EarlyPasses;
  }

  lemma TurnUnfold(cfg: Config, h: HostState)
    requires WellFormed(cfg, h)
    ensures var curr, h0 := cfg.clock(h.id, h.ticks), h.(ticks := h.ticks + 1);
            && WellFormed(cfg, h0)
            && var h1 := if Awake(h0, curr) then Passes(cfg, h0, curr) else h0;
               Turn(cfg, h) == h1.(active := AwaitingAck(h1) || h1.buffered != [])
    ensures !Awake(h.(ticks := h.ticks + 1), cfg.clock(h.id, h.ticks)) ==> h.cmds == [] && h.incoming == []
  {
    hide FrameValid;
    hide Passes;
    hide ReachedTimeout;
    hide AwaitingAck;
  }

  lemma AsleepNothingExpired(h: HostState, curr: int, d: nat)
    requires !Awake(h, curr) && d < |h.send| && d != h.id
    ensures !SomeExpired(h.send[d].window, curr)
  {
    hide SomeExpired;
  }

  lemma AsleepSide(cfg: Config, h: HostState, d: nat, taken: seq<CString>)
    requires h.cmds == [] && h.incoming == []
    ensures taken + Pending(h.cmds, d) == taken && Sel(h.incoming, d, h.id, true) == []
  {}

  lemma ArmedSame(h: HostState, r: HostState, d: nat)
    requires d < |h.send| && Armed(h, d) && r.send == h.send && r.buffered == h.buffered && r.id == h.id
    ensures Armed(r, d)
  {}

  /**
   * A host's turn, seen by one of its outgoing flows: all invariants survive, every pending message is in the stream,
   * every incoming ACK is consumed, and the oldest timer runs.
   */
  lemma TurnSide(cfg: Config, h: HostState, d: nat, fl: Flow.Flow, o: Outside, taken: seq<CString>)
    returns (fl': Flow.Flow)
    requires ValidConfig(cfg) && WellFormed(cfg, h) && Holds(cfg, h) && OnlyAcks(cfg, h)
    requires d < |h.send| && d != h.id && SideOk(cfg, h, d, fl, o) && CarriesAll(fl.gen, taken) && Armed(h, d)
    ensures var r := Turn(cfg, h);
            && Holds(cfg, r) && |r.send| == |h.send| && SideOk(cfg, r, d, fl', o) && Armed(r, d)
            && r == h.(cmds := [], incoming := [], buffered := r.buffered, outgoing := r.outgoing, send := r.send,
                       latestTimeout := r.latestTimeout, ticks := r.ticks, mallocs := r.mallocs, active := r.active)
            && r.active == (AwaitingAck(r) || r.buffered != [])
    ensures CarriesAll(fl'.gen, taken + Pending(h.cmds, d)) && fl.gen <= fl'.gen && fl'.next == fl.next
    ensures var n := |Sel(h.incoming, d, h.id, true)|;
            n <= |fl.acks| && fl.base <= fl'.base == (if n == 0 then fl.base else fl.acks[n - 1])
    ensures SomeExpired(h.send[d].window, cfg.clock(h.id, h.ticks)) && fl'.base == fl.base ==>
              HeadResent(fl.flight, fl.base, fl'.flight)
    ensures |Turn(cfg, h).send| == |h.send| && Thrifty(cfg, h, Turn(cfg, h), d)
  {
    hide *;
    TurnUnfold(cfg, h);
    var curr, h0 := cfg.clock(h.id, h.ticks), h.(ticks := h.ticks + 1);
    HoldsSame(cfg, h, h0);
    OnlyAcksSame(cfg, h, h0);
    SideSame(cfg, h, h0, d, fl, o);
    var h1 := h0;
    if Awake(h0, curr) {
      fl' := PassesSide(cfg, h0, curr, d, fl, o, taken);
      h1 := Passes(cfg, h0, curr);
      ThriftyAwake(cfg, h, h0, curr, h1, Turn(cfg, h), d);
    } else {
      ThriftyAsleep(cfg, h, Turn(cfg, h), d);
      fl' := fl;
      AsleepNothingExpired(h0, curr, d);
      AsleepSide(cfg, h, d, taken);
      ArmedSame(h, h1, d);
    }
    var r := Turn(cfg, h);
    HoldsSame(cfg, h1, r);
    SideSame(cfg, h1, r, d, fl', o);
    ArmedSame(h1, r, d);
    AwaitingSame(h1, r);
  }

  lemma TurnWellFormed(cfg: Config, h: HostState)
    requires WellFormed(cfg, h)
    ensures WellFormed(cfg, Turn(cfg, h))
  {}

  lemma AwaitingSame(h: HostState, r: HostState)
    requires r.send == h.send
    ensures AwaitingAck(r) == AwaitingAck(h)
  {}
}
