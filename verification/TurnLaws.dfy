/** What the passes of a turn leave alone, which timers they start, and what goes out when no timer is due. */
module TurnLaws {
  import opened Common
  import opened SeqNum
  import opened Frames
  import opened HostModel
  import opened Messages
  import opened SenderPasses
  import opened SendingTurn
  import opened AckLaws

  // ---------- what each pass leaves alone ----------

  /** Taking up input changes neither windows nor congestion state, and sends nothing. */
  lemma {:induction false} InputKeeps(cfg: Config, h: HostState, d: nat)
    requires WellFormed(cfg, h) && d < |h.send|
    ensures var r := InputPass(cfg, h);
            && |r.send| == |h.send| && r.send[d] == h.send[d].(currSeq := r.send[d].currSeq)
            && r.outgoing == h.outgoing && r.ticks == h.ticks && r.latestTimeout == h.latestTimeout && r.id == h.id
            && r.incoming == h.incoming
    decreases |h.cmds|
  {
    hide *;
    Indices(cfg, h);
    if h.cmds == [] {
      InputPassEnd(cfg, h);
    } else {
      InputUnfold(cfg, h);
      var h1 := h.(cmds := h.cmds[1..]);
      FragmentKeeps(cfg, h1, h.cmds[0], 0, d);
      InputKeeps(cfg, Fragment(cfg, h1, h.cmds[0], 0), d);
    }
  }

  lemma {:induction false} FragmentKeeps(cfg: Config, h: HostState, cmd: Cmd, start: nat, d: nat)
    requires cmd.dst < |h.send| && d < |h.send|
    ensures var r := Fragment(cfg, h, cmd, start);
            |r.send| == |h.send| && r.send[d] == h.send[d].(currSeq := r.send[d].currSeq)
    decreases |Stored(cmd.message)| - start
  {
    hide *;
    if start >= |Stored(cmd.message)| {
      FragmentDone(cfg, h, cmd, start);
    } else {
      FragmentUnfold(cfg, h, cmd, start);
      FragmentStepIs(cfg, h, cmd, start);
      EndAfter(cmd.message, start);
      FragmentKeeps(cfg, FragmentStep(cfg, h, cmd, start), cmd, EndOf(cmd.message, start), d);
    }
  }

  lemma EndAfter(message: CString, start: nat)
    requires start < |Stored(message)|
    ensures start < EndOf(message, start) <= |Stored(message)|
  {}

  // ---------- timers ----------

  /** A time at least 100 ms after one of the clock readings from `first` up to `last`. */
  ghost predicate Later(cfg: Config, id: uint8, first: nat, last: nat, time: int) {
    exists t: nat :: first <= t < last && time >= cfg.clock(id, t) + 100000
  }

  /**
   * What host h may have become since its clock reading `first`: more has gone out, and every running timer was running
   * before or is set to at least 100 ms after a reading made since.
   */
  ghost predicate Since(cfg: Config, first: nat, h: HostState, r: HostState) {
    && r.id == h.id && first <= h.ticks <= r.ticks && |r.send| == |h.send| && h.outgoing <= r.outgoing
    && (forall d, s :: 0 <= d < |r.send| && s in r.send[d].window && s.timeout.Some? ==>
          s in h.send[d].window || Later(cfg, h.id, first, r.ticks, s.timeout.value))
  }

  lemma SinceSame(cfg: Config, first: nat, h: HostState, r: HostState)
    requires first <= h.ticks <= r.ticks && r.id == h.id && |r.send| == |h.send| && h.outgoing <= r.outgoing
    requires forall d :: 0 <= d < |h.send| ==> r.send[d].window == h.send[d].window
    ensures Since(cfg, first, h, r)
  {
    hide Later;
  }

  lemma SinceMore(cfg: Config, first: nat, h: HostState, h1: HostState, r: HostState)
    requires Since(cfg, first, h, h1) && Since(cfg, first, h1, r)
    ensures Since(cfg, first, h, r)
  {
    assert forall t :: Later(cfg, h.id, first, h1.ticks, t) ==> Later(cfg, h.id, first, r.ticks, t);
    hide Later;
  }

  /** One destination's window has changed. */
  lemma SinceOne(cfg: Config, first: nat, h: HostState, d: nat, q: Sending, r: HostState)
    requires d < |h.send| && first <= h.ticks <= r.ticks && r.id == h.id && h.outgoing <= r.outgoing
    requires r.send == h.send[d := q]
    requires forall s :: s in q.window && s.timeout.Some? ==>
               s in h.send[d].window || Later(cfg, h.id, first, r.ticks, s.timeout.value)
    ensures Since(cfg, first, h, r)
  {
    hide Later;
  }

  /** Resending slot i restarts its timer, at 100 ms from now, and puts the next timer at least 10 ms later. */
  lemma RetransmitTimer(cfg: Config, h: HostState, d: nat, i: nat)
    requires d < |h.send| && i < |h.send[d].window|
    requires var w := h.send[d].window; forall j :: 0 <= j < i ==> w[j].frame.seqNum != w[i].frame.seqNum
    ensures var w := h.send[d].window;
            var r, reading := Retransmit(cfg, h, d, w[i].frame.seqNum), cfg.clock(h.id, h.ticks);
            var now := if reading >= h.latestTimeout then reading else h.latestTimeout;
            && r.send == h.send[d := h.send[d].(window := w[i := w[i].(timeout := Some(now + 100000))])]
            && r.outgoing == h.outgoing + [w[i].frame]
            && r.latestTimeout == now + 10000 && r.ticks == h.ticks + 1
  {
    FindSeqIs(h.send[d].window, h.send[d].window[i].frame.seqNum, i);
  }

  lemma RetransmitSince(cfg: Config, h: HostState, d: nat, seqNum: uint8, first: nat)
    requires d < |h.send| && first <= h.ticks
    ensures Since(cfg, first, h, Retransmit(cfg, h, d, seqNum))
  {
    hide FindSeq, Since;
    var r, w := Retransmit(cfg, h, d, seqNum), h.send[d].window;
    if w == [] {
      SinceSame(cfg, first, h, r);
    } else {
      assert Later(cfg, h.id, first, r.ticks, Max(cfg.clock(h.id, h.ticks), h.latestTimeout) + 100000);
      hide Later;
      SinceOne(cfg, first, h, d, r.send[d], r);
    }
  }

  lemma OnAckSince(cfg: Config, h: HostState, d: nat, seqNum: uint8, first: nat)
    requires d < |h.send| && first <= h.ticks
    ensures Since(cfg, first, h, OnAck(cfg, h, d, seqNum))
  {
    hide *;
    var p := CountAck(h.send[d], seqNum);
    var q := p.(cc := OnAckCC(p.cc));
    OnAckIs(cfg, h, d, seqNum, p);
    CountAckWindow(h.send[d], seqNum);
    var h1 := SetSend(h, d, q);
    SetSendShows(h, d, q);
    SinceSame(cfg, first, h, h1);
    var h2 := if EntersFastRecovery(p.cc) then Retransmit(cfg, h1, d, Wrap(seqNum + 1)) else h1;
    if EntersFastRecovery(p.cc) {
      RetransmitSince(cfg, h1, d, Wrap(seqNum + 1), first);
      SinceMore(cfg, first, h, h1, h2);
    }
    SlideSuffix(h2.send[d], seqNum);
    SetSendShows(h2, d, Slide(h2.send[d], seqNum));
    SinceIs(cfg, first, h, h2);
    SinceOne(cfg, first, h2, d, Slide(h2.send[d], seqNum), OnAck(cfg, h, d, seqNum));
    SinceMore(cfg, first, h, h2, OnAck(cfg, h, d, seqNum));
  }

  lemma SinceIs(cfg: Config, first: nat, h: HostState, r: HostState)
    requires Since(cfg, first, h, r)
    ensures r.id == h.id && first <= h.ticks <= r.ticks && |r.send| == |h.send| && h.outgoing <= r.outgoing
  {}

  lemma SetSendShows(h: HostState, d: nat, p: Sending)
    requires d < |h.send|
    ensures var r := SetSend(h, d, p);
            && r.send == h.send[d := p] && r.id == h.id && r.outgoing == h.outgoing && r.ticks == h.ticks
            && r.incoming == h.incoming && r.latestTimeout == h.latestTimeout
  {}

  lemma {:induction false} AfterAcksSince(cfg: Config, h: HostState, j: nat, first: nat)
    requires WellFormed(cfg, h) && OnlyAcks(cfg, h) && j <= |h.incoming| && first <= h.ticks
    ensures Since(cfg, first, h, AfterAcks(cfg, h, j))
    decreases j
  {
    hide *;
    if j == 0 {
      AfterAcksUnfold(cfg, h, 0);
      SinceSame(cfg, first, h, h);
    } else {
      AfterAcksSince(cfg, h, j - 1, first);
      AfterAcksNext(cfg, h, j - 1);
      var r := AfterAcks(cfg, h, j - 1);
      SinceIs(cfg, first, h, r);
      AckStepIs(cfg, r);
      var f, r1 := r.incoming[0], r.(incoming := r.incoming[1..]);
      SinceSame(cfg, first, r, r1);
      SinceMore(cfg, first, h, r, r1);
      if FrameValid(f) {
        OnAckSince(cfg, r1, f.src, f.seqNum, first);
        SinceMore(cfg, first, h, r1, AckStep(cfg, r));
      }
    }
  }

  /** A timeout starts no timer. */
  lemma TimeoutSince(cfg: Config, h: HostState, curr: int, first: nat)
    requires first <= h.ticks
    ensures Since(cfg, first, h, TimeoutPass(h, curr))
  {
    hide SomeExpired, Later;
    var r := TimeoutPass(h, curr);
    assert r.outgoing == h.outgoing;
    forall d, s | 0 <= d < |r.send| && s in r.send[d].window && s.timeout.Some? ensures s in h.send[d].window {
      if SomeExpired(h.send[d].window, curr) && d != h.id {
        assert false;
      }
    }
  }

  // ---------- the sending pass ----------

  /** Sending changes no congestion state. */
  ghost predicate SameCongestion(h: HostState, r: HostState) {
    && |r.send| == |h.send|
    && (forall d :: 0 <= d < |h.send| ==> r.send[d].cc == h.send[d].cc && r.send[d].dupSeq == h.send[d].dupSeq)
  }

  lemma RetransmitCongestion(cfg: Config, h: HostState, d: nat, seqNum: uint8)
    requires d < |h.send|
    ensures SameCongestion(h, Retransmit(cfg, h, d, seqNum))
  {
    hide FindSeq;
  }

  lemma SameCongestionMore(h: HostState, h1: HostState, r: HostState)
    requires SameCongestion(h, h1) && SameCongestion(h1, r)
    ensures SameCongestion(h, r)
  {}

  lemma SameCongestionSelf(h: HostState)
    ensures SameCongestion(h, h)
  {}

  lemma {:induction false} ResendWindowSince(cfg: Config, h: HostState, d: nat, i: nat, budget: int, first: nat)
    requires d < |h.send| && first <= h.ticks
    ensures var r := ResendWindow(cfg, h, d, i, budget).0; Since(cfg, first, h, r) && SameCongestion(h, r)
    decreases |h.send[d].window| - i
  {
    hide *;
    ResendUnfold(cfg, h, d, i, budget);
    SinceSame(cfg, first, h, h);
    SameCongestionSelf(h);
    if i < |h.send[d].window| {
      var slot := h.send[d].window[i];
      if slot.timeout.None? && budget > 0 {
        var h1 := Retransmit(cfg, h, d, slot.frame.seqNum);
        RetransmitFrame(cfg, h, d, slot.frame.seqNum);
        RetransmitSince(cfg, h, d, slot.frame.seqNum, first);
        RetransmitCongestion(cfg, h, d, slot.frame.seqNum);
        SinceIs(cfg, first, h, h1);
        ResendWindowSince(cfg, h1, d, i + 1, budget - 1, first);
        var r := ResendWindow(cfg, h1, d, i + 1, budget - 1).0;
        SinceMore(cfg, first, h, h1, r);
        SameCongestionMore(h, h1, r);
      } else {
        ResendWindowSince(cfg, h, d, i + 1, budget, first);
      }
    }
  }

  lemma {:induction false} ResendPassSince(cfg: Config, h: HostState, e: nat, budgets: seq<int>, first: nat)
    requires |budgets| == |h.send| && first <= h.ticks
    ensures var r := ResendPass(cfg, h, e, budgets).0; Since(cfg, first, h, r) && SameCongestion(h, r)
    decreases |h.send| - e
  {
    hide *;
    ResendPassUnfold(cfg, h, e, budgets);
    SinceSame(cfg, first, h, h);
    SameCongestionSelf(h);
    if e < |h.send| {
      if e == h.id {
        ResendPassSince(cfg, h, e + 1, budgets, first);
      } else {
        var (h1, b) := ResendWindow(cfg, h, e, 0, budgets[e]);
        ResendWindowSince(cfg, h, e, 0, budgets[e], first);
        ResendWindowSame(cfg, h, e, budgets[e]);
        SinceIs(cfg, first, h, h1);
        ResendPassSince(cfg, h1, e + 1, budgets[e := b], first);
        var r := ResendPass(cfg, h1, e + 1, budgets[e := b]).0;
        SinceMore(cfg, first, h, h1, r);
        SameCongestionMore(h, h1, r);
      }
    }
  }

  lemma ResendWindowSame(cfg: Config, h: HostState, d: nat, budget: int)
    requires d < |h.send|
    ensures |ResendWindow(cfg, h, d, 0, budget).0.send| == |h.send| && ResendWindow(cfg, h, d, 0, budget).0.id == h.id
  {}

  /**
   * The slots for d among frames sent from `start` on: each frame's timer runs 100 ms, and the timers of successive
   * frames, whatever their destinations, are 10 ms apart.
   */
  function Started(sent: seq<Frame>, start: int, d: int): seq<Slot> {
    if sent == [] then []
    else (if sent[0].dst == d then [Slot(sent[0], Some(start + 100000))] else []) + Started(sent[1..], start + 10000, d)
  }

  /**
   * The send loop: what it sends joins the windows in the order in which it goes out, with timers spaced as `Started`
   * says, and the next timer of any kind is to come after them.
   */
  lemma {:induction false} SendPassTimers(cfg: Config, h: HostState, pos: nat, budgets: seq<int>, curr: int, extra: int)
    returns (sent: seq<Frame>)
    requires WellFormed(cfg, h) && |budgets| == |h.send|
    ensures var r := SendPass(cfg, h, pos, budgets, curr, extra);
            && r.outgoing == h.outgoing + sent && r.latestTimeout == curr + extra + 10000 * |sent|
            && (forall f :: f in sent ==> f in h.buffered)
            && SameCongestion(h, r) && r.id == h.id && r.ticks == h.ticks
            && (forall d :: 0 <= d < |h.send| ==>
                  r.send[d].window == h.send[d].window + Started(sent, curr + extra, d))
    decreases |h.buffered| - pos
  {
    hide *;
    SendUnfold(cfg, h, pos, budgets, curr, extra);
    if pos >= |h.buffered| {
      sent := [];
      SentNothing(h, curr + extra);
    } else {
      var e := h.buffered[pos].dst;
      if Stays(cfg, h, e, budgets) {
        sent := SendPassTimers(cfg, h, pos + 1, budgets, curr, extra);
      } else {
        var h1 := SendStep(cfg, h, pos, curr + TIMEOUT_INTERVAL_USEC + extra);
        var rest := SendPassTimers(cfg, h1, pos, budgets[e := budgets[e] - 1], curr, extra + FRAME_GAP_USEC);
        sent := [h.buffered[pos]] + rest;
        SentFirst(cfg, h, pos, curr, extra, h1, rest, SendPass(cfg, h, pos, budgets, curr, extra));
      }
    }
  }

  lemma SentNothing(h: HostState, latest: int)
    ensures var r := h.(latestTimeout := latest);
            && r.outgoing == h.outgoing + [] && SameCongestion(h, r)
            && forall d :: 0 <= d < |h.send| ==> r.send[d].window == h.send[d].window + Started([], latest, d)
  {}

  lemma SentFirst(cfg: Config, h: HostState, pos: nat, curr: int, extra: int, h1: HostState, rest: seq<Frame>,
                  r: HostState)
    requires pos < |h.buffered| && h.buffered[pos].dst < |h.send|
    requires h1 == SendStep(cfg, h, pos, curr + TIMEOUT_INTERVAL_USEC + extra)
    requires |h1.send| == |h.send| && SameCongestion(h1, r)
    requires r.outgoing == h1.outgoing + rest && r.latestTimeout == curr + extra + FRAME_GAP_USEC + 10000 * |rest|
    requires forall f :: f in rest ==> f in h1.buffered
    requires forall d :: 0 <= d < |h1.send| ==>
               r.send[d].window == h1.send[d].window + Started(rest, curr + extra + FRAME_GAP_USEC, d)
    ensures var sent := [h.buffered[pos]] + rest;
            && r.outgoing == h.outgoing + sent && r.latestTimeout == curr + extra + 10000 * |sent|
            && (forall f :: f in sent ==> f in h.buffered) && SameCongestion(h, r)
            && h1.id == h.id && h1.ticks == h.ticks
            && (forall d :: 0 <= d < |h.send| ==>
                  r.send[d].window == h.send[d].window + Started(sent, curr + extra, d))
  {
    var f, sent := h.buffered[pos], [h.buffered[pos]] + rest;
    assert sent[1..] == rest;
    forall d | 0 <= d < |h.send|
      ensures r.send[d].window == h.send[d].window + Started(sent, curr + extra, d)
    {
      var after := Started(rest, curr + extra + FRAME_GAP_USEC, d);
      var slot := Slot(f, Some(curr + extra + 100000));
      if f.dst == d {
        assert Started(sent, curr + extra, d) == [slot] + after;
        assert (h.send[d].window + [slot]) + after == h.send[d].window + ([slot] + after);
      } else {
        assert Started(sent, curr + extra, d) == [] + after;
      }
    }
  }

  lemma {:induction false} StartedLater(sent: seq<Frame>, start: int, d: int, s: Slot)
    requires s in Started(sent, start, d)
    ensures s.timeout.Some? && s.timeout.value >= start + 100000
  {
    if s in Started(sent[1..], start + 10000, d) {
      StartedLater(sent[1..], start + 10000, d, s);
    }
  }

  lemma LaterThan(cfg: Config, id: uint8, first: nat, last: nat, time: int)
    requires first < last && time >= cfg.clock(id, first) + 100000
    ensures Later(cfg, id, first, last, time)
  {}

  /** Sending starts timers of at least 100 ms and leaves the congestion state alone. */
  lemma OutSince(cfg: Config, h: HostState, curr: int, first: nat)
    requires WellFormed(cfg, h) && first < h.ticks && curr == cfg.clock(h.id, first)
    ensures var r := OutPass(cfg, h, curr); Since(cfg, first, h, r) && SameCongestion(h, r)
  {
    hide *;
    OutUnfold(cfg, h, curr);
    var (h1, left) := ResendPass(cfg, h, 0, Budgets(h));
    ResendPassSince(cfg, h, 0, Budgets(h), first);
    SinceIs(cfg, first, h, h1);
    var now := Max(curr, h.latestTimeout);
    var sent := SendPassTimers(cfg, h1, 0, left, now, 0);
    var r := OutPass(cfg, h, curr);
    MaxIs(curr, h.latestTimeout);
    SentSince(cfg, h1, sent, now, first, r);
    SinceMore(cfg, first, h, h1, r);
    SameCongestionMore(h, h1, r);
  }

  /**
   * The timers of the new frames of a sending pass start from the clock, or from where the timers of earlier passes
   * have got to if that is later.
   */
  lemma OutTimers(cfg: Config, h: HostState, curr: int) returns (resent: HostState, sent: seq<Frame>)
    requires WellFormed(cfg, h)
    ensures resent == ResendPass(cfg, h, 0, Budgets(h)).0 && |resent.send| == |h.send|
    ensures var start, r := if curr >= h.latestTimeout then curr else h.latestTimeout, OutPass(cfg, h, curr);
            && |r.send| == |h.send| && r.outgoing == resent.outgoing + sent
            && r.latestTimeout == start + 10000 * |sent|
            && forall d :: 0 <= d < |h.send| ==>
                 r.send[d].window == resent.send[d].window + Started(sent, start, d)
  {
    hide *;
    OutUnfold(cfg, h, curr);
    resent := ResendPass(cfg, h, 0, Budgets(h)).0;
    var left := ResendPass(cfg, h, 0, Budgets(h)).1;
    MaxIs(curr, h.latestTimeout);
    sent := SendPassTimers(cfg, resent, 0, left, Max(curr, h.latestTimeout), 0);
    ResendPassSince(cfg, h, 0, Budgets(h), 0);
    SinceIs(cfg, 0, h, resent);
    SameCongestionIs(resent, OutPass(cfg, h, curr));
  }

  lemma MaxIs(a: int, b: int)
    ensures Max(a, b) >= a && Max(a, b) == if a >= b then a else b
  {}

  lemma SentSince(cfg: Config, h: HostState, sent: seq<Frame>, now: int, first: nat, r: HostState)
    requires first < h.ticks && now >= cfg.clock(h.id, first)
    requires r.outgoing == h.outgoing + sent && SameCongestion(h, r) && r.id == h.id && r.ticks == h.ticks
    requires forall d :: 0 <= d < |h.send| ==> r.send[d].window == h.send[d].window + Started(sent, now, d)
    ensures Since(cfg, first, h, r)
  {
    hide Later, Started;
    forall d, s | 0 <= d < |r.send| && s in r.send[d].window && s.timeout.Some?
      ensures s in h.send[d].window || Later(cfg, h.id, first, r.ticks, s.timeout.value)
    {
      if s !in h.send[d].window {
        StartedLater(sent, now, d, s);
        LaterThan(cfg, h.id, first, r.ticks, s.timeout.value);
      }
    }
  }

  // ---------- when no timer is due ----------

  lemma {:induction false} QuietWindow(cfg: Config, h: HostState, d: nat, i: nat, budget: int)
    requires d < |h.send| && forall s :: s in h.send[d].window ==> s.timeout.Some?
    ensures ResendWindow(cfg, h, d, i, budget) == (h, budget)
    decreases |h.send[d].window| - i
  {
    hide *;
    ResendUnfold(cfg, h, d, i, budget);
    if i < |h.send[d].window| {
      QuietWindow(cfg, h, d, i + 1, budget);
    }
  }

  /** Resending for other destinations. */
  lemma {:induction false} QuietResend(cfg: Config, h: HostState, e: nat, budgets: seq<int>, d: nat)
    requires |budgets| == |h.send| && d < |h.send| && Holds(cfg, h)
    requires forall s :: s in h.send[d].window ==> s.timeout.Some?
    ensures var r := ResendPass(cfg, h, e, budgets).0;
            && |r.send| == |h.send| && r.send[d] == h.send[d] && Holds(cfg, r) && r.id == h.id
            && r.buffered == h.buffered && Sel(r.outgoing, h.id, d, false) == Sel(h.outgoing, h.id, d, false)
    decreases |h.send| - e
  {
    hide *;
    ResendPassUnfold(cfg, h, e, budgets);
    if e < |h.send| {
      if e == h.id {
        QuietResend(cfg, h, e + 1, budgets, d);
      } else {
        var (h1, b) := ResendWindow(cfg, h, e, 0, budgets[e]);
        if e == d {
          QuietWindow(cfg, h, d, 0, budgets[d]);
        } else {
          ResendWindowOther(cfg, h, e, 0, budgets[e], d);
        }
        QuietResend(cfg, h1, e + 1, budgets[e := b], d);
      }
    }
  }

  function FramesOf(slots: seq<Slot>): (r: seq<Frame>)
    ensures |r| == |slots|
  {
    seq(|slots|, i requires 0 <= i < |slots| => slots[i].frame)
  }

  lemma {:induction false} SelStarted(cfg: Config, sent: seq<Frame>, start: int, id: int, d: int)
    requires forall f :: f in sent ==> OwnData(cfg, f, id)
    ensures Sel(sent, id, d, false) == FramesOf(Started(sent, start, d))
  {
    hide FrameValid;
    if sent != [] {
      SelStarted(cfg, sent[1..], start + 10000, id, d);
      assert sent[0] in sent;
      var rest := Started(sent[1..], start + 10000, d);
      if sent[0].dst == d {
        assert FramesOf([Slot(sent[0], Some(start + 100000))] + rest) == [sent[0]] + FramesOf(rest);
      } else {
        assert [] + rest == rest && [] + FramesOf(rest) == FramesOf(rest);
      }
    }
  }

  /** Sending when every timer towards d runs: only new frames go out to d, and they join its window in that order. */
  lemma QuietOut(cfg: Config, h: HostState, curr: int, d: nat) returns (added: seq<Slot>)
    requires WellFormed(cfg, h) && Holds(cfg, h) && d < |h.send|
    requires forall s :: s in h.send[d].window ==> s.timeout.Some?
    ensures var r := OutPass(cfg, h, curr);
            && |r.send| == |h.send| && r.send[d].window == h.send[d].window + added
            && Sel(r.outgoing, h.id, d, false) == Sel(h.outgoing, h.id, d, false) + FramesOf(added)
  {
    hide *;
    OutUnfold(cfg, h, curr);
    var (h1, left) := ResendPass(cfg, h, 0, Budgets(h));
    QuietResend(cfg, h, 0, Budgets(h), d);
    var now := Max(curr, h.latestTimeout);
    var sent := SendPassTimers(cfg, h1, 0, left, now, 0);
    var r := OutPass(cfg, h, curr);
    added := Started(sent, now + 0, d);
    SelAppend(h1.outgoing, sent, h.id, d, false);
    BufferedOurs(cfg, h1, sent);
    SelStarted(cfg, sent, now + 0, h.id, d);
    SameCongestionIs(h1, r);
  }

  lemma BufferedOurs(cfg: Config, h: HostState, sent: seq<Frame>)
    requires Holds(cfg, h) && forall f :: f in sent ==> f in h.buffered
    ensures forall f :: f in sent ==> OwnData(cfg, f, h.id)
  {
    hide FrameValid;
  }

  lemma SameCongestionIs(h: HostState, r: HostState)
    requires SameCongestion(h, r)
    ensures |r.send| == |h.send| && forall d :: 0 <= d < |h.send| ==> r.send[d].cc == h.send[d].cc
  {}
}
