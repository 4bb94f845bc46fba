/**
 * The congestion window, fast retransmit and the timers over whole turns and whole runs, in terms of what arrives and
 * of what a host keeps, goes out and is timed.
 */
module CongestionRuns {
  import opened Common
  import opened SeqNum
  import opened Frames
  import opened HostModel
  import opened Congestion
  import opened Messages
  import opened SenderPasses
  import opened SendingTurn
  import opened Network
  import opened Invariant
  import opened Preservation
  import opened TurnStep
  import opened Delivery
  import opened Progress
  import opened RoundTrips
  import opened FlowViews
  import opened AckLaws
  import opened TurnLaws
  import Flow

  // ---------- a turn ----------

  lemma {:induction false} AckPassAll(cfg: Config, h: HostState)
    requires WellFormed(cfg, h) && OnlyAcks(cfg, h)
    ensures AckPass(cfg, h, 0) == AfterAcks(cfg, h, |h.incoming|)
    decreases |h.incoming|
  {
    hide *;
    AfterAcksUnfold(cfg, h, |h.incoming|);
    if h.incoming == [] {
      AckPassEnd(cfg, h, 0);
    } else {
      AckPassStep(cfg, h);
      AckPassAll(cfg, AckStep(cfg, h));
    }
  }

  /** A turn: all ACKs are handled, then the timers are looked at, then frames go out. A sleeping host has no ACKs. */
  lemma TurnHandles(cfg: Config, h: HostState)
    requires WellFormed(cfg, h) && OnlyAcks(cfg, h)
    ensures var a, curr := Handling(cfg, h, |h.incoming|), cfg.clock(h.id, h.ticks);
            && a.id == h.id && h.ticks < a.ticks && |a.send| == |h.send| && WellFormed(cfg, TimeoutPass(a, curr))
            && TimeoutPass(a, curr) == a.(send := TimeoutPass(a, curr).send)
            && var r := Turn(cfg, h);
               || (exists o :: o == OutPass(cfg, TimeoutPass(a, curr), curr) && r == o.(active := r.active))
               || (r == a.(active := r.active) && a == h.(ticks := h.ticks + 1) &&
                   forall d :: 0 <= d < |h.send| && d != h.id ==> !SomeExpired(a.send[d].window, curr))
  {
    hide *;
    TurnUnfold(cfg, h);
    var curr, h0 := cfg.clock(h.id, h.ticks), h.(ticks := h.ticks + 1);
    HandlingIs(cfg, h, |h.incoming|);
    PassesUnfold(cfg, h0, curr);
    AckPassAll(cfg, InputPass(cfg, h0));
    Indices(cfg, h);
    InputKeeps(cfg, h0, h.id);
    AfterAcksSince(cfg, InputPass(cfg, h0), |h.incoming|, h0.ticks);
    SinceIs(cfg, h0.ticks, InputPass(cfg, h0), Handling(cfg, h, |h.incoming|));
    if !Awake(h0, curr) {
      InputPassEnd(cfg, h0);
      AfterAcksUnfold(cfg, h0, 0);
      forall d | 0 <= d < |h.send| && d != h.id ensures !SomeExpired(h0.send[d].window, curr) {
        AsleepNothingExpired(h0, curr, d);
      }
    }
  }

  /** The running timer of some slot has been reached. */
  ghost predicate Due(window: seq<Slot>, clock: int) {
    exists s :: s in window && s.timeout.Some? && s.timeout.value <= clock
  }

  lemma DueIs(window: seq<Slot>, clock: int)
    ensures SomeExpired(window, clock) <==> Due(window, clock)
  {
    if s :| s in window && s.timeout.Some? && s.timeout.value <= clock {
      var j :| 0 <= j < |window| && window[j] == s;
      assert Expired(window[j], clock);
    }
    if j :| 0 <= j < |window| && Expired(window[j], clock) {
      assert window[j] in window;
    }
  }

  /** A timeout halves the threshold and starts over with a window of one frame. */
  lemma TimeoutCongestion(h: HostState, curr: int, d: nat)
    requires d < |h.send| && d != h.id
    ensures var p, q := h.send[d], TimeoutPass(h, curr).send;
            && |q| == |h.send|
            && (Due(p.window, curr) ==>
                  && q[d].cc == p.cc.(state := SlowStart, ssthresh := p.cc.cwnd / 2.0, cwnd := 1.0)
                  && |q[d].window| == |p.window| && forall s :: s in q[d].window ==> s.timeout.None?)
            && (!Due(p.window, curr) ==> q[d] == p)
  {
    hide *;
    TimeoutPassAt(h, curr, d);
    DueIs(h.send[d].window, curr);
    OnTimeoutIs(h.send[d], curr);
  }

  lemma OnTimeoutIs(p: Sending, curr: int)
    ensures var q := OnTimeout(p, curr);
            && (SomeExpired(p.window, curr) ==>
                  && q.cc == p.cc.(state := SlowStart, ssthresh := p.cc.cwnd / 2.0, cwnd := 1.0)
                  && |q.window| == |p.window| && forall s :: s in q.window ==> s.timeout.None?)
            && (!SomeExpired(p.window, curr) ==> q == p)
  {
    hide SomeExpired;
  }

  /** One turn: the timers that count are those left when all ACKs have been handled; sending changes nothing more. */
  lemma TurnCongestion(cfg: Config, h: HostState, d: nat)
    requires WellFormed(cfg, h) && OnlyAcks(cfg, h) && d < |h.send| && d != h.id
    ensures var a, r, clock := Handling(cfg, h, |h.incoming|), Turn(cfg, h), cfg.clock(h.id, h.ticks);
            && |a.send| == |r.send| == |h.send|
            && r.send[d].cc ==
               if Due(a.send[d].window, clock)
               then a.send[d].cc.(state := SlowStart, ssthresh := a.send[d].cc.cwnd / 2.0, cwnd := 1.0)
               else a.send[d].cc
  {
    hide *;
    TurnHandles(cfg, h);
    var a, curr := Handling(cfg, h, |h.incoming|), cfg.clock(h.id, h.ticks);
    TimeoutCongestion(a, curr, d);
    DueIs(a.send[d].window, curr);
    if exists o :: o == OutPass(cfg, TimeoutPass(a, curr), curr) && Turn(cfg, h) == o.(active := Turn(cfg, h).active) {
      OutSince(cfg, TimeoutPass(a, curr), curr, h.ticks);
      SameCongestionIs(TimeoutPass(a, curr), OutPass(cfg, TimeoutPass(a, curr), curr));
    }
  }

  lemma AwakeIs(h: HostState, curr: int)
    ensures Awake(h, curr) <==>
            h.cmds != [] || h.incoming != [] ||
            (exists d :: 0 <= d < |h.send| && d != h.id && Due(h.send[d].window, curr))
  {
    hide SomeExpired, Due;
    forall d | 0 <= d < |h.send| ensures SomeExpired(h.send[d].window, curr) <==> Due(h.send[d].window, curr) {
      DueIs(h.send[d].window, curr);
    }
  }

  /** A host without a command, an incoming frame or a due timer lets its turn pass. */
  lemma IdleTurn(cfg: Config, states: seq<System>, trace: seq<Event>, k: nat)
    requires ValidConfig(cfg) && IsRun(cfg, states, trace) && k < |trace| && |states| == |trace| + 1
    requires trace[k].TakeTurn? && trace[k].host < |states[k].hosts|
    requires var h := states[k].hosts[trace[k].host];
             && h.cmds == [] && h.incoming == []
             && forall d :: 0 <= d < |h.send| && d != trace[k].host ==>
                  !Due(h.send[d].window, cfg.clock(trace[k].host, h.ticks))
    ensures trace[k].host < |states[k + 1].hosts|
    ensures var h, r := states[k].hosts[trace[k].host], states[k + 1].hosts[trace[k].host];
            r == h.(ticks := h.ticks + 1, active := r.active)
  {
    hide *;
    SenderAt(cfg, states, trace, k);
    var h := states[k].hosts[trace[k].host];
    TurnUnfold(cfg, h);
    AwakeIs(h.(ticks := h.ticks + 1), cfg.clock(h.id, h.ticks));
  }

  // ---------- slow start ----------

  /** The host's own record of a flow is what its turn starts the ACKs with. */
  lemma HandlingStarts(cfg: Config, h: HostState, d: nat)
    requires WellFormed(cfg, h) && OnlyAcks(cfg, h) && d < |h.send|
    ensures var h1 := InputPass(cfg, h.(ticks := h.ticks + 1));
            && WellFormed(cfg, h1) && OnlyAcks(cfg, h1) && h1.incoming == h.incoming && h1.id == h.id
            && |h1.send| == |h.send| && h1.send[d] == h.send[d].(currSeq := h1.send[d].currSeq)
            && h1.outgoing == h.outgoing
            && forall j: nat :: j <= |h.incoming| ==> Handling(cfg, h, j) == AfterAcks(cfg, h1, j)
  {
    hide *;
    HandlingIs(cfg, h, 0);
    var h0 := h.(ticks := h.ticks + 1);
    InputKeeps(cfg, h0, d);
    InputWellFormed(cfg, h0);
    forall j: nat | j <= |h.incoming| ensures Handling(cfg, h, j) == AfterAcks(cfg, InputPass(cfg, h0), j) {
      HandlingIs(cfg, h, j);
    }
  }

  lemma InputWellFormed(cfg: Config, h: HostState)
    requires WellFormed(cfg, h)
    ensures WellFormed(cfg, InputPass(cfg, h))
  {}

  /** A turn in slow start without a timeout: the window opens by one frame for every ACK. */
  lemma SlowStartTurn(cfg: Config, h: HostState, d: nat)
    requires WellFormed(cfg, h) && OnlyAcks(cfg, h) && d < |h.send| && d != h.id
    requires h.send[d].cc.state == SlowStart && !Due(h.send[d].window, cfg.clock(h.id, h.ticks))
    requires h.send[d].cc.cwnd + |Sel(h.incoming, d, h.id, true)| as real <= h.send[d].cc.ssthresh
    ensures var c, r := h.send[d].cc, Turn(cfg, h);
            && |r.send| == |h.send|
            && r.send[d].cc.state == SlowStart && r.send[d].cc.ssthresh == c.ssthresh
            && r.send[d].cc.cwnd == c.cwnd + |Sel(h.incoming, d, h.id, true)| as real
  {
    hide *;
    HandlingIs(cfg, h, 0);
    HandlingStarts(cfg, h, d);
    var h1, j := InputPass(cfg, h.(ticks := h.ticks + 1)), |h.incoming|;
    assert h.incoming[..j] == h.incoming;
    SlowStartAcks(cfg, h1, j, d);
    TurnCongestion(cfg, h, d);
    var a := Handling(cfg, h, j);
    OpenedIs(h1.send[d], |Sel(h.incoming, d, h.id, true)|, a.send[d]);
    NotDueLater(h.send[d].window, a.send[d].window, cfg.clock(h.id, h.ticks));
  }

  lemma OpenedIs(p: Sending, n: nat, q: Sending)
    requires Opened(p, n, q)
    ensures q.cc.cwnd == p.cc.cwnd + n as real && q.cc.ssthresh == p.cc.ssthresh
    ensures forall s :: s in q.window ==> s in p.window
  {}

  lemma NotDueLater(window: seq<Slot>, window': seq<Slot>, clock: int)
    requires !Due(window, clock) && forall s :: s in window' ==> s in window
    ensures !Due(window', clock)
  {}

  /** The intact ACKs that host s has read from d in the first k events of a run. */
  ghost function AcksRead(states: seq<System>, trace: seq<Event>, k: nat, s: nat, d: nat): nat
    requires k <= |trace| && |states| == |trace| + 1
  {
    if k == 0 then 0
    else
      AcksRead(states, trace, k - 1, s, d) +
      if trace[k - 1] == TakeTurn(s) && s < |states[k - 1].hosts|
      then |Sel(states[k - 1].hosts[s].incoming, d, s, true)| else 0
  }

  lemma AcksReadUnfold(states: seq<System>, trace: seq<Event>, k: nat, s: nat, d: nat)
    requires k <= |trace| && |states| == |trace| + 1
    ensures AcksRead(states, trace, 0, s, d) == 0
    ensures k > 0 ==>
              AcksRead(states, trace, k, s, d) ==
              AcksRead(states, trace, k - 1, s, d) +
              if trace[k - 1] == TakeTurn(s) && s < |states[k - 1].hosts|
              then |Sel(states[k - 1].hosts[s].incoming, d, s, true)| else 0
  {
    hide Sel;
  }

  /** When host s takes event l as its turn, no timer towards d is due. */
  ghost predicate InTime(cfg: Config, states: seq<System>, trace: seq<Event>, l: nat, s: nat, d: nat)
    requires l < |trace| && |states| == |trace| + 1
  {
    trace[l] == TakeTurn(s) && s < |states[l].hosts| && d < |states[l].hosts[s].send| ==>
      var h := states[l].hosts[s]; !Due(h.send[d].window, cfg.clock(s, h.ticks))
  }

  lemma SenderAt(cfg: Config, states: seq<System>, trace: seq<Event>, k: nat)
    requires ValidConfig(cfg) && IsRun(cfg, states, trace) && k < |trace| && |states| == |trace| + 1
    requires trace[k].TakeTurn?
    ensures var i := trace[k].host;
            && i < |states[k].hosts| == |states[k + 1].hosts| == cfg.hosts
            && states[k + 1].hosts[i] == Turn(cfg, states[k].hosts[i])
            && WellFormed(cfg, states[k].hosts[i]) && Holds(cfg, states[k].hosts[i])
            && OnlyAcks(cfg, states[k].hosts[i])
            && |states[k].hosts[i].send| == cfg.hosts && states[k].hosts[i].id == i
  {
    hide *;
    TurnNow(cfg, states, trace, k);
    RunInv(cfg, states, trace, k);
    SizedInv(cfg, states[k], trace[..k]);
    HostsOkAt(cfg, states[k], trace[k].host);
    SenderHolds(cfg, states[k].hosts[trace[k].host], trace[k].host, states[k].phase.done);
  }

  /** Events other than its own turns do not touch what a host keeps of its destinations. */
  lemma SendRests(cfg: Config, states: seq<System>, trace: seq<Event>, k: nat, s: nat)
    requires ValidConfig(cfg) && IsRun(cfg, states, trace) && k < |trace| && |states| == |trace| + 1
    requires trace[k] != TakeTurn(s) && s < cfg.hosts
    ensures s < |states[k].hosts| && s < |states[k + 1].hosts|
    ensures states[k + 1].hosts[s].send == states[k].hosts[s].send
  {
    hide *;
    RunStep(cfg, states, trace, k);
    RunInv(cfg, states, trace, k);
    SizedInv(cfg, states[k], trace[..k]);
    SizedHosts(cfg, states[k]);
    if trace[k].Command? {
      CommandAlone(cfg, states[k], trace[k], s);
    } else {
      SendersAlone(cfg, states[k], trace[k], s);
    }
  }

  /** Every flow starts with a window of one frame, in slow start up to the configured window. */
  lemma InitialCongestion(cfg: Config, states: seq<System>, trace: seq<Event>, s: nat, d: nat)
    requires ValidConfig(cfg) && IsRun(cfg, states, trace) && s < cfg.hosts && d < cfg.hosts
    ensures |states| == |trace| + 1 && s < |states[0].hosts| && d < |states[0].hosts[s].send|
    ensures var p := states[0].hosts[s].send[d];
            && p.cc.cwnd == 1.0 && p.cc.ssthresh == cfg.window as real && p.cc.state == SlowStart
            && p.cc.dupAcks == 0 && p.dupSeq == 255 && p.currSeq == 0 && p.window == []
  {
    hide Step;
  }

  /**
   * From the start of a run and as long as every ACK comes in time, the congestion window is one frame plus one for
   * each ACK read, until that passes the configured window.
   */
  lemma {:induction false} SlowStartRun(cfg: Config, states: seq<System>, trace: seq<Event>, k: nat, s: nat, d: nat)
    requires ValidConfig(cfg) && IsRun(cfg, states, trace) && k <= |trace| && |states| == |trace| + 1
    requires s < cfg.hosts && d < cfg.hosts && s != d
    requires forall l: nat :: l < k ==> InTime(cfg, states, trace, l, s, d)
    requires 1 + AcksRead(states, trace, k, s, d) <= cfg.window
    ensures s < |states[k].hosts| && d < |states[k].hosts[s].send|
    ensures var c := states[k].hosts[s].send[d].cc;
            && c.state == SlowStart && c.ssthresh == cfg.window as real
            && c.cwnd == (1 + AcksRead(states, trace, k, s, d)) as real
  {
    hide *;
    AcksReadUnfold(states, trace, k, s, d);
    if k == 0 {
      InitialCongestion(cfg, states, trace, s, d);
    } else {
      SlowStartRun(cfg, states, trace, k - 1, s, d);
      if trace[k - 1] == TakeTurn(s) {
        SenderAt(cfg, states, trace, k - 1);
        InTimeAt(cfg, states, trace, k - 1, s, d);
        SlowStartTurn(cfg, states[k - 1].hosts[s], d);
      } else {
        SendRests(cfg, states, trace, k - 1, s);
      }
    }
  }

  lemma InTimeAt(cfg: Config, states: seq<System>, trace: seq<Event>, l: nat, s: nat, d: nat)
    requires l < |trace| && |states| == |trace| + 1 && InTime(cfg, states, trace, l, s, d)
    requires trace[l] == TakeTurn(s) && s < |states[l].hosts| && d < |states[l].hosts[s].send|
    ensures !Due(states[l].hosts[s].send[d].window, cfg.clock(s, states[l].hosts[s].ticks))
  {
    hide Due;
  }

  // ---------- every ACK ----------

  /**
   * The congestion state before and after one ACK, `newer` if it acknowledges something for the first time. The
   * exception is the 256th repetition, which the one-byte count takes for a new ACK.
   */
  ghost predicate Adapted(c: CongestionControl, newer: bool, c': CongestionControl) {
    && (c.state == SlowStart ==>
          && c'.cwnd == c.cwnd + 1.0 && c'.ssthresh == c.ssthresh
          && c'.state == (if c.cwnd + 1.0 > c.ssthresh then AIMD else SlowStart)
          && c'.dupAcks == if newer || c.dupAcks == 255 then 0 else c.dupAcks + 1)
    && (c.state == AIMD ==>
          if newer || c.dupAcks == 255 then c.cwnd > 0.0 && c' == c.(cwnd := c.cwnd + 1.0 / c.cwnd, dupAcks := 0)
          else if c.dupAcks == 2 then
            c' == CongestionControl(c'.ssthresh + 3.0, if c.cwnd >= 4.0 then c.cwnd / 2.0 else 2.0, 3, FastRecovery)
          else c' == c.(dupAcks := c.dupAcks + 1))
    && (c.state == FastRecovery ==>
          if newer || c.dupAcks == 255 then c' == c.(cwnd := c.ssthresh, state := AIMD, dupAcks := 0)
          else c' == c.(cwnd := c.cwnd + 1.0, dupAcks := c.dupAcks + 1))
  }

  /** What every ACK handled in any turn of any run does to the congestion state; its number m is unbounded. */
  lemma EveryAck(cfg: Config, states: seq<System>, trace: seq<Event>, k: nat, j: nat)
    returns (fl: Flow.Flow, taken: seq<CString>, base: nat, m: nat)
    requires ValidConfig(cfg) && IsRun(cfg, states, trace) && k < |trace| && |states| == |trace| + 1
    requires trace[k].TakeTurn? && trace[k].host < |states[k].hosts|
    requires var h := states[k].hosts[trace[k].host]; j < |h.incoming| && FrameValid(h.incoming[j])
    ensures var h := states[k].hosts[trace[k].host];
            var d := h.incoming[j].src;
            && WellFormed(cfg, h) && OnlyAcks(cfg, h) && AckExact(cfg, h, j, d, fl, base, m)
            && d < |Handling(cfg, h, j + 1).send|
            && Adapted(Handling(cfg, h, j).send[d].cc, m > base, Handling(cfg, h, j + 1).send[d].cc)
  {
    hide *;
    TurnNow(cfg, states, trace, k);
    var h := states[k].hosts[trace[k].host];
    fl, taken, base, m := AckComparisonExact(cfg, states, trace, k, trace[k].host, j);
    var f, d, p := h.incoming[j], h.incoming[j].src, Handling(cfg, h, j).send[h.incoming[j].src];
    SenderAt(cfg, states, trace, k);
    AckExactParts(cfg, h, j, d, fl, base, m);
    HandlingStarts(cfg, h, d);
    HandlingIs(cfg, h, j);
    NextAck(cfg, InputPass(cfg, h.(ticks := h.ticks + 1)), j, d);
    AckAdapts(cfg, Handling(cfg, h, j).(incoming := h.incoming[j + 1..]), d, f.seqNum, base, m);
  }

  lemma AckExactParts(cfg: Config, h: HostState, j: nat, d: nat, fl: Flow.Flow, base: nat, m: nat)
    requires WellFormed(cfg, h) && OnlyAcks(cfg, h) && j < |h.incoming| && AckExact(cfg, h, j, d, fl, base, m)
    ensures d < |Handling(cfg, h, j).send| && base <= m
    ensures var f, p := h.incoming[j], Handling(cfg, h, j).send[d];
            && SeqNumDiff(p.dupSeq, f.seqNum) == m - base && (p.dupSeq == f.seqNum <==> m == base)
            && (p.window != [] ==> SeqNumDiff(p.window[0].frame.seqNum, f.seqNum) == m - 1 - base)
  {
    hide Handling, Sel, Wrap, SeqNumDiff, FrameValid, WellFormed, OnlyAcks;
  }

  lemma AckAdapts(cfg: Config, h: HostState, d: nat, seqNum: uint8, base: nat, m: nat)
    requires d < |h.send| && base <= m && CcInv(h.send[d].cc)
    requires SeqNumDiff(h.send[d].dupSeq, seqNum) == m - base && (h.send[d].dupSeq == seqNum <==> m == base)
    requires var w := h.send[d].window; w != [] ==> SeqNumDiff(w[0].frame.seqNum, seqNum) == m - 1 - base
    ensures |OnAck(cfg, h, d, seqNum).send| == |h.send|
    ensures Adapted(h.send[d].cc, m > base, OnAck(cfg, h, d, seqNum).send[d].cc)
  {
    hide OnAck, FindSeq, Wrap, SeqNumDiff;
    OnAckRest(cfg, h, d, seqNum, d);
    var p := h.send[d];
    if p.window != [] && m == base {
      JustBefore(p.window[0].frame.seqNum, seqNum);
    }
    if p.cc.state == SlowStart {
      SlowStartAck(cfg, h, d, seqNum);
    } else if m > base {
      NewAck(cfg, h, d, seqNum);
    } else if p.cc.dupAcks == 255 {
      CountOverflows(cfg, h, d, seqNum);
    } else if p.cc.state == AIMD && p.cc.dupAcks == 2 {
      ThirdRepeatedAck(cfg, h, d, seqNum);
    } else {
      RepeatedAck(cfg, h, d, seqNum);
    }
  }

  lemma JustBefore(a: uint8, b: uint8)
    requires SeqNumDiff(a, b) == -1
    ensures a == Wrap(b + 1)
  {}

  // ---------- fast retransmit ----------

  /** In every reachable state the number after the newest ACK is that of the oldest frame in the window. */
  lemma OldestAsked(cfg: Config, states: seq<System>, trace: seq<Event>, k: nat, s: nat, d: nat)
    requires ValidConfig(cfg) && IsRun(cfg, states, trace) && k <= |trace|
    requires s < cfg.hosts && d < cfg.hosts && s != d
    ensures |states| == |trace| + 1 && s < |states[k].hosts| && d < |states[k].hosts[s].send|
    ensures AsksForOldest(states[k].hosts[s].send[d])
  {
    hide *;
    var gen, base, taken := SenderPartition(cfg, states, trace, k, s, d);
    WrapShift(base as int - 1, 1);
    AsksIs(states[k].hosts[s].send[d], gen, base);
  }

  lemma AsksIs(p: Sending, gen: seq<Frame>, base: nat)
    requires base + |p.window| <= |gen| && p.dupSeq == Wrap(base as int - 1)
    requires Wrap(p.dupSeq + 1) == Wrap(base)
    requires forall i :: 0 <= i < |p.window| ==> p.window[i].frame == gen[base + i]
    requires forall i :: 0 <= i < |gen| ==> gen[i].seqNum == Wrap(i)
    ensures AsksForOldest(p)
  {
    hide Wrap;
  }

  /**
   * A host in congestion avoidance towards d, with no repetition counted yet, after the first j frames of its turn, if
   * all intact ACKs from d among them repeat the newest one: at the third of them, and not before, the oldest frame
   * goes out again, the threshold is half the window, and the window is the threshold plus one for each repetition.
   */
  lemma ThirdDuplicate(cfg: Config, states: seq<System>, trace: seq<Event>, k: nat, d: nat, j: nat)
    requires ValidConfig(cfg) && IsRun(cfg, states, trace) && k < |trace| && |states| == |trace| + 1
    requires trace[k].TakeTurn? && d < cfg.hosts && d != trace[k].host && trace[k].host < |states[k].hosts|
    requires d < |states[k].hosts[trace[k].host].send|
    requires var h := states[k].hosts[trace[k].host];
             && h.send[d].cc.state == AIMD && h.send[d].cc.dupAcks == 0 && j <= |h.incoming|
             && |Sel(h.incoming[..j], d, h.id, true)| <= 255
             && forall f :: f in Sel(h.incoming[..j], d, h.id, true) ==> f.seqNum == h.send[d].dupSeq
    ensures var h := states[k].hosts[trace[k].host];
            && WellFormed(cfg, h) && OnlyAcks(cfg, h)
            && var r, n := Handling(cfg, h, j), |Sel(h.incoming[..j], d, h.id, true)|;
               && |r.send| == |h.send|
               && Repeated(h.send[d], Sel(h.outgoing, h.id, d, false), n, r.send[d], Sel(r.outgoing, h.id, d, false))
  {
    hide *;
    SenderAt(cfg, states, trace, k);
    var i, h := trace[k].host, states[k].hosts[trace[k].host];
    OldestAsked(cfg, states, trace, k, i, d);
    HandlingIs(cfg, h, j);
    HandlingStarts(cfg, h, d);
    var h0 := h.(ticks := h.ticks + 1);
    InputHolds(cfg, states, trace, k, d);
    var h1 := InputPass(cfg, h0);
    AsksSame(h.send[d], h1.send[d]);
    RepeatedAcks(cfg, h1, j, d);
    RepeatedSame(h.send[d], h1.send[d], Sel(h.outgoing, h.id, d, false), |Sel(h.incoming[..j], d, h.id, true)|,
                 Handling(cfg, h, j).send[d], Sel(Handling(cfg, h, j).outgoing, h.id, d, false));
  }

  lemma InputHolds(cfg: Config, states: seq<System>, trace: seq<Event>, k: nat, d: nat)
    requires ValidConfig(cfg) && IsRun(cfg, states, trace) && k < |trace| && |states| == |trace| + 1
    requires trace[k].TakeTurn? && d < cfg.hosts && d != trace[k].host && trace[k].host < |states[k].hosts|
    ensures var h0 := states[k].hosts[trace[k].host].(ticks := states[k].hosts[trace[k].host].ticks + 1);
            WellFormed(cfg, h0) && Holds(cfg, InputPass(cfg, h0))
  {
    hide *;
    SenderAt(cfg, states, trace, k);
    var i, h := trace[k].host, states[k].hosts[trace[k].host];
    var h0 := h.(ticks := h.ticks + 1);
    HandlingIs(cfg, h, 0);
    var fl, taken := ViewAt(cfg, states, trace, k, i, d);
    HostsOkAt(cfg, states[k], d);
    SideFromFlow(cfg, states[k], i, d, fl, taken, Commanded(trace[..k], i, d));
    HoldsSame(cfg, h, h0);
    SideSame(cfg, h, h0, d, fl, Beyond(states[k], i, d));
    var fl' := InputPassSide(cfg, h0, d, fl, Beyond(states[k], i, d), taken);
  }

  lemma AsksSame(p: Sending, q: Sending)
    requires AsksForOldest(p) && q == p.(currSeq := q.currSeq)
    ensures AsksForOldest(q)
  {
    hide Wrap;
  }

  lemma RepeatedSame(p: Sending, p1: Sending, out: seq<Frame>, n: nat, q: Sending, out': seq<Frame>)
    requires p1 == p.(currSeq := p1.currSeq) && Repeated(p1, out, n, q, out')
    ensures Repeated(p, out, n, q, out')
  {}

  /** A frame sent again by the third repetition is on the network when the turn is over. */
  lemma ThirdDuplicateSends(cfg: Config, states: seq<System>, trace: seq<Event>, k: nat, d: nat)
    requires ValidConfig(cfg) && IsRun(cfg, states, trace) && k < |trace| && |states| == |trace| + 1
    requires trace[k].TakeTurn? && d < cfg.hosts && d != trace[k].host && trace[k].host < |states[k].hosts|
    requires d < |states[k].hosts[trace[k].host].send|
    requires var h := states[k].hosts[trace[k].host];
             && h.send[d].cc.state == AIMD && h.send[d].cc.dupAcks == 0 && h.send[d].window != []
             && 3 <= |Sel(h.incoming, d, h.id, true)| <= 255
             && forall f :: f in Sel(h.incoming, d, h.id, true) ==> f.seqNum == h.send[d].dupSeq
    ensures var h := states[k].hosts[trace[k].host];
            trace[k].host < |states[k + 1].hosts| &&
            Sel(h.outgoing, h.id, d, false) + [h.send[d].window[0].frame] <=
            Sel(states[k + 1].hosts[trace[k].host].outgoing, h.id, d, false)
  {
    hide *;
    SenderAt(cfg, states, trace, k);
    var h := states[k].hosts[trace[k].host];
    var j := |h.incoming|;
    assert h.incoming[..j] == h.incoming;
    ThirdDuplicate(cfg, states, trace, k, d, j);
    var a := Handling(cfg, h, j);
    RepeatedSent(h.send[d], Sel(h.outgoing, h.id, d, false), |Sel(h.incoming, d, h.id, true)|, a.send[d],
                 Sel(a.outgoing, h.id, d, false));
    TurnHandles(cfg, h);
    TurnTimers(cfg, h);
    SelPrefix(a.outgoing, Turn(cfg, h).outgoing, h.id, d, false);
  }

  lemma RepeatedSent(p: Sending, out: seq<Frame>, n: nat, q: Sending, out': seq<Frame>)
    requires Repeated(p, out, n, q, out') && n >= 3 && p.window != []
    ensures out' == out + [p.window[0].frame]
  {}

  lemma SelPrefix(a: seq<Frame>, b: seq<Frame>, src: int, dst: int, ack: bool)
    requires a <= b
    ensures Sel(a, src, dst, ack) <= Sel(b, src, dst, ack)
  {
    hide *;
    SelAppend(a, b[|a|..], src, dst, ack);
    assert b == a + b[|a|..];
  }

  // ---------- timers ----------

  /** A turn takes nothing back that has gone out, and every timer it starts runs at least 100 ms. */
  lemma TurnTimers(cfg: Config, h: HostState)
    requires WellFormed(cfg, h) && OnlyAcks(cfg, h)
    ensures Since(cfg, h.ticks, h, Turn(cfg, h))
    ensures Handling(cfg, h, |h.incoming|).outgoing <= Turn(cfg, h).outgoing
  {
    hide *;
    TurnHandles(cfg, h);
    HandlingIs(cfg, h, |h.incoming|);
    var a, curr, r := Handling(cfg, h, |h.incoming|), cfg.clock(h.id, h.ticks), Turn(cfg, h);
    var h0 := h.(ticks := h.ticks + 1);
    var h1 := InputPass(cfg, h0);
    forall d | 0 <= d < |h.send| ensures |h1.send| == |h.send| && h1.send[d].window == h.send[d].window {
      InputKeeps(cfg, h0, d);
    }
    Indices(cfg, h);
    InputKeeps(cfg, h0, h.id);
    SinceSame(cfg, h.ticks, h, h1);
    AfterAcksSince(cfg, h1, |h.incoming|, h.ticks);
    SinceMore(cfg, h.ticks, h, h1, a);
    if exists o :: o == OutPass(cfg, TimeoutPass(a, curr), curr) && r == o.(active := r.active) {
      TimeoutSince(cfg, a, curr, h.ticks);
      SinceMore(cfg, h.ticks, h, a, TimeoutPass(a, curr));
      OutSince(cfg, TimeoutPass(a, curr), curr, h.ticks);
      var o := OutPass(cfg, TimeoutPass(a, curr), curr);
      SinceIs(cfg, h.ticks, TimeoutPass(a, curr), o);
      SinceMore(cfg, h.ticks, h, TimeoutPass(a, curr), o);
      SinceIs(cfg, h.ticks, h, o);
      SinceSame(cfg, h.ticks, o, r);
      SinceMore(cfg, h.ticks, h, o, r);
    } else {
      SinceIs(cfg, h.ticks, h, a);
      SinceSame(cfg, h.ticks, a, r);
      SinceMore(cfg, h.ticks, h, a, r);
    }
  }

  /** So it is in every turn of every run. */
  lemma TimersRunLong(cfg: Config, states: seq<System>, trace: seq<Event>, k: nat)
    requires ValidConfig(cfg) && IsRun(cfg, states, trace) && k < |trace| && |states| == |trace| + 1
    requires trace[k].TakeTurn?
    ensures trace[k].host < |states[k].hosts| == |states[k + 1].hosts|
    ensures var h, r := states[k].hosts[trace[k].host], states[k + 1].hosts[trace[k].host];
            && |r.send| == |h.send|
            && forall d, s :: 0 <= d < |r.send| && s in r.send[d].window && s.timeout.Some? ==>
                 s in h.send[d].window ||
                 exists t: nat :: h.ticks <= t < r.ticks && s.timeout.value >= cfg.clock(h.id, t) + 100000
  {
    hide *;
    SenderAt(cfg, states, trace, k);
    var h, r := states[k].hosts[trace[k].host], states[k + 1].hosts[trace[k].host];
    TurnTimers(cfg, h);
    SinceTimers(cfg, h.ticks, h, r);
  }

  lemma SinceTimers(cfg: Config, first: nat, h: HostState, r: HostState)
    requires Since(cfg, first, h, r)
    ensures |r.send| == |h.send|
    ensures forall d, s :: 0 <= d < |r.send| && s in r.send[d].window && s.timeout.Some? ==>
              s in h.send[d].window ||
              exists t: nat :: first <= t < r.ticks && s.timeout.value >= cfg.clock(h.id, t) + 100000
  {}

  lemma {:induction false} NoAcksYet(cfg: Config, h: HostState, j: nat, d: nat)
    requires ValidConfig(cfg) && WellFormed(cfg, h) && OnlyAcks(cfg, h) && Holds(cfg, h)
    requires j <= |h.incoming| && d < |h.send| && Sel(h.incoming, d, h.id, true) == []
    ensures var r := AfterAcks(cfg, h, j);
            && |r.send| == |h.send| && r.send[d] == h.send[d]
            && Sel(r.outgoing, h.id, d, false) == Sel(h.outgoing, h.id, d, false)
    decreases j
  {
    hide *;
    if j == 0 {
      AfterAcksUnfold(cfg, h, 0);
    } else {
      NoAcksYet(cfg, h, j - 1, d);
      SelPrefix(h.incoming[..j], h.incoming, d, h.id, true);
      NextAck(cfg, h, j - 1, d);
      NextQuiet(cfg, h, j - 1, d);
    }
  }

  /**
   * As long as no ACK has come from d and no timer towards d is due or stopped, a turn sends d only frames that have
   * not been sent before, and leaves its window, its timers and its congestion state as they are.
   */
  lemma NothingSentAgain(cfg: Config, states: seq<System>, trace: seq<Event>, k: nat, d: nat)
    returns (added: seq<Slot>)
    requires ValidConfig(cfg) && IsRun(cfg, states, trace) && k < |trace| && |states| == |trace| + 1
    requires trace[k].TakeTurn? && d < cfg.hosts && d != trace[k].host && trace[k].host < |states[k].hosts|
    requires d < |states[k].hosts[trace[k].host].send|
    requires var h := states[k].hosts[trace[k].host];
             && Sel(h.incoming, d, h.id, true) == []
             && forall s :: s in h.send[d].window ==>
                  s.timeout.Some? && s.timeout.value > cfg.clock(h.id, h.ticks)
    ensures var h := states[k].hosts[trace[k].host];
            trace[k].host < |states[k + 1].hosts| &&
            var r := states[k + 1].hosts[trace[k].host];
            && |r.send| == |h.send| && r.send[d].cc == h.send[d].cc
            && r.send[d].window == h.send[d].window + added
            && Sel(r.outgoing, h.id, d, false) == Sel(h.outgoing, h.id, d, false) + FramesOf(added)
  {
    hide *;
    SenderAt(cfg, states, trace, k);
    var h := states[k].hosts[trace[k].host];
    InputHolds(cfg, states, trace, k, d);
    HandlingStarts(cfg, h, d);
    var h1, j := InputPass(cfg, h.(ticks := h.ticks + 1)), |h.incoming|;
    NoAcksYet(cfg, h1, j, d);
    AfterAcksHolds(cfg, h1, j);
    var a, curr, r := Handling(cfg, h, j), cfg.clock(h.id, h.ticks), Turn(cfg, h);
    TurnHandles(cfg, h);
    NotDueYet(a.send[d].window, curr);
    TurnCongestion(cfg, h, d);
    TimeoutCongestion(a, curr, d);
    TimeoutHolds(cfg, a, curr);
    added := [];
    NoFrames();
    if exists o :: o == OutPass(cfg, TimeoutPass(a, curr), curr) && r == o.(active := r.active) {
      added := QuietOut(cfg, TimeoutPass(a, curr), curr, d);
    }
  }

  lemma NotDueYet(window: seq<Slot>, clock: int)
    requires forall s :: s in window ==> s.timeout.Some? && s.timeout.value > clock
    ensures !Due(window, clock)
  {}

  lemma NoFrames()
    ensures FramesOf([]) == []
  {}
}
