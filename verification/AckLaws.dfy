/**
 * What ACKs do to the congestion state and when the third duplicate sends a frame again, said of the fields before and
 * after, for one ACK, for all ACKs of a turn, and for a whole turn.
 */
module AckLaws {
  import opened Common
  import opened SeqNum
  import opened Frames
  import opened HostModel
  import opened SenderPasses
  import opened SendingTurn

  // ---------- one ACK ----------

  /** In slow start every ACK, new or not, opens the window by one frame; the phase ends when ssthresh is passed. */
  lemma SlowStartAck(cfg: Config, h: HostState, d: nat, seqNum: uint8)
    requires d < |h.send| && h.send[d].cc.state == SlowStart
    ensures var c, c' := h.send[d].cc, OnAck(cfg, h, d, seqNum).send[d].cc;
            && c'.cwnd == c.cwnd + 1.0 && c'.ssthresh == c.ssthresh
            && c'.state == if c.cwnd + 1.0 > c.ssthresh then AIMD else SlowStart
    ensures var p, c' := h.send[d], OnAck(cfg, h, d, seqNum).send[d].cc;
            && (SeqNumDiff(p.dupSeq, seqNum) > 0 ==> c'.dupAcks == 0)
            && (p.dupSeq == seqNum ==> c'.dupAcks == if p.cc.dupAcks == 255 then 0 else p.cc.dupAcks + 1)
    ensures var r := OnAck(cfg, h, d, seqNum);
            && r.outgoing == h.outgoing && r.ticks == h.ticks && r.latestTimeout == h.latestTimeout
            && (forall s :: s in r.send[d].window ==> s in h.send[d].window)
  {
    hide FindSeq;
  }

  /** A new ACK: avoidance adds 1/cwnd, recovery ends with the window at ssthresh. */
  lemma NewAck(cfg: Config, h: HostState, d: nat, seqNum: uint8)
    requires d < |h.send| && SeqNumDiff(h.send[d].dupSeq, seqNum) > 0
    ensures var c, c' := h.send[d].cc, OnAck(cfg, h, d, seqNum).send[d].cc;
            && c'.dupAcks == 0
            && (c.state == AIMD && c.cwnd > 0.0 ==> c' == c.(cwnd := c.cwnd + 1.0 / c.cwnd, dupAcks := 0))
            && (c.state == FastRecovery ==> c' == c.(cwnd := c.ssthresh, state := AIMD, dupAcks := 0))
    ensures OnAck(cfg, h, d, seqNum).send[d].dupSeq == seqNum
    ensures OnAck(cfg, h, d, seqNum).outgoing == h.outgoing
  {
    hide SeqNumDiff, Wrap, FindSeq;
  }

  /** A repeated ACK that is not the third adds nothing in avoidance and one frame's worth in recovery. */
  lemma RepeatedAck(cfg: Config, h: HostState, d: nat, seqNum: uint8)
    requires d < |h.send| && h.send[d].dupSeq == seqNum && h.send[d].cc.dupAcks < 255
    requires h.send[d].window != [] ==> h.send[d].window[0].frame.seqNum == Wrap(seqNum + 1)
    requires h.send[d].cc.state != SlowStart && (h.send[d].cc.state == AIMD ==> h.send[d].cc.dupAcks != 2)
    ensures var p, r := h.send[d], OnAck(cfg, h, d, seqNum);
            && r == SetSend(h, d, p.(cc := r.send[d].cc))
            && (p.cc.state == AIMD ==> r.send[d].cc == p.cc.(dupAcks := p.cc.dupAcks + 1))
            && (p.cc.state == FastRecovery ==>
                  r.send[d].cc == p.cc.(cwnd := p.cc.cwnd + 1.0, dupAcks := p.cc.dupAcks + 1))
  {
    hide FindSeq;
  }

  /** The third repeated ACK in avoidance halves the window and sends the oldest frame again. */
  lemma ThirdRepeatedAck(cfg: Config, h: HostState, d: nat, seqNum: uint8)
    requires d < |h.send| && h.send[d].dupSeq == seqNum
    requires h.send[d].cc.state == AIMD && h.send[d].cc.dupAcks == 2
    requires h.send[d].window != [] ==> h.send[d].window[0].frame.seqNum == Wrap(seqNum + 1)
    ensures var p, r := h.send[d], OnAck(cfg, h, d, seqNum);
            var q := r.send[d];
            && q.dupSeq == p.dupSeq && q.cc.state == FastRecovery && q.cc.dupAcks == 3
            && q.cc.ssthresh == (if p.cc.cwnd >= 4.0 then p.cc.cwnd / 2.0 else 2.0)
            && q.cc.cwnd == q.cc.ssthresh + 3.0
            && r.outgoing == h.outgoing + (if p.window == [] then [] else [p.window[0].frame])
            && |q.window| == |p.window|
            && (forall i :: 0 <= i < |p.window| ==> q.window[i].frame == p.window[i].frame)
            && (forall i :: 0 < i < |p.window| ==> q.window[i] == p.window[i])
  {
    var p := CountAck(h.send[d], seqNum);
    assert EntersFastRecovery(p.cc);
  }

  /** The count is one byte wide: the 256th repetition passes for a new ACK. */
  lemma CountOverflows(cfg: Config, h: HostState, d: nat, seqNum: uint8)
    requires d < |h.send| && h.send[d].dupSeq == seqNum && h.send[d].cc.dupAcks == 255
    ensures var c, c' := h.send[d].cc, OnAck(cfg, h, d, seqNum).send[d].cc;
            && c'.dupAcks == 0
            && (c.state == AIMD && c.cwnd > 0.0 ==> c' == c.(cwnd := c.cwnd + 1.0 / c.cwnd, dupAcks := 0))
            && (c.state == FastRecovery ==> c' == c.(cwnd := c.ssthresh, state := AIMD, dupAcks := 0))
    ensures OnAck(cfg, h, d, seqNum).outgoing == h.outgoing
  {
    hide FindSeq;
  }

  // ---------- all the ACKs of a turn ----------

  lemma OnAckRest(cfg: Config, h: HostState, e: nat, seqNum: uint8, d: nat)
    requires e < |h.send| && d < |h.send|
    ensures var r := OnAck(cfg, h, e, seqNum);
            && |r.send| == |h.send| && r.id == h.id && r.incoming == h.incoming && r.buffered == h.buffered
            && (d != e ==> r.send[d] == h.send[d])
  {
    hide SeqNumDiff, Wrap, FindSeq, CountAck, OnAckCC, Slide;
  }

  /** The host after j frames, and what the next one does. */
  lemma {:induction false} AfterAcksNext(cfg: Config, h: HostState, j: nat)
    requires WellFormed(cfg, h) && OnlyAcks(cfg, h) && j < |h.incoming|
    ensures var r := AfterAcks(cfg, h, j);
            && WellFormed(cfg, r) && OnlyAcks(cfg, r) && r.incoming == h.incoming[j..] && r.id == h.id
            && |r.send| == |h.send| && AfterAcks(cfg, h, j + 1) == AckStep(cfg, r)
    decreases j
  {
    hide *;
    AfterAcksUnfold(cfg, h, j);
    AfterAcksUnfold(cfg, h, j + 1);
    AfterAcksUnfold(cfg, AckStep(cfg, h), 0);
    AckStepIs(cfg, h);
    if j > 0 {
      AfterAcksNext(cfg, AckStep(cfg, h), j - 1);
    }
  }

  /** The frame at position j is one more ACK from d, or it leaves the books of d alone. */
  lemma NextAck(cfg: Config, h: HostState, j: nat, d: nat)
    requires WellFormed(cfg, h) && OnlyAcks(cfg, h) && j < |h.incoming| && d < |h.send|
    ensures var f, r, r' := h.incoming[j], AfterAcks(cfg, h, j), AfterAcks(cfg, h, j + 1);
            && |r.send| == |r'.send| == |h.send| && r.id == r'.id == h.id
            && Sel(h.incoming[..j + 1], d, h.id, true) ==
               (if FrameValid(f) && f.src == d then Sel(h.incoming[..j], d, h.id, true) + [f]
                else Sel(h.incoming[..j], d, h.id, true))
            && (FrameValid(f) && f.src == d ==> r' == OnAck(cfg, r.(incoming := h.incoming[j + 1..]), d, f.seqNum))
            && (!(FrameValid(f) && f.src == d) ==> r'.send[d] == r.send[d])
  {
    hide *;
    AfterAcksNext(cfg, h, j);
    var f, r := h.incoming[j], AfterAcks(cfg, h, j);
    assert r.incoming[0] == f && r.incoming[1..] == h.incoming[j + 1..];
    AckStepIs(cfg, r);
    assert h.incoming[..j + 1] == h.incoming[..j] + [f];
    SelSnoc(h.incoming[..j], f, d, h.id, true);
    AckMatches(cfg, h, f, d);
    if FrameValid(f) {
      OnAckRest(cfg, r.(incoming := r.incoming[1..]), f.src, f.seqNum, d);
    }
  }

  lemma AckMatches(cfg: Config, h: HostState, f: Frame, d: nat)
    requires OnlyAcks(cfg, h) && f in h.incoming
    ensures Matches(f, d, h.id, true) <==> FrameValid(f) && f.src == d
  {
    hide FrameValid;
  }

  /** Slow start after n ACKs: the window has grown by n, no timer has been touched and nothing has gone out. */
  ghost predicate Opened(p: Sending, n: nat, q: Sending) {
    && q.cc.cwnd == p.cc.cwnd + n as real && q.cc.ssthresh == p.cc.ssthresh
    && (forall s :: s in q.window ==> s in p.window)
  }

  /**
   * n ACKs in slow start open the window by exactly n frames as long as that does not pass ssthresh; from the first ACK
   * that passes it on, the flow is out of slow start.
   */
  lemma {:induction false} SlowStartAcks(cfg: Config, h: HostState, j: nat, d: nat)
    requires WellFormed(cfg, h) && OnlyAcks(cfg, h) && j <= |h.incoming| && d < |h.send|
    requires h.send[d].cc.state == SlowStart
    ensures var r, n := AfterAcks(cfg, h, j), |Sel(h.incoming[..j], d, h.id, true)|;
            && |r.send| == |h.send|
            && (r.send[d].cc.state == SlowStart <==> n == 0 || h.send[d].cc.cwnd + n as real <= h.send[d].cc.ssthresh)
            && (r.send[d].cc.state == SlowStart ==> Opened(h.send[d], n, r.send[d]))
    decreases j
  {
    hide *;
    if j == 0 {
      AfterAcksUnfold(cfg, h, 0);
      SelNothing(d, h.id, true);
      OpenedNone(h.send[d]);
    } else {
      SlowStartAcks(cfg, h, j - 1, d);
      NextAck(cfg, h, j - 1, d);
      var r := AfterAcks(cfg, h, j - 1);
      var f, h1 := h.incoming[j - 1], r.(incoming := h.incoming[j..]);
      if FrameValid(f) && f.src == d {
        if r.send[d].cc.state == SlowStart {
          SlowStartAck(cfg, h1, d, f.seqNum);
          OpenedMore(h.send[d], |Sel(h.incoming[..j - 1], d, h.id, true)|, r.send[d],
                     OnAck(cfg, h1, d, f.seqNum).send[d]);
        } else {
          NeverBackToSlowStart(cfg, h1, d, f.seqNum);
        }
      }
    }
  }

  lemma OpenedNone(p: Sending)
    ensures Opened(p, 0, p)
  {}

  lemma OpenedMore(p: Sending, n: nat, q: Sending, r: Sending)
    requires Opened(p, n, q) && r.cc.cwnd == q.cc.cwnd + 1.0 && r.cc.ssthresh == q.cc.ssthresh
    requires forall s :: s in r.window ==> s in q.window
    ensures Opened(p, n + 1, r) && q.cc.cwnd == p.cc.cwnd + n as real && q.cc.ssthresh == p.cc.ssthresh
  {}

  /** Only a timeout leads back into slow start. */
  lemma NeverBackToSlowStart(cfg: Config, h: HostState, d: nat, seqNum: uint8)
    requires d < |h.send| && h.send[d].cc.state != SlowStart
    ensures OnAck(cfg, h, d, seqNum).send[d].cc.state != SlowStart
  {
    hide SeqNumDiff, Wrap, FindSeq;
  }

  lemma {:induction false} AfterAcksHolds(cfg: Config, h: HostState, j: nat)
    requires ValidConfig(cfg) && WellFormed(cfg, h) && OnlyAcks(cfg, h) && Holds(cfg, h) && j <= |h.incoming|
    ensures Holds(cfg, AfterAcks(cfg, h, j))
    decreases j
  {
    hide *;
    AfterAcksUnfold(cfg, h, j);
    if j > 0 {
      AckStepHolds(cfg, h);
      AfterAcksHolds(cfg, AckStep(cfg, h), j - 1);
    }
  }

  lemma AckStepHolds(cfg: Config, h: HostState)
    requires ValidConfig(cfg) && WellFormed(cfg, h) && Holds(cfg, h) && h.incoming != []
    ensures Holds(cfg, AckStep(cfg, h))
  {
    hide *;
    Indices(cfg, h);
    SeveralHosts(cfg);
    AckStepIs(cfg, h);
    var f, h1 := h.incoming[0], h.(incoming := h.incoming[1..]);
    HoldsSame(cfg, h, h1);
    if FrameValid(f) {
      OnAckOther(cfg, h1, f.src, f.seqNum, if f.src == 0 then 1 else 0);
    }
  }

  lemma SeveralHosts(cfg: Config)
    requires ValidConfig(cfg)
    ensures cfg.hosts >= 2
  {}

  /** Nor does an ACK from elsewhere send anything to d. */
  lemma NextQuiet(cfg: Config, h: HostState, j: nat, d: nat)
    requires ValidConfig(cfg) && WellFormed(cfg, h) && OnlyAcks(cfg, h) && Holds(cfg, h)
    requires j < |h.incoming| && d < |h.send| && !(FrameValid(h.incoming[j]) && h.incoming[j].src == d)
    ensures var r, r' := AfterAcks(cfg, h, j), AfterAcks(cfg, h, j + 1);
            && |r.send| == |r'.send| == |h.send| && r.id == r'.id == h.id
            && Sel(r'.outgoing, h.id, d, false) == Sel(r.outgoing, h.id, d, false) && r'.send[d] == r.send[d]
  {
    hide *;
    AfterAcksNext(cfg, h, j);
    AfterAcksHolds(cfg, h, j);
    var f, r := h.incoming[j], AfterAcks(cfg, h, j);
    assert r.incoming[0] == f && r.incoming[1..] == h.incoming[j + 1..];
    AckStepIs(cfg, r);
    var r1 := r.(incoming := h.incoming[j + 1..]);
    HoldsSame(cfg, r, r1);
    if FrameValid(f) {
      OnAckRest(cfg, r1, f.src, f.seqNum, d);
      OnAckOther(cfg, r1, f.src, f.seqNum, d);
    }
  }

  /** The ACK number that repeats what is acknowledged already asks for the oldest frame of the window. */
  ghost predicate AsksForOldest(p: Sending) {
    p.window != [] ==> p.window[0].frame.seqNum == Wrap(p.dupSeq + 1)
  }

  /**
   * A sender in congestion avoidance after n repetitions of the newest ACK: the first two are only counted; the third
   * has sent the oldest frame again, and nothing else; from then on each counts as one frame that has left the network.
   */
  ghost predicate Repeated(p: Sending, out: seq<Frame>, n: nat, q: Sending, out': seq<Frame>) {
    && q.dupSeq == p.dupSeq && q.cc.dupAcks == n && |q.window| == |p.window|
    && (forall i :: 0 <= i < |p.window| ==> q.window[i].frame == p.window[i].frame)
    && (n < 3 ==> out' == out && q.window == p.window && q.cc == p.cc.(dupAcks := n))
    && (n >= 3 ==>
          && out' == (if p.window == [] then out else out + [p.window[0].frame])
          && q.cc.state == FastRecovery
          && q.cc.ssthresh == (if p.cc.cwnd >= 4.0 then p.cc.cwnd / 2.0 else 2.0)
          && q.cc.cwnd == q.cc.ssthresh + n as real)
  }

  lemma {:induction false} RepeatedAcks(cfg: Config, h: HostState, j: nat, d: nat)
    requires ValidConfig(cfg) && WellFormed(cfg, h) && OnlyAcks(cfg, h) && Holds(cfg, h)
    requires j <= |h.incoming| && d < |h.send|
    requires h.send[d].cc.state == AIMD && h.send[d].cc.dupAcks == 0 && AsksForOldest(h.send[d])
    requires forall f :: f in Sel(h.incoming[..j], d, h.id, true) ==> f.seqNum == h.send[d].dupSeq
    requires |Sel(h.incoming[..j], d, h.id, true)| <= 255
    ensures var r, n := AfterAcks(cfg, h, j), |Sel(h.incoming[..j], d, h.id, true)|;
            && |r.send| == |h.send|
            && Repeated(h.send[d], Sel(h.outgoing, h.id, d, false), n, r.send[d], Sel(r.outgoing, h.id, d, false))
    decreases j
  {
    hide *;
    var out := Sel(h.outgoing, h.id, d, false);
    if j == 0 {
      AfterAcksUnfold(cfg, h, 0);
      SelNothing(d, h.id, true);
      RepeatedNone(h.send[d], out);
    } else {
      NextAck(cfg, h, j - 1, d);
      RepeatedAcks(cfg, h, j - 1, d);
      var f, r := h.incoming[j - 1], AfterAcks(cfg, h, j - 1);
      if FrameValid(f) && f.src == d {
        var acks := Sel(h.incoming[..j - 1], d, h.id, true);
        assert f == (acks + [f])[|acks|];
        AfterAcksNext(cfg, h, j - 1);
        if h.send[d].window != [] {
          OldestIsOurs(cfg, h, d);
        }
        RepeatedMore(cfg, h.send[d], out, |acks|, r.(incoming := h.incoming[j..]), d, f.seqNum);
      } else {
        NextQuiet(cfg, h, j - 1, d);
      }
    }
  }

  lemma RepeatedNone(p: Sending, out: seq<Frame>)
    requires p.cc.dupAcks == 0
    ensures Repeated(p, out, 0, p, out)
  {}

  lemma OldestIsOurs(cfg: Config, h: HostState, d: nat)
    requires Holds(cfg, h) && d < |h.send| && h.send[d].window != []
    ensures Matches(h.send[d].window[0].frame, h.id, d, false)
  {
    hide FrameValid;
  }

  lemma RepeatedMore(cfg: Config, p: Sending, out: seq<Frame>, n: nat, r: HostState, d: nat, seqNum: uint8)
    requires d < |r.send| && n < 255 && seqNum == p.dupSeq && p.cc.state == AIMD && AsksForOldest(p)
    requires Repeated(p, out, n, r.send[d], Sel(r.outgoing, r.id, d, false))
    requires p.window != [] ==> Matches(p.window[0].frame, r.id, d, false)
    ensures var r' := OnAck(cfg, r, d, seqNum);
            |r'.send| == |r.send| && Repeated(p, out, n + 1, r'.send[d], Sel(r'.outgoing, r.id, d, false))
  {
    hide Wrap, SeqNumDiff, OnAck, Sel, Matches, FindSeq;
    OnAckRest(cfg, r, d, seqNum, d);
    if n == 2 {
      ThirdRepeatedAck(cfg, r, d, seqNum);
      if p.window != [] {
        SelSnoc(r.outgoing, p.window[0].frame, r.id, d, false);
      } else {
        assert r.outgoing + [] == r.outgoing;
      }
    } else {
      RepeatedAck(cfg, r, d, seqNum);
    }
  }
}
