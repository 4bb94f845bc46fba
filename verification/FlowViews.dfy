/**
 * What the two ends of a flow hold, in every reachable state, and how their 8-bit fields relate to unbounded numbers.
 */
module FlowViews {
  import opened Common
  import opened SeqNum
  import opened Frames
  import opened HostModel
  import opened Congestion
  import opened Messages
  import opened SenderPasses
  import opened SendingTurn
  import opened Network
  import opened Invariant
  import opened Preservation
  import opened TurnStep
  import opened ReceiveStep
  import opened Delivery
  import opened Progress
  import Flow

  // ---------- the sender ----------

  /**
   * For every destination, acknowledged frames, send window and buffered frames together are the stream of fragments
   * of the messages taken up; `base` frames are acknowledged, and all 8-bit fields count modulo 256 from there.
   */
  lemma SenderPartition(cfg: Config, states: seq<System>, trace: seq<Event>, k: nat, s: nat, d: nat)
    returns (gen: seq<Frame>, base: nat, taken: seq<CString>)
    requires ValidConfig(cfg) && IsRun(cfg, states, trace) && k <= |trace|
    requires s < cfg.hosts && d < cfg.hosts && s != d
    ensures |states| == |trace| + 1 && s < |states[k].hosts| && d < |states[k].hosts[s].send|
    ensures CarriesAll(gen, taken) && Commanded(trace[..k], s, d) == taken + Pending(states[k].hosts[s].cmds, d)
    ensures var h, p := states[k].hosts[s], states[k].hosts[s].send[d];
            && base + |p.window| <= |gen| && |p.window| <= cfg.window
            && (forall i :: 0 <= i < |p.window| ==> p.window[i].frame == gen[base + i])
            && Sel(h.buffered, s, d, false) == gen[base + |p.window|..]
            && (forall i :: 0 <= i < |gen| ==> gen[i].seqNum == Wrap(i))
            && p.currSeq == Wrap(|gen|) && p.dupSeq == Wrap(base - 1)
  {
    hide *;
    var fl;
    fl, taken := ViewAt(cfg, states, trace, k, s, d);
    FlowSizes(cfg, states[k], s, d);
    FlowParts(cfg, states[k], s, d, fl, taken, Commanded(trace[..k], s, d));
    gen, base := fl.gen, fl.base;
    SenderParts(cfg, fl, states[k].hosts[s].send[d], Sel(states[k].hosts[s].buffered, s, d, false),
                states[k].hosts[d].recv[s], Channel(states[k], s, d, false), Channel(states[k], d, s, true));
  }

  lemma SenderParts(cfg: Config, fl: Flow.Flow, p: Sending, buf: seq<Frame>, r: Receiving, data: seq<Frame>,
                    acks: seq<Frame>)
    requires Flow.FlowOk(cfg, fl, p, buf, r, data, acks)
    ensures fl.base + |p.window| <= |fl.gen| && |p.window| <= cfg.window
    ensures forall i :: 0 <= i < |p.window| ==> p.window[i].frame == fl.gen[fl.base + i]
    ensures buf == fl.gen[fl.base + |p.window|..]
    ensures forall i :: 0 <= i < |fl.gen| ==> fl.gen[i].seqNum == Wrap(i)
    ensures p.currSeq == Wrap(|fl.gen|) && p.dupSeq == Wrap(fl.base - 1)
  {
    hide Wrap;
    hide Flow.ReceiverOk;
    hide Flow.FlightOk;
    hide Flow.AcksOk;
  }

  // ---------- the receiver ----------

  /**
   * The receiver has delivered the first `next` frames of the stream; slot i of its window is NULL or holds frame
   * next + i, and slot 0 is NULL.
   */
  lemma ReceiverWindow(cfg: Config, states: seq<System>, trace: seq<Event>, k: nat, s: nat, d: nat)
    returns (gen: seq<Frame>, next: nat, taken: seq<CString>)
    requires ValidConfig(cfg) && IsRun(cfg, states, trace) && k <= |trace|
    requires s < cfg.hosts && d < cfg.hosts && s != d
    ensures |states| == |trace| + 1 && s < |states[k].hosts| && d < |states[k].hosts| && s < |states[k].hosts[d].recv|
    ensures CarriesAll(gen, taken) && Commanded(trace[..k], s, d) == taken + Pending(states[k].hosts[s].cmds, d)
    ensures var r := states[k].hosts[d].recv[s];
            && next <= |gen| && r.lfr == Wrap(next - 1) && |r.window| == cfg.window && r.window[0].None?
            && (forall i :: 0 <= i < cfg.window && r.window[i].Some? ==>
                  next + i < |gen| && r.window[i].value == gen[next + i])
            && Texts(states[k].hosts[d].printed, s) == Drain(gen[..next]).0 && r.msgs == Drain(gen[..next]).1
  {
    hide *;
    var fl;
    fl, taken := ViewAt(cfg, states, trace, k, s, d);
    FlowSizes(cfg, states[k], s, d);
    FlowParts(cfg, states[k], s, d, fl, taken, Commanded(trace[..k], s, d));
    gen, next := fl.gen, fl.next;
    ReceiverParts(cfg, fl, states[k].hosts[s].send[d], Sel(states[k].hosts[s].buffered, s, d, false),
                  states[k].hosts[d].recv[s], Channel(states[k], s, d, false), Channel(states[k], d, s, true));
    WholeReassembly(fl, states[k].hosts[d], s);
  }

  lemma ReceiverParts(cfg: Config, fl: Flow.Flow, p: Sending, buf: seq<Frame>, r: Receiving, data: seq<Frame>,
                      acks: seq<Frame>)
    requires ValidConfig(cfg) && Flow.FlowOk(cfg, fl, p, buf, r, data, acks)
    ensures fl.next <= |fl.gen| && r.lfr == Wrap(fl.next - 1) && |r.window| == cfg.window && r.window[0].None?
    ensures forall i :: 0 <= i < cfg.window && r.window[i].Some? ==>
              fl.next + i < |fl.gen| && r.window[i].value == fl.gen[fl.next + i]
  {
    hide Wrap;
    hide Flow.FlightOk;
    hide Flow.AcksOk;
  }

  lemma WholeReassembly(fl: Flow.Flow, h: HostState, s: nat)
    requires s < |h.recv| && Reassembled(fl, h, s)
    ensures fl.next <= |fl.gen|
    ensures Texts(h.printed, s) == Drain(fl.gen[..fl.next]).0 && h.recv[s].msgs == Drain(fl.gen[..fl.next]).1
  {}

  // ---------- acknowledgements ----------

  /** The host about to handle the j-th frame of the incoming list in its turn: its input has been taken up. */
  ghost function Handling(cfg: Config, h: HostState, j: nat): HostState
    requires WellFormed(cfg, h) && OnlyAcks(cfg, h) && j <= |h.incoming|
  {
    var h0 := h.(ticks := h.ticks + 1);
    InputIncoming(cfg, h0);
    AfterAcks(cfg, InputPass(cfg, h0), j)
  }

  lemma HandlingIs(cfg: Config, h: HostState, j: nat)
    requires WellFormed(cfg, h) && OnlyAcks(cfg, h) && j <= |h.incoming|
    ensures var h0 := h.(ticks := h.ticks + 1);
            && WellFormed(cfg, h0) && OnlyAcks(cfg, InputPass(cfg, h0)) && InputPass(cfg, h0).incoming == h.incoming
            && Handling(cfg, h, j) == AfterAcks(cfg, InputPass(cfg, h0), j)
  {
    hide InputPass;
    hide AfterAcks;
    InputIncoming(cfg, h.(ticks := h.ticks + 1));
  }

  /**
   * The ACK at position j of the incoming list acknowledges everything below m, and m lies between the first and one
   * past the last frame of the window as it is when the ACK is handled. `base` is where the window begins then: at
   * the newest ACK before this one. The sender's 8-bit tests answer as unbounded numbers would.
   */
  ghost predicate AckExact(cfg: Config, h: HostState, j: nat, d: nat, fl: Flow.Flow, base: nat, m: nat)
    requires WellFormed(cfg, h) && OnlyAcks(cfg, h) && j < |h.incoming|
  {
    d < |Handling(cfg, h, j).send| &&
    var f, a, p := h.incoming[j], |Sel(h.incoming[..j], d, h.id, true)|, Handling(cfg, h, j).send[d];
    && a < |fl.acks| && m == fl.acks[a] && base == (if a == 0 then fl.base else fl.acks[a - 1])
    && f.seqNum == Wrap(m - 1) && base <= m <= fl.next && m <= base + |p.window| <= |fl.gen|
    && (forall l :: 0 <= l < |p.window| ==> p.window[l].frame == fl.gen[base + l])
    && SeqNumDiff(p.dupSeq, f.seqNum) == m - base
    && (p.dupSeq == f.seqNum <==> m == base)
    && (p.window != [] ==> SeqNumDiff(p.window[0].frame.seqNum, f.seqNum) == m - 1 - base)
  }

  /** So it is for every ACK that any turn of any run handles. */
  lemma AckComparisonExact(cfg: Config, states: seq<System>, trace: seq<Event>, k: nat, i: nat, j: nat)
    returns (fl: Flow.Flow, taken: seq<CString>, base: nat, m: nat)
    requires ValidConfig(cfg) && IsRun(cfg, states, trace) && k <= |trace| && |states| == |trace| + 1
    requires states[k].phase.Senders? && i < |states[k].hosts| && j < |states[k].hosts[i].incoming|
    requires FrameValid(states[k].hosts[i].incoming[j])
    ensures var h, f := states[k].hosts[i], states[k].hosts[i].incoming[j];
            && f.isAck != 0 && f.src < cfg.hosts && f.src != i && i < cfg.hosts && Sized(cfg, states[k])
            && FlowAt(cfg, states[k], i, f.src, fl, taken, Commanded(trace[..k], i, f.src))
            && WellFormed(cfg, h) && OnlyAcks(cfg, h) && AckExact(cfg, h, j, f.src, fl, base, m)
            && f.src < |Handling(cfg, h, j).send| && CcInv(Handling(cfg, h, j).send[f.src].cc)
  {
    hide *;
    var sys := states[k];
    RunInv(cfg, states, trace, k);
    SizedInv(cfg, sys, trace[..k]);
    SizedHosts(cfg, sys);
    HostsOkAt(cfg, sys, i);
    var h, f := sys.hosts[i], sys.hosts[i].incoming[j];
    KindByPhase(cfg, h, i, sys.phase, f);
    SenderHolds(cfg, h, i, sys.phase.done);
    var d := f.src;
    var sent := Commanded(trace[..k], i, d);
    InvAt(cfg, sys, trace[..k], i, d);
    fl, taken := SameFlow(cfg, sys, i, d, sent);
    HostsOkAt(cfg, sys, d);
    SideFromFlow(cfg, sys, i, d, fl, taken, sent);
    HandlingIs(cfg, h, j);
    base, m := HandledAck(cfg, h, j, d, fl, Beyond(sys, i, d), taken);
  }

  /** The same for one sender's side of the flow. */
  lemma HandledAck(cfg: Config, h: HostState, j: nat, d: nat, fl: Flow.Flow, o: Outside, taken: seq<CString>)
    returns (base: nat, m: nat)
    requires ValidConfig(cfg) && WellFormed(cfg, h) && Holds(cfg, h) && OnlyAcks(cfg, h) && j < |h.incoming|
    requires FrameValid(h.incoming[j]) && h.incoming[j].src == d < |h.send| && d != h.id
    requires SideOk(cfg, h, d, fl, o) && CarriesAll(fl.gen, taken)
    ensures AckExact(cfg, h, j, d, fl, base, m)
    ensures d < |Handling(cfg, h, j).send| && CcInv(Handling(cfg, h, j).send[d].cc)
  {
    hide *;
    HandlingIs(cfg, h, j);
    Indices(cfg, h);
    var h0 := h.(ticks := h.ticks + 1);
    HoldsSame(cfg, h, h0);
    SideSame(cfg, h, h0, d, fl, o);
    SideBounds(cfg, h, d, fl, o);
    var fl1 := InputPassSide(cfg, h0, d, fl, o, taken);
    var h1 := InputPass(cfg, h0);
    var fl2 := AfterAcksSide(cfg, h1, j, d, fl1, o);
    var r := AfterAcks(cfg, h1, j);
    assert r.incoming[0] == h.incoming[j];
    HeadAck(cfg, r, d);
    SideFacts(cfg, r, d, fl2, o);
    SideCc(cfg, r, d, fl2, o);
    var buf, data := Sel(r.buffered, r.id, d, false), o.ahead + Sel(r.outgoing, r.id, d, false);
    var acks := Sel(r.incoming, d, r.id, true) + o.behind;
    m := HeadAckDistance(cfg, fl2, r.send[d], buf, o.recv, data, acks);
    base := fl2.base;
    AckExactIs(cfg, h, j, d, fl, base, m, r.send[d]);
  }

  lemma AckExactIs(cfg: Config, h: HostState, j: nat, d: nat, fl: Flow.Flow, base: nat, m: nat, p: Sending)
    requires WellFormed(cfg, h) && OnlyAcks(cfg, h) && j < |h.incoming|
    requires d < |Handling(cfg, h, j).send| && p == Handling(cfg, h, j).send[d]
    requires var f, a := h.incoming[j], |Sel(h.incoming[..j], d, h.id, true)|;
             && a < |fl.acks| && m == fl.acks[a] && base == (if a == 0 then fl.base else fl.acks[a - 1])
             && f.seqNum == Wrap(m - 1) && base <= m <= fl.next && m <= base + |p.window| <= |fl.gen|
             && (forall l :: 0 <= l < |p.window| ==> p.window[l].frame == fl.gen[base + l])
             && SeqNumDiff(p.dupSeq, f.seqNum) == m - base
             && (p.dupSeq == f.seqNum <==> m == base)
             && (p.window != [] ==> SeqNumDiff(p.window[0].frame.seqNum, f.seqNum) == m - 1 - base)
    ensures AckExact(cfg, h, j, d, fl, base, m)
  {
    hide Handling, Sel, Wrap, SeqNumDiff, FrameValid, WellFormed, OnlyAcks;
  }

  lemma SideBounds(cfg: Config, h: HostState, d: nat, fl: Flow.Flow, o: Outside)
    requires d < |h.send| && SideOk(cfg, h, d, fl, o)
    ensures fl.top <= |fl.gen|
  {
    hide Wrap;
    hide Sel;
  }

  lemma HeadAckDistance(cfg: Config, fl: Flow.Flow, p: Sending, buf: seq<Frame>, r: Receiving, data: seq<Frame>,
                        acks: seq<Frame>) returns (m: nat)
    requires ValidConfig(cfg) && Flow.FlowOk(cfg, fl, p, buf, r, data, acks) && acks != []
    ensures fl.acks != [] && m == fl.acks[0] && acks[0].seqNum == Wrap(m - 1) && fl.base <= m <= fl.next
    ensures m <= fl.base + |p.window| == fl.top && fl.top <= |fl.gen|
    ensures forall l :: 0 <= l < |p.window| ==> p.window[l].frame == fl.gen[fl.base + l]
    ensures SeqNumDiff(p.dupSeq, acks[0].seqNum) == m - fl.base
    ensures p.dupSeq == acks[0].seqNum <==> m == fl.base
    ensures p.window != [] ==> SeqNumDiff(p.window[0].frame.seqNum, acks[0].seqNum) == m - 1 - fl.base
  {
    hide Wrap;
    hide SeqNumDiff;
    hide Flow.FlightOk;
    m := fl.acks[0];
    Flow.AckDistance(cfg, fl, p, buf, m);
  }
}
