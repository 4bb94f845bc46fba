/** The four passes of a sending turn, followed for one destination at a time. */
module SenderPasses {
  import opened Common
  import opened SeqNum
  import opened Frames
  import opened HostModel
  import opened Congestion
  import Flow

  // ---------- the frames of one flow in a queue ----------

  predicate Matches(f: Frame, src: int, dst: int, ack: bool) {
    FrameValid(f) && f.src == src && f.dst == dst && ((f.isAck != 0) == ack)
  }

  /** The valid frames of one kind from `src` to `dst`, in queue order. */
  function Sel(q: seq<Frame>, src: int, dst: int, ack: bool): seq<Frame> {
    if q == [] then [] else (if Matches(q[0], src, dst, ack) then [q[0]] else []) + Sel(q[1..], src, dst, ack)
  }

  lemma {:induction false} SelAppend(a: seq<Frame>, b: seq<Frame>, src: int, dst: int, ack: bool)
    ensures Sel(a + b, src, dst, ack) == Sel(a, src, dst, ack) + Sel(b, src, dst, ack)
  {
    hide Matches;
    if a == [] {
      assert a + b == b;
    } else {
      assert (a + b)[1..] == a[1..] + b && (a + b)[0] == a[0];
      SelAppend(a[1..], b, src, dst, ack);
      var head := if Matches(a[0], src, dst, ack) then [a[0]] else [];
      assert Sel(a + b, src, dst, ack) == head + Sel(a[1..] + b, src, dst, ack);
      assert head + (Sel(a[1..], src, dst, ack) + Sel(b, src, dst, ack))
          == Sel(a, src, dst, ack) + Sel(b, src, dst, ack);
    }
  }

  lemma SelOne(f: Frame, src: int, dst: int, ack: bool)
    ensures Sel([f], src, dst, ack) == if Matches(f, src, dst, ack) then [f] else []
  {
    hide Matches;
    assert Sel([f][1..], src, dst, ack) == [];
  }

  lemma SelSnoc(q: seq<Frame>, f: Frame, src: int, dst: int, ack: bool)
    ensures Sel(q + [f], src, dst, ack) ==
            if Matches(f, src, dst, ack) then Sel(q, src, dst, ack) + [f] else Sel(q, src, dst, ack)
  {
    hide Matches;
    SelAppend(q, [f], src, dst, ack);
    SelOne(f, src, dst, ack);
    assert Sel(q, src, dst, ack) + [] == Sel(q, src, dst, ack);
  }

  lemma SelRemoveAt(q: seq<Frame>, i: nat, src: int, dst: int, ack: bool)
    requires i < |q|
    ensures Sel(RemoveAt(q, i), src, dst, ack) == Sel(q[..i], src, dst, ack) + Sel(q[i + 1..], src, dst, ack)
    ensures Sel(q, src, dst, ack) == Sel(q[..i], src, dst, ack) +
            ((if Matches(q[i], src, dst, ack) then [q[i]] else []) + Sel(q[i + 1..], src, dst, ack))
  {
    hide Matches;
    SelAppend(q[..i], q[i + 1..], src, dst, ack);
    SelAppend(q[..i], q[i..], src, dst, ack);
    assert q == q[..i] + q[i..];
    assert q[i..][1..] == q[i + 1..];
  }

  lemma {:induction false} SelMatches(q: seq<Frame>, src: int, dst: int, ack: bool)
    ensures forall f :: f in Sel(q, src, dst, ack) ==> Matches(f, src, dst, ack) && f in q
  {
    hide Matches;
    if q != [] {
      SelMatches(q[1..], src, dst, ack);
    }
  }

  // ---------- what a sender holds ----------

  ghost predicate OwnData(cfg: Config, f: Frame, s: int) {
    FrameValid(f) && f.src == s && f.dst != s && f.dst < cfg.hosts && f.isAck == 0
  }

  /** Every frame a sender keeps is its own data, filed under its destination. */
  ghost predicate Holds(cfg: Config, h: HostState) {
    && (forall f :: f in h.buffered ==> OwnData(cfg, f, h.id))
    && (forall f :: f in h.outgoing ==> OwnData(cfg, f, h.id))
    && (forall e, i :: 0 <= e < |h.send| && 0 <= i < |h.send[e].window| ==>
          OwnData(cfg, h.send[e].window[i].frame, h.id) && h.send[e].window[i].frame.dst == e)
    && (forall c :: c in h.cmds ==> c.src == h.id && c.dst != h.id)
  }

  /** While hosts are sending, whatever passes the check in an incoming list is an ACK from another host. */
  ghost predicate OnlyAcks(cfg: Config, h: HostState) {
    forall f :: f in h.incoming && FrameValid(f) ==>
      f.isAck != 0 && f.dst == h.id && f.src != h.id && f.src < cfg.hosts
  }

  /** The parts of a flow beyond its sender: the receiver, data already in the network, ACKs not yet delivered. */
  datatype Outside = Outside(recv: Receiving, ahead: seq<Frame>, behind: seq<Frame>)

  ghost predicate SideOk(cfg: Config, h: HostState, d: nat, fl: Flow.Flow, o: Outside)
    requires d < |h.send|
  {
    && Flow.FlowOk(cfg, fl, h.send[d], Sel(h.buffered, h.id, d, false), o.recv,
                   o.ahead + Sel(h.outgoing, h.id, d, false), Sel(h.incoming, d, h.id, true) + o.behind)
    && Disciplined(h.send[d])
  }

  // ---------- retransmission ----------

  /** Retransmission keeps the books of every destination but its own untouched. */
  lemma RetransmitOther(cfg: Config, h: HostState, e: nat, seqNum: uint8, d: nat)
    requires e < |h.send| && d < |h.send| && d != e && Holds(cfg, h)
    ensures Holds(cfg, Retransmit(cfg, h, e, seqNum))
    ensures var r := Retransmit(cfg, h, e, seqNum);
            r.send[d] == h.send[d] && Sel(r.outgoing, h.id, d, false) == Sel(h.outgoing, h.id, d, false)
  {
    hide FrameValid;
    hide Sel;
    hide FindSeq;
    var w := h.send[e].window;
    var k := FindSeq(w, seqNum);
    if w != [] && k < |w| {
      SelSnoc(h.outgoing, w[k].frame, h.id, d, false);
    }
  }

  /** retransmit_frame, given where the search stops. */
  lemma RetransmitAt(cfg: Config, h: HostState, d: nat, seqNum: uint8, i: nat) returns (t: int)
    requires d < |h.send| && i < |h.send[d].window| && FindSeq(h.send[d].window, seqNum) == i
    ensures var r := Retransmit(cfg, h, d, seqNum);
            var w := h.send[d].window;
            && r.send == h.send[d := h.send[d].(window := w[i := w[i].(timeout := Some(t))])]
            && r.outgoing == h.outgoing + [w[i].frame] && ResentState(h, d, i, t, r)
            && |r.send| == |h.send| && r.send[d].window == w[i := w[i].(timeout := Some(t))]
            && r.send[d] == h.send[d].(window := r.send[d].window)
  {
    hide FindSeq;
    t := Max(cfg.clock(h.id, h.ticks), h.latestTimeout) + TIMEOUT_INTERVAL_USEC;
  }

  /** Retransmitting slot i, found by its number, puts exactly that frame back into flight. */
  lemma RetransmitSelf(cfg: Config, h: HostState, d: nat, i: nat, fl: Flow.Flow, o: Outside) returns (fl': Flow.Flow)
    requires ValidConfig(cfg) && d < |h.send| && Holds(cfg, h) && SideOk(cfg, h, d, fl, o)
    requires i < |h.send[d].window|
    requires forall j :: 0 <= j < i ==> h.send[d].window[j].timeout.Some?
    ensures fl' == fl.(flight := fl.flight + [fl.base + i])
    ensures var r := Retransmit(cfg, h, d, Wrap(fl.base + i));
            && Holds(cfg, r) && SideOk(cfg, r, d, fl', o)
            && r.send[d] == h.send[d].(window := r.send[d].window)
            && (forall j :: 0 <= j < |h.send[d].window| && j != i ==> r.send[d].window[j] == h.send[d].window[j])
            && r.send[d].window[i].timeout.Some?
            && r.outgoing == h.outgoing + [h.send[d].window[i].frame]
  {
    hide *;
    var w := h.send[d].window;
    SideParts(cfg, h, d, fl, o);
    Flow.FindInWindow(cfg, fl.gen, fl.base, w, fl.base + i);
    var t := RetransmitAt(cfg, h, d, Wrap(fl.base + i), i);
    var r := Retransmit(cfg, h, d, Wrap(fl.base + i));
    ResentHolds(cfg, h, d, i, t, r);
    ResentSide(cfg, h, d, i, t, fl, o, r);
    fl' := fl.(flight := fl.flight + [fl.base + i]);
  }

  lemma SideParts(cfg: Config, h: HostState, d: nat, fl: Flow.Flow, o: Outside)
    requires ValidConfig(cfg) && d < |h.send| && SideOk(cfg, h, d, fl, o)
    ensures var w := h.send[d].window;
            && |w| <= 127 && fl.base + |w| <= |fl.gen|
            && (forall i :: 0 <= i < |w| ==> w[i].frame == fl.gen[fl.base + i])
    ensures forall i :: 0 <= i < |fl.gen| ==> fl.gen[i].seqNum == Wrap(i)
  {
    hide Wrap;
    hide Sel;
    hide Disciplined;
    hide Flow.ReceiverOk;
    hide Flow.FlightOk;
    hide Flow.AcksOk;
  }

  /** Host h after slot i towards d went out again with a timer until t. */
  ghost predicate ResentState(h: HostState, d: nat, i: nat, t: int, r: HostState)
    requires d < |h.send| && i < |h.send[d].window|
  {
    var w := h.send[d].window;
    && r.send == h.send[d := h.send[d].(window := w[i := w[i].(timeout := Some(t))])]
    && r.outgoing == h.outgoing + [w[i].frame]
    && r.id == h.id && r.buffered == h.buffered && r.incoming == h.incoming && r.cmds == h.cmds && r.recv == h.recv
  }

  lemma ResentHolds(cfg: Config, h: HostState, d: nat, i: nat, t: int, r: HostState)
    requires d < |h.send| && i < |h.send[d].window| && Holds(cfg, h) && ResentState(h, d, i, t, r)
    ensures Holds(cfg, r)
  {
    hide FrameValid;
  }

  lemma ResentSide(cfg: Config, h: HostState, d: nat, i: nat, t: int, fl: Flow.Flow, o: Outside, r: HostState)
    requires ValidConfig(cfg) && d < |h.send| && i < |h.send[d].window| && Holds(cfg, h) && SideOk(cfg, h, d, fl, o)
    requires ResentState(h, d, i, t, r) && forall j :: 0 <= j < i ==> h.send[d].window[j].timeout.Some?
    ensures |r.send| == |h.send| && SideOk(cfg, r, d, fl.(flight := fl.flight + [fl.base + i]), o)
  {
    hide *;
    SideFacts(cfg, h, d, fl, o);
    ResentFacts(cfg, h, d, i, t, r);
    var p, f := h.send[d], h.send[d].window[i].frame;
    SelSnoc(h.outgoing, f, h.id, d, false);
    var buf, data := Sel(h.buffered, h.id, d, false), o.ahead + Sel(h.outgoing, h.id, d, false);
    var acks := Sel(h.incoming, d, h.id, true) + o.behind;
    assert o.ahead + (Sel(h.outgoing, h.id, d, false) + [f]) == data + [f];
    ResentFlow(cfg, fl, p, r.send[d], buf, o.recv, data, acks, i, t);
    SideWhole(cfg, r, d, fl.(flight := fl.flight + [fl.base + i]), o);
  }

  lemma ResentFacts(cfg: Config, h: HostState, d: nat, i: nat, t: int, r: HostState)
    requires d < |h.send| && i < |h.send[d].window| && Holds(cfg, h) && ResentState(h, d, i, t, r)
    ensures |r.send| == |h.send| && r.id == h.id && r.buffered == h.buffered && r.incoming == h.incoming
    ensures var p, f := h.send[d], h.send[d].window[i].frame;
            && r.send[d] == p.(window := p.window[i := p.window[i].(timeout := Some(t))])
            && r.outgoing == h.outgoing + [f] && Matches(f, h.id, d, false)
  {
    hide FrameValid;
  }

  lemma SideWhole(cfg: Config, h: HostState, d: nat, fl: Flow.Flow, o: Outside)
    requires d < |h.send| && Disciplined(h.send[d])
    requires Flow.FlowOk(cfg, fl, h.send[d], Sel(h.buffered, h.id, d, false), o.recv,
                         o.ahead + Sel(h.outgoing, h.id, d, false), Sel(h.incoming, d, h.id, true) + o.behind)
    ensures SideOk(cfg, h, d, fl, o)
  {}

  /** On the flow alone: frame base + i is in flight once more, and its timer runs. */
  lemma ResentFlow(cfg: Config, fl: Flow.Flow, p: Sending, q: Sending, buf: seq<Frame>, r: Receiving, data: seq<Frame>,
                   acks: seq<Frame>, i: nat, t: int)
    requires ValidConfig(cfg) && i < |p.window| && Flow.FlowOk(cfg, fl, p, buf, r, data, acks) && Disciplined(p)
    requires q == p.(window := p.window[i := p.window[i].(timeout := Some(t))])
    requires forall j :: 0 <= j < i ==> p.window[j].timeout.Some?
    ensures Flow.FlowOk(cfg, fl.(flight := fl.flight + [fl.base + i]), q, buf, r, data + [p.window[i].frame], acks)
    ensures Disciplined(q)
  {
    hide Wrap;
    hide CcInv;
    hide Flow.FlightOk;
    Flow.FlightAppend(cfg, fl, r, data, fl.base + i);
    Flow.Retimed(cfg, fl, p, buf, fl.(flight := fl.flight + [fl.base + i]), q);
  }

  // ---------- one ACK ----------

  /** Processing an ACK from e leaves the flow to any other destination alone. */
  lemma OnAckOther(cfg: Config, h: HostState, e: nat, seqNum: uint8, d: nat)
    requires e < |h.send| && d < |h.send| && d != e && Holds(cfg, h)
    ensures var r := OnAck(cfg, h, e, seqNum);
            && Holds(cfg, r)
            && r.send[d] == h.send[d] && Sel(r.outgoing, h.id, d, false) == Sel(h.outgoing, h.id, d, false)
  {
    hide FrameValid;
    hide Sel;
    hide FindSeq;
    hide CountAck;
    hide OnAckCC;
    CountAckWindow(h.send[e], seqNum);
    var p := CountAck(h.send[e], seqNum);
    var h1 := SetSend(h, e, p.(cc := OnAckCC(p.cc)));
    assert Holds(cfg, h1);
    RetransmitOther(cfg, h1, e, Wrap(seqNum + 1), d);
    hide Retransmit;
    var h2 := if EntersFastRecovery(p.cc) then Retransmit(cfg, h1, e, Wrap(seqNum + 1)) else h1;
    SlideHolds(cfg, h2, e, seqNum);
  }

  lemma CountAckWindow(p: Sending, seqNum: uint8)
    ensures CountAck(p, seqNum).window == p.window && CountAck(p, seqNum).currSeq == p.currSeq
  {
    hide SeqNumDiff;
    hide Wrap;
  }

  /** What is left of a window are its last slots. */
  lemma SlideSuffix(p: Sending, seqNum: uint8)
    ensures var q := Slide(p, seqNum);
            && q == p.(window := q.window) && |q.window| <= |p.window|
            && forall i :: 0 <= i < |q.window| ==> q.window[i] == p.window[i + (|p.window| - |q.window|)]
  {
    hide FindSeq;
    hide SeqNumDiff;
  }

  lemma SlideHolds(cfg: Config, h: HostState, e: nat, seqNum: uint8)
    requires e < |h.send| && Holds(cfg, h)
    ensures Holds(cfg, SetSend(h, e, Slide(h.send[e], seqNum)))
  {
    hide FrameValid;
    hide FindSeq;
    hide SeqNumDiff;
    hide Slide;
    var q := Slide(h.send[e], seqNum);
    SlideSuffix(h.send[e], seqNum);
    assert forall i :: 0 <= i < |q.window| ==> q.window[i] == h.send[e].window[i + (|h.send[e].window| - |q.window|)];
  }

  /** A flow whose newest ACK, number m, has been counted but whose window has not slid yet. */
  ghost predicate CountedOk(cfg: Config, h: HostState, d: nat, fl: Flow.Flow, o: Outside, m: nat)
    requires d < |h.send|
  {
    var p := h.send[d];
    && fl.base <= m <= fl.next && p.dupSeq == Wrap(m - 1)
    && Flow.SenderOk(cfg, fl, p.(dupSeq := Wrap(fl.base - 1)), Sel(h.buffered, h.id, d, false))
    && Flow.ReceiverOk(cfg, fl, o.recv)
    && Flow.FlightOk(cfg, fl, o.recv, o.ahead + Sel(h.outgoing, h.id, d, false))
    && Flow.AcksOk(fl.(base := m), Sel(h.incoming, d, h.id, true) + o.behind)
    && Disciplined(p)
  }

  lemma CountStage(cfg: Config, h: HostState, ack: Frame, d: nat, fl: Flow.Flow, o: Outside, acks: seq<Frame>)
    returns (fl1: Flow.Flow)
    requires ValidConfig(cfg) && d < |h.send| && Holds(cfg, h)
    requires Sel(h.incoming, d, h.id, true) + o.behind == acks
    requires Flow.FlowOk(cfg, fl, h.send[d], Sel(h.buffered, h.id, d, false), o.recv,
                         o.ahead + Sel(h.outgoing, h.id, d, false), [ack] + acks)
    requires Disciplined(h.send[d])
    ensures fl.acks != [] && fl1 == fl.(acks := fl.acks[1..])
    ensures fl.base <= fl.acks[0] && ack.seqNum == Wrap(fl.acks[0] as int - 1)
    ensures var p := CountAck(h.send[d], ack.seqNum);
            var h1 := SetSend(h, d, p.(cc := OnAckCC(p.cc)));
            && CountedOk(cfg, h1, d, fl1, o, fl.acks[0]) && Holds(cfg, h1)
            && (EntersFastRecovery(p.cc) ==> fl.acks[0] == fl.base)
  {
    hide FrameValid;
    hide Sel;
    hide Wrap;
    hide CountAck;
    hide OnAckCC;
    hide CcInv;
    hide Flow.FlightOk;
    hide Flow.AcksOk;
    var buf := Sel(h.buffered, h.id, d, false);
    Flow.AckHead(fl, ack, acks);
    var m := fl.acks[0];
    Flow.CountAckOk(cfg, fl, h.send[d], buf, m);
    AckKeepsCc(h.send[d], ack.seqNum);
    fl1 := fl.(acks := fl.acks[1..]);
    var p := CountAck(h.send[d], ack.seqNum);
    var q := p.(cc := OnAckCC(p.cc));
    Flow.FlightSame(cfg, fl, o.recv, o.ahead + Sel(h.outgoing, h.id, d, false), fl1);
    Flow.ReceiverSame(cfg, fl, o.recv, fl1);
    Flow.Retimed(cfg, fl, h.send[d], buf, fl1, q.(dupSeq := Wrap(fl.base - 1)));
    hide Flow.SenderOk;
    hide Flow.ReceiverOk;
    assert fl1.(base := m) == fl.(base := m, acks := fl.acks[1..]);
  }

  lemma SlideStage(cfg: Config, h: HostState, seqNum: uint8, d: nat, fl: Flow.Flow, o: Outside, m: nat)
    requires ValidConfig(cfg) && d < |h.send| && Holds(cfg, h)
    requires CountedOk(cfg, h, d, fl, o, m) && seqNum == Wrap(m - 1)
    ensures var r := SetSend(h, d, Slide(h.send[d], seqNum));
            Holds(cfg, r) && SideOk(cfg, r, d, fl.(base := m), o)
    ensures fl.base <= m && (m == fl.base ==> Slide(h.send[d], seqNum) == h.send[d])
  {
    hide *;
    CountedParts(cfg, h, d, fl, o, m);
    SlideHolds(cfg, h, d, seqNum);
    var r := SetSend(h, d, Slide(h.send[d], seqNum));
    SetSendParts(h, d, Slide(h.send[d], seqNum));
    SlideFlow(cfg, fl, h.send[d], Sel(h.buffered, h.id, d, false), o.recv, o.ahead + Sel(h.outgoing, h.id, d, false),
              Sel(h.incoming, d, h.id, true) + o.behind, m);
    SideWhole(cfg, r, d, fl.(base := m), o);
  }

  lemma CountedParts(cfg: Config, h: HostState, d: nat, fl: Flow.Flow, o: Outside, m: nat)
    requires d < |h.send| && CountedOk(cfg, h, d, fl, o, m)
    ensures fl.base <= m <= fl.next && h.send[d].dupSeq == Wrap(m - 1) && Disciplined(h.send[d])
    ensures Flow.SenderOk(cfg, fl, h.send[d].(dupSeq := Wrap(fl.base - 1)), Sel(h.buffered, h.id, d, false))
    ensures Flow.ReceiverOk(cfg, fl, o.recv)
    ensures Flow.FlightOk(cfg, fl, o.recv, o.ahead + Sel(h.outgoing, h.id, d, false))
    ensures Flow.AcksOk(fl.(base := m), Sel(h.incoming, d, h.id, true) + o.behind)
  {
    hide Wrap;
    hide Sel;
    hide Disciplined;
  }

  lemma SetSendParts(h: HostState, d: nat, p: Sending)
    requires d < |h.send|
    ensures var r := SetSend(h, d, p);
            && |r.send| == |h.send| && r.send[d] == p && r.id == h.id && r.buffered == h.buffered
            && r.outgoing == h.outgoing && r.incoming == h.incoming
  {}

  /** On the flow alone: the window slides to m. */
  lemma SlideFlow(cfg: Config, fl: Flow.Flow, p: Sending, buf: seq<Frame>, r: Receiving, data: seq<Frame>,
                  acks: seq<Frame>,
                  m: nat)
    requires ValidConfig(cfg) && fl.base <= m <= fl.next && p.dupSeq == Wrap(m - 1) && Disciplined(p)
    requires Flow.SenderOk(cfg, fl, p.(dupSeq := Wrap(fl.base - 1)), buf) && Flow.ReceiverOk(cfg, fl, r)
    requires Flow.FlightOk(cfg, fl, r, data) && Flow.AcksOk(fl.(base := m), acks)
    ensures Flow.FlowOk(cfg, fl.(base := m), Slide(p, Wrap(m - 1)), buf, r, data, acks)
    ensures Disciplined(Slide(p, Wrap(m - 1)))
    ensures m == fl.base ==> Slide(p, Wrap(m - 1)) == p
  {
    hide *;
    var fl' := fl.(base := m);
    Flow.NextBounds(cfg, fl, r);
    Flow.SlideOk(cfg, fl, p.(dupSeq := Wrap(fl.base - 1)), buf, p, m);
    assert p.window[0..] == p.window && p.(window := p.window) == p;
    Flow.FlightSame(cfg, fl, r, data, fl');
    ReceiverBase(cfg, fl, r, m);
    SlideSuffix(p, Wrap(m - 1));
    SuffixDisciplined(p, Slide(p, Wrap(m - 1)));
    Flow.FlowSplit(cfg, fl', Slide(p, Wrap(m - 1)), buf, r, data, acks);
  }

  lemma ReceiverBase(cfg: Config, fl: Flow.Flow, r: Receiving, m: nat)
    requires Flow.ReceiverOk(cfg, fl, r) && m <= fl.next
    ensures Flow.ReceiverOk(cfg, fl.(base := m), r)
  {
    hide Wrap;
  }

  lemma SuffixDisciplined(p: Sending, q: Sending)
    requires Disciplined(p) && q == p.(window := q.window) && |q.window| <= |p.window|
    requires forall i :: 0 <= i < |q.window| ==> q.window[i] == p.window[i + (|p.window| - |q.window|)]
    ensures Disciplined(q)
  {
    hide CcInv;
  }

  // ---------- what the ACKs of one turn set off ----------

  /** Frame `base` was the next to go out again. */
  ghost predicate HeadResent(flight: seq<nat>, base: nat, flight': seq<nat>) {
    flight + [base] <= flight'
  }

  lemma HeadResentLater(flight: seq<nat>, base: nat, flight1: seq<nat>, flight': seq<nat>)
    requires HeadResent(flight, base, flight1) && flight1 <= flight'
    ensures HeadResent(flight, base, flight')
  {}

  lemma HeadResentNow(flight: seq<nat>, base: nat, flight': seq<nat>)
    requires flight + [base] <= flight'
    ensures HeadResent(flight, base, flight')
  {}

  /**
   * What n ACKs do to a flow: the sender never falls back, each ACK sends at most one frame, and if the sender has not
   * got on either the oldest unacknowledged frame has gone out again or window and timers are as they were.
   */
  ghost predicate AcksDone(p: Sending, fl: Flow.Flow, q: Sending, fl': Flow.Flow, n: nat) {
    && fl.base <= fl'.base && fl.flight <= fl'.flight && |fl'.flight| <= |fl.flight| + n
    && (fl'.base == fl.base ==>
          HeadResent(fl.flight, fl.base, fl'.flight) || (fl'.flight == fl.flight && q.window == p.window))
  }

  lemma AcksDoneNone(p: Sending, fl: Flow.Flow)
    ensures AcksDone(p, fl, p, fl, 0)
  {}

  lemma AcksDoneMore(p: Sending, fl: Flow.Flow, q: Sending, fl1: Flow.Flow, n: nat, r: Sending, fl': Flow.Flow, k: nat)
    requires AcksDone(p, fl, q, fl1, n) && AcksDone(q, fl1, r, fl', k)
    ensures AcksDone(p, fl, r, fl', n + k)
  {}

  /** One ACK in three stages: count it, retransmit if it is due, slide the window. */
  lemma OnAckIs(cfg: Config, h: HostState, src: nat, seqNum: uint8, p: Sending)
    requires src < |h.send| && p == CountAck(h.send[src], seqNum)
    ensures var h1 := SetSend(h, src, p.(cc := OnAckCC(p.cc)));
            && |h1.send| == |h.send|
            && var h2 := if EntersFastRecovery(p.cc) then Retransmit(cfg, h1, src, Wrap(seqNum + 1)) else h1;
               |h2.send| == |h.send| && OnAck(cfg, h, src, seqNum) == SetSend(h2, src, Slide(h2.send[src], seqNum))
  {
    hide CountAck;
    hide OnAckCC;
    hide EntersFastRecovery;
    hide Retransmit;
    hide Slide;
  }

  /**
   * Processing the oldest ACK of a flow: the window slides exactly to the number it acknowledges, and if it is the
   * third duplicate of a sender still waiting, the oldest unacknowledged frame, no other, goes out again.
   */
  lemma OnAckSelf(cfg: Config, h: HostState, ack: Frame, d: nat, fl: Flow.Flow, o: Outside, acks: seq<Frame>)
    returns (fl': Flow.Flow)
    requires ValidConfig(cfg) && d < |h.send| && Holds(cfg, h)
    requires Sel(h.incoming, d, h.id, true) + o.behind == acks
    requires Flow.FlowOk(cfg, fl, h.send[d], Sel(h.buffered, h.id, d, false), o.recv,
                         o.ahead + Sel(h.outgoing, h.id, d, false), [ack] + acks)
    requires Disciplined(h.send[d])
    ensures fl.acks != [] && fl'.base == fl.acks[0] && fl'.acks == fl.acks[1..]
    ensures fl'.gen == fl.gen && fl'.top == fl.top && fl'.next == fl.next
    ensures Holds(cfg, OnAck(cfg, h, d, ack.seqNum)) && SideOk(cfg, OnAck(cfg, h, d, ack.seqNum), d, fl', o)
    ensures fl'.flight == fl.flight || (fl.base < fl.top && fl'.flight == fl.flight + [fl.base] && fl'.base == fl.base)
    ensures |OnAck(cfg, h, d, ack.seqNum).send| == |h.send|
    ensures AcksDone(h.send[d], fl, OnAck(cfg, h, d, ack.seqNum).send[d], fl', 1)
  {
    hide *;
    var fl1 := CountStage(cfg, h, ack, d, fl, o, acks);
    var m := fl.acks[0];
    var p := CountAck(h.send[d], ack.seqNum);
    var h1 := SetSend(h, d, p.(cc := OnAckCC(p.cc)));
    OnAckIs(cfg, h, d, ack.seqNum, p);
    SetSendParts(h, d, p.(cc := OnAckCC(p.cc)));
    CountAckWindow(h.send[d], ack.seqNum);
    var h2 := h1;
    if EntersFastRecovery(p.cc) {
      CountedSide(cfg, h1, d, fl1, o);
      SideCounts(cfg, h1, d, fl1, o);
      h2 := Retransmit(cfg, h1, d, Wrap(ack.seqNum + 1));
      fl1 := FastRetransmit(cfg, h1, ack.seqNum, d, fl1, o);
    }
    SlideStage(cfg, h2, ack.seqNum, d, fl1, o, m);
    SetSendParts(h2, d, Slide(h2.send[d], ack.seqNum));
    fl' := fl1.(base := m);
    AcksDoneOne(h.send[d], fl, OnAck(cfg, h, d, ack.seqNum).send[d], fl');
  }

  lemma AcksDoneOne(p: Sending, fl: Flow.Flow, q: Sending, fl': Flow.Flow)
    requires fl.base <= fl'.base
    requires fl'.flight == fl.flight + [fl.base] ||
             (fl'.flight == fl.flight && (fl'.base == fl.base ==> q.window == p.window))
    ensures AcksDone(p, fl, q, fl', 1)
  {}

  /** The third duplicate: only the oldest unacknowledged frame can be meant, and it is what goes out. */
  lemma FastRetransmit(cfg: Config, h: HostState, seqNum: uint8, d: nat, fl: Flow.Flow, o: Outside)
    returns (fl': Flow.Flow)
    requires ValidConfig(cfg) && d < |h.send| && Holds(cfg, h)
    requires CountedOk(cfg, h, d, fl, o, fl.base) && seqNum == Wrap(fl.base - 1)
    ensures fl' == if h.send[d].window == [] then fl else fl.(flight := fl.flight + [fl.base])
    ensures fl.base + |h.send[d].window| == fl.top
    ensures var r := Retransmit(cfg, h, d, Wrap(seqNum + 1));
            && Holds(cfg, r) && CountedOk(cfg, r, d, fl', o, fl.base)
            && (h.send[d].window != [] ==> r.outgoing == h.outgoing + [fl.gen[fl.base]])
            && (h.send[d].window == [] ==> r.send == h.send)
  {
    hide *;
    CountedSide(cfg, h, d, fl, o);
    SideParts(cfg, h, d, fl, o);
    SideCounts(cfg, h, d, fl, o);
    WrapShift(fl.base - 1, 1);
    fl' := fl;
    var r := Retransmit(cfg, h, d, Wrap(seqNum + 1));
    if h.send[d].window != [] {
      fl' := RetransmitSelf(cfg, h, d, 0, fl, o);
    } else {
      RetransmitNothing(cfg, h, d, Wrap(seqNum + 1));
      HoldsSame(cfg, h, r);
      SideRests(cfg, h, r, d, fl, o);
    }
    CountedSide(cfg, r, d, fl', o);
  }

  /** An ACK that acknowledges nothing new leaves an ordinary flow. */
  lemma CountedSide(cfg: Config, h: HostState, d: nat, fl: Flow.Flow, o: Outside)
    requires d < |h.send|
    ensures CountedOk(cfg, h, d, fl, o, fl.base) <==> SideOk(cfg, h, d, fl, o)
  {
    hide Wrap;
    hide Sel;
    hide Disciplined;
    hide Flow.FlightOk;
    hide Flow.AcksOk;
    assert fl.(base := fl.base) == fl;
    var p := h.send[d];
    assert p.dupSeq == Wrap(fl.base - 1) ==> p.(dupSeq := Wrap(fl.base - 1)) == p;
  }

  lemma SideCounts(cfg: Config, h: HostState, d: nat, fl: Flow.Flow, o: Outside)
    requires d < |h.send| && SideOk(cfg, h, d, fl, o)
    ensures fl.base + |h.send[d].window| == fl.top
  {
    hide Wrap;
    hide Sel;
    hide Disciplined;
    hide Flow.ReceiverOk;
    hide Flow.FlightOk;
    hide Flow.AcksOk;
  }

  lemma RetransmitNothing(cfg: Config, h: HostState, d: nat, seqNum: uint8)
    requires d < |h.send| && h.send[d].window == []
    ensures var r := Retransmit(cfg, h, d, seqNum);
            r == h.(latestTimeout := r.latestTimeout, ticks := r.ticks)
  {}

  // ---------- handle_incoming_acks ----------

  /** A sender's books do not depend on the rest of its state. */
  lemma HoldsSame(cfg: Config, h: HostState, h': HostState)
    requires Holds(cfg, h) && h'.id == h.id && h'.send == h.send
    requires h'.buffered == h.buffered && h'.outgoing == h.outgoing && h'.cmds == h.cmds
    ensures Holds(cfg, h')
  {
    hide FrameValid;
  }

  /** The ACK at the head of the list belongs to exactly one flow. */
  lemma HeadAck(cfg: Config, h: HostState, d: nat)
    requires h.incoming != [] && OnlyAcks(cfg, h)
    ensures var f := h.incoming[0];
            var rest := Sel(h.incoming[1..], d, h.id, true);
            && (FrameValid(f) ==> f.isAck != 0 && f.src < cfg.hosts)
            && Sel(h.incoming, d, h.id, true) == if FrameValid(f) && f.src == d then [f] + rest else rest
  {
    hide FrameValid;
  }

  lemma Indices(cfg: Config, h: HostState)
    requires WellFormed(cfg, h)
    ensures h.id < |h.send| == cfg.hosts
  {}

  /** The first incoming frame, handled by a sender. */
  function AckStep(cfg: Config, h: HostState): HostState
    requires WellFormed(cfg, h) && h.incoming != []
  {
    var f := h.incoming[0];
    var h1 := h.(incoming := h.incoming[1..]);
    if FrameValid(f) then OnAck(cfg, h1, f.src, f.seqNum) else h1
  }

  lemma AckPassStep(cfg: Config, h: HostState)
    requires WellFormed(cfg, h) && OnlyAcks(cfg, h) && h.incoming != []
    ensures WellFormed(cfg, AckStep(cfg, h)) && OnlyAcks(cfg, AckStep(cfg, h))
    ensures AckPass(cfg, h, 0) == AckPass(cfg, AckStep(cfg, h), 0)
    ensures var r := AckStep(cfg, h);
            r == h.(incoming := h.incoming[1..], outgoing := r.outgoing, send := r.send,
                    latestTimeout := r.latestTimeout, ticks := r.ticks)
  {
    hide FrameValid;
    hide OnAck;
    assert RemoveAt(h.incoming, 0) == h.incoming[1..];
    assert h.incoming[0] in h.incoming;
  }

  lemma AckStepSide(cfg: Config, h: HostState, d: nat, fl: Flow.Flow, o: Outside) returns (fl': Flow.Flow)
    requires ValidConfig(cfg) && WellFormed(cfg, h) && Holds(cfg, h) && OnlyAcks(cfg, h) && h.incoming != []
    requires d < cfg.hosts && SideOk(cfg, h, d, fl, o)
    ensures var r := AckStep(cfg, h);
            |r.send| == |h.send| && Holds(cfg, r) && SideOk(cfg, r, d, fl', o)
    ensures fl'.gen == fl.gen && fl'.top == fl.top && fl'.next == fl.next
    ensures var f := h.incoming[0];
            if FrameValid(f) && f.src == d
            then fl.acks != [] && fl'.base == fl.acks[0] && fl'.acks == fl.acks[1..]
            else fl'.base == fl.base && fl'.acks == fl.acks
    ensures var f := h.incoming[0];
            AcksDone(h.send[d], fl, AckStep(cfg, h).send[d], fl', if FrameValid(f) && f.src == d then 1 else 0)
  {
    hide *;
    Indices(cfg, h);
    AckStepIs(cfg, h);
    HeadAck(cfg, h, d);
    var f := h.incoming[0];
    var h1 := h.(incoming := h.incoming[1..]);
    HoldsSame(cfg, h, h1);
    SideFacts(cfg, h, d, fl, o);
    fl' := fl;
    if FrameValid(f) && f.src == d {
      var rest := Sel(h1.incoming, d, h.id, true);
      assert ([f] + rest) + o.behind == [f] + (rest + o.behind);
      fl' := OnAckSelf(cfg, h1, f, d, fl, o, rest + o.behind);
    } else {
      if FrameValid(f) {
        OnAckOther(cfg, h1, f.src, f.seqNum, d);
      }
      AcksDoneNone(h.send[d], fl);
      SideRests(cfg, h, AckStep(cfg, h), d, fl, o);
    }
  }

  lemma AckStepIs(cfg: Config, h: HostState)
    requires WellFormed(cfg, h) && h.incoming != []
    ensures var f, h1 := h.incoming[0], h.(incoming := h.incoming[1..]);
            && (FrameValid(f) ==> f.src < cfg.hosts == |h.send|)
            && AckStep(cfg, h) == (if FrameValid(f) then OnAck(cfg, h1, f.src, f.seqNum) else h1)
            && AckStep(cfg, h).id == h.id && AckStep(cfg, h).buffered == h.buffered
            && |AckStep(cfg, h).send| == |h.send|
            && AckStep(cfg, h).incoming == h.incoming[1..]
  {
    hide FrameValid;
    hide OnAck;
    assert h.incoming[0] in h.incoming;
  }

  lemma SideFacts(cfg: Config, h: HostState, d: nat, fl: Flow.Flow, o: Outside)
    requires d < |h.send| && SideOk(cfg, h, d, fl, o)
    ensures Flow.FlowOk(cfg, fl, h.send[d], Sel(h.buffered, h.id, d, false), o.recv,
                        o.ahead + Sel(h.outgoing, h.id, d, false), Sel(h.incoming, d, h.id, true) + o.behind)
    ensures Disciplined(h.send[d])
  {}

  /** A side does not depend on what does not belong to it. */
  lemma SideRests(cfg: Config, h: HostState, r: HostState, d: nat, fl: Flow.Flow, o: Outside)
    requires d < |h.send| == |r.send| && SideOk(cfg, h, d, fl, o) && r.send[d] == h.send[d] && r.id == h.id
    requires r.buffered == h.buffered && Sel(r.outgoing, h.id, d, false) == Sel(h.outgoing, h.id, d, false)
    requires Sel(r.incoming, d, h.id, true) == Sel(h.incoming, d, h.id, true)
    ensures SideOk(cfg, r, d, fl, o)
  {
    hide Sel;
    hide Flow.FlowOk;
  }

  /** The host after the first j incoming frames. */
  ghost function AfterAcks(cfg: Config, h: HostState, j: nat): (r: HostState)
    requires WellFormed(cfg, h) && OnlyAcks(cfg, h) && j <= |h.incoming|
    decreases j
  {
    if j == 0 then h
    else
      AckPassStep(cfg, h);
      AfterAcks(cfg, AckStep(cfg, h), j - 1)
  }

  lemma AfterAcksUnfold(cfg: Config, h: HostState, j: nat)
    requires WellFormed(cfg, h) && OnlyAcks(cfg, h) && j <= |h.incoming|
    ensures AfterAcks(cfg, h, 0) == h
    ensures j > 0 ==>
              && WellFormed(cfg, AckStep(cfg, h)) && OnlyAcks(cfg, AckStep(cfg, h))
              && AckStep(cfg, h).incoming == h.incoming[1..]
              && AfterAcks(cfg, h, j) == AfterAcks(cfg, AckStep(cfg, h), j - 1)
  {
    hide FrameValid;
    hide AckStep;
    hide OnlyAcks;
    if j > 0 {
      AckPassStep(cfg, h);
    }
  }

  /**
   * The ACK pass after j frames: those are consumed, and the flow's window has slid exactly to the number of the last
   * ACK among them that arrived intact.
   */
  lemma {:induction false} AfterAcksSide(cfg: Config, h: HostState, j: nat, d: nat, fl: Flow.Flow, o: Outside)
    returns (fl': Flow.Flow)
    requires ValidConfig(cfg) && WellFormed(cfg, h) && Holds(cfg, h) && OnlyAcks(cfg, h) && j <= |h.incoming|
    requires d < cfg.hosts && SideOk(cfg, h, d, fl, o)
    ensures var r := AfterAcks(cfg, h, j);
            && WellFormed(cfg, r) && OnlyAcks(cfg, r) && |r.send| == |h.send| == cfg.hosts
            && Holds(cfg, r) && SideOk(cfg, r, d, fl', o) && AckPass(cfg, h, 0) == AckPass(cfg, r, 0)
            && r == h.(incoming := h.incoming[j..], outgoing := r.outgoing, send := r.send,
                       latestTimeout := r.latestTimeout, ticks := r.ticks)
            && AcksDone(h.send[d], fl, r.send[d], fl', |Sel(h.incoming[..j], d, h.id, true)|)
    ensures fl'.gen == fl.gen && fl'.top == fl.top && fl'.next == fl.next
    ensures var n := |Sel(h.incoming[..j], d, h.id, true)|;
            && n <= |fl.acks| && fl'.acks == fl.acks[n..]
            && fl'.base == (if n == 0 then fl.base else fl.acks[n - 1])
    decreases j
  {
    hide *;
    Indices(cfg, h);
    AfterAcksUnfold(cfg, h, j);
    if j == 0 {
      fl' := fl;
      SelNothing(d, h.id, true);
      AcksDoneNone(h.send[d], fl);
    } else {
      AckPassStep(cfg, h);
      HeadAckOf(cfg, h, j, d);
      var fl1 := AckStepSide(cfg, h, d, fl, o);
      var h1 := AckStep(cfg, h);
      fl' := AfterAcksSide(cfg, h1, j - 1, d, fl1, o);
      var n := |Sel(h1.incoming[..j - 1], d, h.id, true)|;
      var f := h.incoming[0];
      AcksDoneMore(h.send[d], fl, h1.send[d], fl1, if FrameValid(f) && f.src == d then 1 else 0,
                   AfterAcks(cfg, h, j).send[d], fl', n);
    }
  }

  lemma SelNothing(src: int, dst: int, ack: bool)
    ensures Sel([], src, dst, ack) == []
  {}

  /** The first of j incoming frames belongs to exactly one flow. */
  lemma HeadAckOf(cfg: Config, h: HostState, j: nat, d: nat)
    requires 0 < j <= |h.incoming| && OnlyAcks(cfg, h)
    ensures var f, rest := h.incoming[0], Sel(h.incoming[1..][..j - 1], d, h.id, true);
            Sel(h.incoming[..j], d, h.id, true) == if FrameValid(f) && f.src == d then [f] + rest else rest
  {
    hide *;
    var h1 := h.(incoming := h.incoming[..j]);
    FirstOnlyAcks(cfg, h, h1, j);
    HeadAck(cfg, h1, d);
    assert h1.incoming[1..] == h.incoming[1..][..j - 1];
  }

  lemma FirstOnlyAcks(cfg: Config, h: HostState, h1: HostState, j: nat)
    requires j <= |h.incoming| && OnlyAcks(cfg, h) && h1.id == h.id && h1.incoming == h.incoming[..j]
    ensures OnlyAcks(cfg, h1)
  {
    hide FrameValid;
    assert forall f :: f in h1.incoming ==> f in h.incoming;
  }

  /**
   * The whole ACK pass: every incoming frame is consumed, and the flow's window ends up exactly at the number of the
   * last ACK that arrived intact.
   */
  lemma AckPassSide(cfg: Config, h: HostState, d: nat, fl: Flow.Flow, o: Outside)
    returns (fl': Flow.Flow)
    requires ValidConfig(cfg) && WellFormed(cfg, h) && Holds(cfg, h) && OnlyAcks(cfg, h)
    requires d < cfg.hosts && SideOk(cfg, h, d, fl, o)
    ensures var r := AckPass(cfg, h, 0);
            && Holds(cfg, r) && |r.send| == |h.send| == cfg.hosts && SideOk(cfg, r, d, fl', o)
            && r == h.(incoming := [], outgoing := r.outgoing, send := r.send, latestTimeout := r.latestTimeout,
                       ticks := r.ticks)
            && AcksDone(h.send[d], fl, r.send[d], fl', |Sel(h.incoming, d, h.id, true)|)
    ensures fl'.gen == fl.gen && fl'.top == fl.top && fl'.next == fl.next
    ensures var n := |Sel(h.incoming, d, h.id, true)|;
            && n <= |fl.acks| && fl'.acks == fl.acks[n..]
            && fl'.base == (if n == 0 then fl.base else fl.acks[n - 1])
  {
    hide *;
    var j := |h.incoming|;
    assert h.incoming[..j] == h.incoming && h.incoming[j..] == [];
    fl' := AfterAcksSide(cfg, h, j, d, fl, o);
    AckPassEnd(cfg, AfterAcks(cfg, h, j), 0);
  }

  lemma AckPassEnd(cfg: Config, h: HostState, pos: nat)
    requires WellFormed(cfg, h) && pos >= |h.incoming|
    ensures AckPass(cfg, h, pos) == h
  {}
}
