/** Every event keeps the invariant. */
module Preservation {
  import opened Common
  import opened Frames
  import opened HostModel
  import opened Congestion
  import opened Messages
  import opened SenderPasses
  import opened SendingTurn
  import opened Network
  import opened Invariant
  import Flow

  // ---------- flows that a step does not touch, or only thins out ----------

  /** Two systems agree on everything but the network's contents. */
  ghost predicate SameBooks(h: HostState, h': HostState) {
    && h'.id == h.id && h'.send == h.send && h'.buffered == h.buffered && h'.cmds == h.cmds
    && h'.recv == h.recv && h'.printed == h.printed && h'.active == h.active
  }

  ghost predicate SenderSame(h: HostState, h': HostState) {
    h'.id == h.id && h'.send == h.send && h'.buffered == h.buffered && h'.cmds == h.cmds
  }

  ghost predicate ReceiverSame(h: HostState, h': HostState) {
    h'.recv == h.recv && h'.printed == h.printed
  }

  /** `q'` is `q`, or `q` without one element. */
  ghost predicate Thinned<T>(q: seq<T>, q': seq<T>) {
    q' == q || exists k :: 0 <= k < |q| && q' == RemoveAt(q, k)
  }

  lemma ThinFlight(cfg: Config, fl: Flow.Flow, r: Receiving, data: seq<Frame>, data': seq<Frame>)
    returns (fl': Flow.Flow)
    requires Flow.FlightOk(cfg, fl, r, data) && Thinned(data, data')
    ensures fl' == fl.(flight := fl'.flight) && Flow.FlightOk(cfg, fl', r, data')
  {
    fl' := fl;
    if data' != data {
      var k :| 0 <= k < |data| && data' == RemoveAt(data, k);
      Flow.FlightRemove(cfg, fl, r, data, k);
      fl' := fl.(flight := RemoveAt(fl.flight, k));
    }
  }

  lemma ThinAcks(fl: Flow.Flow, acks: seq<Frame>, acks': seq<Frame>) returns (fl': Flow.Flow)
    requires Flow.AcksOk(fl, acks) && Thinned(acks, acks')
    ensures fl' == fl.(acks := fl'.acks) && Flow.AcksOk(fl', acks')
  {
    fl' := fl;
    if acks' != acks {
      var k :| 0 <= k < |acks| && acks' == RemoveAt(acks, k);
      Flow.AcksRemove(fl, acks, k);
      fl' := fl.(acks := RemoveAt(fl.acks, k));
    }
  }

  lemma ThinFlow(cfg: Config, fl: Flow.Flow, p: Sending, buf: seq<Frame>, r: Receiving, data: seq<Frame>,
                 acks: seq<Frame>,
                 data': seq<Frame>, acks': seq<Frame>) returns (fl': Flow.Flow)
    requires Flow.FlowOk(cfg, fl, p, buf, r, data, acks) && Thinned(data, data') && Thinned(acks, acks')
    ensures fl' == fl.(flight := fl'.flight, acks := fl'.acks) && Flow.FlowOk(cfg, fl', p, buf, r, data', acks')
  {
    hide Flow.SenderOk;
    hide Flow.ReceiverOk;
    hide Flow.FlightOk;
    hide Flow.AcksOk;
    hide Thinned;
    var fl1 := ThinFlight(cfg, fl, r, data, data');
    ThinBase(fl, fl1, acks);
    fl' := ThinAcks(fl1, acks, acks');
    Flow.Retimed(cfg, fl, p, buf, fl', p);
    Flow.FlightSame(cfg, fl1, r, data', fl');
    ThinReceiver(cfg, fl, r, fl');
  }

  lemma ThinBase(fl: Flow.Flow, fl1: Flow.Flow, acks: seq<Frame>)
    requires Flow.AcksOk(fl, acks) && fl1 == fl.(flight := fl1.flight)
    ensures Flow.AcksOk(fl1, acks)
  {}

  lemma ThinReceiver(cfg: Config, fl: Flow.Flow, r: Receiving, fl': Flow.Flow)
    requires Flow.ReceiverOk(cfg, fl, r) && fl' == fl.(flight := fl'.flight, acks := fl'.acks)
    ensures Flow.ReceiverOk(cfg, fl', r)
  {}

  /** A step that only moves or loses frames of the flow keeps it in order. */
  lemma FlowThinned(cfg: Config, sys: System, sys': System, s: nat, d: nat, sent: seq<CString>)
    requires Sized(cfg, sys) && Sized(cfg, sys') && s < cfg.hosts && d < cfg.hosts
    requires SenderSame(sys.hosts[s], sys'.hosts[s]) && ReceiverSame(sys.hosts[d], sys'.hosts[d])
    requires Thinned(Channel(sys, s, d, false), Channel(sys', s, d, false))
    requires Thinned(Channel(sys, d, s, true), Channel(sys', d, s, true))
    requires HasFlow(cfg, sys, s, d, sent)
    ensures HasFlow(cfg, sys', s, d, sent)
  {
    hide FrameValid;
    hide Sel;
    hide Channel;
    hide Thinned;
    hide Disciplined;
    hide CarriesAll;
    hide Texts;
    hide Drain;
    hide Pending;
    hide Flow.FlowOk;
    var fl, taken :| FlowAt(cfg, sys, s, d, fl, taken, sent);
    var fl' := ThinFlow(cfg, fl, sys.hosts[s].send[d], Sel(sys.hosts[s].buffered, s, d, false), sys.hosts[d].recv[s],
                        Channel(sys, s, d, false), Channel(sys, d, s, true),
                        Channel(sys', s, d, false), Channel(sys', d, s, true));
    assert FlowAt(cfg, sys', s, d, fl', taken, sent);
  }

  // ---------- moving one frame ----------

  lemma SelHead(q: seq<Frame>, src: int, dst: int, ack: bool)
    requires q != []
    ensures Sel(q, src, dst, ack) ==
            if Matches(q[0], src, dst, ack) then [q[0]] + Sel(q[1..], src, dst, ack) else Sel(q[1..], src, dst, ack)
  {
    hide Matches;
    assert [] + Sel(q[1..], src, dst, ack) == Sel(q[1..], src, dst, ack);
  }

  lemma ThinnedMiddle<T>(a: seq<T>, b: seq<T>, f: T, c: seq<T>)
    ensures Thinned((a + b) + ([f] + c), (a + b) + c)
    ensures Thinned((a + ([f] + b)) + c, (a + b) + c)
  {
    assert RemoveAt((a + b) + ([f] + c), |a + b|) == (a + b) + c;
    assert RemoveAt((a + ([f] + b)) + c, |a|) == (a + b) + c;
  }

  /** What send_frame does to a valid frame on its way: nothing, or enough for the check to notice. */
  lemma DeliveredValid(f: Frame, flip: Option<nat>)
    requires FrameValid(f) && ValidFlip(flip)
    ensures flip.None? ==> Delivered(f, flip) == f
    ensures flip.Some? ==> !FrameValid(Delivered(f, flip))
  {
    hide FrameValid;
    hide Corrupt;
    if flip.Some? {
      CorruptionDetected(f, flip.value);
    }
  }

  /** The queues of two systems that differ by moving frame f from the head of one list to the tail of another. */
  ghost predicate InvalidOrSame(f: Frame, g: Frame) {
    g == f || !FrameValid(g)
  }

  lemma SelTail(q: seq<Frame>, g: Frame, f: Frame, src: int, dst: int, ack: bool)
    requires InvalidOrSame(f, g)
    ensures g == f && Matches(f, src, dst, ack) ==> Sel(q + [g], src, dst, ack) == Sel(q, src, dst, ack) + [f]
    ensures g != f || !Matches(f, src, dst, ack) ==> Sel(q + [g], src, dst, ack) == Sel(q, src, dst, ack)
  {
    hide FrameValid;
    hide Sel;
    SelSnoc(q, g, src, dst, ack);
  }

  lemma MatchesEnds(f: Frame, src: int, dst: int, ack: bool)
    requires Matches(f, src, dst, ack)
    ensures f.src == src && f.dst == dst && (f.isAck != 0) == ack
  {
    hide FrameValid;
  }

  lemma ChannelIs(sys: System, a: nat, b: nat, ack: bool)
    requires a < |sys.hosts| && b < |sys.hosts| == |sys.ingress|
    ensures Channel(sys, a, b, ack) ==
            (Sel(sys.hosts[b].incoming, a, b, ack) + Sel(sys.ingress[b], a, b, ack))
            + Sel(sys.hosts[a].outgoing, a, b, ack)
  {
    hide Sel;
  }

  /** The list a frame leaves and the list it joins, one frame at a time. */
  lemma Rejoin<T>(a: seq<T>, b: seq<T>, f: T, c: seq<T>)
    ensures (a + b) + ([f] + c) == (a + (b + [f])) + c
    ensures (a + ([f] + b)) + c == ((a + [f]) + b) + c
    ensures (a + []) + c == a + c && ((a + [f]) + []) + c == (a + []) + ([f] + c)
  {}

  lemma ForwardQueues(sys: System, i: nat, d: nat, g: Frame)
    requires i < |sys.hosts| && d < |sys.hosts| && sys.hosts[i].outgoing != []
    ensures var r := AddIncoming(PopOutgoing(sys.hosts, i), d, g);
            && |r| == |sys.hosts|
            && (forall k :: 0 <= k < |r| ==>
                  && r[k].incoming == (if k == d then sys.hosts[k].incoming + [g] else sys.hosts[k].incoming)
                  && r[k].outgoing == if k == i then sys.hosts[k].outgoing[1..] else sys.hosts[k].outgoing)
  {}

  /** Forward: from the head of the sender's outgoing list to the tail of the receiver's incoming list. */
  lemma ChannelForward(sys: System, sys': System, i: nat, g: Frame, a: nat, b: nat, ack: bool)
    requires i < |sys.hosts| && a < |sys.hosts| && b < |sys.hosts| == |sys.ingress| == |sys'.hosts|
    requires sys.hosts[i].outgoing != []
    requires var f := sys.hosts[i].outgoing[0];
             && FrameValid(f) && f.src == i && f.dst != i && f.dst < |sys.hosts| && InvalidOrSame(f, g)
             && Sel(sys.ingress[f.dst], i, f.dst, f.isAck != 0) == []
             && sys' == sys.(hosts := AddIncoming(PopOutgoing(sys.hosts, i), f.dst, g))
    ensures Thinned(Channel(sys, a, b, ack), Channel(sys', a, b, ack))
  {
    hide *;
    var f := sys.hosts[i].outgoing[0];
    ForwardQueues(sys, i, f.dst, g);
    ChannelIs(sys, a, b, ack);
    ChannelIs(sys', a, b, ack);
    SelHead(sys.hosts[i].outgoing, a, b, ack);
    SelTail(sys.hosts[f.dst].incoming, g, f, a, b, ack);
    if Matches(f, a, b, ack) {
      MatchesEnds(f, a, b, ack);
      var inc, rest := Sel(sys.hosts[b].incoming, a, b, ack), Sel(sys.hosts[i].outgoing[1..], a, b, ack);
      ThinnedMiddle(inc, [], f, rest);
      Rejoin(inc, [], f, rest);
    }
    ThinnedSelf(Channel(sys, a, b, ack));
  }

  lemma ThinnedSelf<T>(q: seq<T>)
    ensures Thinned(q, q)
  {}

  lemma DropQueues(sys: System, i: nat)
    requires i < |sys.hosts| && sys.hosts[i].outgoing != []
    ensures var r := PopOutgoing(sys.hosts, i);
            && |r| == |sys.hosts|
            && (forall k :: 0 <= k < |r| ==>
                  && r[k].incoming == sys.hosts[k].incoming
                  && r[k].outgoing == if k == i then sys.hosts[k].outgoing[1..] else sys.hosts[k].outgoing)
  {}

  lemma ChannelDrop(sys: System, sys': System, i: nat, a: nat, b: nat, ack: bool)
    requires i < |sys.hosts| && a < |sys.hosts| && b < |sys.hosts| == |sys.ingress|
    requires sys.hosts[i].outgoing != [] && sys' == sys.(hosts := PopOutgoing(sys.hosts, i))
    ensures a < |sys'.hosts| && b < |sys'.hosts| && Thinned(Channel(sys, a, b, ack), Channel(sys', a, b, ack))
  {
    hide *;
    var f := sys.hosts[i].outgoing[0];
    DropQueues(sys, i);
    ChannelIs(sys, a, b, ack);
    ChannelIs(sys', a, b, ack);
    SelHead(sys.hosts[i].outgoing, a, b, ack);
    if Matches(f, a, b, ack) {
      ThinnedMiddle(Sel(sys.hosts[b].incoming, a, b, ack), Sel(sys.ingress[b], a, b, ack), f,
                    Sel(sys.hosts[i].outgoing[1..], a, b, ack));
    }
    ThinnedSelf(Channel(sys, a, b, ack));
  }

  lemma ChannelEnqueue(sys: System, sys': System, i: nat, a: nat, b: nat, ack: bool)
    requires i < |sys.hosts| && a < |sys.hosts| && b < |sys.hosts| == |sys.ingress|
    requires sys.hosts[i].outgoing != []
    requires var f := sys.hosts[i].outgoing[0];
             && f.dst < |sys.ingress| && f.src == i
             && sys' == sys.(hosts := PopOutgoing(sys.hosts, i),
                             ingress := sys.ingress[f.dst := sys.ingress[f.dst] + [f]])
    ensures a < |sys'.hosts| && b < |sys'.hosts| == |sys'.ingress|
    ensures Channel(sys', a, b, ack) == Channel(sys, a, b, ack)
  {
    hide *;
    var f := sys.hosts[i].outgoing[0];
    DropQueues(sys, i);
    ChannelIs(sys, a, b, ack);
    ChannelIs(sys', a, b, ack);
    SelHead(sys.hosts[i].outgoing, a, b, ack);
    SelSnoc(sys.ingress[f.dst], f, a, b, ack);
    if Matches(f, a, b, ack) {
      MatchesEnds(f, a, b, ack);
      Rejoin(Sel(sys.hosts[b].incoming, a, b, ack), Sel(sys.ingress[b], a, b, ack), f,
             Sel(sys.hosts[i].outgoing[1..], a, b, ack));
    }
  }

  lemma ServeQueues(sys: System, d: nat, g: Frame)
    requires d < |sys.hosts|
    ensures var r := AddIncoming(sys.hosts, d, g);
            && |r| == |sys.hosts|
            && (forall k :: 0 <= k < |r| ==>
                  && r[k].incoming == (if k == d then sys.hosts[k].incoming + [g] else sys.hosts[k].incoming)
                  && r[k].outgoing == sys.hosts[k].outgoing)
  {}

  lemma ChannelServe(sys: System, sys': System, d: nat, g: Frame, a: nat, b: nat, ack: bool)
    requires d < |sys.hosts| && a < |sys.hosts| && b < |sys.hosts| == |sys.ingress|
    requires sys.ingress[d] != []
    requires var f := sys.ingress[d][0];
             && f.dst == d && InvalidOrSame(f, g)
             && sys' == sys.(hosts := AddIncoming(sys.hosts, d, g), ingress := sys.ingress[d := sys.ingress[d][1..]])
    ensures a < |sys'.hosts| && b < |sys'.hosts| == |sys'.ingress|
    ensures Thinned(Channel(sys, a, b, ack), Channel(sys', a, b, ack))
  {
    hide *;
    var f := sys.ingress[d][0];
    ServeQueues(sys, d, g);
    ChannelIs(sys, a, b, ack);
    ChannelIs(sys', a, b, ack);
    SelHead(sys.ingress[d], a, b, ack);
    SelTail(sys.hosts[d].incoming, g, f, a, b, ack);
    if Matches(f, a, b, ack) {
      MatchesEnds(f, a, b, ack);
      var inc, rest := Sel(sys.hosts[b].incoming, a, b, ack), Sel(sys.ingress[d][1..], a, b, ack);
      var out := Sel(sys.hosts[a].outgoing, a, b, ack);
      ThinnedMiddle(inc, rest, f, out);
      Rejoin(inc, rest, f, out);
    }
    ThinnedSelf(Channel(sys, a, b, ack));
  }

  // ---------- the switch ----------

  lemma PopOk(cfg: Config, h: HostState, i: int, phase: Phase)
    requires HostOk(cfg, h, i, phase) && h.outgoing != []
    ensures HostOk(cfg, h.(outgoing := h.outgoing[1..]), i, phase)
  {
    hide FrameValid;
    hide AwaitingAck;
    var r := h.(outgoing := h.outgoing[1..]);
    AwaitingSame(h, r);
    assert r.(outgoing := []) == h.(outgoing := []);
  }

  lemma AddOk(cfg: Config, h: HostState, i: int, phase: Phase, g: Frame)
    requires HostOk(cfg, h, i, phase) && (phase.DataSwitch? || phase.AckSwitch?)
    requires FrameValid(g) ==> Arriving(cfg, g, i, phase.AckSwitch?)
    ensures HostOk(cfg, h.(incoming := h.incoming + [g]), i, phase)
  {
    hide FrameValid;
    hide AwaitingAck;
    var r := h.(incoming := h.incoming + [g]);
    AwaitingSame(h, r);
    HoldsSame(cfg, h.(outgoing := []), r.(outgoing := []));
    hide Holds;
  }

  /** The frame at the head of an outgoing list, while the switch works. */
  lemma HeadKind(cfg: Config, h: HostState, i: int, phase: Phase)
    requires HostOk(cfg, h, i, phase) && h.outgoing != [] && (phase.DataSwitch? || phase.AckSwitch?)
    ensures var f := h.outgoing[0];
            FrameValid(f) && f.src == i && f.dst != i && f.dst < cfg.hosts && i < cfg.hosts &&
            ((f.isAck != 0) == phase.AckSwitch?) && Arriving(cfg, f, f.dst, phase.AckSwitch?)
  {
    hide FrameValid;
    hide Holds;
    assert h.outgoing[0] in h.outgoing;
  }

  lemma {:induction false} QueueHasNoAcks(cfg: Config, q: seq<Frame>, d: int, a: int, b: int)
    requires QueueOk(cfg, q, d)
    ensures Sel(q, a, b, true) == []
  {
    hide FrameValid;
    if q != [] {
      assert q[0] in q;
      QueueHasNoAcks(cfg, q[1..], d, a, b);
    }
  }

  /** Replacing hosts and queues one at a time. */
  lemma HostsOkAt(cfg: Config, sys: System, i: int)
    requires HostsOk(cfg, sys) && 0 <= i < cfg.hosts
    ensures HostOk(cfg, sys.hosts[i], i, sys.phase) && QueueOk(cfg, sys.ingress[i], i)
    ensures |sys.hosts| == |sys.ingress| == cfg.hosts && Sized(cfg, sys) && sys.hosts[i].id == i
    ensures |sys.hosts[i].send| == |sys.hosts[i].recv| == cfg.hosts
  {
    hide HostOk;
    hide QueueOk;
  }

  lemma HostOkSized(cfg: Config, h: HostState, i: int, phase: Phase)
    requires HostOk(cfg, h, i, phase)
    ensures |h.send| == |h.recv| == cfg.hosts && h.id == i
  {
    hide FrameValid;
    hide Holds;
  }

  lemma HostsOkUpdate(cfg: Config, sys: System, i: nat, h: HostState)
    requires HostsOk(cfg, sys) && i < cfg.hosts && HostOk(cfg, h, i, sys.phase)
    ensures HostsOk(cfg, sys.(hosts := sys.hosts[i := h]))
  {
    HostOkSized(cfg, h, i, sys.phase);
    hide HostOk;
    hide QueueOk;
  }

  lemma HostsOkQueue(cfg: Config, sys: System, d: nat, q: seq<Frame>)
    requires HostsOk(cfg, sys) && d < cfg.hosts && QueueOk(cfg, q, d)
    ensures HostsOk(cfg, sys.(ingress := sys.ingress[d := q]))
  {
    hide HostOk;
    hide QueueOk;
  }

  lemma CommandedSame(trace: seq<Event>, e: Event, s: int, d: int)
    requires e.Command? ==> e.cmd.src != s || e.cmd.dst != d
    ensures Commanded(trace + [e], s, d) == Commanded(trace, s, d)
  {
    assert (trace + [e])[..|trace|] == trace;
  }

  /**
   * An event of the switch keeps the invariant, because every channel only loses frames and the books are untouched.
   */
  lemma KeepThinning(cfg: Config, sys: System, sys': System, trace: seq<Event>, e: Event)
    requires Inv(cfg, sys, trace) && HostsOk(cfg, sys') && !e.Command?
    requires forall i :: 0 <= i < cfg.hosts ==> SameBooks(sys.hosts[i], sys'.hosts[i])
    requires forall a: nat, b: nat, ack :: a < cfg.hosts && b < cfg.hosts ==>
               Thinned(Channel(sys, a, b, ack), Channel(sys', a, b, ack))
    ensures Inv(cfg, sys', trace + [e])
  {
    hide FrameValid;
    hide HostOk;
    hide Thinned;
    hide Channel;
    hide HasFlow;
    hide QueueOk;
    hide Commanded;
    forall s, d | 0 <= s < cfg.hosts && 0 <= d < cfg.hosts && s != d
      ensures HasFlow(cfg, sys', s, d, Commanded(trace + [e], s, d))
    {
      CommandedSame(trace, e, s, d);
      FlowThinned(cfg, sys, sys', s, d, Commanded(trace, s, d));
    }
  }

  /** Every channel of the one is the same channel of the other, or lacks one frame of it. */
  ghost predicate ChannelsThinned(cfg: Config, sys: System, sys': System) {
    && |sys.hosts| == |sys.ingress| == |sys'.hosts| == |sys'.ingress| == cfg.hosts
    && forall a: nat, b: nat, ack :: a < cfg.hosts && b < cfg.hosts ==>
         Thinned(Channel(sys, a, b, ack), Channel(sys', a, b, ack))
  }

  lemma SameBooksSelf(h: HostState)
    ensures SameBooks(h, h)
    ensures forall q :: SameBooks(h, h.(incoming := q)) && SameBooks(h, h.(outgoing := q))
  {}

  lemma SizedInv(cfg: Config, sys: System, trace: seq<Event>)
    requires Inv(cfg, sys, trace)
    ensures HostsOk(cfg, sys) && Sized(cfg, sys)
  {}

  lemma KeepForward(cfg: Config, sys: System, trace: seq<Event>, e: Event)
    requires Inv(cfg, sys, trace) && Shaped(cfg, sys) && Enabled(cfg, sys, e) && e.Forward?
    ensures Inv(cfg, Apply(cfg, sys, e), trace + [e]) && ChannelsThinned(cfg, sys, Apply(cfg, sys, e))
  {
    hide FrameValid;
    hide Corrupt;
    hide Inv;
    hide HostOk;
    hide HostsOk;
    hide QueueOk;
    hide Shaped;
    hide Channel;
    hide Thinned;
    hide Sel;
    hide SameBooks;
    hide Arriving;
    hide Sized;
    SizedInv(cfg, sys, trace);
    var i, h := e.host, sys.hosts[e.host];
    ForwardSized(cfg, sys, i);
    HostsOkAt(cfg, sys, i);
    HeadKind(cfg, h, i, sys.phase);
    var f := h.outgoing[0];
    var j, g := f.dst, Delivered(f, e.flip);
    DeliveredValid(f, e.flip);
    HostsOkAt(cfg, sys, j);
    PopOk(cfg, h, i, sys.phase);
    AddOk(cfg, sys.hosts[j], j, sys.phase, g);
    var sys1 := sys.(hosts := PopOutgoing(sys.hosts, i));
    HostsOkUpdate(cfg, sys, i, h.(outgoing := h.outgoing[1..]));
    HostsOkUpdate(cfg, sys1, j, sys.hosts[j].(incoming := sys.hosts[j].incoming + [g]));
    var sys' := Apply(cfg, sys, e);
    QueueHasNoAcks(cfg, sys.ingress[j], j, i, j);
    SelNone(i, j, false);
    forall a: nat, b: nat, ack | a < cfg.hosts && b < cfg.hosts
      ensures Thinned(Channel(sys, a, b, ack), Channel(sys', a, b, ack))
    {
      ChannelForward(sys, sys', i, g, a, b, ack);
    }
    SameBooksSelf(h);
    SameBooksSelf(sys.hosts[j]);
    forall k | 0 <= k < cfg.hosts ensures SameBooks(sys.hosts[k], sys'.hosts[k]) {
      SameBooksSelf(sys.hosts[k]);
    }
    KeepThinning(cfg, sys, sys', trace, e);
  }

  lemma SelNone(a: int, b: int, ack: bool)
    ensures Sel([], a, b, ack) == []
  {}

  lemma ForwardSized(cfg: Config, sys: System, i: nat)
    requires Sized(cfg, sys) && i < |sys.hosts|
    ensures |sys.hosts| == |sys.ingress| == cfg.hosts && i < cfg.hosts
  {}

  lemma KeepDrop(cfg: Config, sys: System, trace: seq<Event>, e: Event)
    requires Inv(cfg, sys, trace) && Shaped(cfg, sys) && Enabled(cfg, sys, e) && e.Drop?
    ensures Inv(cfg, Apply(cfg, sys, e), trace + [e]) && ChannelsThinned(cfg, sys, Apply(cfg, sys, e))
  {
    hide FrameValid;
    hide Inv;
    hide HostOk;
    hide HostsOk;
    hide QueueOk;
    hide Shaped;
    hide Channel;
    hide Thinned;
    hide Sel;
    hide SameBooks;
    hide Sized;
    SizedInv(cfg, sys, trace);
    var i, h := e.host, sys.hosts[e.host];
    ForwardSized(cfg, sys, i);
    HostsOkAt(cfg, sys, i);
    PopOk(cfg, h, i, sys.phase);
    HostsOkUpdate(cfg, sys, i, h.(outgoing := h.outgoing[1..]));
    var sys' := Apply(cfg, sys, e);
    forall a: nat, b: nat, ack | a < cfg.hosts && b < cfg.hosts
      ensures Thinned(Channel(sys, a, b, ack), Channel(sys', a, b, ack))
    {
      ChannelDrop(sys, sys', i, a, b, ack);
    }
    forall k | 0 <= k < cfg.hosts ensures SameBooks(sys.hosts[k], sys'.hosts[k]) {
      SameBooksSelf(sys.hosts[k]);
    }
    KeepThinning(cfg, sys, sys', trace, e);
  }

  lemma QueueSnoc(cfg: Config, q: seq<Frame>, d: int, f: Frame)
    requires QueueOk(cfg, q, d) && FrameValid(f) && Arriving(cfg, f, d, false)
    ensures QueueOk(cfg, q + [f], d)
  {
    hide FrameValid;
    hide Arriving;
  }

  lemma QueueTail(cfg: Config, q: seq<Frame>, d: int)
    requires QueueOk(cfg, q, d) && q != []
    ensures QueueOk(cfg, q[1..], d) && FrameValid(q[0]) && Arriving(cfg, q[0], d, false) && q[0].dst == d
  {
    hide FrameValid;
    assert q[0] in q;
  }

  lemma KeepEnqueue(cfg: Config, sys: System, trace: seq<Event>, e: Event)
    requires Inv(cfg, sys, trace) && Shaped(cfg, sys) && Enabled(cfg, sys, e) && e.Enqueue?
    ensures Inv(cfg, Apply(cfg, sys, e), trace + [e]) && ChannelsThinned(cfg, sys, Apply(cfg, sys, e))
  {
    hide FrameValid;
    hide Inv;
    hide HostOk;
    hide HostsOk;
    hide QueueOk;
    hide Shaped;
    hide Channel;
    hide Thinned;
    hide Sel;
    hide SameBooks;
    hide Sized;
    SizedInv(cfg, sys, trace);
    var i, h := e.host, sys.hosts[e.host];
    ForwardSized(cfg, sys, i);
    HostsOkAt(cfg, sys, i);
    HeadKind(cfg, h, i, sys.phase);
    var f := h.outgoing[0];
    HostsOkAt(cfg, sys, f.dst);
    PopOk(cfg, h, i, sys.phase);
    HostsOkUpdate(cfg, sys, i, h.(outgoing := h.outgoing[1..]));
    QueueSnoc(cfg, sys.ingress[f.dst], f.dst, f);
    HostsOkQueue(cfg, sys.(hosts := PopOutgoing(sys.hosts, i)), f.dst, sys.ingress[f.dst] + [f]);
    var sys' := Apply(cfg, sys, e);
    forall a: nat, b: nat, ack | a < cfg.hosts && b < cfg.hosts
      ensures Thinned(Channel(sys, a, b, ack), Channel(sys', a, b, ack))
    {
      ChannelEnqueue(sys, sys', i, a, b, ack);
      ThinnedSelf(Channel(sys, a, b, ack));
    }
    forall k | 0 <= k < cfg.hosts ensures SameBooks(sys.hosts[k], sys'.hosts[k]) {
      SameBooksSelf(sys.hosts[k]);
    }
    KeepThinning(cfg, sys, sys', trace, e);
  }

  lemma KeepServe(cfg: Config, sys: System, trace: seq<Event>, e: Event)
    requires Inv(cfg, sys, trace) && Shaped(cfg, sys) && Enabled(cfg, sys, e) && e.Serve?
    ensures Inv(cfg, Apply(cfg, sys, e), trace + [e]) && ChannelsThinned(cfg, sys, Apply(cfg, sys, e))
  {
    hide FrameValid;
    hide Corrupt;
    hide Inv;
    hide HostOk;
    hide HostsOk;
    hide QueueOk;
    hide Shaped;
    hide Channel;
    hide Thinned;
    hide Sel;
    hide SameBooks;
    hide Arriving;
    hide Sized;
    SizedInv(cfg, sys, trace);
    var d := e.host;
    SizedIngress(cfg, sys, d);
    HostsOkAt(cfg, sys, d);
    QueueTail(cfg, sys.ingress[d], d);
    var f := sys.ingress[d][0];
    var g := Delivered(f, e.flip);
    DeliveredValid(f, e.flip);
    AddOk(cfg, sys.hosts[d], d, sys.phase, g);
    HostsOkUpdate(cfg, sys, d, sys.hosts[d].(incoming := sys.hosts[d].incoming + [g]));
    HostsOkQueue(cfg, sys.(hosts := AddIncoming(sys.hosts, d, g)), d, sys.ingress[d][1..]);
    var sys' := Apply(cfg, sys, e);
    forall a: nat, b: nat, ack | a < cfg.hosts && b < cfg.hosts
      ensures Thinned(Channel(sys, a, b, ack), Channel(sys', a, b, ack))
    {
      ChannelServe(sys, sys', d, g, a, b, ack);
    }
    forall k | 0 <= k < cfg.hosts ensures SameBooks(sys.hosts[k], sys'.hosts[k]) {
      SameBooksSelf(sys.hosts[k]);
    }
    KeepThinning(cfg, sys, sys', trace, e);
  }

  lemma SizedIngress(cfg: Config, sys: System, d: nat)
    requires Sized(cfg, sys) && d < |sys.ingress|
    ensures |sys.hosts| == |sys.ingress| == cfg.hosts && d < cfg.hosts
  {}

  // ---------- commands and phases ----------

  lemma {:induction false} PendingSnoc(cmds: seq<Cmd>, cmd: Cmd, d: int)
    ensures Pending(cmds + [cmd], d) == Pending(cmds, d) + (if cmd.dst == d then [cmd.message] else [])
  {
    hide *;
    var last := if cmd.dst == d then [cmd.message] else [];
    PendingUnfold(cmds + [cmd], d);
    NothingPending(d);
    if cmds == [] {
      assert (cmds + [cmd])[1..] == [] && last + [] == last && [] + last == last;
    } else {
      PendingUnfold(cmds, d);
      assert (cmds + [cmd])[1..] == cmds[1..] + [cmd];
      PendingSnoc(cmds[1..], cmd, d);
      Associate(if cmds[0].dst == d then [cmds[0].message] else [], Pending(cmds[1..], d), last);
    }
  }

  lemma CommandHost(cfg: Config, h: HostState, i: int, cmd: Cmd)
    requires HostOk(cfg, h, i, Input) && ValidCmd(cfg, cmd) && cmd.src == i
    ensures HostOk(cfg, h.(cmds := h.cmds + [cmd]), i, Input)
  {
    hide FrameValid;
    hide AwaitingAck;
  }

  lemma CommandedNew(trace: seq<Event>, cmd: Cmd, s: int, d: int)
    ensures Commanded(trace + [Command(cmd)], s, d) ==
            Commanded(trace, s, d) + (if cmd.src == s && cmd.dst == d then [cmd.message] else [])
  {
    assert (trace + [Command(cmd)])[..|trace|] == trace;
  }

  /** A new command only lengthens the list of messages waiting for its flow. */
  lemma FlowCommanded(cfg: Config, sys: System, sys': System, cmd: Cmd, s: nat, d: nat, sent: seq<CString>)
    requires Sized(cfg, sys) && Sized(cfg, sys') && s < cfg.hosts && d < cfg.hosts && cmd.src < cfg.hosts
    requires var h := sys.hosts[cmd.src];
             sys' == sys.(hosts := sys.hosts[cmd.src := h.(cmds := h.cmds + [cmd])])
    requires HasFlow(cfg, sys, s, d, sent)
    ensures HasFlow(cfg, sys', s, d, sent + (if cmd.src == s && cmd.dst == d then [cmd.message] else []))
  {
    hide FrameValid;
    hide Sel;
    hide Disciplined;
    hide CarriesAll;
    hide Texts;
    hide Drain;
    hide Pending;
    hide Flow.FlowOk;
    hide Sized;
    FlowSizes(cfg, sys, s, d);
    FlowSizes(cfg, sys', s, d);
    var fl, taken :| FlowAt(cfg, sys, s, d, fl, taken, sent);
    PendingSnoc(sys.hosts[s].cmds, cmd, d);
    var more := if cmd.src == s && cmd.dst == d then [cmd.message] else [];
    assert taken + (Pending(sys.hosts[s].cmds, d) + more) == sent + more;
    assert sent + [] == sent;
    assert Pending(sys'.hosts[s].cmds, d) == Pending(sys.hosts[s].cmds, d) + more;
    assert FlowAt(cfg, sys', s, d, fl, taken, sent + more);
  }

  lemma FlowSizes(cfg: Config, sys: System, s: nat, d: nat)
    requires Sized(cfg, sys) && s < cfg.hosts && d < cfg.hosts
    ensures |sys.hosts| == |sys.ingress| == cfg.hosts
    ensures |sys.hosts[s].send| == |sys.hosts[s].recv| == |sys.hosts[d].send| == |sys.hosts[d].recv| == cfg.hosts
    ensures sys.hosts[s].id == s && sys.hosts[d].id == d
  {}

  lemma KeepCommand(cfg: Config, sys: System, trace: seq<Event>, e: Event)
    requires Inv(cfg, sys, trace) && Shaped(cfg, sys) && Enabled(cfg, sys, e) && e.Command?
    ensures Inv(cfg, Apply(cfg, sys, e), trace + [e])
  {
    hide FrameValid;
    hide HostOk;
    hide HostsOk;
    hide QueueOk;
    hide Shaped;
    hide HasFlow;
    hide Commanded;
    hide Sized;
    SizedInv(cfg, sys, trace);
    var cmd := e.cmd;
    HostsOkAt(cfg, sys, cmd.src);
    var h := sys.hosts[cmd.src];
    CommandHost(cfg, h, cmd.src, cmd);
    HostsOkUpdate(cfg, sys, cmd.src, h.(cmds := h.cmds + [cmd]));
    var sys' := Apply(cfg, sys, e);
    HostsOkAt(cfg, sys', cmd.src);
    forall s, d | 0 <= s < cfg.hosts && 0 <= d < cfg.hosts && s != d
      ensures HasFlow(cfg, sys', s, d, Commanded(trace + [e], s, d))
    {
      CommandedNew(trace, cmd, s, d);
      FlowCommanded(cfg, sys, sys', cmd, s, d, Commanded(trace, s, d));
    }
  }

  lemma PhaseHost(cfg: Config, h: HostState, i: int, phase: Phase)
    requires HostOk(cfg, h, i, phase)
    requires phase.Senders? ==> i in phase.done
    requires phase.DataSwitch? || phase.AckSwitch? ==> h.outgoing == []
    requires phase.Receivers? ==> h.incoming == []
    ensures HostOk(cfg, h, i, Following(phase))
  {
    hide FrameValid;
    hide AwaitingAck;
    hide Holds;
  }

  lemma KeepPhase(cfg: Config, sys: System, trace: seq<Event>)
    requires Inv(cfg, sys, trace) && Shaped(cfg, sys) && Enabled(cfg, sys, NextPhase)
    ensures Inv(cfg, Apply(cfg, sys, NextPhase), trace + [NextPhase])
  {
    hide FrameValid;
    hide Inv;
    hide HostOk;
    hide QueueOk;
    hide Shaped;
    hide Channel;
    hide Thinned;
    hide Sel;
    hide SameBooks;
    SizedInv(cfg, sys, trace);
    var sys' := Apply(cfg, sys, NextPhase);
    forall i | 0 <= i < cfg.hosts ensures HostOk(cfg, sys'.hosts[i], i, sys'.phase) {
      PhaseHost(cfg, sys.hosts[i], i, sys.phase);
    }
    forall a: nat, b: nat, ack | a < cfg.hosts && b < cfg.hosts
      ensures Thinned(Channel(sys, a, b, ack), Channel(sys', a, b, ack))
    {
      ChannelSame(sys, sys', a, b, ack);
      ThinnedSelf(Channel(sys, a, b, ack));
    }
    forall k | 0 <= k < cfg.hosts ensures SameBooks(sys.hosts[k], sys'.hosts[k]) {
      SameBooksSelf(sys.hosts[k]);
    }
    KeepThinning(cfg, sys, sys', trace, NextPhase);
  }

  lemma ChannelSame(sys: System, sys': System, a: nat, b: nat, ack: bool)
    requires a < |sys.hosts| && b < |sys.hosts| == |sys.ingress| && sys'.hosts == sys.hosts
    requires sys'.ingress == sys.ingress
    ensures Channel(sys', a, b, ack) == Channel(sys, a, b, ack)
  {}
}
