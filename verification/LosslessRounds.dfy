/**
 * A round in which nothing of a flow is lost: from the turn in which a timer has run out to the sender's next turn, the
 * sender gets on.
 */
module LosslessRounds {
  import opened Common
  import opened SeqNum
  import opened Frames
  import opened HostModel
  import opened SenderPasses
  import opened Network
  import opened Invariant
  import opened Preservation
  import opened TurnStep
  import opened ReceiveStep
  import opened Delivery
  import opened Progress
  import opened RoundTrips
  import Flow
  import SimulatorEvents

  // ---------- losses ----------

  /** A data frame of the flow from s to d, or an acknowledgement of one. */
  predicate OfFlow(f: Frame, s: nat, d: nat) {
    (f.src == s && f.dst == d && f.isAck == 0) || (f.src == d && f.dst == s && f.isAck != 0)
  }

  /** The event neither drops nor corrupts a frame of the flow from s to d or an acknowledgement of one. */
  ghost predicate Spares(cfg: Config, sys: System, e: Event, s: nat, d: nat)
    requires Enabled(cfg, sys, e)
  {
    match e
    case Drop(i) => !OfFlow(sys.hosts[i].outgoing[0], s, d)
    case Forward(i, flip) => flip.None? || !OfFlow(sys.hosts[i].outgoing[0], s, d)
    case Serve(q, flip) => flip.None? || !OfFlow(sys.ingress[q][0], s, d)
    case _ => true
  }

  /** No frame of the flow is kept waiting at the receiver's port. */
  predicate NoneWaiting(sys: System, s: nat, d: nat) {
    d < |sys.ingress| && forall f :: f in sys.ingress[d] ==> !OfFlow(f, s, d)
  }

  // ---------- following one frame ----------

  /** Frame f has been sent in this round and not been handled yet. */
  ghost predicate OnItsWay(sys: System, s: nat, d: nat, f: Frame) {
    && s < |sys.hosts| && d < |sys.hosts| == |sys.ingress|
    && match sys.phase
       case Senders(done) => s in done && f in sys.hosts[s].outgoing
       case DataSwitch => f in sys.hosts[s].outgoing || f in sys.ingress[d] || f in sys.hosts[d].incoming
       case Receivers => f in sys.hosts[d].incoming
       case AckSwitch => false
       case Input => false
  }

  /** The acknowledgement has been sent and not been read yet. */
  ghost predicate Answered(sys: System, s: nat, d: nat, ack: Frame) {
    && s < |sys.hosts| && d < |sys.hosts| == |sys.ingress|
    && match sys.phase
       case Senders(done) => s !in done && ack in sys.hosts[s].incoming
       case DataSwitch => false
       case Receivers => ack in sys.hosts[d].outgoing
       case AckSwitch => ack in sys.hosts[d].outgoing || ack in sys.hosts[s].incoming
       case Input => ack in sys.hosts[s].incoming
  }

  lemma ReceiveQueues(cfg: Config, h: HostState)
    requires WellFormed(cfg, h) && h.incoming != []
    requires forall s :: 0 <= s < |h.recv| ==> |h.recv[s].window| == cfg.window
    ensures ReceiveOne(cfg, h).incoming == h.incoming[1..] && h.outgoing <= ReceiveOne(cfg, h).outgoing
  {
    hide FrameValid;
    hide Accept;
    hide Drain;
    hide AckFrame;
    hide Lines;
    assert h.incoming[0] in h.incoming;
  }

  lemma {:induction false} InTail<T>(q: seq<T>, f: T)
    requires q != [] && f in q
    ensures f == q[0] || f in q[1..]
  {
    assert q == [q[0]] + q[1..];
  }

  lemma InAppend<T>(q: seq<T>, g: T)
    ensures g in q + [g] && forall f :: f in q ==> f in q + [g]
  {
    assert (q + [g])[|q|] == g;
    forall f | f in q ensures f in q + [g] {
      var k :| 0 <= k < |q| && q[k] == f;
      assert (q + [g])[k] == f;
    }
  }

  lemma Unflipped(f: Frame, flip: Option<nat>)
    requires ValidFlip(flip) && flip.None?
    ensures Delivered(f, flip) == f
  {
    hide Corrupt;
  }

  lemma WayThroughTurns(cfg: Config, sys: System, e: Event, s: nat, d: nat, f: Frame)
    requires Shaped(cfg, sys) && Enabled(cfg, sys, e) && OnItsWay(sys, s, d, f) && e != TakeTurn(s)
    requires sys.phase.Senders?
    ensures OnItsWay(Apply(cfg, sys, e), s, d, f)
  {
    hide HostShaped;
    hide Turn;
    assert e.TakeTurn? || e.NextPhase?;
    if e.TakeTurn? {
      ApplyTurn(cfg, sys, e);
    }
  }

  /** Forwarding loses no frame f from a to b, if it does not flip it. */
  lemma ForwardKeeps(cfg: Config, sys: System, e: Event, a: nat, b: nat, f: Frame)
    requires Shaped(cfg, sys) && Enabled(cfg, sys, e) && e.Forward? && a < |sys.hosts| && b < |sys.hosts|
    requires f.dst == b && (sys.hosts[e.host].outgoing[0] == f ==> e.flip.None?)
    ensures var r := Apply(cfg, sys, e);
            && |r.hosts| == |sys.hosts| && r.ingress == sys.ingress && r.phase == sys.phase
            && (f in sys.hosts[a].outgoing ==> f in r.hosts[a].outgoing || f in r.hosts[b].incoming)
            && (f in sys.hosts[b].incoming ==> f in r.hosts[b].incoming)
  {
    hide HostShaped;
    hide Delivered;
    var i, q := e.host, sys.hosts[e.host].outgoing;
    SimulatorEvents.HeadInRange(cfg, sys, i);
    InAppend(sys.hosts[q[0].dst].incoming, Delivered(q[0], e.flip));
    if i == a && f in q {
      InTail(q, f);
    }
    if e.flip.None? {
      Unflipped(q[0], e.flip);
    }
  }

  lemma EnqueueKeeps(cfg: Config, sys: System, e: Event, a: nat, b: nat, f: Frame)
    requires Shaped(cfg, sys) && Enabled(cfg, sys, e) && e.Enqueue?
    requires a < |sys.hosts| && b < |sys.hosts| == |sys.ingress| && f.dst == b
    ensures var r := Apply(cfg, sys, e);
            && |r.hosts| == |sys.hosts| && |r.ingress| == |sys.ingress| && r.phase == sys.phase
            && (f in sys.hosts[a].outgoing ==> f in r.hosts[a].outgoing || f in r.ingress[b])
            && (f in sys.ingress[b] ==> f in r.ingress[b])
            && (f in sys.hosts[b].incoming ==> f in r.hosts[b].incoming)
  {
    hide HostShaped;
    var i, q := e.host, sys.hosts[e.host].outgoing;
    SimulatorEvents.HeadInRange(cfg, sys, i);
    InAppend(sys.ingress[q[0].dst], q[0]);
    if i == a && f in q {
      InTail(q, f);
    }
  }

  lemma ServeKeeps(cfg: Config, sys: System, e: Event, a: nat, b: nat, f: Frame)
    requires Shaped(cfg, sys) && Enabled(cfg, sys, e) && e.Serve?
    requires a < |sys.hosts| && b < |sys.hosts| == |sys.ingress| && (sys.ingress[e.host][0] == f ==> e.flip.None?)
    ensures var r := Apply(cfg, sys, e);
            && |r.hosts| == |sys.hosts| && |r.ingress| == |sys.ingress| && r.phase == sys.phase
            && (f in sys.hosts[a].outgoing ==> f in r.hosts[a].outgoing)
            && (f in sys.ingress[b] ==> f in r.ingress[b] || f in r.hosts[b].incoming)
            && (f in sys.hosts[b].incoming ==> f in r.hosts[b].incoming)
  {
    hide HostShaped;
    hide Delivered;
    var p, q := e.host, sys.ingress[e.host];
    InAppend(sys.hosts[p].incoming, Delivered(q[0], e.flip));
    if p == b && f in q {
      InTail(q, f);
    }
    if e.flip.None? {
      Unflipped(q[0], e.flip);
    }
  }

  lemma DropKeeps(cfg: Config, sys: System, e: Event, a: nat, b: nat, f: Frame)
    requires Shaped(cfg, sys) && Enabled(cfg, sys, e) && e.Drop?
    requires a < |sys.hosts| && b < |sys.hosts| && sys.hosts[e.host].outgoing[0] != f
    ensures var r := Apply(cfg, sys, e);
            && |r.hosts| == |sys.hosts| && r.ingress == sys.ingress && r.phase == sys.phase
            && (f in sys.hosts[a].outgoing ==> f in r.hosts[a].outgoing)
            && r.hosts[b].incoming == sys.hosts[b].incoming
  {
    hide HostShaped;
    var i, q := e.host, sys.hosts[e.host].outgoing;
    if i == a && f in q {
      InTail(q, f);
    }
  }

  lemma WayThroughSwitch(cfg: Config, sys: System, e: Event, s: nat, d: nat, f: Frame)
    requires Shaped(cfg, sys) && Enabled(cfg, sys, e) && OnItsWay(sys, s, d, f) && Spares(cfg, sys, e, s, d)
    requires sys.phase == DataSwitch && OfFlow(f, s, d) && f.dst == d && (e.NextPhase? ==> f !in sys.ingress[d])
    ensures OnItsWay(Apply(cfg, sys, e), s, d, f)
  {
    hide HostShaped;
    hide Apply;
    hide OfFlow;
    match e {
      case Forward(_, _) => ForwardKeeps(cfg, sys, e, s, d, f);
      case Enqueue(_) => EnqueueKeeps(cfg, sys, e, s, d, f);
      case Serve(_, _) => ServeKeeps(cfg, sys, e, s, d, f);
      case Drop(_) => DropKeeps(cfg, sys, e, s, d, f);
      case NextPhase => NextPhaseIs(cfg, sys);
    }
  }

  lemma NextPhaseIs(cfg: Config, sys: System)
    requires Shaped(cfg, sys) && Enabled(cfg, sys, NextPhase)
    ensures Apply(cfg, sys, NextPhase) == sys.(phase := Following(sys.phase))
  {
    hide HostShaped;
    hide PhaseOver;
  }

  /** At the receiver, the frame stays in the list until it is handled. */
  lemma WayThroughReceivers(cfg: Config, sys: System, e: Event, s: nat, d: nat, f: Frame)
    requires Shaped(cfg, sys) && Enabled(cfg, sys, e) && OnItsWay(sys, s, d, f) && sys.phase == Receivers
    requires e == Receive(d) ==> sys.hosts[d].incoming[0] != f
    ensures OnItsWay(Apply(cfg, sys, e), s, d, f)
  {
    hide HostShaped;
    hide ReceiveOne;
    hide WellFormed;
    assert e.Receive? || e.NextPhase?;
    if e.Receive? {
      ApplyReceive(cfg, sys, e);
      ReceiveQueues(cfg, sys.hosts[e.host]);
      if e.host == d {
        InTail(sys.hosts[d].incoming, f);
      }
    }
  }

  /** Nothing loses the frame before it is handled. */
  lemma StaysOnItsWay(cfg: Config, sys: System, e: Event, s: nat, d: nat, f: Frame)
    requires Shaped(cfg, sys) && Enabled(cfg, sys, e) && OnItsWay(sys, s, d, f) && Spares(cfg, sys, e, s, d)
    requires e != TakeTurn(s) && OfFlow(f, s, d) && f.dst == d
    requires sys.phase == DataSwitch && e.NextPhase? ==> NoneWaiting(Apply(cfg, sys, e), s, d)
    requires e == Receive(d) && |sys.hosts| > d && sys.hosts[d].incoming != [] ==> sys.hosts[d].incoming[0] != f
    ensures OnItsWay(Apply(cfg, sys, e), s, d, f)
  {
    hide HostShaped;
    hide OfFlow;
    hide Spares;
    match sys.phase {
      case Senders(_) => WayThroughTurns(cfg, sys, e, s, d, f);
      case DataSwitch => WayThroughSwitch(cfg, sys, e, s, d, f);
      case Receivers => WayThroughReceivers(cfg, sys, e, s, d, f);
      case AckSwitch => assert false;
      case Input => assert false;
    }
  }

  // ---------- following its acknowledgement ----------

  lemma AckThroughSwitch(cfg: Config, sys: System, e: Event, s: nat, d: nat, ack: Frame)
    requires Shaped(cfg, sys) && Enabled(cfg, sys, e) && Answered(sys, s, d, ack) && Spares(cfg, sys, e, s, d)
    requires sys.phase == AckSwitch && OfFlow(ack, s, d) && ack.dst == s
    ensures Answered(Apply(cfg, sys, e), s, d, ack)
  {
    hide HostShaped;
    hide Apply;
    hide OfFlow;
    assert e.Forward? || e.NextPhase?;
    if e.Forward? {
      ForwardKeeps(cfg, sys, e, d, s, ack);
    } else {
      NextPhaseIs(cfg, sys);
    }
  }

  lemma AckElsewhere(cfg: Config, sys: System, e: Event, s: nat, d: nat, ack: Frame)
    requires Shaped(cfg, sys) && Enabled(cfg, sys, e) && Answered(sys, s, d, ack)
    requires sys.phase != AckSwitch && e != TakeTurn(s)
    ensures Answered(Apply(cfg, sys, e), s, d, ack)
  {
    hide HostShaped;
    hide ReceiveOne;
    hide WellFormed;
    hide Turn;
    match e {
      case Receive(i) =>
        ApplyReceive(cfg, sys, e);
        ReceiveQueues(cfg, sys.hosts[i]);
      case TakeTurn(i) =>
        ApplyTurn(cfg, sys, e);
      case Command(cmd) =>
        CommandQueues(cfg, sys, e);
      case NextPhase =>
    }
  }

  lemma CommandQueues(cfg: Config, sys: System, e: Event)
    requires Shaped(cfg, sys) && Enabled(cfg, sys, e) && e.Command?
    ensures var r := Apply(cfg, sys, e);
            && |r.hosts| == |sys.hosts| && r.ingress == sys.ingress && r.phase == sys.phase
            && forall i :: 0 <= i < |r.hosts| ==> r.hosts[i].incoming == sys.hosts[i].incoming
  {
    hide HostShaped;
  }

  /** Nothing loses the acknowledgement before the sender's next turn. */
  lemma StaysAnswered(cfg: Config, sys: System, e: Event, s: nat, d: nat, ack: Frame)
    requires Shaped(cfg, sys) && Enabled(cfg, sys, e) && Answered(sys, s, d, ack) && Spares(cfg, sys, e, s, d)
    requires e != TakeTurn(s) && OfFlow(ack, s, d) && ack.dst == s
    ensures Answered(Apply(cfg, sys, e), s, d, ack)
  {
    hide *;
    if sys.phase == AckSwitch {
      AckThroughSwitch(cfg, sys, e, s, d, ack);
    } else {
      AckElsewhere(cfg, sys, e, s, d, ack);
    }
  }

  // ---------- the round ----------

  /** Between its turns k and l, sender s takes no turn and nothing of its flow to d is lost or held back. */
  ghost predicate Lossless(cfg: Config, states: seq<System>, trace: seq<Event>, k: nat, l: nat, s: nat, d: nat)
    requires IsRun(cfg, states, trace) && k < l < |trace|
  {
    && trace[k] == TakeTurn(s) && trace[l] == TakeTurn(s)
    && forall p :: k < p < l ==>
         && trace[p] != TakeTurn(s)
         && Step(cfg, states[p], trace[p], states[p + 1]) && Spares(cfg, states[p], trace[p], s, d)
         && (states[p].phase == Receivers ==> NoneWaiting(states[p], s, d))
  }

  lemma LosslessAt(cfg: Config, states: seq<System>, trace: seq<Event>, k: nat, l: nat, s: nat, d: nat, p: nat)
    requires IsRun(cfg, states, trace) && k < p < l < |trace| && Lossless(cfg, states, trace, k, l, s, d)
    ensures |states| == |trace| + 1 && trace[p] != TakeTurn(s)
    ensures Shaped(cfg, states[p]) && Enabled(cfg, states[p], trace[p])
    ensures states[p + 1] == Apply(cfg, states[p], trace[p])
    ensures Spares(cfg, states[p], trace[p], s, d)
    ensures p + 1 < l && states[p + 1].phase == Receivers ==> NoneWaiting(states[p + 1], s, d)
  {
    hide Shaped;
    hide Enabled;
    hide Apply;
    hide Spares;
    hide IsInit;
    hide NoneWaiting;
    assert Step(cfg, states[p], trace[p], states[p + 1]);
  }

  /** The event number j hands frame f to the protocol at d, and `ack` is sent in reply. */
  ghost predicate Handled(states: seq<System>, trace: seq<Event>, j: nat, d: nat, f: Frame, ack: Frame) {
    && j < |trace| && j + 1 < |states| && trace[j] == Receive(d)
    && d < |states[j].hosts| && states[j].hosts[d].incoming != [] && states[j].hosts[d].incoming[0] == f
    && d < |states[j + 1].hosts|
    && var out := states[j + 1].hosts[d].outgoing;
       out != [] && ack == out[|out| - 1]
  }

  /** A frame handled at d is answered by an acknowledgement of its flow. */
  lemma HandledNow(cfg: Config, states: seq<System>, trace: seq<Event>, j: nat, s: nat, d: nat, f: Frame)
    returns (ack: Frame)
    requires ValidConfig(cfg) && IsRun(cfg, states, trace) && j < |trace| && |states| == |trace| + 1
    requires trace[j] == Receive(d) && d < |states[j].hosts| && states[j].hosts[d].incoming != []
    requires states[j].hosts[d].incoming[0] == f && FrameValid(f) && f.src == s && s < cfg.hosts
    ensures Handled(states, trace, j, d, f, ack) && OfFlow(ack, s, d) && ack.dst == s
    ensures Answered(states[j + 1], s, d, ack)
  {
    hide FrameValid;
    hide ReceiveOne;
    hide WellFormed;
    hide IsRun;
    hide Accept;
    hide Drain;
    hide Lines;
    ReceiveNow(cfg, states, trace, j);
    RunInv(cfg, states, trace, j);
    SizedInv(cfg, states[j], trace[..j]);
    IdIs(cfg, states[j], d);
    SizedHosts(cfg, states[j]);
    hide Inv;
    hide Sized;
    ack := ReceiveValid(cfg, states[j].hosts[d]);
  }

  /** After p events of a lossless round, the frame is on its way, or it was handled at j and the reply is. */
  ghost predicate Followed(states: seq<System>, trace: seq<Event>, k: nat, p: nat, s: nat, d: nat, f: Frame, j: nat,
                           ack: Frame)
    requires p < |states|
  {
    OnItsWay(states[p], s, d, f) ||
    (k < j < p && Handled(states, trace, j, d, f, ack) && OfFlow(ack, s, d) && ack.dst == s &&
     Answered(states[p], s, d, ack))
  }

  lemma {:induction false} Follow(cfg: Config, states: seq<System>, trace: seq<Event>, k: nat, l: nat, s: nat, d: nat,
                                  f: Frame, p: nat) returns (j: nat, ack: Frame)
    requires ValidConfig(cfg) && IsRun(cfg, states, trace) && k < p <= l < |trace| && |states| == |trace| + 1
    requires Lossless(cfg, states, trace, k, l, s, d) && s < cfg.hosts && d < cfg.hosts
    requires FrameValid(f) && OfFlow(f, s, d) && f.src == s && f.dst == d && OnItsWay(states[k + 1], s, d, f)
    ensures Followed(states, trace, k, p, s, d, f, j, ack)
    decreases p
  {
    hide *;
    j, ack := k, f;
    if p == k + 1 {
      FollowedStill(states, trace, k, p, s, d, f, j, ack);
    } else {
      j, ack := Follow(cfg, states, trace, k, l, s, d, f, p - 1);
      LosslessAt(cfg, states, trace, k, l, s, d, p - 1);
      AtTurn(cfg, states, trace, k, l, s, d);
      j, ack := FollowStep(cfg, states, trace, k, l, s, d, f, p, j, ack);
    }
  }

  lemma FollowedStill(states: seq<System>, trace: seq<Event>, k: nat, p: nat, s: nat, d: nat, f: Frame, j: nat,
                      ack: Frame)
    requires p < |states|
    requires OnItsWay(states[p], s, d, f) ||
             (k < j < p && Handled(states, trace, j, d, f, ack) && OfFlow(ack, s, d) && ack.dst == s &&
              Answered(states[p], s, d, ack))
    ensures Followed(states, trace, k, p, s, d, f, j, ack)
  {
    hide OnItsWay;
    hide Handled;
    hide Answered;
    hide OfFlow;
  }

  lemma FollowedAs(states: seq<System>, trace: seq<Event>, k: nat, p: nat, s: nat, d: nat, f: Frame, j: nat,
                   ack: Frame)
    requires p < |states| && Followed(states, trace, k, p, s, d, f, j, ack) && !OnItsWay(states[p], s, d, f)
    ensures k < j < p && Handled(states, trace, j, d, f, ack) && OfFlow(ack, s, d) && ack.dst == s
    ensures Answered(states[p], s, d, ack)
  {
    hide OnItsWay;
    hide Handled;
    hide Answered;
    hide OfFlow;
  }

  lemma TurnPhase(cfg: Config, sys: System, s: nat)
    requires Enabled(cfg, sys, TakeTurn(s))
    ensures sys.phase.Senders? && s !in sys.phase.done
  {}

  lemma AfterDataSwitch(cfg: Config, sys: System, e: Event)
    requires Shaped(cfg, sys) && Enabled(cfg, sys, e)
    ensures sys.phase == DataSwitch && e.NextPhase? ==> Apply(cfg, sys, e).phase == Receivers
  {
    hide HostShaped;
    hide PhaseOver;
    if e.NextPhase? {
      NextPhaseIs(cfg, sys);
    }
  }

  lemma FollowStep(cfg: Config, states: seq<System>, trace: seq<Event>, k: nat, l: nat, s: nat, d: nat, f: Frame,
                   p: nat, j: nat, ack: Frame) returns (j': nat, ack': Frame)
    requires ValidConfig(cfg) && IsRun(cfg, states, trace) && k + 1 < p <= l < |trace| && |states| == |trace| + 1
    requires trace[p - 1] != TakeTurn(s) && Shaped(cfg, states[p - 1]) && Enabled(cfg, states[p - 1], trace[p - 1])
    requires states[p] == Apply(cfg, states[p - 1], trace[p - 1])
    requires Spares(cfg, states[p - 1], trace[p - 1], s, d)
    requires states[p].phase == Receivers ==> p == l || NoneWaiting(states[p], s, d)
    requires trace[l] == TakeTurn(s) && Enabled(cfg, states[l], trace[l])
    requires s < cfg.hosts && FrameValid(f) && OfFlow(f, s, d) && f.src == s && f.dst == d
    requires Followed(states, trace, k, p - 1, s, d, f, j, ack)
    ensures Followed(states, trace, k, p, s, d, f, j', ack')
  {
    hide *;
    j', ack' := j, ack;
    var sys, e := states[p - 1], trace[p - 1];
    if OnItsWay(sys, s, d, f) {
      if e == Receive(d) && |sys.hosts| > d && sys.hosts[d].incoming != [] && sys.hosts[d].incoming[0] == f {
        j' := p - 1;
        ack' := HandledNow(cfg, states, trace, j', s, d, f);
      } else {
        TurnPhase(cfg, states[l], s);
        AfterDataSwitch(cfg, sys, e);
        StaysOnItsWay(cfg, sys, e, s, d, f);
      }
    } else {
      FollowedAs(states, trace, k, p - 1, s, d, f, j, ack);
      StaysAnswered(cfg, sys, e, s, d, ack);
    }
    FollowedStill(states, trace, k, p, s, d, f, j', ack');
  }

  // ---------- both ends of the round ----------

  lemma AtTurn(cfg: Config, states: seq<System>, trace: seq<Event>, k: nat, l: nat, s: nat, d: nat)
    requires IsRun(cfg, states, trace) && k < l < |trace| && Lossless(cfg, states, trace, k, l, s, d)
    ensures |states| == |trace| + 1 && trace[k] == TakeTurn(s) == trace[l] && Enabled(cfg, states[l], trace[l])
  {
    hide Shaped;
    hide Enabled;
    hide Apply;
    hide Spares;
    hide IsInit;
    hide NoneWaiting;
    assert Step(cfg, states[l], trace[l], states[l + 1]);
  }

  /** Until its next turn, a sender's windows stay as its last turn left them. */
  lemma {:induction false} WindowsRest(cfg: Config, states: seq<System>, trace: seq<Event>, k: nat, l: nat, s: nat,
                                       d: nat, p: nat)
    requires ValidConfig(cfg) && IsRun(cfg, states, trace) && k < p <= l < |trace| && |states| == |trace| + 1
    requires Lossless(cfg, states, trace, k, l, s, d) && s < cfg.hosts
    ensures |states[k + 1].hosts| == |states[p].hosts| == cfg.hosts
    ensures states[p].hosts[s].send == states[k + 1].hosts[s].send
    decreases p
  {
    hide *;
    RunInv(cfg, states, trace, p);
    SizedInv(cfg, states[p], trace[..p]);
    SizedHosts(cfg, states[p]);
    if p > k + 1 {
      WindowsRest(cfg, states, trace, k, l, s, d, p - 1);
      LosslessAt(cfg, states, trace, k, l, s, d, p - 1);
      if trace[p - 1].Command? {
        CommandAlone(cfg, states[p - 1], trace[p - 1], s);
      } else {
        TurnOf(trace[p - 1], s);
        SendersAlone(cfg, states[p - 1], trace[p - 1], s);
      }
    }
  }

  lemma TurnOf(e: Event, s: nat)
    ensures e == TakeTurn(s) <==> e.TakeTurn? && e.host == s
  {}

  /** A frame that has gone out again in a turn is in the outgoing list, at the head of the window. */
  lemma ResentHead(cfg: Config, sys: System, sys': System, s: nat, d: nat, fl: Flow.Flow, taken: seq<CString>,
                   sent: seq<CString>, fl': Flow.Flow, taken': seq<CString>, sent': seq<CString>)
    returns (f: Frame)
    requires Sized(cfg, sys) && Sized(cfg, sys') && s < cfg.hosts && d < cfg.hosts && s != d
    requires FlowAt(cfg, sys, s, d, fl, taken, sent) && FlowAt(cfg, sys', s, d, fl', taken', sent')
    requires |sys.hosts| == |sys'.hosts| == cfg.hosts
    requires sys' == sys.(hosts := sys.hosts[s := sys'.hosts[s]], phase := sys'.phase)
    requires fl'.base == fl.base && HeadResent(fl.flight, fl.base, fl'.flight)
    ensures |sys'.hosts[s].send| == cfg.hosts
    ensures f in sys'.hosts[s].outgoing && Matches(f, s, d, false)
    ensures sys'.hosts[s].send[d].window != [] && sys'.hosts[s].send[d].window[0].frame == f
  {
    hide *;
    FlowSizes(cfg, sys, s, d);
    FlowSizes(cfg, sys', s, d);
    FlowParts(cfg, sys, s, d, fl, taken, sent);
    FlowParts(cfg, sys', s, d, fl', taken', sent');
    f := HeadInFlight(cfg, fl', sys'.hosts[s].send[d], Sel(sys'.hosts[s].buffered, s, d, false), sys'.hosts[d].recv[s],
                      Channel(sys', s, d, false), Channel(sys', d, s, true), fl.flight);
    SenderCounts(cfg, fl, sys.hosts[s].send[d], Sel(sys.hosts[s].buffered, s, d, false), sys.hosts[d].recv[s],
                 Channel(sys, s, d, false), Channel(sys, d, s, true));
    AheadOf(sys, sys', s, d, |fl.flight|);
    SelMatches(sys'.hosts[s].outgoing, s, d, false);
  }

  /** Frame `base`, sent after `before` others, is at its place in the channel and at the head of the window. */
  lemma HeadInFlight(cfg: Config, fl: Flow.Flow, p: Sending, buf: seq<Frame>, r: Receiving, data: seq<Frame>,
                     acks: seq<Frame>, before: seq<nat>) returns (f: Frame)
    requires Flow.FlowOk(cfg, fl, p, buf, r, data, acks) && HeadResent(before, fl.base, fl.flight)
    ensures |before| < |data| && data[|before|] == f && p.window != [] && p.window[0].frame == f
  {
    hide Wrap;
    hide Flow.AcksOk;
    assert fl.flight[|before|] == fl.base;
    f := data[|before|];
  }

  /** Whatever has joined a channel in a turn of its sender is in the sender's outgoing list. */
  lemma AheadOf(sys: System, sys': System, s: nat, d: nat, n: nat)
    requires s < |sys.hosts| && d < |sys.hosts| == |sys.ingress| == |sys'.hosts| && s != d
    requires sys' == sys.(hosts := sys.hosts[s := sys'.hosts[s]], phase := sys'.phase)
    requires n == |Channel(sys, s, d, false)| < |Channel(sys', s, d, false)|
    ensures Channel(sys', s, d, false)[n] in Sel(sys'.hosts[s].outgoing, s, d, false)
  {
    hide Sel;
    var ahead := Sel(sys.hosts[d].incoming, s, d, false) + Sel(sys.ingress[d], s, d, false);
    assert Channel(sys', s, d, false) == ahead + Sel(sys'.hosts[s].outgoing, s, d, false);
    assert Channel(sys', s, d, false)[n] == Sel(sys'.hosts[s].outgoing, s, d, false)[n - |ahead|];
  }

  lemma MatchingData(f: Frame, s: nat, d: nat)
    requires Matches(f, s, d, false)
    ensures FrameValid(f) && OfFlow(f, s, d) && f.src == s && f.dst == d
  {
    hide FrameValid;
  }

  lemma InOutgoing(cfg: Config, sys: System, s: nat, d: nat, f: Frame)
    requires |sys.hosts| == |sys.ingress| == cfg.hosts && s < cfg.hosts && d < cfg.hosts
    requires sys.phase.Senders? && s in sys.phase.done && f in sys.hosts[s].outgoing
    ensures OnItsWay(sys, s, d, f)
  {}

  lemma NotOnItsWay(sys: System, s: nat, d: nat, f: Frame)
    requires sys.phase.Senders? && s !in sys.phase.done
    ensures !OnItsWay(sys, s, d, f)
    ensures forall ack :: Answered(sys, s, d, ack) ==> s < |sys.hosts| && ack in sys.hosts[s].incoming
  {}

  /**
   * If a timer of the window from s to d has run out at one turn of s, and until its next turn no frame of that flow
   * and no acknowledgement of one is dropped, corrupted or kept waiting at a port, then s knows more frames to be
   * acknowledged after the second turn than before the first.
   */
  lemma LosslessRound(cfg: Config, states: seq<System>, trace: seq<Event>, k: nat, l: nat, s: nat, d: nat)
    requires ValidConfig(cfg) && IsRun(cfg, states, trace) && k < l < |trace| && |states| == |trace| + 1
    requires s < cfg.hosts && d < cfg.hosts && s != d && Lossless(cfg, states, trace, k, l, s, d)
    requires s < |states[k].hosts| && d < |states[k].hosts[s].send|
    requires var h := states[k].hosts[s]; SomeExpired(h.send[d].window, cfg.clock(s, h.ticks))
    ensures |states[l + 1].hosts| == cfg.hosts && |states[l + 1].hosts[s].send| == cfg.hosts
    ensures Acknowledged(states[l + 1].hosts[s], Commanded(trace[..l + 1], s, d), d) >
            Acknowledged(states[k].hosts[s], Commanded(trace[..k], s, d), d)
  {
    hide *;
    AtTurn(cfg, states, trace, k, l, s, d);
    TurnNow(cfg, states, trace, k);
    var fl, taken, fl', taken' := TurnAchieves(cfg, states, trace, k, d);
    var sent := Commanded(trace[..k], s, d);
    BaseIs(cfg, states[k], s, d, fl, taken, sent);
    BaseIs(cfg, states[k + 1], s, d, fl', taken', sent);
    TurnOf(trace[k], s);
    CommandedSame(trace[..k], trace[k], s, d);
    assert trace[..k] + [trace[k]] == trace[..k + 1];
    NeverBack(cfg, states, trace, k, k + 1, s, d);
    NeverBack(cfg, states, trace, k + 1, l + 1, s, d);
    if fl'.base == fl.base {
      var f := ResentHead(cfg, states[k], states[k + 1], s, d, fl, taken, sent, fl', taken', sent);
      RoundOf(cfg, states, trace, k, l, s, d, f);
    }
  }

  /** The frame at the head of the window is out, and nothing is lost: the sender gets on. */
  lemma RoundOf(cfg: Config, states: seq<System>, trace: seq<Event>, k: nat, l: nat, s: nat, d: nat, f: Frame)
    requires ValidConfig(cfg) && IsRun(cfg, states, trace) && k < l < |trace| && |states| == |trace| + 1
    requires s < cfg.hosts && d < cfg.hosts && s != d && Lossless(cfg, states, trace, k, l, s, d)
    requires |states[k + 1].hosts| == |states[l + 1].hosts| == cfg.hosts
    requires |states[k + 1].hosts[s].send| == |states[l + 1].hosts[s].send| == cfg.hosts
    requires f in states[k + 1].hosts[s].outgoing && Matches(f, s, d, false)
    requires states[k + 1].hosts[s].send[d].window != [] && states[k + 1].hosts[s].send[d].window[0].frame == f
    ensures Acknowledged(states[l + 1].hosts[s], Commanded(trace[..l + 1], s, d), d) >
            Acknowledged(states[k + 1].hosts[s], Commanded(trace[..k + 1], s, d), d)
  {
    hide *;
    AtTurn(cfg, states, trace, k, l, s, d);
    TurnNow(cfg, states, trace, k);
    MatchingData(f, s, d);
    RunInv(cfg, states, trace, k + 1);
    SizedInv(cfg, states[k + 1], trace[..k + 1]);
    SizedHosts(cfg, states[k + 1]);
    InOutgoing(cfg, states[k + 1], s, d, f);
    var j, ack := Follow(cfg, states, trace, k, l, s, d, f, l);
    TurnPhase(cfg, states[l], s);
    NotOnItsWay(states[l], s, d, f);
    FollowedAs(states, trace, k, l, s, d, f, j, ack);
    HandledAs(states, trace, j, d, f, ack);
    WindowsRest(cfg, states, trace, k, l, s, d, j);
    WindowsRest(cfg, states, trace, k, l, s, d, l);
    RunInv(cfg, states, trace, j + 1);
    SizedInv(cfg, states[j + 1], trace[..j + 1]);
    SizedHosts(cfg, states[j + 1]);
    RoundTripAdvances(cfg, states, trace, j, l, s, d, ack);
    NeverBack(cfg, states, trace, k + 1, j, s, d);
  }

  lemma HandledAs(states: seq<System>, trace: seq<Event>, j: nat, d: nat, f: Frame, ack: Frame)
    requires Handled(states, trace, j, d, f, ack)
    ensures j < |trace| && j + 1 < |states| && trace[j] == Receive(d)
    ensures d < |states[j].hosts| && states[j].hosts[d].incoming != [] && states[j].hosts[d].incoming[0] == f
    ensures d < |states[j + 1].hosts|
    ensures var out := states[j + 1].hosts[d].outgoing; out != [] && ack == out[|out| - 1]
  {}
}
