/** The invariant of the event machine: every pair of hosts is joined by a flow in good order, in every phase. */
module Invariant {
  import opened Common
  import opened Frames
  import opened HostModel
  import opened Congestion
  import opened Messages
  import opened SenderPasses
  import opened SendingTurn
  import opened Network
  import Flow

  // ---------- phases ----------

  /** A valid frame of the given kind from another host to host i. */
  ghost predicate Arriving(cfg: Config, f: Frame, i: int, ack: bool) {
    f.dst == i && f.src != i && f.src < cfg.hosts && ((f.isAck != 0) == ack)
  }

  ghost predicate IncomingKind(cfg: Config, h: HostState, ack: bool) {
    forall f :: f in h.incoming && FrameValid(f) ==> Arriving(cfg, f, h.id, ack)
  }

  ghost predicate OutgoingKind(cfg: Config, h: HostState, ack: bool) {
    forall f :: f in h.outgoing ==>
      FrameValid(f) && f.src == h.id && f.dst != h.id && f.dst < cfg.hosts && ((f.isAck != 0) == ack)
  }

  /** Which kinds of frames may be where: this is what keeps an ACK from being buffered as data. */
  ghost predicate PhaseOk(cfg: Config, h: HostState, phase: Phase) {
    match phase
    case Input => IncomingKind(cfg, h, true) && h.outgoing == []
    case Senders(done) =>
      && IncomingKind(cfg, h, true) && OutgoingKind(cfg, h, false)
      && (h.id in done ==> h.incoming == [] && h.cmds == [] && h.active == (AwaitingAck(h) || h.buffered != []))
    case DataSwitch => IncomingKind(cfg, h, false) && OutgoingKind(cfg, h, false)
    case Receivers => IncomingKind(cfg, h, false) && OutgoingKind(cfg, h, true)
    case AckSwitch => IncomingKind(cfg, h, true) && OutgoingKind(cfg, h, true)
  }

  ghost predicate QueueOk(cfg: Config, q: seq<Frame>, d: int) {
    forall f :: f in q ==> FrameValid(f) && Arriving(cfg, f, d, false)
  }

  /** Between turns `active` tells whether the host still has something to send or to wait for, and no command waits. */
  ghost predicate Settled(h: HostState, phase: Phase) {
    (phase.DataSwitch? || phase.Receivers? || phase.AckSwitch?) ==>
      h.cmds == [] && h.active == (AwaitingAck(h) || h.buffered != [])
  }

  ghost predicate HostOk(cfg: Config, h: HostState, i: int, phase: Phase) {
    && HostShaped(cfg, h, i)
    && Holds(cfg, h.(outgoing := []))
    && PhaseOk(cfg, h, phase)
    && Settled(h, phase)
  }

  /** Every per-host and per-peer table has one entry per host. */
  ghost predicate Sized(cfg: Config, sys: System) {
    && |sys.hosts| == |sys.ingress| == cfg.hosts
    && forall i :: 0 <= i < cfg.hosts ==>
         |sys.hosts[i].send| == |sys.hosts[i].recv| == cfg.hosts && sys.hosts[i].id == i
  }

  ghost predicate HostsOk(cfg: Config, sys: System) {
    && Sized(cfg, sys)
    && (forall i :: 0 <= i < cfg.hosts ==> HostOk(cfg, sys.hosts[i], i, sys.phase))
    && (forall i :: 0 <= i < cfg.hosts ==> QueueOk(cfg, sys.ingress[i], i))
  }

  // ---------- flows ----------

  /** The frames of one kind travelling from a to b, in the order they will arrive. */
  function Channel(sys: System, a: nat, b: nat, ack: bool): seq<Frame>
    requires a < |sys.hosts| && b < |sys.hosts| == |sys.ingress|
  {
    (Sel(sys.hosts[b].incoming, a, b, ack) + Sel(sys.ingress[b], a, b, ack)) + Sel(sys.hosts[a].outgoing, a, b, ack)
  }

  /** What the receiver has printed and kept is what reassembling the delivered prefix of the stream gives. */
  ghost predicate Reassembled(fl: Flow.Flow, h: HostState, s: nat)
    requires s < |h.recv|
  {
    && fl.next <= |fl.gen|
    && Texts(h.printed, s) == Drain(fl.gen[..fl.next]).0
    && h.recv[s].msgs == Drain(fl.gen[..fl.next]).1
  }

  /** The flow from s to d; `taken` are the messages already cut into frames. */
  ghost predicate FlowAt(cfg: Config, sys: System, s: nat, d: nat, fl: Flow.Flow, taken: seq<CString>,
                         sent: seq<CString>)
    requires Sized(cfg, sys) && s < cfg.hosts && d < cfg.hosts
  {
    && Flow.FlowOk(cfg, fl, sys.hosts[s].send[d], Sel(sys.hosts[s].buffered, s, d, false), sys.hosts[d].recv[s],
                   Channel(sys, s, d, false), Channel(sys, d, s, true))
    && Disciplined(sys.hosts[s].send[d])
    && Armed(sys.hosts[s], d)
    && CarriesAll(fl.gen, taken)
    && sent == taken + Pending(sys.hosts[s].cmds, d)
    && Reassembled(fl, sys.hosts[d], s)
  }

  ghost predicate HasFlow(cfg: Config, sys: System, s: nat, d: nat, sent: seq<CString>)
    requires Sized(cfg, sys) && s < cfg.hosts && d < cfg.hosts
  {
    exists fl, taken :: FlowAt(cfg, sys, s, d, fl, taken, sent)
  }

  ghost predicate Inv(cfg: Config, sys: System, trace: seq<Event>) {
    && HostsOk(cfg, sys)
    && forall s, d :: 0 <= s < cfg.hosts && 0 <= d < cfg.hosts && s != d ==>
         HasFlow(cfg, sys, s, d, Commanded(trace, s, d))
  }
}
