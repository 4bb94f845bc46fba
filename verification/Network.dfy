/**
 * The whole simulator as an event machine: commands arrive, hosts take turns, the switch forwards, queues, corrupts or
 * drops one frame at a time, receivers handle one frame at a time. run_hosts orders these events into four phases.
 */
module Network {
  import opened Common
  import opened Frames
  import opened HostModel

  datatype Phase = Input | Senders(done: set<nat>) | DataSwitch | Receivers | AckSwitch

  /** `ingress[d]` is the queue at the port of host d. */
  datatype System = System(hosts: seq<HostState>, ingress: seq<seq<Frame>>, phase: Phase)

  /** `flip` is the byte index send_frame complements, if any. */
  datatype Event =
    | Command(cmd: Cmd)
    | TakeTurn(host: nat)
    | Forward(host: nat, flip: Option<nat>)
    | Enqueue(host: nat)
    | Serve(host: nat, flip: Option<nat>)
    | Drop(host: nat)
    | Receive(host: nat)
    | NextPhase

  function Fresh(cfg: Config, id: uint8): HostState {
    HostState(id, [], [], [], [],
              seq(cfg.hosts, i => Sending([], 0, 255, CongestionControl(1.0, cfg.window as real, 0, SlowStart))),
              seq(cfg.hosts, i => Receiving(seq(cfg.window, j => None), 255, [])),
              cfg.clock(id, 0), [], false, 1, 0)
  }

  /** init: every host and port empty, the main loop about to read its input. */
  ghost predicate IsInit(cfg: Config, sys: System) {
    && |sys.hosts| == |sys.ingress| == cfg.hosts <= 256
    && (forall i :: 0 <= i < cfg.hosts ==> sys.hosts[i] == Fresh(cfg, i) && sys.ingress[i] == [])
    && sys.phase == Input
  }

  ghost predicate HostShaped(cfg: Config, h: HostState, i: int) {
    && WellFormed(cfg, h)
    && h.id == i
    && (forall s :: 0 <= s < |h.recv| ==> |h.recv[s].window| == cfg.window)
    && (forall f :: f in h.outgoing ==> f.dst < cfg.hosts)
  }

  /** Structural sanity: indices in range, each host in its own slot. */
  ghost predicate Shaped(cfg: Config, sys: System) {
    && |sys.hosts| == |sys.ingress| == cfg.hosts
    && forall i :: 0 <= i < |sys.hosts| ==> HostShaped(cfg, sys.hosts[i], i)
  }

  /** A command the input parser accepts, addressed to another host (frame_sanity_check aborts the run otherwise). */
  predicate ValidCmd(cfg: Config, cmd: Cmd) {
    cmd.src < cfg.hosts && cmd.dst < cfg.hosts && cmd.src != cmd.dst
  }

  ghost predicate PhaseOver(cfg: Config, sys: System) {
    match sys.phase
    case Input => true
    case Senders(done) => forall i :: 0 <= i < cfg.hosts ==> i in done
    case DataSwitch => forall i :: 0 <= i < |sys.hosts| ==> sys.hosts[i].outgoing == []
    case Receivers => forall i :: 0 <= i < |sys.hosts| ==> sys.hosts[i].incoming == []
    case AckSwitch => forall i :: 0 <= i < |sys.hosts| ==> sys.hosts[i].outgoing == []
  }

  predicate ValidFlip(flip: Option<nat>) {
    flip.Some? ==> flip.value < MAX_FRAME_SIZE
  }

  /** In the data phase a frame bypasses the port's queue only when that queue is empty. */
  ghost predicate Enabled(cfg: Config, sys: System, e: Event) {
    match e
    case Command(cmd) => sys.phase.Input? && ValidCmd(cfg, cmd)
    case TakeTurn(i) => sys.phase.Senders? && i < |sys.hosts| && i !in sys.phase.done
    case Forward(i, flip) =>
      && i < |sys.hosts| && sys.hosts[i].outgoing != [] && ValidFlip(flip)
      && (sys.phase.AckSwitch? ||
          (sys.phase.DataSwitch? && sys.hosts[i].outgoing[0].dst < |sys.ingress| &&
           sys.ingress[sys.hosts[i].outgoing[0].dst] == []))
    case Enqueue(i) => sys.phase.DataSwitch? && i < |sys.hosts| && sys.hosts[i].outgoing != []
    case Serve(d, flip) => sys.phase.DataSwitch? && d < |sys.ingress| && sys.ingress[d] != [] && ValidFlip(flip)
    case Drop(i) => sys.phase.DataSwitch? && i < |sys.hosts| && sys.hosts[i].outgoing != []
    case Receive(i) => sys.phase.Receivers? && i < |sys.hosts| && sys.hosts[i].incoming != []
    case NextPhase => PhaseOver(cfg, sys)
  }

  function Following(phase: Phase): Phase {
    match phase
    case Input => Senders({})
    case Senders(_) => DataSwitch
    case DataSwitch => Receivers
    case Receivers => AckSwitch
    case AckSwitch => Input
  }

  /** The frame send_frame appends to the destination's incoming list. */
  function Delivered(f: Frame, flip: Option<nat>): Frame
    requires ValidFlip(flip)
  {
    if flip.Some? then Corrupt(f, flip.value) else f
  }

  function AddIncoming(hosts: seq<HostState>, d: nat, f: Frame): seq<HostState>
    requires d < |hosts|
  {
    hosts[d := hosts[d].(incoming := hosts[d].incoming + [f])]
  }

  function PopOutgoing(hosts: seq<HostState>, i: nat): seq<HostState>
    requires i < |hosts| && hosts[i].outgoing != []
  {
    hosts[i := hosts[i].(outgoing := hosts[i].outgoing[1..])]
  }

  function Apply(cfg: Config, sys: System, e: Event): System
    requires Shaped(cfg, sys) && Enabled(cfg, sys, e)
  {
    match e
    case Command(cmd) =>
      var h := sys.hosts[cmd.src];
      sys.(hosts := sys.hosts[cmd.src := h.(cmds := h.cmds + [cmd])])
    case TakeTurn(i) =>
      sys.(hosts := sys.hosts[i := Turn(cfg, sys.hosts[i])], phase := Senders(sys.phase.done + {i}))
    case Forward(i, flip) =>
      var f := sys.hosts[i].outgoing[0];
      sys.(hosts := AddIncoming(PopOutgoing(sys.hosts, i), f.dst, Delivered(f, flip)))
    case Enqueue(i) =>
      var f := sys.hosts[i].outgoing[0];
      sys.(hosts := PopOutgoing(sys.hosts, i), ingress := sys.ingress[f.dst := sys.ingress[f.dst] + [f]])
    case Serve(d, flip) =>
      var f := sys.ingress[d][0];
      sys.(hosts := AddIncoming(sys.hosts, d, Delivered(f, flip)), ingress := sys.ingress[d := sys.ingress[d][1..]])
    case Drop(i) =>
      sys.(hosts := PopOutgoing(sys.hosts, i))
    case Receive(i) =>
      sys.(hosts := sys.hosts[i := ReceiveOne(cfg, sys.hosts[i])])
    case NextPhase =>
      sys.(phase := Following(sys.phase))
  }

  ghost predicate Step(cfg: Config, sys: System, e: Event, sys': System) {
    Shaped(cfg, sys) && Enabled(cfg, sys, e) && sys' == Apply(cfg, sys, e)
  }

  /** A run from the initial state: `trace[k]` leads from `states[k]` to `states[k + 1]`. */
  ghost predicate IsRun(cfg: Config, states: seq<System>, trace: seq<Event>) {
    && |states| == |trace| + 1
    && IsInit(cfg, states[0])
    && forall k :: 0 <= k < |trace| ==> Step(cfg, states[k], trace[k], states[k + 1])
  }

  /** The messages commanded from host s to host d, in order. */
  function Commanded(trace: seq<Event>, s: int, d: int): seq<CString> {
    if trace == [] then []
    else
      var e := trace[|trace| - 1];
      Commanded(trace[..|trace| - 1], s, d) +
      (if e.Command? && e.cmd.src == s && e.cmd.dst == d then [e.cmd.message] else [])
  }

  /** What host h has printed of the messages from s. */
  function Texts(printed: seq<Line>, s: int): seq<CString> {
    if printed == [] then []
    else Texts(printed[..|printed| - 1], s) +
         (if printed[|printed| - 1].src == s then [printed[|printed| - 1].text] else [])
  }
}
