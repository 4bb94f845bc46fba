/** What each turn and each arrival achieves for a flow, and why an active host never falls silent for good. */
module Progress {
  import opened Common
  import opened SeqNum
  import opened Frames
  import opened HostModel
  import opened Congestion
  import opened SenderPasses
  import opened SendingTurn
  import opened Network
  import opened Invariant
  import opened Preservation
  import opened TurnStep
  import opened ReceiveStep
  import opened Delivery
  import Flow

  /** The invariant's view of the flow from s to d after k events. */
  lemma ViewAt(cfg: Config, states: seq<System>, trace: seq<Event>, k: nat, s: nat, d: nat)
    returns (fl: Flow.Flow, taken: seq<CString>)
    requires ValidConfig(cfg) && IsRun(cfg, states, trace) && k <= |trace|
    requires s < cfg.hosts && d < cfg.hosts && s != d
    ensures |states| == |trace| + 1 && HostsOk(cfg, states[k]) && Sized(cfg, states[k])
    ensures FlowAt(cfg, states[k], s, d, fl, taken, Commanded(trace[..k], s, d))
  {
    hide *;
    RunInv(cfg, states, trace, k);
    SizedInv(cfg, states[k], trace[..k]);
    InvAt(cfg, states[k], trace[..k], s, d);
    fl, taken := SameFlow(cfg, states[k], s, d, Commanded(trace[..k], s, d));
  }

  // ---------- a turn ----------

  lemma TurnNow(cfg: Config, states: seq<System>, trace: seq<Event>, k: nat)
    requires IsRun(cfg, states, trace) && k < |trace| && trace[k].TakeTurn? && |states| == |trace| + 1
    ensures var i := trace[k].host;
            && i < |states[k].hosts| == cfg.hosts && states[k].phase.Senders?
            && WellFormed(cfg, states[k].hosts[i])
            && states[k + 1] == states[k].(hosts := states[k].hosts[i := Turn(cfg, states[k].hosts[i])],
                                           phase := Senders(states[k].phase.done + {i}))
  {
    hide *;
    RunStep(cfg, states, trace, k);
    ApplyTurn(cfg, states[k], trace[k]);
  }

  lemma NewestAck(cfg: Config, fl: Flow.Flow, p: Sending, buf: seq<Frame>, r: Receiving, data: seq<Frame>,
                  acks: seq<Frame>,
                  n: nat)
    requires Flow.FlowOk(cfg, fl, p, buf, r, data, acks) && n <= |fl.acks|
    ensures forall j :: 0 <= j < n ==> fl.acks[j] <= fl.acks[n - 1]
  {
    hide Wrap;
    hide Flow.SenderOk;
    hide Flow.ReceiverOk;
    hide Flow.FlightOk;
  }

  /**
   * The window slides to exactly the newest ACK that arrived intact, so that any one ACK beyond the oldest
   * unacknowledged frame moves the sender on. If that has not happened and a timer of the window has run out, the
   * oldest unacknowledged frame goes out again. The turn keeps within its budget.
   */
  lemma TurnAchieves(cfg: Config, states: seq<System>, trace: seq<Event>, k: nat, d: nat)
    returns (fl: Flow.Flow, taken: seq<CString>, fl': Flow.Flow, taken': seq<CString>)
    requires ValidConfig(cfg) && IsRun(cfg, states, trace) && k < |trace| && |states| == |trace| + 1
    requires trace[k].TakeTurn? && d < cfg.hosts && d != trace[k].host
    ensures var i := trace[k].host;
            && i < cfg.hosts && Sized(cfg, states[k]) && Sized(cfg, states[k + 1]) && |states[k].hosts| == cfg.hosts
            && FlowAt(cfg, states[k], i, d, fl, taken, Commanded(trace[..k], i, d))
            && FlowAt(cfg, states[k + 1], i, d, fl', taken', Commanded(trace[..k], i, d))
            && d < |states[k].hosts[i].send|
            && var h := states[k].hosts[i];
               var acks := |Sel(h.incoming, d, i, true)|;
               && acks <= |fl.acks| && fl'.base == (if acks == 0 then fl.base else fl.acks[acks - 1])
               && (forall j :: 0 <= j < acks && fl.acks[j] > fl.base ==> fl'.base > fl.base)
               && (SomeExpired(h.send[d].window, cfg.clock(i, h.ticks)) ==>
                     fl'.base > fl.base || HeadResent(fl.flight, fl.base, fl'.flight))
               && WellFormed(cfg, h) && |h.send| == |states[k + 1].hosts[i].send| == cfg.hosts
               && Thrifty(cfg, h, states[k + 1].hosts[i], d)
    ensures fl.gen <= fl'.gen && fl'.next == fl.next
  {
    hide *;
    TurnNow(cfg, states, trace, k);
    var i, sys := trace[k].host, states[k];
    fl, taken := ViewAt(cfg, states, trace, k, i, d);
    var done, h := sys.phase.done, sys.hosts[i];
    HostsOkAt(cfg, sys, i);
    HostsOkAt(cfg, sys, d);
    SenderHolds(cfg, h, i, done);
    SideFromFlow(cfg, sys, i, d, fl, taken, Commanded(trace[..k], i, d));
    fl' := TurnSide(cfg, h, d, fl, Beyond(sys, i, d), taken);
    taken' := taken + Pending(h.cmds, d);
    TurnWellFormed(cfg, h);
    var r := Turn(cfg, h);
    SizedUpdate(cfg, sys, i, r, Senders(done + {i}));
    FlowFromSide(cfg, sys, states[k + 1], i, d, fl, taken, fl', taken');
    FlowParts(cfg, sys, i, d, fl, taken, Commanded(trace[..k], i, d));
    NewestAck(cfg, fl, h.send[d], Sel(h.buffered, i, d, false), sys.hosts[d].recv[i], Channel(sys, i, d, false),
              Channel(sys, d, i, true), |Sel(h.incoming, d, i, true)|);
  }

  // ---------- an arrival ----------

  lemma ReceiveNow(cfg: Config, states: seq<System>, trace: seq<Event>, k: nat)
    requires IsRun(cfg, states, trace) && k < |trace| && trace[k].Receive? && |states| == |trace| + 1
    ensures var i := trace[k].host;
            && i < |states[k].hosts| == cfg.hosts && states[k].phase == Receivers && states[k].hosts[i].incoming != []
            && WellFormed(cfg, states[k].hosts[i])
            && (forall s :: 0 <= s < |states[k].hosts[i].recv| ==> |states[k].hosts[i].recv[s].window| == cfg.window)
            && states[k + 1] == states[k].(hosts := states[k].hosts[i := ReceiveOne(cfg, states[k].hosts[i])])
  {
    hide *;
    RunStep(cfg, states, trace, k);
    ApplyReceive(cfg, states[k], trace[k]);
  }

  /** The first missing frame is not among those received. */
  lemma MissingNotReceived(cfg: Config, fl: Flow.Flow, r: Receiving, n: nat)
    requires ValidConfig(cfg) && Flow.ReceiverOk(cfg, fl, r) && Flow.HasReceived(fl.next, r.window, n)
    ensures n != fl.next
  {
    hide Wrap;
  }

  lemma FlowReceiver(cfg: Config, fl: Flow.Flow, p: Sending, buf: seq<Frame>, r: Receiving, data: seq<Frame>,
                     acks: seq<Frame>)
    requires Flow.FlowOk(cfg, fl, p, buf, r, data, acks)
    ensures Flow.ReceiverOk(cfg, fl, r) && fl.base <= fl.next
  {
    hide Wrap;
  }

  /**
   * Handling an intact frame n of a flow: the acknowledgement sent in reply names the last frame before the first
   * missing one, and it is beyond n if n was the oldest unacknowledged frame, whether or not n had arrived before.
   */
  lemma ArrivalAchieves(cfg: Config, states: seq<System>, trace: seq<Event>, k: nat)
    returns (fl: Flow.Flow, taken: seq<CString>, fl': Flow.Flow)
    requires ValidConfig(cfg) && IsRun(cfg, states, trace) && k < |trace| && |states| == |trace| + 1
    requires trace[k].Receive? && trace[k].host < |states[k].hosts| && states[k].hosts[trace[k].host].incoming != []
    requires FrameValid(states[k].hosts[trace[k].host].incoming[0])
    ensures var i, f := trace[k].host, states[k].hosts[trace[k].host].incoming[0];
            && i < cfg.hosts && f.src < cfg.hosts && f.src != i && Sized(cfg, states[k]) && Sized(cfg, states[k + 1])
            && FlowAt(cfg, states[k], f.src, i, fl, taken, Commanded(trace[..k], f.src, i))
            && FlowAt(cfg, states[k + 1], f.src, i, fl', taken, Commanded(trace[..k], f.src, i))
            && fl.flight != [] && fl.flight[0] < |fl.gen| && fl.gen[fl.flight[0]] == f
            && fl'.acks == fl.acks + [fl'.next]
            && |states[k + 1].hosts| == |states[k + 1].hosts[i].recv| == cfg.hosts
            && Flow.HasReceived(fl'.next, states[k + 1].hosts[i].recv[f.src].window, fl.flight[0])
            && !Flow.HasReceived(fl'.next, states[k + 1].hosts[i].recv[f.src].window, fl'.next)
    ensures fl'.gen == fl.gen && fl'.base == fl.base && fl.next <= fl'.next
    ensures fl.flight[0] == fl.base ==> fl'.next > fl.base
  {
    hide *;
    ReceiveNow(cfg, states, trace, k);
    var i, sys := trace[k].host, states[k];
    var h, f := sys.hosts[i], sys.hosts[i].incoming[0];
    RunInv(cfg, states, trace, k);
    SizedInv(cfg, sys, trace[..k]);
    HostsOkAt(cfg, sys, i);
    ReceiverFacts(cfg, h, i);
    ArrivingData(cfg, f, i);
    var s := f.src;
    fl, taken := ViewAt(cfg, states, trace, k, s, i);
    var ack := ReceiveValid(cfg, h);
    var p := Accept(cfg, h.recv[s], f);
    AcceptWindow(cfg, h.recv[s], f);
    SizedReceive(cfg, sys, i, ReceiveOne(cfg, h));
    fl' := ReceiveOnFlow(cfg, sys, states[k + 1], i, s, ack, fl, taken, Commanded(trace[..k], s, i));
    FlowSizes(cfg, states[k + 1], s, i);
    FlowParts(cfg, states[k + 1], s, i, fl', taken, Commanded(trace[..k], s, i));
    var r := states[k + 1].hosts[i].recv[s];
    FlowReceiver(cfg, fl', states[k + 1].hosts[s].send[i], Sel(states[k + 1].hosts[s].buffered, s, i, false), r,
                 Channel(states[k + 1], s, i, false), Channel(states[k + 1], i, s, true));
    if Flow.HasReceived(fl'.next, r.window, fl'.next) {
      MissingNotReceived(cfg, fl', r, fl'.next);
    }
  }

  lemma SizedReceive(cfg: Config, sys: System, i: nat, r: HostState)
    requires Sized(cfg, sys) && i < |sys.hosts| == cfg.hosts && |r.send| == |r.recv| == cfg.hosts && r.id == i
    ensures Sized(cfg, sys.(hosts := sys.hosts[i := r]))
  {}

  /** A frame that fails its check is dropped and leaves nothing behind, neither a reply nor a change of the books. */
  lemma InvalidIgnored(cfg: Config, states: seq<System>, trace: seq<Event>, k: nat)
    requires ValidConfig(cfg) && IsRun(cfg, states, trace) && k < |trace| && |states| == |trace| + 1
    requires trace[k].Receive? && trace[k].host < |states[k].hosts| && states[k].hosts[trace[k].host].incoming != []
    requires !FrameValid(states[k].hosts[trace[k].host].incoming[0])
    ensures var i := trace[k].host;
            var h := states[k].hosts[i];
            && states[k + 1].ingress == states[k].ingress
            && states[k + 1].hosts == states[k].hosts[i := h.(incoming := h.incoming[1..])]
  {
    hide *;
    ReceiveNow(cfg, states, trace, k);
    ReceiveInvalid(cfg, states[k].hosts[trace[k].host]);
  }

  // ---------- discipline and wake-up ----------

  /** In every reachable state the congestion state is sane and stopped timers come last in every window. */
  lemma SendersDisciplined(cfg: Config, states: seq<System>, trace: seq<Event>, k: nat, s: nat, d: nat)
    requires ValidConfig(cfg) && IsRun(cfg, states, trace) && k <= |trace|
    requires s < cfg.hosts && d < cfg.hosts && s != d
    ensures |states| == |trace| + 1 && s < |states[k].hosts| && d < |states[k].hosts[s].send|
    ensures var p := states[k].hosts[s].send[d];
            CcInv(p.cc) && NullSuffix(p.window) && |p.window| <= cfg.window
  {
    hide *;
    var fl, taken := ViewAt(cfg, states, trace, k, s, d);
    FlowSizes(cfg, states[k], s, d);
    FlowParts(cfg, states[k], s, d, fl, taken, Commanded(trace[..k], s, d));
    DisciplineParts(cfg, fl, states[k].hosts[s].send[d], Sel(states[k].hosts[s].buffered, s, d, false),
                    states[k].hosts[d].recv[s], Channel(states[k], s, d, false), Channel(states[k], d, s, true));
  }

  lemma DisciplineParts(cfg: Config, fl: Flow.Flow, p: Sending, buf: seq<Frame>, r: Receiving, data: seq<Frame>,
                        acks: seq<Frame>)
    requires Disciplined(p) && Flow.FlowOk(cfg, fl, p, buf, r, data, acks)
    ensures CcInv(p.cc) && NullSuffix(p.window) && |p.window| <= cfg.window
  {
    hide Wrap;
    hide CcInv;
    hide NullSuffix;
  }

  /** A frame that waits, in a window or in the buffer, waits for some other host. */
  lemma WaitsForSomeone(cfg: Config, h: HostState, i: int, phase: Phase) returns (d: nat)
    requires HostOk(cfg, h, i, phase) && (AwaitingAck(h) || h.buffered != [])
    ensures d < cfg.hosts && d < |h.send| && d != i
    ensures h.send[d].window != [] || Sel(h.buffered, i, d, false) != []
  {
    hide FrameValid;
    hide Sel;
    if AwaitingAck(h) {
      d :| 0 <= d < |h.send| && h.send[d].window != [];
      assert OwnData(cfg, h.send[d].window[0].frame, h.id) && h.send[d].window[0].frame.dst == d;
    } else {
      assert h.buffered[0] in h.buffered;
      d := h.buffered[0].dst;
      SelHead(h.buffered, i, d, false);
    }
  }

  lemma RunningTimerWakes(h: HostState, d: nat, curr: int)
    requires d < |h.send| && d != h.id && h.send[d].window != [] && h.send[d].window[0].timeout.Some?
    requires curr >= h.send[d].window[0].timeout.value
    ensures SomeExpired(h.send[d].window, curr) && Awake(h, curr)
  {
    assert Expired(h.send[d].window[0], curr);
  }

  lemma ArmedFacts(h: HostState, d: nat)
    requires d < |h.send| && Armed(h, d) && (h.send[d].window != [] || Sel(h.buffered, h.id, d, false) != [])
    ensures h.send[d].window != [] && h.send[d].window[0].timeout.Some?
  {
    hide Sel;
  }

  /**
   * No host is ever stuck: as long as it has something to send or to wait for, the timer of some oldest unacknowledged
   * frame is running, and the host wakes as soon as the clock has reached it.
   */
  lemma NeverStuck(cfg: Config, states: seq<System>, trace: seq<Event>, k: nat, i: nat) returns (d: nat, deadline: int)
    requires ValidConfig(cfg) && IsRun(cfg, states, trace) && k <= |trace| && |states| == |trace| + 1
    requires i < |states[k].hosts| && (AwaitingAck(states[k].hosts[i]) || states[k].hosts[i].buffered != [])
    ensures d < |states[k].hosts[i].send| && d != i
    ensures forall curr :: curr >= deadline ==>
              SomeExpired(states[k].hosts[i].send[d].window, curr) && Awake(states[k].hosts[i], curr)
  {
    hide *;
    RunInv(cfg, states, trace, k);
    SizedInv(cfg, states[k], trace[..k]);
    SizedHosts(cfg, states[k]);
    HostsOkAt(cfg, states[k], i);
    var h := states[k].hosts[i];
    d := WaitsForSomeone(cfg, h, i, states[k].phase);
    var fl, taken := ViewAt(cfg, states, trace, k, i, d);
    FlowParts(cfg, states[k], i, d, fl, taken, Commanded(trace[..k], i, d));
    ArmedFacts(h, d);
    deadline := h.send[d].window[0].timeout.value;
    forall curr | curr >= deadline ensures SomeExpired(h.send[d].window, curr) && Awake(h, curr) {
      RunningTimerWakes(h, d, curr);
    }
  }
}
