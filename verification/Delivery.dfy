/** What the invariant means for every run: in-order exactly-once delivery, completeness at exit, and progress. */
module Delivery {
  import opened Common
  import opened SeqNum
  import opened Frames
  import opened HostModel
  import opened Congestion
  import opened Messages
  import opened SenderPasses
  import opened SendingTurn
  import opened Network
  import opened Invariant
  import opened Preservation
  import opened TurnStep
  import opened ReceiveStep
  import Flow

  // ---------- the invariant holds in every state of every run ----------

  lemma FreshHost(cfg: Config, i: uint8)
    requires ValidConfig(cfg) && i < cfg.hosts
    ensures HostOk(cfg, Fresh(cfg, i), i, Input)
  {
    hide FrameValid;
  }

  lemma FreshFlow(cfg: Config, sys: System, s: nat, d: nat)
    requires ValidConfig(cfg) && IsInit(cfg, sys) && Sized(cfg, sys) && s < cfg.hosts && d < cfg.hosts && s != d
    ensures HasFlow(cfg, sys, s, d, [])
  {
    hide *;
    FlowSizes(cfg, sys, s, d);
    FreshParts(cfg, sys, s, d);
    var fl := Flow.Flow([], 0, 0, 0, [], []);
    FreshEnds(cfg, sys.hosts[s].send[d], sys.hosts[d].recv[s]);
    NothingPending(d);
    DrainEmpty();
    FreshStream(fl, sys.hosts[d], s);
    FlowWhole(cfg, sys, s, d, fl, [], []);
    FlowExists(cfg, sys, s, d, fl, [], []);
  }

  lemma FreshParts(cfg: Config, sys: System, s: nat, d: nat)
    requires ValidConfig(cfg) && IsInit(cfg, sys) && s < cfg.hosts && d < cfg.hosts && s != d
    ensures |sys.hosts| == |sys.ingress| == cfg.hosts && d < |sys.hosts[s].send| && s < |sys.hosts[d].recv|
    ensures sys.hosts[s].send[d] == Sending([], 0, 255, CongestionControl(1.0, cfg.window as real, 0, SlowStart))
    ensures sys.hosts[d].recv[s] == Receiving(seq(cfg.window, j => None), 255, [])
    ensures Sel(sys.hosts[s].buffered, s, d, false) == [] && sys.hosts[s].cmds == []
    ensures Channel(sys, s, d, false) == [] && Channel(sys, d, s, true) == [] && Texts(sys.hosts[d].printed, s) == []
    ensures Armed(sys.hosts[s], d)
  {
    hide FrameValid;
  }

  lemma FreshEnds(cfg: Config, p: Sending, r: Receiving)
    requires ValidConfig(cfg)
    requires p == Sending([], 0, 255, CongestionControl(1.0, cfg.window as real, 0, SlowStart))
    requires r == Receiving(seq(cfg.window, j => None), 255, [])
    ensures Flow.FlowOk(cfg, Flow.Flow([], 0, 0, 0, [], []), p, [], r, [], []) && Disciplined(p)
  {}

  lemma FreshStream(fl: Flow.Flow, h: HostState, s: nat)
    requires fl.gen == [] && fl.next == 0 && s < |h.recv| && h.recv[s].msgs == [] && Texts(h.printed, s) == []
    requires Drain([]) == ([], [])
    ensures CarriesAll(fl.gen, []) && Reassembled(fl, h, s)
  {
    hide Texts;
    hide Drain;
    assert fl.gen[..fl.next] == [];
  }

  lemma InitInv(cfg: Config, sys: System)
    requires ValidConfig(cfg) && IsInit(cfg, sys)
    ensures Inv(cfg, sys, [])
  {
    hide FrameValid;
    hide HostOk;
    hide HasFlow;
    forall i | 0 <= i < cfg.hosts ensures HostOk(cfg, sys.hosts[i], i, Input) {
      FreshHost(cfg, i);
    }
    forall s, d | 0 <= s < cfg.hosts && 0 <= d < cfg.hosts && s != d
      ensures HasFlow(cfg, sys, s, d, Commanded([], s, d))
    {
      FreshFlow(cfg, sys, s, d);
    }
  }

  lemma StepInv(cfg: Config, sys: System, trace: seq<Event>, e: Event)
    requires ValidConfig(cfg) && Inv(cfg, sys, trace) && Shaped(cfg, sys) && Enabled(cfg, sys, e)
    ensures Inv(cfg, Apply(cfg, sys, e), trace + [e])
  {
    hide *;
    match e {
      case Command(_) => KeepCommand(cfg, sys, trace, e);
      case TakeTurn(_) => KeepTurn(cfg, sys, trace, e);
      case Forward(_, _) => KeepForward(cfg, sys, trace, e);
      case Enqueue(_) => KeepEnqueue(cfg, sys, trace, e);
      case Serve(_, _) => KeepServe(cfg, sys, trace, e);
      case Drop(_) => KeepDrop(cfg, sys, trace, e);
      case Receive(_) => KeepReceive(cfg, sys, trace, e);
      case NextPhase => KeepPhase(cfg, sys, trace);
    }
  }

  lemma RunStep(cfg: Config, states: seq<System>, trace: seq<Event>, k: nat)
    requires IsRun(cfg, states, trace) && k < |trace|
    ensures |states| == |trace| + 1 && Shaped(cfg, states[k]) && Enabled(cfg, states[k], trace[k])
    ensures states[k + 1] == Apply(cfg, states[k], trace[k])
  {
    hide Apply;
    hide Shaped;
    hide Enabled;
    assert Step(cfg, states[k], trace[k], states[k + 1]);
  }

  lemma RunInit(cfg: Config, states: seq<System>, trace: seq<Event>)
    requires IsRun(cfg, states, trace)
    ensures |states| == |trace| + 1 && IsInit(cfg, states[0])
  {
    hide Step;
    hide IsInit;
  }

  /** The invariant holds after every prefix of every run. */
  lemma {:induction false} RunInv(cfg: Config, states: seq<System>, trace: seq<Event>, k: nat)
    requires ValidConfig(cfg) && IsRun(cfg, states, trace) && k <= |trace|
    ensures |states| == |trace| + 1 && Inv(cfg, states[k], trace[..k])
  {
    hide *;
    RunInit(cfg, states, trace);
    if k == 0 {
      InitInv(cfg, states[0]);
    } else {
      RunInv(cfg, states, trace, k - 1);
      RunStep(cfg, states, trace, k - 1);
      StepInv(cfg, states[k - 1], trace[..k - 1], trace[k - 1]);
      assert trace[..k - 1] + [trace[k - 1]] == trace[..k];
    }
  }

  lemma HostShapes(cfg: Config, h: HostState, i: int, phase: Phase)
    requires HostOk(cfg, h, i, phase)
    ensures HostShaped(cfg, h, i)
  {
    hide FrameValid;
  }

  /** The structural precondition of a step is met in every reachable state, so it rules out no run. */
  lemma AlwaysShaped(cfg: Config, states: seq<System>, trace: seq<Event>, k: nat)
    requires ValidConfig(cfg) && IsRun(cfg, states, trace) && k <= |trace|
    ensures |states| == |trace| + 1 && Shaped(cfg, states[k])
  {
    hide *;
    RunInv(cfg, states, trace, k);
    SizedInv(cfg, states[k], trace[..k]);
    InvShaped(cfg, states[k]);
  }

  lemma InvShaped(cfg: Config, sys: System)
    requires HostsOk(cfg, sys)
    ensures Shaped(cfg, sys)
  {
    hide HostOk;
    hide QueueOk;
    hide HostShaped;
    forall i | 0 <= i < cfg.hosts ensures HostShaped(cfg, sys.hosts[i], i) {
      HostShapes(cfg, sys.hosts[i], i, sys.phase);
    }
  }

  // ---------- safety ----------

  /** What has been printed is in order up to the first message that does not fit the length field. */
  lemma PrintedInOrder(cfg: Config, sys: System, s: nat, d: nat, sent: seq<CString>)
    requires Sized(cfg, sys) && s < cfg.hosts && d < cfg.hosts && HasFlow(cfg, sys, s, d, sent)
    ensures d < |sys.hosts| && InOrderToMisfit(Texts(sys.hosts[d].printed, s), sent)
  {
    hide *;
    FlowSizes(cfg, sys, s, d);
    var fl, taken := SameFlow(cfg, sys, s, d, sent);
    FlowParts(cfg, sys, s, d, fl, taken, sent);
    ReassembledFacts(fl, sys.hosts[d], s);
    PrintedUpToMisfit(fl.gen, taken, fl.next);
    InOrderLater(Texts(sys.hosts[d].printed, s), taken, Pending(sys.hosts[s].cmds, d));
  }

  lemma ReassembledFacts(fl: Flow.Flow, h: HostState, s: nat)
    requires s < |h.recv| && Reassembled(fl, h, s)
    ensures fl.next <= |fl.gen| && Texts(h.printed, s) == Drain(fl.gen[..fl.next]).0
  {}

  /**
   * In-order, exactly-once, unaltered delivery: at every moment of every run, under every schedule of drops, queueing
   * and byte corruption, what d has printed from s is a prefix of what s was told to send to d, exactly as long as
   * nothing has been printed in the place of the first message that does not fit the 16-bit length field. Up to that
   * place it is right even then.
   */
  lemma InOrderDelivery(cfg: Config, states: seq<System>, trace: seq<Event>, k: nat, s: nat, d: nat)
    requires ValidConfig(cfg) && IsRun(cfg, states, trace) && k <= |trace|
    requires s < cfg.hosts && d < cfg.hosts && s != d
    ensures |states| == |trace| + 1 && d < |states[k].hosts|
    ensures var texts, sent := Texts(states[k].hosts[d].printed, s), Commanded(trace[..k], s, d);
            && (texts <= sent <==> |texts| <= FirstMisfit(sent))
            && InOrderToMisfit(texts, sent)
            && ((forall m :: m in sent ==> FitsHeader(m)) ==> texts <= sent)
  {
    hide *;
    RunInv(cfg, states, trace, k);
    SizedInv(cfg, states[k], trace[..k]);
    FlowSizes(cfg, states[k], s, d);
    InvAt(cfg, states[k], trace[..k], s, d);
    PrintedInOrder(cfg, states[k], s, d, Commanded(trace[..k], s, d));
    InOrderIff(Texts(states[k].hosts[d].printed, s), Commanded(trace[..k], s, d));
  }

  // ---------- completeness at exit ----------

  /** The moment graceful_exit looks: a round is over and no host is active. */
  ghost predicate Exits(cfg: Config, sys: System) {
    && sys.phase == AckSwitch && PhaseOver(cfg, sys)
    && forall i :: 0 <= i < |sys.hosts| ==> !sys.hosts[i].active
  }

  lemma IdleHost(cfg: Config, h: HostState, i: int, phase: Phase, d: nat)
    requires HostOk(cfg, h, i, phase) && phase == AckSwitch && !h.active && d < |h.send|
    ensures h.send[d].window == [] && h.buffered == [] && h.cmds == []
  {
    hide FrameValid;
    hide Holds;
  }

  /** An empty window and an empty buffer mean that everything generated has been delivered. */
  lemma IdleFlow(cfg: Config, fl: Flow.Flow, p: Sending, r: Receiving, data: seq<Frame>, acks: seq<Frame>)
    requires Flow.FlowOk(cfg, fl, p, [], r, data, acks) && p.window == []
    ensures fl.next == |fl.gen|
  {
    hide Wrap;
    assert |fl.gen[fl.top..]| == 0;
  }

  lemma IdleComplete(cfg: Config, sys: System, s: nat, d: nat, sent: seq<CString>)
    requires HostsOk(cfg, sys) && Sized(cfg, sys) && sys.phase == AckSwitch
    requires s < cfg.hosts && d < cfg.hosts && s != d && HasFlow(cfg, sys, s, d, sent) && !sys.hosts[s].active
    ensures Texts(sys.hosts[d].printed, s) == sent <==> forall m :: m in sent ==> FitsHeader(m)
    ensures |Texts(sys.hosts[d].printed, s)| >= |sent|
    ensures |Texts(sys.hosts[d].printed, s)| == |sent| <==> forall m :: m in sent ==> FitsHeader(m)
  {
    hide *;
    HostsOkAt(cfg, sys, s);
    IdleHost(cfg, sys.hosts[s], s, sys.phase, d);
    FlowSizes(cfg, sys, s, d);
    var fl, taken := SameFlow(cfg, sys, s, d, sent);
    FlowParts(cfg, sys, s, d, fl, taken, sent);
    ReassembledFacts(fl, sys.hosts[d], s);
    SelNone(s, d, false);
    IdleFlow(cfg, fl, sys.hosts[s].send[d], sys.hosts[d].recv[s], Channel(sys, s, d, false), Channel(sys, d, s, true));
    assert fl.gen[..fl.next] == fl.gen;
    NothingPending(d);
    assert taken + [] == taken;
    DrainAllIff(fl.gen, taken);
  }

  /**
   * When the program may exit, every message has been printed exactly once and in order, precisely if every message
   * fits the 16-bit length field. Otherwise too many texts have been printed.
   */
  lemma CompleteAtExit(cfg: Config, states: seq<System>, trace: seq<Event>, k: nat, s: nat, d: nat)
    requires ValidConfig(cfg) && IsRun(cfg, states, trace) && k <= |trace|
    requires s < cfg.hosts && d < cfg.hosts && s != d
    requires |states| == |trace| + 1 && Exits(cfg, states[k])
    ensures d < |states[k].hosts|
    ensures var texts, sent := Texts(states[k].hosts[d].printed, s), Commanded(trace[..k], s, d);
            && (texts == sent <==> forall m :: m in sent ==> FitsHeader(m))
            && (|texts| == |sent| <==> forall m :: m in sent ==> FitsHeader(m)) && |texts| >= |sent|
  {
    hide *;
    RunInv(cfg, states, trace, k);
    SizedInv(cfg, states[k], trace[..k]);
    FlowSizes(cfg, states[k], s, d);
    InvAt(cfg, states[k], trace[..k], s, d);
    ExitFacts(cfg, states[k], s);
    IdleComplete(cfg, states[k], s, d, Commanded(trace[..k], s, d));
  }

  lemma ExitFacts(cfg: Config, sys: System, s: nat)
    requires Exits(cfg, sys) && s < |sys.hosts|
    ensures sys.phase == AckSwitch && !sys.hosts[s].active
  {}

  /** After k events, what d has printed from s is a beginning of what s was told to send to d. */
  ghost predicate InOrderAt(states: seq<System>, trace: seq<Event>, k: nat, s: nat, d: nat)
    requires k < |states| && k <= |trace|
  {
    d < |states[k].hosts| && Texts(states[k].hosts[d].printed, s) <= Commanded(trace[..k], s, d)
  }

  lemma {:induction false} CommandedGrows(trace: seq<Event>, j: nat, k: nat, s: nat, d: nat)
    requires j <= k <= |trace|
    ensures Commanded(trace[..j], s, d) <= Commanded(trace[..k], s, d)
  {
    if j < k {
      CommandedGrows(trace, j, k - 1, s, d);
      assert trace[..k][..k - 1] == trace[..k - 1];
    }
  }

  /** A run that comes to its exit has been in order at every moment, precisely if all its messages fit. */
  lemma InOrderThroughout(cfg: Config, states: seq<System>, trace: seq<Event>, k: nat, s: nat, d: nat)
    requires ValidConfig(cfg) && IsRun(cfg, states, trace) && k <= |trace|
    requires s < cfg.hosts && d < cfg.hosts && s != d
    requires |states| == |trace| + 1 && Exits(cfg, states[k])
    ensures (forall j: nat :: j <= k ==> InOrderAt(states, trace, j, s, d)) <==>
            forall m :: m in Commanded(trace[..k], s, d) ==> FitsHeader(m)
  {
    hide *;
    CompleteAtExit(cfg, states, trace, k, s, d);
    InOrderAtIs(states, trace, k, s, d);
    if forall m :: m in Commanded(trace[..k], s, d) ==> FitsHeader(m) {
      forall j: nat | j <= k ensures InOrderAt(states, trace, j, s, d) {
        InOrderDelivery(cfg, states, trace, j, s, d);
        CommandedGrows(trace, j, k, s, d);
        InOrderAtIs(states, trace, j, s, d);
      }
    }
  }

  lemma InOrderAtIs(states: seq<System>, trace: seq<Event>, k: nat, s: nat, d: nat)
    requires k < |states| && k <= |trace| && d < |states[k].hosts|
    ensures InOrderAt(states, trace, k, s, d) <==>
            Texts(states[k].hosts[d].printed, s) <= Commanded(trace[..k], s, d)
  {
    hide Texts;
    hide Commanded;
  }

  // ---------- the 8-bit comparisons ----------

  /**
   * A data frame about to be handled is frame n of its stream, at most a window ahead of the last in-order frame and
   * less than a window behind it, and the receiver's 8-bit tests answer as unbounded numbers would.
   */
  lemma DataComparisonExact(cfg: Config, states: seq<System>, trace: seq<Event>, k: nat, i: nat)
    returns (fl: Flow.Flow, taken: seq<CString>, n: nat)
    requires ValidConfig(cfg) && IsRun(cfg, states, trace) && k <= |trace| && |states| == |trace| + 1
    requires states[k].phase == Receivers && i < |states[k].hosts|
    requires states[k].hosts[i].incoming != [] && FrameValid(states[k].hosts[i].incoming[0])
    ensures var f := states[k].hosts[i].incoming[0];
            && f.isAck == 0 && f.src < cfg.hosts && f.src != i && i < cfg.hosts && Sized(cfg, states[k])
            && FlowAt(cfg, states[k], f.src, i, fl, taken, Commanded(trace[..k], f.src, i))
            && n < |fl.gen| && f == fl.gen[n]
            && var lfr := states[k].hosts[i].recv[f.src].lfr;
               && lfr == Wrap(fl.next - 1) && f.seqNum == Wrap(n)
               && 1 - cfg.window <= n - (fl.next - 1) <= cfg.window
               && SeqNumDiff(lfr, f.seqNum) == n - (fl.next - 1)
               && (InWindow(cfg, lfr, f.seqNum) <==> n >= fl.next)
  {
    hide *;
    var sys := states[k];
    RunInv(cfg, states, trace, k);
    SizedInv(cfg, sys, trace[..k]);
    SizedHosts(cfg, sys);
    HostsOkAt(cfg, sys, i);
    ReceiverFacts(cfg, sys.hosts[i], i);
    var f := sys.hosts[i].incoming[0];
    ArrivingData(cfg, f, i);
    var s := f.src;
    InvAt(cfg, sys, trace[..k], s, i);
    fl, taken := SameFlow(cfg, sys, s, i, Commanded(trace[..k], s, i));
    FlowParts(cfg, sys, s, i, fl, taken, Commanded(trace[..k], s, i));
    HeadOfChannel(sys, i, s);
    n := HeadDistance(cfg, fl, sys.hosts[s].send[i], Sel(sys.hosts[s].buffered, s, i, false), sys.hosts[i].recv[s],
                      Channel(sys, s, i, false), Channel(sys, i, s, true));
  }

  lemma SizedHosts(cfg: Config, sys: System)
    requires Sized(cfg, sys)
    ensures |sys.hosts| == |sys.ingress| == cfg.hosts
  {}

  lemma HeadOfChannel(sys: System, i: nat, s: nat)
    requires i < |sys.hosts| && s < |sys.hosts| == |sys.ingress|
    requires sys.hosts[i].incoming != []
    requires var f := sys.hosts[i].incoming[0]; FrameValid(f) && f.src == s && f.dst == i && f.isAck == 0
    ensures Channel(sys, s, i, false) != [] && Channel(sys, s, i, false)[0] == sys.hosts[i].incoming[0]
  {
    hide FrameValid;
    hide Sel;
    SelHead(sys.hosts[i].incoming, s, i, false);
  }

  lemma HeadDistance(cfg: Config, fl: Flow.Flow, p: Sending, buf: seq<Frame>, r: Receiving, data: seq<Frame>,
                     acks: seq<Frame>) returns (n: nat)
    requires ValidConfig(cfg) && Flow.FlowOk(cfg, fl, p, buf, r, data, acks) && data != []
    ensures n < |fl.gen| && data[0] == fl.gen[n] && r.lfr == Wrap(fl.next - 1) && data[0].seqNum == Wrap(n)
    ensures 1 - cfg.window <= n - (fl.next - 1) <= cfg.window
    ensures SeqNumDiff(r.lfr, data[0].seqNum) == n - (fl.next - 1)
    ensures InWindow(cfg, r.lfr, data[0].seqNum) <==> n >= fl.next
  {
    hide Wrap;
    hide SeqNumDiff;
    hide InWindow;
    n := fl.flight[0];
    assert fl.next > 0 ==> Flow.HasReceived(fl.next, r.window, fl.next - 1);
    Flow.ArrivalDistance(cfg, fl, r, n);
  }

  /**
   * While hosts take their turns, whatever passes the check in an incoming list is an ACK; while they receive, it is
   * data.
   */
  lemma PhasesSeparate(cfg: Config, states: seq<System>, trace: seq<Event>, k: nat, i: nat, f: Frame)
    requires ValidConfig(cfg) && IsRun(cfg, states, trace) && k <= |trace| && |states| == |trace| + 1
    requires i < |states[k].hosts| && f in states[k].hosts[i].incoming && FrameValid(f)
    ensures states[k].phase.Senders? || states[k].phase.Input? ==> f.isAck != 0
    ensures states[k].phase.Receivers? || states[k].phase.DataSwitch? ==> f.isAck == 0
    ensures f.dst == i && f.src != i && f.src < cfg.hosts
  {
    hide *;
    RunInv(cfg, states, trace, k);
    SizedInv(cfg, states[k], trace[..k]);
    SizedHosts(cfg, states[k]);
    HostsOkAt(cfg, states[k], i);
    KindByPhase(cfg, states[k].hosts[i], i, states[k].phase, f);
  }

  lemma KindByPhase(cfg: Config, h: HostState, i: int, phase: Phase, f: Frame)
    requires HostOk(cfg, h, i, phase) && f in h.incoming && FrameValid(f)
    ensures phase.Senders? || phase.Input? ==> f.isAck != 0
    ensures phase.Receivers? || phase.DataSwitch? ==> f.isAck == 0
    ensures f.dst == i && f.src != i && f.src < cfg.hosts
  {
    hide FrameValid;
    hide Holds;
    hide AwaitingAck;
  }
}
