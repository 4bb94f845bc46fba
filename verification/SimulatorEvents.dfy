/**
 * The events of module Network one at a time, and the facts about orders, queues and commands the simulator relies on.
 */
module SimulatorEvents {
  import opened Common
  import opened Frames
  import opened HostModel
  import opened Network
  import opened Ports
  import Invariant
  import Messages
  import Delivery

  // ---------- permutations ----------

  function Iota(n: nat): (s: seq<nat>)
    ensures |s| == n && forall i :: 0 <= i < n ==> s[i] == i
  {
    seq(n, i => i)
  }

  predicate IsPermutation(s: seq<nat>, n: nat) {
    multiset(s) == multiset(Iota(n))
  }

  function Swapped(s: seq<nat>, i: nat, j: nat): (r: seq<nat>)
    requires i < |s| && j < |s|
    ensures |r| == |s|
  {
    s[i := s[j]][j := s[i]]
  }

  lemma SwapPermutes(s: seq<nat>, i: nat, j: nat, n: nat)
    requires i < |s| && j < |s| && IsPermutation(s, n)
    ensures IsPermutation(Swapped(s, i, j), n)
  {
    hide Iota;
  }

  lemma IotaPermutes(n: nat)
    ensures IsPermutation(Iota(n), n)
  {}

  lemma {:induction false} IotaOnce(n: nat, v: nat)
    ensures multiset(Iota(n))[v] == if v < n then 1 else 0
  {
    if n > 0 {
      IotaOnce(n - 1, v);
      assert Iota(n) == Iota(n - 1) + [n - 1];
    }
  }

  lemma PermutationFacts(s: seq<nat>, n: nat)
    requires IsPermutation(s, n)
    ensures |s| == n && (forall i :: 0 <= i < n ==> s[i] < n)
    ensures forall i, j :: 0 <= i < j < n ==> s[i] != s[j]
    ensures forall v :: 0 <= v < n ==> v in s
  {
    assert |s| == |multiset(s)| == |multiset(Iota(n))| == n;
    forall i | 0 <= i < n ensures s[i] < n {
      assert s[i] in multiset(s);
      IotaOnce(n, s[i]);
    }
    forall i, j | 0 <= i < j < n ensures s[i] != s[j] {
      IotaOnce(n, s[i]);
      assert s == s[..j] + ([s[j]] + s[j + 1..]);
      assert multiset(s) == multiset(s[..j]) + multiset([s[j]] + s[j + 1..]);
      assert s[..j][i] == s[i];
      assert s[i] in multiset(s[..j]);
    }
    forall v | 0 <= v < n ensures v in s {
      IotaOnce(n, v);
      assert v in multiset(s);
    }
  }

  // ---------- commands ----------

  /** The commands of a run, in order. */
  function CommandsOf(trace: seq<Event>): seq<Cmd> {
    if trace == [] then []
    else CommandsOf(trace[..|trace| - 1]) + (if trace[|trace| - 1].Command? then [trace[|trace| - 1].cmd] else [])
  }

  /** The messages among `issued` that go from s to d. */
  function MessagesFor(issued: seq<Cmd>, s: int, d: int): seq<CString> {
    if issued == [] then []
    else
      var c := issued[|issued| - 1];
      MessagesFor(issued[..|issued| - 1], s, d) + (if c.src == s && c.dst == d then [c.message] else [])
  }

  lemma {:induction false} CommandedIs(trace: seq<Event>, s: int, d: int)
    ensures Commanded(trace, s, d) == MessagesFor(CommandsOf(trace), s, d)
  {
    if trace != [] {
      var e, rest := trace[|trace| - 1], trace[..|trace| - 1];
      CommandedIs(rest, s, d);
      if e.Command? {
        assert (CommandsOf(rest) + [e.cmd])[..|CommandsOf(rest)|] == CommandsOf(rest);
      } else {
        assert CommandsOf(rest) + [] == CommandsOf(rest);
      }
    }
  }

  // ---------- turns ----------

  function Turns(order: seq<nat>): seq<Event> {
    seq(|order|, k requires 0 <= k < |order| => TakeTurn(order[k]))
  }

  lemma TurnsNone(order: seq<nat>)
    ensures Turns(order[..0]) == []
  {}

  lemma TurnsMore(order: seq<nat>, i: nat)
    requires i < |order|
    ensures Turns(order[..i + 1]) == Turns(order[..i]) + [TakeTurn(order[i])]
  {}

  lemma ConfigIs(cfg: Config)
    requires ValidConfig(cfg)
    ensures 1 <= cfg.window <= 127 && 2 <= cfg.hosts <= 256 && 1 <= cfg.rate
  {}

  lemma TurnIs(cfg: Config, sys: System, i: nat)
    requires Shaped(cfg, sys) && sys.phase.Senders? && i < |sys.hosts| && i !in sys.phase.done
    ensures Enabled(cfg, sys, TakeTurn(i)) && WellFormed(cfg, sys.hosts[i])
    ensures Apply(cfg, sys, TakeTurn(i)) ==
            System(sys.hosts[i := Turn(cfg, sys.hosts[i])], sys.ingress, Senders(sys.phase.done + {i}))
  {
    hide Turn;
    hide WellFormed;
  }

  lemma SendersOver(cfg: Config, sys: System, order: seq<nat>)
    requires IsPermutation(order, cfg.hosts) && |order| == cfg.hosts
    requires sys.phase == Senders(set k | 0 <= k < cfg.hosts :: order[k])
    ensures PhaseOver(cfg, sys)
  {
    PermutationFacts(order, cfg.hosts);
    forall i | 0 <= i < cfg.hosts ensures i in sys.phase.done {
      assert i in order;
      var k :| 0 <= k < |order| && order[k] == i;
    }
  }

  // ---------- events of the switch ----------

  lemma AddIncomingIs(hosts: seq<HostState>, d: nat, f: Frame)
    requires d < |hosts|
    ensures AddIncoming(hosts, d, f) == hosts[d := hosts[d].(incoming := hosts[d].incoming + [f])]
  {}

  /** Only frames for host d wait at port d. */
  lemma PortFrame(cfg: Config, states: seq<System>, trace: seq<Event>, d: nat)
    requires ValidConfig(cfg) && IsRun(cfg, states, trace) && |states| == |trace| + 1
    requires d < cfg.hosts && d < |states[|trace|].ingress| && states[|trace|].ingress[d] != []
    ensures states[|trace|].ingress[d][0].dst == d
  {
    hide *;
    Delivery.RunInv(cfg, states, trace, |trace|);
    PortFrameOk(cfg, states[|trace|], trace[..|trace|], d);
  }

  lemma PortFrameOk(cfg: Config, sys: System, trace: seq<Event>, d: nat)
    requires Invariant.Inv(cfg, sys, trace) && d < cfg.hosts && d < |sys.ingress| && sys.ingress[d] != []
    ensures sys.ingress[d][0].dst == d
  {
    hide FrameValid;
    hide Invariant.HasFlow;
    hide Invariant.HostOk;
    assert Invariant.QueueOk(cfg, sys.ingress[d], d);
    assert sys.ingress[d][0] in sys.ingress[d];
  }

  lemma ServeIs(cfg: Config, sys: System, d: nat, flip: Option<nat>)
    requires Shaped(cfg, sys) && sys.phase == DataSwitch && d < cfg.hosts && |sys.ingress| == cfg.hosts
    requires sys.ingress[d] != [] && ValidFlip(flip)
    ensures Enabled(cfg, sys, Serve(d, flip)) && |sys.hosts| == cfg.hosts
    ensures Apply(cfg, sys, Serve(d, flip)) ==
            sys.(hosts := AddIncoming(sys.hosts, d, Delivered(sys.ingress[d][0], flip)),
                 ingress := sys.ingress[d := sys.ingress[d][1..]])
  {
    hide WellFormed;
    hide Delivered;
    hide AddIncoming;
  }

  // ---------- the switch's loops ----------

  ghost predicate ServedUpTo(ingress: seq<seq<Frame>>, accepted: seq<nat>, rate: nat, n: nat) {
    |ingress| == |accepted| && forall d :: 0 <= d < n && d < |accepted| && ingress[d] != [] ==> accepted[d] == rate
  }

  lemma QueuesServedNone(ingress: seq<seq<Frame>>, accepted: seq<nat>, rate: nat)
    requires |ingress| == |accepted|
    ensures ServedUpTo(ingress, accepted, rate, 0)
  {}

  /** Serving port n does not touch the ports before it. */
  lemma ServedOther(ingress: seq<seq<Frame>>, accepted: seq<nat>, rate: nat, n: nat)
    requires ServedUpTo(ingress, accepted, rate, n) && n < |accepted| && ingress[n] != []
    ensures ServedUpTo(ingress[n := ingress[n][1..]], accepted[n := accepted[n] + 1], rate, n)
  {}

  lemma ServedMore(ingress: seq<seq<Frame>>, accepted: seq<nat>, rate: nat, n: nat)
    requires ServedUpTo(ingress, accepted, rate, n) && n < |accepted| && accepted[n] <= rate
    requires ingress[n] == [] || accepted[n] >= rate
    ensures ServedUpTo(ingress, accepted, rate, n + 1)
  {}

  lemma ServedAll(cfg: Config, sys: System, accepted: seq<nat>)
    requires ServedUpTo(sys.ingress, accepted, cfg.rate, |accepted|)
    ensures QueuesServed(cfg, sys, accepted)
  {}

  lemma AllBalancedAt(cfg: Config, before: System, now: System, accepted: seq<nat>, d: nat)
    requires AllBalanced(cfg, before, now, accepted) && d < cfg.hosts
    ensures |accepted| == cfg.hosts && accepted[d] <= cfg.rate
  {
    hide Addressed;
    assert Balanced(cfg, before, now, accepted[d], d);
  }

  lemma HeadInRange(cfg: Config, sys: System, i: nat)
    requires Shaped(cfg, sys) && i < cfg.hosts && i < |sys.hosts| && sys.hosts[i].outgoing != []
    ensures sys.hosts[i].outgoing[0].dst < cfg.hosts
  {
    hide WellFormed;
    assert sys.hosts[i].outgoing[0] in sys.hosts[i].outgoing;
  }

  lemma PopOutgoingIs(hosts: seq<HostState>, i: nat)
    requires i < |hosts| && hosts[i].outgoing != []
    ensures PopOutgoing(hosts, i) == hosts[i := hosts[i].(outgoing := hosts[i].outgoing[1..])]
  {}

  lemma EnqueueIs(cfg: Config, sys: System, i: nat)
    requires Shaped(cfg, sys) && sys.phase == DataSwitch && i < |sys.hosts| && sys.hosts[i].outgoing != []
    ensures Enabled(cfg, sys, Enqueue(i)) && sys.hosts[i].outgoing[0].dst < |sys.ingress|
    ensures var f := sys.hosts[i].outgoing[0];
            Apply(cfg, sys, Enqueue(i)) ==
            sys.(hosts := PopOutgoing(sys.hosts, i), ingress := sys.ingress[f.dst := sys.ingress[f.dst] + [f]])
  {
    hide WellFormed;
    hide PopOutgoing;
    assert sys.hosts[i].outgoing[0] in sys.hosts[i].outgoing;
  }

  lemma DropIs(cfg: Config, sys: System, i: nat)
    requires Shaped(cfg, sys) && sys.phase == DataSwitch && i < |sys.hosts| && sys.hosts[i].outgoing != []
    ensures Enabled(cfg, sys, Drop(i)) && Apply(cfg, sys, Drop(i)) == sys.(hosts := PopOutgoing(sys.hosts, i))
  {
    hide WellFormed;
    hide PopOutgoing;
  }

  lemma ForwardIs(cfg: Config, sys: System, i: nat, flip: Option<nat>)
    requires Shaped(cfg, sys) && i < |sys.hosts| && sys.hosts[i].outgoing != [] && ValidFlip(flip)
    requires var d := sys.hosts[i].outgoing[0].dst;
             sys.phase == AckSwitch || (sys.phase == DataSwitch && d < |sys.ingress| && sys.ingress[d] == [])
    ensures Enabled(cfg, sys, Forward(i, flip))
    ensures var f := sys.hosts[i].outgoing[0];
            && f.dst < |sys.hosts| == |PopOutgoing(sys.hosts, i)|
            && Apply(cfg, sys, Forward(i, flip)) ==
               sys.(hosts := AddIncoming(PopOutgoing(sys.hosts, i), f.dst, Delivered(f, flip)))
  {
    hide WellFormed;
    hide AddIncoming;
    hide Delivered;
    assert sys.hosts[i].outgoing[0] in sys.hosts[i].outgoing;
  }

  lemma EveryoneIdle(hosts: seq<HostState>, order: seq<nat>)
    requires IsPermutation(order, |hosts|)
    ensures |order| == |hosts| && forall k :: 0 <= k < |order| ==> order[k] < |hosts|
    ensures (forall k :: 0 <= k < |order| ==> hosts[order[k]].outgoing == []) ==>
            forall i :: 0 <= i < |hosts| ==> hosts[i].outgoing == []
  {
    PermutationFacts(order, |hosts|);
    if forall k :: 0 <= k < |order| ==> hosts[order[k]].outgoing == [] {
      forall i | 0 <= i < |hosts| ensures hosts[i].outgoing == [] {
        assert i in order;
        var k :| 0 <= k < |order| && order[k] == i;
      }
    }
  }

  lemma AllSent(cfg: Config, sys: System)
    requires sys.phase == DataSwitch || sys.phase == AckSwitch
    requires forall i :: 0 <= i < |sys.hosts| ==> sys.hosts[i].outgoing == []
    ensures PhaseOver(cfg, sys)
  {}

  // ---------- events of the other phases ----------

  lemma ReceiveEventIs(cfg: Config, sys: System, i: nat)
    requires Shaped(cfg, sys) && sys.phase == Receivers && i < |sys.hosts| && sys.hosts[i].incoming != []
    ensures Enabled(cfg, sys, Receive(i)) && WellFormed(cfg, sys.hosts[i])
    ensures forall s :: 0 <= s < |sys.hosts[i].recv| ==> |sys.hosts[i].recv[s].window| == cfg.window
    ensures ReceiveOne(cfg, sys.hosts[i]).incoming == sys.hosts[i].incoming[1..]
    ensures Apply(cfg, sys, Receive(i)) == sys.(hosts := sys.hosts[i := ReceiveOne(cfg, sys.hosts[i])])
  {
    hide FrameValid;
    hide Accept;
    hide Drain;
    hide AckFrame;
    hide Lines;
    assert HostShaped(cfg, sys.hosts[i], i);
    assert sys.hosts[i].incoming[0] in sys.hosts[i].incoming;
  }

  lemma EveryoneDone(cfg: Config, sys: System, order: seq<nat>)
    requires sys.phase == Receivers && |sys.hosts| == cfg.hosts && IsPermutation(order, cfg.hosts)
    requires |order| == cfg.hosts
    requires forall k :: 0 <= k < cfg.hosts ==> order[k] < cfg.hosts && sys.hosts[order[k]].incoming == []
    ensures PhaseOver(cfg, sys)
  {
    PermutationFacts(order, cfg.hosts);
    forall i | 0 <= i < |sys.hosts| ensures sys.hosts[i].incoming == [] {
      assert i in order;
      var k :| 0 <= k < |order| && order[k] == i;
    }
  }

  lemma PhasesAre(cfg: Config, sys: System)
    ensures sys.phase == Input ==> PhaseOver(cfg, sys)
    ensures Following(Input) == Senders({}) && Following(DataSwitch) == Receivers && Following(Receivers) == AckSwitch
    ensures sys.phase.Senders? ==> Following(sys.phase) == DataSwitch
    ensures Following(AckSwitch) == Input
  {}

  lemma CommandIs(cfg: Config, sys: System, cmd: Cmd)
    requires Shaped(cfg, sys) && sys.phase == Input && ValidCmd(cfg, cmd)
    ensures cmd.src < |sys.hosts| == cfg.hosts && Enabled(cfg, sys, Command(cmd))
    ensures Apply(cfg, sys, Command(cmd)) ==
            sys.(hosts := sys.hosts[cmd.src := sys.hosts[cmd.src].(cmds := sys.hosts[cmd.src].cmds + [cmd])])
  {
    hide HostShaped;
  }

  ghost predicate AllFit(messages: seq<CString>) {
    forall m :: m in messages ==> Messages.FitsHeader(m)
  }

  /**
   * What d has printed from s is a beginning of what s was told to send to d, exactly as long as nothing has been
   * printed in the place of the first message that does not fit the header; up to that place it is right even then.
   */
  ghost predicate InOrderFor(sys: System, issued: seq<Cmd>, s: int, d: int) {
    0 <= d < |sys.hosts| &&
    var texts, sent := Texts(sys.hosts[d].printed, s), MessagesFor(issued, s, d);
    && (texts <= sent <==> |texts| <= Messages.FirstMisfit(sent))
    && Messages.InOrderToMisfit(texts, sent)
    && (AllFit(sent) ==> texts <= sent)
  }

  ghost predicate InOrderEverywhere(cfg: Config, sys: System, issued: seq<Cmd>) {
    forall s, d :: 0 <= s < cfg.hosts && 0 <= d < cfg.hosts && s != d ==> InOrderFor(sys, issued, s, d)
  }

  /**
   * What d has printed from s is what s was told to send to d, precisely if those messages fit the header; otherwise
   * it is more than that.
   */
  ghost predicate CompleteFor(sys: System, issued: seq<Cmd>, s: int, d: int) {
    0 <= d < |sys.hosts| &&
    var texts, sent := Texts(sys.hosts[d].printed, s), MessagesFor(issued, s, d);
    && (texts == sent <==> AllFit(sent))
    && (|texts| == |sent| <==> AllFit(sent)) && |texts| >= |sent|
  }

  ghost predicate CompleteEverywhere(cfg: Config, sys: System, issued: seq<Cmd>) {
    forall s, d :: 0 <= s < cfg.hosts && 0 <= d < cfg.hosts && s != d ==> CompleteFor(sys, issued, s, d)
  }

  lemma InOrderForIs(sys: System, issued: seq<Cmd>, s: int, d: int)
    requires 0 <= d < |sys.hosts|
    requires var texts, sent := Texts(sys.hosts[d].printed, s), MessagesFor(issued, s, d);
             && (texts <= sent <==> |texts| <= Messages.FirstMisfit(sent))
             && Messages.InOrderToMisfit(texts, sent)
             && ((forall m :: m in sent ==> Messages.FitsHeader(m)) ==> texts <= sent)
    ensures InOrderFor(sys, issued, s, d)
  {
    hide Messages.InOrderToMisfit;
    hide Messages.FirstMisfit;
    hide Messages.FitsHeader;
  }

  lemma InOrderEverywhereIs(cfg: Config, sys: System, issued: seq<Cmd>)
    requires forall s, d :: 0 <= s < cfg.hosts && 0 <= d < cfg.hosts && s != d ==> InOrderFor(sys, issued, s, d)
    ensures InOrderEverywhere(cfg, sys, issued)
  {}

  lemma CompleteForIs(sys: System, issued: seq<Cmd>, s: int, d: int)
    requires 0 <= d < |sys.hosts|
    requires var texts, sent := Texts(sys.hosts[d].printed, s), MessagesFor(issued, s, d);
             && (texts == sent <==> forall m :: m in sent ==> Messages.FitsHeader(m))
             && (|texts| == |sent| <==> forall m :: m in sent ==> Messages.FitsHeader(m)) && |texts| >= |sent|
    ensures CompleteFor(sys, issued, s, d)
  {
    hide Messages.FitsHeader;
  }

  lemma CompleteEverywhereIs(cfg: Config, sys: System, issued: seq<Cmd>)
    requires forall s, d :: 0 <= s < cfg.hosts && 0 <= d < cfg.hosts && s != d ==> CompleteFor(sys, issued, s, d)
    ensures CompleteEverywhere(cfg, sys, issued)
  {}

  lemma ExitsIs(cfg: Config, sys: System)
    requires sys.phase == AckSwitch && PhaseOver(cfg, sys) && |sys.hosts| == cfg.hosts
    requires forall i :: 0 <= i < cfg.hosts ==> !sys.hosts[i].active
    ensures Delivery.Exits(cfg, sys)
  {
    hide PhaseOver;
  }

  // ---------- the input ----------

  /** A line of input parsed as "msg <src> <dst> <message>". */
  datatype InputLine = InputLine(src: int, dst: int, message: CString)

  predicate InRange(cfg: Config, line: InputLine) {
    0 <= line.src < cfg.hosts && 0 <= line.dst < cfg.hosts
  }

  /**
   * A message from a host to itself. The parser lets it through; the switch ends the program when it meets its first
   * frame, in the same round and before any host receives.
   */
  predicate Fatal(cfg: Config, line: InputLine) {
    InRange(cfg, line) && line.src == line.dst
  }

  /** The command a line stands for: none, if an id is out of range. */
  ghost function Accepted(cfg: Config, line: InputLine): seq<Cmd>
    requires ValidConfig(cfg)
  {
    if InRange(cfg, line) && line.src != line.dst then [Cmd(line.src, line.dst, line.message)] else []
  }

  lemma LineIs(cfg: Config, line: InputLine)
    requires ValidConfig(cfg)
    ensures Fatal(cfg, line) <==> 0 <= line.src < cfg.hosts && line.src == line.dst
    ensures Accepted(cfg, line) ==
            if 0 <= line.src < cfg.hosts && 0 <= line.dst < cfg.hosts && line.src != line.dst
            then [Cmd(line.src, line.dst, line.message)] else []
    ensures forall cmd :: cmd in Accepted(cfg, line) ==> ValidCmd(cfg, cmd)
  {}

  ghost function AllAccepted(cfg: Config, lines: seq<InputLine>): seq<Cmd>
    requires ValidConfig(cfg)
  {
    if lines == [] then []
    else AllAccepted(cfg, lines[..|lines| - 1]) + Accepted(cfg, lines[|lines| - 1])
  }

  lemma AllAcceptedNone(cfg: Config, lines: seq<InputLine>)
    requires ValidConfig(cfg)
    ensures AllAccepted(cfg, lines[..0]) == []
  {}

  lemma AllAcceptedMore(cfg: Config, lines: seq<InputLine>, i: nat)
    requires ValidConfig(cfg) && i < |lines|
    ensures AllAccepted(cfg, lines[..i + 1]) == AllAccepted(cfg, lines[..i]) + Accepted(cfg, lines[i])
  {
    assert lines[..i + 1][..i] == lines[..i];
  }

  // ---------- corruption ----------

  /** With probability 0 (in thousandths) no frame is corrupted, from 1000 on every frame is. */
  predicate FlipFits(corruption: nat, flip: Option<nat>) {
    (corruption == 0 ==> flip.None?) && (corruption >= 1000 ==> flip.Some?)
  }

  predicate EventFits(corruption: nat, e: Event) {
    e.Forward? || e.Serve? ==> FlipFits(corruption, e.flip)
  }

  ghost predicate FlipsFit(corruption: nat, trace: seq<Event>) {
    forall e :: e in trace ==> EventFits(corruption, e)
  }

  lemma EventFitsIs(corruption: nat, e: Event)
    ensures !e.Forward? && !e.Serve? ==> EventFits(corruption, e)
    ensures (e.Forward? || e.Serve?) && FlipFits(corruption, e.flip) ==> EventFits(corruption, e)
  {}

  lemma FlipsFitMore(corruption: nat, trace: seq<Event>, e: Event)
    requires FlipsFit(corruption, trace) && EventFits(corruption, e)
    ensures FlipsFit(corruption, trace + [e])
  {}

  lemma FlipsFitNone(corruption: nat)
    ensures FlipsFit(corruption, [])
  {}

  /**
   * The frame that the switch hands over in event e is what the receiver finds last in its incoming list if nothing is
   * ever corrupted; what it finds is invalid if every frame is.
   */
  ghost predicate HandsOver(corruption: nat, sys: System, e: Event, sys': System) {
    && (e.Forward? || e.Serve?) && e.host < |sys.hosts| && e.host < |sys.ingress|
    && (if e.Forward? then sys.hosts[e.host].outgoing != [] else sys.ingress[e.host] != [])
    && var f := if e.Forward? then sys.hosts[e.host].outgoing[0] else sys.ingress[e.host][0];
       var d: nat := if e.Forward? then f.dst else e.host;
       && d < |sys.hosts| && d < |sys'.hosts|
       && (corruption == 0 ==> sys'.hosts[d].incoming == sys.hosts[d].incoming + [f])
       && (corruption >= 1000 && FrameValid(f) ==>
             exists g :: !FrameValid(g) && sys'.hosts[d].incoming == sys.hosts[d].incoming + [g])
  }

  lemma ForwardHandsOver(cfg: Config, corruption: nat, sys: System, e: Event)
    requires Shaped(cfg, sys) && Enabled(cfg, sys, e) && EventFits(corruption, e) && e.Forward?
    ensures HandsOver(corruption, sys, e, Apply(cfg, sys, e))
  {
    hide FrameValid, WellFormed, Corrupt;
    var f := sys.hosts[e.host].outgoing[0];
    assert HostShaped(cfg, sys.hosts[e.host], e.host);
    assert f in sys.hosts[e.host].outgoing;
    if corruption >= 1000 && FrameValid(f) {
      CorruptionDetected(f, e.flip.value);
    }
  }

  lemma ServeHandsOver(cfg: Config, corruption: nat, sys: System, e: Event)
    requires Shaped(cfg, sys) && Enabled(cfg, sys, e) && EventFits(corruption, e) && e.Serve?
    ensures HandsOver(corruption, sys, e, Apply(cfg, sys, e))
  {
    hide FrameValid, WellFormed, Corrupt;
    var f := sys.ingress[e.host][0];
    if corruption >= 1000 && FrameValid(f) {
      CorruptionDetected(f, e.flip.value);
    }
  }

  lemma FlipsFitAt(corruption: nat, trace: seq<Event>, k: nat)
    requires FlipsFit(corruption, trace) && k < |trace|
    ensures EventFits(corruption, trace[k])
  {}
}
