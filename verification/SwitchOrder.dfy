/** While the switch works, every flow keeps its order: frames are lost or damaged, never overtaken or duplicated. */
module SwitchOrder {
  import opened Common
  import opened HostModel
  import opened Network
  import opened Invariant
  import opened Preservation
  import opened Delivery

  predicate Subsequence<T(==)>(a: seq<T>, b: seq<T>) {
    if a == [] then true
    else if b == [] then false
    else (a[0] == b[0] && Subsequence(a[1..], b[1..])) || Subsequence(a, b[1..])
  }

  lemma {:induction false} SubsequenceSelf<T>(a: seq<T>)
    ensures Subsequence(a, a)
  {
    if a != [] {
      SubsequenceSelf(a[1..]);
    }
  }

  lemma {:induction false} SubsequenceTransitive<T>(a: seq<T>, b: seq<T>, c: seq<T>)
    requires Subsequence(a, b) && Subsequence(b, c)
    ensures Subsequence(a, c)
    decreases |b| + |c|
  {
    if a != [] {
      if b[0] == c[0] && Subsequence(b[1..], c[1..]) {
        if a[0] == b[0] && Subsequence(a[1..], b[1..]) {
          SubsequenceTransitive(a[1..], b[1..], c[1..]);
        } else {
          SubsequenceTransitive(a, b[1..], c[1..]);
        }
      } else {
        SubsequenceTransitive(a, b, c[1..]);
      }
    }
  }

  lemma {:induction false} RemovedSubsequence<T>(a: seq<T>, k: nat)
    requires k < |a|
    ensures Subsequence(RemoveAt(a, k), a)
  {
    if k == 0 {
      SubsequenceSelf(a[1..]);
      SubsequenceLater(a[1..], a);
      assert RemoveAt(a, 0) == a[1..];
    } else {
      RemovedSubsequence(a[1..], k - 1);
      assert RemoveAt(a, k)[1..] == RemoveAt(a[1..], k - 1);
      assert RemoveAt(a, k)[0] == a[0];
    }
  }

  lemma SubsequenceLater<T>(a: seq<T>, b: seq<T>)
    requires b != [] && Subsequence(a, b[1..])
    ensures Subsequence(a, b)
  {}

  lemma ThinnedSubsequence<T>(q: seq<T>, q': seq<T>)
    requires Thinned(q, q')
    ensures Subsequence(q', q)
  {
    hide Subsequence;
    if q' == q {
      SubsequenceSelf(q);
    } else {
      var k :| 0 <= k < |q| && q' == RemoveAt(q, k);
      RemovedSubsequence(q, k);
    }
  }

  ghost predicate AtSwitch(sys: System) {
    sys.phase == DataSwitch || sys.phase == AckSwitch
  }

  lemma SwitchEvents(cfg: Config, sys: System, e: Event)
    requires AtSwitch(sys) && Enabled(cfg, sys, e)
    ensures e.Forward? || e.Enqueue? || e.Serve? || e.Drop? || e.NextPhase?
  {}

  lemma SamePhase(cfg: Config, sys: System, a: nat, b: nat, ack: bool)
    requires Shaped(cfg, sys) && Enabled(cfg, sys, NextPhase) && a < cfg.hosts && b < cfg.hosts
    ensures |sys.hosts| == |sys.ingress| == cfg.hosts
    ensures |Apply(cfg, sys, NextPhase).hosts| == |Apply(cfg, sys, NextPhase).ingress| == cfg.hosts
    ensures Channel(Apply(cfg, sys, NextPhase), a, b, ack) == Channel(sys, a, b, ack)
  {
    hide HostShaped;
    hide PhaseOver;
  }

  lemma SwitchStep(cfg: Config, states: seq<System>, trace: seq<Event>, k: nat, a: nat, b: nat, ack: bool)
    requires ValidConfig(cfg) && IsRun(cfg, states, trace) && k < |trace| && |states| == |trace| + 1
    requires AtSwitch(states[k])
    requires a < cfg.hosts && b < cfg.hosts
    ensures |states[k].hosts| == |states[k].ingress| == |states[k + 1].hosts| == |states[k + 1].ingress| == cfg.hosts
    ensures Subsequence(Channel(states[k + 1], a, b, ack), Channel(states[k], a, b, ack))
  {
    hide *;
    RunStep(cfg, states, trace, k);
    RunInv(cfg, states, trace, k);
    var sys, e := states[k], trace[k];
    SwitchEvents(cfg, sys, e);
    match e {
      case Forward(_, _) => KeepForward(cfg, sys, trace[..k], e);
      case Enqueue(_) => KeepEnqueue(cfg, sys, trace[..k], e);
      case Serve(_, _) => KeepServe(cfg, sys, trace[..k], e);
      case Drop(_) => KeepDrop(cfg, sys, trace[..k], e);
      case NextPhase =>
        SamePhase(cfg, sys, a, b, ack);
        SubsequenceSelf(Channel(sys, a, b, ack));
    }
    if !e.NextPhase? {
      ThinnedAt(cfg, sys, states[k + 1], a, b, ack);
    }
  }

  lemma ThinnedAt(cfg: Config, sys: System, sys': System, a: nat, b: nat, ack: bool)
    requires ChannelsThinned(cfg, sys, sys') && a < cfg.hosts && b < cfg.hosts
    ensures |sys.hosts| == |sys.ingress| == |sys'.hosts| == |sys'.ingress| == cfg.hosts
    ensures Subsequence(Channel(sys', a, b, ack), Channel(sys, a, b, ack))
  {
    hide Thinned;
    hide Channel;
    hide Subsequence;
    ThinnedSubsequence(Channel(sys, a, b, ack), Channel(sys', a, b, ack));
  }

  /**
   * From any moment to any later one of the same switch phase, what is still on its way from a to b (delivered, queued
   * or about to be sent) is a subsequence of what was on its way.
   */
  lemma {:induction false} FlowsKeepOrder(cfg: Config, states: seq<System>, trace: seq<Event>, j: nat, k: nat,
                                          a: nat, b: nat, ack: bool)
    requires ValidConfig(cfg) && IsRun(cfg, states, trace) && j <= k <= |trace| && |states| == |trace| + 1
    requires forall m :: j <= m < k ==> AtSwitch(states[m])
    requires a < cfg.hosts && b < cfg.hosts
    ensures |states[j].hosts| == |states[j].ingress| == |states[k].hosts| == |states[k].ingress| == cfg.hosts
    ensures Subsequence(Channel(states[k], a, b, ack), Channel(states[j], a, b, ack))
    decreases k - j
  {
    hide *;
    if j == k {
      RunInv(cfg, states, trace, j);
      SizedInv(cfg, states[j], trace[..j]);
      SizedHosts(cfg, states[j]);
      SubsequenceSelf(Channel(states[j], a, b, ack));
    } else {
      FlowsKeepOrder(cfg, states, trace, j, k - 1, a, b, ack);
      SwitchStep(cfg, states, trace, k - 1, a, b, ack);
      SubsequenceTransitive(Channel(states[k], a, b, ack), Channel(states[k - 1], a, b, ack),
                            Channel(states[j], a, b, ack));
    }
  }
}
