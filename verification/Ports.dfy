/** The switch's books for one round of data frames: what each receiver gets, what waits at its port, what is lost. */
module Ports {
  import opened Common
  import opened HostModel
  import opened Network

  // ---------- counting ----------

  /** Frames of a list addressed to d. */
  function CountTo(q: seq<Frame>, d: int): nat {
    if q == [] then 0 else (if q[0].dst == d then 1 else 0) + CountTo(q[1..], d)
  }

  /** Frames addressed to d in the outgoing lists of all hosts. */
  function Addressed(hosts: seq<HostState>, d: int): nat {
    if hosts == [] then 0 else CountTo(hosts[0].outgoing, d) + Addressed(hosts[1..], d)
  }

  /** Frames in all outgoing lists. */
  function Outstanding(hosts: seq<HostState>): nat {
    if hosts == [] then 0 else |hosts[0].outgoing| + Outstanding(hosts[1..])
  }

  lemma {:induction false} AddressedUpdate(hosts: seq<HostState>, i: nat, h: HostState, d: int)
    requires i < |hosts|
    ensures Addressed(hosts[i := h], d) == Addressed(hosts, d) - CountTo(hosts[i].outgoing, d) + CountTo(h.outgoing, d)
    ensures Outstanding(hosts[i := h]) == Outstanding(hosts) - |hosts[i].outgoing| + |h.outgoing|
  {
    hide CountTo;
    if i == 0 {
      assert hosts[i := h][1..] == hosts[1..];
    } else {
      AddressedUpdate(hosts[1..], i - 1, h, d);
      assert hosts[i := h][1..] == hosts[1..][i - 1 := h];
    }
  }

  lemma {:induction false} NothingAddressed(hosts: seq<HostState>, d: int)
    requires forall i :: 0 <= i < |hosts| ==> hosts[i].outgoing == []
    ensures Addressed(hosts, d) == 0
  {
    if hosts != [] {
      NothingAddressed(hosts[1..], d);
    }
  }

  // ---------- the books ----------

  /**
   * The books of receiver d, `before` being the state when the round began and `accepted` the frames passed on since:
   * nothing is lost unless the receiver has had its full rate and the queue is at capacity.
   */
  ghost predicate Balanced(cfg: Config, before: System, now: System, accepted: nat, d: nat)
    requires d < |before.hosts| == |before.ingress| && d < |now.hosts| == |now.ingress|
  {
    var queued, addressed := |before.ingress[d]|, Addressed(before.hosts, d);
    var waiting, coming := |now.ingress[d]|, Addressed(now.hosts, d);
    && |now.hosts[d].incoming| == |before.hosts[d].incoming| + accepted
    && accepted <= cfg.rate
    && accepted + waiting + coming <= queued + addressed
    && (accepted + waiting + coming < queued + addressed ==> accepted == cfg.rate && waiting >= cfg.capacity)
    && (waiting <= cfg.capacity || waiting + accepted <= queued)
    && waiting + accepted >= queued
  }

  ghost predicate AllBalanced(cfg: Config, before: System, now: System, accepted: seq<nat>) {
    && |before.hosts| == |before.ingress| == |now.hosts| == |now.ingress| == |accepted| == cfg.hosts
    && forall d :: 0 <= d < cfg.hosts ==> Balanced(cfg, before, now, accepted[d], d)
  }

  /** After the queues have been served, a frame waits only at a port whose receiver has had its full rate. */
  ghost predicate QueuesServed(cfg: Config, now: System, accepted: seq<nat>) {
    |now.ingress| == |accepted| && forall d :: 0 <= d < |accepted| && now.ingress[d] != [] ==> accepted[d] == cfg.rate
  }

  /**
   * The result of a round for receiver d with q frames queued and o addressed to it: exactly min(rate, q + o) are
   * delivered; of the rest, as many wait as the queue has room for (or as were already waiting and could not be
   * served); only what is left over is dropped.
   */
  ghost predicate RoundResult(cfg: Config, before: System, after: System, d: nat)
    requires d < |before.hosts| == |before.ingress| && d < |after.hosts| == |after.ingress|
  {
    var q, o := |before.ingress[d]|, Addressed(before.hosts, d);
    && |after.hosts[d].incoming| - |before.hosts[d].incoming| == Min(cfg.rate, q + o)
    && |after.ingress[d]| == Min(Max(0, q + o - cfg.rate), Max(cfg.capacity, q - Min(cfg.rate, q)))
  }

  lemma BooksStart(cfg: Config, sys: System)
    requires |sys.hosts| == |sys.ingress| == cfg.hosts
    ensures AllBalanced(cfg, sys, sys, seq(cfg.hosts, i => 0))
  {
    hide Addressed;
  }

  lemma BooksEnd(cfg: Config, before: System, now: System, accepted: seq<nat>, d: nat)
    requires AllBalanced(cfg, before, now, accepted) && QueuesServed(cfg, now, accepted) && d < cfg.hosts
    requires forall i :: 0 <= i < |now.hosts| ==> now.hosts[i].outgoing == []
    ensures RoundResult(cfg, before, now, d)
  {
    hide Addressed;
    NothingAddressed(now.hosts, d);
    assert Balanced(cfg, before, now, accepted[d], d);
  }

  // ---------- what each event does to the books ----------

  lemma AddIncomingCounts(hosts: seq<HostState>, e: nat, f: Frame, d: int)
    requires e < |hosts|
    ensures var r := AddIncoming(hosts, e, f);
            && |r| == |hosts| && Addressed(r, d) == Addressed(hosts, d) && Outstanding(r) == Outstanding(hosts)
            && (forall i :: 0 <= i < |r| ==> r[i].outgoing == hosts[i].outgoing)
            && (forall i :: 0 <= i < |r| ==> |r[i].incoming| == |hosts[i].incoming| + if i == e then 1 else 0)
  {
    AddressedUpdate(hosts, e, hosts[e].(incoming := hosts[e].incoming + [f]), d);
  }

  lemma PopCounts(hosts: seq<HostState>, i: nat, d: int)
    requires i < |hosts| && hosts[i].outgoing != []
    ensures var r := PopOutgoing(hosts, i);
            && |r| == |hosts| && Outstanding(r) == Outstanding(hosts) - 1
            && Addressed(r, d) == Addressed(hosts, d) - (if hosts[i].outgoing[0].dst == d then 1 else 0)
            && r[i].outgoing == hosts[i].outgoing[1..]
            && (forall k :: 0 <= k < |r| && k != i ==> r[k].outgoing == hosts[k].outgoing)
            && (forall k :: 0 <= k < |r| ==> r[k].incoming == hosts[k].incoming)
  {
    AddressedUpdate(hosts, i, hosts[i].(outgoing := hosts[i].outgoing[1..]), d);
  }

  lemma ServeBooks(cfg: Config, before: System, sys: System, accepted: seq<nat>, d: nat, f: Frame)
    requires AllBalanced(cfg, before, sys, accepted) && d < cfg.hosts && sys.ingress[d] != [] && accepted[d] < cfg.rate
    ensures AllBalanced(cfg, before,
                        sys.(hosts := AddIncoming(sys.hosts, d, f), ingress := sys.ingress[d := sys.ingress[d][1..]]),
                        accepted[d := accepted[d] + 1])
  {
    hide Addressed;
    hide AddIncoming;
    var now := sys.(hosts := AddIncoming(sys.hosts, d, f), ingress := sys.ingress[d := sys.ingress[d][1..]]);
    AddIncomingCounts(sys.hosts, d, f, d);
    var accepted' := accepted[d := accepted[d] + 1];
    forall e | 0 <= e < cfg.hosts ensures Balanced(cfg, before, now, accepted'[e], e) {
      AddIncomingCounts(sys.hosts, d, f, e);
      assert Balanced(cfg, before, sys, accepted[e], e);
    }
  }

  lemma ForwardBooks(cfg: Config, before: System, sys: System, accepted: seq<nat>, i: nat, g: Frame)
    requires AllBalanced(cfg, before, sys, accepted) && QueuesServed(cfg, sys, accepted)
    requires i < cfg.hosts && sys.hosts[i].outgoing != []
    requires var d := sys.hosts[i].outgoing[0].dst; d < cfg.hosts && accepted[d] < cfg.rate
    ensures var d := sys.hosts[i].outgoing[0].dst;
            var now := sys.(hosts := AddIncoming(PopOutgoing(sys.hosts, i), d, g));
            && sys.ingress[d] == []
            && AllBalanced(cfg, before, now, accepted[d := accepted[d] + 1])
            && QueuesServed(cfg, now, accepted[d := accepted[d] + 1])
            && Outstanding(now.hosts) == Outstanding(sys.hosts) - 1
            && (forall k :: 0 <= k < cfg.hosts && k != i ==> now.hosts[k].outgoing == sys.hosts[k].outgoing)
  {
    hide Addressed;
    hide Outstanding;
    hide AddIncoming;
    hide PopOutgoing;
    var d := sys.hosts[i].outgoing[0].dst;
    PopCounts(sys.hosts, i, d);
    var popped := PopOutgoing(sys.hosts, i);
    AddIncomingCounts(popped, d, g, d);
    var now := sys.(hosts := AddIncoming(popped, d, g));
    var accepted' := accepted[d := accepted[d] + 1];
    forall e | 0 <= e < cfg.hosts ensures Balanced(cfg, before, now, accepted'[e], e) {
      PopCounts(sys.hosts, i, e);
      AddIncomingCounts(popped, d, g, e);
      assert Balanced(cfg, before, sys, accepted[e], e);
    }
  }

  lemma EnqueueBooks(cfg: Config, before: System, sys: System, accepted: seq<nat>, i: nat)
    requires AllBalanced(cfg, before, sys, accepted) && QueuesServed(cfg, sys, accepted)
    requires i < cfg.hosts && sys.hosts[i].outgoing != []
    requires var d := sys.hosts[i].outgoing[0].dst;
             d < cfg.hosts && accepted[d] >= cfg.rate && |sys.ingress[d]| < cfg.capacity
    ensures var f := sys.hosts[i].outgoing[0];
            var now := sys.(hosts := PopOutgoing(sys.hosts, i),
                            ingress := sys.ingress[f.dst := sys.ingress[f.dst] + [f]]);
            && AllBalanced(cfg, before, now, accepted) && QueuesServed(cfg, now, accepted)
            && Outstanding(now.hosts) == Outstanding(sys.hosts) - 1
            && (forall k :: 0 <= k < cfg.hosts && k != i ==> now.hosts[k].outgoing == sys.hosts[k].outgoing)
  {
    hide Addressed;
    hide Outstanding;
    hide PopOutgoing;
    var f := sys.hosts[i].outgoing[0];
    PopCounts(sys.hosts, i, f.dst);
    var now := sys.(hosts := PopOutgoing(sys.hosts, i), ingress := sys.ingress[f.dst := sys.ingress[f.dst] + [f]]);
    forall e | 0 <= e < cfg.hosts ensures Balanced(cfg, before, now, accepted[e], e) {
      PopCounts(sys.hosts, i, e);
      assert Balanced(cfg, before, sys, accepted[e], e);
    }
    assert Balanced(cfg, before, sys, accepted[f.dst], f.dst);
  }

  lemma DropBooks(cfg: Config, before: System, sys: System, accepted: seq<nat>, i: nat)
    requires AllBalanced(cfg, before, sys, accepted) && QueuesServed(cfg, sys, accepted)
    requires i < cfg.hosts && sys.hosts[i].outgoing != []
    requires var d := sys.hosts[i].outgoing[0].dst;
             d < cfg.hosts && accepted[d] >= cfg.rate && |sys.ingress[d]| >= cfg.capacity
    ensures var now := sys.(hosts := PopOutgoing(sys.hosts, i));
            && AllBalanced(cfg, before, now, accepted) && QueuesServed(cfg, now, accepted)
            && Outstanding(now.hosts) == Outstanding(sys.hosts) - 1
            && (forall k :: 0 <= k < cfg.hosts && k != i ==> now.hosts[k].outgoing == sys.hosts[k].outgoing)
  {
    hide Addressed;
    hide Outstanding;
    hide PopOutgoing;
    PopCounts(sys.hosts, i, 0);
    var now := sys.(hosts := PopOutgoing(sys.hosts, i));
    forall e | 0 <= e < cfg.hosts ensures Balanced(cfg, before, now, accepted[e], e) {
      PopCounts(sys.hosts, i, e);
      assert Balanced(cfg, before, sys, accepted[e], e);
    }
  }
}
