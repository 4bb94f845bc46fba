/**
 * The simulator itself: the hosts, the switch and the main loop. Every method keeps a ghost record of the events it
 * performs, and that record is a run of the event machine of module Network.
 */
module Simulator {
  import opened Common
  import opened Frames
  import opened HostModel
  import opened Hosts
  import opened Network
  import opened Ports
  import opened SimulatorEvents
  import Delivery

  /** How a round of the main loop ends. */
  datatype Outcome = Continues | Exits | Aborts

  function Initial(cfg: Config): System
    requires cfg.hosts <= 256
  {
    System(seq(cfg.hosts, i requires 0 <= i < cfg.hosts => Fresh(cfg, i)), seq(cfg.hosts, i => []), Input)
  }

  /** Separate hosts, each fresh and of the right shape. */
  ghost predicate Created(cfg: Config, all: seq<Host>, objects: set<object>)
    reads objects, set h | h in all
  {
    && |all| <= cfg.hosts <= 256
    && (forall k :: 0 <= k < |all| ==>
          all[k].Footprint() <= objects && all[k].cfg == cfg && all[k].id == k && all[k].Shape() &&
          all[k].Snapshot() == Fresh(cfg, k))
    && forall k, l :: 0 <= k < |all| && 0 <= l < |all| && k != l ==> all[k].Footprint() !! all[l].Footprint()
  }

  lemma CreatedMore(cfg: Config, all: seq<Host>, objects: set<object>, host: Host)
    requires Created(cfg, all, objects) && |all| < cfg.hosts <= 256
    requires host.cfg == cfg && host.id == |all| && host.Shape() && host.Snapshot() == Fresh(cfg, |all|)
    requires host.Footprint() !! objects
    ensures Created(cfg, all + [host], objects + host.Footprint())
  {
    hide Host.Shape;
    hide Host.Snapshot;
    hide Host.Footprint;
    hide Fresh;
  }

  /** init_host for every host. */
  method CreateHosts(cfg: Config) returns (all: seq<Host>, ghost objects: set<object>)
    requires ValidConfig(cfg)
    ensures |all| == cfg.hosts && fresh(objects) && Created(cfg, all, objects)
  {
    ConfigIs(cfg);
    all, objects := [], {};
    var i := 0;
    hide *;
    CreatedNone(cfg);
    while i < cfg.hosts
      invariant 0 <= i <= cfg.hosts && |all| == i && fresh(objects)
      invariant Created(cfg, all, objects)
    {
      var host := new Host(cfg, i);
      host.ValidIs();
      CreatedMore(cfg, all, objects, host);
      all := all + [host];
      objects := objects + host.Footprint();
      i := i + 1;
    }
  }

  lemma CreatedNone(cfg: Config)
    requires cfg.hosts <= 256
    ensures Created(cfg, [], {})
  {}

  class Simulator {
    const cfg: Config
    /** corrupt_prob, in thousandths. */
    const corruption: nat
    /** The values rand() returns. */
    const rand: nat -> nat
    const hosts: seq<Host>
    ghost const repr: set<object>
    var ingress: seq<seq<Frame>>
    var draws: nat
    ghost var phase: Phase
    ghost var states: seq<System>
    ghost var trace: seq<Event>
    /** The commands read so far. */
    ghost var issued: seq<Cmd>

    /** Separate hosts, each of the right shape. */
    ghost predicate Apart()
      reads this, repr
    {
      && ValidConfig(cfg) && |hosts| == |ingress| == cfg.hosts && this !in repr
      && (forall i :: 0 <= i < |hosts| ==>
            hosts[i].Footprint() <= repr && hosts[i].cfg == cfg && hosts[i].id == i && hosts[i].Shape())
      && (forall i, j :: 0 <= i < |hosts| && 0 <= j < |hosts| && i != j
            ==> hosts[i].Footprint() !! hosts[j].Footprint())
    }

    ghost function View(): (sys: System)
      requires Apart()
      reads this, repr
      ensures |sys.hosts| == |sys.ingress| == cfg.hosts && sys.ingress == ingress && sys.phase == phase
      ensures forall i :: 0 <= i < cfg.hosts ==> sys.hosts[i] == hosts[i].Snapshot()
    {
      System(seq(cfg.hosts, i requires 0 <= i < cfg.hosts && Apart() reads this, repr => hosts[i].Snapshot()), ingress,
             phase)
    }

    /** The record is a run of the event machine that ends where the simulator stands. */
    ghost predicate Valid()
      reads this, repr
    {
      && Apart() && IsRun(cfg, states, trace) && states[|states| - 1] == View() && CommandsOf(trace) == issued
      && FlipsFit(corruption, trace)
    }

    /** init. */
    constructor (cfg: Config, corruption: nat, rand: nat -> nat)
      requires ValidConfig(cfg)
      ensures Valid() && fresh(repr) && phase == Input && issued == []
      ensures this.cfg == cfg && this.corruption == corruption && this.rand == rand
    {
      hide *;
      var all;
      ghost var objects;
      all, objects := CreateHosts(cfg);
      this.cfg, this.corruption, this.rand := cfg, corruption, rand;
      this.hosts, this.repr := all, objects;
      this.ingress := seq(cfg.hosts, i => []);
      this.draws := 0;
      this.phase, this.trace, this.issued := Input, [], [];
      this.states := [];
      new;
      ConfigIs(cfg);
      states := [Initial(cfg)];
      StartsValid();
    }

    lemma CreatedApart()
      requires ValidConfig(cfg) && |hosts| == |ingress| == cfg.hosts && this !in repr
      requires Created(cfg, hosts, repr)
      ensures Apart()
    {
      hide Host.Shape;
      hide Host.Snapshot;
      hide Fresh;
    }

    lemma StartsValid()
      requires ValidConfig(cfg) && |hosts| == cfg.hosts && this !in repr && Created(cfg, hosts, repr)
      requires ingress == seq(cfg.hosts, i => []) && phase == Input && trace == [] && issued == []
      requires cfg.hosts <= 256 && states == [Initial(cfg)]
      ensures Valid()
    {
      hide Host.Shape;
      hide Host.Snapshot;
      hide Fresh;
      CreatedApart();
      FlipsFitNone(corruption);
      hide FlipsFit;
      assert View() == Initial(cfg);
    }

    /** Of the hosts only host i has changed. */
    twostate lemma HostChanged(i: nat)
      requires old(Apart()) && i < cfg.hosts && hosts[i].Shape()
      requires unchanged(repr - hosts[i].Footprint()) && |ingress| == cfg.hosts
      ensures Apart() && old(View()).hosts[i] == old(hosts[i].Snapshot())
      ensures View() == System(old(View()).hosts[i := hosts[i].Snapshot()], ingress, phase)
    {
    }

    twostate lemma HostsSame()
      requires old(Apart()) && unchanged(repr) && |ingress| == cfg.hosts
      ensures Apart() && View() == System(old(View()).hosts, ingress, phase)
    {
      assert View().hosts == old(View()).hosts;
    }

    // ---------- the record ----------

    lemma Current()
      requires Valid()
      ensures |states| == |trace| + 1 && states[|trace|] == View() && Shaped(cfg, View()) && Apart() && ValidConfig(cfg)
      ensures IsRun(cfg, states, trace) && CommandsOf(trace) == issued && FlipsFit(corruption, trace)
    {
      hide CommandsOf;
      hide HostShaped;
      hide IsInit;
      hide Step;
      hide FlipsFit;
      Delivery.AlwaysShaped(cfg, states, trace, |trace|);
    }

    lemma ApartHosts()
      requires Apart()
      ensures ValidConfig(cfg) && |hosts| == |ingress| == cfg.hosts && this !in repr
      ensures forall i :: 0 <= i < cfg.hosts ==>
                && hosts[i].cfg == cfg && hosts[i].Shape()
                && hosts[i] in repr && hosts[i].sends in repr && hosts[i].sends.slots in repr
                && hosts[i].recvs in repr && hosts[i].recvs.slots in repr
      ensures forall i :: 0 <= i < cfg.hosts ==>
                hosts[i].Footprint() == {hosts[i], hosts[i].sends, hosts[i].sends.slots, hosts[i].recvs,
                                         hosts[i].recvs.slots}
    {
      hide Host.Shape;
    }

    lemma OutgoingIs(i: nat)
      requires Apart() && i < cfg.hosts
      ensures View().hosts[i].outgoing == hosts[i].outgoing
    {
      hide Host.Shape;
    }

    lemma IncomingIs(i: nat)
      requires Apart() && i < cfg.hosts
      ensures View().hosts[i].incoming == hosts[i].incoming
    {
      hide Host.Shape;
    }

    lemma ActiveIs(i: nat)
      requires Apart() && i < cfg.hosts
      ensures View().hosts[i].active == hosts[i].active
    {
      hide Host.Shape;
    }

    /** A record that fits the simulator's present state stays valid as long as that state does. */
    twostate lemma ViewSame()
      requires old(Valid()) && Apart() && View() == old(View())
      requires states == old(states) && trace == old(trace) && issued == old(issued)
      ensures Valid()
    {
      hide IsRun;
    }

    lemma ReadyHost(i: nat)
      requires Apart() && Shaped(cfg, View()) && i < cfg.hosts
      ensures hosts[i].Valid()
    {
      hide WellFormed;
      hide Host.Snapshot;
    }

    /** Write down the event just performed. */
    ghost method Record(e: Event)
      requires Apart() && IsRun(cfg, states, trace) && |states| == |trace| + 1
      requires Shaped(cfg, states[|trace|]) && Enabled(cfg, states[|trace|], e)
      requires View() == Apply(cfg, states[|trace|], e)
      requires issued == CommandsOf(trace) + (if e.Command? then [e.cmd] else [])
      requires FlipsFit(corruption, trace) && EventFits(corruption, e)
      modifies this`states, this`trace
      ensures Valid() && View() == old(View())
      ensures states == old(states) + [old(View())] && trace == old(trace) + [e]
    {
      hide Apply;
      hide Enabled;
      hide Shaped;
      hide IsInit;
      hide EventFits;
      hide FlipsFit;
      FlipsFitMore(corruption, trace, e);
      assert (trace + [e])[..|trace|] == trace;
      states := states + [View()];
      trace := trace + [e];
      assert View().hosts == old(View()).hosts;
      assert Step(cfg, states[|trace| - 1], e, states[|trace|]);
      forall k | 0 <= k < |trace| ensures Step(cfg, states[k], trace[k], states[k + 1]) {
        if k < |trace| - 1 {
          assert Step(cfg, old(states)[k], old(trace)[k], old(states)[k + 1]);
        }
      }
    }

    ghost method RecordPhase()
      requires Valid() && PhaseOver(cfg, View())
      modifies this`phase, this`states, this`trace
      ensures Valid() && View() == old(View()).(phase := Following(old(phase)))
      ensures trace == old(trace) + [NextPhase]
    {
      hide PhaseOver;
      hide Following;
      hide Shaped;
      hide IsRun;
      Current();
      ghost var sys := View();
      phase := Following(phase);
      assert View().hosts == sys.hosts;
      EventFitsIs(corruption, NextPhase);
      Record(NextPhase);
    }

    // ---------- random choices ----------

    method Rand() returns (r: nat)
      modifies this`draws
      ensures r == rand(old(draws)) && draws == old(draws) + 1
    {
      r := rand(draws);
      draws := draws + 1;
    }

    /** get_rand_seq: whatever rand() returns, the result is a permutation of 0 .. len - 1. */
    method GetRandSeq(len: nat) returns (order: array<nat>)
      requires len > 0
      modifies this`draws
      ensures fresh(order) && IsPermutation(order[..], len)
    {
      hide IsPermutation;
      order := new nat[len](i => i);
      assert order[..] == Iota(len);
      IotaPermutes(len);
      for i := 0 to len
        invariant IsPermutation(order[..], len) && order.Length == len
      {
        var r1 := Rand();
        var r2 := Rand();
        ghost var before := order[..];
        order[r1 % len], order[r2 % (i + 1)] := order[r2 % (i + 1)], order[r1 % len];
        assert order[..] == Swapped(before, r1 % len, r2 % (i + 1));
        SwapPermutes(before, r1 % len, r2 % (i + 1), len);
      }
    }

    // ---------- run_senders ----------

    method HostTurn(i: nat)
      requires Valid() && phase.Senders? && i < cfg.hosts && i !in phase.done
      modifies this`ingress, this`draws, this`phase, this`states, this`trace, repr
      ensures Valid() && phase == Senders(old(phase).done + {i})
      ensures trace == old(trace) + [TakeTurn(i)]
    {
      hide *;
      Current();
      ApartHosts();
      ReadyHost(i);
      TurnIs(cfg, View(), i);
      hosts[i].RunSender();
      hosts[i].ValidIs();
      phase := Senders(phase.done + {i});
      HostChanged(i);
      EventFitsIs(corruption, TakeTurn(i));
      Record(TakeTurn(i));
    }

    /** run_senders: every host takes its turn once, in some order. */
    method RunSenders() returns (ghost taken: seq<nat>)
      requires Valid() && phase == Senders({})
      modifies this`ingress, this`draws, this`phase, this`states, this`trace, repr
      ensures Valid() && IsPermutation(taken, cfg.hosts) && trace == old(trace) + Turns(taken)
      ensures phase.Senders? && PhaseOver(cfg, View())
    {
      hide *;
      Current();
      ConfigIs(cfg);
      ApartHosts();
      var order := GetRandSeq(cfg.hosts);
      HostsSame();
      ViewSame();
      taken := order[..];
      PermutationFacts(taken, cfg.hosts);
      TurnsNone(taken);
      var i := 0;
      while i < cfg.hosts
        invariant 0 <= i <= cfg.hosts && Valid() && order[..] == taken && |taken| == cfg.hosts
        invariant phase == Senders(set k | 0 <= k < i :: taken[k])
        invariant trace == old(trace) + Turns(taken[..i])
      {
        TurnsMore(taken, i);
        HostTurn(order[i]);
        i := i + 1;
      }
      assert taken[..i] == taken;
      Current();
      SendersOver(cfg, View(), taken);
    }

    // ---------- send_frame ----------

    /** What the destination will find: the frame, or the frame with one byte complemented. */
    method Transmit(f: Frame) returns (received: Frame, ghost flip: Option<nat>)
      modifies this`draws
      ensures ValidFlip(flip) && received == Delivered(f, flip)
      ensures flip.Some? <==> rand(old(draws) + 1) % 1000 < corruption
      ensures flip.None? ==> received == f
      ensures flip.Some? ==> flip.value == rand(old(draws) + 2) % 64
    {
      hide Encode;
      hide Decode;
      hide Complement;
      var buffer := Encode(f);
      var random := Rand();
      random := Rand();
      flip := None;
      if random % 1000 < corruption {
        var index := Rand();
        index := index % MAX_FRAME_SIZE;
        buffer := buffer[index := Complement(buffer[index])];
        flip := Some(index);
      }
      DecodeEncode(f);
      received := Decode(buffer);
    }

    lemma FlipFitsIs(random: nat, flip: Option<nat>)
      requires flip.Some? <==> random % 1000 < corruption
      ensures FlipFits(corruption, flip)
    {}

    method SendFrame(f: Frame) returns (ghost flip: Option<nat>)
      requires Apart() && f.dst < cfg.hosts
      modifies this`draws, repr
      ensures Apart() && ValidFlip(flip)
      ensures View() == old(View()).(hosts := AddIncoming(old(View()).hosts, f.dst, Delivered(f, flip)))
      ensures flip.Some? <==> rand(old(draws) + 1) % 1000 < corruption
      ensures FlipFits(corruption, flip)
    {
      hide *;
      ApartHosts();
      var received;
      received, flip := Transmit(f);
      FlipFitsIs(rand(old(draws) + 1), flip);
      HostsSame();
      AddIncomingIs(View().hosts, f.dst, received);
      hosts[f.dst].AppendIncoming(received);
      HostChanged(f.dst);
    }

    /** Without corruption every frame the switch has passed on arrived as sent; with certain corruption, none did. */
    lemma Channel(k: nat)
      requires Valid() && k < |trace| && (trace[k].Forward? || trace[k].Serve?)
      ensures |states| == |trace| + 1 && HandsOver(corruption, states[k], trace[k], states[k + 1])
    {
      hide *;
      Current();
      Delivery.RunStep(cfg, states, trace, k);
      FlipsFitAt(corruption, trace, k);
      if trace[k].Forward? {
        ForwardHandsOver(cfg, corruption, states[k], trace[k]);
      } else {
        ServeHandsOver(cfg, corruption, states[k], trace[k]);
      }
    }

    // ---------- send_data_frames ----------

    /** Pass the first frame waiting at port d on to host d. */
    method ServeOne(d: nat, accepted: array<nat>, ghost before: System)
      requires Valid() && phase == DataSwitch && d < cfg.hosts && ingress[d] != []
      requires accepted !in repr && AllBalanced(cfg, before, View(), accepted[..]) && accepted.Length == cfg.hosts
      requires accepted[d] < cfg.rate
      modifies this`ingress, this`draws, this`phase, this`states, this`trace, repr, accepted
      ensures Valid() && phase == DataSwitch && ingress == old(ingress)[d := old(ingress)[d][1..]]
      ensures accepted[..] == old(accepted[..])[d := old(accepted[d]) + 1]
      ensures AllBalanced(cfg, before, View(), accepted[..])
    {
      hide *;
      Current();
      ApartHosts();
      ghost var sys := View();
      var frame := ingress[d][0];
      PortFrame(cfg, states, trace, d);
      ingress := ingress[d := ingress[d][1..]];
      HostsSame();
      ghost var flip := SendFrame(frame);
      ServeIs(cfg, sys, d, flip);
      ServeBooks(cfg, before, sys, accepted[..], d, Delivered(frame, flip));
      EventFitsIs(corruption, Serve(d, flip));
      Record(Serve(d, flip));
      accepted[d] := accepted[d] + 1;
    }

    /** Service the queues at the ports: each receiver gets up to its rate of what waits for it. */
    method ServeQueues(accepted: array<nat>, ghost before: System)
      requires Valid() && phase == DataSwitch && accepted !in repr && accepted.Length == cfg.hosts
      requires AllBalanced(cfg, before, View(), accepted[..])
      modifies this`ingress, this`draws, this`phase, this`states, this`trace, repr, accepted
      ensures Valid() && phase == DataSwitch
      ensures AllBalanced(cfg, before, View(), accepted[..]) && QueuesServed(cfg, View(), accepted[..])
    {
      hide *;
      Current();
      ApartHosts();
      QueuesServedNone(ingress, accepted[..], cfg.rate);
      var d := 0;
      while d < cfg.hosts
        invariant 0 <= d <= cfg.hosts && Valid() && phase == DataSwitch && Apart()
        invariant AllBalanced(cfg, before, View(), accepted[..])
        invariant ServedUpTo(ingress, accepted[..], cfg.rate, d)
      {
        Current();
        ApartHosts();
        AllBalancedAt(cfg, before, View(), accepted[..], d);
        while ingress[d] != [] && accepted[d] < cfg.rate
          invariant Valid() && phase == DataSwitch && Apart() && |ingress| == cfg.hosts
          invariant AllBalanced(cfg, before, View(), accepted[..]) && accepted[d] <= cfg.rate
          invariant ServedUpTo(ingress, accepted[..], cfg.rate, d)
          decreases |ingress[d]|
        {
          ServedOther(ingress, accepted[..], cfg.rate, d);
          ServeOne(d, accepted, before);
          Current();
          ApartHosts();
        }
        ServedMore(ingress, accepted[..], cfg.rate, d);
        d := d + 1;
      }
      Current();
      ApartHosts();
      ServedAll(cfg, View(), accepted[..]);
    }

    /** The receiver's rate is used up: the frame is queued at its port, or dropped if the queue is full. */
    method HoldBack(i: nat, accepted: array<nat>, ghost before: System)
      requires Valid() && phase == DataSwitch && i < cfg.hosts && accepted !in repr && accepted.Length == cfg.hosts
      requires hosts[i].outgoing != []
      requires AllBalanced(cfg, before, View(), accepted[..]) && QueuesServed(cfg, View(), accepted[..])
      requires hosts[i].outgoing[0].dst < cfg.hosts && accepted[hosts[i].outgoing[0].dst] >= cfg.rate
      modifies this`ingress, this`draws, this`phase, this`states, this`trace, repr
      ensures Valid() && phase == DataSwitch
      ensures AllBalanced(cfg, before, View(), accepted[..]) && QueuesServed(cfg, View(), accepted[..])
      ensures Outstanding(View().hosts) == Outstanding(old(View()).hosts) - 1
      ensures forall k :: 0 <= k < cfg.hosts && k != i ==> View().hosts[k].outgoing == old(View()).hosts[k].outgoing
    {
      hide *;
      Current();
      ApartHosts();
      ghost var sys := View();
      OutgoingIs(i);
      HeadInRange(cfg, sys, i);
      PopOutgoingIs(sys.hosts, i);
      var frame := hosts[i].PopOutgoing();
      HostChanged(i);
      var d := frame.dst;
      if |ingress[d]| < cfg.capacity {
        EnqueueIs(cfg, sys, i);
        EnqueueBooks(cfg, before, sys, accepted[..], i);
        ingress := ingress[d := ingress[d] + [frame]];
        HostChanged(i);
        EventFitsIs(corruption, Enqueue(i));
        Record(Enqueue(i));
      } else {
        DropIs(cfg, sys, i);
        DropBooks(cfg, before, sys, accepted[..], i);
        EventFitsIs(corruption, Drop(i));
        Record(Drop(i));
      }
    }

    /** The receiver still takes frames: the frame is sent. */
    method PassOn(i: nat, accepted: array<nat>, ghost before: System)
      requires Valid() && phase == DataSwitch && i < cfg.hosts && accepted !in repr && accepted.Length == cfg.hosts
      requires hosts[i].outgoing != []
      requires AllBalanced(cfg, before, View(), accepted[..]) && QueuesServed(cfg, View(), accepted[..])
      requires hosts[i].outgoing[0].dst < cfg.hosts && accepted[hosts[i].outgoing[0].dst] < cfg.rate
      modifies this`ingress, this`draws, this`phase, this`states, this`trace, repr, accepted
      ensures Valid() && phase == DataSwitch
      ensures AllBalanced(cfg, before, View(), accepted[..]) && QueuesServed(cfg, View(), accepted[..])
      ensures Outstanding(View().hosts) == Outstanding(old(View()).hosts) - 1
      ensures forall k :: 0 <= k < cfg.hosts && k != i ==> View().hosts[k].outgoing == old(View()).hosts[k].outgoing
    {
      hide *;
      Current();
      ApartHosts();
      ghost var sys := View();
      OutgoingIs(i);
      HeadInRange(cfg, sys, i);
      PopOutgoingIs(sys.hosts, i);
      var frame := hosts[i].PopOutgoing();
      HostChanged(i);
      ghost var flip := SendFrame(frame);
      ForwardBooks(cfg, before, sys, accepted[..], i, Delivered(frame, flip));
      ForwardIs(cfg, sys, i, flip);
      EventFitsIs(corruption, Forward(i, flip));
      Record(Forward(i, flip));
      accepted[frame.dst] := accepted[frame.dst] + 1;
    }

    /** One host's turn at the switch: its first outgoing frame is passed on, queued or dropped. */
    method ForwardOne(i: nat, accepted: array<nat>, ghost before: System)
      requires Valid() && phase == DataSwitch && i < cfg.hosts && accepted !in repr && accepted.Length == cfg.hosts
      requires hosts[i].outgoing != []
      requires AllBalanced(cfg, before, View(), accepted[..]) && QueuesServed(cfg, View(), accepted[..])
      modifies this`ingress, this`draws, this`phase, this`states, this`trace, repr, accepted
      ensures Valid() && phase == DataSwitch
      ensures AllBalanced(cfg, before, View(), accepted[..]) && QueuesServed(cfg, View(), accepted[..])
      ensures Outstanding(View().hosts) == Outstanding(old(View()).hosts) - 1
      ensures forall k :: 0 <= k < cfg.hosts && k != i ==> View().hosts[k].outgoing == old(View()).hosts[k].outgoing
    {
      hide *;
      Current();
      ApartHosts();
      OutgoingIs(i);
      HeadInRange(cfg, View(), i);
      if accepted[hosts[i].outgoing[0].dst] >= cfg.rate {
        HoldBack(i, accepted, before);
      } else {
        PassOn(i, accepted, before);
      }
    }

    /** One pass over the hosts in random order; the number of hosts found with nothing to send. */
    method ForwardRound(accepted: array<nat>, ghost before: System) returns (idle: nat)
      requires Valid() && phase == DataSwitch && accepted !in repr && accepted.Length == cfg.hosts
      requires AllBalanced(cfg, before, View(), accepted[..]) && QueuesServed(cfg, View(), accepted[..])
      modifies this`ingress, this`draws, this`phase, this`states, this`trace, repr, accepted
      ensures Valid() && phase == DataSwitch && idle <= cfg.hosts
      ensures AllBalanced(cfg, before, View(), accepted[..]) && QueuesServed(cfg, View(), accepted[..])
      ensures Outstanding(View().hosts) + (cfg.hosts - idle) == Outstanding(old(View()).hosts)
      ensures idle == cfg.hosts ==> forall i :: 0 <= i < cfg.hosts ==> View().hosts[i].outgoing == []
    {
      hide *;
      Current();
      ApartHosts();
      ConfigIs(cfg);
      var order := GetRandSeq(cfg.hosts);
      ghost var taken := order[..];
      HostsSame();
      ViewSame();
      PermutationFacts(taken, cfg.hosts);
      idle := 0;
      var j := 0;
      while j < cfg.hosts
        invariant 0 <= j <= cfg.hosts && idle <= j && order[..] == taken && |taken| == cfg.hosts
        invariant Valid() && Apart() && phase == DataSwitch
        invariant AllBalanced(cfg, before, View(), accepted[..]) && QueuesServed(cfg, View(), accepted[..])
        invariant Outstanding(View().hosts) + (j - idle) == Outstanding(old(View()).hosts)
        invariant idle == j ==> forall k :: 0 <= k < j ==> View().hosts[taken[k]].outgoing == []
      {
        ApartHosts();
        OutgoingIs(order[j]);
        if hosts[order[j]].outgoing != [] {
          ForwardOne(order[j], accepted, before);
          Current();
        } else {
          idle := idle + 1;
        }
        j := j + 1;
      }
      EveryoneIdle(View().hosts, taken);
    }

    /**
     * send_data_frames: it ends, every outgoing list is then empty, and each receiver has been given exactly as much as
     * its rate allows.
     */
    method SendDataFrames()
      requires Valid() && phase == DataSwitch
      modifies this`ingress, this`draws, this`phase, this`states, this`trace, repr
      ensures Valid() && phase == DataSwitch && PhaseOver(cfg, View())
      ensures forall d :: 0 <= d < cfg.hosts ==> RoundResult(cfg, old(View()), View(), d)
    {
      hide *;
      Current();
      ApartHosts();
      ghost var before := View();
      var accepted := new nat[cfg.hosts](i => 0);
      assert accepted[..] == seq(cfg.hosts, i => 0);
      BooksStart(cfg, before);
      ServeQueues(accepted, before);
      Current();
      var more := true;
      while more
        invariant Valid() && Apart() && phase == DataSwitch
        invariant AllBalanced(cfg, before, View(), accepted[..]) && QueuesServed(cfg, View(), accepted[..])
        invariant !more ==> forall i :: 0 <= i < cfg.hosts ==> View().hosts[i].outgoing == []
        decreases Outstanding(View().hosts), more
      {
        ApartHosts();
        var idle := ForwardRound(accepted, before);
        Current();
        more := idle != cfg.hosts;
      }
      ApartHosts();
      AllSent(cfg, View());
      forall d | 0 <= d < cfg.hosts ensures RoundResult(cfg, before, View(), d) {
        BooksEnd(cfg, before, View(), accepted[..], d);
      }
    }

    // ---------- run_receivers ----------

    /** handle_incoming_frames: one event per frame. */
    method HandleIncomingFrames(i: nat)
      requires Valid() && phase == Receivers && i < cfg.hosts
      modifies this`ingress, this`draws, this`phase, this`states, this`trace, repr
      ensures Valid() && phase == Receivers && View().hosts[i].incoming == []
      ensures forall k :: 0 <= k < cfg.hosts && k != i ==> View().hosts[k] == old(View()).hosts[k]
    {
      hide *;
      Current();
      ApartHosts();
      IncomingIs(i);
      while hosts[i].incoming != []
        invariant Valid() && Apart() && phase == Receivers && View().hosts[i].incoming == hosts[i].incoming
        invariant forall k :: 0 <= k < cfg.hosts && k != i ==> View().hosts[k] == old(View()).hosts[k]
        decreases |hosts[i].incoming|
      {
        label round:
        Current();
        ApartHosts();
        ReadyHost(i);
        ReceiveEventIs(cfg, View(), i);
        hosts[i].HandleFrame();
        hosts[i].ValidIs();
        HostChanged@round(i);
        EventFitsIs(corruption, Receive(i));
        Record(Receive(i));
        Current();
        IncomingIs(i);
      }
    }

    method RunReceivers()
      requires Valid() && phase == Receivers
      modifies this`ingress, this`draws, this`phase, this`states, this`trace, repr
      ensures Valid() && phase == Receivers && PhaseOver(cfg, View())
    {
      hide *;
      Current();
      ConfigIs(cfg);
      ApartHosts();
      var order := GetRandSeq(cfg.hosts);
      ghost var taken := order[..];
      HostsSame();
      ViewSame();
      PermutationFacts(taken, cfg.hosts);
      var j := 0;
      while j < cfg.hosts
        invariant 0 <= j <= cfg.hosts && order[..] == taken && |taken| == cfg.hosts
        invariant Valid() && Apart() && phase == Receivers
        invariant forall k :: 0 <= k < j ==> View().hosts[taken[k]].incoming == []
      {
        HandleIncomingFrames(order[j]);
        Current();
        j := j + 1;
      }
      EveryoneDone(cfg, View(), taken);
    }

    // ---------- send_ack_frames ----------

    method SendOneAck(i: nat)
      requires Valid() && phase == AckSwitch && i < cfg.hosts && hosts[i].outgoing != []
      modifies this`ingress, this`draws, this`phase, this`states, this`trace, repr
      ensures Valid() && phase == AckSwitch
      ensures forall k :: 0 <= k < cfg.hosts ==>
                var before := old(View()).hosts[k].outgoing;
                View().hosts[k].outgoing == if k == i then before[1..] else before
    {
      hide *;
      Current();
      ApartHosts();
      ghost var sys := View();
      OutgoingIs(i);
      HeadInRange(cfg, sys, i);
      PopOutgoingIs(sys.hosts, i);
      var frame := hosts[i].PopOutgoing();
      HostChanged(i);
      ghost var flip := SendFrame(frame);
      ForwardIs(cfg, sys, i, flip);
      PopCounts(sys.hosts, i, 0);
      AddIncomingCounts(PopOutgoing(sys.hosts, i), frame.dst, Delivered(frame, flip), 0);
      EventFitsIs(corruption, Forward(i, flip));
      Record(Forward(i, flip));
    }

    method SendAckFrames()
      requires Valid() && phase == AckSwitch
      modifies this`ingress, this`draws, this`phase, this`states, this`trace, repr
      ensures Valid() && phase == AckSwitch && PhaseOver(cfg, View())
    {
      hide *;
      Current();
      ApartHosts();
      var i := 0;
      while i < cfg.hosts
        invariant 0 <= i <= cfg.hosts && Valid() && Apart() && phase == AckSwitch
        invariant forall k :: 0 <= k < i ==> View().hosts[k].outgoing == []
      {
        ApartHosts();
        OutgoingIs(i);
        while hosts[i].outgoing != []
          invariant Valid() && Apart() && phase == AckSwitch && View().hosts[i].outgoing == hosts[i].outgoing
          invariant forall k :: 0 <= k < i ==> View().hosts[k].outgoing == []
          decreases |hosts[i].outgoing|
        {
          SendOneAck(i);
          Current();
          OutgoingIs(i);
        }
        i := i + 1;
      }
      AllSent(cfg, View());
    }

    // ---------- the main loop ----------

    /** run_hosts. */
    method RunHosts()
      requires Valid() && phase == Input
      modifies this`ingress, this`draws, this`phase, this`states, this`trace, repr
      ensures Valid() && phase == AckSwitch && PhaseOver(cfg, View())
      ensures InOrderEverywhere(cfg, View(), issued)
    {
      hide *;
      Current();
      PhasesAre(cfg, View());
      RecordPhase();
      ghost var order := RunSenders();
      Current();
      PhasesAre(cfg, View());
      RecordPhase();
      SendDataFrames();
      Current();
      PhasesAre(cfg, View());
      RecordPhase();
      RunReceivers();
      Current();
      PhasesAre(cfg, View());
      RecordPhase();
      SendAckFrames();
      InOrder();
    }

    /** A new round: the main loop reads its input. */
    ghost method StartRound()
      requires Valid() && phase == AckSwitch && PhaseOver(cfg, View())
      modifies this`phase, this`states, this`trace
      ensures Valid() && phase == Input && Output() == old(Output())
    {
      hide *;
      Current();
      PhasesAre(cfg, View());
      RecordPhase();
      Current();
      OutputSame();
    }

    /** What each host has printed. */
    ghost function Output(): (lines: seq<seq<Line>>)
      requires Apart()
      reads this, repr
      ensures |lines| == cfg.hosts && forall i :: 0 <= i < cfg.hosts ==> lines[i] == View().hosts[i].printed
    {
      seq(cfg.hosts, i requires 0 <= i < cfg.hosts && Apart() reads this, repr => View().hosts[i].printed)
    }

    twostate lemma OutputSame()
      requires old(Apart()) && Apart()
      requires forall i :: 0 <= i < cfg.hosts ==> View().hosts[i].printed == old(View()).hosts[i].printed
      ensures Output() == old(Output())
    {}

    /** handle_input, for one line: a command with valid ids joins the list of its sender, any other is ignored. */
    method ReadCommand(line: InputLine) returns (fatal: bool)
      requires Valid() && phase == Input
      modifies this, repr
      ensures Valid() && phase == Input && Output() == old(Output())
      ensures issued == old(issued) + Accepted(cfg, line)
      ensures fatal <==> Fatal(cfg, line)
    {
      hide *;
      Current();
      ApartHosts();
      LineIs(cfg, line);
      ghost var sys := View();
      fatal := false;
      if 0 <= line.src < cfg.hosts && 0 <= line.dst < cfg.hosts {
        fatal := line.src == line.dst;
        if !fatal {
          ConfigIs(cfg);
          var cmd := Cmd(line.src, line.dst, line.message);
          assert cmd in Accepted(cfg, line);
          CommandIs(cfg, View(), cmd);
          hosts[cmd.src].AppendCmd(cmd);
          issued := issued + [cmd];
          HostChanged(cmd.src);
          EventFitsIs(corruption, Command(cmd));
          Record(Command(cmd));
        }
      }
      OutputSame();
    }

    // ---------- what the user sees ----------

    lemma InOrder()
      requires Valid()
      ensures Apart() && InOrderEverywhere(cfg, View(), issued)
    {
      hide *;
      Current();
      forall s, d | 0 <= s < cfg.hosts && 0 <= d < cfg.hosts && s != d
        ensures InOrderFor(View(), issued, s, d)
      {
        CommandedIs(trace, s, d);
        assert trace[..|trace|] == trace;
        Delivery.InOrderDelivery(cfg, states, trace, |trace|, s, d);
        InOrderForIs(View(), issued, s, d);
      }
      InOrderEverywhereIs(cfg, View(), issued);
    }

    /**
     * graceful_exit: the program may stop once asked to, when no host is active. Then every command has been carried
     * out: between any two hosts, exactly the messages commanded have been printed, in order, if and only if they all
     * fit the header.
     */
    method GracefulExit(requested: bool) returns (exit: bool)
      requires Valid() && phase == AckSwitch && PhaseOver(cfg, View())
      ensures exit <==> requested && forall i :: 0 <= i < cfg.hosts ==> !View().hosts[i].active
      ensures exit ==> CompleteEverywhere(cfg, View(), issued)
    {
      hide *;
      Current();
      ApartHosts();
      exit := false;
      if requested {
        var i := 0;
        while i < cfg.hosts
          invariant 0 <= i <= cfg.hosts
          invariant forall k :: 0 <= k < i ==> !View().hosts[k].active
        {
          ActiveIs(i);
          if hosts[i].active {
            return;
          }
          i := i + 1;
        }
        exit := true;
        Complete();
      }
    }

    lemma Complete()
      requires Valid() && phase == AckSwitch && PhaseOver(cfg, View())
      requires forall i :: 0 <= i < cfg.hosts ==> !View().hosts[i].active
      ensures CompleteEverywhere(cfg, View(), issued)
    {
      hide *;
      Current();
      ExitsIs(cfg, View());
      forall s, d | 0 <= s < cfg.hosts && 0 <= d < cfg.hosts && s != d
        ensures CompleteFor(View(), issued, s, d)
      {
        CommandedIs(trace, s, d);
        assert trace[..|trace|] == trace;
        Delivery.CompleteAtExit(cfg, states, trace, |trace|, s, d);
        CompleteForIs(View(), issued, s, d);
      }
      CompleteEverywhereIs(cfg, View(), issued);
    }

    /**
     * One round of the main loop: the lines typed since the last round are read, the hosts run, and the program stops
     * if it was asked to and may. A message from a host to itself ends the program before anything more is printed.
     * Whatever happened before, what has been printed is in order, and when the program exits it is complete.
     */
    method Round(batch: seq<InputLine>, requested: bool) returns (outcome: Outcome)
      requires Valid() && (phase == Input || (phase == AckSwitch && PhaseOver(cfg, View())))
      modifies this, repr
      ensures Valid() && issued == old(issued) + AllAccepted(cfg, batch)
      ensures InOrderEverywhere(cfg, View(), issued)
      ensures outcome == Aborts <==> exists i :: 0 <= i < |batch| && Fatal(cfg, batch[i])
      ensures if outcome == Aborts then Output() == old(Output()) else phase == AckSwitch && PhaseOver(cfg, View())
      ensures outcome == Exits ==> requested && CompleteEverywhere(cfg, View(), issued)
    {
      hide *;
      Current();
      if phase != Input {
        StartRound();
        Current();
      }
      AllAcceptedNone(cfg, batch);
      var doomed := false;
      for i := 0 to |batch|
        invariant Valid() && Apart() && ValidConfig(cfg) && phase == Input && Output() == old(Output())
        invariant issued == old(issued) + AllAccepted(cfg, batch[..i])
        invariant doomed <==> exists j :: 0 <= j < i && Fatal(cfg, batch[j])
      {
        AllAcceptedMore(cfg, batch, i);
        var fatal := ReadCommand(batch[i]);
        Current();
        doomed := doomed || fatal;
      }
      assert batch[..|batch|] == batch;
      if doomed {
        InOrder();
        return Aborts;
      }
      ApartHosts();
      RunHosts();
      var exit := GracefulExit(requested);
      outcome := if exit then Exits else Continues;
    }
  }
}
