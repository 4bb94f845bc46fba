/** The ARP cache as the two threads change it in place, proved against the functions of ArpModel. */
module ArpCache {
  import opened Common
  import opened ArpModel
  import opened ArpLaws

  lemma {:induction false} LookupPrefix(entries: seq<Entry>, ip: Ip, i: nat)
    requires i < |entries|
    ensures Lookup(entries[..i + 1], ip) ==
            if Matches(entries[i], ip) then Some(entries[i].mac) else Lookup(entries[..i], ip)
  {
    assert entries[..i + 1][..i] == entries[..i];
  }

  lemma {:induction false} FindRequestIs(requests: seq<Request>, ip: Ip, i: nat)
    requires i <= |requests| && forall j :: 0 <= j < i ==> requests[j].ip != ip
    requires i < |requests| ==> requests[i].ip == ip
    ensures FindRequest(requests, ip) == i
  {}

  lemma {:induction false} FindFreeIs(entries: seq<Entry>, i: nat)
    requires i <= |entries| && forall j :: 0 <= j < i ==> entries[j].valid
    requires i < |entries| ==> !entries[i].valid
    ensures FindFree(entries) == i
  {}

  class ArpCache {
    const net: Routes
    const entries: array<Entry>
    var requests: seq<Request>
    ghost var asked: seq<Ip>
    ghost var accepted: seq<Routed>
    ghost var delivered: seq<Delivery>
    ghost var discarded: seq<Routed>

    ghost function View(): Cache
      reads this, entries
    {
      Cache(entries[..], requests, asked, accepted, delivered, discarded)
    }

    /** sr_arpcache_init. */
    constructor (net: Routes)
      ensures this.net == net && fresh(entries) && entries.Length == CACHE_SIZE
      ensures forall i :: 0 <= i < CACHE_SIZE ==> !entries[i].valid
      ensures View() == Cache(entries[..], [], [], [], [], [])
    {
      this.net := net;
      entries := new Entry[CACHE_SIZE](_ => Entry(seq(6, i => 0), 0, 0, false));
      requests, asked, accepted, delivered, discarded := [], [], [], [], [];
    }

    /** sr_arpcache_lookup_nolock: the scan does not stop at the first match. */
    method FindMac(ip: Ip) returns (mac: Option<Mac>)
      ensures mac == Lookup(entries[..], ip)
    {
      hide Lookup;
      mac := None;
      LookupEmpty(ip);
      assert entries[..0] == [];
      for i := 0 to entries.Length
        invariant mac == Lookup(entries[..i], ip)
      {
        LookupPrefix(entries[..], ip, i);
        assert entries[..][..i] == entries[..i] && entries[..][..i + 1] == entries[..i + 1];
        if entries[i].valid && entries[i].ip == ip {
          mac := Some(entries[i].mac);
        }
      }
      assert entries[..entries.Length] == entries[..];
    }

    /** Walk the request list to the first request for the address. */
    method FindPending(ip: Ip) returns (k: nat)
      ensures k == FindRequest(requests, ip)
    {
      k := 0;
      while k < |requests|
        invariant 0 <= k <= |requests| && forall j :: 0 <= j < k ==> requests[j].ip != ip
      {
        if requests[k].ip == ip {
          break;
        }
        k := k + 1;
      }
      FindRequestIs(requests, ip, k);
    }

    /** sr_arpcache_queuereq_nolock. */
    method QueuePacket(ip: Ip, p: Packet)
      modifies this
      ensures View() == QueueRequest(old(View()), ip, p)
    {
      var k := FindPending(ip);
      if k == |requests| {
        requests := [Request(ip, 0, 0, [])] + requests;
        k := 0;
        assert requests[0 := Request(ip, 0, 0, [p])] == [Request(ip, 0, 0, [p])] + old(requests);
        assert [p] + [] == [p];
      }
      var r := requests[k];
      requests := requests[k := r.(packets := [p] + r.packets)];
    }

    /** sr_send_arp_queued_packets: newest packet first. */
    method DeliverPackets(packets: seq<Packet>, ip: Ip, mac: Mac)
      modifies this`delivered
      ensures View() == Deliver(old(View()), packets, ip, mac)
    {
      for i := 0 to |packets|
        invariant delivered == old(delivered) + Addressed(packets[..i], ip, mac)
      {
        assert Addressed(packets[..i + 1], ip, mac)
            == Addressed(packets[..i], ip, mac) + [Delivery(packets[i], ip, mac)];
        delivered := delivered + [Delivery(packets[i], ip, mac)];
      }
      assert packets[..|packets|] == packets;
    }

    /** Take the request for the address off the list and send what it holds. */
    method ReleasePackets(ip: Ip, mac: Mac)
      modifies this
      ensures View() == Release(old(View()), ip, mac)
    {
      var k := FindPending(ip);
      if k < |requests| {
        var r := requests[k];
        requests := RemoveAt(requests, k);
        DeliverPackets(r.packets, ip, mac);
      }
    }

    /** sr_arpcache_insert, then the packets of the request it returns. */
    method InsertEntry(mac: Mac, ip: Ip, now: int)
      modifies this, entries
      ensures View() == Insert(old(View()), mac, ip, now)
      ensures Learned(old(entries[..]), ip, mac, now, entries[..])
    {
      LearnedIs(View(), mac, ip, now);
      var i := 0;
      while i < entries.Length
        invariant 0 <= i <= entries.Length && forall j :: 0 <= j < i ==> entries[j].valid
        invariant View() == old(View())
      {
        if !entries[i].valid {
          break;
        }
        i := i + 1;
      }
      FindFreeIs(entries[..], i);
      if i != entries.Length {
        entries[i] := Entry(mac, ip, now, true);
      }
      ReleasePackets(ip, mac);
    }

    /** sr_send_icmp_host_unreachable. */
    method SendHostUnreachable(p: Packet)
      modifies this
      ensures View() == HostUnreachable(old(View()), net, p)
      ensures asked == old(asked) + if Lookup(entries[..], net.hop(p)).None? then [net.hop(p)] else []
    {
      hide Lookup;
      hide QueueRequest;
      var msg, ip := net.unreachable(p), net.hop(p);
      accepted := accepted + [Routed(msg, ip)];
      var mac := FindMac(ip);
      if mac == None {
        QueueOnly(View(), ip, msg);
        QueuePacket(ip, msg);
        asked := asked + [ip];
      } else {
        delivered := delivered + [Delivery(msg, ip, mac.value)];
      }
    }

    /** Answer every packet of a request that is given up. */
    method GiveUp(packets: seq<Packet>)
      modifies this
      ensures View() == AllUnreachable(old(View()), net, packets)
    {
      hide HostUnreachable;
      var i := 0;
      assert packets[0..] == packets;
      while i < |packets|
        invariant 0 <= i <= |packets|
        invariant AllUnreachable(View(), net, packets[i..]) == AllUnreachable(old(View()), net, packets)
      {
        assert packets[i..][1..] == packets[i + 1..];
        SendHostUnreachable(packets[i]);
        i := i + 1;
      }
    }

    /** sr_arpreq_destroy. */
    method DestroyRequest(k: nat)
      requires k < |requests|
      modifies this`requests, this`discarded
      ensures View() == Destroy(old(View()), k)
    {
      discarded := discarded + Tagged(requests[k].packets, requests[k].ip);
      requests := RemoveAt(requests, k);
    }

    /** sr_arpcache_sweepreqs. */
    method SweepRequests(now: int)
      requires CacheOk(View())
      modifies this
      ensures View() == Sweep(old(View()), net, now, 0) && CacheOk(View())
    {
      hide CacheOk;
      hide AllUnreachable;
      hide Destroy;
      hide Sweep;
      var pos := 0;
      while pos < |requests|
        invariant 0 <= pos <= |requests| && CacheOk(View())
        invariant Sweep(View(), net, now, pos) == Sweep(old(View()), net, now, 0)
        decreases |requests| - pos
      {
        ghost var c := View();
        SweepUnfold(c, net, now, pos);
        RequestAt(c, pos);
        var r := requests[pos];
        if r.sent > 0 && now - r.sent < 1 {
          pos := pos + 1;
        } else if r.timesSent >= 4 {
          var before := |requests|;
          GiveUp(r.packets);
          var at := pos + (|requests| - before);
          DestroyRequest(at);
          pos := at;
        } else {
          requests := requests[pos := r.(timesSent := r.timesSent + 1, sent := now)];
          assert requests[pos].packets != [];
          asked := asked + [r.ip];
          pos := pos + 1;
        }
      }
      SweepUnfold(View(), net, now, pos);
    }

    /** The expiry loop of sr_arpcache_timeout. */
    method ExpireEntries(now: int)
      modifies entries
      ensures entries[..] == Expire(old(entries[..]), now)
      ensures forall i :: 0 <= i < entries.Length ==>
                var e := old(entries[..])[i]; entries[i] == e.(valid := e.valid && now - e.added <= 15)
    {
      for i := 0 to entries.Length
        invariant forall j :: 0 <= j < i ==> entries[j] == Expire(old(entries[..]), now)[j]
        invariant forall j :: i <= j < entries.Length ==> entries[j] == old(entries[..])[j]
      {
        if entries[i].valid && now - entries[i].added > LIFETIME {
          entries[i] := entries[i].(valid := false);
        }
      }
    }

    /** One turn of sr_arpcache_timeout. */
    method TimerTurn(now: int)
      requires CacheOk(View())
      modifies this, entries
      ensures View() == Tick(old(View()), net, now) && CacheOk(View())
    {
      ExpireKeeps(View(), now);
      ExpireEntries(now);
      SweepRequests(now);
    }
  }

  /**
   * The packet thread and the timer thread over one cache. The packet thread gives up the lock between its lookup and
   * what it does next, so its state in between is kept; every locked section is recorded as an event.
   */
  class ArpRouter {
    const cache: ArpCache
    var thread: Thread
    ghost var states: seq<Router>
    ghost var trace: seq<Event>

    ghost function View(): Router
      reads this, cache, cache.entries
    {
      Router(cache.View(), thread)
    }

    /** The record is a run that ends in the present state. */
    ghost predicate Valid()
      reads this, cache, cache.entries
    {
      IsRun(cache.net, states, trace) && states[|trace|] == View()
    }

    constructor (net: Routes)
      ensures Valid() && fresh(cache) && fresh(cache.entries) && trace == [] && cache.net == net
    {
      cache := new ArpCache(net);
      thread := Idle;
      states, trace := [], [];
      new;
      states := [View()];
    }

    lemma Reachable()
      requires Valid()
      ensures CacheOk(View().cache) && ThreadOk(View()) && Balanced(View().cache, Held(View().thread))
    {
      AlwaysOk(cache.net, states, trace, |trace|);
      PacketsConserved(cache.net, states, trace, |trace|);
    }

    ghost method Record(e: Event)
      requires IsRun(cache.net, states, trace) && Enabled(states[|trace|], e)
      requires View() == Apply(states[|trace|], cache.net, e)
      modifies this`states, this`trace
      ensures Valid() && trace == old(trace) + [e]
    {
      hide Apply;
      hide IsInit;
      states := states + [View()];
      trace := trace + [e];
    }

    /** sr_forward_packet up to the lookup of the next hop: on a hit the packet goes out at once. */
    method BeginForward(ip: Ip, p: Packet)
      requires Valid() && thread.Idle?
      modifies this, cache
      ensures Valid() && trace == old(trace) + [Forward(ip, p)]
    {
      hide Lookup;
      cache.accepted := cache.accepted + [Routed(p, ip)];
      var mac := cache.FindMac(ip);
      if mac == None {
        thread := Missed(ip, p);
      } else {
        cache.delivered := cache.delivered + [Delivery(p, ip, mac.value)];
      }
      Record(Forward(ip, p));
    }

    /** The rest of sr_forward_packet after a miss. */
    method FinishForward()
      requires Valid() && thread.Missed?
      modifies this, cache
      ensures Valid() && trace == old(trace) + [Queue]
      ensures cache.asked == old(cache.asked) + [old(thread).ip] && cache.delivered == old(cache.delivered)
    {
      hide QueueRequest;
      QueueOnly(cache.View(), thread.ip, thread.packet);
      cache.QueuePacket(thread.ip, thread.packet);
      cache.asked := cache.asked + [thread.ip];
      thread := Idle;
      Record(Queue);
    }

    /** sr_handle_arp_reply up to its lookup. */
    method BeginReply(ip: Ip, mac: Mac)
      requires Valid() && thread.Idle?
      modifies this
      ensures Valid() && trace == old(trace) + [Reply(ip, mac)]
    {
      hide Lookup;
      var entry := cache.FindMac(ip);
      thread := if entry == None then Unknown(ip, mac) else Known(ip, mac);
      Record(Reply(ip, mac));
    }

    /** The rest of sr_handle_arp_reply: insert and deliver, or only deliver if the sender was known. */
    method FinishReply(now: int)
      requires Valid() && (thread.Unknown? || thread.Known?)
      modifies this, cache, cache.entries
      ensures Valid() && trace == old(trace) + [if old(thread).Unknown? then Add(now) else Flush]
    {
      hide Insert;
      hide Release;
      if thread.Unknown? {
        cache.InsertEntry(thread.mac, thread.ip, now);
        thread := Idle;
        Record(Add(now));
      } else {
        cache.ReleasePackets(thread.ip, thread.mac);
        thread := Idle;
        Record(Flush);
      }
    }

    /** The timer thread gets the lock, at any point of the packet thread's work. */
    method Timer(now: int)
      requires Valid()
      modifies this, cache, cache.entries
      ensures Valid() && trace == old(trace) + [TimerTick(now)] && thread == old(thread)
    {
      hide Tick;
      hide CacheOk;
      hide Balanced;
      Reachable();
      cache.TimerTurn(now);
      Record(TimerTick(now));
    }
  }

  lemma LookupEmpty(ip: Ip)
    ensures Lookup([], ip) == None
  {}

  lemma RequestAt(c: Cache, pos: nat)
    requires CacheOk(c) && pos < |c.requests|
    ensures c.requests[pos].packets != []
  {
    hide EntriesOk;
    assert RequestOk(c.requests[pos]);
  }
}
