/**
 * The ARP cache and its request queue as values: what each locked section does, and the two threads that interleave
 * them. The class of module ArpCache is proved against these functions.
 */
module ArpModel {
  import opened Common

  const CACHE_SIZE: nat := 100
  const LIFETIME := 15
  const MAX_TRIES := 4

  type Ip = x: int | 0 <= x < 0x1_0000_0000
  type Mac = s: seq<uint8> | |s| == 6 witness seq(6, i => 0)

  datatype Packet = Packet(bytes: seq<uint8>, iface: seq<char>)

  datatype Entry = Entry(mac: Mac, ip: Ip, added: int, valid: bool)

  /** `sent` is 0 for a request the timer has not sent yet; the newest packet comes first. */
  datatype Request = Request(ip: Ip, sent: int, timesSent: nat, packets: seq<Packet>)

  /** A packet and its next hop. */
  datatype Routed = Routed(packet: Packet, hop: Ip)

  /** A packet that left for its next hop, under the MAC address it was given. */
  datatype Delivery = Delivery(packet: Packet, hop: Ip, mac: Mac)

  /**
   * The shared state and what has happened to packets: `accepted` were taken over for delivery, `delivered` went out
   * to a MAC address, `discarded` were freed with their request; `asked` are the ARP requests broadcast.
   */
  datatype Cache = Cache(entries: seq<Entry>, requests: seq<Request>, asked: seq<Ip>,
                         accepted: seq<Routed>, delivered: seq<Delivery>, discarded: seq<Routed>)

  /** For a packet: the host unreachable message it causes, and the next hop of the route back to its source. */
  datatype Routes = Routes(unreachable: Packet -> Packet, hop: Packet -> Ip)

  // ---------- the locked sections ----------

  predicate Matches(e: Entry, ip: Ip) {
    e.valid && e.ip == ip
  }

  /** sr_arpcache_lookup: the last valid entry for the address. */
  function Lookup(entries: seq<Entry>, ip: Ip): Option<Mac> {
    if entries == [] then None
    else if Matches(entries[|entries| - 1], ip) then Some(entries[|entries| - 1].mac)
    else Lookup(entries[..|entries| - 1], ip)
  }

  /** Index of the first request for the address, or the number of requests. */
  function FindRequest(requests: seq<Request>, ip: Ip): (k: nat)
    ensures k <= |requests|
    ensures k < |requests| ==> requests[k].ip == ip
    ensures forall i :: 0 <= i < k ==> requests[i].ip != ip
  {
    if requests == [] || requests[0].ip == ip then 0 else 1 + FindRequest(requests[1..], ip)
  }

  /** sr_arpcache_queuereq with a packet: both lists grow at the front. */
  function QueueRequest(c: Cache, ip: Ip, p: Packet): Cache {
    var k := FindRequest(c.requests, ip);
    if k < |c.requests| then
      var r := c.requests[k];
      c.(requests := c.requests[k := r.(packets := [p] + r.packets)])
    else
      c.(requests := [Request(ip, 0, 0, [p])] + c.requests)
  }

  lemma QueueOnly(c: Cache, ip: Ip, p: Packet)
    ensures QueueRequest(c, ip, p) == c.(requests := QueueRequest(c, ip, p).requests)
  {}

  /** Index of the first free slot, or the number of slots. */
  function FindFree(entries: seq<Entry>): (k: nat)
    ensures k <= |entries|
    ensures k < |entries| ==> !entries[k].valid
    ensures forall i :: 0 <= i < k ==> entries[i].valid
  {
    if entries == [] || !entries[0].valid then 0 else 1 + FindFree(entries[1..])
  }

  /** sr_send_arp_queued_packets. */
  function Deliver(c: Cache, packets: seq<Packet>, ip: Ip, mac: Mac): Cache {
    c.(delivered := c.delivered + Addressed(packets, ip, mac))
  }

  function Addressed(packets: seq<Packet>, ip: Ip, mac: Mac): (s: seq<Delivery>)
    ensures |s| == |packets| && forall i :: 0 <= i < |s| ==> s[i] == Delivery(packets[i], ip, mac)
  {
    seq(|packets|, i requires 0 <= i < |packets| => Delivery(packets[i], ip, mac))
  }

  function Tagged(packets: seq<Packet>, ip: Ip): (s: seq<Routed>)
    ensures |s| == |packets| && forall i :: 0 <= i < |s| ==> s[i] == Routed(packets[i], ip)
  {
    seq(|packets|, i requires 0 <= i < |packets| => Routed(packets[i], ip))
  }

  /** Take the request for the address off the queue and deliver its packets. */
  function Release(c: Cache, ip: Ip, mac: Mac): Cache {
    var k := FindRequest(c.requests, ip);
    if k < |c.requests| then Deliver(c.(requests := RemoveAt(c.requests, k)), c.requests[k].packets, ip, mac) else c
  }

  /** sr_arpcache_insert, and the delivery of what was waiting. A full table takes no entry. */
  function Insert(c: Cache, mac: Mac, ip: Ip, now: int): Cache {
    var k := FindFree(c.entries);
    var c1 := if k < |c.entries| then c.(entries := c.entries[k := Entry(mac, ip, now, true)]) else c;
    Release(c1, ip, mac)
  }

  /** sr_send_icmp_host_unreachable. */
  function HostUnreachable(c: Cache, net: Routes, p: Packet): Cache {
    var msg, ip := net.unreachable(p), net.hop(p);
    var c1 := c.(accepted := c.accepted + [Routed(msg, ip)]);
    match Lookup(c.entries, ip)
    case Some(mac) => c1.(delivered := c1.delivered + [Delivery(msg, ip, mac)])
    case None => var c2 := QueueRequest(c1, ip, msg); c2.(asked := c2.asked + [ip])
  }

  function AllUnreachable(c: Cache, net: Routes, packets: seq<Packet>): Cache
    decreases |packets|
  {
    if packets == [] then c else AllUnreachable(HostUnreachable(c, net, packets[0]), net, packets[1..])
  }

  /** sr_arpreq_destroy of the request at index k. */
  function Destroy(c: Cache, k: nat): Cache
    requires k < |c.requests|
  {
    c.(requests := RemoveAt(c.requests, k), discarded := c.discarded + Tagged(c.requests[k].packets, c.requests[k].ip))
  }

  lemma {:induction false} UnreachableGrows(c: Cache, net: Routes, packets: seq<Packet>)
    ensures |AllUnreachable(c, net, packets).requests| >= |c.requests|
    decreases |packets|
  {
    if packets != [] {
      UnreachableGrows(HostUnreachable(c, net, packets[0]), net, packets[1..]);
    }
  }

  /**
   * sr_arpcache_sweepreqs from position `pos` on. Requests queued meanwhile are in front of the position and are not
   * visited; a request that gets one more packet while it is being given up keeps its place until it is destroyed.
   */
  function Sweep(c: Cache, net: Routes, now: int, pos: nat): Cache
    decreases |c.requests| - pos
  {
    if pos >= |c.requests| then c
    else
      var r := c.requests[pos];
      if r.sent > 0 && now - r.sent < 1 then Sweep(c, net, now, pos + 1)
      else if r.timesSent >= MAX_TRIES then
        var c1 := AllUnreachable(c, net, r.packets);
        UnreachableGrows(c, net, r.packets);
        var at := pos + (|c1.requests| - |c.requests|);
        Sweep(Destroy(c1, at), net, now, at)
      else
        var c1 := c.(requests := c.requests[pos := r.(timesSent := r.timesSent + 1, sent := now)],
                     asked := c.asked + [r.ip]);
        Sweep(c1, net, now, pos + 1)
  }

  predicate TooOld(e: Entry, now: int) {
    e.valid && now - e.added > LIFETIME
  }

  function Expire(entries: seq<Entry>, now: int): (r: seq<Entry>)
    ensures |r| == |entries|
  {
    seq(|entries|, i requires 0 <= i < |entries| =>
      if TooOld(entries[i], now) then entries[i].(valid := false) else entries[i])
  }

  /** One turn of the timer thread, all under the lock. */
  function Tick(c: Cache, net: Routes, now: int): Cache {
    Sweep(c.(entries := Expire(c.entries, now)), net, now, 0)
  }

  // ---------- the two threads ----------

  /** Where the packet thread stands between two locked sections. */
  datatype Thread =
    | Idle
    | Missed(ip: Ip, packet: Packet)
    | Unknown(ip: Ip, mac: Mac)
    | Known(ip: Ip, mac: Mac)

  datatype Router = Router(cache: Cache, thread: Thread)

  /**
   * Forward and Reply are the lookups at the beginning of sr_forward_packet and sr_handle_arp_reply; Queue, Add and
   * Flush are what follows a miss, an unknown sender, or a known one; TimerTick may come in between.
   */
  datatype Event =
    | Forward(ip: Ip, packet: Packet)
    | Queue
    | Reply(ip: Ip, mac: Mac)
    | Add(now: int)
    | Flush
    | TimerTick(now: int)

  predicate Enabled(s: Router, e: Event) {
    match e
    case Forward(_, _) => s.thread.Idle?
    case Queue => s.thread.Missed?
    case Reply(_, _) => s.thread.Idle?
    case Add(_) => s.thread.Unknown?
    case Flush => s.thread.Known?
    case TimerTick(_) => true
  }

  function Apply(s: Router, net: Routes, e: Event): Router
    requires Enabled(s, e)
  {
    var c := s.cache;
    match e
    case Forward(ip, p) =>
      var c1 := c.(accepted := c.accepted + [Routed(p, ip)]);
      (match Lookup(c.entries, ip)
       case Some(mac) => Router(c1.(delivered := c1.delivered + [Delivery(p, ip, mac)]), Idle)
       case None => Router(c1, Missed(ip, p)))
    case Queue =>
      var c1 := QueueRequest(c, s.thread.ip, s.thread.packet);
      Router(c1.(asked := c1.asked + [s.thread.ip]), Idle)
    case Reply(ip, mac) =>
      Router(c, if Lookup(c.entries, ip).None? then Unknown(ip, mac) else Known(ip, mac))
    case Add(now) => Router(Insert(c, s.thread.mac, s.thread.ip, now), Idle)
    case Flush => Router(Release(c, s.thread.ip, s.thread.mac), Idle)
    case TimerTick(now) => Router(Tick(c, net, now), s.thread)
  }

  /** sr_arpcache_init: every entry invalid, no requests. */
  ghost predicate IsInit(s: Router) {
    && |s.cache.entries| == CACHE_SIZE && (forall i :: 0 <= i < CACHE_SIZE ==> !s.cache.entries[i].valid)
    && s.cache.requests == [] && s.cache.asked == [] && s.cache.accepted == [] && s.cache.delivered == []
    && s.cache.discarded == [] && s.thread == Idle
  }

  /** A run: any interleaving of the packet thread's sections with timer ticks. */
  ghost predicate IsRun(net: Routes, states: seq<Router>, trace: seq<Event>) {
    && |states| == |trace| + 1 && IsInit(states[0])
    && forall k :: 0 <= k < |trace| ==> Enabled(states[k], trace[k]) && states[k + 1] == Apply(states[k], net, trace[k])
  }

  // ---------- the invariant ----------

  ghost predicate EntriesOk(entries: seq<Entry>) {
    && |entries| == CACHE_SIZE
    && forall i, j :: 0 <= i < j < |entries| && entries[i].valid && entries[j].valid ==> entries[i].ip != entries[j].ip
  }

  ghost predicate RequestOk(r: Request) {
    r.packets != [] && r.timesSent <= MAX_TRIES
  }

  ghost predicate RequestsOk(requests: seq<Request>) {
    && (forall i :: 0 <= i < |requests| ==> RequestOk(requests[i]))
    && forall i, j :: 0 <= i < j < |requests| ==> requests[i].ip != requests[j].ip
  }

  /** No address is both answered and asked for. */
  ghost predicate NotBoth(entries: seq<Entry>, requests: seq<Request>) {
    forall i, k :: 0 <= i < |entries| && 0 <= k < |requests| && entries[i].valid ==> entries[i].ip != requests[k].ip
  }

  ghost predicate CacheOk(c: Cache) {
    EntriesOk(c.entries) && RequestsOk(c.requests) && NotBoth(c.entries, c.requests)
  }

  ghost predicate NoEntry(entries: seq<Entry>, ip: Ip) {
    forall i :: 0 <= i < |entries| ==> !Matches(entries[i], ip)
  }

  /** What the packet thread saw missing is still missing, whatever the timer did meanwhile. */
  ghost predicate ThreadOk(s: Router) {
    match s.thread
    case Missed(ip, _) => NoEntry(s.cache.entries, ip)
    case Unknown(ip, _) => NoEntry(s.cache.entries, ip)
    case _ => true
  }

  lemma {:induction false} LookupNone(entries: seq<Entry>, ip: Ip)
    ensures Lookup(entries, ip).None? <==> NoEntry(entries, ip)
  {
    if entries != [] {
      var n := |entries| - 1;
      LookupNone(entries[..n], ip);
      if NoEntry(entries[..n], ip) && !Matches(entries[n], ip) {
        assert forall i :: 0 <= i < n ==> entries[i] == entries[..n][i];
      }
      if NoEntry(entries, ip) {
        assert forall i :: 0 <= i < n ==> entries[..n][i] == entries[i];
      }
    }
  }

  lemma QueueKeeps(c: Cache, ip: Ip, p: Packet)
    requires CacheOk(c) && NoEntry(c.entries, ip)
    ensures CacheOk(QueueRequest(c, ip, p)) && QueueRequest(c, ip, p).entries == c.entries
  {
    hide EntriesOk;
    var k := FindRequest(c.requests, ip);
    var r := QueueRequest(c, ip, p).requests;
    if k < |c.requests| {
      assert forall i :: 0 <= i < |r| ==> r[i].ip == c.requests[i].ip;
      assert RequestOk(c.requests[k]);
    } else {
      assert forall i :: 0 < i < |r| ==> r[i] == c.requests[i - 1];
    }
  }

  lemma RemoveKeeps(c: Cache, k: nat)
    requires CacheOk(c) && k < |c.requests|
    ensures CacheOk(c.(requests := RemoveAt(c.requests, k)))
    ensures forall i :: 0 <= i < |c.requests| - 1 ==> RemoveAt(c.requests, k)[i].ip != c.requests[k].ip
  {
    hide EntriesOk;
    var r := RemoveAt(c.requests, k);
    assert forall i :: 0 <= i < |r| ==> r[i] == c.requests[if i < k then i else i + 1];
  }

  lemma ReleaseKeeps(c: Cache, ip: Ip, mac: Mac)
    requires CacheOk(c)
    ensures CacheOk(Release(c, ip, mac)) && Release(c, ip, mac).entries == c.entries
    ensures forall i :: 0 <= i < |Release(c, ip, mac).requests| ==> Release(c, ip, mac).requests[i].ip != ip
  {
    hide CacheOk;
    var k := FindRequest(c.requests, ip);
    if k < |c.requests| {
      RemoveKeeps(c, k);
      CacheSame(c.(requests := RemoveAt(c.requests, k)), Release(c, ip, mac));
    }
  }

  lemma CacheSame(c: Cache, c': Cache)
    requires CacheOk(c) && c'.entries == c.entries && c'.requests == c.requests
    ensures CacheOk(c')
  {}

  lemma InsertKeeps(c: Cache, mac: Mac, ip: Ip, now: int)
    requires CacheOk(c) && NoEntry(c.entries, ip)
    ensures CacheOk(Insert(c, mac, ip, now))
  {
    hide RequestsOk;
    ReleaseKeeps(c, ip, mac);
    var k := FindFree(c.entries);
    if k < |c.entries| {
      var e := Entry(mac, ip, now, true);
      var r := Release(c, ip, mac);
      InsertRelease(c, k, e, ip, mac);
      assert Insert(c, mac, ip, now) == r.(entries := c.entries[k := e]);
    }
  }

  /** Filling a slot and releasing a request do not depend on each other. */
  lemma InsertRelease(c: Cache, k: nat, e: Entry, ip: Ip, mac: Mac)
    requires k < |c.entries|
    ensures Release(c.(entries := c.entries[k := e]), ip, mac) == Release(c, ip, mac).(entries := c.entries[k := e])
  {}

  lemma UnreachableKeeps(c: Cache, net: Routes, p: Packet)
    requires CacheOk(c)
    ensures CacheOk(HostUnreachable(c, net, p)) && HostUnreachable(c, net, p).entries == c.entries
  {
    hide CacheOk;
    LookupNone(c.entries, net.hop(p));
    var c1 := c.(accepted := c.accepted + [Routed(net.unreachable(p), net.hop(p))]);
    CacheSame(c, c1);
    if Lookup(c.entries, net.hop(p)).None? {
      QueueKeeps(c1, net.hop(p), net.unreachable(p));
      CacheSame(QueueRequest(c1, net.hop(p), net.unreachable(p)), HostUnreachable(c, net, p));
    } else {
      CacheSame(c, HostUnreachable(c, net, p));
    }
  }

  lemma {:induction false} AllUnreachableKeeps(c: Cache, net: Routes, packets: seq<Packet>)
    requires CacheOk(c)
    ensures CacheOk(AllUnreachable(c, net, packets)) && AllUnreachable(c, net, packets).entries == c.entries
    decreases |packets|
  {
    hide CacheOk;
    if packets != [] {
      UnreachableKeeps(c, net, packets[0]);
      AllUnreachableKeeps(HostUnreachable(c, net, packets[0]), net, packets[1..]);
    }
  }

  lemma RetryKeeps(c: Cache, now: int, pos: nat)
    requires CacheOk(c) && pos < |c.requests| && c.requests[pos].timesSent < MAX_TRIES
    ensures var r := c.requests[pos];
            CacheOk(c.(requests := c.requests[pos := r.(timesSent := r.timesSent + 1, sent := now)],
                       asked := c.asked + [r.ip]))
  {
    hide EntriesOk;
    assert RequestOk(c.requests[pos]);
  }

  lemma {:induction false} SweepKeeps(c: Cache, net: Routes, now: int, pos: nat)
    requires CacheOk(c)
    ensures CacheOk(Sweep(c, net, now, pos)) && Sweep(c, net, now, pos).entries == c.entries
    decreases |c.requests| - pos
  {
    hide CacheOk;
    if pos < |c.requests| {
      var r := c.requests[pos];
      if r.sent > 0 && now - r.sent < 1 {
        SweepKeeps(c, net, now, pos + 1);
      } else if r.timesSent >= MAX_TRIES {
        var c1 := AllUnreachable(c, net, r.packets);
        UnreachableGrows(c, net, r.packets);
        AllUnreachableKeeps(c, net, r.packets);
        var at := pos + (|c1.requests| - |c.requests|);
        RemoveKeeps(c1, at);
        CacheSame(c1.(requests := RemoveAt(c1.requests, at)), Destroy(c1, at));
        SweepKeeps(Destroy(c1, at), net, now, at);
      } else {
        RetryKeeps(c, now, pos);
        SweepKeeps(c.(requests := c.requests[pos := r.(timesSent := r.timesSent + 1, sent := now)],
                      asked := c.asked + [r.ip]), net, now, pos + 1);
      }
    }
  }

  /** One round of the sweep. */
  lemma SweepUnfold(c: Cache, net: Routes, now: int, pos: nat)
    requires CacheOk(c)
    ensures pos >= |c.requests| ==> Sweep(c, net, now, pos) == c
    ensures pos < |c.requests| ==>
              var r := c.requests[pos];
              if r.sent > 0 && now - r.sent < 1 then Sweep(c, net, now, pos) == Sweep(c, net, now, pos + 1)
              else if r.timesSent >= 4 then
                var c1 := AllUnreachable(c, net, r.packets);
                var at := pos + (|c1.requests| - |c.requests|);
                && |c1.requests| >= |c.requests| && CacheOk(Destroy(c1, at))
                && |Destroy(c1, at).requests| == |c1.requests| - 1
                && Sweep(c, net, now, pos) == Sweep(Destroy(c1, at), net, now, at)
              else
                var c1 := c.(requests := c.requests[pos := r.(timesSent := r.timesSent + 1, sent := now)],
                             asked := c.asked + [r.ip]);
                CacheOk(c1) && Sweep(c, net, now, pos) == Sweep(c1, net, now, pos + 1)
  {
    hide CacheOk;
    hide AllUnreachable;
    if pos < |c.requests| {
      var r := c.requests[pos];
      if r.timesSent >= 4 {
        var c1 := AllUnreachable(c, net, r.packets);
        UnreachableGrows(c, net, r.packets);
        AllUnreachableKeeps(c, net, r.packets);
        var at := pos + (|c1.requests| - |c.requests|);
        RemoveKeeps(c1, at);
        CacheSame(c1.(requests := RemoveAt(c1.requests, at)), Destroy(c1, at));
      } else {
        RetryKeeps(c, now, pos);
      }
    }
  }

  lemma ExpireKeeps(c: Cache, now: int)
    requires CacheOk(c)
    ensures CacheOk(c.(entries := Expire(c.entries, now)))
    ensures forall ip :: NoEntry(c.entries, ip) ==> NoEntry(Expire(c.entries, now), ip)
  {
    hide RequestsOk;
    var e := Expire(c.entries, now);
    assert forall i :: 0 <= i < |e| ==> e[i].ip == c.entries[i].ip && (e[i].valid ==> c.entries[i].valid);
  }

  lemma StepKeeps(s: Router, net: Routes, e: Event)
    requires CacheOk(s.cache) && ThreadOk(s) && Enabled(s, e)
    ensures CacheOk(Apply(s, net, e).cache) && ThreadOk(Apply(s, net, e))
  {
    hide CacheOk;
    hide NoEntry;
    var c, r := s.cache, Apply(s, net, e).cache;
    match e {
      case Forward(ip, _) =>
        LookupNone(c.entries, ip);
        CacheSame(c, r);
      case Queue =>
        QueueKeeps(c, s.thread.ip, s.thread.packet);
        CacheSame(QueueRequest(c, s.thread.ip, s.thread.packet), r);
      case Reply(ip, _) =>
        LookupNone(c.entries, ip);
      case Add(now) =>
        InsertKeeps(c, s.thread.mac, s.thread.ip, now);
      case Flush =>
        ReleaseKeeps(c, s.thread.ip, s.thread.mac);
      case TimerTick(now) =>
        ExpireKeeps(c, now);
        SweepKeeps(c.(entries := Expire(c.entries, now)), net, now, 0);
    }
  }

  /**
   * In every interleaving: no address has two valid entries, two requests, or both an entry and a request; every
   * request holds a packet, so the assertion in the sweep cannot fail; and no request is retried more than four times.
   */
  lemma {:induction false} AlwaysOk(net: Routes, states: seq<Router>, trace: seq<Event>, k: nat)
    requires IsRun(net, states, trace) && k <= |trace|
    ensures |states| == |trace| + 1 && CacheOk(states[k].cache) && ThreadOk(states[k])
  {
    if k > 0 {
      AlwaysOk(net, states, trace, k - 1);
      StepKeeps(states[k - 1], net, trace[k - 1]);
    }
  }

  // ---------- conservation ----------

  /** Every packet that waits in some request, for the address of that request. */
  function Waiting(requests: seq<Request>): seq<Routed> {
    if requests == [] then [] else Tagged(requests[0].packets, requests[0].ip) + Waiting(requests[1..])
  }

  function Sent(delivered: seq<Delivery>): (s: seq<Routed>)
    ensures |s| == |delivered| && forall i :: 0 <= i < |s| ==> s[i] == Routed(delivered[i].packet, delivered[i].hop)
  {
    seq(|delivered|, i requires 0 <= i < |delivered| => Routed(delivered[i].packet, delivered[i].hop))
  }

  /**
   * What was accepted is delivered, waiting, discarded, or in the packet thread's hands; each packet once, for one hop.
   */
  ghost predicate Balanced(c: Cache, held: multiset<Routed>) {
    multiset(c.accepted) == multiset(Waiting(c.requests)) + multiset(Sent(c.delivered)) + multiset(c.discarded) + held
  }

  ghost function Held(t: Thread): multiset<Routed> {
    if t.Missed? then multiset{Routed(t.packet, t.ip)} else multiset{}
  }

  lemma {:induction false} WaitingAt(requests: seq<Request>, k: nat)
    requires k < |requests|
    ensures multiset(Waiting(requests)) ==
            multiset(Tagged(requests[k].packets, requests[k].ip)) + multiset(Waiting(RemoveAt(requests, k)))
  {
    if k == 0 {
      assert RemoveAt(requests, 0) == requests[1..];
    } else {
      WaitingAt(requests[1..], k - 1);
      assert RemoveAt(requests, k)[1..] == RemoveAt(requests[1..], k - 1);
      assert RemoveAt(requests, k)[0] == requests[0];
    }
  }

  lemma WaitingUpdate(requests: seq<Request>, k: nat, r: Request)
    requires k < |requests|
    ensures multiset(Waiting(requests[k := r])) + multiset(Tagged(requests[k].packets, requests[k].ip)) ==
            multiset(Waiting(requests)) + multiset(Tagged(r.packets, r.ip))
  {
    hide Waiting;
    WaitingAt(requests, k);
    WaitingAt(requests[k := r], k);
    assert RemoveAt(requests[k := r], k) == RemoveAt(requests, k);
  }

  lemma Cancel(a: multiset<Routed>, b: multiset<Routed>, x: multiset<Routed>)
    requires a + x == b + x
    ensures a == b
  {
    forall e ensures a[e] == b[e] {
      assert (a + x)[e] == (b + x)[e];
    }
  }

  /** Changing one request changes what waits by what that request gains. */
  lemma WaitingGains(requests: seq<Request>, k: nat, r: Request, gain: multiset<Routed>)
    requires k < |requests|
    requires multiset(Tagged(r.packets, r.ip)) == multiset(Tagged(requests[k].packets, requests[k].ip)) + gain
    ensures multiset(Waiting(requests[k := r])) == multiset(Waiting(requests)) + gain
  {
    hide Waiting;
    WaitingUpdate(requests, k, r);
    Cancel(multiset(Waiting(requests[k := r])), multiset(Waiting(requests)) + gain,
           multiset(Tagged(requests[k].packets, requests[k].ip)));
  }

  lemma QueueBalance(c: Cache, ip: Ip, p: Packet, held: multiset<Routed>)
    requires Balanced(c, held + multiset{Routed(p, ip)})
    ensures Balanced(QueueRequest(c, ip, p), held)
  {
    hide Sent;
    hide Waiting;
    QueueWaiting(c, ip, p);
  }

  lemma QueueWaiting(c: Cache, ip: Ip, p: Packet)
    ensures multiset(Waiting(QueueRequest(c, ip, p).requests)) ==
            multiset(Waiting(c.requests)) + multiset{Routed(p, ip)}
  {
    var k := FindRequest(c.requests, ip);
    var q := QueueRequest(c, ip, p);
    if k < |c.requests| {
      hide Waiting;
      assert Tagged([p] + c.requests[k].packets, ip) == [Routed(p, ip)] + Tagged(c.requests[k].packets, ip);
      WaitingGains(c.requests, k, q.requests[k], multiset{Routed(p, ip)});
    } else {
      assert q.requests[1..] == c.requests;
      assert Tagged([p], ip) == [Routed(p, ip)];
      assert Waiting(q.requests) == [Routed(p, ip)] + Waiting(c.requests);
    }
  }

  lemma SentAppend(d: seq<Delivery>, e: seq<Delivery>)
    ensures Sent(d + e) == Sent(d) + Sent(e)
  {}

  lemma SentAddressed(packets: seq<Packet>, ip: Ip, mac: Mac)
    ensures Sent(Addressed(packets, ip, mac)) == Tagged(packets, ip)
  {}

  lemma SendBalance(c: Cache, p: Packet, ip: Ip, mac: Mac, held: multiset<Routed>)
    requires Balanced(c, held + multiset{Routed(p, ip)})
    ensures Balanced(c.(delivered := c.delivered + [Delivery(p, ip, mac)]), held)
  {
    SentAppend(c.delivered, [Delivery(p, ip, mac)]);
    assert Sent([Delivery(p, ip, mac)]) == [Routed(p, ip)];
  }

  lemma ReleaseBalance(c: Cache, ip: Ip, mac: Mac, held: multiset<Routed>)
    requires Balanced(c, held)
    ensures Balanced(Release(c, ip, mac), held)
  {
    hide Waiting;
    hide Sent;
    var k := FindRequest(c.requests, ip);
    if k < |c.requests| {
      var packets := c.requests[k].packets;
      WaitingAt(c.requests, k);
      SentAppend(c.delivered, Addressed(packets, ip, mac));
      SentAddressed(packets, ip, mac);
    }
  }

  lemma DestroyBalance(c: Cache, k: nat, held: multiset<Routed>)
    requires k < |c.requests| && Balanced(c, held)
    ensures Balanced(Destroy(c, k), held)
  {
    hide Waiting;
    hide Sent;
    WaitingAt(c.requests, k);
  }

  lemma AcceptBalance(c: Cache, p: Routed, held: multiset<Routed>)
    requires Balanced(c, held)
    ensures Balanced(c.(accepted := c.accepted + [p]), held + multiset{p})
  {
    hide Waiting;
    hide Sent;
  }

  lemma UnreachableBalance(c: Cache, net: Routes, p: Packet, held: multiset<Routed>)
    requires Balanced(c, held)
    ensures Balanced(HostUnreachable(c, net, p), held)
  {
    var msg, ip := net.unreachable(p), net.hop(p);
    var c1 := c.(accepted := c.accepted + [Routed(msg, ip)]);
    AcceptBalance(c, Routed(msg, ip), held);
    match Lookup(c.entries, ip) {
      case Some(mac) => SendBalance(c1, msg, ip, mac, held);
      case None => QueueBalance(c1, ip, msg, held);
    }
  }

  lemma {:induction false} AllUnreachableBalance(c: Cache, net: Routes, packets: seq<Packet>, held: multiset<Routed>)
    requires Balanced(c, held)
    ensures Balanced(AllUnreachable(c, net, packets), held)
    decreases |packets|
  {
    if packets != [] {
      UnreachableBalance(c, net, packets[0], held);
      AllUnreachableBalance(HostUnreachable(c, net, packets[0]), net, packets[1..], held);
    }
  }

  lemma RetryBalance(c: Cache, now: int, pos: nat, held: multiset<Routed>)
    requires Balanced(c, held) && pos < |c.requests|
    ensures var r := c.requests[pos];
            Balanced(c.(requests := c.requests[pos := r.(timesSent := r.timesSent + 1, sent := now)],
                        asked := c.asked + [r.ip]), held)
  {
    hide Waiting;
    hide Sent;
    var r := c.requests[pos];
    WaitingGains(c.requests, pos, r.(timesSent := r.timesSent + 1, sent := now), multiset{});
  }

  lemma {:induction false} SweepBalance(c: Cache, net: Routes, now: int, pos: nat, held: multiset<Routed>)
    requires Balanced(c, held)
    ensures Balanced(Sweep(c, net, now, pos), held)
    decreases |c.requests| - pos
  {
    hide Balanced;
    if pos < |c.requests| {
      var r := c.requests[pos];
      if r.sent > 0 && now - r.sent < 1 {
        SweepBalance(c, net, now, pos + 1, held);
      } else if r.timesSent >= MAX_TRIES {
        var c1 := AllUnreachable(c, net, r.packets);
        UnreachableGrows(c, net, r.packets);
        AllUnreachableBalance(c, net, r.packets, held);
        var at := pos + (|c1.requests| - |c.requests|);
        DestroyBalance(c1, at, held);
        SweepBalance(Destroy(c1, at), net, now, at, held);
      } else {
        RetryBalance(c, now, pos, held);
        SweepBalance(c.(requests := c.requests[pos := r.(timesSent := r.timesSent + 1, sent := now)],
                        asked := c.asked + [r.ip]), net, now, pos + 1, held);
      }
    }
  }

  lemma BalanceSame(c: Cache, c': Cache, held: multiset<Routed>)
    requires Balanced(c, held)
    requires c'.accepted == c.accepted && c'.requests == c.requests && c'.delivered == c.delivered
    requires c'.discarded == c.discarded
    ensures Balanced(c', held)
  {}

  lemma StepBalance(s: Router, net: Routes, e: Event)
    requires Balanced(s.cache, Held(s.thread)) && Enabled(s, e)
    ensures Balanced(Apply(s, net, e).cache, Held(Apply(s, net, e).thread))
  {
    hide Balanced;
    var c, held, r := s.cache, Held(s.thread), Apply(s, net, e).cache;
    match e {
      case Forward(ip, p) =>
        AcceptBalance(c, Routed(p, ip), held);
        match Lookup(c.entries, ip) {
          case Some(mac) => SendBalance(c.(accepted := c.accepted + [Routed(p, ip)]), p, ip, mac, held);
          case None => assert held + multiset{Routed(p, ip)} == multiset{Routed(p, ip)};
        }
      case Queue =>
        assert multiset{} + multiset{Routed(s.thread.packet, s.thread.ip)} == held;
        QueueBalance(c, s.thread.ip, s.thread.packet, multiset{});
        BalanceSame(QueueRequest(c, s.thread.ip, s.thread.packet), r, multiset{});
      case Reply(_, _) =>
      case Add(now) =>
        var k := FindFree(c.entries);
        var entry := Entry(s.thread.mac, s.thread.ip, now, true);
        var c1 := if k < |c.entries| then c.(entries := c.entries[k := entry]) else c;
        BalanceSame(c, c1, held);
        ReleaseBalance(c1, s.thread.ip, s.thread.mac, held);
      case Flush =>
        ReleaseBalance(c, s.thread.ip, s.thread.mac, held);
      case TimerTick(now) =>
        BalanceSame(c, c.(entries := Expire(c.entries, now)), held);
        SweepBalance(c.(entries := Expire(c.entries, now)), net, now, 0, held);
    }
  }

  /** No packet is lost or duplicated in any interleaving. */
  lemma {:induction false} PacketsConserved(net: Routes, states: seq<Router>, trace: seq<Event>, k: nat)
    requires IsRun(net, states, trace) && k <= |trace|
    ensures |states| == |trace| + 1 && Balanced(states[k].cache, Held(states[k].thread))
  {
    if k > 0 {
      PacketsConserved(net, states, trace, k - 1);
      StepBalance(states[k - 1], net, trace[k - 1]);
    }
  }

  // ---------- giving a request up ----------

  /** The host unreachable messages about packets whose way back leads to `ip` itself, newest first. */
  function OnSelf(net: Routes, packets: seq<Packet>, ip: Ip): seq<Packet> {
    if packets == [] then []
    else OnSelf(net, packets[1..], ip) + (if net.hop(packets[0]) == ip then [net.unreachable(packets[0])] else [])
  }

  function Messages(net: Routes, packets: seq<Packet>): seq<Routed> {
    if packets == [] then []
    else [Routed(net.unreachable(packets[0]), net.hop(packets[0]))] + Messages(net, packets[1..])
  }

  /** How one host unreachable message changes the request at index k. */
  lemma UnreachableAt(c: Cache, net: Routes, p: Packet, k: nat)
    requires CacheOk(c) && k < |c.requests|
    ensures var r := HostUnreachable(c, net, p);
            var at := k + (|r.requests| - |c.requests|);
            && 0 <= at < |r.requests| && r.accepted == c.accepted + [Routed(net.unreachable(p), net.hop(p))]
            && r.requests[at].ip == c.requests[k].ip
            && r.requests[at].packets ==
               (if net.hop(p) == c.requests[k].ip then [net.unreachable(p)] else []) + c.requests[k].packets
  {
    hide EntriesOk;
    var ip := net.hop(p);
    LookupNone(c.entries, ip);
    if ip == c.requests[k].ip {
      NoEntryForRequest(c, k);
    }
    assert [] + c.requests[k].packets == c.requests[k].packets;
  }

  lemma NoEntryForRequest(c: Cache, k: nat)
    requires CacheOk(c) && k < |c.requests|
    ensures NoEntry(c.entries, c.requests[k].ip) && FindRequest(c.requests, c.requests[k].ip) == k
  {}

  /**
   * When a request is given up, every packet it holds is answered by one host unreachable message, and such a message
   * is discarded with the request exactly if its own next hop is the address that did not answer.
   */
  lemma {:induction false} GivingUp(c: Cache, net: Routes, packets: seq<Packet>, k: nat)
    requires CacheOk(c) && k < |c.requests|
    ensures var r := AllUnreachable(c, net, packets);
            var at := k + (|r.requests| - |c.requests|);
            && 0 <= at < |r.requests| && r.accepted == c.accepted + Messages(net, packets)
            && r.requests[at].ip == c.requests[k].ip
            && r.requests[at].packets == OnSelf(net, packets, c.requests[k].ip) + c.requests[k].packets
            && Destroy(r, at).discarded ==
               r.discarded + Tagged(OnSelf(net, packets, c.requests[k].ip), c.requests[k].ip) +
               Tagged(c.requests[k].packets, c.requests[k].ip)
    decreases |packets|
  {
    hide CacheOk;
    hide HostUnreachable;
    var ip := c.requests[k].ip;
    if packets == [] {
      assert [] + c.requests[k].packets == c.requests[k].packets;
      assert c.accepted + [] == c.accepted;
    } else {
      var c1 := HostUnreachable(c, net, packets[0]);
      UnreachableKeeps(c, net, packets[0]);
      UnreachableAt(c, net, packets[0], k);
      var at := k + (|c1.requests| - |c.requests|);
      GivingUp(c1, net, packets[1..], at);
      var own := if net.hop(packets[0]) == ip then [net.unreachable(packets[0])] else [];
      Associate(OnSelf(net, packets[1..], ip), own, c.requests[k].packets);
      Associate(c.accepted, [Routed(net.unreachable(packets[0]), net.hop(packets[0]))], Messages(net, packets[1..]));
    }
    var r := AllUnreachable(c, net, packets);
    TaggedAppend(OnSelf(net, packets, ip), c.requests[k].packets, ip);
    Associate(r.discarded, Tagged(OnSelf(net, packets, ip), ip), Tagged(c.requests[k].packets, ip));
  }

  lemma TaggedAppend(a: seq<Packet>, b: seq<Packet>, ip: Ip)
    ensures Tagged(a + b, ip) == Tagged(a, ip) + Tagged(b, ip)
  {}

  // ---------- addresses as announced ----------

  /** The announcements received so far. */
  function Heard(trace: seq<Event>): set<(Ip, Mac)> {
    if trace == [] then {}
    else
      var e := trace[|trace| - 1];
      Heard(trace[..|trace| - 1]) + (if e.Reply? then {(e.ip, e.mac)} else {})
  }

  ghost predicate AllSentAsHeard(delivered: seq<Delivery>, heard: set<(Ip, Mac)>) {
    forall i :: 0 <= i < |delivered| ==> (delivered[i].hop, delivered[i].mac) in heard
  }

  ghost predicate EntriesHeard(entries: seq<Entry>, heard: set<(Ip, Mac)>) {
    forall i :: 0 <= i < |entries| && entries[i].valid ==> (entries[i].ip, entries[i].mac) in heard
  }

  ghost predicate AsHeard(c: Cache, heard: set<(Ip, Mac)>) {
    AllSentAsHeard(c.delivered, heard) && EntriesHeard(c.entries, heard)
  }

  ghost predicate ThreadHeard(t: Thread, heard: set<(Ip, Mac)>) {
    t.Unknown? || t.Known? ==> (t.ip, t.mac) in heard
  }

  lemma {:induction false} LookupHeard(entries: seq<Entry>, ip: Ip, heard: set<(Ip, Mac)>)
    requires EntriesHeard(entries, heard)
    ensures Lookup(entries, ip).Some? ==> (ip, Lookup(entries, ip).value) in heard
  {
    if entries != [] {
      LookupHeard(entries[..|entries| - 1], ip, heard);
    }
  }

  lemma SentHeard(d: seq<Delivery>, packets: seq<Packet>, ip: Ip, mac: Mac, heard: set<(Ip, Mac)>)
    requires AllSentAsHeard(d, heard) && (ip, mac) in heard
    ensures AllSentAsHeard(d + Addressed(packets, ip, mac), heard)
  {}

  lemma ReleaseHeard(c: Cache, ip: Ip, mac: Mac, heard: set<(Ip, Mac)>)
    requires AsHeard(c, heard) && (ip, mac) in heard
    ensures AsHeard(Release(c, ip, mac), heard)
  {
    var k := FindRequest(c.requests, ip);
    if k < |c.requests| {
      SentHeard(c.delivered, c.requests[k].packets, ip, mac, heard);
    }
  }

  lemma {:induction false} UnreachableHeard(c: Cache, net: Routes, packets: seq<Packet>, heard: set<(Ip, Mac)>)
    requires AsHeard(c, heard)
    ensures AsHeard(AllUnreachable(c, net, packets), heard)
    decreases |packets|
  {
    if packets != [] {
      var ip := net.hop(packets[0]);
      LookupHeard(c.entries, ip, heard);
      if Lookup(c.entries, ip).Some? {
        SentHeard(c.delivered, [net.unreachable(packets[0])], ip, Lookup(c.entries, ip).value, heard);
      }
      UnreachableHeard(HostUnreachable(c, net, packets[0]), net, packets[1..], heard);
    }
  }

  lemma {:induction false} SweepHeard(c: Cache, net: Routes, now: int, pos: nat, heard: set<(Ip, Mac)>)
    requires AsHeard(c, heard)
    ensures AsHeard(Sweep(c, net, now, pos), heard)
    decreases |c.requests| - pos
  {
    hide AllSentAsHeard;
    hide EntriesHeard;
    if pos < |c.requests| {
      var r := c.requests[pos];
      if r.sent > 0 && now - r.sent < 1 {
        SweepHeard(c, net, now, pos + 1, heard);
      } else if r.timesSent >= MAX_TRIES {
        var c1 := AllUnreachable(c, net, r.packets);
        UnreachableGrows(c, net, r.packets);
        UnreachableHeard(c, net, r.packets, heard);
        var at := pos + (|c1.requests| - |c.requests|);
        SweepHeard(Destroy(c1, at), net, now, at, heard);
      } else {
        SweepHeard(c.(requests := c.requests[pos := r.(timesSent := r.timesSent + 1, sent := now)],
                      asked := c.asked + [r.ip]), net, now, pos + 1, heard);
      }
    }
  }

  lemma StepHeard(s: Router, net: Routes, e: Event, heard: set<(Ip, Mac)>)
    requires AsHeard(s.cache, heard) && ThreadHeard(s.thread, heard) && Enabled(s, e)
    ensures var heard' := heard + (if e.Reply? then {(e.ip, e.mac)} else {});
            AsHeard(Apply(s, net, e).cache, heard') && ThreadHeard(Apply(s, net, e).thread, heard')
  {
    var c := s.cache;
    match e {
      case Forward(ip, p) =>
        LookupHeard(c.entries, ip, heard);
        if Lookup(c.entries, ip).Some? {
          SentHeard(c.delivered, [p], ip, Lookup(c.entries, ip).value, heard);
        }
      case Queue =>
      case Reply(_, _) =>
      case Add(now) =>
        var k := FindFree(c.entries);
        var entry := Entry(s.thread.mac, s.thread.ip, now, true);
        var c1 := if k < |c.entries| then c.(entries := c.entries[k := entry]) else c;
        ReleaseHeard(c1, s.thread.ip, s.thread.mac, heard);
      case Flush =>
        ReleaseHeard(c, s.thread.ip, s.thread.mac, heard);
      case TimerTick(now) =>
        SweepHeard(c.(entries := Expire(c.entries, now)), net, now, 0, heard);
    }
  }

  /** In every interleaving a packet only ever goes out to a MAC address that its next hop has announced. */
  lemma {:induction false} DeliveredAsHeard(net: Routes, states: seq<Router>, trace: seq<Event>, k: nat)
    requires IsRun(net, states, trace) && k <= |trace|
    ensures |states| == |trace| + 1 && AsHeard(states[k].cache, Heard(trace[..k]))
    ensures ThreadHeard(states[k].thread, Heard(trace[..k]))
  {
    hide Apply;
    if k > 0 {
      DeliveredAsHeard(net, states, trace, k - 1);
      StepHeard(states[k - 1], net, trace[k - 1], Heard(trace[..k - 1]));
      assert trace[..k][..k - 1] == trace[..k - 1];
    }
  }
}
