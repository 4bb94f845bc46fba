/** What the ARP cache is for: announced addresses are learned, used and forgotten, unanswered ones are asked again. */
module ArpLaws {
  import opened Common
  import opened ArpModel

  // ---------- looking up ----------

  /** A lookup finds a MAC exactly if some valid entry, and there is at most one, gives it. */
  lemma LookupIff(entries: seq<Entry>, ip: Ip, mac: Mac)
    requires EntriesOk(entries)
    ensures Lookup(entries, ip) == Some(mac) <==> exists e :: e in entries && e.valid && e.ip == ip && e.mac == mac
  {
    LookupNone(entries, ip);
    LookupFinds(entries, ip);
    if e :| e in entries && e.valid && e.ip == ip && e.mac == mac {
      var i :| 0 <= i < |entries| && entries[i] == e;
      assert Matches(entries[i], ip);
    }
  }

  lemma {:induction false} LookupFinds(entries: seq<Entry>, ip: Ip)
    ensures Lookup(entries, ip).Some? ==>
              exists i :: 0 <= i < |entries| && Matches(entries[i], ip) && entries[i].mac == Lookup(entries, ip).value
  {
    if entries != [] {
      var n := |entries| - 1;
      LookupFinds(entries[..n], ip);
      if !Matches(entries[n], ip) && Lookup(entries, ip).Some? {
        var i :| 0 <= i < n && Matches(entries[..n][i], ip) && entries[..n][i].mac == Lookup(entries, ip).value;
        assert Matches(entries[i], ip);
      }
    }
  }

  // ---------- learning an address ----------

  /**
   * A table with a free slot that does not know the address has learned it; what it says of other addresses stays the
   * same. A full table stays as it is.
   */
  ghost predicate Learned(entries: seq<Entry>, ip: Ip, mac: Mac, now: int, entries': seq<Entry>) {
    && |entries'| == |entries|
    && ((exists e :: e in entries && !e.valid) ==>
          && Entry(mac, ip, now, true) in entries'
          && (forall e :: e in entries && e.valid ==> e in entries')
          && (forall e :: e in entries' && e.valid ==> e in entries || e == Entry(mac, ip, now, true)))
    && ((forall e :: e in entries ==> e.valid) ==> entries' == entries)
  }

  lemma AddLearns(s: Router, net: Routes, now: int)
    requires CacheOk(s.cache) && ThreadOk(s) && s.thread.Unknown?
    ensures var c, r := s.cache, Apply(s, net, Add(now)).cache;
            && Learned(c.entries, s.thread.ip, s.thread.mac, now, r.entries)
            && ((exists e :: e in c.entries && !e.valid) ==>
                  && Lookup(r.entries, s.thread.ip) == Some(s.thread.mac)
                  && forall ip :: ip != s.thread.ip ==> Lookup(r.entries, ip) == Lookup(c.entries, ip))
  {
    hide RequestsOk, NotBoth;
    var c, r, ip, mac := s.cache, Apply(s, net, Add(now)).cache, s.thread.ip, s.thread.mac;
    StepKeeps(s, net, Add(now));
    LearnedIs(c, mac, ip, now);
    if e :| e in c.entries && !e.valid {
      LookupIff(r.entries, ip, mac);
      forall other: Ip | other != ip ensures Lookup(r.entries, other) == Lookup(c.entries, other) {
        SameElsewhere(c.entries, ip, mac, now, r.entries, other);
      }
    }
  }

  lemma LearnedIs(c: Cache, mac: Mac, ip: Ip, now: int)
    ensures Learned(c.entries, ip, mac, now, Insert(c, mac, ip, now).entries)
  {
    var k := FindFree(c.entries);
    var entries := Insert(c, mac, ip, now).entries;
    if k < |c.entries| {
      assert entries[k] == Entry(mac, ip, now, true);
      forall e | e in c.entries && e.valid ensures e in entries {
        var i :| 0 <= i < |c.entries| && c.entries[i] == e;
        assert entries[i] == e;
      }
    }
  }

  lemma SameElsewhere(entries: seq<Entry>, ip: Ip, mac: Mac, now: int, entries': seq<Entry>, other: Ip)
    requires EntriesOk(entries) && EntriesOk(entries') && other != ip
    requires Learned(entries, ip, mac, now, entries') && exists e :: e in entries && !e.valid
    ensures Lookup(entries', other) == Lookup(entries, other)
  {
    match Lookup(entries, other) {
      case Some(m) =>
        LookupIff(entries, other, m);
        LookupIff(entries', other, m);
      case None =>
        if Lookup(entries', other).Some? {
          LookupIff(entries', other, Lookup(entries', other).value);
          LookupIff(entries, other, Lookup(entries', other).value);
        }
    }
  }

  // ---------- keeping and forgetting it ----------

  /** A tick keeps exactly the entries that are at most 15 seconds old. */
  lemma TickKeepsFresh(s: Router, net: Routes, now: int, ip: Ip, mac: Mac)
    requires CacheOk(s.cache) && ThreadOk(s)
    ensures Lookup(Apply(s, net, TimerTick(now)).cache.entries, ip) == Some(mac) <==>
            exists e :: e in s.cache.entries && e.valid && e.ip == ip && e.mac == mac && now - e.added <= 15
  {
    hide CacheOk;
    var c := s.cache;
    var expired := Expire(c.entries, now);
    StepKeeps(s, net, TimerTick(now));
    ExpireKeeps(c, now);
    SweepKeeps(c.(entries := expired), net, now, 0);
    EntriesOf(Apply(s, net, TimerTick(now)).cache);
    LookupIff(expired, ip, mac);
    if e :| e in expired && e.valid && e.ip == ip && e.mac == mac {
      var i :| 0 <= i < |expired| && expired[i] == e;
      assert c.entries[i] == e;
    }
    if e :| e in c.entries && e.valid && e.ip == ip && e.mac == mac && now - e.added <= 15 {
      var i :| 0 <= i < |c.entries| && c.entries[i] == e;
      assert expired[i] == e;
    }
  }

  lemma EntriesOf(c: Cache)
    requires CacheOk(c)
    ensures EntriesOk(c.entries)
  {}

  lemma StepKeepsEntry(s: Router, net: Routes, e: Event, entry: Entry)
    requires CacheOk(s.cache) && ThreadOk(s) && Enabled(s, e) && entry in s.cache.entries && entry.valid
    requires e.TimerTick? ==> e.now - entry.added <= 15
    ensures entry in Apply(s, net, e).cache.entries
  {
    hide CacheOk, NoEntry, Lookup, RequestsOk;
    var c := s.cache;
    match e {
      case Forward(_, _) =>
      case Queue =>
      case Reply(_, _) =>
      case Add(now) =>
        LearnedIs(c, s.thread.mac, s.thread.ip, now);
        EntriesKept(c.entries, s.thread.ip, s.thread.mac, now, Apply(s, net, e).cache.entries, entry);
      case Flush =>
      case TimerTick(now) =>
        ExpireKeeps(c, now);
        SweepKeeps(c.(entries := Expire(c.entries, now)), net, now, 0);
        var i :| 0 <= i < |c.entries| && c.entries[i] == entry;
        assert Expire(c.entries, now)[i] == entry;
    }
  }

  lemma EntriesKept(entries: seq<Entry>, ip: Ip, mac: Mac, now: int, entries': seq<Entry>, entry: Entry)
    requires Learned(entries, ip, mac, now, entries') && entry in entries && entry.valid
    ensures entry in entries'
  {}

  lemma {:induction false} EntryLasts(net: Routes, states: seq<Router>, trace: seq<Event>, k: nat, l: nat, entry: Entry)
    requires IsRun(net, states, trace) && k <= l <= |trace| && |states| == |trace| + 1
    requires entry in states[k].cache.entries && entry.valid
    requires forall j :: k <= j < l && trace[j].TimerTick? ==> trace[j].now - entry.added <= 15
    ensures entry in states[l].cache.entries
  {
    hide CacheOk, ThreadOk, Apply, IsInit;
    if k < l {
      EntryLasts(net, states, trace, k, l - 1, entry);
      AlwaysOk(net, states, trace, l - 1);
      StepKeepsEntry(states[l - 1], net, trace[l - 1], entry);
    }
  }

  /**
   * In every interleaving: from the moment an announced address was added to a table with a free slot until a tick
   * finds it more than 15 seconds old, a packet for it goes out at once to the MAC announced; nothing is queued and
   * nothing is asked.
   */
  lemma AnsweredWhileFresh(net: Routes, states: seq<Router>, trace: seq<Event>, k: nat, l: nat)
    requires IsRun(net, states, trace) && k < l < |trace| && |states| == |trace| + 1
    requires trace[k].Add? && (exists e :: e in states[k].cache.entries && !e.valid)
    requires forall j :: k < j < l && trace[j].TimerTick? ==> trace[j].now - trace[k].now <= 15
    requires states[k].thread.Unknown? && trace[l].Forward? && trace[l].ip == states[k].thread.ip
    ensures var c, p, t := states[l].cache, trace[l].packet, states[k].thread;
            states[l + 1] == Router(c.(accepted := c.accepted + [Routed(p, t.ip)],
                                       delivered := c.delivered + [Delivery(p, t.ip, t.mac)]), Idle)
  {
    hide CacheOk, ThreadOk, IsInit, Lookup;
    var s, now := states[k], trace[k].now;
    var entry := Entry(s.thread.mac, s.thread.ip, now, true);
    AlwaysOk(net, states, trace, k);
    AddedTo(s, net, now, states[k + 1]);
    EntryLasts(net, states, trace, k + 1, l, entry);
    AlwaysOk(net, states, trace, l);
    EntriesOf(states[l].cache);
    LookupIff(states[l].cache.entries, s.thread.ip, s.thread.mac);
  }

  lemma AddedTo(s: Router, net: Routes, now: int, s': Router)
    requires s.thread.Unknown? && s' == Apply(s, net, Add(now)) && exists e :: e in s.cache.entries && !e.valid
    ensures Entry(s.thread.mac, s.thread.ip, now, true) in s'.cache.entries
  {
    LearnedIs(s.cache, s.thread.mac, s.thread.ip, now);
  }

  // ---------- packets that were waiting, and packets that have to wait ----------

  /** Once an address is announced nothing waits for it any more: all of it has gone out, newest first. */
  lemma AnnouncedReleases(s: Router, net: Routes, e: Event)
    requires CacheOk(s.cache) && Enabled(s, e) && (e.Add? || e.Flush?)
    ensures var c, r, t := s.cache, Apply(s, net, e).cache, s.thread;
            && (forall q :: q in r.requests <==> q in c.requests && q.ip != t.ip)
            && (forall q :: q in c.requests && q.ip == t.ip ==>
                  r.delivered == c.delivered + Addressed(q.packets, t.ip, t.mac))
            && ((forall q :: q in c.requests ==> q.ip != t.ip) ==> r.delivered == c.delivered)
            && r.asked == c.asked
  {
    hide RemoveAt, Addressed, Expire, FindRequest, FindFree, CacheOk;
    var c, t := s.cache, s.thread;
    var k := FindRequest(c.requests, t.ip);
    if k < |c.requests| {
      OthersRemain(c, k);
    }
  }

  lemma OthersRemain(c: Cache, k: nat)
    requires CacheOk(c) && k < |c.requests|
    ensures forall q :: q in RemoveAt(c.requests, k) <==> q in c.requests && q.ip != c.requests[k].ip
    ensures forall q :: q in c.requests && q.ip == c.requests[k].ip ==> q == c.requests[k]
  {
    hide EntriesOk, NotBoth, RequestOk, RemoveAt;
    RemoveKeeps(c, k);
    var rest := RemoveAt(c.requests, k);
    forall i | 0 <= i < |c.requests| && i != k ensures c.requests[i] in rest && c.requests[i].ip != c.requests[k].ip {
      RemovedAt(c.requests, k, i);
    }
    forall q | q in rest ensures q in c.requests && q.ip != c.requests[k].ip {
      var i :| 0 <= i < |rest| && rest[i] == q;
      RemovedFrom(c.requests, k, i);
    }
  }

  lemma RemovedAt(requests: seq<Request>, k: nat, i: nat)
    requires k < |requests| && i < |requests| && i != k
    ensures requests[i] in RemoveAt(requests, k)
  {
    assert RemoveAt(requests, k)[if i < k then i else i - 1] == requests[i];
  }

  lemma RemovedFrom(requests: seq<Request>, k: nat, i: nat)
    requires k < |requests| && i < |RemoveAt(requests, k)|
    ensures RemoveAt(requests, k)[i] in requests && |RemoveAt(requests, k)| == |requests| - 1
  {}

  /** A packet whose next hop is unknown joins the request for it, in front, and the address is asked for. */
  lemma MissAsks(s: Router, net: Routes)
    requires CacheOk(s.cache) && s.thread.Missed?
    ensures var c, r, t := s.cache, Apply(s, net, Queue), s.thread;
            && r.thread == Idle && r.cache.asked == c.asked + [t.ip] && r.cache.delivered == c.delivered
            && (exists q :: q in r.cache.requests && q.ip == t.ip && q.packets != [] && q.packets[0] == t.packet)
            && (forall q :: q in c.requests && q.ip != t.ip ==> q in r.cache.requests)
            && ((forall q :: q in c.requests ==> q.ip != t.ip) ==>
                  Request(t.ip, 0, 0, [t.packet]) in r.cache.requests)
  {
    hide EntriesOk, NotBoth;
    var c, t := s.cache, s.thread;
    var k := FindRequest(c.requests, t.ip);
    var r := QueueRequest(c, t.ip, t.packet).requests;
    if k < |c.requests| {
      assert r[k] in r && r[k].packets[0] == t.packet;
      forall q | q in c.requests && q.ip != t.ip ensures q in r {
        var i :| 0 <= i < |c.requests| && c.requests[i] == q;
        assert r[i] == q;
      }
    } else {
      assert r[0] in r;
    }
  }

  // ---------- asking again and giving up ----------

  /** Request r some time later: not asked for again, but more packets may have joined in front. */
  ghost predicate Kept(r: Request, q: Request) {
    && q.ip == r.ip && q.sent == r.sent && q.timesSent == r.timesSent
    && |r.packets| <= |q.packets| && q.packets[|q.packets| - |r.packets|..] == r.packets
  }

  lemma KeptMore(r: Request, q: Request, t: Request)
    requires Kept(r, q) && Kept(q, t)
    ensures Kept(r, t)
  {
    var m, n := |t.packets| - |q.packets|, |q.packets| - |r.packets|;
    assert t.packets[m..][n..] == t.packets[m + n..];
  }

  /** What has been asked, taken over and discarded is not undone. */
  ghost predicate Grown(c: Cache, r: Cache) {
    c.asked <= r.asked && c.accepted <= r.accepted && c.discarded <= r.discarded
  }

  /** Where request k of c is in r if all new requests have come in front. */
  ghost predicate Still(c: Cache, k: nat, r: Cache) {
    && Grown(c, r) && k < |c.requests| <= |r.requests|
    && Kept(c.requests[k], r.requests[k + (|r.requests| - |c.requests|)])
  }

  lemma StillMore(c: Cache, k: nat, c1: Cache, r: Cache)
    requires Still(c, k, c1) && Still(c1, k + (|c1.requests| - |c.requests|), r)
    ensures Still(c, k, r)
  {
    hide Kept;
    var k1 := k + (|c1.requests| - |c.requests|);
    KeptMore(c.requests[k], c1.requests[k1], r.requests[k1 + (|r.requests| - |c1.requests|)]);
  }

  lemma AnswerKeeps(c: Cache, net: Routes, p: Packet, k: nat)
    requires k < |c.requests|
    ensures Still(c, k, HostUnreachable(c, net, p))
    ensures Routed(net.unreachable(p), net.hop(p)) in HostUnreachable(c, net, p).accepted
  {
    hide Lookup;
  }

  lemma AnswersUnfold(c: Cache, net: Routes, packets: seq<Packet>)
    ensures packets == [] ==> AllUnreachable(c, net, packets) == c
    ensures packets != [] ==>
              AllUnreachable(c, net, packets) == AllUnreachable(HostUnreachable(c, net, packets[0]), net, packets[1..])
  {
    hide HostUnreachable;
  }

  lemma StillSelf(c: Cache, k: nat)
    requires k < |c.requests|
    ensures Still(c, k, c)
  {}

  lemma StillGrown(c: Cache, k: nat, r: Cache)
    requires Still(c, k, r)
    ensures Grown(c, r) && k < |c.requests| <= |r.requests|
    ensures forall a :: a in c.accepted ==> a in r.accepted
  {
    hide Kept;
  }

  /** Answering packets keeps every request, behind the new ones. */
  lemma {:induction false} AnswersKeep(c: Cache, net: Routes, packets: seq<Packet>, k: nat)
    requires k < |c.requests|
    ensures Still(c, k, AllUnreachable(c, net, packets))
    ensures forall p :: p in packets ==>
              Routed(net.unreachable(p), net.hop(p)) in AllUnreachable(c, net, packets).accepted
    decreases |packets|
  {
    hide *;
    AnswersUnfold(c, net, packets);
    StillSelf(c, k);
    if packets != [] {
      var c1, r := HostUnreachable(c, net, packets[0]), AllUnreachable(c, net, packets);
      AnswerKeeps(c, net, packets[0], k);
      StillGrown(c, k, c1);
      var at := k + (|c1.requests| - |c.requests|);
      AnswersKeep(c1, net, packets[1..], at);
      StillMore(c, k, c1, r);
      StillGrown(c1, at, r);
    }
  }

  lemma GrownMore(c: Cache, c1: Cache, r: Cache)
    requires Grown(c, c1) && Grown(c1, r)
    ensures Grown(c, r)
  {}

  lemma DestroyIs(c: Cache, k: nat)
    requires k < |c.requests|
    ensures var r := Destroy(c, k);
            && Grown(c, r) && |r.requests| == |c.requests| - 1 && r.accepted == c.accepted
            && (forall i :: 0 <= i < k ==> r.requests[i] == c.requests[i])
            && (forall i :: k < i < |c.requests| ==> r.requests[i - 1] == c.requests[i])
            && (forall p :: p in c.requests[k].packets ==> Routed(p, c.requests[k].ip) in r.discarded)
  {
    var packets, ip := c.requests[k].packets, c.requests[k].ip;
    forall p | p in packets ensures Routed(p, ip) in Destroy(c, k).discarded {
      var i :| 0 <= i < |packets| && packets[i] == p;
      assert Tagged(packets, ip)[i] == Routed(p, ip);
    }
  }

  lemma RetryIs(c: Cache, k: nat, now: int)
    requires k < |c.requests|
    ensures var r := c.requests[k];
            var c1 := c.(requests := c.requests[k := r.(timesSent := r.timesSent + 1, sent := now)],
                         asked := c.asked + [r.ip]);
            && Grown(c, c1) && |c1.requests| == |c.requests|
            && (forall i :: 0 <= i < |c.requests| && i != k ==> c1.requests[i] == c.requests[i])
  {}

  lemma KeptSelf(r: Request)
    ensures Kept(r, r)
  {}

  lemma StillAt(c: Cache, k: nat, r: Cache)
    requires Still(c, k, r)
    ensures k < |c.requests| <= |r.requests| && Kept(c.requests[k], r.requests[k + (|r.requests| - |c.requests|)])
    ensures Grown(c, r)
  {
    hide Kept;
  }

  /** What the sweep has passed only gains packets. */
  lemma {:induction false} SweepPast(c: Cache, net: Routes, now: int, pos: nat, k: nat)
    requires CacheOk(c) && k < pos && k < |c.requests|
    ensures exists q :: q in Sweep(c, net, now, pos).requests && Kept(c.requests[k], q)
    decreases |c.requests| - pos
  {
    hide *;
    SweepUnfold(c, net, now, pos);
    if pos >= |c.requests| {
      KeptSelf(c.requests[k]);
    } else {
      var r := c.requests[pos];
      if r.sent > 0 && now - r.sent < 1 {
        SweepPast(c, net, now, pos + 1, k);
      } else if r.timesSent >= 4 {
        var c1 := AllUnreachable(c, net, r.packets);
        var at, k1 := pos + (|c1.requests| - |c.requests|), k + (|c1.requests| - |c.requests|);
        AnswersKeep(c, net, r.packets, k);
        StillAt(c, k, c1);
        DestroyIs(c1, at);
        SweepPast(Destroy(c1, at), net, now, at, k1);
        var q :| q in Sweep(c, net, now, pos).requests && Kept(c1.requests[k1], q);
        KeptMore(c.requests[k], c1.requests[k1], q);
      } else {
        RetryIs(c, pos, now);
        SweepPast(c.(requests := c.requests[pos := r.(timesSent := r.timesSent + 1, sent := now)],
                     asked := c.asked + [r.ip]), net, now, pos + 1, k);
      }
    }
  }

  lemma GrownSelf(c: Cache)
    ensures Grown(c, c)
  {}

  /** Nothing is undone by the rest of a sweep. */
  lemma {:induction false} SweepGrown(c: Cache, net: Routes, now: int, pos: nat)
    requires CacheOk(c)
    ensures Grown(c, Sweep(c, net, now, pos))
    decreases |c.requests| - pos
  {
    hide *;
    SweepUnfold(c, net, now, pos);
    GrownSelf(c);
    if pos < |c.requests| {
      var r := c.requests[pos];
      if r.sent > 0 && now - r.sent < 1 {
        SweepGrown(c, net, now, pos + 1);
      } else if r.timesSent >= 4 {
        var c1 := AllUnreachable(c, net, r.packets);
        var at := pos + (|c1.requests| - |c.requests|);
        AnswersKeep(c, net, r.packets, pos);
        StillAt(c, pos, c1);
        DestroyIs(c1, at);
        SweepGrown(Destroy(c1, at), net, now, at);
        GrownMore(c, c1, Destroy(c1, at));
        GrownMore(c, Destroy(c1, at), Sweep(c, net, now, pos));
      } else {
        RetryIs(c, pos, now);
        var c1 := c.(requests := c.requests[pos := r.(timesSent := r.timesSent + 1, sent := now)],
                     asked := c.asked + [r.ip]);
        SweepGrown(c1, net, now, pos + 1);
        GrownMore(c, c1, Sweep(c, net, now, pos));
      }
    }
  }

  /** Requests for the address, if any, are new and lie before the position. */
  ghost predicate OnlyNew(requests: seq<Request>, ip: Ip, pos: int) {
    forall i :: 0 <= i < |requests| && requests[i].ip == ip ==>
      i < pos && requests[i].timesSent == 0 && requests[i].sent == 0
  }

  lemma AnswerNew(c: Cache, net: Routes, p: Packet, ip: Ip, pos: int)
    requires OnlyNew(c.requests, ip, pos) && pos >= 0
    ensures var r := HostUnreachable(c, net, p);
            |r.requests| >= |c.requests| && OnlyNew(r.requests, ip, pos + (|r.requests| - |c.requests|))
  {
    hide Lookup;
  }

  lemma {:induction false} AnswersNew(c: Cache, net: Routes, packets: seq<Packet>, ip: Ip, pos: int)
    requires OnlyNew(c.requests, ip, pos) && pos >= 0
    ensures var r := AllUnreachable(c, net, packets);
            |r.requests| >= |c.requests| && OnlyNew(r.requests, ip, pos + (|r.requests| - |c.requests|))
    decreases |packets|
  {
    hide *;
    AnswersUnfold(c, net, packets);
    if packets != [] {
      AnswerNew(c, net, packets[0], ip, pos);
      var c1 := HostUnreachable(c, net, packets[0]);
      AnswersNew(c1, net, packets[1..], ip, pos + (|c1.requests| - |c.requests|));
    }
  }

  lemma DestroyNew(c: Cache, ip: Ip, pos: nat)
    requires OnlyNew(c.requests, ip, pos) && pos < |c.requests|
    ensures OnlyNew(Destroy(c, pos).requests, ip, pos)
  {
    hide Destroy;
    DestroyIs(c, pos);
    var rest := Destroy(c, pos).requests;
    assert forall i :: 0 <= i < |rest| ==> rest[i] == c.requests[if i < pos then i else i + 1];
  }

  lemma RetryNew(c: Cache, ip: Ip, pos: nat, r: Request)
    requires OnlyNew(c.requests, ip, pos) && pos < |c.requests| && r.ip == c.requests[pos].ip
    ensures OnlyNew(c.requests[pos := r], ip, pos + 1)
  {}

  lemma OnlyNewLater(requests: seq<Request>, ip: Ip, pos: int)
    requires OnlyNew(requests, ip, pos)
    ensures OnlyNew(requests, ip, pos + 1)
  {}

  /** The sweep leaves them new. */
  lemma {:induction false} SweepNew(c: Cache, net: Routes, now: int, pos: nat, ip: Ip)
    requires CacheOk(c) && OnlyNew(c.requests, ip, pos)
    ensures var r := Sweep(c, net, now, pos);
            forall q :: q in r.requests && q.ip == ip ==> q.timesSent == 0 && q.sent == 0
    decreases |c.requests| - pos
  {
    hide *;
    SweepUnfold(c, net, now, pos);
    if pos >= |c.requests| {
      NewIs(c.requests, ip, pos);
    } else {
      var r := c.requests[pos];
      if r.sent > 0 && now - r.sent < 1 {
        OnlyNewLater(c.requests, ip, pos);
        SweepNew(c, net, now, pos + 1, ip);
      } else if r.timesSent >= 4 {
        var c1 := AllUnreachable(c, net, r.packets);
        var at := pos + (|c1.requests| - |c.requests|);
        AnswersNew(c, net, r.packets, ip, pos);
        DestroyNew(c1, ip, at);
        SweepNew(Destroy(c1, at), net, now, at, ip);
      } else {
        RetryNew(c, ip, pos, r.(timesSent := r.timesSent + 1, sent := now));
        SweepNew(c.(requests := c.requests[pos := r.(timesSent := r.timesSent + 1, sent := now)],
                    asked := c.asked + [r.ip]), net, now, pos + 1, ip);
      }
    }
  }

  lemma NewIs(requests: seq<Request>, ip: Ip, pos: int)
    requires OnlyNew(requests, ip, pos)
    ensures forall q :: q in requests && q.ip == ip ==> q.timesSent == 0 && q.sent == 0
  {}

  /**
   * What a sweep that leads from c to c' does to request r. Asked for less than a second ago, it is left alone; asked
   * for less than four times by the timer, it is asked for again; otherwise it is given up, every packet is discarded
   * and answered, and if the address is being asked for after that, then in a request that is new.
   */
  ghost predicate Swept(net: Routes, now: int, r: Request, c: Cache, c': Cache) {
    && Grown(c, c')
    && if r.sent > 0 && now - r.sent < 1 then exists q :: q in c'.requests && Kept(r, q)
       else if r.timesSent < 4 then
         && r.ip in c'.asked[|c.asked|..]
         && (exists q :: q in c'.requests && Kept(r.(timesSent := r.timesSent + 1, sent := now), q))
       else
         && (forall p :: p in r.packets ==>
               Routed(p, r.ip) in c'.discarded && Routed(net.unreachable(p), net.hop(p)) in c'.accepted)
         && (forall q :: q in c'.requests && q.ip == r.ip ==> q.timesSent == 0 && q.sent == 0)
  }

  /** The same seen from an earlier state. */
  lemma SweptBefore(net: Routes, now: int, r: Request, c: Cache, r1: Request, c1: Cache, c': Cache)
    requires Grown(c, c1) && Kept(r, r1) && Swept(net, now, r1, c1, c')
    ensures Swept(net, now, r, c, c')
  {
    hide Kept, Grown;
    GrownMore(c, c1, c');
    KeptParts(r, r1, now);
    if r.sent > 0 && now - r.sent < 1 {
      var q :| q in c'.requests && Kept(r1, q);
      KeptMore(r, r1, q);
    } else if r.timesSent < 4 {
      var q :| q in c'.requests && Kept(r1.(timesSent := r1.timesSent + 1, sent := now), q);
      KeptMore(r.(timesSent := r.timesSent + 1, sent := now), r1.(timesSent := r1.timesSent + 1, sent := now), q);
      AskedBefore(r.ip, c, c1, c');
    }
  }

  lemma KeptParts(r: Request, q: Request, now: int)
    requires Kept(r, q)
    ensures q.ip == r.ip && q.sent == r.sent && q.timesSent == r.timesSent
    ensures forall p :: p in r.packets ==> p in q.packets
    ensures Kept(r.(timesSent := r.timesSent + 1, sent := now), q.(timesSent := q.timesSent + 1, sent := now))
  {}

  lemma AskedBefore(ip: Ip, c: Cache, c1: Cache, c': Cache)
    requires Grown(c, c1) && Grown(c1, c') && ip in c'.asked[|c1.asked|..]
    ensures |c.asked| <= |c'.asked| && ip in c'.asked[|c.asked|..]
  {
    assert c'.asked[|c.asked|..][|c1.asked| - |c.asked|..] == c'.asked[|c1.asked|..];
  }

  lemma AskedHas(asked: seq<Ip>, ip: Ip, c1: Cache, c': Cache)
    requires Grown(c1, c') && c1.asked == asked + [ip]
    ensures |asked| <= |c'.asked| && ip in c'.asked[|asked|..]
  {
    assert c'.asked[|asked|] == ip;
  }

  lemma SweptKept(net: Routes, now: int, r: Request, c: Cache, c': Cache)
    requires Grown(c, c') && r.sent > 0 && now - r.sent < 1 && exists q :: q in c'.requests && Kept(r, q)
    ensures Swept(net, now, r, c, c')
  {}

  lemma SweptRetried(net: Routes, now: int, r: Request, c: Cache, c1: Cache, c': Cache)
    requires Grown(c, c1) && Grown(c1, c') && !(r.sent > 0 && now - r.sent < 1) && r.timesSent < 4
    requires c1.asked == c.asked + [r.ip]
    requires exists q :: q in c'.requests && Kept(r.(timesSent := r.timesSent + 1, sent := now), q)
    ensures Swept(net, now, r, c, c')
  {
    hide Kept;
    GrownMore(c, c1, c');
    AskedHas(c.asked, r.ip, c1, c');
  }

  /** The request given up itself. */
  lemma SweptGivenUp(net: Routes, now: int, c: Cache, k: nat, c1: Cache, at: nat, c': Cache)
    requires Still(c, k, c1) && at == k + (|c1.requests| - |c.requests|) && Grown(Destroy(c1, at), c')
    requires var r := c.requests[k]; !(r.sent > 0 && now - r.sent < 1) && r.timesSent >= 4
    requires forall p :: p in c.requests[k].packets ==> Routed(net.unreachable(p), net.hop(p)) in c1.accepted
    requires forall q :: q in c'.requests && q.ip == c.requests[k].ip ==> q.timesSent == 0 && q.sent == 0
    ensures Swept(net, now, c.requests[k], c, c')
  {
    hide Destroy;
    DestroyIs(c1, at);
    GrownMore(c, c1, Destroy(c1, at));
    GrownMore(c, Destroy(c1, at), c');
    assert forall p :: p in c.requests[k].packets ==> p in c1.requests[at].packets;
  }

  lemma GoneNow(c: Cache, k: nat)
    requires CacheOk(c) && k < |c.requests|
    ensures OnlyNew(Destroy(c, k).requests, c.requests[k].ip, k)
  {
    hide CacheOk;
    RemoveKeeps(c, k);
  }

  /** The sweep visits every request from its position on exactly so, whatever is given up before it. */
  lemma {:induction false} SweepVisits(c: Cache, net: Routes, now: int, pos: nat, k: nat)
    requires CacheOk(c) && pos <= k < |c.requests|
    ensures Swept(net, now, c.requests[k], c, Sweep(c, net, now, pos))
    decreases |c.requests| - pos
  {
    hide *;
    SweepUnfold(c, net, now, pos);
    var r, c' := c.requests[pos], Sweep(c, net, now, pos);
    GrownSelf(c);
    if r.sent > 0 && now - r.sent < 1 {
      if pos < k {
        SweepVisits(c, net, now, pos + 1, k);
      } else {
        SweepPast(c, net, now, pos + 1, k);
        SweepGrown(c, net, now, pos + 1);
        SweptKept(net, now, r, c, c');
      }
    } else if r.timesSent >= 4 {
      var c1 := AllUnreachable(c, net, r.packets);
      var grow := |c1.requests| - |c.requests|;
      AnswersKeep(c, net, r.packets, k);
      AnswersKeep(c, net, r.packets, pos);
      StillAt(c, k, c1);
      var at := pos + grow;
      DestroyIs(c1, at);
      var c2 := Destroy(c1, at);
      GrownMore(c, c1, c2);
      if pos < k {
        SweepVisits(c2, net, now, at, k + grow - 1);
        SweptBefore(net, now, c.requests[k], c, c1.requests[k + grow], c2, c');
      } else {
        AllUnreachableKeeps(c, net, r.packets);
        StillAt(c, pos, c1);
        KeptIp(r, c1.requests[at]);
        GoneNow(c1, at);
        SweepNew(c2, net, now, at, r.ip);
        SweepGrown(c2, net, now, at);
        SweptGivenUp(net, now, c, k, c1, at, c');
      }
    } else {
      RetryIs(c, pos, now);
      var c1 := c.(requests := c.requests[pos := r.(timesSent := r.timesSent + 1, sent := now)],
                   asked := c.asked + [r.ip]);
      if pos < k {
        KeptSelf(c.requests[k]);
        SweepVisits(c1, net, now, pos + 1, k);
        SweptBefore(net, now, c.requests[k], c, c1.requests[k], c1, c');
      } else {
        SweepPast(c1, net, now, pos + 1, k);
        SweepGrown(c1, net, now, pos + 1);
        SweptRetried(net, now, r, c, c1, c');
      }
    }
  }

  lemma KeptIp(r: Request, q: Request)
    requires Kept(r, q)
    ensures q.ip == r.ip
  {}

  /** So a tick of the timer treats every request that is waiting, in every reachable state. */
  lemma TickVisits(net: Routes, states: seq<Router>, trace: seq<Event>, k: nat, r: Request)
    requires IsRun(net, states, trace) && k < |trace| && |states| == |trace| + 1 && trace[k].TimerTick?
    requires r in states[k].cache.requests
    ensures Swept(net, trace[k].now, r, states[k].cache, states[k + 1].cache)
  {
    hide CacheOk, ThreadOk, IsInit, Sweep, Swept;
    AlwaysOk(net, states, trace, k);
    var c, now := states[k].cache, trace[k].now;
    var c1 := c.(entries := Expire(c.entries, now));
    ExpireKeeps(c, now);
    var i :| 0 <= i < |c.requests| && c.requests[i] == r;
    SweepVisits(c1, net, now, 0, i);
    KeptSelf(r);
    GrownSelf(c);
    SweptBefore(net, now, r, c, r, c1, Sweep(c1, net, now, 0));
  }

  // ---------- what the timer sends ----------

  ghost predicate Gives(entries: seq<Entry>, ip: Ip, mac: Mac) {
    exists e :: e in entries && e.valid && e.ip == ip && e.mac == mac
  }

  /** What has gone out on the way from c to r has gone to addresses that the entries of c give. */
  ghost predicate SentByEntries(c: Cache, r: Cache) {
    && r.entries == c.entries && c.delivered <= r.delivered
    && (forall i :: |c.delivered| <= i < |r.delivered| ==>
          Gives(c.entries, r.delivered[i].hop, r.delivered[i].mac))
  }

  lemma SentMore(c: Cache, c1: Cache, r: Cache)
    requires SentByEntries(c, c1) && SentByEntries(c1, r)
    ensures SentByEntries(c, r)
  {
    forall i | |c.delivered| <= i < |r.delivered|
      ensures Gives(c.entries, r.delivered[i].hop, r.delivered[i].mac)
    {
      if i < |c1.delivered| {
        assert r.delivered[i] == c1.delivered[i];
      }
    }
  }

  lemma AnswerSends(c: Cache, net: Routes, p: Packet)
    ensures SentByEntries(c, HostUnreachable(c, net, p))
  {
    hide Lookup, FindRequest;
    LookupFinds(c.entries, net.hop(p));
  }

  lemma {:induction false} AnswersSend(c: Cache, net: Routes, packets: seq<Packet>)
    ensures SentByEntries(c, AllUnreachable(c, net, packets))
    decreases |packets|
  {
    hide *;
    AnswersUnfold(c, net, packets);
    if packets == [] {
      SentNothing(c, c);
    } else {
      var c1 := HostUnreachable(c, net, packets[0]);
      AnswerSends(c, net, packets[0]);
      AnswersSend(c1, net, packets[1..]);
      SentMore(c, c1, AllUnreachable(c, net, packets));
    }
  }

  lemma SentNothing(c: Cache, r: Cache)
    requires r.entries == c.entries && r.delivered == c.delivered
    ensures SentByEntries(c, r)
  {}

  lemma {:induction false} SweepSends(c: Cache, net: Routes, now: int, pos: nat)
    requires CacheOk(c)
    ensures SentByEntries(c, Sweep(c, net, now, pos))
    decreases |c.requests| - pos
  {
    hide *;
    SweepUnfold(c, net, now, pos);
    SentNothing(c, c);
    if pos < |c.requests| {
      var r := c.requests[pos];
      if r.sent > 0 && now - r.sent < 1 {
        SweepSends(c, net, now, pos + 1);
      } else if r.timesSent >= 4 {
        var c1 := AllUnreachable(c, net, r.packets);
        var at := pos + (|c1.requests| - |c.requests|);
        AnswersSend(c, net, r.packets);
        AnswersKeep(c, net, r.packets, pos);
        StillAt(c, pos, c1);
        DestroyBooks(c1, at);
        SentNothing(c1, Destroy(c1, at));
        SweepSends(Destroy(c1, at), net, now, at);
        SentMore(c, c1, Destroy(c1, at));
        SentMore(c, Destroy(c1, at), Sweep(c, net, now, pos));
      } else {
        var c1 := c.(requests := c.requests[pos := r.(timesSent := r.timesSent + 1, sent := now)],
                     asked := c.asked + [r.ip]);
        SentNothing(c, c1);
        SweepSends(c1, net, now, pos + 1);
        SentMore(c, c1, Sweep(c, net, now, pos));
      }
    }
  }

  lemma DestroyBooks(c: Cache, k: nat)
    requires k < |c.requests|
    ensures Destroy(c, k).entries == c.entries && Destroy(c, k).delivered == c.delivered
  {}

  /** A tick sends only to addresses announced within the last 15 seconds: it forgets before it answers. */
  lemma TickSendsFresh(net: Routes, states: seq<Router>, trace: seq<Event>, k: nat, i: nat)
    requires IsRun(net, states, trace) && k < |trace| && |states| == |trace| + 1 && trace[k].TimerTick?
    requires |states[k].cache.delivered| <= i < |states[k + 1].cache.delivered|
    ensures var d := states[k + 1].cache.delivered[i];
            exists e :: e in states[k].cache.entries && e.valid && e.ip == d.hop && e.mac == d.mac &&
              trace[k].now - e.added <= 15
  {
    hide CacheOk, ThreadOk, IsInit, Sweep;
    AlwaysOk(net, states, trace, k);
    var c, now, d := states[k].cache, trace[k].now, states[k + 1].cache.delivered[i];
    var expired := Expire(c.entries, now);
    ExpireKeeps(c, now);
    SweepSends(c.(entries := expired), net, now, 0);
    var e :| e in expired && e.valid && e.ip == d.hop && e.mac == d.mac;
    var j :| 0 <= j < |expired| && expired[j] == e;
    assert c.entries[j] == e;
  }
}
