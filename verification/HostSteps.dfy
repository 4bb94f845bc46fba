/**
 * The functions of HostModel restated one loop round at a time, in the order in which the methods of class Host work;
 * and the tables of a host seen as one sequence of records per peer.
 */
module HostSteps {
  import opened Common
  import opened SeqNum
  import opened Frames
  import opened HostModel
  import opened CircularQueues
  import Messages
  import SendingTurn

  // ---------- parallel tables ----------

  /** The sending state towards each peer, kept in parallel tables. */
  ghost function ZipSend(windows: seq<seq<Slot>>, currSeq: seq<uint8>, dupSeq: seq<uint8>, cc: seq<CongestionControl>)
    : (v: seq<Sending>)
    requires |windows| == |currSeq| == |dupSeq| == |cc|
    ensures |v| == |windows| && forall d :: 0 <= d < |v| ==> v[d] == Sending(windows[d], currSeq[d], dupSeq[d], cc[d])
  {
    seq(|windows|, d requires 0 <= d < |windows| => Sending(windows[d], currSeq[d], dupSeq[d], cc[d]))
  }

  /** Writing one entry of a table is writing one field of one entry of the view. */
  lemma ZipSendUpdate(windows: seq<seq<Slot>>, currSeq: seq<uint8>, dupSeq: seq<uint8>, cc: seq<CongestionControl>,
                      d: nat, w: seq<Slot>, cs: uint8, ds: uint8, c: CongestionControl)
    requires |windows| == |currSeq| == |dupSeq| == |cc| && d < |windows|
    ensures var v := ZipSend(windows, currSeq, dupSeq, cc);
            && ZipSend(windows[d := w], currSeq, dupSeq, cc) == v[d := v[d].(window := w)]
            && ZipSend(windows, currSeq[d := cs], dupSeq, cc) == v[d := v[d].(currSeq := cs)]
            && ZipSend(windows, currSeq, dupSeq[d := ds], cc) == v[d := v[d].(dupSeq := ds)]
            && ZipSend(windows, currSeq, dupSeq, cc[d := c]) == v[d := v[d].(cc := c)]
  {}

  ghost function ZipRecv(windows: seq<seq<Option<Frame>>>, lfr: seq<uint8>, msgs: seq<seq<Frame>>): (v: seq<Receiving>)
    requires |windows| == |lfr| == |msgs|
    ensures |v| == |windows| && forall s :: 0 <= s < |v| ==> v[s] == Receiving(windows[s], lfr[s], msgs[s])
  {
    seq(|windows|, s requires 0 <= s < |windows| => Receiving(windows[s], lfr[s], msgs[s]))
  }

  lemma ZipRecvUpdate(windows: seq<seq<Option<Frame>>>, lfr: seq<uint8>, msgs: seq<seq<Frame>>, s: nat,
                      w: seq<Option<Frame>>, l: uint8, m: seq<Frame>)
    requires |windows| == |lfr| == |msgs| && s < |windows|
    ensures var v := ZipRecv(windows, lfr, msgs);
            && ZipRecv(windows[s := w], lfr, msgs) == v[s := v[s].(window := w)]
            && ZipRecv(windows, lfr[s := l], msgs) == v[s := v[s].(lfr := l)]
            && ZipRecv(windows, lfr, msgs[s := m]) == v[s := v[s].(msgs := m)]
  {}

  // ---------- acknowledgements and retransmission ----------

  /** Retransmit in the order the method works: the frame is copied out, then one timer is restarted. */
  lemma RetransmitIs(cfg: Config, h: HostState, d: nat, seqNum: uint8, now: int, k: nat, sent: HostState)
    requires d < |h.send| && k == FindSeq(h.send[d].window, seqNum)
    requires now == if cfg.clock(h.id, h.ticks) < h.latestTimeout then h.latestTimeout else cfg.clock(h.id, h.ticks)
    requires var w := h.send[d].window;
             sent == h.(outgoing := if k < |w| then h.outgoing + [w[k].frame] else h.outgoing,
                        latestTimeout := now + FRAME_GAP_USEC, ticks := h.ticks + 1)
    ensures var p := h.send[d];
            var j := if k < |p.window| then k else |p.window| - 1;
            Retransmit(cfg, h, d, seqNum) ==
            if p.window == [] then sent
            else SetSend(sent, d,
                         p.(window := p.window[j := p.window[j].(timeout := Some(now + TIMEOUT_INTERVAL_USEC))]))
  {
    hide FindSeq;
  }

  /** Writing twice to the same peer. */
  lemma SetSendTwice(h: HostState, d: nat, p: Sending, q: Sending)
    requires d < |h.send|
    ensures |SetSend(h, d, p).send| == |h.send| && SetSend(h, d, p).send[d] == p
    ensures SetSend(SetSend(h, d, p), d, q) == SetSend(h, d, q)
    ensures SetSend(h, d, h.send[d]) == h
  {
    assert h.send[d := p][d := q] == h.send[d := q];
    assert h.send[d := h.send[d]] == h.send;
  }

  /** Slide in terms of the position found; no slot found means nothing to drop. */
  lemma SlideIs(p: Sending, seqNum: uint8)
    ensures Slide(p, seqNum) ==
            if p.window == [] || SeqNumDiff(p.window[0].frame.seqNum, seqNum) < 0
               || FindSeq(p.window, seqNum) == |p.window|
            then p else p.(window := Rest(p.window, FindSeq(p.window, seqNum) + 1))
  {
    hide FindSeq;
    hide SeqNumDiff;
  }

  /** One step of the walk over the incoming list. */
  lemma AckPassUnfold(cfg: Config, h: HostState, pos: nat)
    requires WellFormed(cfg, h) && pos < |h.incoming|
    ensures var f := h.incoming[pos];
            var h1 := h.(incoming := RemoveAt(h.incoming, pos));
            && WellFormed(cfg, h1)
            && (FrameValid(f) ==> f.src < cfg.hosts == |h.send|)
            && (!FrameValid(f) ==> AckPass(cfg, h, pos) == AckPass(cfg, h1, pos))
            && (FrameValid(f) && f.isAck == 0 ==> AckPass(cfg, h, pos) == AckPass(cfg, h, pos + 1))
            && (FrameValid(f) && f.isAck != 0 ==>
                  WellFormed(cfg, OnAck(cfg, h1, f.src, f.seqNum)) &&
                  AckPass(cfg, h, pos) == AckPass(cfg, OnAck(cfg, h1, f.src, f.seqNum), pos))
  {
    hide FrameValid;
    hide OnAck;
    assert h.incoming[pos] in h.incoming;
    assert forall f :: f in RemoveAt(h.incoming, pos) ==> f in h.incoming;
  }

  lemma EndIs(message: CString, start: nat)
    requires start < |Stored(message)|
    ensures Messages.EndOf(message, start) ==
            if start + PAYLOAD_SIZE > |Stored(message)| then |Stored(message)| else start + PAYLOAD_SIZE
  {}

  lemma SetSendIs(h: HostState, d: nat, p: Sending)
    requires d < |h.send|
    ensures SetSend(h, d, p) == h.(send := h.send[d := p])
  {}

  /** The timers of the first n slots stopped. */
  ghost function ClearedUpTo(w: seq<Slot>, n: nat): (r: seq<Slot>)
    ensures |r| == |w|
  {
    seq(|w|, i requires 0 <= i < |w| => if i < n then w[i].(timeout := None) else w[i])
  }

  lemma ClearedNone(w: seq<Slot>)
    ensures ClearedUpTo(w, 0) == w
  {}

  lemma ClearedMore(w: seq<Slot>, n: nat)
    requires n < |w|
    ensures var c := ClearedUpTo(w, n); ClearedUpTo(w, n + 1) == c[n := c[n].(timeout := None)]
  {}

  lemma ClearedAll(w: seq<Slot>)
    ensures ClearedUpTo(w, |w|) == ClearTimeouts(w)
  {}

  lemma ExpiredIs(s: Slot, curr: int)
    ensures Expired(s, curr) <==> s.timeout.Some? && s.timeout.value <= curr
  {}

  lemma SomeExpiredIs(w: seq<Slot>, curr: int, j: nat)
    requires j < |w| && Expired(w[j], curr)
    ensures SomeExpired(w, curr)
  {}

  lemma NoneExpired(w: seq<Slot>, curr: int)
    requires forall j :: 0 <= j < |w| ==> !Expired(w[j], curr)
    ensures !SomeExpired(w, curr)
  {}

  /** TimeoutPass for the destinations below n only. */
  ghost function TimeoutUpTo(h: HostState, n: nat, curr: int): HostState {
    h.(send := seq(|h.send|, d requires 0 <= d < |h.send| =>
                 if d == h.id || d >= n then h.send[d] else OnTimeout(h.send[d], curr)))
  }

  lemma TimeoutNone(h: HostState, curr: int)
    ensures TimeoutUpTo(h, 0, curr) == h
  {
    hide OnTimeout;
    assert TimeoutUpTo(h, 0, curr).send == h.send;
  }

  lemma TimeoutMore(h: HostState, n: nat, curr: int)
    requires n < |h.send|
    ensures var t := TimeoutUpTo(h, n, curr);
            && |t.send| == |h.send| && t.id == h.id
            && TimeoutUpTo(h, n + 1, curr) == if n == h.id then t else SetSend(t, n, OnTimeout(t.send[n], curr))
  {
    hide OnTimeout;
    var t := TimeoutUpTo(h, n, curr);
    assert TimeoutUpTo(h, n + 1, curr).send == if n == h.id then t.send else t.send[n := OnTimeout(t.send[n], curr)];
  }

  lemma TimeoutAll(h: HostState, curr: int)
    ensures TimeoutUpTo(h, |h.send|, curr) == TimeoutPass(h, curr)
  {
    hide OnTimeout;
    assert TimeoutUpTo(h, |h.send|, curr).send == TimeoutPass(h, curr).send;
  }

  // ---------- timers and sending ----------

  lemma StaysIs(cfg: Config, h: HostState, d: nat, budgets: seq<int>)
    requires d < |h.send| == |budgets|
    ensures SendingTurn.Stays(cfg, h, d, budgets) <==> |h.send[d].window| == cfg.window || budgets[d] == 0
  {}

  lemma SendStepIs(cfg: Config, h: HostState, pos: nat, timeout: int)
    requires pos < |h.buffered| && h.buffered[pos].dst < |h.send|
    ensures var f := h.buffered[pos];
            SendingTurn.SendStep(cfg, h, pos, timeout) ==
            h.(send := h.send[f.dst := h.send[f.dst].(window := h.send[f.dst].window + [Slot(f, Some(timeout))])],
               buffered := RemoveAt(h.buffered, pos), outgoing := h.outgoing + [f])
  {}

  lemma SendPassKeeps(cfg: Config, h: HostState, budgets: seq<int>, curr: int)
    requires WellFormed(cfg, h) && |budgets| == |h.send|
    ensures WellFormed(cfg, SendPass(cfg, h, 0, budgets, curr, 0))
  {
    hide *;
  }

  ghost predicate Scanned(d: nat, i: nat, e: int, j: int) {
    e < d || (e == d && j < i)
  }

  /** `next` is the earliest timer among the windows before d and the slots before i of window d. */
  ghost predicate Earliest(h: HostState, d: nat, i: nat, next: Option<int>) {
    && (forall e, j ::
          0 <= e < |h.send| && e != h.id && 0 <= j < |h.send[e].window| && Scanned(d, i, e, j) &&
          h.send[e].window[j].timeout.Some? ==>
            next.Some? && next.value <= h.send[e].window[j].timeout.value)
    && (next.Some? ==> Running(h, next.value))
  }

  ghost predicate Running(h: HostState, time: int) {
    exists e, j ::
      0 <= e < |h.send| && e != h.id && 0 <= j < |h.send[e].window| && h.send[e].window[j].timeout == Some(time)
  }

  lemma EarliestNone(h: HostState)
    ensures Earliest(h, 0, 0, None)
  {}

  lemma EarliestUnfold(h: HostState, d: nat, i: nat, next: Option<int>)
    requires Earliest(h, d, i, next) && d < |h.send|
    ensures d == h.id && i == 0 ==> Earliest(h, d + 1, 0, next)
    ensures d != h.id && i >= |h.send[d].window| ==> Earliest(h, d + 1, 0, next)
    ensures d != h.id && i < |h.send[d].window| ==>
              var t := h.send[d].window[i].timeout;
              Earliest(h, d, i + 1, if t.Some? && (next.None? || t.value < next.value) then t else next)
  {}

  lemma EarliestReached(h: HostState, next: Option<int>)
    requires Earliest(h, |h.send|, 0, next)
    ensures forall curr :: ReachedTimeout(h, curr) <==> next.Some? && next.value <= curr
  {
    forall curr ensures ReachedTimeout(h, curr) <==> next.Some? && next.value <= curr {
      if next.Some? && next.value <= curr {
        var e, j :|
          0 <= e < |h.send| && e != h.id && 0 <= j < |h.send[e].window| &&
          h.send[e].window[j].timeout == Some(next.value);
        assert Expired(h.send[e].window[j], curr);
        assert SomeExpired(h.send[e].window, curr);
      }
      if ReachedTimeout(h, curr) {
        var e :| 0 <= e < |h.send| && e != h.id && SomeExpired(h.send[e].window, curr);
        var j :| 0 <= j < |h.send[e].window| && Expired(h.send[e].window[j], curr);
        assert Scanned(|h.send|, 0, e, j);
      }
    }
  }

  // ---------- receiving ----------

  lemma BufferNone()
    ensures Buffer([]) == []
  {}

  lemma BufferUnfold(frames: seq<Frame>)
    requires frames != []
    ensures Buffer(frames) == StrNCpy(frames[0].data, frames[0].length) + Buffer(frames[1..])
  {}

  lemma {:induction false} BufferAppend(a: seq<Frame>, b: seq<Frame>)
    ensures Buffer(a + b) == Buffer(a) + Buffer(b)
  {
    hide *;
    if a == [] {
      BufferNone();
      assert a + b == b;
    } else {
      assert (a + b)[1..] == a[1..] + b && (a + b)[0] == a[0];
      BufferUnfold(a + b);
      BufferUnfold(a);
      BufferAppend(a[1..], b);
      Associate(StrNCpy(a[0].data, a[0].length), Buffer(a[1..]), Buffer(b));
    }
  }

  lemma BufferNext(frames: seq<Frame>, j: nat)
    requires j < |frames|
    ensures Buffer(frames[..j + 1]) == Buffer(frames[..j]) + StrNCpy(frames[j].data, frames[j].length)
    ensures |Buffer(frames[..j + 1])| == |Buffer(frames[..j])| + frames[j].length
  {
    hide StrNCpy;
    assert frames[..j + 1] == frames[..j] + [frames[j]];
    BufferAppend(frames[..j], [frames[j]]);
    assert [frames[j]][1..] == [];
  }

  lemma BufferGrows(frames: seq<Frame>, j: nat)
    requires j <= |frames|
    ensures |Buffer(frames[..j])| <= |Buffer(frames)|
  {
    hide *;
    BufferAppend(frames[..j], frames[j..]);
    assert frames[..j] + frames[j..] == frames;
  }

  lemma {:induction false} FirstEndIs(msgs: seq<Frame>, i: nat)
    requires i <= |msgs| && forall j :: 0 <= j < i ==> msgs[j].remaining != 0
    requires i < |msgs| ==> msgs[i].remaining == 0
    ensures FirstEnd(msgs) == i
  {
    if i > 0 {
      FirstEndIs(msgs[1..], i - 1);
    }
  }

  /** Writing twice to the state kept for the same source. */
  lemma RecvTwice(h: HostState, s: nat, p: Receiving, q: Receiving)
    requires s < |h.recv|
    ensures h.recv[s := p][s := q] == h.recv[s := q] && h.recv[s := h.recv[s]] == h.recv
  {
    assert h.recv[s := p][s := q] == h.recv[s := q];
    assert h.recv[s := h.recv[s]] == h.recv;
  }

  /** Some messages of source s have been printed; printing the rest gives what Drain says. */
  ghost predicate Draining(h: HostState, s: uint8, p: Receiving, r: HostState) {
    && s < |h.recv| == |r.recv| && h.recv[s] == p
    && r == h.(recv := h.recv[s := p.(msgs := r.recv[s].msgs)], printed := r.printed)
    && h.printed + Lines(s, Drain(p.msgs).0) == r.printed + Lines(s, Drain(r.recv[s].msgs).0)
    && Drain(p.msgs).1 == Drain(r.recv[s].msgs).1
  }

  lemma DrainStart(h: HostState, s: uint8, p: Receiving)
    requires s < |h.recv| && h.recv[s] == p
    ensures Draining(h, s, p, h)
  {
    hide Drain;
    assert h.recv[s := p] == h.recv;
  }

  lemma LinesCons(s: uint8, t: CString, texts: seq<CString>)
    ensures Lines(s, [t] + texts) == [Line(s, t)] + Lines(s, texts)
  {}

  lemma DrainingUnfold(h: HostState, s: uint8, p: Receiving, r: HostState)
    requires Draining(h, s, p, r)
    ensures s < |h.recv| == |r.recv|
    ensures var msgs, k := r.recv[s].msgs, FirstEnd(r.recv[s].msgs);
            if k == |msgs| then
              r == h.(recv := h.recv[s := p.(msgs := Drain(p.msgs).1)],
                      printed := h.printed + Lines(s, Drain(p.msgs).0))
            else
              |msgs[k + 1..]| < |msgs| &&
              Draining(h, s, p, r.(recv := r.recv[s := r.recv[s].(msgs := msgs[k + 1..])],
                                   printed := r.printed + [Line(s, Printed(Buffer(msgs[..k + 1])))]))
  {
    hide Printed;
    hide Buffer;
    hide FirstEnd;
    var msgs, k := r.recv[s].msgs, FirstEnd(r.recv[s].msgs);
    if k == |msgs| {
      assert Drain(msgs) == ([], msgs);
      assert r.printed + Lines(s, []) == r.printed;
    } else {
      var t := Printed(Buffer(msgs[..k + 1]));
      var (texts, rest) := Drain(msgs[k + 1..]);
      assert Drain(msgs) == ([t] + texts, rest);
      LinesCons(s, t, texts);
      var r' := r.(recv := r.recv[s := r.recv[s].(msgs := msgs[k + 1..])], printed := r.printed + [Line(s, t)]);
      assert r'.recv == h.recv[s := p.(msgs := msgs[k + 1..])];
      assert r.printed + ([Line(s, t)] + Lines(s, texts)) == r'.printed + Lines(s, texts);
    }
  }

  lemma AcceptIs(cfg: Config, p: Receiving, f: Frame)
    requires |p.window| == cfg.window
    ensures var idx := SeqNumDiff(p.lfr, f.seqNum);
            Accept(cfg, p, f) ==
            if idx > 0 && idx <= cfg.window then Advance(p.(window := p.window[idx - 1 := Some(f)]), cfg.window) else p
  {
    hide SeqNumDiff;
    hide Advance;
  }

  lemma AdvanceUnfold(p: Receiving, n: nat)
    ensures Advance(p, n) ==
            if n == 0 || p.window == [] || p.window[0].None? then p
            else Advance(Receiving(p.window[1..] + [None], Wrap(p.lfr + 1), p.msgs + [p.window[0].value]), n - 1)
  {
    hide Wrap;
  }

  lemma ReceiveIs(cfg: Config, h: HostState)
    requires WellFormed(cfg, h) && h.incoming != []
    requires forall s :: 0 <= s < |h.recv| ==> |h.recv[s].window| == cfg.window
    ensures WellFormed(cfg, ReceiveOne(cfg, h)) && RemoveAt(h.incoming, 0) == h.incoming[1..]
    ensures var f := h.incoming[0];
            && (FrameValid(f) ==> f.src < cfg.hosts == |h.recv|)
            && ReceiveOne(cfg, h) ==
               if !FrameValid(f) then h.(incoming := h.incoming[1..])
               else
                 var p := Accept(cfg, h.recv[f.src], f);
                 h.(incoming := h.incoming[1..],
                    recv := h.recv[f.src := p.(msgs := Drain(p.msgs).1)],
                    outgoing := h.outgoing + [AckFrame(h.id, f.src, p.lfr, cfg.heap(h.id, h.mallocs))],
                    printed := h.printed + Lines(f.src, Drain(p.msgs).0), mallocs := h.mallocs + 1)
  {
    hide FrameValid;
    hide Accept;
    hide Drain;
    hide AckFrame;
    hide Lines;
    assert h.incoming[0] in h.incoming;
    assert RemoveAt(h.incoming, 0) == h.incoming[1..];
  }
}
