/**
 * The circular queues: every window of a host lives in one flat array, `window` slots per peer, each window a ring with
 * its own start index.
 */
module CircularQueues {
  import opened Common
  import opened HostModel

  // ---------- ring arithmetic ----------

  /** Index of slot i of ring `id`, whose first slot is at offset `start`. */
  function Pos(w: nat, id: nat, start: nat, i: nat): nat
    requires w > 0
  {
    id * w + (start + i) % w
  }

  lemma ModWrap(w: nat, start: nat, i: nat)
    requires w > 0 && start < w && i <= w
    ensures (start + i) % w == if start + i < w then start + i else start + i - w
  {
    if start + i < w {
      DivUnique(start + i, w, 0, start + i);
    } else {
      DivUnique(start + i, w, 1, start + i - w);
    }
  }

  lemma ModShift(a: nat, w: nat)
    requires w > 0
    ensures (a + w) % w == a % w
  {
    var q := a / w;
    assert a == q * w + a % w;
    assert a + w == (q + 1) * w + a % w;
    DivUnique(a + w, w, q + 1, a % w);
  }

  /** Distinct slots of distinct or equal rings are at distinct places. */
  lemma PosInjective(w: nat, id: nat, start: nat, i: nat, id': nat, start': nat, i': nat)
    requires w > 0 && start < w && start' < w && i < w && i' < w
    requires Pos(w, id, start, i) == Pos(w, id', start', i')
    ensures id == id' && (start == start' ==> i == i')
  {
    ModWrap(w, start, i);
    ModWrap(w, start', i');
    if id < id' {
      MulApart(id, id', w);
    } else if id' < id {
      MulApart(id', id, w);
    }
  }

  /** Dropping n slots from the front re-numbers the others. */
  lemma PosAdvance(w: nat, id: nat, start: nat, n: nat, i: nat)
    requires w > 0 && start < w && n <= w && i <= w
    ensures (start + n) % w < w
    ensures Pos(w, id, (start + n) % w, i) == Pos(w, id, start, n + i)
  {
    ModWrap(w, start, n);
    if start + n >= w {
      ModShift(start + n - w + i, w);
      assert start + (n + i) == (start + n - w + i) + w;
    }
  }

  // ---------- send windows ----------

  /** One slot as stored: both pointers may be NULL. */
  datatype Cell = Cell(frame: Option<Frame>, timeout: Option<int>)

  const EMPTY := Cell(None, None)

  /** Ring `id` has exactly its first `len` slots occupied. */
  ghost predicate RingOk(cells: seq<Cell>, w: nat, id: nat, start: nat, len: nat)
    requires w > 0
  {
    && start < w && len <= w && id * w + w <= |cells|
    && (forall i :: 0 <= i < len ==> cells[Pos(w, id, start, i)].frame.Some?)
    && (forall i :: len <= i < w ==> cells[Pos(w, id, start, i)] == EMPTY)
  }

  ghost function Ring(cells: seq<Cell>, w: nat, id: nat, start: nat, len: nat): (r: seq<Slot>)
    requires w > 0 && RingOk(cells, w, id, start, len)
    ensures |r| == len
  {
    seq(len, i requires 0 <= i < len =>
      Slot(cells[Pos(w, id, start, i)].frame.value, cells[Pos(w, id, start, i)].timeout))
  }

  /** A write to one ring is invisible in the others. */
  lemma RingUntouched(cells: seq<Cell>, w: nat, id: nat, start: nat, len: nat, id': nat, start': nat, i': nat, c: Cell)
    requires w > 0 && RingOk(cells, w, id, start, len) && id' != id && start' < w && i' < w
    requires id' * w + w <= |cells|
    ensures var cells' := cells[Pos(w, id', start', i') := c];
            RingOk(cells', w, id, start, len) && Ring(cells', w, id, start, len) == Ring(cells, w, id, start, len)
  {
    hide Pos;
    PosBound(w, id', start', i');
    var p := Pos(w, id', start', i');
    forall i | 0 <= i < w ensures Pos(w, id, start, i) != p && Pos(w, id, start, i) < |cells| {
      PosBound(w, id, start, i);
      if Pos(w, id, start, i) == p {
        PosInjective(w, id, start, i, id', start', i');
      }
    }
  }

  lemma PosBound(w: nat, id: nat, start: nat, i: nat)
    requires w > 0
    ensures id * w <= Pos(w, id, start, i) < id * w + w
  {}

  lemma PosInRange(w: nat, n: nat, id: nat, start: nat, i: nat)
    requires w > 0 && id < n
    ensures id * w + w <= n * w && id * w <= Pos(w, id, start, i) < n * w
  {
    MulApart(id, n, w);
    PosBound(w, id, start, i);
  }

  /** Overwriting an occupied slot with an occupied slot replaces one element of the window. */
  lemma RingUpdate(cells: seq<Cell>, w: nat, id: nat, start: nat, len: nat, i: nat, c: Cell)
    requires w > 0 && RingOk(cells, w, id, start, len) && i < len && c.frame.Some?
    ensures Pos(w, id, start, i) < |cells|
    ensures var cells' := cells[Pos(w, id, start, i) := c];
            && RingOk(cells', w, id, start, len)
            && Ring(cells', w, id, start, len) == Ring(cells, w, id, start, len)[i := Slot(c.frame.value, c.timeout)]
  {
    hide Pos;
    PosBound(w, id, start, i);
    forall j | 0 <= j < w
      ensures Pos(w, id, start, j) < |cells| && (Pos(w, id, start, j) == Pos(w, id, start, i) <==> j == i)
    {
      PosBound(w, id, start, j);
      if Pos(w, id, start, j) == Pos(w, id, start, i) {
        PosInjective(w, id, start, j, id, start, i);
      }
    }
  }

  /** Filling the first free slot appends to the window. */
  lemma RingAppend(cells: seq<Cell>, w: nat, id: nat, start: nat, len: nat, c: Cell)
    requires w > 0 && RingOk(cells, w, id, start, len) && len < w && c.frame.Some?
    ensures Pos(w, id, start, len) < |cells|
    ensures var cells' := cells[Pos(w, id, start, len) := c];
            && RingOk(cells', w, id, start, len + 1)
            && Ring(cells', w, id, start, len + 1) == Ring(cells, w, id, start, len) + [Slot(c.frame.value, c.timeout)]
  {
    hide Pos;
    PosBound(w, id, start, len);
    forall j | 0 <= j < w
      ensures Pos(w, id, start, j) < |cells| && (Pos(w, id, start, j) == Pos(w, id, start, len) <==> j == len)
    {
      PosBound(w, id, start, j);
      if Pos(w, id, start, j) == Pos(w, id, start, len) {
        PosInjective(w, id, start, j, id, start, len);
      }
    }
  }

  /** The first n slots of a ring have been emptied, the rest are as before. */
  ghost predicate Emptied(cells: seq<Cell>, cells': seq<Cell>, w: nat, id: nat, start: nat, n: nat)
    requires w > 0 && id * w + w <= |cells| == |cells'|
  {
    && (forall i :: 0 <= i < n && i < w ==> cells'[Pos(w, id, start, i)] == EMPTY)
    && (forall i :: n <= i < w ==> cells'[Pos(w, id, start, i)] == cells[Pos(w, id, start, i)])
  }

  lemma EmptyNone(cells: seq<Cell>, w: nat, id: nat, start: nat, len: nat)
    requires w > 0 && RingOk(cells, w, id, start, len)
    ensures start < w && len <= w && id * w + w <= |cells| && Emptied(cells, cells, w, id, start, 0)
  {}

  lemma EmptyOne(cells: seq<Cell>, cells': seq<Cell>, w: nat, id: nat, start: nat, n: nat)
    requires w > 0 && id * w + w <= |cells| == |cells'| && start < w && n < w && Emptied(cells, cells', w, id, start, n)
    ensures Pos(w, id, start, n) < |cells'|
    ensures Emptied(cells, cells'[Pos(w, id, start, n) := EMPTY], w, id, start, n + 1)
  {
    hide Pos;
    PosBound(w, id, start, n);
    forall j | 0 <= j < w
      ensures Pos(w, id, start, j) < |cells| && (Pos(w, id, start, j) == Pos(w, id, start, n) <==> j == n)
    {
      PosBound(w, id, start, j);
      if Pos(w, id, start, j) == Pos(w, id, start, n) {
        PosInjective(w, id, start, j, id, start, n);
      }
    }
  }

  /** Moving the start past the emptied slots drops them from the window. */
  lemma RingDequeue(cells: seq<Cell>, cells': seq<Cell>, w: nat, id: nat, start: nat, len: nat, n: nat)
    requires w > 0 && RingOk(cells, w, id, start, len) && n <= len && |cells'| == |cells|
    requires Emptied(cells, cells', w, id, start, n)
    ensures RingOk(cells', w, id, (start + n) % w, len - n)
    ensures Ring(cells', w, id, (start + n) % w, len - n) == Ring(cells, w, id, start, len)[n..]
  {
    hide Pos;
    var start' := (start + n) % w;
    PosAdvance(w, id, start, n, 0);
    forall i | 0 <= i < w
      ensures Pos(w, id, start', i) < |cells|
      ensures n + i < w ==> Pos(w, id, start', i) == Pos(w, id, start, n + i)
      ensures n + i >= w ==> Pos(w, id, start', i) == Pos(w, id, start, n + i - w)
    {
      PosBound(w, id, start', i);
      PosAdvance(w, id, start, n, i);
      if n + i >= w {
        PosPeriod(w, id, start, n + i - w);
      }
    }
  }

  lemma PosPeriod(w: nat, id: nat, start: nat, i: nat)
    requires w > 0
    ensures Pos(w, id, start, i + w) == Pos(w, id, start, i)
  {
    ModShift(start + i, w);
  }

  // ---------- receive windows ----------

  ghost function RecvRing(cells: seq<Option<Frame>>, w: nat, id: nat, start: nat): (r: seq<Option<Frame>>)
    requires w > 0 && id * w + w <= |cells|
    ensures |r| == w
  {
    seq(w, i requires 0 <= i < w => cells[Pos(w, id, start, i)])
  }

  lemma RecvUntouched(cells: seq<Option<Frame>>, w: nat, id: nat, start: nat, id': nat, start': nat, i': nat,
                      c: Option<Frame>)
    requires w > 0 && id * w + w <= |cells| && id' * w + w <= |cells| && id != id' && start < w && start' < w && i' < w
    ensures Pos(w, id', start', i') < |cells|
    ensures RecvRing(cells[Pos(w, id', start', i') := c], w, id, start) == RecvRing(cells, w, id, start)
  {
    hide Pos;
    PosBound(w, id', start', i');
    forall i | 0 <= i < w ensures Pos(w, id, start, i) < |cells| && Pos(w, id, start, i) != Pos(w, id', start', i') {
      PosBound(w, id, start, i);
      if Pos(w, id, start, i) == Pos(w, id', start', i') {
        PosInjective(w, id, start, i, id', start', i');
      }
    }
  }

  lemma RecvUpdate(cells: seq<Option<Frame>>, w: nat, id: nat, start: nat, i: nat, c: Option<Frame>)
    requires w > 0 && id * w + w <= |cells| && start < w && i < w
    ensures Pos(w, id, start, i) < |cells|
    ensures RecvRing(cells[Pos(w, id, start, i) := c], w, id, start) == RecvRing(cells, w, id, start)[i := c]
  {
    hide Pos;
    PosBound(w, id, start, i);
    forall j | 0 <= j < w
      ensures Pos(w, id, start, j) < |cells| && (Pos(w, id, start, j) == Pos(w, id, start, i) <==> j == i)
    {
      PosBound(w, id, start, j);
      if Pos(w, id, start, j) == Pos(w, id, start, i) {
        PosInjective(w, id, start, j, id, start, i);
      }
    }
  }

  /** The first n slots of a ring have been set to NULL, the rest are as before. */
  ghost predicate Cleared(cells: seq<Option<Frame>>, cells': seq<Option<Frame>>, w: nat, id: nat, start: nat, n: nat)
    requires w > 0 && id * w + w <= |cells| == |cells'|
  {
    && (forall i :: 0 <= i < n && i < w ==> cells'[Pos(w, id, start, i)] == None)
    && (forall i :: n <= i < w ==> cells'[Pos(w, id, start, i)] == cells[Pos(w, id, start, i)])
  }

  lemma ClearOne(cells: seq<Option<Frame>>, cells': seq<Option<Frame>>, w: nat, id: nat, start: nat, n: nat)
    requires w > 0 && id * w + w <= |cells| == |cells'| && start < w && n < w && Cleared(cells, cells', w, id, start, n)
    ensures Pos(w, id, start, n) < |cells'|
    ensures Cleared(cells, cells'[Pos(w, id, start, n) := None], w, id, start, n + 1)
  {
    hide Pos;
    PosBound(w, id, start, n);
    forall j | 0 <= j < w
      ensures Pos(w, id, start, j) < |cells| && (Pos(w, id, start, j) == Pos(w, id, start, n) <==> j == n)
    {
      PosBound(w, id, start, j);
      if Pos(w, id, start, j) == Pos(w, id, start, n) {
        PosInjective(w, id, start, j, id, start, n);
      }
    }
  }

  function Nones(n: nat): seq<Option<Frame>> {
    seq(n, i => None)
  }

  /** Moving the start past the cleared slots turns them into free slots at the far end. */
  lemma RecvDequeue(cells: seq<Option<Frame>>, cells': seq<Option<Frame>>, w: nat, id: nat, start: nat, n: nat)
    requires w > 0 && id * w + w <= |cells| == |cells'| && start < w && n <= w
    requires Cleared(cells, cells', w, id, start, n)
    ensures (start + n) % w < w
    ensures RecvRing(cells', w, id, (start + n) % w) == RecvRing(cells, w, id, start)[n..] + Nones(n)
  {
    hide Pos;
    PosAdvance(w, id, start, n, 0);
    var start' := (start + n) % w;
    forall i | 0 <= i < w
      ensures Pos(w, id, start', i) < |cells|
      ensures n + i < w ==> Pos(w, id, start', i) == Pos(w, id, start, n + i)
      ensures n + i >= w ==> Pos(w, id, start', i) == Pos(w, id, start, n + i - w)
    {
      PosBound(w, id, start', i);
      PosAdvance(w, id, start, n, i);
      if n + i >= w {
        PosPeriod(w, id, start, n + i - w);
      }
    }
  }

  // ---------- the queues of a host ----------

  /** What is left of a window after n slots have been taken off its front. */
  ghost function Rest(w: seq<Slot>, n: nat): seq<Slot> {
    if n <= |w| then w[n..] else []
  }

  /** send_window, send_window_start and send_window_length. */
  class SendQueues {
    const window: nat
    const peers: nat
    const slots: array<Cell>
    var start: seq<uint8>
    var length: seq<uint8>

    ghost predicate Valid()
      reads this, slots
    {
      && 0 < window < 256
      && slots.Length == peers * window
      && |start| == |length| == peers
      && forall id :: 0 <= id < peers ==> RingOk(slots[..], window, id, start[id], length[id])
    }

    /** The window kept for one peer. */
    ghost function Window(id: nat): (r: seq<Slot>)
      requires Valid() && id < peers
      reads this, slots
      ensures |r| == length[id] <= window
    {
      Ring(slots[..], window, id, start[id], length[id])
    }

    /** All windows, by peer. */
    ghost function Windows(): (r: seq<seq<Slot>>)
      requires Valid()
      reads this, slots
      ensures |r| == peers && forall id :: 0 <= id < peers ==> r[id] == Window(id) && |r[id]| == length[id] <= window
    {
      seq(peers, id requires 0 <= id < peers && Valid() reads this, slots => Window(id))
    }

    constructor (window: nat, peers: nat)
      requires 0 < window < 256
      ensures Valid() && this.window == window && this.peers == peers && fresh(slots)
      ensures Windows() == seq(peers, i => [])
    {
      this.window := window;
      this.peers := peers;
      this.slots := new Cell[peers * window](_ => EMPTY);
      this.start := seq(peers, i => 0);
      this.length := seq(peers, i => 0);
      new;
      forall id | 0 <= id < peers ensures RingOk(slots[..], window, id, 0, 0) {
        MulApart(id, peers, window);
        forall i | 0 <= i < window ensures Pos(window, id, 0, i) < slots.Length {
          PosBound(window, id, 0, i);
        }
      }
    }

    /** cq_get_item_send, read. */
    method GetItem(id: nat, i: nat) returns (s: Slot)
      requires Valid() && id < peers && i < length[id]
      ensures s == Windows()[id][i]
    {
      PosInRange(window, peers, id, start[id], i);
      var cell := slots[id * window + (start[id] + i) % window];
      s := Slot(cell.frame.value, cell.timeout);
    }

    /** cq_get_item_send, write: replace the timer of slot i. */
    method SetTimeout(id: nat, i: nat, timeout: Option<int>)
      requires Valid() && id < peers && i < length[id]
      modifies slots
      ensures Valid()
      ensures var w := old(Windows())[id]; Windows() == old(Windows())[id := w[i := w[i].(timeout := timeout)]]
    {
      PosInRange(window, peers, id, start[id], i);
      ghost var before := slots[..];
      var p := id * window + (start[id] + i) % window;
      var c := slots[p].(timeout := timeout);
      slots[p] := c;
      assert slots[..] == before[Pos(window, id, start[id], i) := c];
      RingUpdate(before, window, id, start[id], length[id], i, c);
      OthersUntouched(before, id, i, c);
    }

    /** Writing into ring `id` leaves every other ring as it was. */
    lemma OthersUntouched(before: seq<Cell>, id: nat, i: nat, c: Cell)
      requires 0 < window && |before| == slots.Length == peers * window && |start| == |length| == peers
      requires id < peers && start[id] < window && i < window
      requires forall e :: 0 <= e < peers && e != id ==> RingOk(before, window, e, start[e], length[e])
      requires Pos(window, id, start[id], i) < |before| && slots[..] == before[Pos(window, id, start[id], i) := c]
      ensures forall e :: 0 <= e < peers && e != id ==>
                RingOk(slots[..], window, e, start[e], length[e]) &&
                Ring(slots[..], window, e, start[e], length[e]) == Ring(before, window, e, start[e], length[e])
    {
      hide Pos;
      hide RingOk;
      hide Ring;
      MulApart(id, peers, window);
      forall e | 0 <= e < peers && e != id
        ensures RingOk(slots[..], window, e, start[e], length[e]) &&
                Ring(slots[..], window, e, start[e], length[e]) == Ring(before, window, e, start[e], length[e])
      {
        RingUntouched(before, window, e, start[e], length[e], id, start[id], i, c);
      }
    }

    /** cq_append_item_send: a full window refuses. */
    method Append(id: nat, frame: Frame, timeout: Option<int>)
      requires Valid() && id < peers
      modifies this`length, slots
      ensures Valid()
      ensures var w := old(Windows())[id];
              Windows() == if |w| == window then old(Windows()) else old(Windows())[id := w + [Slot(frame, timeout)]]
    {
      if length[id] == window {
        return;
      }
      ghost var before, len := slots[..], length[id];
      PosInRange(window, peers, id, start[id], length[id]);
      var p := id * window + (start[id] + length[id]) % window;
      slots[p] := Cell(Some(frame), timeout);
      assert slots[..] == before[Pos(window, id, start[id], len) := Cell(Some(frame), timeout)];
      RingAppend(before, window, id, start[id], len, Cell(Some(frame), timeout));
      OthersUntouched(before, id, len, Cell(Some(frame), timeout));
      length := length[id := length[id] + 1];
    }

    /** cq_ndequeue_send: at most the whole window. */
    method NDequeue(id: nat, n: nat)
      requires Valid() && id < peers
      modifies this`length, this`start, slots
      ensures Valid()
      ensures Windows() == old(Windows())[id := Rest(old(Windows())[id], n)]
    {
      hide Emptied;
      hide Ring;
      hide RingOk;
      var m: nat := if n <= length[id] then n else length[id];
      ghost var before := slots[..];
      EmptyNone(before, window, id, start[id], length[id]);
      var i := 0;
      while i < m
        invariant 0 <= i <= m && start == old(start) && length == old(length)
        invariant Emptied(before, slots[..], window, id, start[id], i)
        invariant forall e :: 0 <= e < peers && e != id ==>
                    RingOk(slots[..], window, e, start[e], length[e]) &&
                    Ring(slots[..], window, e, start[e], length[e]) == Ring(before, window, e, start[e], length[e])
      {
        ghost var now := slots[..];
        PosInRange(window, peers, id, start[id], i);
        slots[id * window + (start[id] + i) % window] := EMPTY;
        assert slots[..] == now[Pos(window, id, start[id], i) := EMPTY];
        EmptyOne(before, now, window, id, start[id], i);
        OthersUntouched(now, id, i, EMPTY);
        i := i + 1;
      }
      RingDequeue(before, slots[..], window, id, start[id], length[id], m);
      start := start[id := (start[id] + m) % window];
      length := length[id := length[id] - m];
    }

    /**
     * The scan that sets awaiting_ack: some slot of the flat array holds a frame exactly if some window is not empty.
     */
    method AnyFrame() returns (found: bool)
      requires Valid()
      ensures found <==> exists id :: 0 <= id < peers && Windows()[id] != []
    {
      hide Ring;
      hide RingOk;
      var j := 0;
      found := false;
      while j < peers * window
        invariant j <= peers * window && !found
        invariant forall k :: 0 <= k < j ==> slots[k].frame.None?
      {
        if slots[j].frame.Some? {
          found := true;
          OccupiedSlot(slots[..], j);
          return;
        }
        j := j + 1;
      }
      NoFrame();
    }

    lemma NoFrame()
      requires Valid() && forall k :: 0 <= k < slots.Length ==> slots[k].frame.None?
      ensures forall id :: 0 <= id < peers ==> Windows()[id] == []
    {
      hide Pos;
      forall id | 0 <= id < peers ensures Window(id) == [] {
        PosInRange(window, peers, id, start[id], 0);
      }
    }

    lemma OccupiedSlot(cells: seq<Cell>, j: nat)
      requires Valid() && cells == slots[..] && j < |cells| && cells[j].frame.Some?
      ensures exists id :: 0 <= id < peers && Windows()[id] != []
    {
      var id, off := j / window, j % window;
      assert j == id * window + off;
      if id >= peers {
        if id > peers {
          MulApart(peers, id, window);
        }
        assert false;
      }
      var i := if off >= start[id] then off - start[id] else off + window - start[id];
      ModWrap(window, start[id], i);
      assert Pos(window, id, start[id], i) == j;
      assert length[id] > i;
      assert Windows()[id] != [];
    }
  }

  /** recv_window and recv_window_start. */
  class RecvQueues {
    const window: nat
    const peers: nat
    const slots: array<Option<Frame>>
    var start: seq<uint8>

    ghost predicate Valid()
      reads this, slots
    {
      && 0 < window < 256
      && slots.Length == peers * window
      && |start| == peers
      && forall id :: 0 <= id < peers ==> id * window + window <= slots.Length && start[id] < window
    }

    /** The window kept for one peer, from the slot of the next frame wanted. */
    ghost function Window(id: nat): (r: seq<Option<Frame>>)
      requires Valid() && id < peers
      reads this, slots
      ensures |r| == window
    {
      RecvRing(slots[..], window, id, start[id])
    }

    /** All windows, by peer. */
    ghost function Windows(): (r: seq<seq<Option<Frame>>>)
      requires Valid()
      reads this, slots
      ensures |r| == peers && forall id :: 0 <= id < peers ==> r[id] == Window(id) && |r[id]| == window
    {
      seq(peers, id requires 0 <= id < peers && Valid() reads this, slots => Window(id))
    }

    constructor (window: nat, peers: nat)
      requires 0 < window < 256
      ensures Valid() && this.window == window && this.peers == peers && fresh(slots)
      ensures Windows() == seq(peers, i => Nones(window))
    {
      this.window := window;
      this.peers := peers;
      this.slots := new Option<Frame>[peers * window](_ => None);
      this.start := seq(peers, i => 0);
      new;
      forall id | 0 <= id < peers
        ensures id * window + window <= slots.Length && RecvRing(slots[..], window, id, 0) == Nones(window)
      {
        MulApart(id, peers, window);
        forall i | 0 <= i < window ensures Pos(window, id, 0, i) < slots.Length {
          PosBound(window, id, 0, i);
        }
      }
    }

    /** cq_get_item_recv, read. */
    method GetItem(id: nat, i: nat) returns (f: Option<Frame>)
      requires Valid() && id < peers && i < window
      ensures f == Windows()[id][i]
    {
      PosInRange(window, peers, id, start[id], i);
      f := slots[id * window + (start[id] + i) % window];
    }

    lemma OthersUntouched(before: seq<Option<Frame>>, id: nat, i: nat, c: Option<Frame>)
      requires Valid() && |before| == slots.Length && id < peers && i < window
      requires Pos(window, id, start[id], i) < |before| && slots[..] == before[Pos(window, id, start[id], i) := c]
      ensures forall e :: 0 <= e < peers && e != id ==>
                RecvRing(slots[..], window, e, start[e]) == RecvRing(before, window, e, start[e])
    {
      hide Pos;
      hide RecvRing;
      forall e | 0 <= e < peers && e != id
        ensures RecvRing(slots[..], window, e, start[e]) == RecvRing(before, window, e, start[e])
      {
        RecvUntouched(before, window, e, start[e], id, start[id], i, c);
      }
    }

    /** cq_set_item_recv. */
    method SetItem(id: nat, i: nat, f: Option<Frame>)
      requires Valid() && id < peers && i < window
      modifies slots
      ensures Valid()
      ensures Windows() == old(Windows())[id := old(Windows())[id][i := f]]
    {
      ghost var before := slots[..];
      PosInRange(window, peers, id, start[id], i);
      slots[id * window + (start[id] + i) % window] := f;
      assert slots[..] == before[Pos(window, id, start[id], i) := f];
      RecvUpdate(before, window, id, start[id], i, f);
      OthersUntouched(before, id, i, f);
    }

    /** cq_ndequeue_recv: the dequeued slots come back as free slots at the far end. */
    method NDequeue(id: nat, n: nat)
      requires Valid() && id < peers
      modifies this`start, slots
      ensures Valid()
      ensures var m := if n <= window then n else window;
              Windows() == old(Windows())[id := old(Windows())[id][m..] + Nones(m)]
    {
      var m := if n <= window then n else window;
      ghost var before := slots[..];
      var i := 0;
      while i < m
        invariant 0 <= i <= m && start == old(start)
        invariant Cleared(before, slots[..], window, id, start[id], i)
        invariant forall e :: 0 <= e < peers && e != id ==>
                    RecvRing(slots[..], window, e, start[e]) == RecvRing(before, window, e, start[e])
      {
        ghost var now := slots[..];
        PosInRange(window, peers, id, start[id], i);
        slots[id * window + (start[id] + i) % window] := None;
        assert slots[..] == now[Pos(window, id, start[id], i) := None];
        ClearOne(before, now, window, id, start[id], i);
        OthersUntouched(now, id, i, None);
        i := i + 1;
      }
      RecvDequeue(before, slots[..], window, id, start[id], m);
      start := start[id := (start[id] + m) % window];
    }
  }
}
