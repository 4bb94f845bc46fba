/**
 * What the loop over the buffered list sends: for every destination its first frames, as many as room and budget allow.
 */
module SendLoop {
  import opened Common
  import opened HostModel
  import opened LinkedList
  import opened Ports
  import opened SendingTurn

  /** How many frames for d may go: the room left in the window, or the budget if that is less. */
  function Allowance(cfg: Config, h: HostState, budgets: seq<int>, d: nat): int
    requires d < |h.send| == |budgets|
  {
    Min(cfg.window - |h.send[d].window|, budgets[d])
  }

  /** The test of the loop at its start: a frame goes if fewer frames before it in the list go the same way than may. */
  function Goes(cfg: Config, h: HostState, budgets: seq<int>): (nat, Frame) -> bool
    requires |h.send| == |budgets|
  {
    (i: nat, f: Frame) => i < |h.buffered| && f.dst < |h.send| &&
      CountTo(h.buffered[..i], f.dst) < Allowance(cfg, h, budgets, f.dst)
  }

  ghost predicate Affordable(cfg: Config, h: HostState, budgets: seq<int>) {
    |h.send| == |budgets| && forall d :: 0 <= d < |h.send| ==> Allowance(cfg, h, budgets, d) >= 0
  }

  lemma {:induction false} CountSnoc(q: seq<Frame>, f: Frame, d: int)
    ensures CountTo(q + [f], d) == CountTo(q, d) + if f.dst == d then 1 else 0
  {
    if q != [] {
      assert (q + [f])[1..] == q[1..] + [f];
      CountSnoc(q[1..], f, d);
    }
  }

  /**
   * The loop after i of the frames `h` had buffered: `kept` is what it has stepped over, and each destination has used
   * up one unit of room and of budget for each of its first frames, as far as those went.
   */
  ghost predicate Midway(cfg: Config, h: HostState, budgets: seq<int>, i: nat, kept: seq<Frame>, r: HostState,
                         left: seq<int>)
    requires Affordable(cfg, h, budgets)
  {
    && i <= |h.buffered| && kept == Kept(h.buffered[..i], Goes(cfg, h, budgets))
    && r.buffered == Remaining(kept, h.buffered, i)
    && r.outgoing == h.outgoing + Taken(h.buffered[..i], Goes(cfg, h, budgets))
    && |r.send| == |left| == |h.send|
    && forall d :: 0 <= d < |h.send| ==> Used(cfg, h, budgets, i, d, |r.send[d].window|, left[d])
  }

  ghost predicate Used(cfg: Config, h: HostState, budgets: seq<int>, i: nat, d: nat, filled: nat, left: int)
    requires d < |h.send| == |budgets| && i <= |h.buffered|
  {
    var gone := Min(CountTo(h.buffered[..i], d), Allowance(cfg, h, budgets, d));
    filled == |h.send[d].window| + gone && left == budgets[d] - gone
  }

  lemma MidwayStart(cfg: Config, h: HostState, budgets: seq<int>)
    requires Affordable(cfg, h, budgets)
    ensures Midway(cfg, h, budgets, 0, [], h, budgets)
  {
    assert h.buffered[..0] == [];
    assert h.outgoing + [] == h.outgoing;
    KeptNone(h.buffered, Goes(cfg, h, budgets));
  }

  /** The loop's own test, on what is left of room and budget, agrees with the test at the start. */
  lemma TestAgrees(cfg: Config, h: HostState, budgets: seq<int>, i: nat, kept: seq<Frame>, r: HostState, left: seq<int>)
    requires Affordable(cfg, h, budgets) && Midway(cfg, h, budgets, i, kept, r, left) && i < |h.buffered|
    requires h.buffered[i].dst < |h.send|
    ensures |kept| < |r.buffered| == |kept| + (|h.buffered| - i) && r.buffered[|kept|] == h.buffered[i]
    ensures Stays(cfg, r, h.buffered[i].dst, left) <==> !Goes(cfg, h, budgets)(i, h.buffered[i])
  {
    hide CountTo;
    hide Kept;
    hide Taken;
    assert Used(cfg, h, budgets, i, h.buffered[i].dst, |r.send[h.buffered[i].dst].window|, left[h.buffered[i].dst]);
  }

  lemma UsedNext(cfg: Config, h: HostState, budgets: seq<int>, i: nat, d: nat, filled: nat, left: int)
    requires Affordable(cfg, h, budgets) && i < |h.buffered| && d < |h.send| && h.buffered[i].dst < |h.send|
    requires Used(cfg, h, budgets, i, d, filled, left)
    ensures if h.buffered[i].dst == d && Goes(cfg, h, budgets)(i, h.buffered[i])
            then Used(cfg, h, budgets, i + 1, d, filled + 1, left - 1)
            else Used(cfg, h, budgets, i + 1, d, filled, left)
  {
    hide CountTo;
    assert h.buffered[..i + 1] == h.buffered[..i] + [h.buffered[i]];
    CountSnoc(h.buffered[..i], h.buffered[i], d);
  }

  lemma MidwaySkip(cfg: Config, h: HostState, budgets: seq<int>, i: nat, kept: seq<Frame>, r: HostState, left: seq<int>)
    requires Affordable(cfg, h, budgets) && Midway(cfg, h, budgets, i, kept, r, left) && i < |h.buffered|
    requires h.buffered[i].dst < |h.send| && !Goes(cfg, h, budgets)(i, h.buffered[i])
    ensures Midway(cfg, h, budgets, i + 1, kept + [h.buffered[i]], r, left)
  {
    hide CountTo;
    hide Allowance;
    hide Used;
    hide Kept;
    hide Taken;
    hide Remaining;
    var goes := Goes(cfg, h, budgets);
    WalkStep(h.buffered, goes, i, kept, Taken(h.buffered[..i], goes), h.outgoing);
    forall d | 0 <= d < |h.send| ensures Used(cfg, h, budgets, i + 1, d, |r.send[d].window|, left[d]) {
      UsedNext(cfg, h, budgets, i, d, |r.send[d].window|, left[d]);
    }
  }

  lemma MidwaySend(cfg: Config, h: HostState, budgets: seq<int>, i: nat, kept: seq<Frame>, r: HostState, left: seq<int>,
                   timeout: int)
    requires Affordable(cfg, h, budgets) && Midway(cfg, h, budgets, i, kept, r, left) && i < |h.buffered|
    requires h.buffered[i].dst < |h.send| && Goes(cfg, h, budgets)(i, h.buffered[i])
    requires |kept| < |r.buffered| && r.buffered[|kept|] == h.buffered[i]
    ensures var e := h.buffered[i].dst;
            Midway(cfg, h, budgets, i + 1, kept, SendStep(cfg, r, |kept|, timeout), left[e := left[e] - 1])
  {
    hide CountTo;
    hide Allowance;
    hide Used;
    hide Kept;
    hide Taken;
    hide Remaining;
    var goes := Goes(cfg, h, budgets);
    WalkStep(h.buffered, goes, i, kept, Taken(h.buffered[..i], goes), h.outgoing);
    var e, r1 := h.buffered[i].dst, SendStep(cfg, r, |kept|, timeout);
    var left1 := left[e := left[e] - 1];
    forall d | 0 <= d < |h.send| ensures Used(cfg, h, budgets, i + 1, d, |r1.send[d].window|, left1[d]) {
      UsedNext(cfg, h, budgets, i, d, |r.send[d].window|, left[d]);
    }
  }

  lemma {:induction false} SendPassFrom(cfg: Config, h: HostState, budgets: seq<int>, i: nat, kept: seq<Frame>,
                                        r: HostState, left: seq<int>, curr: int, extra: int)
    requires Affordable(cfg, h, budgets) && Midway(cfg, h, budgets, i, kept, r, left) && WellFormed(cfg, r)
    requires |left| == |r.send|
    ensures var q := SendPass(cfg, r, |kept|, left, curr, extra);
            && q.buffered == Kept(h.buffered, Goes(cfg, h, budgets))
            && q.outgoing == h.outgoing + Taken(h.buffered, Goes(cfg, h, budgets))
    decreases |h.buffered| - i
  {
    hide *;
    SendUnfold(cfg, r, |kept|, left, curr, extra);
    if i == |h.buffered| {
      MidwayEnd(cfg, h, budgets, kept, r, left);
    } else {
      MidwayFacts(cfg, h, budgets, i, kept, r, left);
      TestAgrees(cfg, h, budgets, i, kept, r, left);
      if Stays(cfg, r, h.buffered[i].dst, left) {
        MidwaySkip(cfg, h, budgets, i, kept, r, left);
        SendPassFrom(cfg, h, budgets, i + 1, kept + [h.buffered[i]], r, left, curr, extra);
      } else {
        var e, timeout := h.buffered[i].dst, curr + TIMEOUT_INTERVAL_USEC + extra;
        MidwaySend(cfg, h, budgets, i, kept, r, left, timeout);
        SendPassFrom(cfg, h, budgets, i + 1, kept, SendStep(cfg, r, |kept|, timeout), left[e := left[e] - 1], curr,
                     extra + FRAME_GAP_USEC);
      }
    }
  }

  lemma MidwayFacts(cfg: Config, h: HostState, budgets: seq<int>, i: nat, kept: seq<Frame>, r: HostState,
                    left: seq<int>)
    requires Affordable(cfg, h, budgets) && Midway(cfg, h, budgets, i, kept, r, left) && WellFormed(cfg, r)
    requires i != |h.buffered|
    ensures i < |h.buffered| && |r.send| == |h.send| && h.buffered[i].dst < |h.send|
  {
    hide Kept;
    hide Taken;
    hide Used;
    assert r.buffered[|kept|] == h.buffered[i];
  }

  lemma MidwayEnd(cfg: Config, h: HostState, budgets: seq<int>, kept: seq<Frame>, r: HostState, left: seq<int>)
    requires Affordable(cfg, h, budgets) && Midway(cfg, h, budgets, |h.buffered|, kept, r, left)
    ensures |kept| == |r.buffered| && r.buffered == Kept(h.buffered, Goes(cfg, h, budgets))
    ensures r.outgoing == h.outgoing + Taken(h.buffered, Goes(cfg, h, budgets))
  {
    hide Kept;
    hide Taken;
    hide Used;
    hide Affordable;
    assert h.buffered[..|h.buffered|] == h.buffered;
  }

  /**
   * The send loop leaves in the buffer and puts on the network exactly what the walk over the linked list leaves and
   * takes: of every destination's frames the first ones go, as many as room and budget allow, and both parts keep
   * their order.
   */
  lemma SendPassSplits(cfg: Config, h: HostState, budgets: seq<int>, curr: int)
    requires WellFormed(cfg, h) && Affordable(cfg, h, budgets)
    ensures var r := SendPass(cfg, h, 0, budgets, curr, 0);
            && r.buffered == Kept(h.buffered, Goes(cfg, h, budgets))
            && r.outgoing == h.outgoing + Taken(h.buffered, Goes(cfg, h, budgets))
  {
    hide *;
    MidwayStart(cfg, h, budgets);
    SendPassFrom(cfg, h, budgets, 0, [], h, budgets, curr, 0);
  }

  /** The loop on the heap: the two linked lists end up as SendPass says. */
  method SendOnLists(cfg: Config, ghost h: HostState, ghost budgets: seq<int>, buffered: List<Frame>,
                     outgoing: List<Frame>, goes: (nat, Frame) -> bool, ghost curr: int)
    requires WellFormed(cfg, h) && Affordable(cfg, h, budgets) && goes == Goes(cfg, h, budgets)
    requires buffered.Valid() && outgoing.Valid() && Separate(buffered, outgoing)
    requires buffered.View() == h.buffered && outgoing.View() == h.outgoing
    modifies buffered, outgoing, buffered.repr, outgoing.repr
    ensures buffered.Valid() && buffered.View() == SendPass(cfg, h, 0, budgets, curr, 0).buffered
    ensures outgoing.Valid() && outgoing.View() == SendPass(cfg, h, 0, budgets, curr, 0).outgoing
  {
    hide *;
    SendPassSplits(cfg, h, budgets, curr);
    MoveSome(buffered, outgoing, goes);
  }
}
