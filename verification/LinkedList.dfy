/** The circular doubly linked lists of the simulator, proved against sequences of values. */
module LinkedList {
  import opened Common

  class Node<T> {
    var prev: Node?<T>
    var next: Node?<T>
    var value: T

    constructor (value: T)
      ensures this.value == value && prev == null && next == null
    {
      this.value := value;
      prev, next := null, null;
    }
  }

  ghost predicate Distinguished<T>(ns: seq<Node<T>>) {
    forall i, j :: 0 <= i < j < |ns| ==> ns[i] != ns[j]
  }

  /** The nodes form one ring in this order, starting at `ns[0]`. */
  ghost predicate Ring<T>(ns: seq<Node<T>>)
    reads ns
  {
    && Distinguished(ns)
    && (forall i {:trigger ns[i].next} :: 0 <= i < |ns| ==> ns[i].next == ns[After(|ns|, i)])
    && (forall i {:trigger ns[i].prev} :: 0 <= i < |ns| ==> ns[i].prev == ns[Before(|ns|, i)])
  }

  /** The position after i, and the position before it, in a ring of n. */
  function After(n: nat, i: nat): (k: nat)
    requires i < n
    ensures k < n
  {
    if i + 1 == n then 0 else i + 1
  }

  function Before(n: nat, i: nat): (k: nat)
    requires i < n
    ensures k < n
  {
    if i == 0 then n - 1 else i - 1
  }

  ghost function Values<T>(ns: seq<Node<T>>): (vs: seq<T>)
    reads ns
    ensures |vs| == |ns| && forall i :: 0 <= i < |ns| ==> vs[i] == ns[i].value
  {
    seq(|ns|, i requires 0 <= i < |ns| reads ns => ns[i].value)
  }

  // ---------- links ----------

  ghost function Nexts<T>(ns: seq<Node<T>>): (s: seq<Node?<T>>)
    reads ns
    ensures |s| == |ns| && forall i {:trigger s[i]} :: 0 <= i < |ns| ==> s[i] == ns[i].next
  {
    seq(|ns|, i requires 0 <= i < |ns| reads ns => ns[i].next)
  }

  ghost function Prevs<T>(ns: seq<Node<T>>): (s: seq<Node?<T>>)
    reads ns
    ensures |s| == |ns| && forall i {:trigger s[i]} :: 0 <= i < |ns| ==> s[i] == ns[i].prev
  {
    seq(|ns|, i requires 0 <= i < |ns| reads ns => ns[i].prev)
  }

  lemma RingFacts<T>(ns: seq<Node<T>>)
    requires Ring(ns)
    ensures forall i {:trigger ns[i].next} :: 0 <= i < |ns| ==> ns[i].next == ns[After(|ns|, i)]
    ensures forall i {:trigger ns[i].prev} :: 0 <= i < |ns| ==> ns[i].prev == ns[Before(|ns|, i)]
  {}

  lemma AllDistinct<T>(ns: seq<Node<T>>)
    requires Ring(ns)
    ensures Distinguished(ns)
  {}

  lemma Distinct<T>(ns: seq<Node<T>>, k: nat)
    requires Distinguished(ns) && k < |ns|
    ensures forall i :: 0 <= i < |ns| && i != k ==> ns[i] != ns[k]
  {}

  lemma Ends(n: nat)
    ensures n > 0 ==> After(n, n - 1) == 0 && Before(n, 0) == n - 1
  {}

  lemma RingOfOne<T>(x: Node<T>)
    requires x.next == x && x.prev == x
    ensures Ring([x])
  {}

  // ---------- the list functions ----------

  /** ll_get_length: walk round the ring until the head comes back. */
  method GetLength<T>(head: Node?<T>, ghost ns: seq<Node<T>>) returns (count: nat)
    requires Ring(ns) && head == if ns == [] then null else ns[0]
    ensures count == |ns|
  {
    if head == null {
      return 0;
    }
    count := 1;
    var tmp := head.next;
    while tmp != head
      invariant 1 <= count <= |ns| && tmp == if count == |ns| then ns[0] else ns[count]
      decreases |ns| - count
    {
      count := count + 1;
      tmp := tmp.next;
    }
  }

  /** Inserting a node between the last and the first gives a ring with that node at the end. */
  lemma Appended<T>(ns: seq<Node<T>>, x: Node<T>, nexts: seq<Node?<T>>, prevs: seq<Node?<T>>)
    requires 0 < |ns| == |nexts| == |prevs| && x !in ns
    requires Distinguished(ns)
    requires forall i {:trigger nexts[i]} :: 0 <= i < |ns| ==> nexts[i] == ns[After(|ns|, i)]
    requires forall i {:trigger prevs[i]} :: 0 <= i < |ns| ==> prevs[i] == ns[Before(|ns|, i)]
    requires forall i {:trigger nexts[i]} :: 0 <= i < |ns| - 1 ==> ns[i].next == nexts[i]
    requires forall i {:trigger prevs[i]} :: 0 < i < |ns| ==> ns[i].prev == prevs[i]
    requires ns[|ns| - 1].next == x && ns[0].prev == x && x.next == ns[0] && x.prev == ns[|ns| - 1]
    ensures Ring(ns + [x])
  {
    var r, n := ns + [x], |ns|;
    forall i | 0 <= i < |r| ensures r[i].next == r[After(|r|, i)] && r[i].prev == r[Before(|r|, i)] {
      if i < n {
        assert nexts[i] == ns[After(n, i)];
        assert prevs[i] == ns[Before(n, i)];
      }
    }
  }

  /** ll_append_node: the new node becomes the head's predecessor. */
  method AppendNode<T>(head: Node?<T>, value: T, ghost ns: seq<Node<T>>)
    returns (head': Node<T>, ghost ns': seq<Node<T>>)
    requires Ring(ns) && head == if ns == [] then null else ns[0]
    modifies ns
    ensures |ns'| == |ns| + 1 && ns' == ns + [ns'[|ns|]] && fresh(ns'[|ns|])
    ensures Ring(ns') && head' == ns'[0] && Values(ns') == old(Values(ns)) + [value]
  {
    hide Ring;
    hide After;
    hide Before;
    RingFacts(ns);
    AllDistinct(ns);
    Ends(|ns|);
    ghost var nexts, prevs, values := Nexts(ns), Prevs(ns), Values(ns);
    var newNode := new Node(value);
    ns' := ns + [newNode];
    if head == null {
      head' := newNode;
      newNode.prev := newNode;
      newNode.next := newNode;
      RingOfOne(newNode);
      assert ns' == [newNode];
    } else {
      head' := head;
      var last := head.prev;
      head.prev := newNode;
      last.next := newNode;
      newNode.next := head;
      newNode.prev := last;
      assert prevs[0] == last;
      Appended(ns, newNode, nexts, prevs);
    }
    assert Values(ns') == values + [value];
  }

  /** Position i of a ring without element k, as a position of the ring with it. */
  function Lift(k: nat, i: nat): (j: nat)
    ensures j != k
  {
    if i < k then i else i + 1
  }

  lemma LiftNeighbours(n: nat, k: nat, i: nat)
    requires 1 < n && k < n && i < n - 1
    ensures var j := Lift(k, i);
            && j < n
            && Lift(k, After(n - 1, i)) == (if j == Before(n, k) then After(n, k) else After(n, j))
            && Lift(k, Before(n - 1, i)) == (if j == After(n, k) then Before(n, k) else Before(n, j))
  {}

  lemma RemovedAt<T>(s: seq<T>, k: nat, i: nat)
    requires k < |s| && i < |s| - 1
    ensures |RemoveAt(s, k)| == |s| - 1 && Lift(k, i) < |s| && RemoveAt(s, k)[i] == s[Lift(k, i)]
  {}

  /** Joining the neighbours of node k leaves a ring of the other nodes. `nexts` and `prevs` are the links before. */
  lemma Unlinked<T>(ns: seq<Node<T>>, k: nat, nexts: seq<Node?<T>>, prevs: seq<Node?<T>>)
    requires 1 < |ns| == |nexts| == |prevs| && k < |ns|
    requires Distinguished(ns)
    requires forall i {:trigger nexts[i]} :: 0 <= i < |ns| ==> nexts[i] == ns[After(|ns|, i)]
    requires forall i {:trigger prevs[i]} :: 0 <= i < |ns| ==> prevs[i] == ns[Before(|ns|, i)]
    requires ns[Before(|ns|, k)].next == ns[After(|ns|, k)] && ns[After(|ns|, k)].prev == ns[Before(|ns|, k)]
    requires forall i {:trigger nexts[i]} :: 0 <= i < |ns| && i != k && i != Before(|ns|, k) ==> ns[i].next == nexts[i]
    requires forall i {:trigger prevs[i]} :: 0 <= i < |ns| && i != k && i != After(|ns|, k) ==> ns[i].prev == prevs[i]
    ensures Ring(RemoveAt(ns, k))
  {
    hide After;
    hide Before;
    hide Lift;
    hide RemoveAt;
    var r, n := RemoveAt(ns, k), |ns|;
    forall i | 0 <= i < |r| ensures r[i].next == r[After(|r|, i)] && r[i].prev == r[Before(|r|, i)] {
      LiftNeighbours(n, k, i);
      RemovedAt(ns, k, i);
      RemovedAt(ns, k, After(|r|, i));
      RemovedAt(ns, k, Before(|r|, i));
      var j := Lift(k, i);
      assert r[i] == ns[j];
      assert nexts[j] == ns[After(n, j)];
      assert prevs[j] == ns[Before(n, j)];
    }
    forall i, j | 0 <= i < j < |r| ensures r[i] != r[j] {
      RemovedAt(ns, k, i);
      RemovedAt(ns, k, j);
      LiftDistinct(k, i, j);
    }
  }

  lemma LiftDistinct(k: nat, i: nat, j: nat)
    requires i < j
    ensures Lift(k, i) < Lift(k, j)
  {}

  /** A node is its own neighbour exactly in a ring of one. */
  lemma Neighbours(n: nat, k: nat)
    requires k < n
    ensures (Before(n, k) == k) == (n == 1) && (After(n, k) == k) == (n == 1)
  {}

  lemma RemovedValues<T>(ns: seq<Node<T>>, k: nat)
    requires k < |ns|
    ensures Values(RemoveAt(ns, k)) == RemoveAt(Values(ns), k)
    ensures |ns| == 1 ==> Ring(RemoveAt(ns, k))
  {}

  /**
   * ll_pop_node through a pointer to any node of the ring: that node and no other is unlinked, and the pointer moves on
   * to its successor, or becomes NULL if the ring had only this node.
   */
  method PopNode<T>(ptr: Node<T>, ghost ns: seq<Node<T>>, ghost k: nat) returns (next: Node?<T>)
    requires Ring(ns) && k < |ns| && ptr == ns[k]
    modifies ns
    ensures Ring(RemoveAt(ns, k)) && Values(RemoveAt(ns, k)) == RemoveAt(old(Values(ns)), k)
    ensures next == if |ns| == 1 then null else ns[After(|ns|, k)]
    ensures ptr.value == old(ptr.value) && ptr.next == null && ptr.prev == null
  {
    hide Ring;
    hide Distinguished;
    hide Lift;
    hide RemoveAt;
    hide After;
    hide Before;
    RingFacts(ns);
    AllDistinct(ns);
    Neighbours(|ns|, k);
    RemovedValues(ns, k);
    ghost var nexts, prevs, values := Nexts(ns), Prevs(ns), Values(ns);
    var last := ptr.prev;
    var newHead := ptr.next;
    Distinct(ns, k);
    Distinct(ns, After(|ns|, k));
    Distinct(ns, Before(|ns|, k));
    if last == ptr {
      next := null;
    } else {
      next := newHead;
      last.next := newHead;
      newHead.prev := last;
    }
    ptr.next, ptr.prev := null, null;
    if |ns| > 1 {
      Unlinked(ns, k, nexts, prevs);
    }
    assert Values(ns) == values;
    RemovedValues(ns, k);
  }

  // ---------- traverse and remove ----------

  /**
   * The elements a walk leaves in place; `takes` decides by position and value, so it may stand for any bookkeeping.
   */
  function Kept<T>(vs: seq<T>, takes: (nat, T) -> bool): seq<T> {
    if vs == [] then []
    else
      var n := |vs| - 1;
      Kept(vs[..n], takes) + (if takes(n, vs[n]) then [] else [vs[n]])
  }

  function Taken<T>(vs: seq<T>, takes: (nat, T) -> bool): seq<T> {
    if vs == [] then []
    else
      var n := |vs| - 1;
      Taken(vs[..n], takes) + (if takes(n, vs[n]) then [vs[n]] else [])
  }

  /** Nothing is lost and nothing invented. */
  lemma {:induction false} KeptAndTaken<T>(vs: seq<T>, takes: (nat, T) -> bool)
    ensures multiset(Kept(vs, takes)) + multiset(Taken(vs, takes)) == multiset(vs)
  {
    hide *;
    if vs == [] {
      NothingKept(takes);
    } else {
      var n := |vs| - 1;
      KeptAndTaken(vs[..n], takes);
      KeptSnoc(vs, takes);
      assert vs == vs[..n] + [vs[n]];
      AddOne(vs[..n], vs[n]);
      AddOne(Kept(vs[..n], takes), vs[n]);
      AddOne(Taken(vs[..n], takes), vs[n]);
    }
  }

  lemma NothingKept<T>(takes: (nat, T) -> bool)
    ensures Kept([], takes) == [] && Taken([], takes) == []
  {}

  lemma KeptSnoc<T>(vs: seq<T>, takes: (nat, T) -> bool)
    requires vs != []
    ensures var n := |vs| - 1;
            var k, t := Kept(vs[..n], takes), Taken(vs[..n], takes);
            && Kept(vs, takes) == (if takes(n, vs[n]) then k else k + [vs[n]])
            && Taken(vs, takes) == if takes(n, vs[n]) then t + [vs[n]] else t
  {
    var n := |vs| - 1;
    var k, t := Kept(vs[..n], takes), Taken(vs[..n], takes);
    assert k + [] == k && t + [] == t;
  }

  lemma AddOne<T>(s: seq<T>, x: T)
    ensures multiset(s + [x]) == multiset(s) + multiset{x}
  {}

  /** A list whose first i elements have been reduced to `kept`. */
  ghost function Remaining<T>(kept: seq<T>, vs: seq<T>, i: nat): seq<T>
    requires i <= |vs|
  {
    kept + vs[i..]
  }

  /** One step of a walk that has kept `kept` and taken `taken` of the first i elements. */
  lemma WalkStep<T>(vs: seq<T>, takes: (nat, T) -> bool, i: nat, kept: seq<T>, taken: seq<T>, outs: seq<T>)
    requires i < |vs| && kept == Kept(vs[..i], takes) && taken == Taken(vs[..i], takes)
    ensures var now := Remaining(kept, vs, i);
            && |now| == |kept| + (|vs| - i) && now[|kept|] == vs[i]
            && (!takes(i, vs[i]) ==>
                  && kept + [vs[i]] == Kept(vs[..i + 1], takes) && taken == Taken(vs[..i + 1], takes)
                  && now == Remaining(kept + [vs[i]], vs, i + 1))
            && (takes(i, vs[i]) ==>
                  && kept == Kept(vs[..i + 1], takes) && taken + [vs[i]] == Taken(vs[..i + 1], takes)
                  && RemoveAt(now, |kept|) == Remaining(kept, vs, i + 1)
                  && (outs + taken) + [vs[i]] == outs + (taken + [vs[i]]))
  {
    assert vs[..i + 1][..i] == vs[..i];
  }

  lemma KeptNone<T>(vs: seq<T>, takes: (nat, T) -> bool)
    ensures Kept(vs[..0], takes) == [] && Taken(vs[..0], takes) == []
    ensures vs == Remaining([], vs, 0)
    ensures Remaining(Kept(vs, takes), vs, |vs|) == Kept(vs, takes)
  {}

  lemma RemovedFacts<T>(s: seq<T>, k: nat)
    requires k < |s|
    ensures forall i :: 0 <= i < |s| - 1 ==> RemoveAt(s, k)[i] == s[Lift(k, i)] && Lift(k, i) < |s|
    ensures k + 1 < |s| ==> RemoveAt(s, k)[k] == s[k + 1] && After(|s|, k) == k + 1
    ensures k > 0 ==> RemoveAt(s, k)[0] == s[0]
    ensures RemoveAt(s, k) == [] <==> |s| == 1
  {
    forall i | 0 <= i < |s| - 1 ensures RemoveAt(s, k)[i] == s[Lift(k, i)] {
      RemovedAt(s, k, i);
    }
  }

  lemma FirstOnly<T>(ns: seq<Node<T>>, k: nat)
    requires Ring(ns) && k < |ns| && ns[k] == ns[0]
    ensures k == 0
  {}

  /** Unlink the node a walk stands at; if that is the head, the head moves on too. */
  method Unlink<T>(head: Node<T>, node: Node<T>, ghost ns: seq<Node<T>>, ghost k: nat)
    returns (head': Node?<T>, node': Node?<T>)
    requires Ring(ns) && k < |ns| && head == ns[0] && node == ns[k]
    modifies ns
    ensures Ring(RemoveAt(ns, k)) && Values(RemoveAt(ns, k)) == RemoveAt(old(Values(ns)), k)
    ensures head' == if RemoveAt(ns, k) == [] then null else RemoveAt(ns, k)[0]
    ensures k + 1 < |ns| ==> node' == RemoveAt(ns, k)[k]
    ensures node.value == old(node.value)
  {
    hide Ring;
    hide RemoveAt;
    hide After;
    Neighbours(|ns|, k);
    RemovedFacts(ns, k);
    if node == head {
      FirstOnly(ns, k);
      node' := PopNode(head, ns, k);
      head' := node';
    } else {
      head' := head;
      node' := PopNode(node, ns, k);
    }
  }

  /** A list variable: its head pointer, and which nodes it owns. */
  class List<T> {
    var head: Node?<T>
    ghost var nodes: seq<Node<T>>
    ghost var repr: set<object>

    ghost predicate Valid()
      reads this, repr
    {
      && (forall i :: 0 <= i < |nodes| ==> nodes[i] in repr)
      && Ring(nodes) && head == if nodes == [] then null else nodes[0]
    }

    /** What the list holds. */
    ghost function View(): seq<T>
      requires Valid()
      reads this, repr
    {
      Values(nodes)
    }

    constructor ()
      ensures Valid() && View() == [] && fresh(repr)
    {
      head, nodes, repr := null, [], {};
    }

    method Length() returns (n: nat)
      requires Valid()
      ensures n == |View()|
    {
      n := GetLength(head, nodes);
    }

    method Append(value: T)
      requires Valid() && this !in repr
      modifies this, repr
      ensures Valid() && View() == old(View()) + [value]
      ensures fresh(repr - old(repr))
    {
      hide Ring;
      hide Values;
      head, nodes := AppendNode(head, value, nodes);
      repr := repr + {nodes[|nodes| - 1]};
    }

    lemma Parts()
      requires Valid()
      ensures |View()| == |nodes| && forall i :: 0 <= i < |nodes| ==> View()[i] == nodes[i].value
      ensures nodes != [] ==> head == nodes[0]
    {}

    /** The pointer to the next node; behind the last node it wraps to the first. */
    method Following(node: Node<T>, ghost k: nat) returns (node': Node<T>)
      requires Valid() && k < |nodes| && node == nodes[k]
      ensures node' == nodes[if k + 1 == |nodes| then 0 else k + 1]
    {
      node' := node.next;
    }

    /** Unlink the node at position k, reached through an interior pointer; return the pointer moved on. */
    method Remove(node: Node<T>, ghost k: nat) returns (node': Node?<T>)
      requires Valid() && this !in repr && k < |nodes| && node == nodes[k]
      modifies this, repr
      ensures Valid() && repr == old(repr) && nodes == RemoveAt(old(nodes), k)
      ensures View() == RemoveAt(old(View()), k) && |old(View())| == |old(nodes)|
      ensures k < |nodes| ==> node' == nodes[k]
    {
      hide Ring;
      hide RemoveAt;
      hide Values;
      RemovedFacts(nodes, k);
      head, node' := Unlink(head, node, nodes, k);
      nodes := RemoveAt(nodes, k);
    }
  }

  /** Take the node at position k off one list and append its value to another. */
  method MoveOne<T>(list: List<T>, out: List<T>, node: Node<T>, ghost k: nat) returns (node': Node?<T>)
    requires list.Valid() && out.Valid() && Separate(list, out) && k < |list.nodes| && node == list.nodes[k]
    modifies list, out, list.repr, out.repr
    ensures list.Valid() && out.Valid() && Separate(list, out)
    ensures list.repr == old(list.repr) && fresh(out.repr - old(out.repr))
    ensures |old(list.View())| == |old(list.nodes)| == |list.nodes| + 1
    ensures list.View() == RemoveAt(old(list.View()), k)
    ensures out.View() == old(out.View()) + [old(list.View())[k]]
    ensures k < |list.nodes| ==> node' == list.nodes[k]
  {
    hide Ring;
    hide RemoveAt;
    var value := node.value;
    node' := list.Remove(node, k);
    out.Append(value);
  }

  ghost predicate Separate<T>(list: List<T>, out: List<T>)
    reads list, out
  {
    list != out && list !in list.repr + out.repr && out !in list.repr + out.repr && list.repr !! out.repr
  }

  /**
   * The loop that walks a list, unlinking some nodes and appending their values to another list: every element is
   * visited once, and both lists end up in the original order.
   */
  method MoveSome<T>(list: List<T>, out: List<T>, takes: (nat, T) -> bool)
    requires list.Valid() && out.Valid() && Separate(list, out)
    modifies list, out, list.repr, out.repr
    ensures list.Valid() && list.View() == Kept(old(list.View()), takes)
    ensures out.Valid() && out.View() == old(out.View()) + Taken(old(list.View()), takes)
  {
    hide *;
    ghost var vs, outs := list.View(), out.View();
    ghost var kept, taken := Kept(vs[..0], takes), Taken(vs[..0], takes);
    var node := list.head;
    var length := list.Length();
    var i := 0;
    ghost var pos: nat := 0;
    KeptNone(vs, takes);
    list.Parts();
    while i < length
      invariant 0 <= i <= length == |vs|
      invariant list.Valid() && out.Valid() && Separate(list, out)
      invariant list.repr == old(list.repr) && fresh(out.repr - old(out.repr))
      invariant kept == Kept(vs[..i], takes) && taken == Taken(vs[..i], takes)
      invariant list.View() == Remaining(kept, vs, i) && out.View() == outs + taken
      invariant |list.nodes| == pos + (length - i) && pos == |kept|
      invariant i < length ==> node == list.nodes[pos]
    {
      WalkStep(vs, takes, i, kept, taken, outs);
      list.Parts();
      var value := node.value;
      if !takes(i, value) {
        node := list.Following(node, pos);
        kept, pos := kept + [value], pos + 1;
      } else {
        node := MoveOne(list, out, node, pos);
        taken := taken + [value];
      }
      i := i + 1;
    }
    assert vs[..i] == vs;
  }
}
