/** The reference-counted lists of core/acpi_dsdt.c (pathlist, buflist and limitlist have the same operations):
    nodes shared by the heads of many configurations. */
module RefLists {
  import opened Wrappers

  /** A node; next 0 is NULL. */
  datatype Node<E> = Node(element: E, next: nat, ref: nat)

  type Nodes<E> = map<nat, Node<E>>

  /** Links lead to older nodes that are allocated. */
  ghost predicate Linked<E>(nodes: Nodes<E>) {
    && 0 !in nodes
    && forall p :: p in nodes ==> nodes[p].next < p && (nodes[p].next == 0 || nodes[p].next in nodes)
  }

  /** The nodes whose link leads to p. */
  ghost function Preds<E>(nodes: Nodes<E>, p: nat): set<nat> {
    set q | q in nodes && nodes[q].next == p
  }

  function Count(s: seq<nat>, p: nat): nat {
    if s == [] then 0 else (if s[0] == p then 1 else 0) + Count(s[1..], p)
  }

  lemma {:induction false} CountUpdate(s: seq<nat>, i: nat, q: nat, p: nat)
    requires i < |s| && s[i] != q
    ensures Count(s[i := q], p) == Count(s, p) - (if p == s[i] then 1 else 0) + (if p == q then 1 else 0)
  {
    if i == 0 {
      assert s[i := q][1..] == s[1..];
    } else {
      assert s[i := q][1..] == s[1..][i - 1 := q];
      CountUpdate(s[1..], i - 1, q, p);
    }
  }

  lemma {:induction false} CountAdd(s: seq<nat>, x: nat, p: nat)
    ensures Count(s + [x], p) == Count(s, p) + if p == x then 1 else 0
  {
    if s != [] {
      assert (s + [x])[1..] == s[1..] + [x];
      CountAdd(s[1..], x, p);
    }
  }

  lemma {:induction false} CountIn(s: seq<nat>, p: nat)
    ensures Count(s, p) > 0 <==> p in s
  {
    if s != [] {
      CountIn(s[1..], p);
      assert p in s <==> p == s[0] || p in s[1..];
    }
  }

  /** ref is the number of heads and nodes that point to the node, and it is never zero. */
  ghost predicate CountedAt<E>(nodes: Nodes<E>, heads: seq<nat>, p: nat)
    requires p in nodes
  {
    nodes[p].ref == Count(heads, p) + |Preds(nodes, p)| && nodes[p].ref > 0
  }

  ghost predicate HeadsIn(keys: set<nat>, heads: seq<nat>) {
    forall i :: 0 <= i < |heads| ==> heads[i] == 0 || heads[i] in keys
  }

  ghost predicate Counted<E>(nodes: Nodes<E>, heads: seq<nat>) {
    (forall p :: p in nodes ==> CountedAt(nodes, heads, p)) && HeadsIn(nodes.Keys, heads)
  }

  /** The nodes that are in both have the same element and the same link. */
  ghost predicate SameLinks<E>(nodes: Nodes<E>, nodes': Nodes<E>) {
    forall q :: q in nodes && q in nodes' ==> nodes'[q].element == nodes[q].element && nodes'[q].next == nodes[q].next
  }

  /** The elements of the list at p. */
  ghost function Elements<E>(nodes: Nodes<E>, p: nat): seq<E>
    requires Linked(nodes) && (p == 0 || p in nodes)
    decreases p
  {
    if p == 0 then [] else [nodes[p].element] + Elements(nodes, nodes[p].next)
  }

  /** A node that nothing links to can be dropped, or have its count changed, without changing a list. */
  lemma {:induction false} ElementsKept<E>(nodes: Nodes<E>, nodes': Nodes<E>, p: nat)
    requires Linked(nodes) && Linked(nodes') && (p == 0 || (p in nodes && p in nodes'))
    requires SameLinks(nodes, nodes')
    ensures Elements(nodes', p) == Elements(nodes, p)
    decreases p
  {
    if p != 0 {
      ElementsKept(nodes, nodes', nodes[p].next);
    }
  }

  lemma Youngest(s: set<nat>) returns (p: nat)
    requires s != {}
    ensures p in s && forall q :: q in s ==> q <= p
  {
    var x :| x in s;
    if s == {x} {
      p := x;
    } else {
      p := Youngest(s - {x});
      assert forall q :: q in s ==> q == x || q in s - {x};
      if x > p {
        p := x;
      }
    }
  }

  /** The counts are exact, and lists[i] is what the nodes from heads[i] on hold. */
  ghost predicate Holds<E>(nodes: Nodes<E>, heads: seq<nat>, lists: seq<seq<E>>) {
    && Linked(nodes) && Counted(nodes, heads)
    && |lists| == |heads| && forall i :: 0 <= i < |heads| ==> lists[i] == Elements(nodes, heads[i])
  }

  /** With no list left, no node is left. */
  lemma NothingLeft<E>(nodes: Nodes<E>, heads: seq<nat>, lists: seq<seq<E>>)
    requires Holds(nodes, heads, lists)
    requires forall i :: 0 <= i < |lists| ==> lists[i] == []
    ensures nodes == map[]
  {
    forall i | 0 <= i < |heads| ensures heads[i] == 0 {
      TopHeld(nodes, heads, lists, i);
    }
    if nodes != map[] {
      var p := Youngest(nodes.Keys);
      assert CountedAt(nodes, heads, p);
      CountIn(heads, p);
    }
  }

  lemma TopHeld<E>(nodes: Nodes<E>, heads: seq<nat>, lists: seq<seq<E>>, i: nat)
    requires Holds(nodes, heads, lists) && i < |heads|
    ensures lists[i] == [] <==> heads[i] == 0
    ensures heads[i] != 0 ==> lists[i][0] == nodes[heads[i]].element
  {
    assert lists[i] == Elements(nodes, heads[i]);
  }

  lemma ElementsUnlike<E>(nodes: Nodes<E>, p: nat, q: nat)
    requires Linked(nodes) && (p == 0 || p in nodes) && (q == 0 || q in nodes) && p != q
    requires p == 0 || q == 0 || nodes[p].element != nodes[q].element
    ensures Elements(nodes, p) != Elements(nodes, q)
  {
    assert p != 0 ==> Elements(nodes, p)[0] == nodes[p].element;
    assert q != 0 ==> Elements(nodes, q)[0] == nodes[q].element;
  }

  ghost predicate Bounded(keys: set<nat>, limit: nat) {
    limit > 0 && forall p :: p in keys ==> p < limit
  }

  /** p gets one more pointer. */
  function Retained<E>(nodes: Nodes<E>, p: nat): Nodes<E>
    requires p == 0 || p in nodes
  {
    if p == 0 then nodes else nodes[p := nodes[p].(ref := nodes[p].ref + 1)]
  }

  /** A node that others point to as well loses a pointer. */
  function Parted<E>(nodes: Nodes<E>, p: nat): Nodes<E>
    requires p in nodes && nodes[p].ref > 1
  {
    nodes[p := nodes[p].(ref := nodes[p].ref - 1)]
  }

  /** Node q after a pointer moved from cur to next. */
  ghost predicate Moved<E>(nodes: Nodes<E>, nodes': Nodes<E>, cur: nat, next: nat, q: nat)
    requires q in nodes && q in nodes'
  {
    && nodes'[q].next == nodes[q].next && nodes'[q].element == nodes[q].element
    && nodes'[q].ref == nodes[q].ref - (if q == cur then 1 else 0) + (if q == next then 1 else 0)
  }

  ghost predicate AllMoved<E>(nodes: Nodes<E>, nodes': Nodes<E>, cur: nat, next: nat) {
    nodes'.Keys == nodes.Keys && forall q :: q in nodes ==> Moved(nodes, nodes', cur, next, q)
  }

  lemma LinksSame<E>(nodes: Nodes<E>, nodes': Nodes<E>, cur: nat, next: nat)
    requires Linked(nodes) && AllMoved(nodes, nodes', cur, next)
    ensures Linked(nodes') && SameLinks(nodes, nodes')
  {
    forall q | q in nodes' ensures nodes'[q].next == nodes[q].next && nodes'[q].element == nodes[q].element {
      assert q in nodes && Moved(nodes, nodes', cur, next, q);
    }
  }

  lemma HeadCount(heads: seq<nat>, i: nat, q: nat, p: nat)
    requires i < |heads| && heads[i] != q
    ensures Count(heads[i := q], p) == Count(heads, p) - (if p == heads[i] then 1 else 0) + (if p == q then 1 else 0)
    ensures Count(heads, heads[i]) > 0
  {
    CountUpdate(heads, i, q, p);
    CountIn(heads, heads[i]);
  }

  /** One more head points to p. */
  lemma ForkCounted<E>(nodes: Nodes<E>, nodes': Nodes<E>, heads: seq<nat>, p: nat)
    requires Linked(nodes) && Counted(nodes, heads) && (p == 0 || p in nodes) && AllMoved(nodes, nodes', 0, p)
    ensures Linked(nodes') && Counted(nodes', heads + [p])
  {
    LinksSame(nodes, nodes', 0, p);
    forall q | q in nodes' ensures CountedAt(nodes', heads + [p], q) {
      assert Moved(nodes, nodes', 0, p, q) && CountedAt(nodes, heads, q);
      CountAdd(heads, p, q);
      SamePreds(nodes, nodes', 0, p, q);
    }
  }

  /** The pointer of a head moves from a shared node to next. */
  lemma CountedSame<E>(nodes: Nodes<E>, nodes': Nodes<E>, heads: seq<nat>, i: nat, next: nat)
    requires Counted(nodes, heads) && i < |heads| && heads[i] != next && heads[i] in nodes && nodes[heads[i]].ref > 1
    requires (next == 0 || next in nodes) && AllMoved(nodes, nodes', heads[i], next)
    ensures Counted(nodes', heads[i := next])
  {
    forall q | q in nodes' ensures CountedAt(nodes', heads[i := next], q) {
      assert Moved(nodes, nodes', heads[i], next, q) && CountedAt(nodes, heads, q);
      SamePreds(nodes, nodes', heads[i], next, q);
      HeadCount(heads, i, next, q);
    }
  }

  /** A head moves from a shared node to the next one. */
  lemma MoveCounted<E>(nodes: Nodes<E>, nodes': Nodes<E>, heads: seq<nat>, i: nat)
    requires Linked(nodes) && Counted(nodes, heads) && i < |heads| && heads[i] != 0 && nodes[heads[i]].ref > 1
    requires AllMoved(nodes, nodes', heads[i], nodes[heads[i]].next)
    ensures Linked(nodes') && Counted(nodes', heads[i := nodes[heads[i]].next])
  {
    LinksSame(nodes, nodes', heads[i], nodes[heads[i]].next);
    CountedSame(nodes, nodes', heads, i, nodes[heads[i]].next);
  }

  lemma DetachCounted<E>(nodes: Nodes<E>, nodes': Nodes<E>, heads: seq<nat>, i: nat)
    requires Linked(nodes) && Counted(nodes, heads) && i < |heads| && heads[i] != 0 && nodes[heads[i]].ref > 1
    requires AllMoved(nodes, nodes', heads[i], 0)
    ensures Linked(nodes') && Counted(nodes', heads[i := 0])
  {
    LinksSame(nodes, nodes', heads[i], 0);
    CountedSame(nodes, nodes', heads, i, 0);
  }

  lemma NoPreds<E>(nodes: Nodes<E>, p: nat)
    requires |Preds(nodes, p)| == 0
    ensures forall q :: q in nodes ==> nodes[q].next != p
  {
    assert forall q :: q in nodes && nodes[q].next == p ==> q in Preds(nodes, p);
  }

  lemma OtherHead(heads: seq<nat>, i: nat, j: nat)
    requires i < |heads| && j < |heads| && i != j && Count(heads, heads[i]) == 1
    ensures heads[j] != heads[i]
  {
    if heads[j] == heads[i] {
      CountUpdate(heads, i, heads[i] + 1, heads[i]);
      CountIn(heads[i := heads[i] + 1], heads[j]);
    }
  }

  /** A new node takes the place of the head it links to. */
  lemma PushCounted<E>(nodes: Nodes<E>, heads: seq<nat>, i: nat, p: nat, element: E)
    requires Linked(nodes) && Counted(nodes, heads) && i < |heads| && Bounded(nodes.Keys, p)
    ensures var nodes' := nodes[p := Node(element, heads[i], 1)]; Linked(nodes') && Counted(nodes', heads[i := p])
  {
    var nodes' := nodes[p := Node(element, heads[i], 1)];
    forall q | q in nodes' ensures CountedAt(nodes', heads[i := p], q) {
      PredsAdded(nodes, nodes', p, q);
      HeadCount(heads, i, p, q);
      if q == p {
        CountIn(heads, p);
        assert p !in heads && Preds(nodes, p) == {};
      } else {
        assert CountedAt(nodes, heads, q);
      }
    }
  }

  /** The last pointer to a node goes; its link becomes the head. */
  lemma DropCounted<E>(nodes: Nodes<E>, heads: seq<nat>, i: nat)
    requires Linked(nodes) && Counted(nodes, heads) && i < |heads| && heads[i] != 0 && nodes[heads[i]].ref == 1
    ensures var nodes' := nodes - {heads[i]}; Linked(nodes') && Counted(nodes', heads[i := nodes[heads[i]].next])
  {
    var cur, next := heads[i], nodes[heads[i]].next;
    var nodes' := nodes - {cur};
    assert CountedAt(nodes, heads, cur);
    HeadCount(heads, i, next, cur);
    NoPreds(nodes, cur);
    forall q | q in nodes' ensures CountedAt(nodes', heads[i := next], q) {
      assert CountedAt(nodes, heads, q);
      PredsRemoved(nodes, nodes', cur, q);
      HeadCount(heads, i, next, q);
    }
    forall j | 0 <= j < |heads| && j != i ensures heads[j] != cur {
      OtherHead(heads, i, j);
    }
  }

  lemma SamePreds<E>(nodes: Nodes<E>, nodes': Nodes<E>, cur: nat, next: nat, p: nat)
    requires AllMoved(nodes, nodes', cur, next)
    ensures Preds(nodes', p) == Preds(nodes, p)
  {
    forall q | q in nodes ensures q in Preds(nodes', p) <==> q in Preds(nodes, p) {
      assert Moved(nodes, nodes', cur, next, q);
    }
  }

  lemma PredsAdded<E>(nodes: Nodes<E>, nodes': Nodes<E>, p: nat, q: nat)
    requires p !in nodes && nodes'.Keys == nodes.Keys + {p}
    requires forall r :: r in nodes ==> nodes'[r] == nodes[r]
    ensures |Preds(nodes', q)| == |Preds(nodes, q)| + (if nodes'[p].next == q then 1 else 0)
  {
    if nodes'[p].next == q {
      assert Preds(nodes', q) == Preds(nodes, q) + {p};
    } else {
      assert Preds(nodes', q) == Preds(nodes, q);
    }
  }

  lemma PredsRemoved<E>(nodes: Nodes<E>, nodes': Nodes<E>, p: nat, q: nat)
    requires p in nodes && nodes'.Keys == nodes.Keys - {p}
    requires forall r :: r in nodes' ==> nodes'[r].next == nodes[r].next
    ensures |Preds(nodes', q)| == |Preds(nodes, q)| - (if nodes[p].next == q then 1 else 0)
  {
    assert Preds(nodes, q) == Preds(nodes', q) + (if nodes[p].next == q then {p} else {});
  }

  lemma ListsKept<E>(nodes: Nodes<E>, nodes': Nodes<E>, heads: seq<nat>)
    requires Linked(nodes) && Linked(nodes')
    requires SameLinks(nodes, nodes') && HeadsIn(nodes.Keys, heads) && HeadsIn(nodes'.Keys, heads)
    ensures forall i :: 0 <= i < |heads| ==> Elements(nodes', heads[i]) == Elements(nodes, heads[i])
  {
    forall i | 0 <= i < |heads| ensures Elements(nodes', heads[i]) == Elements(nodes, heads[i]) {
      ElementsKept(nodes, nodes', heads[i]);
    }
  }

  /** One more head is to point to the node of head i. */
  method Share<E>(nodes: Nodes<E>, heads: seq<nat>, ghost lists: seq<seq<E>>, i: nat) returns (nodes': Nodes<E>)
    requires Holds(nodes, heads, lists) && i < |heads|
    ensures nodes'.Keys == nodes.Keys && Holds(nodes', heads + [heads[i]], lists + [lists[i]])
  {
    nodes' := Retained(nodes, heads[i]);
    ForkHolds(nodes, nodes', heads, lists, i);
  }

  lemma ForkHolds<E>(nodes: Nodes<E>, nodes': Nodes<E>, heads: seq<nat>, lists: seq<seq<E>>, i: nat)
    requires Holds(nodes, heads, lists) && i < |heads| && AllMoved(nodes, nodes', 0, heads[i])
    ensures Holds(nodes', heads + [heads[i]], lists + [lists[i]])
  {
    LinksSame(nodes, nodes', 0, heads[i]);
    ForkCounted(nodes, nodes', heads, heads[i]);
    ListsKept(nodes, nodes', heads);
  }

  /** The pointer of head i is to move from its node to the next one. */
  method MovePointer<E>(nodes: Nodes<E>, heads: seq<nat>, ghost lists: seq<seq<E>>, i: nat) returns (nodes': Nodes<E>)
    requires Holds(nodes, heads, lists) && i < |heads| && heads[i] != 0 && nodes[heads[i]].ref > 1
    ensures lists[i] != [] && nodes'.Keys == nodes.Keys
    ensures Holds(nodes', heads[i := nodes[heads[i]].next], lists[i := lists[i][1..]])
  {
    nodes' := Retained(Parted(nodes, heads[i]), nodes[heads[i]].next);
    MoveHolds(nodes, nodes', heads, lists, i);
  }

  lemma MoveHolds<E>(nodes: Nodes<E>, nodes': Nodes<E>, heads: seq<nat>, lists: seq<seq<E>>, i: nat)
    requires Holds(nodes, heads, lists) && i < |heads| && heads[i] != 0 && nodes[heads[i]].ref > 1
    requires AllMoved(nodes, nodes', heads[i], nodes[heads[i]].next)
    ensures lists[i] != [] && Holds(nodes', heads[i := nodes[heads[i]].next], lists[i := lists[i][1..]])
  {
    var next := nodes[heads[i]].next;
    LinksSame(nodes, nodes', heads[i], next);
    MoveCounted(nodes, nodes', heads, i);
    ListsKept(nodes, nodes', heads);
    ElementsKept(nodes, nodes', next);
    assert Elements(nodes, heads[i]) == [nodes[heads[i]].element] + Elements(nodes, next);
  }

  lemma PushHolds<E>(nodes: Nodes<E>, heads: seq<nat>, lists: seq<seq<E>>, i: nat, p: nat, element: E)
    requires Holds(nodes, heads, lists) && i < |heads| && Bounded(nodes.Keys, p)
    ensures Holds(nodes[p := Node(element, heads[i], 1)], heads[i := p], lists[i := [element] + lists[i]])
  {
    PushCounted(nodes, heads, i, p, element);
    ListsKept(nodes, nodes[p := Node(element, heads[i], 1)], heads);
  }

  lemma DropHolds<E>(nodes: Nodes<E>, heads: seq<nat>, lists: seq<seq<E>>, i: nat)
    requires Holds(nodes, heads, lists) && i < |heads| && heads[i] != 0 && nodes[heads[i]].ref == 1
    ensures lists[i] != []
    ensures Holds(nodes - {heads[i]}, heads[i := nodes[heads[i]].next], lists[i := lists[i][1..]])
  {
    DropCounted(nodes, heads, i);
    ListsKept(nodes, nodes - {heads[i]}, heads[i := nodes[heads[i]].next]);
    assert Elements(nodes, heads[i]) == [nodes[heads[i]].element] + Elements(nodes, nodes[heads[i]].next);
  }

  /** The lists after head i has given up its shared node. */
  lemma DetachHolds<E>(nodes: Nodes<E>, nodes': Nodes<E>, heads: seq<nat>, lists: seq<seq<E>>, i: nat)
    requires Holds(nodes, heads, lists) && i < |heads| && heads[i] != 0 && nodes[heads[i]].ref > 1
    requires AllMoved(nodes, nodes', heads[i], 0)
    ensures Holds(nodes', heads[i := 0], lists[i := []])
  {
    LinksSame(nodes, nodes', heads[i], 0);
    DetachCounted(nodes, nodes', heads, i);
    ListsKept(nodes, nodes', heads);
  }

  method LeaveShared<E>(nodes: Nodes<E>, heads: seq<nat>, ghost lists: seq<seq<E>>, i: nat) returns (nodes': Nodes<E>)
    requires Holds(nodes, heads, lists) && i < |heads| && heads[i] != 0 && nodes[heads[i]].ref > 1
    ensures nodes'.Keys == nodes.Keys && Holds(nodes', heads[i := 0], lists[i := []])
  {
    nodes' := Parted(nodes, heads[i]);
    DetachHolds(nodes, nodes', heads, lists, i);
  }

  class Store<E(==)> {
    var nodes: Nodes<E>
    /** The heads held by the configurations of the parser. */
    var heads: seq<nat>
    /** Every allocated node is older than this. */
    var limit: nat
    /** The list of every configuration. */
    ghost var lists: seq<seq<E>>

    ghost predicate Valid()
      reads this
    {
      && Holds(nodes, heads, lists)
      && Bounded(nodes.Keys, limit)
    }

    constructor ()
      ensures Valid() && heads == [] && nodes == map[] && lists == []
    {
      nodes, heads, limit, lists := map[], [], 1, [];
    }

    /** A configuration with an empty list. */
    method Open() returns (i: nat)
      requires Valid()
      modifies `heads, `lists
      ensures Valid() && i == |old(lists)| && lists == old(lists) + [[]]
    {
      i := |heads|;
      assert AllMoved(nodes, nodes, 0, 0);
      ForkCounted(nodes, nodes, heads, 0);
      heads := heads + [0];
      lists := lists + [[]];
    }

    /** addbufsub: a new configuration shares the list of configuration i. */
    method Fork(i: nat) returns (k: nat)
      requires Valid() && i < |lists|
      modifies `nodes, `heads, `lists
      ensures Valid() && k == |old(lists)| && lists == old(lists) + [old(lists[i])]
    {
      k := |heads|;
      nodes := Share(nodes, heads, lists, i);
      heads := heads + [heads[i]];
      lists := lists + [lists[i]];
    }

    /** addbuflist and its likes: an element is pushed on the list of configuration i. */
    method Push(i: nat, element: E)
      requires Valid() && i < |lists|
      modifies this
      ensures Valid() && lists == old(lists)[i := [element] + old(lists[i])]
    {
      var p := limit;
      limit := limit + 1;
      PushHolds(nodes, heads, lists, i, p, element);
      nodes := nodes[p := Node(element, heads[i], 1)];
      heads := heads[i := p];
      lists := lists[i := [element] + lists[i]];
    }

    /** poppkgend and the pop of parsemain: the head element of configuration i is dropped. */
    method Pop(i: nat) returns (element: E)
      requires Valid() && i < |lists| && lists[i] != []
      modifies `nodes, `heads, `lists
      ensures Valid() && old(lists[i]) != [] && element == old(lists[i])[0]
      ensures lists == old(lists)[i := old(lists[i])[1..]]
    {
      TopHeld(nodes, heads, lists, i);
      element := nodes[heads[i]].element;
      if nodes[heads[i]].ref == 1 {
        PopLast(i);
      } else {
        PopShared(i);
      }
    }

    /** The count drops to zero: the node is freed and its link takes its place. */
    method PopLast(i: nat)
      requires Valid() && i < |heads| && heads[i] != 0 && nodes[heads[i]].ref == 1
      modifies `nodes, `heads, `lists
      ensures Valid() && old(lists[i]) != [] && lists == old(lists)[i := old(lists[i])[1..]]
    {
      var cur := heads[i];
      DropHolds(nodes, heads, lists, i);
      heads := heads[i := nodes[cur].next];
      nodes := nodes - {cur};
      lists := lists[i := lists[i][1..]];
    }

    /** The node stays in use elsewhere; the next one gets one more pointer. */
    method PopShared(i: nat)
      requires Valid() && i < |heads| && heads[i] != 0 && nodes[heads[i]].ref > 1
      modifies `nodes, `heads, `lists
      ensures Valid() && old(lists[i]) != [] && lists == old(lists)[i := old(lists[i])[1..]]
    {
      var next := nodes[heads[i]].next;
      nodes := MovePointer(nodes, heads, lists, i);
      heads := heads[i := next];
      lists := lists[i := lists[i][1..]];
    }

    /** parsefreebuflist and its likes: configuration i gives up its list; nodes that nothing points to any more
        are freed, up to the first shared one. */
    method Release(i: nat)
      requires Valid() && i < |lists|
      modifies `nodes, `heads, `lists
      ensures Valid() && lists == old(lists)[i := []]
    {
      while heads[i] != 0 && nodes[heads[i]].ref == 1
        invariant Valid() && |lists| == |old(lists)| && lists == old(lists)[i := lists[i]]
        decreases |lists[i]|
      {
        PopLast(i);
      }
      if heads[i] != 0 {
        Detach(i);
      }
    }

    /** The count of a shared node is decremented and the head forgotten. */
    method Detach(i: nat)
      requires Valid() && i < |heads| && heads[i] != 0 && nodes[heads[i]].ref > 1
      modifies `nodes, `heads, `lists
      ensures Valid() && lists == old(lists)[i := []]
    {
      nodes := LeaveShared(nodes, heads, lists, i);
      heads := heads[i := 0];
      lists := lists[i := []];
    }

    /** The head element, if there is one. */
    method Top(i: nat) returns (element: Option<E>)
      requires Valid() && i < |lists|
      ensures element == if lists[i] == [] then None else Some(lists[i][0])
    {
      TopHeld(nodes, heads, lists, i);
      element := if heads[i] == 0 then None else Some(nodes[heads[i]].element);
    }

    /** eqlist: two lists are compared until they share a node. */
    method EqList(i: nat, k: nat) returns (eq: bool)
      requires Valid() && i < |lists| && k < |lists|
      ensures eq <==> lists[i] == lists[k]
    {
      var p, q := heads[i], heads[k];
      while p != q
        invariant (p == 0 || p in nodes) && (q == 0 || q in nodes)
        invariant lists[i] == lists[k] <==> Elements(nodes, p) == Elements(nodes, q)
        decreases p
      {
        if p == 0 || q == 0 || nodes[p].element != nodes[q].element {
          ElementsUnlike(nodes, p, q);
          return false;
        }
        assert Elements(nodes, p)[1..] == Elements(nodes, nodes[p].next);
        assert Elements(nodes, q)[1..] == Elements(nodes, nodes[q].next);
        p, q := nodes[p].next, nodes[q].next;
      }
      eq := true;
    }
  }
}
