/** The skew heap seen as a mathematical tree: what merging, inserting and
    removing compute, and why the results stay heap-ordered. */
module SkewTree {

  datatype Tree<T> = Empty | Node(left: Tree<T>, elem: T, right: Tree<T>)

  /** The comparison callback; only the result -1 is read as "less". */
  type Compare<!T> = (T, T) -> int

  /** x may stand above y. */
  predicate Le<T>(comp: Compare<T>, x: T, y: T)
  {
    comp(y, x) != -1
  }

  /** The contract of the callback on the elements of s. */
  ghost predicate TotalPreorder<T>(comp: Compare<T>, s: set<T>)
  {
    && (forall x, y :: x in s && y in s ==> Le(comp, x, y) || Le(comp, y, x))
    && (forall x, y, z :: x in s && y in s && z in s && Le(comp, x, y) && Le(comp, y, z) ==> Le(comp, x, z))
  }

  ghost function Elems<T>(t: Tree<T>): set<T>
  {
    match t
    case Empty => {}
    case Node(l, x, r) => Elems(l) + {x} + Elems(r)
  }

  function Contents<T(==)>(t: Tree<T>): multiset<T>
  {
    match t
    case Empty => multiset{}
    case Node(l, x, r) => Contents(l) + multiset{x} + Contents(r)
  }

  function Size<T>(t: Tree<T>): nat
  {
    match t
    case Empty => 0
    case Node(l, _, r) => Size(l) + 1 + Size(r)
  }

  /** No element occurs twice. */
  ghost predicate Distinct<T>(t: Tree<T>)
  {
    match t
    case Empty => true
    case Node(l, x, r) =>
      Distinct(l) && Distinct(r) && Elems(l) !! Elems(r) && x !in Elems(l) && x !in Elems(r)
  }

  /** Heap order: every node may stand above everything below it. */
  ghost predicate Ordered<T>(comp: Compare<T>, t: Tree<T>)
  {
    match t
    case Empty => true
    case Node(l, x, r) =>
      && Ordered(comp, l) && Ordered(comp, r)
      && (forall y :: y in Elems(l) ==> Le(comp, x, y))
      && (forall y :: y in Elems(r) ==> Le(comp, x, y))
  }

  // ----- Operations -----

  function Merge<T>(comp: Compare<T>, a: Tree<T>, b: Tree<T>): Tree<T>
    decreases a, b
  {
    if a.Empty? then b
    else if b.Empty? then a
    else if comp(a.elem, b.elem) == -1 then
      Node(Merge(comp, a.right, b), a.elem, a.left)
    else
      Node(Merge(comp, a, b.right), b.elem, b.left)
  }

  function Singleton<T>(x: T): Tree<T>
  {
    Node(Empty, x, Empty)
  }

  function Insert<T>(comp: Compare<T>, t: Tree<T>, x: T): Tree<T>
  {
    Merge(comp, t, Singleton(x))
  }

  /** The node x is replaced by the merge of its two subtrees. */
  ghost function Remove<T>(comp: Compare<T>, t: Tree<T>, x: T): Tree<T>
  {
    match t
    case Empty => Empty
    case Node(l, y, r) =>
      if x == y then Merge(comp, l, r)
      else if x in Elems(l) then Node(Remove(comp, l, x), y, r)
      else Node(l, y, Remove(comp, r, x))
  }

  // ----- What the operations keep -----

  lemma ContentsElems<T>(t: Tree<T>)
    ensures forall x :: x in Contents(t) <==> x in Elems(t)
    ensures |Contents(t)| == Size(t)
  {
  }

  lemma {:induction false} MergeContents<T>(comp: Compare<T>, a: Tree<T>, b: Tree<T>)
    ensures Contents(Merge(comp, a, b)) == Contents(a) + Contents(b)
    decreases a, b
  {
    if a.Empty? || b.Empty? {
    } else if comp(a.elem, b.elem) == -1 {
      MergeContents(comp, a.right, b);
    } else {
      MergeContents(comp, a, b.right);
    }
  }

  lemma {:induction false} MergeElems<T>(comp: Compare<T>, a: Tree<T>, b: Tree<T>)
    ensures Elems(Merge(comp, a, b)) == Elems(a) + Elems(b)
    ensures Size(Merge(comp, a, b)) == Size(a) + Size(b)
    decreases a, b
  {
    if a.Empty? || b.Empty? {
    } else if comp(a.elem, b.elem) == -1 {
      MergeElems(comp, a.right, b);
    } else {
      MergeElems(comp, a, b.right);
    }
  }

  lemma {:induction false} MergeDistinct<T>(comp: Compare<T>, a: Tree<T>, b: Tree<T>)
    requires Distinct(a) && Distinct(b) && Elems(a) !! Elems(b)
    ensures Distinct(Merge(comp, a, b))
    decreases a, b
  {
    if a.Empty? || b.Empty? {
    } else if comp(a.elem, b.elem) == -1 {
      MergeDistinct(comp, a.right, b);
      MergeElems(comp, a.right, b);
    } else {
      MergeDistinct(comp, a, b.right);
      MergeElems(comp, a, b.right);
    }
  }

  /** Merging keeps heap order; this is where transitivity of the callback is needed. */
  lemma {:induction false} MergeOrdered<T>(comp: Compare<T>, a: Tree<T>, b: Tree<T>)
    requires Ordered(comp, a) && Ordered(comp, b)
    requires TotalPreorder(comp, Elems(a) + Elems(b))
    ensures Ordered(comp, Merge(comp, a, b))
    decreases a, b
  {
    if a.Empty? || b.Empty? {
    } else if comp(a.elem, b.elem) == -1 {
      MergeOrdered(comp, a.right, b);
      MergeElems(comp, a.right, b);
      assert !Le(comp, b.elem, a.elem);
      BelowRoot(comp, a.elem, b, Elems(a) + Elems(b));
    } else {
      MergeOrdered(comp, a, b.right);
      MergeElems(comp, a, b.right);
      BelowRoot(comp, b.elem, a, Elems(a) + Elems(b));
    }
  }

  lemma BelowRoot<T>(comp: Compare<T>, x: T, t: Tree<T>, s: set<T>)
    requires t.Node? && Ordered(comp, t) && x in s && Elems(t) <= s && TotalPreorder(comp, s)
    requires Le(comp, x, t.elem)
    ensures forall y :: y in Elems(t) ==> Le(comp, x, y)
  {
  }

  lemma {:induction false} RemoveElems<T>(comp: Compare<T>, t: Tree<T>, x: T)
    requires Distinct(t) && x in Elems(t)
    ensures Elems(Remove(comp, t, x)) == Elems(t) - {x}
    ensures Distinct(Remove(comp, t, x))
  {
    var Node(l, y, r) := t;
    if x == y {
      MergeElems(comp, l, r);
      MergeDistinct(comp, l, r);
    } else if x in Elems(l) {
      RemoveElems(comp, l, x);
    } else {
      RemoveElems(comp, r, x);
    }
  }

  lemma {:induction false} RemoveOrdered<T>(comp: Compare<T>, t: Tree<T>, x: T)
    requires Distinct(t) && x in Elems(t) && Ordered(comp, t) && TotalPreorder(comp, Elems(t))
    ensures Ordered(comp, Remove(comp, t, x))
  {
    var Node(l, y, r) := t;
    if x == y {
      MergeOrdered(comp, l, r);
    } else if x in Elems(l) {
      RemoveOrdered(comp, l, x);
      RemoveElems(comp, l, x);
    } else {
      RemoveOrdered(comp, r, x);
      RemoveElems(comp, r, x);
    }
  }

  // ----- Draining -----

  /** The elements in the order in which repeated removal of the root yields them. */
  ghost function Drain<T>(comp: Compare<T>, t: Tree<T>): seq<T>
    decreases Size(t)
  {
    match t
    case Empty => []
    case Node(l, x, r) =>
      MergeElems(comp, l, r);
      [x] + Drain(comp, Merge(comp, l, r))
  }

  ghost predicate Sorted<T>(comp: Compare<T>, s: seq<T>)
  {
    forall i, j :: 0 <= i < j < |s| ==> Le(comp, s[i], s[j])
  }

  lemma {:induction false} DrainPermutes<T>(comp: Compare<T>, t: Tree<T>)
    ensures multiset(Drain(comp, t)) == Contents(t)
    decreases Size(t)
  {
    match t
    case Empty =>
    case Node(l, x, r) =>
      MergeElems(comp, l, r);
      MergeContents(comp, l, r);
      DrainPermutes(comp, Merge(comp, l, r));
      assert Drain(comp, t) == [x] + Drain(comp, Merge(comp, l, r));
  }

  lemma {:induction false} DrainSorted<T>(comp: Compare<T>, t: Tree<T>)
    requires Ordered(comp, t) && TotalPreorder(comp, Elems(t))
    ensures Sorted(comp, Drain(comp, t))
    decreases Size(t)
  {
    match t
    case Empty =>
    case Node(l, x, r) =>
      var m := Merge(comp, l, r);
      MergeElems(comp, l, r);
      MergeOrdered(comp, l, r);
      DrainSorted(comp, m);
      SortedCons(comp, x, Drain(comp, m), m);
  }

  lemma SortedCons<T>(comp: Compare<T>, x: T, rest: seq<T>, m: Tree<T>)
    requires rest == Drain(comp, m) && Sorted(comp, rest)
    requires forall y :: y in Elems(m) ==> Le(comp, x, y)
    ensures Sorted(comp, [x] + rest)
  {
    DrainPermutes(comp, m);
    ContentsElems(m);
    forall j | 0 <= j < |rest|
      ensures Le(comp, x, rest[j])
    {
      assert rest[j] in multiset(rest);
    }
  }

  // ----- Whole runs -----

  datatype Op<T> = Add(x: T) | Del(x: T)

  /** A node joins a heap it is not in, and leaves a heap it is in. */
  ghost predicate Legal<T>(op: Op<T>, members: set<T>)
  {
    match op
    case Add(x) => x !in members
    case Del(x) => x in members
  }

  ghost function Apply<T>(comp: Compare<T>, t: Tree<T>, op: Op<T>): Tree<T>
  {
    match op
    case Add(x) => Insert(comp, t, x)
    case Del(x) => Remove(comp, t, x)
  }

  /** What the operation does to the set of queued elements. */
  function Members<T(==)>(s: set<T>, op: Op<T>): set<T>
  {
    match op
    case Add(x) => s + {x}
    case Del(x) => s - {x}
  }

  ghost predicate LegalRun<T>(ops: seq<Op<T>>, members: set<T>)
  {
    ops == [] || (Legal(ops[0], members) && LegalRun(ops[1..], Members(members, ops[0])))
  }

  ghost function RunHeap<T>(comp: Compare<T>, ops: seq<Op<T>>, t: Tree<T>): Tree<T>
  {
    if ops == [] then t else RunHeap(comp, ops[1..], Apply(comp, t, ops[0]))
  }

  function RunMembers<T(==)>(ops: seq<Op<T>>, s: set<T>): set<T>
  {
    if ops == [] then s else RunMembers(ops[1..], Members(s, ops[0]))
  }

  lemma InsertKeeps<T>(comp: Compare<T>, t: Tree<T>, x: T, universe: set<T>)
    requires Distinct(t) && Ordered(comp, t) && x !in Elems(t)
    requires Elems(t) <= universe && x in universe && TotalPreorder(comp, universe)
    ensures var t' := Insert(comp, t, x);
            Distinct(t') && Ordered(comp, t') && Elems(t') == Elems(t) + {x}
  {
    var s := Singleton(x);
    assert Elems(s) == {x};
    MergeElems(comp, t, s);
    MergeDistinct(comp, t, s);
    MergeOrdered(comp, t, s);
  }

  lemma ApplyKeeps<T>(comp: Compare<T>, t: Tree<T>, op: Op<T>, universe: set<T>)
    requires Distinct(t) && Ordered(comp, t) && Legal(op, Elems(t))
    requires Elems(t) <= universe && op.x in universe && TotalPreorder(comp, universe)
    ensures var t' := Apply(comp, t, op);
            Distinct(t') && Ordered(comp, t') && Elems(t') == Members(Elems(t), op)
  {
    match op
    case Add(x) =>
      InsertKeeps(comp, t, x, universe);
    case Del(x) =>
      RemoveElems(comp, t, x);
      RemoveOrdered(comp, t, x);
  }

  /** A legal run in which the callback orders the elements that are in the heap at
      any one time, with the one that joins or leaves. */
  ghost predicate OrderedRun<T>(comp: Compare<T>, ops: seq<Op<T>>, members: set<T>)
  {
    if ops == [] then TotalPreorder(comp, members)
    else
      && Legal(ops[0], members) && TotalPreorder(comp, members + {ops[0].x})
      && OrderedRun(comp, ops[1..], Members(members, ops[0]))
  }

  /** A run is ordered if the callback orders all elements that ever join. */
  lemma {:induction false} OneUniverse<T>(comp: Compare<T>, ops: seq<Op<T>>, members: set<T>, universe: set<T>)
    requires LegalRun(ops, members) && members <= universe && TotalPreorder(comp, universe)
    requires forall op :: op in ops ==> op.x in universe
    ensures OrderedRun(comp, ops, members)
  {
    if ops != [] {
      assert ops[0] in ops;
      forall op | op in ops[1..]
        ensures op.x in universe
      {
        assert op in ops;
      }
      OneUniverse(comp, ops[1..], Members(members, ops[0]), universe);
    }
  }

  lemma {:induction false} RunKeeps<T>(comp: Compare<T>, ops: seq<Op<T>>, t: Tree<T>)
    requires Distinct(t) && Ordered(comp, t) && OrderedRun(comp, ops, Elems(t))
    ensures var t' := RunHeap(comp, ops, t);
            && Distinct(t') && Ordered(comp, t')
            && Elems(t') == RunMembers(ops, Elems(t)) && TotalPreorder(comp, Elems(t'))
  {
    if ops != [] {
      ApplyKeeps(comp, t, ops[0], Elems(t) + {ops[0].x});
      RunKeeps(comp, ops[1..], Apply(comp, t, ops[0]));
    }
  }

  /** Whatever was inserted and removed before, draining the heap yields the
      elements still queued, each once, in an order the callback accepts. */
  lemma DrainAfterRun<T>(comp: Compare<T>, ops: seq<Op<T>>)
    requires OrderedRun(comp, ops, {})
    ensures var out := Drain(comp, RunHeap(comp, ops, Empty));
            && Sorted(comp, out)
            && multiset(out) == multiset(RunMembers(ops, {}))
  {
    RunKeeps(comp, ops, Empty);
    var t := RunHeap(comp, ops, Empty);
    DrainSorted(comp, t);
    DrainPermutes(comp, t);
    DistinctContents(t);
  }

  lemma {:induction false} DistinctContents<T>(t: Tree<T>)
    requires Distinct(t)
    ensures Contents(t) == multiset(Elems(t))
  {
    match t
    case Empty =>
    case Node(l, x, r) =>
      DistinctContents(l);
      DistinctContents(r);
  }
}
