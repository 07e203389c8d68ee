/** A run queue of linked entries in operation: whatever is inserted and removed, the
    calls of merge and the order of draining are those of the runs on trees. */
module SkewQueue {
  import opened SkewCost
  import opened SkewHeap
  import opened SkewTree

  /** One more operation at the end of a run. */
  lemma {:induction false} RunSnoc<T>(comp: Compare<T>, ops: seq<Op<T>>, op: Op<T>, t: Tree<T>, members: set<T>, n: nat)
    requires BoundedRun(comp, ops, t, n) && LegalRun(ops, members)
    requires Applicable(RunHeap(comp, ops, t), op) && Legal(op, RunMembers(ops, members))
    requires Size(Apply(comp, RunHeap(comp, ops, t), op)) <= n + 1
    ensures RunHeap(comp, ops + [op], t) == Apply(comp, RunHeap(comp, ops, t), op)
    ensures LegalRun(ops + [op], members) && RunMembers(ops + [op], members) == Members(RunMembers(ops, members), op)
    ensures BoundedRun(comp, ops + [op], t, n + 1)
    ensures RunCalls(comp, ops + [op], t, n + 1) ==
            RunCalls(comp, ops, t, n) + OpCalls(comp, RunHeap(comp, ops, t), op)
  {
    hide Apply, Members, Legal, OpCalls, Applicable, Size;
    if ops == [] {
      assert ([] + [op])[1..] == [];
    } else {
      RunSnoc(comp, ops[1..], op, Apply(comp, t, ops[0]), Members(members, ops[0]), n);
      assert (ops + [op])[1..] == ops[1..] + [op];
    }
  }

  class Queue {
    const comp: Compare<Entry>
    var root: Entry?
    ghost var t: Tree<Entry>
    /** What has been done so far, and the calls of merge that it took. */
    ghost var ops: seq<Op<Entry>>
    ghost var calls: nat

    /** The entries hang together as the tree that the run leads to. */
    ghost predicate Valid()
      reads this, Elems(t)
    {
      && Heap(root, t) && LegalRun(ops, {}) && Elems(t) == RunMembers(ops, {})
      && t == RunHeap(comp, ops, Empty)
      && BoundedRun(comp, ops, Empty, |ops|) && calls == RunCalls(comp, ops, Empty, |ops|)
    }

    constructor (comp: Compare<Entry>)
      ensures Valid() && this.comp == comp && ops == [] && t == Empty
    {
      this.comp := comp;
      root, t, ops, calls := null, Empty, [], 0;
    }

    method Insert(b: Entry)
      requires Valid() && b !in Elems(t)
      modifies this, Elems(t), b
      ensures Valid() && ops == old(ops) + [Add(b)] && Elems(t) == old(Elems(t)) + {b}
    {
      hide Layout, RunHeap, BoundedRun, RunCalls, LegalRun, RunMembers, SkewTree.Insert, MergeCalls, RemoveCalls;
      ghost var more;
      Grown(this, Add(b));
      root, more := SkewHeapInsert(root, b, comp, t);
      t, ops, calls := Apply(comp, t, Add(b)), ops + [Add(b)], calls + more;
    }

    method Remove(b: Entry)
      requires Valid() && b in Elems(t)
      modifies this, Elems(t)
      ensures Valid() && ops == old(ops) + [Del(b)] && Elems(t) == old(Elems(t)) - {b}
      ensures t == SkewTree.Remove(comp, old(t), b)
    {
      hide Layout, RunHeap, BoundedRun, RunCalls, LegalRun, RunMembers, SkewTree.Insert, MergeCalls, RemoveCalls;
      ghost var more;
      Grown(this, Del(b));
      root, more := SkewHeapRemove(root, b, comp, t);
      t, ops, calls := Apply(comp, t, Del(b)), ops + [Del(b)], calls + more;
    }

    /** The least element leaves. */
    method Pop() returns (least: Entry)
      requires Valid() && root != null
      modifies this, Elems(t)
      ensures Valid() && old(t).Node? && least == old(t).elem && Elems(t) <= old(Elems(t))
      ensures ops == old(ops) + [Del(least)] && Size(t) < old(Size(t))
      ensures SkewTree.Drain(comp, old(t)) == [least] + SkewTree.Drain(comp, t)
    {
      hide Layout;
      least := root;
      RemoveSize(comp, t, least);
      assert SkewTree.Drain(comp, t) == [least] + SkewTree.Drain(comp, SkewTree.Remove(comp, t, least));
      Remove(least);
    }

    /** The root is removed until the queue is empty. */
    method PopAll() returns (out: seq<Entry>)
      requires Valid()
      modifies this, Elems(t)
      ensures Valid() && root == null && |ops| == |old(ops)| + |out|
      ensures out == SkewTree.Drain(comp, old(t))
    {
      hide Valid, SkewTree.Drain, Elems;
      ghost var t0 := t;
      out := [];
      while root != null
        invariant Valid() && Elems(t) <= Elems(t0) && |ops| == |old(ops)| + |out|
        invariant out + SkewTree.Drain(comp, t) == SkewTree.Drain(comp, t0)
        decreases Size(t)
      {
        ghost var rest := SkewTree.Drain(comp, t);
        var least := Pop();
        assert out + rest == out + [least] + SkewTree.Drain(comp, t);
        out := out + [least];
      }
      Drained(this);
    }

    /** If the callback has ordered the members at any time of the run so far, they
        come out in order. */
    method Drain() returns (out: seq<Entry>)
      requires Valid()
      modifies this, Elems(t)
      ensures Valid() && root == null && |ops| == |old(ops)| + |out|
      ensures out == SkewTree.Drain(comp, old(t))
      ensures OrderedRun(comp, old(ops), {}) ==>
                Sorted(comp, out) && multiset(out) == multiset(RunMembers(old(ops), {}))
    {
      ghost var t0, ops0 := t, ops;
      assert t0 == RunHeap(comp, ops0, Empty);
      hide *;
      out := PopAll();
      if OrderedRun(comp, ops0, {}) {
        DrainAfterRun(comp, ops0);
      }
    }
  }

  lemma Drained(q: Queue)
    requires q.Valid() && q.root == null
    ensures Drain(q.comp, q.t) == []
  {
    hide Layout, RunHeap, BoundedRun, RunCalls, LegalRun, RunMembers;
  }

  lemma Grown(q: Queue, op: Op<Entry>)
    requires q.Valid() && Legal(op, Elems(q.t))
    ensures var ops' := q.ops + [op];
            && LegalRun(ops', {}) && RunHeap(q.comp, ops', Empty) == Apply(q.comp, q.t, op)
            && Elems(Apply(q.comp, q.t, op)) == RunMembers(ops', {}) == Members(Elems(q.t), op)
            && BoundedRun(q.comp, ops', Empty, |ops'|)
            && RunCalls(q.comp, ops', Empty, |ops'|) == q.calls + OpCalls(q.comp, q.t, op)
  {
    hide Layout;
    ApplySize(q.comp, q.t, op);
    RunHeapSize(q.comp, q.ops, Empty, |q.ops|);
    RunSnoc(q.comp, q.ops, op, Empty, {}, |q.ops|);
  }

  lemma {:induction false} RunHeapSize<T>(comp: Compare<T>, ops: seq<Op<T>>, t: Tree<T>, n: nat)
    requires BoundedRun(comp, ops, t, n)
    ensures Size(RunHeap(comp, ops, t)) <= n
  {
    if ops != [] {
      RunHeapSize(comp, ops[1..], Apply(comp, t, ops[0]), n);
    }
  }

  /** The code has made at most k(4 log2(k+1)+3) calls of merge in k operations. */
  lemma CallsBounded(q: Queue)
    requires q.Valid()
    ensures q.calls <= |q.ops| * (4 * Log2(|q.ops| + 1) + 3)
  {
    LegalRunsLogarithmic(q.comp, q.ops);
  }
}
