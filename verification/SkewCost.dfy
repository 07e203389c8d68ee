/** Amortised cost of the skew heap, counted in calls of merge. */
module SkewCost {
  import opened Arith
  import opened SkewTree

  /** Calls made by one top-level merge, itself included. */
  function MergeCalls<T>(comp: Compare<T>, a: Tree<T>, b: Tree<T>): nat
    decreases a, b
  {
    if a.Empty? || b.Empty? then 1
    else if comp(a.elem, b.elem) == -1 then 1 + MergeCalls(comp, a.right, b)
    else 1 + MergeCalls(comp, a, b.right)
  }

  function Bit(b: bool): nat
  {
    if b then 1 else 0
  }

  /** The number of nodes whose right subtree is larger than their left. */
  function Potential<T>(t: Tree<T>): nat
  {
    match t
    case Empty => 0
    case Node(l, _, r) => Potential(l) + Potential(r) + Bit(Size(r) > Size(l))
  }

  /** The number of other nodes on the right spine. */
  function LightOnSpine<T>(t: Tree<T>): nat
  {
    match t
    case Empty => 0
    case Node(l, _, r) => Bit(Size(r) <= Size(l)) + LightOnSpine(r)
  }

  /** Binary logarithm, rounded down. */
  function Log2(n: nat): nat
  {
    if n <= 1 then 0 else 1 + Log2(n / 2)
  }

  /** Log2(n) is the exponent of the largest power of two up to n. */
  lemma {:induction false} Log2IsExponent(n: nat)
    requires n >= 1
    ensures Pow2(Log2(n)) <= n < Pow2(Log2(n) + 1)
  {
    if n > 1 {
      Log2IsExponent(n / 2);
    }
  }

  /** The number of nodes on the right spine. */
  function RightSpine<T>(t: Tree<T>): nat
  {
    match t
    case Empty => 0
    case Node(_, _, r) => 1 + RightSpine(r)
  }

  /** A merge goes down both right spines until one of them ends: it makes more calls
      than the shorter one has nodes, and no more than both have, if none is empty. */
  lemma {:induction false} MergeCallsBetween<T>(comp: Compare<T>, a: Tree<T>, b: Tree<T>)
    ensures var calls, m, n := MergeCalls(comp, a, b), RightSpine(a), RightSpine(b);
            if m == 0 || n == 0 then calls == 1
            else calls <= m + n && (m < calls || n < calls)
    decreases a, b
  {
    if a.Empty? || b.Empty? {
    } else if comp(a.elem, b.elem) == -1 {
      MergeCallsBetween(comp, a.right, b);
    } else {
      MergeCallsBetween(comp, a, b.right);
    }
  }

  lemma {:induction false} Log2Monotone(m: nat, n: nat)
    requires m <= n
    ensures Log2(m) <= Log2(n)
  {
    if m <= 1 {
    } else {
      Log2Monotone(m / 2, n / 2);
    }
  }

  lemma {:induction false} LightIsLogarithmic<T>(t: Tree<T>)
    ensures LightOnSpine(t) <= Log2(Size(t) + 1)
  {
    match t
    case Empty =>
    case Node(l, _, r) =>
      LightIsLogarithmic(r);
      if Size(r) <= Size(l) {
        assert Size(t) + 1 == Size(l) + Size(r) + 2;
        Log2Monotone(Size(r) + 1, (Size(t) + 1) / 2);
      } else {
        Log2Monotone(Size(r) + 1, Size(t) + 1);
      }
  }

  lemma {:induction false} MergePotential<T>(comp: Compare<T>, a: Tree<T>, b: Tree<T>)
    ensures MergeCalls(comp, a, b) + Potential(Merge(comp, a, b))
         <= Potential(a) + Potential(b) + 2 * (LightOnSpine(a) + LightOnSpine(b)) + 1
    decreases a, b
  {
    if a.Empty? || b.Empty? {
    } else if comp(a.elem, b.elem) == -1 {
      MergePotential(comp, a.right, b);
      MergeElems(comp, a.right, b);
    } else {
      MergePotential(comp, a, b.right);
      MergeElems(comp, a, b.right);
    }
  }

  /** One merge costs at most twice the logarithms of the sizes, plus one, once
      the change of potential is added. */
  lemma MergeAmortised<T>(comp: Compare<T>, a: Tree<T>, b: Tree<T>)
    ensures MergeCalls(comp, a, b) + Potential(Merge(comp, a, b))
         <= Potential(a) + Potential(b) + 2 * (Log2(Size(a) + 1) + Log2(Size(b) + 1)) + 1
  {
    MergePotential(comp, a, b);
    LightIsLogarithmic(a);
    LightIsLogarithmic(b);
  }

  /** The calls of merge made when x is taken out, wherever it sits: its children
      are merged. */
  ghost function RemoveCalls<T>(comp: Compare<T>, t: Tree<T>, x: T): nat
    requires x in Elems(t)
  {
    if x == t.elem then MergeCalls(comp, t.left, t.right)
    else if x in Elems(t.left) then RemoveCalls(comp, t.left, x)
    else RemoveCalls(comp, t.right, x)
  }

  /** Only members can be removed. */
  ghost predicate Applicable<T>(t: Tree<T>, op: Op<T>)
  {
    op.Del? ==> op.x in Elems(t)
  }

  ghost function OpCalls<T>(comp: Compare<T>, t: Tree<T>, op: Op<T>): nat
    requires Applicable(t, op)
  {
    match op
    case Add(x) => MergeCalls(comp, t, Singleton(x))
    case Del(x) => RemoveCalls(comp, t, x)
  }

  /** No heap of the run has more than n nodes. */
  ghost predicate BoundedRun<T>(comp: Compare<T>, ops: seq<Op<T>>, t: Tree<T>, n: nat)
  {
    Size(t) <= n &&
    (ops == [] || (Applicable(t, ops[0]) && BoundedRun(comp, ops[1..], Apply(comp, t, ops[0]), n)))
  }

  ghost function RunCalls<T>(comp: Compare<T>, ops: seq<Op<T>>, t: Tree<T>, n: nat): nat
    requires BoundedRun(comp, ops, t, n)
  {
    if ops == [] then 0
    else OpCalls(comp, t, ops[0]) + RunCalls(comp, ops[1..], Apply(comp, t, ops[0]), n)
  }

  lemma OpAmortised<T>(comp: Compare<T>, t: Tree<T>, op: Op<T>, n: nat)
    requires Applicable(t, op) && Size(t) <= n
    ensures OpCalls(comp, t, op) + Potential(Apply(comp, t, op)) <= Potential(t) + 4 * Log2(n + 1) + 3
  {
    hide Log2, Potential, MergeCalls, Merge, Size;
    Log2Monotone(Size(t) + 1, n + 1);
    match op
    case Add(x) => InsertAmortised(comp, t, x);
    case Del(x) => RemoveAmortised(comp, t, x);
  }

  lemma InsertAmortised<T>(comp: Compare<T>, t: Tree<T>, x: T)
    ensures MergeCalls(comp, t, Singleton(x)) + Potential(Insert(comp, t, x))
         <= Potential(t) + 2 * Log2(Size(t) + 1) + 3
  {
    SingletonParts(x);
    assert Log2(2) == 1 + Log2(1);
    MergeAmortised(comp, t, Singleton(x));
  }

  lemma SingletonParts<T>(x: T)
    ensures var s := Singleton(x);
            Size(s) == 1 && Potential(s) == 0 && Elems(s) == {x} && Distinct(s)
  {
    var s := Singleton(x);
    assert Size(s) == 1 && Potential(s) == 0;
  }

  lemma RemoveRootAmortised<T>(comp: Compare<T>, t: Tree<T>, n: nat)
    requires t.Node? && Size(t) <= n
    ensures MergeCalls(comp, t.left, t.right) + Potential(Merge(comp, t.left, t.right))
         <= Potential(t) + 4 * Log2(n + 1) + 1
  {
    MergeAmortised(comp, t.left, t.right);
    Log2Monotone(Size(t.left) + 1, n + 1);
    Log2Monotone(Size(t.right) + 1, n + 1);
  }

  lemma {:induction false} RemoveSize<T>(comp: Compare<T>, t: Tree<T>, x: T)
    requires x in Elems(t)
    ensures Size(Remove(comp, t, x)) == Size(t) - 1
  {
    if x == t.elem {
      MergeElems(comp, t.left, t.right);
    } else if x in Elems(t.left) {
      RemoveSize(comp, t.left, x);
    } else {
      RemoveSize(comp, t.right, x);
    }
  }

  /** A node becomes heavy on the right by losing a node on the left only if both
      sides had the same size; then the logarithm grows from the child to it. */
  lemma BitPaid(l: nat, r: nat)
    requires l > 0
    ensures Bit(r > l - 1) + Log2(l + 1) <= Bit(r > l) + Log2(l + r + 2)
  {
    Log2Monotone(l + 1, l + r + 2);
    if r == l {
      assert (l + r + 2) / 2 == l + 1;
    }
  }

  /** Taking out any node costs no more, up to constants, than taking out the
      root: the nodes above it that gain potential are paid for by their size. */
  lemma {:induction false} RemoveAmortised<T>(comp: Compare<T>, t: Tree<T>, x: T)
    requires x in Elems(t)
    ensures RemoveCalls(comp, t, x) + Potential(Remove(comp, t, x)) <= Potential(t) + 4 * Log2(Size(t) + 1) + 1
  {
    hide Log2, Merge, MergeCalls;
    var Node(l, y, r) := t;
    if x == y {
      RemoveRootAmortised(comp, t, Size(t));
    } else if x in Elems(l) {
      RemoveAmortised(comp, l, x);
      RemoveSize(comp, l, x);
      BitPaid(Size(l), Size(r));
      Log2Monotone(Size(l) + 1, Size(t) + 1);
    } else {
      RemoveAmortised(comp, r, x);
      RemoveSize(comp, r, x);
      Log2Monotone(Size(r) + 1, Size(t) + 1);
    }
  }

  lemma {:induction false} RunAmortised<T>(comp: Compare<T>, ops: seq<Op<T>>, t: Tree<T>, n: nat)
    requires BoundedRun(comp, ops, t, n)
    ensures RunCalls(comp, ops, t, n) <= Potential(t) + |ops| * (4 * Log2(n + 1) + 3)
  {
    if ops == [] {
    } else {
      OpAmortised(comp, t, ops[0], n);
      RunAmortised(comp, ops[1..], Apply(comp, t, ops[0]), n);
      var bound := 4 * Log2(n + 1) + 3;
      MulSuccessor(|ops[1..]|, bound);
    }
  }

  lemma MulSuccessor(k: nat, b: nat)
    ensures (k + 1) * b == k * b + b
  {
  }

  /** Any run of insertions and removals of arbitrary members that starts from the
      empty heap and never holds more than n nodes makes O(log n) calls per operation. */
  lemma LogarithmicRuns<T>(comp: Compare<T>, ops: seq<Op<T>>, n: nat)
    requires BoundedRun(comp, ops, Empty, n)
    ensures RunCalls(comp, ops, Empty, n) <= |ops| * (4 * Log2(n + 1) + 3)
  {
    RunAmortised(comp, ops, Empty, n);
  }

  /** A legal run holds at most as many nodes as it has operations. */
  lemma {:induction false} LegalIsBounded<T>(comp: Compare<T>, ops: seq<Op<T>>, t: Tree<T>, n: nat)
    requires Distinct(t) && LegalRun(ops, Elems(t)) && Size(t) + |ops| <= n
    ensures BoundedRun(comp, ops, t, n)
  {
    if ops != [] {
      ApplySize(comp, t, ops[0]);
      LegalIsBounded(comp, ops[1..], Apply(comp, t, ops[0]), n);
    }
  }

  lemma ApplySize<T>(comp: Compare<T>, t: Tree<T>, op: Op<T>)
    requires Distinct(t) && Legal(op, Elems(t))
    ensures var t' := Apply(comp, t, op);
            Distinct(t') && Elems(t') == Members(Elems(t), op) && Size(t') <= Size(t) + 1
  {
    match op
    case Add(x) =>
      SingletonParts(x);
      MergeElems(comp, t, Singleton(x));
      MergeDistinct(comp, t, Singleton(x));
    case Del(x) =>
      RemoveElems(comp, t, x);
      RemoveSize(comp, t, x);
  }

  /** Whatever joins and leaves, k operations make at most k(4 log2(k+1)+3) calls. */
  lemma LegalRunsLogarithmic<T>(comp: Compare<T>, ops: seq<Op<T>>)
    requires LegalRun(ops, {})
    ensures BoundedRun(comp, ops, Empty, |ops|)
    ensures RunCalls(comp, ops, Empty, |ops|) <= |ops| * (4 * Log2(|ops| + 1) + 3)
  {
    LegalIsBounded(comp, ops, Empty, |ops|);
    LogarithmicRuns(comp, ops, |ops|);
  }
}
