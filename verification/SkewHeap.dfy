/** The skew heap of linked entries. A tree of entries says which entry sits
    where; the methods are proved to turn it into the tree that the
    mathematical operations compute. */
module SkewHeap {
  import opened SkewTree
  import opened SkewCost

  class Entry {
    var parent: Entry?
    var left: Entry?
    var right: Entry?

    constructor ()
      ensures left == null && right == null && parent == null
    {
      left, right, parent := null, null, null;
    }
  }

  datatype Links = Links(parent: Entry?, left: Entry?, right: Entry?)

  function Root(t: Tree<Entry>): Entry?
  {
    if t.Empty? then null else t.elem
  }

  /** The fields that the tree t dictates for its entries when it hangs below par. */
  function Layout(t: Tree<Entry>, par: Entry?): (m: map<Entry, Links>)
    ensures m.Keys == Elems(t)
  {
    if t.Empty? then map[]
    else Layout(t.left, t.elem) + Layout(t.right, t.elem) + map[t.elem := Links(par, Root(t.left), Root(t.right))]
  }

  /** p points to the entries of t, linked as t dictates below par. */
  ghost predicate Shape(p: Entry?, t: Tree<Entry>, par: Entry?)
    reads Elems(t)
  {
    && Distinct(t)
    && p == Root(t)
    && (forall x :: x in Elems(t) ==> Links(x.parent, x.left, x.right) == Layout(t, par)[x])
  }

  /** A whole heap: its root has no parent. */
  ghost predicate Heap(p: Entry?, t: Tree<Entry>)
    reads Elems(t)
  {
    Shape(p, t, null)
  }

  method SkewHeapInit(a: Entry)
    modifies a
    ensures Heap(a, Singleton(a))
  {
    a.left, a.right, a.parent := null, null, null;
  }

  /** The entries of two trees, as a set known to hold allocated entries only. */
  lemma Region(a: Tree<Entry>, b: Tree<Entry>) returns (region: set<Entry>)
    ensures region == Elems(a) + Elems(b)
  {
    region := Elems(a) + Elems(b);
  }

  lemma LayoutParts(t: Tree<Entry>, par: Entry?)
    requires t.Node? && Distinct(t)
    ensures forall x :: x in Elems(t.left) ==> Layout(t, par)[x] == Layout(t.left, t.elem)[x]
    ensures forall x :: x in Elems(t.right) ==> Layout(t, par)[x] == Layout(t.right, t.elem)[x]
    ensures Layout(t, par)[t.elem] == Links(par, Root(t.left), Root(t.right))
  {
  }

  /** Only the root's own entry depends on what the tree hangs from. */
  lemma LayoutBelow(t: Tree<Entry>, par: Entry?, par': Entry?)
    requires t.Node? && Distinct(t)
    ensures Layout(t, par') == Layout(t, par)[t.elem := Layout(t, par)[t.elem].(parent := par')]
  {
  }

  /** Both subtrees of a tree are trees below its root. */
  lemma Subtrees(t: Tree<Entry>, par: Entry?)
    requires t.Node? && Shape(t.elem, t, par)
    ensures Shape(t.elem.left, t.left, t.elem) && Shape(t.elem.right, t.right, t.elem) && t.elem.parent == par
  {
    LayoutParts(t, par);
  }

  /** The guarded assignment to the parent of a root. */
  method Reparent(l: Entry?, par: Entry?, ghost t: Tree<Entry>, ghost was: Entry?)
    requires Shape(l, t, was)
    modifies if l == null then {} else {l}
    ensures Shape(l, t, par)
    ensures l != null ==> l.left == old(l.left) && l.right == old(l.right)
  {
    if l != null {
      l.parent := par;
      LayoutBelow(t, was, par);
    }
  }

  /** The last three assignments of either branch of the merge. */
  method Hang(top: Entry, l: Entry?, r: Entry?, ghost tl: Tree<Entry>, ghost tr: Tree<Entry>, ghost pl: Entry?,
              ghost par: Entry?)
    requires Distinct(Node(tl, top, tr)) && top.parent == par
    requires Shape(l, tl, pl) && Shape(r, tr, top)
    modifies top, if l == null then {} else {l}
    ensures Shape(top, Node(tl, top, tr), par)
  {
    top.left := l;
    top.right := r;
    if l != null {
      LayoutBelow(tl, pl, top);
      l.parent := top;
    }
    assert Shape(l, tl, top);
    assert Shape(r, tr, top);
    Attached(top, tl, tr, par);
  }

  lemma Attached(top: Entry, tl: Tree<Entry>, tr: Tree<Entry>, par: Entry?)
    requires Distinct(Node(tl, top, tr)) && Links(top.parent, top.left, top.right) == Links(par, Root(tl), Root(tr))
    requires Shape(Root(tl), tl, top) && Shape(Root(tr), tr, top)
    ensures Shape(top, Node(tl, top, tr), par)
  {
    LayoutParts(Node(tl, top, tr), par);
  }

  lemma MergeParts(comp: Compare<Entry>, a: Tree<Entry>, b: Tree<Entry>)
    requires Distinct(a) && Distinct(b) && Elems(a) !! Elems(b)
    ensures Elems(Merge(comp, a, b)) == Elems(a) + Elems(b) && Distinct(Merge(comp, a, b))
  {
    MergeElems(comp, a, b);
    MergeDistinct(comp, a, b);
  }

  /** The parent of the resulting root is left as it was: callers repair it. */
  method SkewHeapMerge(a: Entry?, b: Entry?, comp: Compare<Entry>,
                       ghost ta: Tree<Entry>, ghost tb: Tree<Entry>, ghost pa: Entry?, ghost pb: Entry?)
    returns (m: Entry?, ghost pm: Entry?, ghost calls: nat)
    requires Shape(a, ta, pa) && Shape(b, tb, pb) && Elems(ta) !! Elems(tb)
    modifies Elems(ta) + Elems(tb)
    ensures Shape(m, Merge(comp, ta, tb), pm)
    ensures Elems(Merge(comp, ta, tb)) == Elems(ta) + Elems(tb)
    ensures (m == a && pm == pa) || (m == b && pm == pb)
    ensures calls == MergeCalls(comp, ta, tb)
    decreases ta, tb
  {
    MergeParts(comp, ta, tb);
    if a == null {
      return b, pb, 1;
    } else if b == null {
      return a, pa, 1;
    }
    ghost var region := Region(ta, tb);
    var l;
    if comp(a, b) == -1 {
      ghost var tl, pl := Merge(comp, ta.right, tb), null;
      Subtrees(ta, pa);
      var r := a.left;
      l, pl, calls := SkewHeapMerge(a.right, b, comp, ta.right, tb, a, pb);
      Hang(a, l, r, tl, ta.left, pl, pa);
      return a, pa, calls + 1;
    } else {
      ghost var tl, pl := Merge(comp, ta, tb.right), null;
      Subtrees(tb, pb);
      var r := b.left;
      l, pl, calls := SkewHeapMerge(a, b.right, comp, ta, tb.right, pa, b);
      Hang(b, l, r, tl, tb.left, pl, pb);
      return b, pb, calls + 1;
    }
  }

  method SkewHeapInsert(a: Entry?, b: Entry, comp: Compare<Entry>, ghost ta: Tree<Entry>) returns (m: Entry?,
                        ghost calls: nat)
    requires Heap(a, ta) && b !in Elems(ta)
    modifies Elems(ta), b
    ensures Heap(m, Insert(comp, ta, b)) && Elems(Insert(comp, ta, b)) == Elems(ta) + {b}
    ensures calls == MergeCalls(comp, ta, Singleton(b))
  {
    ghost var region := Region(ta, Empty);
    SkewHeapInit(b);
    ghost var pm;
    m, pm, calls := SkewHeapMerge(a, b, comp, ta, Singleton(b), null, null);
  }

  // ----- Splicing out an entry anywhere in the heap -----

  /** The part of t that hangs at b. */
  ghost function Sub(t: Tree<Entry>, b: Entry): (s: Tree<Entry>)
    requires b in Elems(t)
    ensures s.Node? && s.elem == b && b in Elems(s) && Elems(s) <= Elems(t)
  {
    if t.elem == b then t
    else if b in Elems(t.left) then Sub(t.left, b)
    else Sub(t.right, b)
  }

  /** The entry that b hangs from, or par when b is the root. */
  ghost function Above(t: Tree<Entry>, b: Entry, par: Entry?): Entry?
    requires b in Elems(t)
  {
    if t.elem == b then par
    else if b in Elems(t.left) then Above(t.left, b, t.elem)
    else Above(t.right, b, t.elem)
  }

  lemma {:induction false} SubLayout(t: Tree<Entry>, b: Entry, par: Entry?)
    requires Distinct(t) && b in Elems(t)
    ensures Distinct(Sub(t, b))
    ensures forall x :: x in Elems(Sub(t, b)) ==> Layout(t, par)[x] == Layout(Sub(t, b), Above(t, b, par))[x]
  {
    if t.elem != b {
      LayoutParts(t, par);
      if b in Elems(t.left) {
        SubLayout(t.left, b, t.elem);
      } else {
        SubLayout(t.right, b, t.elem);
      }
    }
  }

  /** The entry above b is in the tree, but not at or below b, and one of its
      two children is b. */
  lemma {:induction false} AboveLayout(t: Tree<Entry>, b: Entry, par: Entry?)
    requires Distinct(t) && b in Elems(t) && b != t.elem
    ensures var p := Above(t, b, par);
            && p != null && p in Elems(t) && p !in Elems(Sub(t, b))
            && (Layout(t, par)[p].left == b || Layout(t, par)[p].right == b)
            && Layout(t, par)[p].left != Layout(t, par)[p].right
  {
    LayoutParts(t, par);
    if b in Elems(t.left) {
      if b != t.left.elem {
        AboveLayout(t.left, b, t.elem);
      }
    } else {
      if b != t.right.elem {
        AboveLayout(t.right, b, t.elem);
      }
    }
  }

  /** The fields after b has been spliced out: the merged subtrees hang where b
      hung, and of all other entries only the one above b has changed. */
  ghost function SplicedLinks(comp: Compare<Entry>, t: Tree<Entry>, b: Entry, par: Entry?, x: Entry): Links
    requires b in Elems(t) && x in Elems(t)
  {
    var s, p := Sub(t, b), Above(t, b, par);
    var m := Merge(comp, s.left, s.right);
    var before := Layout(t, par)[x];
    if x in Elems(m) then Layout(m, p)[x]
    else if x != p then before
    else if before.left == b then before.(left := Root(m))
    else before.(right := Root(m))
  }

  lemma {:induction false} RemoveLayout(comp: Compare<Entry>, t: Tree<Entry>, b: Entry, par: Entry?, x: Entry)
    requires Distinct(t) && b in Elems(t) && x in Elems(t) && x != b
    ensures x in Elems(Remove(comp, t, b)) && Layout(Remove(comp, t, b), par)[x] == SplicedLinks(comp, t, b, par, x)
  {
    var t' := Remove(comp, t, b);
    RemoveElems(comp, t, b);
    if t.elem == b {
      MergeElems(comp, t.left, t.right);
    } else if x == t.elem {
      RemoveLayoutAtRoot(comp, t, b, par);
    } else {
      LayoutParts(t, par);
      LayoutParts(t', par);
      SplicedSide(comp, t, b, par, x);
      if b in Elems(t.left) && x in Elems(t.left) {
        RemoveLayout(comp, t.left, b, t.elem, x);
      } else if b !in Elems(t.left) && x !in Elems(t.left) {
        RemoveLayout(comp, t.right, b, t.elem, x);
      }
    }
  }

  lemma RemoveLayoutAtRoot(comp: Compare<Entry>, t: Tree<Entry>, b: Entry, par: Entry?)
    requires Distinct(t) && b in Elems(t) && b != t.elem
    ensures var t' := Remove(comp, t, b);
            t'.Node? && t'.elem == t.elem && Layout(t', par)[t.elem] == SplicedLinks(comp, t, b, par, t.elem)
  {
    LayoutParts(t, par);
    var s := Sub(t, b);
    MergeElems(comp, s.left, s.right);
    AboveLayout(t, b, par);
    if b in Elems(t.left) {
      RootOfRemove(comp, t.left, b);
    } else {
      RootOfRemove(comp, t.right, b);
    }
  }

  lemma RootOfRemove(comp: Compare<Entry>, t: Tree<Entry>, b: Entry)
    requires b in Elems(t)
    ensures Root(Remove(comp, t, b)) == if b == t.elem then Root(Merge(comp, t.left, t.right)) else t.elem
    ensures b == t.elem <==> Sub(t, b) == t
  {
  }

  /** Splicing happens in the subtree that holds b; the other one is untouched. */
  lemma SplicedSide(comp: Compare<Entry>, t: Tree<Entry>, b: Entry, par: Entry?, x: Entry)
    requires Distinct(t) && b in Elems(t) && b != t.elem && x in Elems(t) && x != t.elem
    ensures var side := if b in Elems(t.left) then t.left else t.right;
            SplicedLinks(comp, t, b, par, x) ==
            if x in Elems(side) then SplicedLinks(comp, side, b, t.elem, x) else Layout(t, par)[x]
  {
    LayoutParts(t, par);
    var s := Sub(t, b);
    MergeElems(comp, s.left, s.right);
    if b in Elems(t.left) {
      assert s == Sub(t.left, b) && Elems(s) <= Elems(t.left);
      assert Above(t, b, par) == Above(t.left, b, t.elem);
      if b != t.left.elem {
        AboveLayout(t.left, b, t.elem);
      }
    } else {
      assert s == Sub(t.right, b) && Elems(s) <= Elems(t.right);
      assert Above(t, b, par) == Above(t.right, b, t.elem);
      if b != t.right.elem {
        AboveLayout(t.right, b, t.elem);
      }
    }
  }

  lemma SplicedHeap(comp: Compare<Entry>, t: Tree<Entry>, b: Entry)
    requires Distinct(t) && b in Elems(t)
    requires forall x :: x in Elems(t) && x != b ==>
               Links(x.parent, x.left, x.right) == SplicedLinks(comp, t, b, null, x)
    ensures Heap(Root(Remove(comp, t, b)), Remove(comp, t, b))
  {
    RemoveElems(comp, t, b);
    forall x | x in Elems(t) && x != b
      ensures Layout(Remove(comp, t, b), null)[x] == Links(x.parent, x.left, x.right)
    {
      RemoveLayout(comp, t, b, null, x);
    }
  }

  /** The replacement of b: its merged children, hung from where b hangs. */
  method Replacement(b: Entry, comp: Compare<Entry>, ghost s: Tree<Entry>) returns (rep: Entry?, ghost calls: nat)
    requires Shape(b, s, b.parent)
    modifies Elems(s) - {b}
    ensures Shape(rep, Merge(comp, s.left, s.right), b.parent)
    ensures calls == MergeCalls(comp, s.left, s.right)
  {
    var p := b.parent;
    Subtrees(s, p);
    assert Elems(s.left) + Elems(s.right) == Elems(s) - {b};
    ghost var pm;
    rep, pm, calls := SkewHeapMerge(b.left, b.right, comp, s.left, s.right, b, b);
    Reparent(rep, p, Merge(comp, s.left, s.right), pm);
  }

  lemma {:induction false} CallsAtSub(comp: Compare<Entry>, t: Tree<Entry>, b: Entry)
    requires b in Elems(t)
    ensures RemoveCalls(comp, t, b) == MergeCalls(comp, Sub(t, b).left, Sub(t, b).right)
  {
    if b != t.elem {
      CallsAtSub(comp, if b in Elems(t.left) then t.left else t.right, b);
    }
  }

  method SkewHeapRemove(a: Entry?, b: Entry, comp: Compare<Entry>, ghost ta: Tree<Entry>) returns (m: Entry?,
                        ghost calls: nat)
    requires Heap(a, ta) && b in Elems(ta)
    modifies Elems(ta)
    ensures Heap(m, Remove(comp, ta, b)) && Elems(Remove(comp, ta, b)) == Elems(ta) - {b}
    ensures calls == RemoveCalls(comp, ta, b)
  {
    ghost var region := Region(ta, Empty);
    ghost var s := Sub(ta, b);
    ghost var merged := Merge(comp, s.left, s.right);
    SubLayout(ta, b, null);
    MergeElems(comp, s.left, s.right);
    var p := b.parent;
    if b != a {
      AboveLayout(ta, b, null);
    }
    var rep;
    rep, calls := Replacement(b, comp, s);
    if p != null {
      if p.left == b {
        p.left := rep;
      } else {
        p.right := rep;
      }
      m := a;
    } else {
      m := rep;
    }
    forall x | x in Elems(ta) && x != b
      ensures Links(x.parent, x.left, x.right) == SplicedLinks(comp, ta, b, null, x)
    {
      if x in Elems(merged) {
      } else if x != p {
      } else {
      }
    }
    SplicedHeap(comp, ta, b);
    RemoveElems(comp, ta, b);
    RootOfRemove(comp, ta, b);
    CallsAtSub(comp, ta, b);
  }
}
