/** Process records linked by pointers: parents, and child lists threaded through
    cptr (youngest child), optr (next older sibling) and yptr (next younger
    sibling). */
module ProcLinks {
  import opened ProcSpec
  import opened Wrappers

  class ProcStruct {
    var pid: int
    var state: PState
    var wtChild: bool
    var exiting: bool
    var exitCode: int
    var parent: ProcStruct?
    var cptr: ProcStruct?
    var optr: ProcStruct?
    var yptr: ProcStruct?
    /** Where the process continues: part of its kernel stack. */
    var context: Context

    constructor ()
      ensures pid == -1 && state == Uninit && !wtChild && !exiting && exitCode == 0 && context == Outside
      ensures parent == null && cptr == null && optr == null && yptr == null
    {
      pid, state, wtChild, exiting, exitCode, context := -1, Uninit, false, false, 0, Outside;
      parent, cptr, optr, yptr := null, null, null, null;
    }
  }

  /** The element at an index, null outside of the list. */
  function At(ps: seq<ProcStruct>, i: int): ProcStruct?
  {
    if 0 <= i < |ps| then ps[i] else null
  }

  function Maybe(p: ProcStruct?): Option<ProcStruct>
  {
    if p == null then None else Some(p)
  }

  /** ps is threaded from head: each member belongs to par, leads to its successor
      and back to its predecessor. The back pointer of the first may be stale. */
  ghost predicate Threaded(par: ProcStruct, head: ProcStruct?, ps: seq<ProcStruct>, stale: bool)
    reads ps`parent, ps`optr, ps`yptr
  {
    && head == At(ps, 0)
    && forall i :: 0 <= i < |ps| ==>
         && ps[i].parent == par && ps[i].optr == At(ps, i + 1)
         && ((i == 0 && stale) || ps[i].yptr == At(ps, i - 1))
  }

  type Kids = map<ProcStruct, seq<ProcStruct>>

  /** Every process is in at most one list of children, and there once. */
  ghost predicate Lists(kids: Kids)
  {
    && (forall p, k :: p in kids && k in kids[p] ==> k in kids)
    && (forall p :: p in kids ==> NoDuplicates(kids[p]))
    && (forall p, q, k :: p in kids && q in kids && k in kids[p] && k in kids[q] ==> p == q)
  }

  // ----- Threading and unthreading -----

  function Push(kids: Kids, par: ProcStruct, k: ProcStruct): Kids
    requires par in kids
  {
    kids[k := []][par := [k] + kids[par]]
  }

  lemma ListsPush(kids: Kids, par: ProcStruct, k: ProcStruct)
    requires Lists(kids) && par in kids && k !in kids
    ensures Lists(Push(kids, par, k)) && Push(kids, par, k).Keys == kids.Keys + {k}
  {
    NoDuplicatesConcat([k], kids[par]);
    assert NoDuplicates<ProcStruct>([]);
    hide NoDuplicates;
  }

  lemma PushThreaded(par: ProcStruct, k: ProcStruct, ps: seq<ProcStruct>)
    requires k.parent == par && k.yptr == null && k.optr == At(ps, 0) && k !in ps
    requires Threaded(par, At(ps, 0), ps, true) && (|ps| > 0 ==> ps[0].yptr == k)
    ensures Threaded(par, k, [k] + ps, false)
  {
  }

  function First(ps: seq<ProcStruct>): set<ProcStruct>
  {
    if ps == [] then {} else {ps[0]}
  }

  /** All lists of kids but that of par are threaded. */
  ghost predicate OthersThreaded(kids: Kids, par: ProcStruct, all: set<ProcStruct>)
    reads all`cptr, all`parent, all`optr, all`yptr
  {
    forall p :: p in all && p in kids && p != par ==>
      (forall k :: k in kids[p] ==> k in all) && Threaded(p, p.cptr, kids[p], false)
  }

  /** proc is put in front of the children ps of its parent. */
  method LinkFront(proc: ProcStruct, par: ProcStruct, ghost ps: seq<ProcStruct>)
    requires proc.parent == par && Threaded(par, par.cptr, ps, false) && proc !in ps
    modifies proc`yptr, proc`optr, First(ps)`yptr, par`cptr
    ensures par.cptr == proc && Threaded(par, proc, [proc] + ps, false)
  {
    proc.yptr := null;
    proc.optr := par.cptr;
    if proc.optr != null {
      par.cptr.yptr := proc;
    }
    par.cptr := proc;
    PushThreaded(par, proc, ps);
  }

  /** No other list of children is affected. */
  method PushFront(proc: ProcStruct, par: ProcStruct, ghost ps: seq<ProcStruct>, ghost kids: Kids,
                   ghost all: set<ProcStruct>)
    requires proc.parent == par && Threaded(par, par.cptr, ps, false) && proc !in ps
    requires OthersThreaded(kids, par, all)
    requires forall p, k :: p in all && p in kids && p != par && k in kids[p] ==> k in all && k != proc && k !in ps
    modifies proc`yptr, proc`optr, First(ps)`yptr, par`cptr
    ensures par.cptr == proc && Threaded(par, proc, [proc] + ps, false)
    ensures OthersThreaded(kids, par, all)
  {
    hide At;
    LinkFront(proc, par, ps);
    forall p | p in all && p in kids && p != par
      ensures Threaded(p, p.cptr, kids[p], false)
    {
      assert forall k :: k in kids[p] ==> k in all && k != proc && k !in First(ps);
    }
  }

  lemma NotInLists(kids: Kids, par: ProcStruct, k: ProcStruct)
    requires Lists(kids) && par in kids && k !in kids
    ensures k !in kids[par] && NoDuplicates(kids[par]) && forall x :: x in kids[par] ==> x in kids
  {
  }

  lemma ListsApart(kids: Kids, par: ProcStruct, proc: ProcStruct)
    requires Lists(kids) && par in kids && proc !in kids
    ensures forall p, k :: p in kids && p != par && k in kids[p] ==> k in kids && k != proc && k !in kids[par]
  {
  }

  lemma NoChildren(p: ProcStruct)
    ensures Threaded(p, null, [], false)
  {
  }

  function Cut(ps: seq<ProcStruct>, i: nat): seq<ProcStruct>
    requires i < |ps|
  {
    ps[..i] + ps[i + 1..]
  }

  lemma {:induction false} CutIsWithout(ps: seq<ProcStruct>, i: nat)
    requires i < |ps| && NoDuplicates(ps)
    ensures Cut(ps, i) == Without(ps, ps[i])
  {
    if i == 0 {
      assert forall k :: 1 <= k < |ps| ==> ps[k] != ps[0];
      NothingToRemove(ps[1..], ps[0]);
    } else {
      assert ps[0] != ps[i] && NoDuplicates(ps[1..]);
      CutIsWithout(ps[1..], i - 1);
      assert Cut(ps, i) == [ps[0]] + Cut(ps[1..], i - 1);
    }
  }

  lemma {:induction false} NothingToRemove(ps: seq<ProcStruct>, k: ProcStruct)
    requires forall i :: 0 <= i < |ps| ==> ps[i] != k
    ensures Without(ps, k) == ps
  {
    if ps != [] {
      NothingToRemove(ps[1..], k);
    }
  }

  /** The neighbours of position i. */
  function Neighbours(ps: seq<ProcStruct>, i: int): set<ProcStruct>
  {
    (if At(ps, i - 1) == null then {} else {At(ps, i - 1)}) + (if At(ps, i + 1) == null then {} else {At(ps, i + 1)})
  }

  lemma NeighboursInList(ps: seq<ProcStruct>, i: nat)
    requires i < |ps|
    ensures forall k :: k in Neighbours(ps, i) ==> k in ps
  {
  }

  lemma CutThreaded(par: ProcStruct, head: ProcStruct?, ps: seq<ProcStruct>, i: nat)
    requires i < |ps| && head == if i == 0 then At(ps, 1) else At(ps, 0)
    requires forall j :: 0 <= j < |ps| && j != i ==>
               && ps[j].parent == par
               && ps[j].optr == (if j == i - 1 then At(ps, i + 1) else At(ps, j + 1))
               && ps[j].yptr == if j == i + 1 then At(ps, i - 1) else At(ps, j - 1)
    ensures Threaded(par, head, Cut(ps, i), false)
  {
    var qs := Cut(ps, i);
    forall j | 0 <= j < |qs|
      ensures qs[j].parent == par && qs[j].optr == At(qs, j + 1) && qs[j].yptr == At(qs, j - 1)
    {
      var k := if j < i then j else j + 1;
      assert qs[j] == ps[k];
    }
  }

  /** The pointers of remove_links. */
  method Unlink(proc: ProcStruct, par: ProcStruct, ghost ps: seq<ProcStruct>, ghost i: nat)
    requires i < |ps| && ps[i] == proc && NoDuplicates(ps) && Threaded(par, par.cptr, ps, false)
    modifies Neighbours(ps, i)`optr, Neighbours(ps, i)`yptr, par`cptr
    ensures Threaded(par, par.cptr, Cut(ps, i), false)
  {
    if proc.optr != null {
      proc.optr.yptr := proc.yptr;
    }
    if proc.yptr != null {
      proc.yptr.optr := proc.optr;
    } else {
      proc.parent.cptr := proc.optr;
    }
    CutThreaded(par, par.cptr, ps, i);
  }

  /** Unlinking affects no other list of children. */
  method UnlinkAmong(proc: ProcStruct, par: ProcStruct, ghost ps: seq<ProcStruct>, ghost i: nat, ghost kids: Kids,
                     ghost all: set<ProcStruct>)
    requires i < |ps| && ps[i] == proc && NoDuplicates(ps) && Threaded(par, par.cptr, ps, false)
    requires OthersThreaded(kids, par, all)
    requires forall p, k :: p in all && p in kids && p != par && k in kids[p] ==> k in all && k !in ps
    modifies Neighbours(ps, i)`optr, Neighbours(ps, i)`yptr, par`cptr
    ensures Threaded(par, par.cptr, Cut(ps, i), false)
    ensures OthersThreaded(kids, par, all)
  {
    hide At, NoDuplicates, Cut;
    ghost var next := Neighbours(ps, i);
    NeighboursInList(ps, i);
    Unlink(proc, par, ps, i);
    forall p | p in all && p in kids && p != par
      ensures Threaded(p, p.cptr, kids[p], false)
    {
      assert forall k :: k in kids[p] ==> k in all && k !in next;
    }
  }

  lemma InLists(kids: Kids, par: ProcStruct)
    requires Lists(kids) && par in kids
    ensures NoDuplicates(kids[par]) && forall x :: x in kids[par] ==> x in kids
    ensures forall p, k :: p in kids && p != par && k in kids[p] ==> k in kids && k !in kids[par]
  {
  }

  lemma ListsCut(kids: Kids, par: ProcStruct, proc: ProcStruct)
    requires Lists(kids) && par in kids && proc in kids[par] && proc != par && proc in kids && kids[proc] == []
    ensures Lists(kids[par := Without(kids[par], proc)] - {proc})
  {
    var siblings := kids[par];
    WithoutElems(siblings, proc);
    assert forall k :: k in Without(siblings, proc) ==> k in siblings && k != proc;
    hide NoDuplicates, Without;
    var kids' := kids[par := Without(kids[par], proc)] - {proc};
    assert kids'[par] == Without(kids[par], proc);
    forall p, k | p in kids' && k in kids'[p]
      ensures p in kids && k in kids[p] && k != proc
    {
      assert kids'[p] == if p == par then Without(kids[par], proc) else kids[p];
    }
    assert forall p :: p in kids' ==> NoDuplicates(kids'[p]);
  }

  // ----- Waking up -----

  /** wakeup_proc. */
  method WakeupProc(proc: ProcStruct)
    requires proc.state != Zombie
    modifies proc`state, proc`wtChild
    ensures proc.state == Runnable
    ensures proc.wtChild == (old(proc.state) == Runnable && old(proc.wtChild))
  {
    if proc.state != Runnable {
      proc.state := Runnable;
      proc.wtChild := false;
    }
  }

  // ----- Giving children away -----

  function GivenAway(kids: Kids, cur: ProcStruct, init: ProcStruct): Kids
    requires cur in kids && init in kids
  {
    kids[cur := []][init := Reverse(kids[cur]) + kids[init]]
  }

  lemma ListsGivenAway(kids: Kids, cur: ProcStruct, init: ProcStruct)
    requires Lists(kids) && cur in kids && init in kids && cur != init
    ensures Lists(GivenAway(kids, cur, init))
  {
    var moved, theirs := kids[cur], kids[init];
    ReverseElems(moved);
    forall k | k in Reverse(moved)
      ensures k !in theirs
    {
    }
    NoDuplicatesConcat(Reverse(moved), theirs);
    assert NoDuplicates<ProcStruct>([]);
    hide NoDuplicates, Reverse;
    var kids' := GivenAway(kids, cur, init);
    forall p, k | p in kids' && k in kids'[p]
      ensures p != cur && k in kids && (k in kids[p] || (p == init && k in moved))
    {
    }
  }

  /** One round of the loop in do_exit, but for the wakeup: the first child of cur
      becomes the first child of init. What is left of the child list of cur has a
      stale back pointer at its head, which its own round clears. */
  method MoveFirst(cur: ProcStruct, init: ProcStruct, ghost rest: seq<ProcStruct>, ghost ours: seq<ProcStruct>,
                   ghost stale: bool)
    returns (proc: ProcStruct)
    requires cur != init && cur.cptr != null && Threaded(cur, cur.cptr, rest, stale)
    requires Threaded(init, init.cptr, ours, false)
    requires NoDuplicates(rest) && forall k :: k in rest ==> k !in ours
    modifies cur`cptr, init`cptr, First(rest)`yptr, First(rest)`optr, First(rest)`parent, First(ours)`yptr
    ensures rest != [] && proc == rest[0] && proc.parent == init
    ensures Threaded(cur, cur.cptr, rest[1..], true)
    ensures init.cptr == proc && Threaded(init, proc, [proc] + ours, false)
  {
    proc := cur.cptr;
    assert proc == rest[0];
    ghost var tail := rest[1..];
    cur.cptr := proc.optr;
    ThreadedTail(cur, rest);
    assert forall k :: k in tail ==> k != proc && k !in First(ours);
    Adopt(proc, init, ours);
  }

  /** The assignments of the loop that make proc a child of init. */
  method Adopt(proc: ProcStruct, init: ProcStruct, ghost ours: seq<ProcStruct>)
    requires Threaded(init, init.cptr, ours, false) && proc !in ours
    modifies proc`yptr, proc`optr, proc`parent, First(ours)`yptr, init`cptr
    ensures proc.parent == init && init.cptr == proc && Threaded(init, proc, [proc] + ours, false)
  {
    proc.yptr := null;
    proc.optr := init.cptr;
    if proc.optr != null {
      init.cptr.yptr := proc;
    }
    proc.parent := init;
    init.cptr := proc;
    PushThreaded(init, proc, ours);
  }

  lemma ThreadedTail(cur: ProcStruct, rest: seq<ProcStruct>)
    requires rest != [] && NoDuplicates(rest) && cur.cptr == At(rest, 1)
    requires forall i :: 1 <= i < |rest| ==>
               rest[i].parent == cur && rest[i].optr == At(rest, i + 1) && (i == 1 || rest[i].yptr == At(rest, i - 1))
    ensures Threaded(cur, cur.cptr, rest[1..], true)
  {
    var tail := rest[1..];
    forall i | 0 <= i < |tail|
      ensures tail[i].parent == cur && tail[i].optr == At(tail, i + 1) && (i == 0 || tail[i].yptr == At(tail, i - 1))
    {
      assert tail[i] == rest[i + 1];
    }
  }

  lemma {:induction false} ReverseSnoc(xs: seq<ProcStruct>, n: nat)
    requires n < |xs|
    ensures Reverse(xs[..n + 1]) == [xs[n]] + Reverse(xs[..n])
  {
    if n == 0 {
      assert xs[..1][1..] == [];
    } else {
      ReverseSnoc(xs[1..], n - 1);
      assert xs[..n + 1][1..] == xs[1..][..n] && xs[..n][1..] == xs[1..][..n - 1];
    }
  }

  /** After n rounds of the loop in do_exit: n of the children have moved in front
      of the children of init, the others wait behind a stale back pointer. */
  ghost predicate Moving(cur: ProcStruct, init: ProcStruct, moved: seq<ProcStruct>, n: nat, theirs: seq<ProcStruct>)
    requires n <= |moved|
    reads cur`cptr, init`cptr, moved`parent, moved`optr, moved`yptr
    reads (Reverse(moved[..n]) + theirs)`parent, (Reverse(moved[..n]) + theirs)`optr
    reads (Reverse(moved[..n]) + theirs)`yptr
  {
    && Threaded(cur, cur.cptr, moved[n..], n > 0)
    && Threaded(init, init.cptr, Reverse(moved[..n]) + theirs, false)
  }

  /** No other list of children is affected. */
  method MoveFirstAmong(cur: ProcStruct, init: ProcStruct, ghost rest: seq<ProcStruct>, ghost ours: seq<ProcStruct>,
                        ghost stale: bool,
                        ghost kids: Kids, ghost all: set<ProcStruct>)
    returns (proc: ProcStruct)
    requires cur != init && cur.cptr != null && Threaded(cur, cur.cptr, rest, stale)
    requires Threaded(init, init.cptr, ours, false)
    requires NoDuplicates(rest) && forall k :: k in rest ==> k !in ours
    requires OthersThreaded(kids, cur, all) && init !in kids
    requires forall p, k :: p in all && p in kids && p != cur && k in kids[p] ==> k in all && k !in rest && k !in ours
    modifies cur`cptr, init`cptr, First(rest)`yptr, First(rest)`optr, First(rest)`parent, First(ours)`yptr
    ensures rest != [] && proc == rest[0] && proc.parent == init
    ensures Threaded(cur, cur.cptr, rest[1..], true)
    ensures init.cptr == proc && Threaded(init, proc, [proc] + ours, false)
    ensures OthersThreaded(kids, cur, all)
  {
    hide NoDuplicates, At;
    proc := MoveFirst(cur, init, rest, ours, stale);
    forall p | p in all && p in kids && p != cur
      ensures Threaded(p, p.cptr, kids[p], false)
    {
      assert forall k :: k in kids[p] ==> k in all && k !in First(rest) && k !in First(ours);
    }
  }

  /** One round, but for the wakeup. */
  method MoveNext(cur: ProcStruct, init: ProcStruct, ghost moved: seq<ProcStruct>, ghost n: nat,
                  ghost theirs: seq<ProcStruct>,
                  ghost kids: Kids, ghost all: set<ProcStruct>)
    returns (proc: ProcStruct)
    requires cur != init && n <= |moved| && Moving(cur, init, moved, n, theirs) && cur.cptr != null
    requires NoDuplicates(moved) && forall k :: k in moved ==> k in all && k !in theirs
    requires forall k :: k in theirs ==> k in all
    requires OthersThreaded(kids, cur, all) && init !in kids
    requires forall p, k :: p in all && p in kids && p != cur && k in kids[p] ==>
               k in all && k !in moved && k !in theirs
    modifies cur`cptr, init`cptr, all`yptr, all`optr, all`parent
    ensures n < |moved| && proc == moved[n] && Moving(cur, init, moved, n + 1, theirs)
    ensures forall p :: p in all ==> p.parent == if p == proc then init else old(p.parent)
    ensures OthersThreaded(kids, cur, all)
  {
    ghost var rest, ours := moved[n..], Reverse(moved[..n]) + theirs;
    MovingApart(moved, n, theirs, all);
    hide NoDuplicates, Reverse, At, OthersThreaded, Threaded, First;
    proc := MoveFirstAmong(cur, init, rest, ours, n > 0, kids, all);
    MovingOn(moved, n, theirs);
  }

  lemma MovingOn(moved: seq<ProcStruct>, n: nat, theirs: seq<ProcStruct>)
    requires n < |moved|
    ensures moved[n + 1..] == moved[n..][1..]
    ensures Reverse(moved[..n + 1]) + theirs == [moved[n]] + (Reverse(moved[..n]) + theirs)
  {
    ReverseSnoc(moved, n);
  }

  lemma MovingApart(moved: seq<ProcStruct>, n: nat, theirs: seq<ProcStruct>, all: set<ProcStruct>)
    requires (forall k :: k in moved ==> k in all) && forall k :: k in theirs ==> k in all
    requires n <= |moved| && NoDuplicates(moved) && forall k :: k in moved ==> k !in theirs
    ensures NoDuplicates(moved[n..])
    ensures forall k :: k in moved[n..] ==> k in moved && k !in Reverse(moved[..n]) + theirs
    ensures First(moved[n..]) <= all && First(Reverse(moved[..n]) + theirs) <= all
    ensures forall k :: k in First(moved[n..]) ==> k == moved[n]
    ensures forall p :: p in all && p !in moved && p !in theirs ==> p !in Reverse(moved[..n]) + theirs
  {
    ReverseElems(moved[..n]);
    forall k | k in moved[n..]
      ensures k !in moved[..n]
    {
    }
    forall i | 0 <= i < n
      ensures Reverse(moved[..n])[i] in moved
    {
      assert Reverse(moved[..n])[i] in moved[..n];
    }
  }

  method WakeLinked(init: ProcStruct, cur: ProcStruct, ghost rest: seq<ProcStruct>, ghost stale: bool,
                    ghost ours: seq<ProcStruct>,
                    ghost kids: Kids, ghost all: set<ProcStruct>)
    requires init.state == Sleeping && OthersThreaded(kids, cur, all)
    requires Threaded(cur, cur.cptr, rest, stale) && Threaded(init, init.cptr, ours, false)
    modifies init`state, init`wtChild
    ensures init.state == Runnable && !init.wtChild && OthersThreaded(kids, cur, all)
    ensures Threaded(cur, cur.cptr, rest, stale) && Threaded(init, init.cptr, ours, false)
  {
    hide At;
    WakeupProc(init);
  }

  /** The call of wakeup_proc in the loop touches no links. */
  method WakeAmidst(init: ProcStruct, cur: ProcStruct, ghost moved: seq<ProcStruct>, ghost n: nat,
                    ghost theirs: seq<ProcStruct>,
                    ghost kids: Kids, ghost all: set<ProcStruct>)
    requires init.state == Sleeping && n <= |moved| && Moving(cur, init, moved, n, theirs)
    requires OthersThreaded(kids, cur, all)
    modifies init`state, init`wtChild
    ensures init.state == Runnable && !init.wtChild
    ensures Moving(cur, init, moved, n, theirs) && OthersThreaded(kids, cur, all)
  {
    hide At, Reverse, Threaded, OthersThreaded;
    WakeLinked(init, cur, moved[n..], n > 0, Reverse(moved[..n]) + theirs, kids, all);
  }

  method AdoptionLoop(cur: ProcStruct, init: ProcStruct, ghost moved: seq<ProcStruct>, ghost theirs: seq<ProcStruct>,
                      ghost kids: Kids, ghost all: set<ProcStruct>)
    requires cur in all && init in all && cur != init && Moving(cur, init, moved, 0, theirs)
    requires NoDuplicates(moved) && init !in moved && forall k :: k in moved ==> k in all && k !in theirs
    requires forall k :: k in theirs ==> k in all
    requires OthersThreaded(kids, cur, all) && init !in kids
    requires forall p, k :: p in all && p in kids && p != cur && k in kids[p] ==>
               k in all && k !in moved && k !in theirs
    requires init.state != Zombie && (init.wtChild <==> init.state == Sleeping)
    modifies cur`cptr, init`cptr, init`state, init`wtChild, all`yptr, all`optr, all`parent
    ensures Moving(cur, init, moved, |moved|, theirs) && cur.cptr == null && OthersThreaded(kids, cur, all)
    ensures forall p :: p in all ==> p.parent == if p in moved then init else old(p.parent)
    ensures init.wtChild == (old(init.wtChild) && forall k :: k in moved ==> old(k.state) != Zombie)
    ensures init.state == if init.wtChild == old(init.wtChild) then old(init.state) else Runnable
  {
    hide Threaded, NoDuplicates, Moving, OthersThreaded, Reverse;
    ghost var n := 0;
    while cur.cptr != null
      invariant n <= |moved| && Moving(cur, init, moved, n, theirs) && OthersThreaded(kids, cur, all)
      invariant forall p :: p in all ==> p.parent == if p in moved[..n] then init else old(p.parent)
      invariant init.wtChild == (old(init.wtChild) && forall i :: 0 <= i < n ==> old(moved[i].state) != Zombie)
      invariant init.state == if init.wtChild == old(init.wtChild) then old(init.state) else Runnable
      decreases |moved| - n
    {
      var proc := MoveNext(cur, init, moved, n, theirs, kids, all);
      n := n + 1;
      if proc.state == Zombie {
        if init.wtChild {
          WakeAmidst(init, cur, moved, n, theirs, kids, all);
        }
      }
    }
    AllMoved(cur, init, moved, n, theirs);
  }

  lemma AllMoved(cur: ProcStruct, init: ProcStruct, moved: seq<ProcStruct>, n: nat, theirs: seq<ProcStruct>)
    requires n <= |moved| && Moving(cur, init, moved, n, theirs) && cur.cptr == null
    ensures n == |moved| && moved[..n] == moved
  {
  }

  lemma StartMoving(cur: ProcStruct, init: ProcStruct, all: set<ProcStruct>, kids: Kids)
    requires cur in all && init in all && cur != init && kids.Keys == all && Lists(kids)
    requires forall p :: p in all ==> Threaded(p, p.cptr, kids[p], false)
    ensures Moving(cur, init, kids[cur], 0, kids[init]) && OthersThreaded(kids - {init}, cur, all)
    ensures NoDuplicates(kids[cur]) && forall k :: k in kids[cur] ==> k in all && k !in kids[init]
    ensures forall k :: k in kids[init] ==> k in all
    ensures forall p, k :: p in all && p in kids - {init} && p != cur && k in kids[p] ==>
              k in all && k !in kids[cur] && k !in kids[init]
  {
    var moved, theirs := kids[cur], kids[init];
    assert moved[0..] == moved && Reverse(moved[..0]) + theirs == theirs;
  }

  lemma DoneMoving(cur: ProcStruct, init: ProcStruct, all: set<ProcStruct>, kids: Kids)
    requires cur in all && init in all && cur != init && kids.Keys == all && Lists(kids) && init !in kids[cur]
    requires Moving(cur, init, kids[cur], |kids[cur]|, kids[init]) && cur.cptr == null
    requires OthersThreaded(kids - {init}, cur, all)
    ensures Lists(GivenAway(kids, cur, init)) && GivenAway(kids, cur, init).Keys == all
    ensures forall p :: p in all ==> Threaded(p, p.cptr, GivenAway(kids, cur, init)[p], false)
  {
    ListsGivenAway(kids, cur, init);
    hide Lists;
    var moved := kids[cur];
    assert moved[..|moved|] == moved;
    hide Threaded;
    forall p | p in all
      ensures Threaded(p, p.cptr, GivenAway(kids, cur, init)[p], false)
    {
      if p == cur {
        NoChildren(cur);
      }
    }
  }

  // ----- Booting -----

  lemma BootedThreaded(idle: ProcStruct, init: ProcStruct)
    requires init.parent == idle && init.optr == null && init.yptr == null
    ensures Threaded(idle, init, [init], false) && Threaded(init, null, [], false)
  {
  }

  lemma BootedLists(idle: ProcStruct, init: ProcStruct)
    requires idle != init
    ensures Lists(map[idle := [init], init := []])
  {
    assert NoDuplicates([init]) && NoDuplicates<ProcStruct>([]);
  }
}
