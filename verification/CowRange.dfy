/** Copying an address space at fork: sharing it copy-on-write, or copying
    every page at once. */
module CowRange {
  import opened Paging

  // ----- What the copies compute -----

  /** The mapped pages of a range. */
  function PagesIn(from: Space, lo: nat, hi: nat): set<nat>
  {
    set n | n in from && lo <= n < hi
  }

  /** In the parent, a shared page loses its write permission. */
  function Shared(p: Pte): Pte
  {
    p.(w := false)
  }

  /** In the child, the same frame is mapped without write permission. */
  function ChildPte(p: Pte): Pte
  {
    MakePte(p.frame, UserPerm(p).(w := false))
  }

  /** The parent after the pages of s have been shared. */
  function CowParent(from: Space, s: set<nat>): Space
  {
    map n | n in from :: if n in s then Shared(from[n]) else from[n]
  }

  /** The child after it has received the pages of s. */
  function CowChild(to: Space, from: Space, s: set<nat>): Space
    requires s <= from.Keys
  {
    map n | n in to.Keys + s :: if n in s then ChildPte(from[n]) else to[n]
  }

  /** The child of an eager copy: every page of s has a frame of its own, new
      and with the parent's contents, and the parent's permissions. */
  ghost predicate EagerCopied(mem: Frames, mem': Frames, from: Space, to: Space, to': Space, s: set<nat>)
  {
    && s <= from.Keys && to'.Keys == to.Keys + s
    && (forall f :: f in mem ==> f in mem' && mem'[f] == mem[f])
    && (forall n :: n in to && n !in s ==> to'[n] == to[n])
    && (forall n :: n in s ==> CopiedPage(mem, mem', from[n], to'[n]))
    && (forall n, m :: n in s && m in s && n != m ==> to'[n].frame != to'[m].frame)
  }

  ghost predicate CopiedPage(mem: Frames, mem': Frames, p: Pte, p': Pte)
  {
    && p' == MakePte(p'.frame, UserPerm(p))
    && p'.frame !in mem && p'.frame in mem'
    && p.frame in mem && mem'[p'.frame] == mem[p.frame]
  }

  /** The pages of s, each once and in ascending order. */
  ghost predicate Visits(visited: seq<nat>, s: set<nat>)
  {
    && (forall i, j :: 0 <= i < j < |visited| ==> visited[i] < visited[j])
    && (forall n :: n in visited <==> n in s)
  }

  // ----- Moving the cursor -----

  lemma NothingYet(to: Space, from: Space, lo: nat)
    ensures PagesIn(from, lo, lo) == {}
    ensures CowParent(from, {}) == from && CowChild(to, from, {}) == to && Visits([], {})
  {
  }

  lemma SkipUnmapped(from: Space, lo: nat, cur: nat, next: nat)
    requires lo <= cur <= next && forall n :: n in from ==> n < cur || next <= n
    ensures PagesIn(from, lo, next) == PagesIn(from, lo, cur)
  {
  }

  lemma NextPage(from: Space, lo: nat, cur: nat)
    requires lo <= cur && cur in from
    ensures PagesIn(from, lo, cur + 1) == PagesIn(from, lo, cur) + {cur} && cur !in PagesIn(from, lo, cur)
  {
  }

  lemma ShareNext(to: Space, from: Space, s: set<nat>, cur: nat)
    requires s <= from.Keys && cur in from && cur !in s
    ensures CowParent(from, s).Keys == from.Keys && CowParent(from, s)[cur] == from[cur]
    ensures CowParent(from, s + {cur}) == CowParent(from, s)[cur := Shared(from[cur])]
    ensures CowChild(to, from, s + {cur}) == CowChild(to, from, s)[cur := ChildPte(from[cur])]
  {
  }

  lemma VisitsSnoc(visited: seq<nat>, from: Space, lo: nat, cur: nat)
    requires lo <= cur && cur in from && Visits(visited, PagesIn(from, lo, cur))
    ensures Visits(visited + [cur], PagesIn(from, lo, cur + 1))
  {
    var longer := visited + [cur];
    forall i, j | 0 <= i < j < |longer|
      ensures longer[i] < longer[j]
    {
      assert visited[i] in visited;
    }
  }

  /** The next PTSIZE boundary: no other page of the current block lies beyond it. */
  lemma NextBlock(start: nat, end: nat) returns (next: nat)
    requires start % PGSIZE == 0 && start < end && end % PGSIZE == 0
    ensures var boundary := RoundDown(start + PTSIZE, PTSIZE);
            && boundary % PGSIZE == 0 && start < boundary
            && next == Min(boundary / PGSIZE, end / PGSIZE) && start / PGSIZE < next
            && forall n :: start / PGSIZE <= n < next ==> n / ENTRIES == start / PGSIZE / ENTRIES
  {
    BlockBoundary(start);
    next := Min(RoundDown(start + PTSIZE, PTSIZE) / PGSIZE, end / PGSIZE);
    assert start / PGSIZE < end / PGSIZE;
  }

  lemma BlockBoundary(start: nat)
    requires start % PGSIZE == 0
    ensures var boundary := RoundDown(start + PTSIZE, PTSIZE);
            && boundary % PGSIZE == 0 && start < boundary
            && boundary / PGSIZE == (start / PGSIZE / ENTRIES + 1) * ENTRIES
  {
    var n := start / PGSIZE;
    assert start == n * PGSIZE;
    var block, rest := n / ENTRIES, n % ENTRIES;
    assert n == block * ENTRIES + rest;
    assert start + PTSIZE == (block + 1) * PTSIZE + rest * PGSIZE;
    assert (start + PTSIZE) / PTSIZE == block + 1;
    assert RoundDown(start + PTSIZE, PTSIZE) == ((block + 1) * ENTRIES) * PGSIZE;
  }

  function Min(a: nat, b: nat): nat
  {
    if a < b then a else b
  }

  // ----- The copy-on-write loop -----

  /** Every valid entry of the range is visited exactly once and nothing outside
      it is touched, although a missing table makes the cursor jump to the next
      PTSIZE boundary, which may lie beyond the end of the range. */
  method CowCopyRange(to: PageDir, from: PageDir, start0: nat, end: nat) returns (ghost visited: seq<nat>)
    requires to.Valid() && from.Valid() && to != from
    requires start0 % PGSIZE == 0 && end % PGSIZE == 0 && UserAccess(start0, end)
    modifies to, from
    ensures to.Valid() && from.Valid()
    ensures var s := PagesIn(old(from.View()), start0 / PGSIZE, end / PGSIZE);
            && from.View() == CowParent(old(from.View()), s)
            && to.View() == CowChild(old(to.View()), old(from.View()), s)
            && Visits(visited, s)
  {
    hide CowParent, CowChild, Visits, RoundDown, PageDir.View;
    var start := start0;
    ghost var lo, cur, from0, to0 := start0 / PGSIZE, start0 / PGSIZE, from.View(), to.View();
    visited := [];
    NothingYet(to0, from0, lo);
    while start < end
      invariant start % PGSIZE == 0 && start0 <= start && lo <= cur && cur == Min(start / PGSIZE, end / PGSIZE)
      invariant to.Valid() && from.Valid()
      invariant from.View() == CowParent(from0, PagesIn(from0, lo, cur))
      invariant from.View().Keys == from0.Keys
      invariant to.View() == CowChild(to0, from0, PagesIn(from0, lo, cur))
      invariant Visits(visited, PagesIn(from0, lo, cur))
    {
      var found, pte := from.GetPte(start);
      if !found {
        ghost var next := NextBlock(start, end);
        SkipUnmapped(from0, lo, cur, next);
        start, cur := RoundDown(start + PTSIZE, PTSIZE), next;
        continue;
      }
      if pte.v {
        NextPage(from0, lo, cur);
        ShareNext(to0, from0, PagesIn(from0, lo, cur), cur);
        VisitsSnoc(visited, from0, lo, cur);
        from.SetPte(start, Shared(pte));
        to.PageInsert(pte.frame, start, UserPerm(pte).(w := false));
        visited := visited + [cur];
      } else {
        SkipUnmapped(from0, lo, cur, cur + 1);
      }
      start, cur := start + PGSIZE, cur + 1;
    }
  }

  // ----- The eager loop -----

  lemma EagerNothing(mem: Frames, from: Space, to: Space)
    ensures EagerCopied(mem, mem, from, to, to, {})
  {
  }

  lemma EagerCompose(mem0: Frames, mem1: Frames, mem2: Frames, from: Space,
                     to0: Space, to1: Space, to2: Space, s1: set<nat>, s2: set<nat>)
    requires EagerCopied(mem0, mem1, from, to0, to1, s1)
    requires EagerCopied(mem1, mem2, from, to1, to2, s2) && s1 !! s2
    requires forall n :: n in from ==> from[n].frame in mem0
    ensures EagerCopied(mem0, mem2, from, to0, to2, s1 + s2)
  {
    forall n | n in s1 + s2
      ensures CopiedPage(mem0, mem2, from[n], to2[n])
    {
      if n in s1 {
        assert to2[n] == to1[n] && CopiedPage(mem0, mem1, from[n], to1[n]);
      } else {
        assert CopiedPage(mem1, mem2, from[n], to2[n]);
      }
    }
    forall n, m | n in s1 && m in s2
      ensures to2[n].frame != to2[m].frame
    {
      assert to2[n] == to1[n] && CopiedPage(mem0, mem1, from[n], to1[n]);
      assert CopiedPage(mem1, mem2, from[m], to2[m]);
    }
  }

  lemma EagerOne(mem: Frames, mem': Frames, from: Space, to: Space, n: nat, frame: nat)
    requires n in from && from[n].frame in mem && frame !in mem
    requires mem' == mem[frame := mem[from[n].frame]]
    ensures EagerCopied(mem, mem', from, to, to[n := MakePte(frame, UserPerm(from[n]))], {n})
  {
  }

  /** The loop tests its condition at the end, also after skipping a block; on
      the non-empty ranges that it accepts it copies the same pages. */
  method CopyRange(to: PageDir, from: PageDir, mem: PhysMem, start0: nat, end: nat) returns (ghost visited: seq<nat>)
    requires to.Valid() && from.Valid() && to != from
    requires start0 % PGSIZE == 0 && end % PGSIZE == 0 && UserAccess(start0, end)
    requires forall n :: n in from.View() ==> from.View()[n].frame in mem.frames
    modifies to, mem
    ensures to.Valid()
    ensures var s := PagesIn(from.View(), start0 / PGSIZE, end / PGSIZE);
            EagerCopied(old(mem.frames), mem.frames, from.View(), old(to.View()), to.View(), s) && Visits(visited, s)
  {
    hide EagerCopied, Visits, RoundDown, PageDir.View;
    var start := start0;
    ghost var lo, cur, from0, to0, mem0 := start0 / PGSIZE, start0 / PGSIZE, from.View(), to.View(), mem.frames;
    visited := [];
    NothingYet(to0, from0, lo);
    EagerNothing(mem0, from0, to0);
    var more := true;
    while more
      invariant start % PGSIZE == 0 && start0 <= start && lo <= cur && cur == Min(start / PGSIZE, end / PGSIZE)
      invariant more <==> start < end
      invariant to.Valid() && from.View() == from0
      invariant forall f :: f in mem0 ==> f in mem.frames
      invariant EagerCopied(mem0, mem.frames, from0, to0, to.View(), PagesIn(from0, lo, cur))
      invariant Visits(visited, PagesIn(from0, lo, cur))
      decreases end - start
    {
      var found, pte := from.GetPte(start);
      if !found {
        ghost var next := NextBlock(start, end);
        SkipUnmapped(from0, lo, cur, next);
        start, cur := RoundDown(start + PTSIZE, PTSIZE), next;
      } else {
        if pte.v {
          ghost var mem1, to1 := mem.frames, to.View();
          var npage := mem.AllocPage();
          mem.CopyPage(npage, pte.frame);
          to.PageInsert(npage, start, UserPerm(pte));
          EagerOne(mem1, mem.frames, from0, to1, cur, npage);
          NextPage(from0, lo, cur);
          EagerCompose(mem0, mem1, mem.frames, from0, to0, to1, to.View(), PagesIn(from0, lo, cur), {cur});
          VisitsSnoc(visited, from0, lo, cur);
          visited := visited + [cur];
        } else {
          SkipUnmapped(from0, lo, cur, cur + 1);
        }
        start, cur := start + PGSIZE, cur + 1;
      }
      more := start != 0 && start < end;
    }
  }

  // ----- The copy-on-write fault -----

  /** The faulting page gets a new frame with the old contents, writable. */
  method CowPgFault(pgdir: PageDir, mem: PhysMem, addr: nat) returns (ghost npage: nat)
    requires pgdir.Valid() && addr < USERTOP && addr / PGSIZE in pgdir.View()
    requires pgdir.View()[addr / PGSIZE].frame in mem.frames
    modifies pgdir, mem
    ensures pgdir.Valid() && npage !in old(mem.frames)
    ensures var pte := old(pgdir.View())[addr / PGSIZE];
            && mem.frames == old(mem.frames)[npage := old(mem.frames)[pte.frame]]
            && pgdir.View() == old(pgdir.View())[addr / PGSIZE := MakePte(npage, UserPerm(pte).(w := true))]
  {
    var found, pte := pgdir.GetPte(addr);
    var perm := UserPerm(pte).(w := true);
    var page := mem.AllocPage();
    mem.CopyPage(page, pte.frame);
    var start := RoundDown(addr, PGSIZE);
    pgdir.ClearPte(addr);
    assert start / PGSIZE == addr / PGSIZE;
    pgdir.PageInsert(page, start, perm);
    npage := page;
  }
}
