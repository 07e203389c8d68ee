/** The memory descriptor of a process: its regions and its page directory,
    and the two ways in which fork duplicates it. */
module Mm {
  import opened Paging
  import opened CowRange

  /** A region [start, end) of the address space. */
  datatype Vma = Vma(start: nat, end: nat, writable: bool)

  predicate WellFormed(v: Vma)
  {
    v.start % PGSIZE == 0 && v.end % PGSIZE == 0 && UserAccess(v.start, v.end)
  }

  /** The list of regions is sorted and no two regions overlap. */
  ghost predicate Regions(vmas: seq<Vma>)
  {
    && (forall v :: v in vmas ==> WellFormed(v))
    && (forall i, j :: 0 <= i < j < |vmas| ==> vmas[i].end <= vmas[j].start)
  }

  predicate Covers(v: Vma, n: nat)
  {
    v.start / PGSIZE <= n < v.end / PGSIZE
  }

  ghost predicate Covered(vmas: seq<Vma>, n: nat)
  {
    exists v :: v in vmas && Covers(v, n)
  }

  /** The mapped pages that lie in some region. */
  ghost function RegionPages(from: Space, vmas: seq<Vma>): (s: set<nat>)
    ensures s <= from.Keys
  {
    set n | n in from && Covered(vmas, n)
  }

  class MmStruct {
    var vmas: seq<Vma>
    const pgdir: PageDir

    ghost predicate Valid()
      reads this, pgdir
    {
      Regions(vmas) && pgdir.Valid()
    }

    /** A new descriptor without regions and mappings. */
    constructor ()
      ensures Valid() && vmas == [] && pgdir.View() == map[] && fresh(pgdir)
    {
      vmas := [];
      pgdir := new PageDir();
    }

    /** The region goes behind those that do not start later; the checks of the
        source for overlap with both neighbours are the precondition. */
    method InsertVma(v: Vma)
      requires Regions(vmas) && WellFormed(v)
      requires forall u :: u in vmas ==> u.end <= v.start || v.end <= u.start
      modifies this`vmas
      ensures Regions(vmas)
      ensures exists i :: 0 <= i <= |old(vmas)| && vmas == old(vmas)[..i] + [v] + old(vmas)[i..]
      ensures (forall u :: u in old(vmas) ==> v.start < u.start) ==> vmas == [v] + old(vmas)
    {
      var i := 0;
      while i < |vmas| && vmas[i].start <= v.start
        invariant 0 <= i <= |vmas|
        invariant forall k :: 0 <= k < i ==> vmas[k].start <= v.start
      {
        i := i + 1;
      }
      forall k | 0 <= k < |vmas|
        ensures if k < i then vmas[k].end <= v.start else v.end <= vmas[k].start
      {
        assert vmas[k] in vmas && WellFormed(vmas[k]);
        if i <= k {
          assert vmas[i] in vmas && WellFormed(vmas[i]);
        }
      }
      InsertedRegions(vmas, v, i);
      vmas := vmas[..i] + [v] + vmas[i..];
    }
  }

  lemma InsertedRegions(vmas: seq<Vma>, v: Vma, i: nat)
    requires Regions(vmas) && WellFormed(v) && i <= |vmas|
    requires forall k :: 0 <= k < |vmas| ==> if k < i then vmas[k].end <= v.start else v.end <= vmas[k].start
    ensures Regions(vmas[..i] + [v] + vmas[i..])
  {
    hide WellFormed;
  }

  // ----- Region by region -----

  lemma RegionPagesCons(from: Space, v: Vma, rest: seq<Vma>)
    ensures RegionPages(from, [v] + rest) == RegionPages(from, rest) + PagesIn(from, v.start / PGSIZE, v.end / PGSIZE)
  {
    forall n
      ensures Covered([v] + rest, n) <==> Covered(rest, n) || Covers(v, n)
    {
      assert v in [v] + rest;
      if Covered(rest, n) {
        var u :| u in rest && Covers(u, n);
        assert u in [v] + rest;
      }
    }
  }

  lemma RegionPagesDisjoint(from: Space, v: Vma, rest: seq<Vma>)
    requires Regions([v] + rest)
    ensures RegionPages(from, rest) !! PagesIn(from, v.start / PGSIZE, v.end / PGSIZE)
  {
    forall n | Covered(rest, n)
      ensures !Covers(v, n)
    {
      var i :| 0 <= i < |rest| && Covers(rest[i], n);
      assert ([v] + rest)[0].end <= ([v] + rest)[i + 1].start;
    }
  }

  lemma SharingComposes(from: Space, s: set<nat>, t: set<nat>)
    requires s <= from.Keys && t <= from.Keys
    ensures CowParent(CowParent(from, s), t) == CowParent(from, s + t)
    ensures CowChild(CowChild(map[], from, s), CowParent(from, s), t) == CowChild(map[], from, s + t)
  {
  }

  lemma RegionsTail(vmas: seq<Vma>, k: nat)
    requires Regions(vmas) && k < |vmas|
    ensures Regions(vmas[k..]) && vmas[k..] == [vmas[k]] + vmas[k + 1..] && WellFormed(vmas[k])
    ensures forall u :: u in vmas[k + 1..] ==> vmas[k].end <= u.start
  {
    forall v | v in vmas[k..]
      ensures WellFormed(v)
    {
      assert v in vmas;
    }
    forall u | u in vmas[k + 1..]
      ensures vmas[k].end <= u.start
    {
      var j :| k + 1 <= j < |vmas| && vmas[j] == u;
    }
  }

  /** cow_copy_mmap walks the regions from the last to the first. The child gets
      the same regions and every mapped page in them, and parent and child share
      these pages without write permission. */
  method CowCopyMmap(to: MmStruct, from: MmStruct)
    requires to.Valid() && from.Valid() && to != from && to.pgdir != from.pgdir
    requires to.vmas == [] && to.pgdir.View() == map[]
    modifies to, to.pgdir, from.pgdir
    ensures to.Valid() && from.Valid() && to.vmas == from.vmas
    ensures from.pgdir.View() == CowParent(old(from.pgdir.View()), RegionPages(old(from.pgdir.View()), from.vmas))
    ensures to.pgdir.View() == CowChild(map[], old(from.pgdir.View()), RegionPages(old(from.pgdir.View()), from.vmas))
  {
    hide CowParent, CowChild, PageDir.View, Visits, Regions;
    var vmas := from.vmas;
    var k := |vmas|;
    ghost var from0 := from.pgdir.View();
    NoRegions(from0);
    while k > 0
      invariant 0 <= k <= |vmas| && from.vmas == vmas && Regions(vmas)
      invariant Regions(to.vmas) && to.pgdir.Valid() && from.pgdir.Valid()
      invariant to.vmas == vmas[k..]
      invariant from.pgdir.View() == CowParent(from0, RegionPages(from0, vmas[k..]))
      invariant to.pgdir.View() == CowChild(map[], from0, RegionPages(from0, vmas[k..]))
    {
      k := k - 1;
      var v := vmas[k];
      RegionsTail(vmas, k);
      RegionPagesCons(from0, v, vmas[k + 1..]);
      ghost var s, t := RegionPages(from0, vmas[k + 1..]), PagesIn(from0, v.start / PGSIZE, v.end / PGSIZE);
      SharingComposes(from0, s, t);
      ParentPages(from0, s, v.start / PGSIZE, v.end / PGSIZE);
      to.InsertVma(v);
      ghost var visited := CowCopyRange(to.pgdir, from.pgdir, v.start, v.end);
    }
    assert vmas[0..] == vmas;
  }

  lemma NoRegions(from: Space)
    ensures RegionPages(from, []) == {} && Regions([])
    ensures CowParent(from, {}) == from && CowChild(map[], from, {}) == map[]
  {
  }

  lemma ParentPages(from: Space, s: set<nat>, lo: nat, hi: nat)
    ensures CowParent(from, s).Keys == from.Keys
    ensures PagesIn(CowParent(from, s), lo, hi) == PagesIn(from, lo, hi)
  {
  }

  /** dup_mmap, the eager counterpart. */
  method DupMmap(to: MmStruct, from: MmStruct, mem: PhysMem)
    requires to.Valid() && from.Valid() && to != from && to.pgdir != from.pgdir
    requires to.vmas == [] && to.pgdir.View() == map[]
    requires forall n :: n in from.pgdir.View() ==> from.pgdir.View()[n].frame in mem.frames
    modifies to, to.pgdir, mem
    ensures to.Valid() && from.Valid() && to.vmas == from.vmas
    ensures EagerCopied(old(mem.frames), mem.frames, from.pgdir.View(), map[], to.pgdir.View(),
                        RegionPages(from.pgdir.View(), from.vmas))
  {
    hide EagerCopied, PageDir.View, Visits, Regions;
    var vmas := from.vmas;
    var k := |vmas|;
    ghost var from0, mem0 := from.pgdir.View(), mem.frames;
    NoRegions(from0);
    EagerNothing(mem0, from0, map[]);
    while k > 0
      invariant 0 <= k <= |vmas| && from.vmas == vmas && Regions(vmas)
      invariant Regions(to.vmas) && to.pgdir.Valid() && from.pgdir.View() == from0
      invariant to.vmas == vmas[k..]
      invariant forall f :: f in mem0 ==> f in mem.frames
      invariant EagerCopied(mem0, mem.frames, from0, map[], to.pgdir.View(), RegionPages(from0, vmas[k..]))
    {
      k := k - 1;
      var v := vmas[k];
      RegionsTail(vmas, k);
      RegionPagesCons(from0, v, vmas[k + 1..]);
      RegionPagesDisjoint(from0, v, vmas[k + 1..]);
      ghost var s, t := RegionPages(from0, vmas[k + 1..]), PagesIn(from0, v.start / PGSIZE, v.end / PGSIZE);
      ghost var mem1, to1 := mem.frames, to.pgdir.View();
      to.InsertVma(v);
      ghost var visited := CopyRange(to.pgdir, from.pgdir, mem, v.start, v.end);
      KeepsFrames(mem1, mem.frames, from0, to1, to.pgdir.View(), t);
      EagerCompose(mem0, mem1, mem.frames, from0, map[], to1, to.pgdir.View(), s, t);
    }
    assert vmas[0..] == vmas;
  }

  lemma KeepsFrames(mem: Frames, mem': Frames, from: Space, to: Space, to': Space, s: set<nat>)
    requires EagerCopied(mem, mem', from, to, to', s)
    ensures forall f :: f in mem ==> f in mem'
  {
  }
}
