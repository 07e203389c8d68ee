/** What a loaded program finds in its address space, said by addresses and bytes. */
module LoaderLaws {
  import opened CowMachine
  import opened Loader
  import opened Mm
  import opened Paging

  /** Byte i of the file part of a segment is at its address, and the rest of the
      segment is zero. */
  lemma BytesOfSegment(mem: Frames, view: Space, binary: seq<Byte>, phs: seq<ProgHdr>, ph: ProgHdr, i: nat)
    requires AllLoaded(mem, view, binary, phs) && ph in phs && ph.load && i < ph.memsz
    ensures var a := ph.va + i;
            && a / PGSIZE in view && view[a / PGSIZE].frame in mem
            && (i < ph.filesz ==> ph.offset + i < |binary|)
            && mem[view[a / PGSIZE].frame][a % PGSIZE] == if i < ph.filesz then binary[ph.offset + i] else 0
  {
    assert ByteIs(mem, view, ph.va + i, Expected(binary, ph, ph.va + i));
  }

  /** The pages of a segment are those that its addresses touch. */
  lemma PagesTouched(ph: ProgHdr, n: nat)
    ensures HasPage(ph, n) <==> ph.load && exists a: nat :: ph.va <= a < ph.va + ph.memsz && a / PGSIZE == n
  {
    if HasPage(ph, n) {
      var a := if n * PGSIZE < ph.va then ph.va else n * PGSIZE;
      assert ph.va <= a < ph.va + ph.memsz && a / PGSIZE == n;
    }
  }

  /** The region of a segment that is not empty covers exactly these pages. */
  lemma RegionTouched(addr: nat, len: nat, writable: bool, n: nat)
    requires len > 0
    ensures RegionOf(addr, len, writable).writable == writable
    ensures Covers(RegionOf(addr, len, writable), n) <==>
            exists a: nat :: addr <= a < addr + len && a / PGSIZE == n
  {
    var v := RegionOf(addr, len, writable);
    if Covers(v, n) {
      var a := if n * PGSIZE < addr then addr else n * PGSIZE;
      assert addr <= a < addr + len && a / PGSIZE == n;
    }
    if a: nat :| addr <= a < addr + len && a / PGSIZE == n {
      assert v.start <= a < v.end;
    }
  }

  /** Every page of a segment is valid and for the user, with exactly the rights of
      the segment, where the right to write gives that to read. */
  lemma RightsOfSegment(mem: Frames, view: Space, phs: seq<ProgHdr>, ph: ProgHdr, a: nat)
    requires AllMapped(mem, view, phs) && ph in phs && ph.load && ph.va <= a < ph.va + ph.memsz
    ensures a / PGSIZE in view
    ensures var pte := view[a / PGSIZE];
            && pte.v && pte.u && pte.rest == 0
            && (pte.r <==> ph.r || ph.w) && (pte.w <==> ph.w) && (pte.x <==> ph.x)
  {
    PagesTouched(ph, a / PGSIZE);
    assert HasPage(ph, a / PGSIZE);
  }

  /** A page is mapped with the write bit exactly if it lies in a writable region. */
  lemma WriteBitIffRegion(mem: Frames, view: Space, vmas: seq<Vma>, phs: seq<ProgHdr>, n: nat)
    requires AllMapped(mem, view, phs) && Regions(vmas) && VmaSet(vmas) == SegmentRegions(phs) && n in view
    ensures Covered(vmas, n) && (view[n].w <==> Writable(vmas, n))
  {
    var ph :| ph in phs && HasPage(ph, n);
    var v := RegionOf(ph.va, ph.memsz, ph.w);
    PagesTouched(ph, n);
    RegionTouched(ph.va, ph.memsz, ph.w, n);
    assert v in SegmentRegions(phs);
    assert v in VmaSet(vmas);
    hide RegionOf, SegmentRegions, HasPage;
    forall u | u in vmas && Covers(u, n)
      ensures u == v
    {
      OneRegion(vmas, u, v, n);
    }
  }

  lemma OneRegion(vmas: seq<Vma>, u: Vma, v: Vma, n: nat)
    requires Regions(vmas) && u in vmas && v in vmas && Covers(u, n) && Covers(v, n)
    ensures u == v
  {
    var i :| 0 <= i < |vmas| && vmas[i] == u;
    var j :| 0 <= j < |vmas| && vmas[j] == v;
  }

  /** A header is accepted by itself exactly if the segment lies in user memory and the
      file part is not longer than the segment; an empty segment must not begin at a
      page boundary. */
  lemma AcceptableIff(ph: ProgHdr)
    requires ph.load
    ensures Acceptable(ph) <==>
            && ph.filesz <= ph.memsz && USERBASE <= ph.va && ph.va + ph.memsz <= USERTOP
            && !(ph.memsz == 0 && ph.va % PGSIZE == 0)
  {
  }

  /** A file that is not loaded: the headers up to some k are, and the answer is that
      of header k. The file part may be too long, the region may be refused, or it may
      stop the kernel. */
  lemma {:induction false} FirstFailure(phs: seq<ProgHdr>, vmas: set<Vma>) returns (k: nat)
    requires LoadResult(phs, vmas) != Loaded
    ensures k < |phs| && phs[k].load && LoadResult(phs[..k], vmas) == Loaded
    ensures var ph, before := phs[k], vmas + SegmentRegions(phs[..k]);
            var v := RegionOf(ph.va, ph.memsz, ph.w);
            if ph.filesz > ph.memsz then LoadResult(phs, vmas) == Failed(-E_INVAL_ELF)
            else if !UserAccess(v.start, v.end) || exists u :: u in before && u.start <= v.start < u.end then
              LoadResult(phs, vmas) == Failed(-E_INVAL)
            else LoadResult(phs, vmas) == Panicked && exists u :: u in before && Overlaps(u, v)
  {
    hide RegionOf;
    var ph := phs[0];
    var v := RegionOf(ph.va, ph.memsz, ph.w);
    if ph.load && (ph.filesz > ph.memsz || MapResult(vmas, v) != Loaded) {
      k := 0;
      assert phs[..0] == [] && SegmentRegions([]) == {} && vmas + {} == vmas;
    } else {
      var vmas' := if ph.load then vmas + {v} else vmas;
      var i := FirstFailure(phs[1..], vmas');
      k := i + 1;
      assert phs[k] == phs[1..][i] && phs[..k] == [ph] + phs[1..][..i];
      RegionFirst(ph, phs[1..][..i]);
      assert vmas' + SegmentRegions(phs[1..][..i]) == vmas + SegmentRegions(phs[..k]);
      assert phs[..k][0] == ph && phs[..k][1..] == phs[1..][..i];
      hide MapResult, SegmentRegions;
    }
  }

  lemma RegionFirst(ph: ProgHdr, phs: seq<ProgHdr>)
    ensures SegmentRegions([ph] + phs) ==
            (if ph.load then {RegionOf(ph.va, ph.memsz, ph.w)} else {}) + SegmentRegions(phs)
  {
    hide RegionOf;
    assert forall p :: p in [ph] + phs <==> p == ph || p in phs;
    forall v | v in SegmentRegions(phs)
      ensures v in SegmentRegions([ph] + phs)
    {
      var p :| p in phs && p.load && v == RegionOf(p.va, p.memsz, p.w);
      assert p in [ph] + phs;
    }
    if ph.load {
      assert ph in [ph] + phs;
    }
  }
}
