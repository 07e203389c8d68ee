/** Loading the segments of an executable into a new address space. */
module Loader {
  import opened Paging
  import opened Mm

  const E_INVAL := 3
  const E_INVAL_ELF := 8

  /** A program header: whether it is a loadable segment, its permissions, and
      where its bytes are in the file and in memory. */
  datatype ProgHdr = ProgHdr(load: bool, r: bool, w: bool, x: bool, offset: nat, va: nat, filesz: nat, memsz: nat)

  datatype Outcome = Loaded | Failed(code: int) | Panicked

  function RoundUp(a: nat, n: nat): (r: nat)
    requires n > 0
  {
    RoundDown(a + n - 1, n)
  }

  /** Writing implies reading. */
  function SegmentPerm(ph: ProgHdr): Perm
  {
    Perm(ph.r || ph.w, ph.w, ph.x, true)
  }

  /** A header that the loader accepts and whose bytes are in the file. */
  predicate Fits(binary: seq<Byte>, ph: ProgHdr)
  {
    ph.filesz <= ph.memsz && ph.offset + ph.filesz <= |binary|
  }

  /** The byte that the segment defines at address a: file contents, then zeros. */
  function Expected(binary: seq<Byte>, ph: ProgHdr, a: nat): Byte
    requires Fits(binary, ph) && ph.va <= a
  {
    if a - ph.va < ph.filesz then binary[ph.offset + (a - ph.va)] else 0
  }

  /** The first page of the segment, and the first page behind it. */
  function FirstPage(ph: ProgHdr): nat
  {
    ph.va / PGSIZE
  }

  function EndPage(ph: ProgHdr): nat
  {
    if ph.memsz == 0 then FirstPage(ph) else (ph.va + ph.memsz - 1) / PGSIZE + 1
  }

  ghost predicate ByteIs(mem: Frames, view: Space, a: nat, b: Byte)
  {
    a / PGSIZE in view && view[a / PGSIZE].frame in mem && mem[view[a / PGSIZE].frame][a % PGSIZE] == b
  }

  ghost predicate SegmentLoaded(mem: Frames, view: Space, binary: seq<Byte>, ph: ProgHdr)
    requires Fits(binary, ph)
  {
    forall a :: ph.va <= a < ph.va + ph.memsz ==> ByteIs(mem, view, a, Expected(binary, ph, a))
  }

  /** Pages that were mapped before keep their entries and contents. */
  ghost predicate Preserved(mem0: Frames, view0: Space, mem: Frames, view: Space)
  {
    forall n :: n in view0 ==>
      && n in view && view[n] == view0[n]
      && view[n].frame in mem && view0[n].frame in mem0 && mem[view[n].frame] == mem0[view0[n].frame]
  }

  /** The frames that were in use before, by whomever, have their contents. */
  ghost predicate Untouched(mem0: Frames, mem: Frames)
  {
    forall f :: f in mem0 ==> f in mem && mem[f] == mem0[f]
  }

  /** The frames of the pages in [lo, hi) are mapped once. */
  ghost predicate OwnFrames(view: Space, lo: nat, hi: nat)
  {
    forall n, m :: lo <= n < hi && n in view && m in view && n != m ==> view[n].frame != view[m].frame
  }

  // ----- The state of the loop over the pages of one segment -----

  /** Exactly the pages from lo to top are new, and they have these permissions. */
  ghost predicate Entries(view0: Space, mem: Frames, view: Space, lo: nat, top: nat, perm: Perm)
  {
    && (forall n :: n in view <==> n in view0 || lo <= n < top)
    && (forall n :: n in view ==> view[n].frame in mem)
    && (forall n :: lo <= n < top ==> view[n] == MakePte(view[n].frame, perm))
  }

  lemma EntriesGrow(view0: Space, mem: Frames, view: Space, lo: nat, top: nat, perm: Perm, frame: nat, contents: Page)
    requires Entries(view0, mem, view, lo, top, perm) && top !in view0 && lo <= top
    ensures top !in view
    ensures Entries(view0, mem[frame := contents], view[top := MakePte(frame, perm)], lo, top + 1, perm)
  {
  }

  /** The pages below top are allocated, the last of them in the frame page. */
  ghost predicate Laid(mem0: Frames, view0: Space, mem: Frames, view: Space, ph: ProgHdr, top: nat, page: nat)
  {
    && FirstPage(ph) <= top
    && Preserved(mem0, view0, mem, view)
    && Entries(view0, mem, view, FirstPage(ph), top, SegmentPerm(ph))
    && (top > FirstPage(ph) ==> view[top - 1].frame == page && page !in mem0)
    && OwnFrames(view, FirstPage(ph), top)
    && |mem| == |mem0| + (top - FirstPage(ph)) && Untouched(mem0, mem)
  }

  /** The bytes up to start are in place. */
  ghost predicate BytesUpTo(mem: Frames, view: Space, binary: seq<Byte>, ph: ProgHdr, start: nat)
    requires Fits(binary, ph)
  {
    ph.va <= start && forall a :: ph.va <= a < start ==> ByteIs(mem, view, a, Expected(binary, ph, a))
  }

  ghost predicate Progress(mem0: Frames, view0: Space, mem: Frames, view: Space, binary: seq<Byte>, ph: ProgHdr,
                           start: nat, la: nat, page: nat)
    requires Fits(binary, ph)
  {
    la % PGSIZE == 0 && Laid(mem0, view0, mem, view, ph, la / PGSIZE, page) && BytesUpTo(mem, view, binary, ph, start)
  }

  lemma ProgressStart(mem: Frames, view: Space, binary: seq<Byte>, ph: ProgHdr, page: nat)
    requires Fits(binary, ph) && forall n :: n in view ==> view[n].frame in mem
    ensures Progress(mem, view, mem, view, binary, ph, ph.va, RoundDown(ph.va, PGSIZE), page)
  {
    assert RoundDown(ph.va, PGSIZE) / PGSIZE == FirstPage(ph);
  }

  lemma ProgressPage(mem0: Frames, view0: Space, mem: Frames, view: Space, binary: seq<Byte>, ph: ProgHdr,
                     start: nat, la: nat, page: nat, frame: nat, contents: Page)
    requires Fits(binary, ph) && Progress(mem0, view0, mem, view, binary, ph, start, la, page)
    requires la / PGSIZE !in view0 && frame !in mem
    ensures Progress(mem0, view0, mem[frame := contents], view[la / PGSIZE := MakePte(frame, SegmentPerm(ph))],
                     binary, ph, start, la + PGSIZE, frame)
  {
    hide Laid, BytesUpTo;
    NextPageNumber(la);
    LaidPage(mem0, view0, mem, view, ph, la / PGSIZE, page, frame, contents);
    BytesPage(mem, view, binary, ph, start, la / PGSIZE, frame, contents, MakePte(frame, SegmentPerm(ph)));
  }

  lemma LaidPage(mem0: Frames, view0: Space, mem: Frames, view: Space, ph: ProgHdr, top: nat, page: nat, frame: nat,
                 contents: Page)
    requires Laid(mem0, view0, mem, view, ph, top, page) && top !in view0 && frame !in mem
    ensures top !in view
    ensures Laid(mem0, view0, mem[frame := contents], view[top := MakePte(frame, SegmentPerm(ph))], ph, top + 1, frame)
  {
    hide FirstPage, SegmentPerm, OwnFrames, Preserved;
    EntriesGrow(view0, mem, view, FirstPage(ph), top, SegmentPerm(ph), frame, contents);
    OwnFramesGrow(mem, view, FirstPage(ph), top, frame, SegmentPerm(ph));
    PreservedGrow(mem0, view0, mem, view, frame, contents, top, MakePte(frame, SegmentPerm(ph)));
    hide Entries;
    assert mem[frame := contents].Keys == mem.Keys + {frame};
  }

  lemma NextPageNumber(la: nat)
    requires la % PGSIZE == 0
    ensures (la + PGSIZE) % PGSIZE == 0 && (la + PGSIZE) / PGSIZE == la / PGSIZE + 1
  {
  }

  lemma BytesPage(mem: Frames, view: Space, binary: seq<Byte>, ph: ProgHdr, start: nat, n: nat, frame: nat,
                  contents: Page, pte: Pte)
    requires Fits(binary, ph) && BytesUpTo(mem, view, binary, ph, start) && n !in view && frame !in mem
    ensures BytesUpTo(mem[frame := contents], view[n := pte], binary, ph, start)
  {
    hide Expected;
    forall a | ph.va <= a < start
      ensures ByteIs(mem[frame := contents], view[n := pte], a, Expected(binary, ph, a))
    {
      assert ByteIs(mem, view, a, Expected(binary, ph, a));
    }
  }

  lemma PreservedGrow(mem0: Frames, view0: Space, mem: Frames, view: Space, frame: nat, contents: Page, n: nat,
                      pte: Pte)
    requires Preserved(mem0, view0, mem, view) && n !in view0 && frame !in mem
    ensures Preserved(mem0, view0, mem[frame := contents], view[n := pte])
  {
  }

  lemma OwnFramesGrow(mem: Frames, view: Space, lo: nat, hi: nat, frame: nat, perm: Perm)
    requires OwnFrames(view, lo, hi) && hi !in view && frame !in mem && forall n :: n in view ==> view[n].frame in mem
    ensures OwnFrames(view[hi := MakePte(frame, perm)], lo, hi + 1)
  {
  }

  /** The page in front of la. */
  lemma LastPage(la: nat, a: nat)
    requires la % PGSIZE == 0 && PGSIZE <= la
    ensures (la / PGSIZE - 1) * PGSIZE == la - PGSIZE
    ensures la - PGSIZE <= a < la <==> a / PGSIZE == la / PGSIZE - 1
    ensures la - PGSIZE <= a < la ==> a % PGSIZE == a - (la - PGSIZE)
  {
  }

  lemma FilledByte(mem: Frames, view: Space, binary: seq<Byte>, ph: ProgHdr, start: nat, la: nat, page: nat,
                   bytes: seq<Byte>, a: nat)
    requires Fits(binary, ph) && la % PGSIZE == 0 && PGSIZE <= la && page in mem
    requires la - PGSIZE <= start && start + |bytes| <= la && ph.va <= start && ph.va <= a < start + |bytes|
    requires la / PGSIZE - 1 in view && view[la / PGSIZE - 1].frame == page
    requires forall n :: n in view && n != la / PGSIZE - 1 ==> view[n].frame != page
    requires a < start ==> ByteIs(mem, view, a, Expected(binary, ph, a))
    requires forall a :: start <= a < start + |bytes| ==> bytes[a - start] == Expected(binary, ph, a)
    ensures ByteIs(mem[page := Patch(mem[page], start - (la - PGSIZE), bytes)], view, a, Expected(binary, ph, a))
  {
    hide Expected, RoundDown;
    LastPage(la, a);
    if a >= start {
      assert bytes[a - start] == Expected(binary, ph, a);
    }
  }

  lemma ProgressFill(mem0: Frames, view0: Space, mem: Frames, view: Space, binary: seq<Byte>, ph: ProgHdr,
                     start: nat, la: nat, page: nat, bytes: seq<Byte>)
    requires Fits(binary, ph) && Progress(mem0, view0, mem, view, binary, ph, start, la, page)
    requires la / PGSIZE > FirstPage(ph) && la / PGSIZE - 1 !in view0
    requires la - PGSIZE <= start && start + |bytes| <= la
    requires forall a :: start <= a < start + |bytes| ==> bytes[a - start] == Expected(binary, ph, a)
    ensures page in mem
    ensures Progress(mem0, view0, mem[page := Patch(mem[page], start - (la - PGSIZE), bytes)], view,
                     binary, ph, start + |bytes|, la, page)
  {
    hide Expected, Patch, RoundDown;
    var mem' := mem[page := Patch(mem[page], start - (la - PGSIZE), bytes)];
    FrameOfLastPage(mem0, view0, mem, view, ph, la / PGSIZE, page);
    LaidWritten(mem0, view0, mem, view, ph, la / PGSIZE, page, mem'[page]);
    hide Laid;
    forall a | ph.va <= a < start + |bytes|
      ensures ByteIs(mem', view, a, Expected(binary, ph, a))
    {
      if a < start {
        assert ByteIs(mem, view, a, Expected(binary, ph, a));
      }
      FilledByte(mem, view, binary, ph, start, la, page, bytes, a);
    }
    hide ByteIs;
  }

  lemma FrameOfLastPage(mem0: Frames, view0: Space, mem: Frames, view: Space, ph: ProgHdr, top: nat, page: nat)
    requires Laid(mem0, view0, mem, view, ph, top, page) && top > FirstPage(ph)
    ensures top - 1 in view && view[top - 1].frame == page && page in mem
    ensures forall n :: n in view && n != top - 1 ==> view[n].frame != page
  {
  }

  lemma LaidWritten(mem0: Frames, view0: Space, mem: Frames, view: Space, ph: ProgHdr, top: nat, page: nat,
                    contents: Page)
    requires Laid(mem0, view0, mem, view, ph, top, page) && top > FirstPage(ph) && top - 1 !in view0
    ensures Laid(mem0, view0, mem[page := contents], view, ph, top, page)
  {
    FrameOfLastPage(mem0, view0, mem, view, ph, top, page);
    assert mem[page := contents].Keys == mem.Keys;
  }

  /** pgdir_alloc_page: a new frame, mapped at la. */
  method PgdirAllocPage(pgdir: PageDir, mem: PhysMem, la: nat, perm: Perm) returns (page: nat)
    requires pgdir.Valid() && la < USERTOP
    modifies pgdir, mem
    ensures pgdir.Valid() && pgdir.View() == old(pgdir.View())[la / PGSIZE := MakePte(page, perm)]
    ensures page !in old(mem.frames) && page in mem.frames && mem.frames == old(mem.frames)[page := mem.frames[page]]
  {
    page := mem.AllocPage();
    pgdir.PageInsert(page, la, perm);
  }

  /** The size of the part of the page in front of la that lies before end. */
  function ChunkSize(start: nat, la: nat, end: nat): (size: int)
  {
    var off := start - (la - PGSIZE);
    if end < la then PGSIZE - off - (la - end) else PGSIZE - off
  }

  // ----- One segment -----

  /** A segment whose pages are all below USERTOP and not yet mapped. */
  ghost predicate Room(view0: Space, ph: ProgHdr)
  {
    && ph.va + ph.memsz <= USERTOP
    && forall n :: FirstPage(ph) <= n < EndPage(ph) ==> n !in view0
  }

  /** Where the cursor is between two pages: at the start, at the end of the last
      page, or inside the last page when all bytes before end are done. */
  predicate Cursor(ph: ProgHdr, start: nat, la: nat, end: nat)
  {
    && la % PGSIZE == 0 && ph.va <= start <= end
    && (if start == ph.va then la == RoundDown(ph.va, PGSIZE)
        else start == (if la < end then la else end) && la - PGSIZE < start)
  }

  lemma CursorPage(ph: ProgHdr, start: nat, la: nat, end: nat)
    requires Cursor(ph, start, la, end) && start < end && end <= ph.va + ph.memsz
    ensures la <= start && FirstPage(ph) <= la / PGSIZE < EndPage(ph) && (la + PGSIZE) / PGSIZE - 1 == la / PGSIZE
    ensures var size := ChunkSize(start, la + PGSIZE, end);
            && 0 < size && start + size <= end && start + size <= la + PGSIZE
            && Cursor(ph, start + size, la + PGSIZE, end)
  {
  }

  lemma CursorInitial(ph: ProgHdr, end: nat)
    requires ph.va <= end
    ensures Cursor(ph, ph.va, RoundDown(ph.va, PGSIZE), end)
  {
  }

  /** The first loop: file bytes, page by page. */
  method CopyFileBytes(binary: seq<Byte>, ph: ProgHdr, pgdir: PageDir, mem: PhysMem) returns (start: nat, la: nat,
                       page: nat)
    requires Fits(binary, ph) && pgdir.Valid() && Room(pgdir.View(), ph)
    requires forall n :: n in pgdir.View() ==> pgdir.View()[n].frame in mem.frames
    modifies pgdir, mem
    ensures pgdir.Valid() && start == ph.va + ph.filesz && Cursor(ph, start, la, start)
    ensures Progress(old(mem.frames), old(pgdir.View()), mem.frames, pgdir.View(), binary, ph, start, la, page)
  {
    hide Progress, Cursor, RoundDown, PageDir.View, Patch, EndPage, FirstPage;
    start, la, page := ph.va, RoundDown(ph.va, PGSIZE), 0;
    var end := ph.va + ph.filesz;
    var from := ph.offset;
    ghost var mem0, view0 := mem.frames, pgdir.View();
    ProgressStart(mem0, view0, binary, ph, page);
    CursorInitial(ph, end);
    while start < end
      invariant pgdir.Valid() && ph.va <= start <= end && from == ph.offset + (start - ph.va)
      invariant Cursor(ph, start, la, end)
      invariant Progress(mem0, view0, mem.frames, pgdir.View(), binary, ph, start, la, page)
    {
      CursorPage(ph, start, la, end);
      ghost var mem1, view1, page1 := mem.frames, pgdir.View(), page;
      page := PgdirAllocPage(pgdir, mem, la, SegmentPerm(ph));
      ProgressPage(mem0, view0, mem1, view1, binary, ph, start, la, page1, page, mem.frames[page]);
      var off := start - la;
      var size := PGSIZE - off;
      la := la + PGSIZE;
      if end < la {
        size := size - (la - end);
      }
      ghost var bytes := binary[from..from + size];
      ProgressFill(mem0, view0, mem.frames, pgdir.View(), binary, ph, start, la, page, bytes);
      mem.Fill(page, off, binary[from..from + size]);
      start, from := start + size, from + size;
    }
  }

  lemma CursorFileDone(ph: ProgHdr, start: nat, la: nat, end: nat)
    requires Cursor(ph, start, la, start) && start <= end && end <= ph.va + ph.memsz
    ensures start >= la ==> Cursor(ph, start, la, end)
    ensures start < la && start < end ==>
              && PGSIZE <= la && FirstPage(ph) < la / PGSIZE <= EndPage(ph) && la - PGSIZE < start
              && var size := ChunkSize(start, la, end);
                 0 < size && start + size <= la && start + size == (if end < la then end else la)
                 && Cursor(ph, start + size, la, end)
  {
  }

  lemma CursorDone(ph: ProgHdr, la: nat)
    requires Cursor(ph, ph.va + ph.memsz, la, ph.va + ph.memsz)
    ensures la / PGSIZE == EndPage(ph)
  {
  }

  lemma ZerosExpected(binary: seq<Byte>, ph: ProgHdr, start: nat, size: nat)
    requires Fits(binary, ph) && ph.va + ph.filesz <= start
    ensures forall a :: start <= a < start + size ==> Expected(binary, ph, a) == 0
  {
  }

  lemma PartialPageNew(view0: Space, ph: ProgHdr, start: nat, la: nat)
    requires Room(view0, ph) && FirstPage(ph) < la / PGSIZE <= EndPage(ph)
    ensures la / PGSIZE - 1 !in view0
  {
  }

  /** The rest of the last file page is cleared; the assertion of the source says
      that this reaches the end of the page or of the segment. */
  method ClearPartialPage(binary: seq<Byte>, ph: ProgHdr, pgdir: PageDir, mem: PhysMem, start0: nat, la: nat, page: nat,
                          ghost mem0: Frames, ghost view0: Space) returns (start: nat)
    requires Fits(binary, ph) && pgdir.Valid() && Room(view0, ph)
    requires start0 == ph.va + ph.filesz && Cursor(ph, start0, la, start0)
    requires Progress(mem0, view0, mem.frames, pgdir.View(), binary, ph, start0, la, page)
    modifies mem
    ensures ph.va + ph.filesz <= start <= ph.va + ph.memsz && Cursor(ph, start, la, ph.va + ph.memsz)
    ensures Progress(mem0, view0, mem.frames, pgdir.View(), binary, ph, start, la, page)
  {
    hide Progress, RoundDown, PageDir.View, Patch, Expected;
    start := start0;
    var end := ph.va + ph.memsz;
    CursorFileDone(ph, start, la, end);
    if start < la {
      if start == end {
        return;
      }
      PartialPageNew(view0, ph, start, la);
      hide Cursor, EndPage, FirstPage, Room;
      var off := start + PGSIZE - la;
      var size := PGSIZE - off;
      if end < la {
        size := size - (la - end);
      }
      assert size == ChunkSize(start, la, end);
      ZerosExpected(binary, ph, start, size);
      ProgressFill(mem0, view0, mem.frames, pgdir.View(), binary, ph, start, la, page, seq(size, _ => 0));
      mem.Fill(page, off, seq(size, _ => 0));
      start := start + size;
      assert (end < la && start == end) || (end >= la && start == la);
    }
  }

  /** The second loop: pages of zeros. */
  method ClearPages(binary: seq<Byte>, ph: ProgHdr, pgdir: PageDir, mem: PhysMem, start0: nat, la0: nat, page0: nat,
                    ghost mem0: Frames, ghost view0: Space) returns (page: nat)
    requires Fits(binary, ph) && pgdir.Valid() && Room(view0, ph)
    requires ph.va + ph.filesz <= start0 <= ph.va + ph.memsz && Cursor(ph, start0, la0, ph.va + ph.memsz)
    requires Progress(mem0, view0, mem.frames, pgdir.View(), binary, ph, start0, la0, page0)
    modifies pgdir, mem
    ensures pgdir.Valid()
    ensures Progress(mem0, view0, mem.frames, pgdir.View(), binary, ph, ph.va + ph.memsz, EndPage(ph) * PGSIZE, page)
  {
    hide Progress, Cursor, RoundDown, PageDir.View, Patch, EndPage, FirstPage;
    var start: nat, la: nat := start0, la0;
    page := page0;
    var end := ph.va + ph.memsz;
    while start < end
      invariant pgdir.Valid() && ph.va + ph.filesz <= start <= end && Cursor(ph, start, la, end)
      invariant Progress(mem0, view0, mem.frames, pgdir.View(), binary, ph, start, la, page)
    {
      CursorPage(ph, start, la, end);
      ghost var mem1, view1, page1 := mem.frames, pgdir.View(), page;
      page := PgdirAllocPage(pgdir, mem, la, SegmentPerm(ph));
      ProgressPage(mem0, view0, mem1, view1, binary, ph, start, la, page1, page, mem.frames[page]);
      var off := start - la;
      var size := PGSIZE - off;
      la := la + PGSIZE;
      if end < la {
        size := size - (la - end);
      }
      ZerosExpected(binary, ph, start, size);
      ProgressFill(mem0, view0, mem.frames, pgdir.View(), binary, ph, start, la, page, seq(size, _ => 0));
      mem.Fill(page, off, seq(size, _ => 0));
      start := start + size;
    }
    CursorDone(ph, la);
    CursorAligned(ph, start, la, end);
  }

  lemma CursorAligned(ph: ProgHdr, start: nat, la: nat, end: nat)
    requires Cursor(ph, start, la, end)
    ensures la == la / PGSIZE * PGSIZE
  {
  }

  /** What loading one segment leaves behind: the pages from the first to the last
      byte of the segment and no others are new, each has a frame of its own and
      the segment's permissions, and exactly that many frames were allocated;
      file bytes are followed by zeros; and everything that was mapped before is
      as it was. */
  ghost predicate SegmentDone(mem0: Frames, view0: Space, mem: Frames, view: Space, binary: seq<Byte>, ph: ProgHdr)
    requires Fits(binary, ph)
  {
    && Entries(view0, mem, view, FirstPage(ph), EndPage(ph), SegmentPerm(ph))
    && OwnFrames(view, FirstPage(ph), EndPage(ph))
    && |mem| == |mem0| + (EndPage(ph) - FirstPage(ph)) && Untouched(mem0, mem)
    && Preserved(mem0, view0, mem, view)
    && SegmentLoaded(mem, view, binary, ph)
  }

  method LoadSegment(binary: seq<Byte>, ph: ProgHdr, pgdir: PageDir, mem: PhysMem)
    requires Fits(binary, ph) && pgdir.Valid() && Room(pgdir.View(), ph)
    requires forall n :: n in pgdir.View() ==> pgdir.View()[n].frame in mem.frames
    modifies pgdir, mem
    ensures pgdir.Valid()
    ensures SegmentDone(old(mem.frames), old(pgdir.View()), mem.frames, pgdir.View(), binary, ph)
  {
    hide Progress, Cursor, RoundDown, PageDir.View, EndPage, FirstPage, SegmentDone;
    ghost var mem0, view0 := mem.frames, pgdir.View();
    var start, la, page := CopyFileBytes(binary, ph, pgdir, mem);
    start := ClearPartialPage(binary, ph, pgdir, mem, start, la, page, mem0, view0);
    page := ClearPages(binary, ph, pgdir, mem, start, la, page, mem0, view0);
    ProgressDone(mem0, view0, mem.frames, pgdir.View(), binary, ph, page);
  }

  lemma ProgressDone(mem0: Frames, view0: Space, mem: Frames, view: Space, binary: seq<Byte>, ph: ProgHdr, page: nat)
    requires Fits(binary, ph)
    requires Progress(mem0, view0, mem, view, binary, ph, ph.va + ph.memsz, EndPage(ph) * PGSIZE, page)
    ensures SegmentDone(mem0, view0, mem, view, binary, ph)
  {
    assert EndPage(ph) * PGSIZE / PGSIZE == EndPage(ph);
    hide EndPage, FirstPage;
  }

  // ----- All segments -----

  /** The region that mm_map creates. */
  function RegionOf(addr: nat, len: nat, writable: bool): Vma
  {
    Vma(RoundDown(addr, PGSIZE), RoundUp(addr + len, PGSIZE), writable)
  }

  predicate Overlaps(u: Vma, v: Vma)
  {
    u.start < v.end && v.start < u.end
  }

  /** mm_map refuses regions outside user space, and regions whose start lies in
      another one; any other overlap stops the kernel. */
  function MapResult(vmas: set<Vma>, v: Vma): Outcome
  {
    if !UserAccess(v.start, v.end) then Failed(-E_INVAL)
    else if exists u :: u in vmas && u.start <= v.start < u.end then Failed(-E_INVAL)
    else if exists u :: u in vmas && Overlaps(u, v) then Panicked
    else Loaded
  }

  /** When mm_map stops the kernel instead of answering: the region begins in none
      that is there, and one that is there begins inside of it. */
  lemma MapPanicsIff(vmas: set<Vma>, v: Vma)
    requires forall u :: u in vmas ==> u.start < u.end
    ensures MapResult(vmas, v) == Panicked <==>
            && UserAccess(v.start, v.end)
            && (forall u :: u in vmas ==> !(u.start <= v.start < u.end))
            && (exists u :: u in vmas && v.start < u.start < v.end)
  {
    if u :| u in vmas && v.start < u.start < v.end {
      assert Overlaps(u, v);
    }
  }

  /** A region of two pages in front of one of two pages that shares a page with it. */
  lemma OverlapFromBelowPanics()
    ensures MapResult({Vma(0x20_1000, 0x20_3000, true)}, Vma(0x20_0000, 0x20_2000, true)) == Panicked
  {
    assert Overlaps(Vma(0x20_1000, 0x20_3000, true), Vma(0x20_0000, 0x20_2000, true));
  }

  ghost function VmaSet(vmas: seq<Vma>): set<Vma>
  {
    set v | v in vmas
  }

  method MmMap(mm: MmStruct, addr: nat, len: nat, writable: bool) returns (r: Outcome)
    requires mm.Valid()
    modifies mm`vmas
    ensures mm.Valid() && r == MapResult(VmaSet(old(mm.vmas)), RegionOf(addr, len, writable))
    ensures VmaSet(mm.vmas) ==
            VmaSet(old(mm.vmas)) + if r == Loaded then {RegionOf(addr, len, writable)} else {}
  {
    hide RoundDown, Regions;
    var v := RegionOf(addr, len, writable);
    if !UserAccess(v.start, v.end) {
      return Failed(-E_INVAL);
    }
    if exists u :: u in mm.vmas && u.start <= v.start < u.end {
      return Failed(-E_INVAL);
    }
    if exists u :: u in mm.vmas && Overlaps(u, v) {
      return Panicked;
    }
    RegionAligned(addr, len, writable);
    mm.InsertVma(v);
    return Loaded;
  }

  lemma RegionAligned(addr: nat, len: nat, writable: bool)
    ensures RegionOf(addr, len, writable).start % PGSIZE == 0 && RegionOf(addr, len, writable).end % PGSIZE == 0
  {
  }

  /** What the loader answers for a list of headers: the first header that it does
      not accept decides. */
  ghost function LoadResult(phs: seq<ProgHdr>, vmas: set<Vma>): Outcome
  {
    if phs == [] then Loaded
    else if !phs[0].load then LoadResult(phs[1..], vmas)
    else if phs[0].filesz > phs[0].memsz then Failed(-E_INVAL_ELF)
    else
      var v := RegionOf(phs[0].va, phs[0].memsz, phs[0].w);
      if MapResult(vmas, v) == Loaded then LoadResult(phs[1..], vmas + {v}) else MapResult(vmas, v)
  }

  /** The bytes that a header refers to are in the file. */
  ghost predicate InFile(binary: seq<Byte>, phs: seq<ProgHdr>)
  {
    forall ph :: ph in phs && ph.load && ph.filesz <= ph.memsz ==> ph.offset + ph.filesz <= |binary|
  }

  ghost predicate AllLoaded(mem: Frames, view: Space, binary: seq<Byte>, phs: seq<ProgHdr>)
  {
    forall ph :: ph in phs && ph.load ==> Fits(binary, ph) && SegmentLoaded(mem, view, binary, ph)
  }

  /** Page n is one of the pages of the segment. */
  predicate HasPage(ph: ProgHdr, n: nat)
  {
    ph.load && FirstPage(ph) <= n < EndPage(ph)
  }

  /** Mapped are the pages of the segments and no others, each with the permissions
      of its segment and to a frame that no other page has. */
  ghost predicate AllMapped(mem: Frames, view: Space, phs: seq<ProgHdr>)
  {
    && (forall n :: n in view ==> view[n].frame in mem && exists ph :: ph in phs && HasPage(ph, n))
    && (forall ph, n :: ph in phs && HasPage(ph, n) ==> n in view && view[n] == MakePte(view[n].frame, SegmentPerm(ph)))
    && (forall n, m :: n in view && m in view && n != m ==> view[n].frame != view[m].frame)
  }

  /** The regions of the loadable segments. */
  ghost function SegmentRegions(phs: seq<ProgHdr>): set<Vma>
  {
    set ph | ph in phs && ph.load :: RegionOf(ph.va, ph.memsz, ph.w)
  }

  /** Mapped pages have frames and lie in regions. */
  ghost predicate Consistent(mem: Frames, view: Space, vmas: set<Vma>)
  {
    forall n :: n in view ==> view[n].frame in mem && exists v :: v in vmas && Covers(v, n)
  }

  lemma RoomInNewRegion(mem: Frames, view: Space, vmas: set<Vma>, ph: ProgHdr)
    requires Consistent(mem, view, vmas) && (forall v :: v in vmas ==> WellFormed(v))
    requires MapResult(vmas, RegionOf(ph.va, ph.memsz, ph.w)) == Loaded
    ensures Room(view, ph)
    ensures forall n :: FirstPage(ph) <= n < EndPage(ph) ==> Covers(RegionOf(ph.va, ph.memsz, ph.w), n)
  {
    var v := RegionOf(ph.va, ph.memsz, ph.w);
    forall n | FirstPage(ph) <= n < EndPage(ph)
      ensures Covers(v, n) && n !in view
    {
      PagesCovered(ph, n);
      forall u | u in vmas
        ensures !Covers(u, n)
      {
        assert !Overlaps(u, v);
      }
    }
  }

  lemma PagesCovered(ph: ProgHdr, n: nat)
    requires FirstPage(ph) <= n < EndPage(ph)
    ensures Covers(RegionOf(ph.va, ph.memsz, ph.w), n)
  {
  }

  lemma LoadedStays(mem0: Frames, view0: Space, mem: Frames, view: Space, binary: seq<Byte>, ph: ProgHdr)
    requires Fits(binary, ph) && SegmentLoaded(mem0, view0, binary, ph) && Preserved(mem0, view0, mem, view)
    ensures SegmentLoaded(mem, view, binary, ph)
  {
    forall a | ph.va <= a < ph.va + ph.memsz
      ensures ByteIs(mem, view, a, Expected(binary, ph, a))
    {
      assert ByteIs(mem0, view0, a, Expected(binary, ph, a));
    }
  }

  lemma SegmentAdded(mem0: Frames, view0: Space, mem: Frames, view: Space, vmas: set<Vma>, binary: seq<Byte>,
                     phs: seq<ProgHdr>, ph: ProgHdr, v: Vma)
    requires Fits(binary, ph) && SegmentDone(mem0, view0, mem, view, binary, ph)
    requires AllLoaded(mem0, view0, binary, phs) && Consistent(mem0, view0, vmas)
    requires forall n :: FirstPage(ph) <= n < EndPage(ph) ==> Covers(v, n)
    ensures AllLoaded(mem, view, binary, phs + [ph]) && Consistent(mem, view, vmas + {v})
  {
    hide FirstPage, EndPage, SegmentLoaded, Covers;
    forall p | p in phs + [ph] && p.load
      ensures Fits(binary, p) && SegmentLoaded(mem, view, binary, p)
    {
      if p in phs {
        LoadedStays(mem0, view0, mem, view, binary, p);
      }
    }
    forall n | n in view
      ensures exists u :: u in vmas + {v} && Covers(u, n)
    {
      if n in view0 {
        var u :| u in vmas && Covers(u, n);
        assert u in vmas + {v};
      } else {
        assert v in vmas + {v} && Covers(v, n);
      }
    }
  }

  lemma MappedAdded(mem0: Frames, view0: Space, mem: Frames, view: Space, binary: seq<Byte>, phs: seq<ProgHdr>,
                    ph: ProgHdr)
    requires Fits(binary, ph) && ph.load && SegmentDone(mem0, view0, mem, view, binary, ph) && Room(view0, ph)
    requires AllMapped(mem0, view0, phs)
    ensures AllMapped(mem, view, phs + [ph])
  {
    hide SegmentLoaded, EndPage, FirstPage;
    forall n | n in view
      ensures exists p :: p in phs + [ph] && HasPage(p, n)
    {
      if n in view0 {
        var p :| p in phs && HasPage(p, n);
        assert p in phs + [ph];
      } else {
        assert ph in phs + [ph] && HasPage(ph, n);
      }
    }
    forall n, m | n in view && m in view && n != m
      ensures view[n].frame != view[m].frame
    {
      assert n in view0 || HasPage(ph, n);
      assert m in view0 || HasPage(ph, m);
    }
  }

  lemma RegionAdded(phs: seq<ProgHdr>, ph: ProgHdr)
    ensures SegmentRegions(phs + [ph]) ==
            SegmentRegions(phs) + if ph.load then {RegionOf(ph.va, ph.memsz, ph.w)} else {}
  {
    assert forall p :: p in phs + [ph] <==> p in phs || p == ph;
    hide RoundDown;
    forall v | v in SegmentRegions(phs)
      ensures v in SegmentRegions(phs + [ph])
    {
      var p :| p in phs && p.load && v == RegionOf(p.va, p.memsz, p.w);
      assert p in phs + [ph];
    }
    if ph.load {
      assert ph in phs + [ph];
    }
  }

  lemma SkippedMapped(mem: Frames, view: Space, phs: seq<ProgHdr>, ph: ProgHdr)
    requires AllMapped(mem, view, phs) && !ph.load
    ensures AllMapped(mem, view, phs + [ph])
  {
    forall n | n in view
      ensures exists p :: p in phs + [ph] && HasPage(p, n)
    {
      var p :| p in phs && HasPage(p, n);
      assert p in phs + [ph];
    }
  }

  lemma UntouchedTrans(mem0: Frames, mem1: Frames, mem2: Frames)
    requires Untouched(mem0, mem1) && Untouched(mem1, mem2)
    ensures Untouched(mem0, mem2)
  {
  }

  lemma DoneParts(mem0: Frames, view0: Space, mem: Frames, view: Space, binary: seq<Byte>, ph: ProgHdr)
    requires Fits(binary, ph) && SegmentDone(mem0, view0, mem, view, binary, ph)
    ensures Untouched(mem0, mem)
  {
  }

  // ----- Which files are loaded -----

  /** A header that the loader accepts by itself. */
  predicate Acceptable(ph: ProgHdr)
  {
    ph.load ==>
      && ph.filesz <= ph.memsz
      && UserAccess(RegionOf(ph.va, ph.memsz, ph.w).start, RegionOf(ph.va, ph.memsz, ph.w).end)
  }

  ghost predicate ClearOf(ph: ProgHdr, vmas: set<Vma>)
  {
    ph.load ==> forall u :: u in vmas ==> !Overlaps(u, RegionOf(ph.va, ph.memsz, ph.w))
  }

  ghost predicate Apart(ph: ProgHdr, ph': ProgHdr)
  {
    ph.load && ph'.load ==> !Overlaps(RegionOf(ph.va, ph.memsz, ph.w), RegionOf(ph'.va, ph'.memsz, ph'.w))
  }

  /** Loading succeeds exactly if every loadable segment lies in user memory, is not
      shorter in memory than in the file, and shares no page with another. */
  lemma {:induction false} LoadsIff(phs: seq<ProgHdr>, vmas: set<Vma>)
    ensures LoadResult(phs, vmas) == Loaded <==>
            && (forall i :: 0 <= i < |phs| ==> Acceptable(phs[i]) && ClearOf(phs[i], vmas))
            && (forall i, j :: 0 <= i < j < |phs| ==> Apart(phs[i], phs[j]))
  {
    hide RoundDown;
    if phs != [] {
      var ph, rest := phs[0], phs[1..];
      var v := RegionOf(ph.va, ph.memsz, ph.w);
      hide RegionOf;
      LoadsIff(rest, if ph.load then vmas + {v} else vmas);
      assert forall i :: 0 < i < |phs| ==> phs[i] == rest[i - 1];
      if ph.load {
        MapsIff(vmas, v);
        forall i | 0 <= i < |rest|
          ensures ClearOf(rest[i], vmas + {v}) <==> ClearOf(rest[i], vmas) && Apart(ph, rest[i])
        {
          assert v in vmas + {v};
        }
      }
      hide MapResult;
      if LoadResult(phs, vmas) == Loaded {
        forall i, j | 0 <= i < j < |phs|
          ensures Apart(phs[i], phs[j])
        {
          assert phs[j] == rest[j - 1] && (i > 0 ==> phs[i] == rest[i - 1]);
        }
      }
    }
  }

  lemma MapsIff(vmas: set<Vma>, v: Vma)
    ensures MapResult(vmas, v) == Loaded <==> UserAccess(v.start, v.end) && forall u :: u in vmas ==> !Overlaps(u, v)
  {
  }

  /** The loop over the program headers. It answers what LoadResult says. On success
      every byte of every loadable segment is in place at the end, the mapped pages
      are those of the segments, and the regions are theirs. Frames in use before
      are not touched in any case. */
  method LoadSegments(binary: seq<Byte>, phs: seq<ProgHdr>, mm: MmStruct, mem: PhysMem) returns (r: Outcome)
    requires mm.Valid() && mm.vmas == [] && mm.pgdir.View() == map[] && InFile(binary, phs)
    modifies mm, mm.pgdir, mem
    ensures mm.Valid() && r == LoadResult(phs, {})
    ensures r == Loaded ==>
              && AllLoaded(mem.frames, mm.pgdir.View(), binary, phs)
              && AllMapped(mem.frames, mm.pgdir.View(), phs)
              && VmaSet(mm.vmas) == SegmentRegions(phs)
    ensures Untouched(old(mem.frames), mem.frames)
  {
    hide PageDir.View, RoundDown, MapResult, SegmentDone, AllLoaded, AllMapped, SegmentRegions, Consistent, Room;
    hide FirstPage, EndPage, Covers, Untouched;
    NothingLoaded(mem.frames, binary);
    assert VmaSet(mm.vmas) == {} && phs[..0] == [] && phs[0..] == phs;
    var k := 0;
    while k < |phs|
      invariant 0 <= k <= |phs| && mm.Valid()
      invariant LoadResult(phs, {}) == LoadResult(phs[k..], VmaSet(mm.vmas))
      invariant AllLoaded(mem.frames, mm.pgdir.View(), binary, phs[..k])
      invariant AllMapped(mem.frames, mm.pgdir.View(), phs[..k]) && VmaSet(mm.vmas) == SegmentRegions(phs[..k])
      invariant Consistent(mem.frames, mm.pgdir.View(), VmaSet(mm.vmas)) && Untouched(old(mem.frames), mem.frames)
    {
      var ph := phs[k];
      assert phs[k..][0] == ph && phs[k..][1..] == phs[k + 1..];
      assert phs[..k + 1] == phs[..k] + [ph];
      RegionAdded(phs[..k], ph);
      if !ph.load {
        SkippedHeader(mem.frames, mm.pgdir.View(), binary, phs[..k], ph);
        SkippedMapped(mem.frames, mm.pgdir.View(), phs[..k], ph);
        k := k + 1;
        continue;
      }
      if ph.filesz > ph.memsz {
        return Failed(-E_INVAL_ELF);
      }
      ghost var vmas0, v := VmaSet(mm.vmas), RegionOf(ph.va, ph.memsz, ph.w);
      r := MmMap(mm, ph.va, ph.memsz, ph.w);
      if r != Loaded {
        return;
      }
      ghost var mem0, view0 := mem.frames, mm.pgdir.View();
      RoomInNewRegion(mem0, view0, vmas0, ph);
      FramesOf(mem0, view0, vmas0);
      LoadSegment(binary, ph, mm.pgdir, mem);
      SegmentAdded(mem0, view0, mem.frames, mm.pgdir.View(), vmas0, binary, phs[..k], ph, v);
      MappedAdded(mem0, view0, mem.frames, mm.pgdir.View(), binary, phs[..k], ph);
      DoneParts(mem0, view0, mem.frames, mm.pgdir.View(), binary, ph);
      UntouchedTrans(old(mem.frames), mem0, mem.frames);
      k := k + 1;
    }
    assert phs[..k] == phs;
    r := Loaded;
  }

  lemma FramesOf(mem: Frames, view: Space, vmas: set<Vma>)
    requires Consistent(mem, view, vmas)
    ensures forall n :: n in view ==> view[n].frame in mem
  {
  }

  lemma NothingLoaded(mem: Frames, binary: seq<Byte>)
    ensures AllLoaded(mem, map[], binary, []) && Consistent(mem, map[], {})
    ensures AllMapped(mem, map[], []) && SegmentRegions([]) == {} && Untouched(mem, mem)
  {
  }

  lemma SkippedHeader(mem: Frames, view: Space, binary: seq<Byte>, phs: seq<ProgHdr>, ph: ProgHdr)
    requires AllLoaded(mem, view, binary, phs) && !ph.load
    ensures AllLoaded(mem, view, binary, phs + [ph])
  {
  }
}
