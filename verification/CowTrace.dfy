/** Memory in operation: address spaces that are set up, filled, forked, read,
    written and given up by the code of fork, page insertion and the fault handler.
    Whatever is called goes through a run of CowMachine. */
module CowTrace {
  import opened Paging
  import opened CowRange
  import opened Mm
  import opened CowHistory
  import opened CowMachine
  import opened Loader
  import opened Wrappers

  ghost predicate Next(cow: bool, s: State, e: Event, s': State)
  {
    if cow then CowNext(s, e, s') else EagerNext(s, e, s')
  }

  ghost predicate Ran(cow: bool, es: seq<Event>, t: State)
  {
    if cow then CowRun(INITIAL, es, t) else EagerRun(INITIAL, es, t)
  }

  lemma {:induction false} CowRunSnoc(s: State, es: seq<Event>, t: State, e: Event, u: State)
    requires CowRun(s, es, t) && CowNext(t, e, u)
    ensures CowRun(s, es + [e], u)
    decreases |es|
  {
    hide CowNext;
    if es == [] {
      assert ([] + [e])[1..] == [] && CowRun(u, [], u);
    } else {
      var m :| CowNext(s, es[0], m) && CowRun(m, es[1..], t);
      CowRunSnoc(m, es[1..], t, e, u);
      assert (es + [e])[1..] == es[1..] + [e];
    }
  }

  lemma {:induction false} EagerRunSnoc(s: State, es: seq<Event>, t: State, e: Event, u: State)
    requires EagerRun(s, es, t) && EagerNext(t, e, u)
    ensures EagerRun(s, es + [e], u)
    decreases |es|
  {
    hide EagerNext;
    if es == [] {
      assert ([] + [e])[1..] == [] && EagerRun(u, [], u);
    } else {
      var m :| EagerNext(s, es[0], m) && EagerRun(m, es[1..], t);
      EagerRunSnoc(m, es[1..], t, e, u);
      assert (es + [e])[1..] == es[1..] + [e];
    }
  }

  lemma RanSnoc(cow: bool, es: seq<Event>, t: State, e: Event, u: State)
    requires Ran(cow, es, t) && Next(cow, t, e, u)
    ensures Ran(cow, es + [e], u)
  {
    hide CowRun, EagerRun, CowNext, EagerNext;
    if cow {
      CowRunSnoc(INITIAL, es, t, e, u);
    } else {
      EagerRunSnoc(INITIAL, es, t, e, u);
    }
  }

  /** What every reached state satisfies. */
  lemma RanInv(cow: bool, es: seq<Event>, t: State)
    requires Ran(cow, es, t)
    ensures Framed(t) && Sound(t)
    ensures !cow ==> NoStoreFaults(t)
  {
    assert CowInv(INITIAL) && EagerInv(INITIAL);
    hide CowRun, EagerRun, ViewOf;
    if cow {
      CowRunSound(INITIAL, es, t);
    } else {
      EagerRunSound(INITIAL, es, t);
    }
  }

  lemma RanSound(cow: bool, es: seq<Event>, t: State)
    requires Ran(cow, es, t)
    ensures SpecRun(ViewOf(INITIAL), es, ViewOf(t)) && Exclusive(t)
  {
    assert CowInv(INITIAL) && EagerInv(INITIAL);
    hide CowRun, EagerRun, ViewOf, SpecRun, Sound;
    if cow {
      CowRunSound(INITIAL, es, t);
    } else {
      EagerRunSound(INITIAL, es, t);
    }
  }

  /** What one system can do, the other can do. */
  lemma OtherRun(cow: bool, es: seq<Event>, t: State) returns (u: State)
    requires Ran(cow, es, t)
    ensures Ran(!cow, es, u)
  {
    SameRuns(es);
    if cow {
      assert CowRun(INITIAL, es, t);
      u :| EagerRun(INITIAL, es, u);
    } else {
      assert EagerRun(INITIAL, es, t);
      u :| CowRun(INITIAL, es, u);
    }
  }

  /** Process p is in memory as s says. */
  ghost predicate Shows(mm: MmStruct, p: Pid, s: State)
    reads mm, mm.pgdir
  {
    && mm.Valid() && p in s.vmas && p in s.spaces
    && s.vmas[p] == mm.vmas && s.spaces[p] == mm.pgdir.View()
  }

  class Memory {
    /** Whether fork shares pages or copies them. */
    const cow: bool
    const mem: PhysMem
    var mms: map<Pid, MmStruct>
    ghost var run: seq<Event>
    ghost var state: State

    /** The descriptors and the page directories. */
    ghost function Mms(): set<MmStruct>
      reads `mms
    {
      set p | p in mms :: mms[p]
    }

    ghost function Dirs(): set<PageDir>
      reads `mms
    {
      set p | p in mms :: mms[p].pgdir
    }

    ghost predicate Separate()
      reads `mms
    {
      forall p, q :: p in mms && q in mms && p != q ==> mms[p] != mms[q] && mms[p].pgdir != mms[q].pgdir
    }

    ghost predicate Represents(s: State)
      reads `mms, mem, Mms(), Dirs()
    {
      && s.mem == mem.frames && s.vmas.Keys == s.spaces.Keys == mms.Keys
      && forall p :: p in mms ==> Shows(mms[p], p, s)
    }

    ghost predicate Valid()
      reads this, mem, Mms(), Dirs()
    {
      Separate() && Represents(state) && Ran(cow, run, state)
    }

    constructor (cow: bool)
      ensures Valid() && this.cow == cow && run == [] && fresh(mem) && Mms() == {} && Dirs() == {}
    {
      this.cow := cow;
      mem := new PhysMem();
      mms := map[];
      run := [];
      state := INITIAL;
    }

    /** The event e has just happened, and s is the state now. */
    ghost method Record(e: Event, s: State)
      requires Separate() && Represents(s) && Ran(cow, run, state) && Next(cow, state, e, s)
      modifies `run, `state
      ensures Valid() && run == old(run) + [e] && state == s
    {
      hide Ran, Next, Shows;
      RanSnoc(cow, run, state, e, s);
      run, state := run + [e], s;
    }

    /** Nobody uses the descriptor or its page directory. */
    ghost predicate NewTo(mm: MmStruct)
      reads `mms
    {
      forall q :: q in mms ==> mms[q] != mm && mms[q].pgdir != mm.pgdir
    }

    method Enter(p: Pid, mm: MmStruct)
      requires Separate() && p !in mms && NewTo(mm)
      modifies `mms
      ensures Separate() && mms == old(mms)[p := mm]
      ensures Mms() == old(Mms()) + {mm} && Dirs() == old(Dirs()) + {mm.pgdir}
    {
      ghost var mms0 := mms;
      mms := mms[p := mm];
      OwnedGrows(this, p, mm, mms0);
    }

    /** Fork, of either kind. */
    method Fork(p: Pid, child: Pid)
      requires Valid() && p in mms && child !in mms
      modifies this, mem, Mms(), Dirs()
      ensures Valid() && run == old(run) + [Event.Fork(p, child)]
      ensures fresh(Mms() - old(Mms())) && fresh(Dirs() - old(Dirs()))
    {
      hide Ran, Next, Represents, Framed, Sound, NoStoreFaults, Mms, Dirs, Separate;
      RanInv(cow, run, state);
      ghost var s := ForkMm(p, child);
      Record(Event.Fork(p, child), s);
    }

    method ForkMm(p: Pid, child: Pid) returns (ghost s: State)
      requires Separate() && Represents(state) && Framed(state) && p in mms && child !in mms
      modifies `mms, mem, Dirs()
      ensures Separate() && Represents(s) && Next(cow, state, Event.Fork(p, child), s)
      ensures fresh(Mms() - old(Mms())) && fresh(Dirs() - old(Dirs()))
    {
      hide Next, Shows, Framed, ForkedPages, PageDir.View, MmStruct.Valid, Mms, Dirs, Separate, NewTo;
      OwnedBy(this, p);
      var to := CopyMm(p);
      Enter(child, to);
      s := Forked(state, p, child, mem.frames, mms[p].pgdir.View(), to.pgdir.View());
      ForkIsStep(cow, state, p, child, s);
      ForkShows(this, p, child, s);
    }

    /** cow_copy_mmap or dup_mmap into a new descriptor; no other process is
        affected. */
    method CopyMm(p: Pid) returns (to: MmStruct)
      requires Separate() && Represents(state) && Framed(state) && p in mms
      modifies mem, mms[p].pgdir
      ensures fresh(to) && fresh(to.pgdir) && to.Valid() && mms[p].Valid() && to.vmas == mms[p].vmas == state.vmas[p]
      ensures to.pgdir.Valid() && mms[p].pgdir.Valid() && NewTo(to)
      ensures ForkedPages(cow, state.mem, mem.frames, mms[p].vmas, state.spaces[p],
                          mms[p].pgdir.View(), to.pgdir.View())
      ensures forall q :: q in mms && q != p ==> Shows(mms[q], q, state)
    {
      hide Framed, PageDir.View, Regions, ForkedPages;
      FramesKnown(this, p);
      to := new MmStruct();
      CopyInto(to, mms[p]);
    }

    method CopyInto(to: MmStruct, from: MmStruct)
      requires to.Valid() && from.Valid() && to != from && to.pgdir != from.pgdir
      requires to.vmas == [] && to.pgdir.View() == map[]
      requires forall n :: n in from.pgdir.View() ==> from.pgdir.View()[n].frame in mem.frames
      modifies to, to.pgdir, from.pgdir, mem
      ensures to.Valid() && from.Valid() && to.vmas == from.vmas
      ensures ForkedPages(cow, old(mem.frames), mem.frames, from.vmas, old(from.pgdir.View()),
                          from.pgdir.View(), to.pgdir.View())
    {
      hide MmStruct.Valid, Regions;
      if cow {
        CowCopyMmap(to, from);
      } else {
        DupMmap(to, from, mem);
      }
    }

    // ----- Setting up and giving up -----

    /** A new address space with the given regions. */
    method Exec(p: Pid, vmas: seq<Vma>)
      requires Valid() && p !in mms && Regions(vmas)
      modifies this
      ensures Valid() && run == old(run) + [Event.Exec(p, vmas)]
      ensures fresh(Mms() - old(Mms())) && fresh(Dirs() - old(Dirs()))
    {
      hide Ran, Regions, Shows, Mms, Dirs, Separate, NewTo, PageDir.View, MmStruct.Valid;
      var to := NewMm(vmas);
      Enter(p, to);
      ghost var s := State(state.mem, state.vmas[p := vmas], state.spaces[p := map[]]);
      OneShows(this, p, s);
      hide Represents;
      Record(Event.Exec(p, vmas), s);
    }

    /** The regions are inserted one by one. */
    method NewMm(vmas: seq<Vma>) returns (to: MmStruct)
      requires Regions(vmas) && Separate() && Represents(state)
      ensures fresh(to) && fresh(to.pgdir) && NewTo(to)
      ensures to.Valid() && to.pgdir.Valid() && to.vmas == vmas && to.pgdir.View() == map[]
      ensures forall q :: q in mms ==> Shows(mms[q], q, state)
    {
      hide PageDir.View;
      to := new MmStruct();
      var k := |vmas|;
      assert vmas[k..] == [];
      while k > 0
        invariant 0 <= k <= |vmas| && to.vmas == vmas[k..] && Regions(to.vmas)
        modifies to`vmas
      {
        RegionsTail(vmas, k - 1);
        k := k - 1;
        to.InsertVma(vmas[k]);
      }
    }

    /** The descriptor and the mappings of a process are gone, and so are the frames
        that its reference counts show to be free: nobody else maps them. */
    method Exit(p: Pid, freed: set<nat>)
      requires Valid() && p in mms
      requires forall q, n :: q in mms && q != p && n in state.spaces[q] ==> state.spaces[q][n].frame !in freed
      modifies this, mem
      ensures Valid() && run == old(run) + [Event.Exit(p)] && mms == old(mms) - {p}
      ensures Mms() <= old(Mms()) && Dirs() <= old(Dirs()) && mem.frames == old(mem.frames) - freed
    {
      hide Ran, Regions, PageDir.View, MmStruct.Valid, Shows, Mms, Dirs, Separate, Next;
      ghost var s := State(state.mem - freed, state.vmas - {p}, state.spaces - {p});
      FreeStep(cow, state, p, freed, s);
      Leave(p);
      mem.FreePages(freed);
      FewerShows(this, p, s);
      hide Represents;
      Record(Event.Exit(p), s);
    }

    method Leave(p: Pid)
      requires Separate() && Represents(state) && p in mms
      modifies `mms
      ensures Separate() && mms == old(mms) - {p} && Mms() <= old(Mms()) && Dirs() <= old(Dirs())
      ensures forall q :: q in mms ==> Shows(mms[q], q, state)
    {
      hide Shows;
      mms := mms - {p};
    }

    // ----- Pages -----

    /** A page of a region gets a frame with the given contents. */
    method MapPage(p: Pid, n: nat, perm: Perm, contents: Page)
      requires Valid() && p in mms && n !in state.spaces[p] && Covered(state.vmas[p], n)
      requires perm.w <==> Writable(state.vmas[p], n)
      modifies this, mem, Dirs()
      ensures Valid() && run == old(run) + [Event.MapPage(p, n, perm, contents)] && mms == old(mms)
    {
      hide Ran, Regions, Shows, Mms, Dirs, Separate, PageDir.View, MmStruct.Valid, Covered, Writable;
      OwnedBy(this, p);
      ghost var f := AddPage(p, n, perm, contents);
      ghost var s := WithNewFrame(state, p, n, f, contents, perm);
      OneShows(this, p, s);
      hide Represents;
      Record(Event.MapPage(p, n, perm, contents), s);
    }

    method AddPage(p: Pid, n: nat, perm: Perm, contents: Page) returns (ghost f: nat)
      requires Separate() && Represents(state) && p in mms && Covered(state.vmas[p], n)
      modifies mem, mms[p].pgdir
      ensures f !in state.mem && mem.frames == state.mem[f := contents]
      ensures mms[p].Valid() && mms[p].pgdir.Valid() && mms[p].vmas == state.vmas[p]
      ensures mms[p].pgdir.View() == Put(state.spaces[p], n, MakePte(f, perm))
      ensures forall q :: q in mms && q != p ==> Shows(mms[q], q, state)
    {
      assert Shows(mms[p], p, state);
      PageBelowTop(mms[p].vmas, n);
      hide PageDir.View, Regions, Covered, Put;
      f := FillPage(mms[p].pgdir, n, perm, contents);
    }

    method FillPage(pgdir: PageDir, n: nat, perm: Perm, contents: Page) returns (ghost f: nat)
      requires pgdir.Valid() && n * PGSIZE < USERTOP
      modifies mem, pgdir
      ensures f !in old(mem.frames) && mem.frames == old(mem.frames)[f := contents]
      ensures pgdir.Valid() && pgdir.View() == Put(old(pgdir.View()), n, MakePte(f, perm))
    {
      hide PageDir.View;
      var page := PgdirAllocPage(pgdir, mem, n * PGSIZE, perm);
      assert Patch(mem.frames[page], 0, contents) == contents;
      mem.Fill(page, 0, contents);
      f := page;
    }

    // ----- Loads and stores -----

    /** What is loaded is the byte that was last stored there. */
    method Load(p: Pid, addr: nat) returns (b: Byte)
      requires Valid() && p in mms && Mapped(state, p, PageOf(addr)) && state.spaces[p][PageOf(addr)].r
      modifies this
      ensures Valid() && run == old(run) + [Event.Load(p, addr, b)] && mms == old(mms)
      ensures LastByte(old(run), p, addr) == Some(b)
    {
      MemoryIsTold(this, p, addr);
      hide LastByte, Seen, ByteSeen;
      hide Ran, Regions;
      RanInv(cow, run, state);
      assert Shows(mms[p], p, state);
      PageBelowTop(mms[p].vmas, PageOf(addr));
      hide PageDir.View, Separate, Framed;
      var found, pte := mms[p].pgdir.GetPte(addr);
      b := mem.frames[pte.frame][addr % PGSIZE];
      hide Represents, Shows, MmStruct.Valid;
      Record(Event.Load(p, addr, b), state);
    }

    /** A store in a writable region; on a page without the write bit the fault
        handler runs first. */
    method Store(p: Pid, addr: nat, b: Byte)
      requires Valid() && p in mms && StoreAllowed(state, p, addr)
      modifies this, mem, Dirs()
      ensures Valid() && run == old(run) + [Event.Store(p, addr, b)] && mms == old(mms)
    {
      hide Ran, Regions, Shows, Mms, Dirs, Separate, Framed, PageDir.View, MmStruct.Valid, Represents, WriteThrough;
      hide CowFault, Mapped, Writable;
      RanInv(cow, run, state);
      OwnedBy(this, p);
      ghost var m := MakeWritable(p, addr);
      ghost var s := WriteByte(p, addr, b, m);
      StoreIsStep(cow, state, p, addr, b, m, s);
      Record(Event.Store(p, addr, b), s);
    }

    /** The fault handler, if the write bit is missing. */
    method MakeWritable(p: Pid, addr: nat) returns (ghost m: State)
      requires Separate() && Represents(state) && Framed(state) && p in mms && StoreAllowed(state, p, addr)
      modifies mem, mms[p].pgdir
      ensures Represents(m) && Mapped(m, p, PageOf(addr)) && m.spaces[p][PageOf(addr)].w
      ensures if state.spaces[p][PageOf(addr)].w then m == state else CowFault(state, p, PageOf(addr), m)
      ensures addr < USERTOP
    {
      FramesKnown(this, p);
      assert mms[p].vmas == state.vmas[p] by { assert Shows(mms[p], p, state); }
      PageBelowTop(mms[p].vmas, PageOf(addr));
      hide PageDir.View, Regions, Covered, Writable, Framed;
      ghost var n, pte := PageOf(addr), mms[p].pgdir.View()[PageOf(addr)];
      ghost var f := OpenPage(mms[p].pgdir, addr);
      if pte.w {
        m := state;
        assert m.vmas == m.vmas[p := mms[p].vmas] && m.spaces == m.spaces[p := mms[p].pgdir.View()];
      } else {
        m := WithNewFrame(state, p, n, f, state.mem[pte.frame], UserPerm(pte).(w := true));
        assert m.vmas == m.vmas[p := mms[p].vmas];
      }
      hide MmStruct.Valid;
      OneShows(this, p, m);
    }

    /** The fault handler runs unless the entry has the write bit. */
    method OpenPage(pgdir: PageDir, addr: nat) returns (ghost f: nat)
      requires pgdir.Valid() && addr < USERTOP && PageOf(addr) in pgdir.View()
      requires pgdir.View()[PageOf(addr)].frame in mem.frames
      modifies pgdir, mem
      ensures pgdir.Valid()
      ensures var pte := old(pgdir.View())[PageOf(addr)];
              if pte.w then mem.frames == old(mem.frames) && pgdir.View() == old(pgdir.View())
              else && f !in old(mem.frames) && mem.frames == old(mem.frames)[f := old(mem.frames)[pte.frame]]
                   && pgdir.View() == Put(old(pgdir.View()), PageOf(addr), MakePte(f, UserPerm(pte).(w := true)))
    {
      hide PageDir.View;
      var found, pte := pgdir.GetPte(addr);
      if pte.w {
        f := 0;
      } else {
        f := CowPgFault(pgdir, mem, addr);
      }
    }

    method WriteByte(p: Pid, addr: nat, b: Byte, ghost m: State) returns (ghost s: State)
      requires Represents(m) && p in mms && Mapped(m, p, PageOf(addr)) && m.spaces[p][PageOf(addr)].w
      requires addr < USERTOP
      modifies mem
      ensures Represents(s) && WriteThrough(m, p, addr, b, s)
    {
      assert Shows(mms[p], p, m);
      hide PageDir.View, Regions;
      var found, pte := mms[p].pgdir.GetPte(addr);
      var f := pte.frame;
      s := m.(mem := m.mem[f := Written(m.mem[f], addr, b)]);
      assert Patch(m.mem[f], addr % PGSIZE, [b]) == Written(m.mem[f], addr, b);
      mem.Fill(f, addr % PGSIZE, [b]);
      forall q | q in mms
        ensures Shows(mms[q], q, s)
      {
        assert Shows(mms[q], q, m);
      }
    }
  }

  lemma OwnedGrows(m: Memory, p: Pid, mm: MmStruct, mms: map<Pid, MmStruct>)
    requires p !in mms && m.mms == mms[p := mm]
    ensures m.Mms() == (set q | q in mms :: mms[q]) + {mm}
    ensures m.Dirs() == (set q | q in mms :: mms[q].pgdir) + {mm.pgdir}
  {
    assert m.mms[p] == mm && forall q :: q in mms ==> q in m.mms && m.mms[q] == mms[q];
    forall x | x in (set q | q in mms :: mms[q])
      ensures x in m.Mms()
    {
      var q :| q in mms && mms[q] == x;
      assert m.mms[q] == x;
    }
    forall x | x in (set q | q in mms :: mms[q].pgdir)
      ensures x in m.Dirs()
    {
      var q :| q in mms && mms[q].pgdir == x;
      assert m.mms[q].pgdir == x;
    }
  }

  lemma OwnedBy(m: Memory, p: Pid)
    requires p in m.mms
    ensures m.mms[p] in m.Mms() && m.mms[p].pgdir in m.Dirs()
  {
  }

  lemma PageBelowTop(vmas: seq<Vma>, n: nat)
    requires Regions(vmas) && Covered(vmas, n)
    ensures n * PGSIZE + PGSIZE <= USERTOP
  {
    var v :| v in vmas && Covers(v, n);
    assert WellFormed(v);
  }

  lemma FreeStep(cow: bool, s: State, p: Pid, freed: set<nat>, s': State)
    requires p in s.spaces && s' == State(s.mem - freed, s.vmas - {p}, s.spaces - {p})
    requires forall q, n :: q in s.spaces && q != p && n in s.spaces[q] ==> s.spaces[q][n].frame !in freed
    ensures Next(cow, s, Event.Exit(p), s')
  {
  }

  lemma FewerShows(m: Memory, p: Pid, s: State)
    requires p !in m.mms && m.state.vmas.Keys == m.state.spaces.Keys == m.mms.Keys + {p}
    requires forall q :: q in m.mms ==> Shows(m.mms[q], q, m.state)
    requires s == State(m.mem.frames, m.state.vmas - {p}, m.state.spaces - {p})
    ensures m.Represents(s)
  {
    hide MmStruct.Valid, PageDir.View, Regions;
    forall q | q in m.mms
      ensures Shows(m.mms[q], q, s)
    {
      assert Shows(m.mms[q], q, m.state);
    }
    hide Shows;
  }

  /** A state that differs from the last one for p only. */
  lemma OneShows(m: Memory, p: Pid, s: State)
    requires p in m.mms && m.state.vmas.Keys == m.state.spaces.Keys && m.mms.Keys == m.state.vmas.Keys + {p}
    requires forall q :: q in m.mms && q != p ==> Shows(m.mms[q], q, m.state)
    requires m.mms[p].Valid() && m.mms[p].pgdir.Valid() && s.mem == m.mem.frames
    requires s.vmas == m.state.vmas[p := m.mms[p].vmas] && s.spaces == m.state.spaces[p := m.mms[p].pgdir.View()]
    ensures m.Represents(s)
  {
    hide MmStruct.Valid, PageDir.View, Regions;
    forall q | q in m.mms
      ensures Shows(m.mms[q], q, s)
    {
      if q != p {
        assert Shows(m.mms[q], q, m.state);
        assert s.vmas[q] == m.state.vmas[q] && s.spaces[q] == m.state.spaces[q];
      }
    }
    hide Shows;
  }

  function Forked(s: State, p: Pid, child: Pid, mem: Frames, parent: Space, copy: Space): State
    requires p in s.vmas
  {
    State(mem, s.vmas[child := s.vmas[p]], s.spaces[p := parent][child := copy])
  }

  /** What either kind of fork does to the pages of the parent and of the child. */
  ghost predicate ForkedPages(cow: bool, mem: Frames, mem': Frames, vmas: seq<Vma>,
                              from: Space, parent: Space, copy: Space)
  {
    var pages := RegionPages(from, vmas);
    if cow then mem' == mem && parent == CowParent(from, pages) && copy == CowChild(map[], from, pages)
    else parent == from && EagerCopied(mem, mem', from, map[], copy, pages)
  }

  lemma StoreIsStep(cow: bool, s: State, p: Pid, addr: nat, b: Byte, m: State, s': State)
    requires StoreAllowed(s, p, addr) && WriteThrough(m, p, addr, b, s') && (!cow ==> NoStoreFaults(s))
    requires if s.spaces[p][PageOf(addr)].w then m == s else CowFault(s, p, PageOf(addr), m)
    ensures Next(cow, s, Event.Store(p, addr, b), s')
  {
    hide WriteThrough, CowFault, Writable;
  }

  lemma FramesKnown(m: Memory, p: Pid)
    requires m.Represents(m.state) && Framed(m.state) && p in m.mms
    ensures m.mms[p].Valid() && m.state.spaces[p] == m.mms[p].pgdir.View()
    ensures forall n :: n in m.mms[p].pgdir.View() ==> m.mms[p].pgdir.View()[n].frame in m.mem.frames
  {
    assert Shows(m.mms[p], p, m.state);
  }

  lemma ForkIsStep(cow: bool, s: State, p: Pid, child: Pid, s': State)
    requires p in s.spaces && p in s.vmas && child !in s.spaces && child in s'.spaces && p in s'.spaces
    requires s' == Forked(s, p, child, s'.mem, s'.spaces[p], s'.spaces[child])
    requires ForkedPages(cow, s.mem, s'.mem, s.vmas[p], s.spaces[p], s'.spaces[p], s'.spaces[child])
    ensures Next(cow, s, Event.Fork(p, child), s')
  {
    hide EagerCopied, CowParent, CowChild, RegionPages;
    assert !cow ==> s'.spaces == s.spaces[child := s'.spaces[child]];
  }

  /** A state that differs from s for p and child only. */
  lemma ForkShows(m: Memory, p: Pid, child: Pid, s': State)
    requires p in m.mms && child in m.mms && p != child
    requires m.state.vmas.Keys == m.state.spaces.Keys == m.mms.Keys - {child}
    requires forall q :: q in m.mms && q != p && q != child ==> Shows(m.mms[q], q, m.state)
    requires m.mms[p].Valid() && m.mms[child].Valid() && m.state.vmas[p] == m.mms[p].vmas == m.mms[child].vmas
    requires s' == Forked(m.state, p, child, m.mem.frames, m.mms[p].pgdir.View(), m.mms[child].pgdir.View())
    ensures m.Represents(s')
  {
    hide MmStruct.Valid, PageDir.View, Regions;
    forall q | q in m.mms
      ensures Shows(m.mms[q], q, s')
    {
      if q != p && q != child {
        assert Shows(m.mms[q], q, m.state);
        assert s'.vmas[q] == m.state.vmas[q] && s'.spaces[q] == m.state.spaces[q];
      }
    }
    hide Shows;
  }

  // ----- Memory at any time -----

  /** Whatever has happened could have happened, with the same bytes loaded,
      under the other kind of fork. */
  lemma EitherFork(m: Memory) returns (t: State)
    requires m.Valid()
    ensures Ran(!m.cow, m.run, t)
  {
    assert Ran(m.cow, m.run, m.state);
    hide Memory.Valid;
    t := OtherRun(m.cow, m.run, m.state);
  }

  /** What process p sees: the contents of its pages and what it may do with
      them apart from writing. */
  ghost function Seen(m: Memory, p: Pid): SpaceView
    requires p in m.mms && m.mms[p].pgdir.Valid()
    reads m`mms, m.mem, m.mms[p].pgdir
  {
    Observe(m.mem.frames, m.mms[p].pgdir.View())
  }

  /** The byte that p sees at an address. */
  ghost function ByteSeen(m: Memory, p: Pid, addr: nat): Option<Byte>
    requires p in m.mms && m.mms[p].pgdir.Valid()
    reads m`mms, m.mem, m.mms[p].pgdir
  {
    var view, n := m.mms[p].pgdir.View(), addr / PGSIZE;
    if n in view && view[n].frame in m.mem.frames then Some(m.mem.frames[view[n].frame][addr % PGSIZE]) else None
  }

  /** At any time, with either kind of fork, the frames hold what the history says: at
      each address the byte last stored by the process or by the one it descends from. */
  lemma MemoryIsTold(m: Memory, p: Pid, addr: nat)
    requires m.Valid() && p in m.mms
    ensures m.mms[p].Valid() && ByteSeen(m, p, addr) == LastByte(m.run, p, addr)
  {
    SeenInView(m);
    ViewTold(m, p, addr);
    hide Memory.Valid, LastByte, ViewOf, PageDir.View, MmStruct.Valid;
  }

  lemma ViewTold(m: Memory, p: Pid, addr: nat)
    requires m.Valid() && p in ViewOf(m.state).pages
    ensures ByteIn(ViewOf(m.state), p, addr) == LastByte(m.run, p, addr)
  {
    assert Ran(m.cow, m.run, m.state);
    hide Memory.Valid, Ran, LastByte, SpecRun, ViewOf, ByteIn;
    RanSound(m.cow, m.run, m.state);
    RunsTell(m.run, ViewOf(m.state));
  }

  lemma SeenInView(m: Memory)
    requires m.Valid()
    ensures m.state.vmas.Keys == ViewOf(m.state).pages.Keys == m.mms.Keys
    ensures forall p :: p in m.mms ==>
              m.mms[p].Valid() && m.mms[p].vmas == m.state.vmas[p] && Seen(m, p) == ViewOf(m.state).pages[p]
  {
    hide Ran, Observe, Regions, PageDir.View;
    forall p | p in m.mms
      ensures m.mms[p].Valid() && m.mms[p].vmas == m.state.vmas[p] && Seen(m, p) == ViewOf(m.state).pages[p]
    {
      assert Shows(m.mms[p], p, m.state);
    }
  }

  /** Two memories with the same history, whatever their kinds of fork: all
      processes have the same regions and see the same pages. */
  lemma SameHistorySameMemory(m: Memory, o: Memory)
    requires m.Valid() && o.Valid() && m.run == o.run
    ensures m.mms.Keys == o.mms.Keys
    ensures forall p :: p in m.mms ==>
              && m.mms[p].Valid() && o.mms[p].Valid() && m.mms[p].vmas == o.mms[p].vmas
              && Seen(m, p) == Seen(o, p)
  {
    SeenInView(m);
    SeenInView(o);
    assert Ran(m.cow, m.run, m.state) && Ran(o.cow, o.run, o.state);
    hide Memory.Valid, Ran, Framed, Sound, Seen;
    RanSound(m.cow, m.run, m.state);
    RanSound(o.cow, o.run, o.state);
    SpecRunDeterministic(ViewOf(INITIAL), m.run, ViewOf(m.state), ViewOf(o.state));
  }

  /** No frame that a page directory maps with the write bit is mapped a second
      time, in this page directory or in another one. */
  lemma WritersAlone(m: Memory, p: Pid, n: nat, q: Pid, k: nat)
    requires m.Valid() && p in m.mms && q in m.mms && m.mms[p].pgdir.Valid() && m.mms[q].pgdir.Valid()
    requires n in m.mms[p].pgdir.View() && k in m.mms[q].pgdir.View()
    requires m.mms[p].pgdir.View()[n].w && m.mms[p].pgdir.View()[n].frame == m.mms[q].pgdir.View()[k].frame
    ensures p == q && n == k
  {
    assert Shows(m.mms[p], p, m.state) && Shows(m.mms[q], q, m.state);
    hide PageDir.View, Regions, Ran, SpecRun, ViewOf;
    RanSound(m.cow, m.run, m.state);
  }
}
