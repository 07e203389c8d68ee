/** Copy-on-write fork as a protocol over all address spaces, next to the
    system that copies eagerly, and the proof that no process can tell them
    apart. */
module CowMachine {
  import opened Paging
  import opened CowRange
  import opened Mm

  type Pid = nat

  /** Physical frames, and for every process its regions and its mapped pages. */
  datatype State = State(mem: Frames, vmas: map<Pid, seq<Vma>>, spaces: map<Pid, Space>)

  /** What processes do, with what they observe. */
  datatype Event =
    | Exec(p: Pid, vmas: seq<Vma>)
    | MapPage(p: Pid, n: nat, perm: Perm, contents: Page)
    | Fork(p: Pid, child: Pid)
    | Load(p: Pid, addr: nat, b: Byte)
    | Store(p: Pid, addr: nat, b: Byte)
    | Exit(p: Pid)

  const INITIAL := State(map[], map[], map[])

  ghost predicate Writable(vmas: seq<Vma>, n: nat)
  {
    exists v :: v in vmas && Covers(v, n) && v.writable
  }

  ghost predicate InUse(spaces: map<Pid, Space>, frame: nat)
  {
    exists p, n :: p in spaces && n in spaces[p] && spaces[p][n].frame == frame
  }

  function Put(space: Space, n: nat, pte: Pte): Space
  {
    space[n := pte]
  }

  function PageOf(addr: nat): nat
  {
    addr / PGSIZE
  }

  function Written(page: Page, addr: nat, b: Byte): Page
  {
    page[addr % PGSIZE := b]
  }

  ghost predicate Mapped(s: State, p: Pid, n: nat)
  {
    p in s.spaces && n in s.spaces[p] && s.spaces[p][n].frame in s.mem
  }

  // ----- Steps that both systems share -----

  ghost predicate ExecStep(s: State, p: Pid, vmas: seq<Vma>, s': State)
  {
    && p !in s.spaces && Regions(vmas)
    && s' == s.(vmas := s.vmas[p := vmas], spaces := s.spaces[p := map[]])
  }

  /** The page is mapped to the new frame f with the given contents. */
  function WithNewFrame(s: State, p: Pid, n: nat, f: nat, contents: Page, perm: Perm): State
    requires p in s.spaces
  {
    s.(mem := s.mem[f := contents], spaces := s.spaces[p := Put(s.spaces[p], n, MakePte(f, perm))])
  }

  /** A page of a region is mapped to a frame that nobody uses; the loader and
      the fault handler make it writable exactly in writable regions. */
  ghost predicate MapStep(s: State, p: Pid, n: nat, perm: Perm, contents: Page, s': State)
  {
    && p in s.spaces && p in s.vmas && n !in s.spaces[p] && Covered(s.vmas[p], n)
    && (perm.w <==> Writable(s.vmas[p], n))
    && exists f: nat :: f !in s.mem && s' == WithNewFrame(s, p, n, f, contents, perm)
  }

  ghost predicate LoadStep(s: State, p: Pid, addr: nat, b: Byte, s': State)
  {
    && Mapped(s, p, PageOf(addr)) && s.spaces[p][PageOf(addr)].r
    && s.mem[s.spaces[p][PageOf(addr)].frame][addr % PGSIZE] == b
    && s' == s
  }

  /** Unmapping frees frames that nobody uses any more, possibly not all. */
  ghost predicate ExitStep(s: State, p: Pid, s': State)
  {
    && p in s.spaces
    && s'.vmas == s.vmas - {p} && s'.spaces == s.spaces - {p}
    && (forall f :: f in s'.mem ==> f in s.mem && s'.mem[f] == s.mem[f])
    && (forall f :: f in s.mem && InUse(s'.spaces, f) ==> f in s'.mem)
  }

  /** A store is in a page that is mapped in a writable region. */
  ghost predicate StoreAllowed(s: State, p: Pid, addr: nat)
  {
    Mapped(s, p, PageOf(addr)) && p in s.vmas && Writable(s.vmas[p], PageOf(addr))
  }

  /** The hardware carries out a store through an entry with the write bit. */
  ghost predicate WriteThrough(s: State, p: Pid, addr: nat, b: Byte, s': State)
  {
    && Mapped(s, p, PageOf(addr)) && s.spaces[p][PageOf(addr)].w
    && var f := s.spaces[p][PageOf(addr)].frame;
       s' == s.(mem := s.mem[f := Written(s.mem[f], addr, b)])
  }

  // ----- The copy-on-write system -----

  ghost predicate CowFork(s: State, p: Pid, child: Pid, s': State)
  {
    && p in s.spaces && p in s.vmas && child !in s.spaces
    && var pages := RegionPages(s.spaces[p], s.vmas[p]);
       s' == s.(vmas := s.vmas[child := s.vmas[p]],
                spaces := s.spaces[p := CowParent(s.spaces[p], pages)][child := CowChild(map[], s.spaces[p], pages)])
  }

  /** The fault handler, on a mapped page without the write bit. */
  ghost predicate CowFault(s: State, p: Pid, n: nat, s': State)
  {
    && Mapped(s, p, n) && !s.spaces[p][n].w
    && var pte := s.spaces[p][n];
       exists f: nat :: f !in s.mem && s' == WithNewFrame(s, p, n, f, s.mem[pte.frame], UserPerm(pte).(w := true))
  }

  ghost predicate CowStore(s: State, p: Pid, addr: nat, b: Byte, s': State)
  {
    && StoreAllowed(s, p, addr)
    && if s.spaces[p][PageOf(addr)].w then WriteThrough(s, p, addr, b, s')
       else exists m :: CowFault(s, p, PageOf(addr), m) && WriteThrough(m, p, addr, b, s')
  }

  ghost predicate CowNext(s: State, e: Event, s': State)
  {
    match e
    case Exec(p, vmas) => ExecStep(s, p, vmas, s')
    case MapPage(p, n, perm, contents) => MapStep(s, p, n, perm, contents, s')
    case Fork(p, child) => CowFork(s, p, child, s')
    case Load(p, addr, b) => LoadStep(s, p, addr, b, s')
    case Store(p, addr, b) => CowStore(s, p, addr, b, s')
    case Exit(p) => ExitStep(s, p, s')
  }

  // ----- The eager system -----

  ghost predicate EagerFork(s: State, p: Pid, child: Pid, s': State)
  {
    && p in s.spaces && p in s.vmas && child !in s.spaces
    && child in s'.spaces
    && s'.vmas == s.vmas[child := s.vmas[p]]
    && s'.spaces == s.spaces[child := s'.spaces[child]]
    && EagerCopied(s.mem, s'.mem, s.spaces[p], map[], s'.spaces[child], RegionPages(s.spaces[p], s.vmas[p]))
  }

  ghost predicate EagerNext(s: State, e: Event, s': State)
  {
    match e
    case Exec(p, vmas) => ExecStep(s, p, vmas, s')
    case MapPage(p, n, perm, contents) => MapStep(s, p, n, perm, contents, s')
    case Fork(p, child) => EagerFork(s, p, child, s')
    case Load(p, addr, b) => LoadStep(s, p, addr, b, s')
    case Store(p, addr, b) => StoreAllowed(s, p, addr) && WriteThrough(s, p, addr, b, s')
    case Exit(p) => ExitStep(s, p, s')
  }

  // ----- The view of the processes -----

  /** What a process can observe of a page. */
  datatype PageView = PageView(contents: Page, r: bool, x: bool, u: bool)

  type SpaceView = map<nat, PageView>

  datatype View = View(vmas: map<Pid, seq<Vma>>, pages: map<Pid, SpaceView>)

  function Observe(mem: Frames, space: Space): SpaceView
  {
    map n | n in space && space[n].frame in mem ::
      PageView(mem[space[n].frame], space[n].r, space[n].x, space[n].u)
  }

  function ObserveAll(mem: Frames, spaces: map<Pid, Space>): (r: map<Pid, SpaceView>)
    ensures r.Keys == spaces.Keys
  {
    map p | p in spaces :: Observe(mem, spaces[p])
  }

  function ViewOf(s: State): View
  {
    View(s.vmas, ObserveAll(s.mem, s.spaces))
  }

  /** The specification: every process has its own memory, and fork copies it. */
  ghost predicate SpecNext(a: View, e: Event, a': View)
  {
    match e
    case Exec(p, vmas) =>
      p !in a.pages && Regions(vmas) && a' == View(a.vmas[p := vmas], a.pages[p := map[]])
    case MapPage(p, n, perm, contents) =>
      && p in a.pages && p in a.vmas && n !in a.pages[p] && Covered(a.vmas[p], n)
      && (perm.w <==> Writable(a.vmas[p], n))
      && a' == a.(pages := a.pages[p := Show(a.pages[p], n, PageView(contents, perm.r, perm.x, perm.u))])
    case Fork(p, child) =>
      && p in a.pages && p in a.vmas && child !in a.pages
      && a' == View(a.vmas[child := a.vmas[p]], a.pages[child := a.pages[p]])
    case Load(p, addr, b) =>
      && p in a.pages && PageOf(addr) in a.pages[p] && a.pages[p][PageOf(addr)].r
      && a.pages[p][PageOf(addr)].contents[addr % PGSIZE] == b
      && a' == a
    case Store(p, addr, b) =>
      && p in a.pages && PageOf(addr) in a.pages[p] && p in a.vmas && Writable(a.vmas[p], PageOf(addr))
      && var page := a.pages[p][PageOf(addr)];
         var page' := page.(contents := Written(page.contents, addr, b));
         a' == a.(pages := a.pages[p := Show(a.pages[p], PageOf(addr), page')])
    case Exit(p) =>
      p in a.pages && a' == View(a.vmas - {p}, a.pages - {p})
  }

  function Show(space: SpaceView, n: nat, page: PageView): SpaceView
  {
    space[n := page]
  }

  // ----- Invariants -----

  /** Mapped pages lie in regions and have frames. */
  ghost predicate Framed(s: State)
  {
    && s.vmas.Keys == s.spaces.Keys
    && forall p, n :: p in s.spaces && n in s.spaces[p] ==>
         s.spaces[p][n].frame in s.mem && Covered(s.vmas[p], n)
  }

  /** The write bit is set only in writable regions. */
  ghost predicate Sound(s: State)
  {
    && Framed(s)
    && forall p, n :: p in s.spaces && n in s.spaces[p] ==> s.spaces[p][n].w ==> Writable(s.vmas[p], n)
  }

  /** A frame that is mapped with the write bit is mapped nowhere else. */
  ghost predicate Exclusive(s: State)
  {
    forall p, n, q, m :: p in s.spaces && n in s.spaces[p] && q in s.spaces && m in s.spaces[q] ==>
      s.spaces[p][n].w && s.spaces[p][n].frame == s.spaces[q][m].frame ==> p == q && n == m
  }

  ghost predicate CowInv(s: State)
  {
    Sound(s) && Exclusive(s)
  }

  /** Without sharing, every frame is mapped once. */
  ghost predicate Unshared(s: State)
  {
    forall p, n, q, m :: p in s.spaces && n in s.spaces[p] && q in s.spaces && m in s.spaces[q] ==>
      s.spaces[p][n].frame == s.spaces[q][m].frame ==> p == q && n == m
  }

  /** Every page of a writable region has the write bit: no store faults. */
  ghost predicate NoStoreFaults(s: State)
  {
    s.vmas.Keys == s.spaces.Keys &&
    forall p, n :: p in s.spaces && n in s.spaces[p] && Writable(s.vmas[p], n) ==> s.spaces[p][n].w
  }

  ghost predicate EagerInv(s: State)
  {
    Sound(s) && Unshared(s) && NoStoreFaults(s)
  }

  // ----- Simulation, step by step -----

  /** Frames that change or appear are invisible to spaces that do not map them. */
  lemma ObserveFrame(mem: Frames, mem': Frames, space: Space)
    requires forall n :: n in space ==>
               && space[n].frame in mem && space[n].frame in mem' && mem'[space[n].frame] == mem[space[n].frame]
    ensures Observe(mem', space) == Observe(mem, space)
  {
  }

  /** If the other processes see what they saw before, one entry of the view changes. */
  lemma ObserveOne(mem: Frames, mem': Frames, spaces: map<Pid, Space>, p: Pid, space: Space)
    requires p in spaces
    requires forall q :: q in spaces && q != p ==> Observe(mem', spaces[q]) == Observe(mem, spaces[q])
    ensures ObserveAll(mem', spaces[p := space]) == ObserveAll(mem, spaces)[p := Observe(mem', space)]
  {
    hide Observe;
  }

  lemma ObserveNew(mem: Frames, space: Space, n: nat, f: nat, contents: Page, perm: Perm)
    requires f !in mem && forall m :: m in space ==> space[m].frame in mem
    ensures Observe(mem[f := contents], Put(space, n, MakePte(f, perm)))
         == Show(Observe(mem, space), n, PageView(contents, perm.r, perm.x, perm.u))
  {
  }

  lemma NewFrameView(s: State, p: Pid, n: nat, f: nat, contents: Page, perm: Perm)
    requires Sound(s) && p in s.spaces && f !in s.mem
    ensures ViewOf(WithNewFrame(s, p, n, f, contents, perm)) ==
            ViewOf(s).(pages := ViewOf(s).pages[p :=
              Show(ViewOf(s).pages[p], n, PageView(contents, perm.r, perm.x, perm.u))])
  {
    var mem' := s.mem[f := contents];
    forall q | q in s.spaces && q != p
      ensures Observe(mem', s.spaces[q]) == Observe(s.mem, s.spaces[q])
    {
      ObserveFrame(s.mem, mem', s.spaces[q]);
    }
    hide Observe, Show, Put;
    var space := Put(s.spaces[p], n, MakePte(f, perm));
    ObserveOne(s.mem, mem', s.spaces, p, space);
    ObserveNew(s.mem, s.spaces[p], n, f, contents, perm);
    assert ViewOf(s).pages[p] == Observe(s.mem, s.spaces[p]);
  }

  lemma NewFrameSound(s: State, p: Pid, n: nat, f: nat, contents: Page, perm: Perm)
    requires Sound(s) && p in s.spaces && f !in s.mem && Covered(s.vmas[p], n)
    requires perm.w ==> Writable(s.vmas[p], n)
    ensures Sound(WithNewFrame(s, p, n, f, contents, perm))
  {
  }

  lemma NewFrameExclusive(s: State, p: Pid, n: nat, f: nat, contents: Page, perm: Perm)
    requires Framed(s) && Exclusive(s) && p in s.spaces && f !in s.mem
    ensures Exclusive(WithNewFrame(s, p, n, f, contents, perm))
  {
  }

  lemma FaultInvisible(s: State, p: Pid, n: nat, s': State)
    requires CowInv(s) && CowFault(s, p, n, s') && Writable(s.vmas[p], n)
    ensures CowInv(s') && ViewOf(s') == ViewOf(s) && s'.vmas == s.vmas && Mapped(s', p, n) && s'.spaces[p][n].w
  {
    var pte := s.spaces[p][n];
    var perm := UserPerm(pte).(w := true);
    var f: nat :| f !in s.mem && s' == WithNewFrame(s, p, n, f, s.mem[pte.frame], perm);
    hide Sound, Framed, Exclusive, ViewOf, Covered, Writable, CowFault;
    MappedIsCovered(s, p, n);
    SoundIsFramed(s);
    NewFrameSound(s, p, n, f, s.mem[pte.frame], perm);
    NewFrameExclusive(s, p, n, f, s.mem[pte.frame], perm);
    FaultView(s, p, n, f);
    hide WithNewFrame;
    NewFrameMapped(s, p, n, f, s.mem[pte.frame], perm);
  }

  lemma FaultView(s: State, p: Pid, n: nat, f: nat)
    requires Sound(s) && Mapped(s, p, n) && f !in s.mem
    ensures var pte := s.spaces[p][n];
            ViewOf(WithNewFrame(s, p, n, f, s.mem[pte.frame], UserPerm(pte).(w := true))) == ViewOf(s)
  {
    hide Sound, ViewOf, WithNewFrame;
    var pte := s.spaces[p][n];
    NewFrameView(s, p, n, f, s.mem[pte.frame], UserPerm(pte).(w := true));
    SamePage(s, p, n);
  }

  lemma NewFrameMapped(s: State, p: Pid, n: nat, f: nat, contents: Page, perm: Perm)
    requires p in s.spaces
    ensures var s' := WithNewFrame(s, p, n, f, contents, perm);
            Mapped(s', p, n) && s'.spaces[p][n].w == perm.w && s'.vmas == s.vmas
  {
  }

  lemma MappedIsCovered(s: State, p: Pid, n: nat)
    requires Sound(s) && Mapped(s, p, n)
    ensures p in s.vmas && Covered(s.vmas[p], n)
  {
  }

  /** Showing a page as it is changes nothing. */
  lemma SamePage(s: State, p: Pid, n: nat)
    requires Mapped(s, p, n)
    ensures var pte := s.spaces[p][n];
            var shown := Show(ViewOf(s).pages[p], n, PageView(s.mem[pte.frame], pte.r, pte.x, pte.u));
            ViewOf(s).(pages := ViewOf(s).pages[p := shown]) == ViewOf(s)
  {
    var pte := s.spaces[p][n];
    var seen: SpaceView := ViewOf(s).pages[p];
    assert Show(seen, n, PageView(s.mem[pte.frame], pte.r, pte.x, pte.u)) == seen;
  }

  lemma ObserveWritten(mem: Frames, space: Space, n: nat, contents: Page)
    requires n in space && space[n].frame in mem
    requires forall m :: m in space && space[m].frame == space[n].frame ==> m == n
    ensures var seen := Observe(mem, space);
            Observe(mem[space[n].frame := contents], space) == Show(seen, n, seen[n].(contents := contents))
  {
  }

  /** The fault handler itself does not look at the regions. It keeps write bits
      confined to writable regions exactly when the page lies in one. */
  lemma FaultConfinedIff(s: State, p: Pid, n: nat, s': State)
    requires CowInv(s) && CowFault(s, p, n, s')
    ensures Sound(s') <==> Writable(s.vmas[p], n)
  {
    if Writable(s.vmas[p], n) {
      FaultInvisible(s, p, n, s');
    } else {
      assert n in s'.spaces[p] && s'.spaces[p][n].w;
    }
  }

  /** A store through an exclusively mapped frame changes one page of one process. */
  lemma WriteView(s: State, p: Pid, addr: nat, b: Byte, s': State)
    requires CowInv(s) && WriteThrough(s, p, addr, b, s') && Writable(s.vmas[p], PageOf(addr))
    ensures CowInv(s') && SpecNext(ViewOf(s), Store(p, addr, b), ViewOf(s'))
  {
    hide Covered, Writable;
    var n := PageOf(addr);
    var f := s.spaces[p][n].frame;
    var contents := Written(s.mem[f], addr, b);
    WriteObserved(s, p, n, contents);
    assert s'.mem == s.mem[f := contents] && s'.spaces == s.spaces && s'.vmas == s.vmas;
    assert Sound(s') && Exclusive(s');
    assert ViewOf(s).pages[p] == Observe(s.mem, s.spaces[p]);
    hide Show, Written, Observe, Sound, Exclusive;
  }

  lemma WriteObserved(s: State, p: Pid, n: nat, contents: Page)
    requires CowInv(s) && Mapped(s, p, n) && s.spaces[p][n].w
    ensures var f := s.spaces[p][n].frame;
            var seen := Observe(s.mem, s.spaces[p]);
            && n in seen && seen[n].contents == s.mem[f]
            && ObserveAll(s.mem[f := contents], s.spaces)
            == ObserveAll(s.mem, s.spaces)[p := Show(seen, n, seen[n].(contents := contents))]
  {
    hide Covered, Writable;
    var f := s.spaces[p][n].frame;
    var mem' := s.mem[f := contents];
    forall q | q in s.spaces && q != p
      ensures Observe(mem', s.spaces[q]) == Observe(s.mem, s.spaces[q])
    {
      ObserveFrame(s.mem, mem', s.spaces[q]);
    }
    ObserveWritten(s.mem, s.spaces[p], n, contents);
    ObserveOne(s.mem, mem', s.spaces, p, s.spaces[p]);
    assert s.spaces[p := s.spaces[p]] == s.spaces;
  }

  lemma SharingLooksSame(mem: Frames, space: Space)
    ensures Observe(mem, CowParent(space, space.Keys)) == Observe(mem, space)
    ensures ReadOnlyCopy(CowParent(space, space.Keys), space)
  {
  }

  lemma SharedLooksSame(mem: Frames, space: Space)
    ensures Observe(mem, CowChild(map[], space, space.Keys)) == Observe(mem, space)
    ensures ReadOnlyCopy(CowChild(map[], space, space.Keys), space)
  {
  }

  lemma AllPagesInRegions(s: State, p: Pid)
    requires Framed(s) && p in s.spaces
    ensures RegionPages(s.spaces[p], s.vmas[p]) == s.spaces[p].Keys
  {
  }

  /** Both sides of a fork map the old frames without the write bit. */
  ghost predicate ReadOnlyCopy(copy: Space, space: Space)
  {
    && copy.Keys == space.Keys
    && forall n :: n in space ==> !copy[n].w && copy[n].frame == space[n].frame
  }

  lemma ForkedSpaces(s: State, p: Pid, child: Pid, s': State)
    requires Framed(s) && CowFork(s, p, child, s')
    ensures ReadOnlyCopy(s'.spaces[p], s.spaces[p]) && ReadOnlyCopy(s'.spaces[child], s.spaces[p])
    ensures Observe(s.mem, s'.spaces[p]) == Observe(s.mem, s.spaces[p])
    ensures Observe(s.mem, s'.spaces[child]) == Observe(s.mem, s.spaces[p])
    ensures p in s.spaces && p in s.vmas && child !in s.spaces && s'.spaces.Keys == s.spaces.Keys + {child}
    ensures forall q :: q in s.spaces && q != p ==> s'.spaces[q] == s.spaces[q]
    ensures s'.vmas == s.vmas[child := s.vmas[p]] && s'.mem == s.mem
  {
    AllPagesInRegions(s, p);
    SharingLooksSame(s.mem, s.spaces[p]);
    SharedLooksSame(s.mem, s.spaces[p]);
    hide Observe, Framed, RegionPages, CowParent, CowChild;
  }

  lemma SoundIsFramed(s: State)
    requires Sound(s)
    ensures Framed(s)
  {
  }

  lemma CowForkSimulates(s: State, p: Pid, child: Pid, s': State)
    requires CowInv(s) && CowFork(s, p, child, s')
    ensures CowInv(s') && SpecNext(ViewOf(s), Fork(p, child), ViewOf(s'))
  {
    hide Observe, CowFork, Framed, Sound, Exclusive, ReadOnlyCopy, SpecNext, ViewOf;
    SoundIsFramed(s);
    ForkedSpaces(s, p, child, s');
    CowForkSound(s, p, child, s');
    CowForkExclusive(s, p, child, s');
    ForkView(s, p, child, s');
  }

  lemma CowForkSound(s: State, p: Pid, child: Pid, s': State)
    requires Sound(s) && p in s.spaces && child !in s.spaces && s'.spaces.Keys == s.spaces.Keys + {child}
    requires ReadOnlyCopy(s'.spaces[p], s.spaces[p]) && ReadOnlyCopy(s'.spaces[child], s.spaces[p])
    requires forall q :: q in s.spaces && q != p ==> s'.spaces[q] == s.spaces[q]
    requires s'.vmas == s.vmas[child := s.vmas[p]] && s'.mem == s.mem
    ensures Sound(s')
  {
    hide Covered, Writable;
  }

  lemma CowForkExclusive(s: State, p: Pid, child: Pid, s': State)
    requires Exclusive(s) && p in s.spaces && child !in s.spaces && s'.spaces.Keys == s.spaces.Keys + {child}
    requires ReadOnlyCopy(s'.spaces[p], s.spaces[p]) && ReadOnlyCopy(s'.spaces[child], s.spaces[p])
    requires forall q :: q in s.spaces && q != p ==> s'.spaces[q] == s.spaces[q]
    ensures Exclusive(s')
  {
    forall q, n, r, m | q in s'.spaces && n in s'.spaces[q] && r in s'.spaces && m in s'.spaces[r]
      && s'.spaces[q][n].w && s'.spaces[q][n].frame == s'.spaces[r][m].frame
      ensures q == r && n == m
    {
      assert q != p && q != child;
      var r0 := if r == child then p else r;
      assert m in s.spaces[r0] && s.spaces[r0][m].frame == s'.spaces[r][m].frame;
    }
  }

  lemma ForkView(s: State, p: Pid, child: Pid, s': State)
    requires p in s.spaces && p in s.vmas && child !in s.spaces
    requires s'.vmas == s.vmas[child := s.vmas[p]] && s'.spaces.Keys == s.spaces.Keys + {child}
    requires forall q :: q in s.spaces ==> Observe(s'.mem, s'.spaces[q]) == Observe(s.mem, s.spaces[q])
    requires Observe(s'.mem, s'.spaces[child]) == Observe(s.mem, s.spaces[p])
    ensures SpecNext(ViewOf(s), Fork(p, child), ViewOf(s'))
  {
    hide Observe;
    assert ViewOf(s').pages == ViewOf(s).pages[child := ViewOf(s).pages[p]];
  }

  lemma ExitSound(s: State, p: Pid, s': State)
    requires Sound(s) && ExitStep(s, p, s')
    ensures Sound(s')
  {
    hide Covered, Writable;
    forall q, n | q in s'.spaces && n in s'.spaces[q]
      ensures s'.spaces[q][n].frame in s'.mem
    {
      assert InUse(s'.spaces, s'.spaces[q][n].frame);
    }
  }

  lemma ExitSimulates(s: State, p: Pid, s': State)
    requires Sound(s) && ExitStep(s, p, s')
    ensures Sound(s') && SpecNext(ViewOf(s), Exit(p), ViewOf(s'))
    ensures forall q :: q in s'.spaces ==> q in s.spaces && s'.spaces[q] == s.spaces[q] && s'.vmas[q] == s.vmas[q]
  {
    hide Covered, Writable, InUse, Observe;
    ExitSound(s, p, s');
    forall q | q in s'.spaces
      ensures Observe(s'.mem, s.spaces[q]) == Observe(s.mem, s.spaces[q])
    {
      ObserveFrame(s.mem, s'.mem, s.spaces[q]);
    }
    ObserveRemoved(s.mem, s'.mem, s.spaces, p);
    hide Sound, ObserveAll;
  }

  lemma ObserveRemoved(mem: Frames, mem': Frames, spaces: map<Pid, Space>, p: Pid)
    requires forall q :: q in spaces && q != p ==> Observe(mem', spaces[q]) == Observe(mem, spaces[q])
    ensures ObserveAll(mem', spaces - {p}) == ObserveAll(mem, spaces) - {p}
  {
    hide Observe;
  }

  lemma ExecSimulates(s: State, p: Pid, vmas: seq<Vma>, s': State)
    requires Sound(s) && ExecStep(s, p, vmas, s')
    ensures Sound(s') && SpecNext(ViewOf(s), Exec(p, vmas), ViewOf(s'))
  {
    hide Covered, Writable, Regions;
    assert Sound(s');
    assert Observe(s.mem, map[]) == map[];
    ObserveAdded(s.mem, s.spaces, p, map[]);
    hide Observe, ObserveAll, Sound;
  }

  lemma ObserveAdded(mem: Frames, spaces: map<Pid, Space>, p: Pid, space: Space)
    ensures ObserveAll(mem, spaces[p := space]) == ObserveAll(mem, spaces)[p := Observe(mem, space)]
  {
    hide Observe;
  }

  lemma MapSimulates(s: State, p: Pid, n: nat, perm: Perm, contents: Page, s': State) returns (f: nat)
    requires Sound(s) && MapStep(s, p, n, perm, contents, s')
    ensures Sound(s') && SpecNext(ViewOf(s), MapPage(p, n, perm, contents), ViewOf(s'))
    ensures f !in s.mem && s' == WithNewFrame(s, p, n, f, contents, perm)
  {
    f :| f !in s.mem && s' == WithNewFrame(s, p, n, f, contents, perm);
    NewFrameSound(s, p, n, f, contents, perm);
    NewFrameView(s, p, n, f, contents, perm);
    assert ViewOf(s).pages[p].Keys == s.spaces[p].Keys;
  }

  lemma LoadSimulates(s: State, p: Pid, addr: nat, b: Byte, s': State)
    requires Sound(s) && LoadStep(s, p, addr, b, s')
    ensures SpecNext(ViewOf(s), Load(p, addr, b), ViewOf(s'))
  {
    assert ViewOf(s).pages[p] == Observe(s.mem, s.spaces[p]);
  }

  /** Every step of the copy-on-write system keeps the invariant and is a step
      of the specification. */
  lemma CowSimulates(s: State, e: Event, s': State)
    requires CowInv(s) && CowNext(s, e, s')
    ensures CowInv(s') && SpecNext(ViewOf(s), e, ViewOf(s'))
  {
    match e
    case Exec(p, vmas) => ExecSimulates(s, p, vmas, s');
    case MapPage(p, n, perm, contents) =>
      var f := MapSimulates(s, p, n, perm, contents, s');
      NewFrameExclusive(s, p, n, f, contents, perm);
    case Fork(p, child) => CowForkSimulates(s, p, child, s');
    case Load(p, addr, b) => LoadSimulates(s, p, addr, b, s');
    case Store(p, addr, b) =>
      if s.spaces[p][PageOf(addr)].w {
        WriteView(s, p, addr, b, s');
      } else {
        var m :| CowFault(s, p, PageOf(addr), m) && WriteThrough(m, p, addr, b, s');
        FaultInvisible(s, p, PageOf(addr), m);
        WriteView(m, p, addr, b, s');
      }
    case Exit(p) => ExitSimulates(s, p, s');
  }

  lemma CopyingLooksSame(mem: Frames, mem': Frames, space: Space, copy: Space)
    requires copy.Keys == space.Keys && forall n :: n in space ==> CopiedPage(mem, mem', space[n], copy[n])
    ensures Observe(mem', copy) == Observe(mem, space)
  {
  }

  lemma EagerForkSimulates(s: State, p: Pid, child: Pid, s': State)
    requires EagerInv(s) && EagerFork(s, p, child, s')
    ensures EagerInv(s') && SpecNext(ViewOf(s), Fork(p, child), ViewOf(s'))
  {
    hide Observe, EagerCopied, EagerFork, RegionPages, Sound, Framed, Unshared, NoStoreFaults;
    hide CopiedPage, ViewOf, SpecNext;
    SoundIsFramed(s);
    EagerForkPages(s, p, child, s');
    EagerForkKeepsInv(s, p, child, s');
    ForkView(s, p, child, s');
  }

  lemma EagerForkPages(s: State, p: Pid, child: Pid, s': State)
    requires Framed(s) && EagerFork(s, p, child, s')
    ensures p in s.spaces && p in s.vmas && child !in s.spaces && s'.spaces.Keys == s.spaces.Keys + {child}
    ensures s'.vmas == s.vmas[child := s.vmas[p]] && forall q :: q in s.spaces ==> s'.spaces[q] == s.spaces[q]
    ensures s'.spaces[child].Keys == s.spaces[p].Keys
    ensures forall n :: n in s.spaces[p] ==> CopiedPage(s.mem, s'.mem, s.spaces[p][n], s'.spaces[child][n])
    ensures forall q :: q in s.spaces ==> Observe(s'.mem, s.spaces[q]) == Observe(s.mem, s.spaces[q])
    ensures Observe(s'.mem, s'.spaces[child]) == Observe(s.mem, s.spaces[p])
  {
    hide Framed, EagerCopied, RegionPages, CopiedPage, Observe;
    AllPagesInRegions(s, p);
    AllCopied(s.mem, s'.mem, s.spaces[p], s'.spaces[child]);
    CopyingLooksSame(s.mem, s'.mem, s.spaces[p], s'.spaces[child]);
    OldFramesLookSame(s, s'.mem);
  }

  lemma AllCopied(mem: Frames, mem': Frames, space: Space, copy: Space)
    requires EagerCopied(mem, mem', space, map[], copy, space.Keys)
    ensures copy.Keys == space.Keys && forall n :: n in space ==> CopiedPage(mem, mem', space[n], copy[n])
    ensures forall f :: f in mem ==> f in mem' && mem'[f] == mem[f]
  {
    hide CopiedPage;
  }

  lemma OldFramesLookSame(s: State, mem': Frames)
    requires Framed(s) && forall f :: f in s.mem ==> f in mem' && mem'[f] == s.mem[f]
    ensures forall q :: q in s.spaces ==> Observe(mem', s.spaces[q]) == Observe(s.mem, s.spaces[q])
  {
    hide Observe, Covered;
    forall q | q in s.spaces
      ensures Observe(mem', s.spaces[q]) == Observe(s.mem, s.spaces[q])
    {
      ObserveFrame(s.mem, mem', s.spaces[q]);
    }
  }

  lemma EagerForkKeepsInv(s: State, p: Pid, child: Pid, s': State)
    requires EagerInv(s) && EagerFork(s, p, child, s')
    requires s'.spaces[child].Keys == s.spaces[p].Keys
    requires forall n :: n in s.spaces[p] ==> CopiedPage(s.mem, s'.mem, s.spaces[p][n], s'.spaces[child][n])
    ensures EagerInv(s')
  {
    hide EagerCopied, Covered, Writable, CopiedPage;
    EagerForkSound(s, p, child, s');
    EagerForkUnshared(s, p, child, s');
    EagerForkNoFaults(s, p, child, s');
    hide EagerFork, Sound, Unshared, NoStoreFaults;
  }

  lemma EagerForkSound(s: State, p: Pid, child: Pid, s': State)
    requires Sound(s) && EagerFork(s, p, child, s')
    requires s'.spaces[child].Keys == s.spaces[p].Keys
    requires forall n :: n in s.spaces[p] ==> CopiedPage(s.mem, s'.mem, s.spaces[p][n], s'.spaces[child][n])
    ensures Sound(s')
  {
    hide Covered, Writable;
  }

  lemma EagerForkUnshared(s: State, p: Pid, child: Pid, s': State)
    requires Framed(s) && Unshared(s) && EagerFork(s, p, child, s')
    requires s'.spaces[child].Keys == s.spaces[p].Keys
    requires forall n :: n in s.spaces[p] ==> CopiedPage(s.mem, s'.mem, s.spaces[p][n], s'.spaces[child][n])
    ensures Unshared(s')
  {
    hide Covered;
  }

  lemma EagerForkNoFaults(s: State, p: Pid, child: Pid, s': State)
    requires NoStoreFaults(s) && EagerFork(s, p, child, s')
    requires s'.spaces[child].Keys == s.spaces[p].Keys
    requires forall n :: n in s.spaces[p] ==> CopiedPage(s.mem, s'.mem, s.spaces[p][n], s'.spaces[child][n])
    ensures NoStoreFaults(s')
  {
    hide Writable, EagerCopied;
  }

  lemma EagerNewFrame(s: State, p: Pid, n: nat, f: nat, contents: Page, perm: Perm)
    requires EagerInv(s) && p in s.spaces && n !in s.spaces[p] && f !in s.mem && Covered(s.vmas[p], n)
    requires perm.w <==> Writable(s.vmas[p], n)
    ensures EagerInv(WithNewFrame(s, p, n, f, contents, perm))
  {
    hide Covered, Writable, Sound, Unshared;
    NewFrameSound(s, p, n, f, contents, perm);
    NewFrameUnshared(s, p, n, f, contents, perm);
  }

  lemma NewFrameUnshared(s: State, p: Pid, n: nat, f: nat, contents: Page, perm: Perm)
    requires Sound(s) && Unshared(s) && p in s.spaces && f !in s.mem
    ensures Unshared(WithNewFrame(s, p, n, f, contents, perm))
  {
    hide Covered, Writable;
  }

  lemma EagerStore(s: State, p: Pid, addr: nat, b: Byte, s': State)
    requires EagerInv(s) && StoreAllowed(s, p, addr) && WriteThrough(s, p, addr, b, s')
    ensures EagerInv(s') && SpecNext(ViewOf(s), Store(p, addr, b), ViewOf(s'))
  {
    WriteView(s, p, addr, b, s');
    hide SpecNext, ViewOf, Covered, Writable;
  }

  /** Every step of the eager system keeps its invariant and is a step of the
      specification. */
  lemma EagerSimulates(s: State, e: Event, s': State)
    requires EagerInv(s) && EagerNext(s, e, s')
    ensures EagerInv(s') && SpecNext(ViewOf(s), e, ViewOf(s'))
  {
    hide Covered, Writable, ViewOf, Regions;
    match e
    case Exec(p, vmas) => ExecSimulates(s, p, vmas, s');
    case MapPage(p, n, perm, contents) =>
      var f := MapSimulates(s, p, n, perm, contents, s');
      EagerNewFrame(s, p, n, f, contents, perm);
    case Fork(p, child) => EagerForkSimulates(s, p, child, s');
    case Load(p, addr, b) => LoadSimulates(s, p, addr, b, s');
    case Store(p, addr, b) => EagerStore(s, p, addr, b, s');
    case Exit(p) => ExitSimulates(s, p, s');
  }

  // ----- Whatever the specification can do, both systems can do -----

  /** An eager copy of any set of pages exists. */
  lemma {:induction false} EagerCopyExists(mem: Frames, from: Space, s: set<nat>) returns (mem': Frames, to: Space)
    requires s <= from.Keys && forall n :: n in from ==> from[n].frame in mem
    ensures EagerCopied(mem, mem', from, map[], to, s)
  {
    if s == {} {
      mem', to := mem, map[];
    } else {
      var n :| n in s;
      var mem1, to1 := EagerCopyExists(mem, from, s - {n});
      UnusedExists(mem1.Keys);
      var f: nat :| f !in mem1;
      hide EagerCopied;
      KeepsFrames(mem, mem1, from, map[], to1, s - {n});
      mem', to := mem1[f := mem1[from[n].frame]], to1[n := MakePte(f, UserPerm(from[n]))];
      EagerOne(mem1, mem', from, to1, n, f);
      EagerCompose(mem, mem1, mem', from, map[], to1, to, s - {n}, {n});
      assert s - {n} + {n} == s;
    }
  }

  lemma ViewKeys(s: State)
    requires Sound(s)
    ensures ViewOf(s).vmas == s.vmas && ViewOf(s).pages.Keys == s.spaces.Keys
    ensures forall p :: p in s.spaces ==> ViewOf(s).pages[p].Keys == s.spaces[p].Keys
    ensures forall p, n :: p in s.spaces && n in s.spaces[p] ==>
              && ViewOf(s).pages[p][n].contents == s.mem[s.spaces[p][n].frame]
              && ViewOf(s).pages[p][n].r == s.spaces[p][n].r
  {
    hide Covered, Writable;
  }

  lemma MapEnabled(s: State, p: Pid, n: nat, perm: Perm, contents: Page, a': View)
    requires Sound(s) && SpecNext(ViewOf(s), MapPage(p, n, perm, contents), a')
    ensures exists s' :: MapStep(s, p, n, perm, contents, s')
  {
    ViewKeys(s);
    UnusedExists(s.mem.Keys);
    var f: nat :| f !in s.mem;
    hide Covered, Writable, ViewOf;
    assert MapStep(s, p, n, perm, contents, WithNewFrame(s, p, n, f, contents, perm));
  }

  lemma ExitEnabled(s: State, p: Pid)
    requires Sound(s) && p in s.spaces
    ensures exists s' :: ExitStep(s, p, s')
  {
    assert ExitStep(s, p, State(s.mem, s.vmas - {p}, s.spaces - {p}));
  }

  lemma CowStoreEnabled(s: State, p: Pid, addr: nat, b: Byte)
    requires CowInv(s) && StoreAllowed(s, p, addr)
    ensures exists s' :: CowStore(s, p, addr, b, s')
  {
    var n := PageOf(addr);
    var pte := s.spaces[p][n];
    if pte.w {
      var s' := s.(mem := s.mem[pte.frame := Written(s.mem[pte.frame], addr, b)]);
      assert WriteThrough(s, p, addr, b, s') && CowStore(s, p, addr, b, s');
    } else {
      UnusedExists(s.mem.Keys);
      var f: nat :| f !in s.mem;
      var m := WithNewFrame(s, p, n, f, s.mem[pte.frame], UserPerm(pte).(w := true));
      assert CowFault(s, p, n, m);
      var s' := m.(mem := m.mem[f := Written(m.mem[f], addr, b)]);
      assert WriteThrough(m, p, addr, b, s') && CowStore(s, p, addr, b, s');
    }
  }

  lemma CowEnabled(s: State, e: Event, a': View)
    requires CowInv(s) && SpecNext(ViewOf(s), e, a')
    ensures exists s' :: CowNext(s, e, s')
  {
    hide Covered, Writable, Regions, Exclusive, CowParent, CowChild, RegionPages;
    ViewKeys(s);
    hide ViewOf, Sound;
    match e
    case Exec(p, vmas) =>
      assert CowNext(s, e, s.(vmas := s.vmas[p := vmas], spaces := s.spaces[p := map[]]));
    case MapPage(p, n, perm, contents) =>
      MapEnabled(s, p, n, perm, contents, a');
      var s' :| MapStep(s, p, n, perm, contents, s');
      assert CowNext(s, e, s');
    case Fork(p, child) =>
      var pages := RegionPages(s.spaces[p], s.vmas[p]);
      assert CowNext(s, e, s.(vmas := s.vmas[child := s.vmas[p]],
        spaces := s.spaces[p := CowParent(s.spaces[p], pages)][child := CowChild(map[], s.spaces[p], pages)]));
    case Load(p, addr, b) =>
      LoadEnabled(s, p, addr, b, a');
      assert CowNext(s, e, s);
    case Store(p, addr, b) =>
      StoreIsAllowed(s, p, addr, b, a');
      CowStoreEnabled(s, p, addr, b);
      var s' :| CowStore(s, p, addr, b, s');
      assert CowNext(s, e, s');
    case Exit(p) =>
      ExitEnabled(s, p);
      var s' :| ExitStep(s, p, s');
      assert CowNext(s, e, s');
  }

  lemma LoadEnabled(s: State, p: Pid, addr: nat, b: Byte, a': View)
    requires Sound(s) && SpecNext(ViewOf(s), Load(p, addr, b), a')
    ensures LoadStep(s, p, addr, b, s)
  {
    ViewKeys(s);
  }

  lemma StoreIsAllowed(s: State, p: Pid, addr: nat, b: Byte, a': View)
    requires Sound(s) && SpecNext(ViewOf(s), Store(p, addr, b), a')
    ensures StoreAllowed(s, p, addr)
  {
    ViewKeys(s);
    hide ViewOf;
  }

  lemma EagerForkEnabled(s: State, p: Pid, child: Pid)
    requires Sound(s) && p in s.spaces && child !in s.spaces
    ensures exists s' :: EagerFork(s, p, child, s')
  {
    var pages := RegionPages(s.spaces[p], s.vmas[p]);
    var mem', to := EagerCopyExists(s.mem, s.spaces[p], pages);
    var s' := State(mem', s.vmas[child := s.vmas[p]], s.spaces[child := to]);
    hide EagerCopied, RegionPages;
    assert EagerFork(s, p, child, s');
  }

  lemma EagerEnabled(s: State, e: Event, a': View)
    requires EagerInv(s) && SpecNext(ViewOf(s), e, a')
    ensures exists s' :: EagerNext(s, e, s')
  {
    hide Covered, Writable, Regions, Unshared;
    ViewKeys(s);
    hide ViewOf, Sound;
    match e
    case Exec(p, vmas) =>
      assert EagerNext(s, e, s.(vmas := s.vmas[p := vmas], spaces := s.spaces[p := map[]]));
    case MapPage(p, n, perm, contents) =>
      MapEnabled(s, p, n, perm, contents, a');
      var s' :| MapStep(s, p, n, perm, contents, s');
      assert EagerNext(s, e, s');
    case Fork(p, child) =>
      EagerForkEnabled(s, p, child);
      var s' :| EagerFork(s, p, child, s');
      assert EagerNext(s, e, s');
    case Load(p, addr, b) =>
      LoadEnabled(s, p, addr, b, a');
      assert EagerNext(s, e, s);
    case Store(p, addr, b) =>
      StoreIsAllowed(s, p, addr, b, a');
      var f := s.spaces[p][PageOf(addr)].frame;
      assert EagerNext(s, e, s.(mem := s.mem[f := Written(s.mem[f], addr, b)]));
    case Exit(p) =>
      ExitEnabled(s, p);
      var s' :| ExitStep(s, p, s');
      assert EagerNext(s, e, s');
  }

  // ----- Whole runs -----

  ghost predicate CowRun(s: State, es: seq<Event>, t: State)
    decreases |es|
  {
    if es == [] then s == t else exists m :: CowNext(s, es[0], m) && CowRun(m, es[1..], t)
  }

  ghost predicate EagerRun(s: State, es: seq<Event>, t: State)
    decreases |es|
  {
    if es == [] then s == t else exists m :: EagerNext(s, es[0], m) && EagerRun(m, es[1..], t)
  }

  ghost predicate SpecRun(a: View, es: seq<Event>, c: View)
    decreases |es|
  {
    if es == [] then a == c else exists m :: SpecNext(a, es[0], m) && SpecRun(m, es[1..], c)
  }

  /** The specification is deterministic. */
  lemma SpecDeterministic(a: View, e: Event, b: View, c: View)
    requires SpecNext(a, e, b) && SpecNext(a, e, c)
    ensures b == c
  {
  }

  lemma {:induction false} SpecRunDeterministic(a: View, es: seq<Event>, b: View, c: View)
    requires SpecRun(a, es, b) && SpecRun(a, es, c)
    ensures b == c
    decreases |es|
  {
    hide SpecNext;
    if es != [] {
      var m :| SpecNext(a, es[0], m) && SpecRun(m, es[1..], b);
      var m' :| SpecNext(a, es[0], m') && SpecRun(m', es[1..], c);
      SpecDeterministic(a, es[0], m, m');
      SpecRunDeterministic(m, es[1..], b, c);
    }
  }

  lemma {:induction false} CowRunSound(s: State, es: seq<Event>, t: State)
    requires CowInv(s) && CowRun(s, es, t)
    ensures CowInv(t) && SpecRun(ViewOf(s), es, ViewOf(t))
    decreases |es|
  {
    hide CowInv, CowNext, SpecNext, ViewOf;
    if es != [] {
      var m :| CowNext(s, es[0], m) && CowRun(m, es[1..], t);
      CowSimulates(s, es[0], m);
      CowRunSound(m, es[1..], t);
    }
  }

  lemma {:induction false} CowRunComplete(s: State, es: seq<Event>, c: View) returns (t: State)
    requires CowInv(s) && SpecRun(ViewOf(s), es, c)
    ensures CowRun(s, es, t)
    decreases |es|
  {
    hide CowInv, CowNext, SpecNext, ViewOf;
    if es == [] {
      t := s;
    } else {
      var a :| SpecNext(ViewOf(s), es[0], a) && SpecRun(a, es[1..], c);
      CowEnabled(s, es[0], a);
      var m :| CowNext(s, es[0], m);
      CowSimulates(s, es[0], m);
      SpecDeterministic(ViewOf(s), es[0], a, ViewOf(m));
      t := CowRunComplete(m, es[1..], c);
    }
  }

  lemma {:induction false} EagerRunSound(s: State, es: seq<Event>, t: State)
    requires EagerInv(s) && EagerRun(s, es, t)
    ensures EagerInv(t) && SpecRun(ViewOf(s), es, ViewOf(t))
    decreases |es|
  {
    hide EagerInv, EagerNext, SpecNext, ViewOf;
    if es != [] {
      var m :| EagerNext(s, es[0], m) && EagerRun(m, es[1..], t);
      EagerSimulates(s, es[0], m);
      EagerRunSound(m, es[1..], t);
    }
  }

  lemma {:induction false} EagerRunComplete(s: State, es: seq<Event>, c: View) returns (t: State)
    requires EagerInv(s) && SpecRun(ViewOf(s), es, c)
    ensures EagerRun(s, es, t)
    decreases |es|
  {
    hide EagerInv, EagerNext, SpecNext, ViewOf;
    if es == [] {
      t := s;
    } else {
      var a :| SpecNext(ViewOf(s), es[0], a) && SpecRun(a, es[1..], c);
      EagerEnabled(s, es[0], a);
      var m :| EagerNext(s, es[0], m);
      EagerSimulates(s, es[0], m);
      SpecDeterministic(ViewOf(s), es[0], a, ViewOf(m));
      t := EagerRunComplete(m, es[1..], c);
    }
  }

  /** In every state that the copy-on-write system can reach, a frame that is
      mapped with the write bit is mapped by exactly one entry. */
  lemma CowExclusivity(es: seq<Event>, t: State)
    requires CowRun(INITIAL, es, t)
    ensures Exclusive(t)
  {
    CowRunSound(INITIAL, es, t);
  }

  /** In the eager system a store in a writable region never faults. */
  lemma EagerNeverFaults(es: seq<Event>, t: State)
    requires EagerRun(INITIAL, es, t)
    ensures forall p, addr :: StoreAllowed(t, p, addr) ==> t.spaces[p][PageOf(addr)].w
  {
    EagerRunSound(INITIAL, es, t);
  }

  /** The two systems have the same runs: every sequence of events, with the
      bytes that its loads return, is possible with copy-on-write fork exactly
      when it is possible with eager fork. */
  lemma SameRuns(es: seq<Event>)
    ensures (exists t :: CowRun(INITIAL, es, t)) <==> (exists t :: EagerRun(INITIAL, es, t))
  {
    assert CowInv(INITIAL) && EagerInv(INITIAL);
    hide CowInv, EagerInv, ViewOf;
    if exists t :: CowRun(INITIAL, es, t) {
      var t :| CowRun(INITIAL, es, t);
      CowRunSound(INITIAL, es, t);
      var t' := EagerRunComplete(INITIAL, es, ViewOf(t));
    }
    if exists t :: EagerRun(INITIAL, es, t) {
      var t :| EagerRun(INITIAL, es, t);
      EagerRunSound(INITIAL, es, t);
      var t' := CowRunComplete(INITIAL, es, ViewOf(t));
    }
  }
}
