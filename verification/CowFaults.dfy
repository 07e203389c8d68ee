/** Copy-on-write when processes also fault where they may not write. The fault
    handler does not look at the regions, and neither does the reason why frames
    mapped with the write bit are never shared. */
module CowFaults {
  import opened Paging
  import opened Mm
  import opened CowMachine

  /** The events of the copy-on-write system, and a fault on any page that is
      mapped without the write bit. */
  datatype WildEvent = Plain(e: Event) | Fault(p: Pid, n: nat)

  /** A store to any mapped page, in whatever region. */
  ghost predicate WildStore(s: State, p: Pid, addr: nat, b: Byte, s': State)
  {
    && Mapped(s, p, PageOf(addr))
    && if s.spaces[p][PageOf(addr)].w then WriteThrough(s, p, addr, b, s')
       else exists m :: CowFault(s, p, PageOf(addr), m) && WriteThrough(m, p, addr, b, s')
  }

  ghost predicate WildNext(s: State, e: WildEvent, s': State)
  {
    match e
    case Fault(p, n) => CowFault(s, p, n, s')
    case Plain(e) => if e.Store? then WildStore(s, e.p, e.addr, e.b, s') else CowNext(s, e, s')
  }

  ghost predicate WildRun(s: State, es: seq<WildEvent>, t: State)
    decreases |es|
  {
    if es == [] then s == t else exists m :: WildNext(s, es[0], m) && WildRun(m, es[1..], t)
  }

  // ----- Each step keeps frames exclusive -----

  lemma NewFrameKeeps(s: State, p: Pid, n: nat, f: nat, contents: Page, perm: Perm)
    requires Framed(s) && Exclusive(s) && p in s.spaces && f !in s.mem && Covered(s.vmas[p], n)
    ensures var s' := WithNewFrame(s, p, n, f, contents, perm); Framed(s') && Exclusive(s')
  {
    NewFrameExclusive(s, p, n, f, contents, perm);
    hide Exclusive, Covered;
  }

  lemma FaultKeeps(s: State, p: Pid, n: nat, s': State)
    requires Framed(s) && Exclusive(s) && CowFault(s, p, n, s')
    ensures Framed(s') && Exclusive(s')
  {
    var pte := s.spaces[p][n];
    var perm := UserPerm(pte).(w := true);
    var f: nat :| f !in s.mem && s' == WithNewFrame(s, p, n, f, s.mem[pte.frame], perm);
    NewFrameKeeps(s, p, n, f, s.mem[pte.frame], perm);
  }

  lemma WriteKeeps(s: State, p: Pid, addr: nat, b: Byte, s': State)
    requires Framed(s) && Exclusive(s) && WriteThrough(s, p, addr, b, s')
    ensures Framed(s') && Exclusive(s')
  {
    hide Covered;
  }

  lemma ForkKeeps(s: State, p: Pid, child: Pid, s': State)
    requires Framed(s) && Exclusive(s) && CowFork(s, p, child, s')
    ensures Framed(s') && Exclusive(s')
  {
    hide CowFork, Framed, Exclusive, ReadOnlyCopy, Observe;
    ForkedSpaces(s, p, child, s');
    CowForkExclusive(s, p, child, s');
    ForkFramed(s, p, child, s');
  }

  lemma ForkFramed(s: State, p: Pid, child: Pid, s': State)
    requires Framed(s) && p in s.spaces && child !in s.spaces && s'.spaces.Keys == s.spaces.Keys + {child}
    requires ReadOnlyCopy(s'.spaces[p], s.spaces[p]) && ReadOnlyCopy(s'.spaces[child], s.spaces[p])
    requires forall q :: q in s.spaces && q != p ==> s'.spaces[q] == s.spaces[q]
    requires s'.vmas == s.vmas[child := s.vmas[p]] && s'.mem == s.mem
    ensures Framed(s')
  {
    hide Covered;
  }

  lemma StoreKeeps(s: State, p: Pid, addr: nat, b: Byte, s': State)
    requires Framed(s) && Exclusive(s) && WildStore(s, p, addr, b, s')
    ensures Framed(s') && Exclusive(s')
  {
    hide Framed, Exclusive, CowFault, WriteThrough;
    if s.spaces[p][PageOf(addr)].w {
      WriteKeeps(s, p, addr, b, s');
    } else {
      var m :| CowFault(s, p, PageOf(addr), m) && WriteThrough(m, p, addr, b, s');
      FaultKeeps(s, p, PageOf(addr), m);
      WriteKeeps(m, p, addr, b, s');
    }
  }

  lemma ExitKeeps(s: State, p: Pid, s': State)
    requires Framed(s) && Exclusive(s) && ExitStep(s, p, s')
    ensures Framed(s') && Exclusive(s')
  {
    forall q, n | q in s'.spaces && n in s'.spaces[q]
      ensures s'.spaces[q][n].frame in s'.mem && Covered(s'.vmas[q], n)
    {
      assert InUse(s'.spaces, s'.spaces[q][n].frame);
    }
  }

  lemma MapKeeps(s: State, p: Pid, n: nat, perm: Perm, contents: Page, s': State)
    requires Framed(s) && Exclusive(s) && MapStep(s, p, n, perm, contents, s')
    ensures Framed(s') && Exclusive(s')
  {
    var f: nat :| f !in s.mem && s' == WithNewFrame(s, p, n, f, contents, perm);
    NewFrameKeeps(s, p, n, f, contents, perm);
  }

  lemma WildKeeps(s: State, e: WildEvent, s': State)
    requires Framed(s) && Exclusive(s) && WildNext(s, e, s')
    ensures Framed(s') && Exclusive(s')
  {
    match e
    case Fault(p, n) => FaultKeeps(s, p, n, s');
    case Plain(Exec(_, _)) =>
    case Plain(MapPage(p, n, perm, contents)) => MapKeeps(s, p, n, perm, contents, s');
    case Plain(Fork(p, child)) => ForkKeeps(s, p, child, s');
    case Plain(Load(_, _, _)) =>
    case Plain(Store(p, addr, b)) => StoreKeeps(s, p, addr, b, s');
    case Plain(Exit(p)) => ExitKeeps(s, p, s');
  }

  lemma {:induction false} WildRunKeeps(s: State, es: seq<WildEvent>, t: State)
    requires Framed(s) && Exclusive(s) && WildRun(s, es, t)
    ensures Framed(t) && Exclusive(t)
    decreases |es|
  {
    hide Framed, Exclusive, WildNext;
    if es != [] {
      var m :| WildNext(s, es[0], m) && WildRun(m, es[1..], t);
      WildKeeps(s, es[0], m);
      WildRunKeeps(m, es[1..], t);
    }
  }

  /** In every state that can be reached, whatever the processes store to or fault
      on, a frame that is mapped with the write bit is mapped by one entry only. */
  lemma WildExclusivity(es: seq<WildEvent>, t: State)
    requires WildRun(INITIAL, es, t)
    ensures Exclusive(t)
  {
    WildRunKeeps(INITIAL, es, t);
  }

  function Plains(es: seq<Event>): (r: seq<WildEvent>)
    ensures |r| == |es|
  {
    if es == [] then [] else [Plain(es[0])] + Plains(es[1..])
  }

  /** The runs of the copy-on-write system are among them. */
  lemma {:induction false} RunsAreWild(s: State, es: seq<Event>, t: State)
    requires CowRun(s, es, t)
    ensures WildRun(s, Plains(es), t)
    decreases |es|
  {
    if es != [] {
      var m :| CowNext(s, es[0], m) && CowRun(m, es[1..], t);
      RunsAreWild(m, es[1..], t);
      assert WildNext(s, Plain(es[0]), m);
      assert Plains(es)[1..] == Plains(es[1..]);
    }
  }

  // ----- A fault outside of writable regions -----

  const READ_ONLY := Vma(0x20_0000, 0x20_1000, false)
  const READABLE := Perm(true, false, true, true)
  const ZEROS: Page := seq(PGSIZE, _ => 0)

  /** A process with one page, in a region that it may not write. */
  const ONE_PAGE := State(map[0 := ZEROS], map[0 := [READ_ONLY]], map[0 := map[512 := MakePte(0, READABLE)]])

  /** After a store to it the page is writable: the handler has not asked the
      region. This state can be reached, and it fails the condition under which
      the handler keeps write bits confined. */
  lemma ReadOnlyPageBecomesWritable() returns (s': State)
    ensures CowRun(INITIAL, [Exec(0, [READ_ONLY]), MapPage(0, 512, READABLE, ZEROS)], ONE_PAGE)
    ensures CowFault(ONE_PAGE, 0, 512, s') && s'.spaces[0][512].w && !Writable(s'.vmas[0], 512) && !Sound(s')
  {
    var started := State(map[], map[0 := [READ_ONLY]], map[0 := map[]]);
    assert Covers(READ_ONLY, 512) && WellFormed(READ_ONLY);
    assert Covered([READ_ONLY], 512) && !Writable([READ_ONLY], 512);
    assert ExecStep(INITIAL, 0, [READ_ONLY], started);
    assert ONE_PAGE == WithNewFrame(started, 0, 512, 0, ZEROS, READABLE);
    assert MapStep(started, 0, 512, READABLE, ZEROS, ONE_PAGE);
    var es := [Exec(0, [READ_ONLY]), MapPage(0, 512, READABLE, ZEROS)];
    assert es[1..] == [MapPage(0, 512, READABLE, ZEROS)] && es[1..][1..] == [];
    assert CowNext(INITIAL, es[0], started) && CowNext(started, es[1..][0], ONE_PAGE);
    assert CowRun(ONE_PAGE, es[1..][1..], ONE_PAGE);
    assert CowRun(started, es[1..], ONE_PAGE);
    s' := WithNewFrame(ONE_PAGE, 0, 512, 1, ZEROS, UserPerm(MakePte(0, READABLE)).(w := true));
  }
}
