/** What processes find in memory, told from the history of events alone: the byte at
    an address is the one last stored there by the process or, before the fork, by the
    process it descends from. */
module CowHistory {
  import opened Paging
  import opened CowMachine
  import opened Wrappers

  /** The byte that the events leave at an address of a process, if it has a page
      there. */
  function LastByte(es: seq<Event>, p: Pid, addr: nat): Option<Byte>
  {
    if es == [] then None
    else
      var before := es[..|es| - 1];
      match es[|es| - 1]
      case Store(q, a, b) => if q == p && a == addr then Some(b) else LastByte(before, p, addr)
      case MapPage(q, n, _, contents) =>
        if q == p && n == addr / PGSIZE then Some(contents[addr % PGSIZE]) else LastByte(before, p, addr)
      case Fork(q, child) => LastByte(before, if child == p then q else p, addr)
      case Exec(q, _) => if q == p then None else LastByte(before, p, addr)
      case Exit(q) => if q == p then None else LastByte(before, p, addr)
      case Load(_, _, _) => LastByte(before, p, addr)
  }

  /** The view has this byte there. */
  function ByteIn(a: View, p: Pid, addr: nat): Option<Byte>
    requires p in a.pages
  {
    if addr / PGSIZE in a.pages[p] then Some(a.pages[p][addr / PGSIZE].contents[addr % PGSIZE]) else None
  }

  ghost predicate Told(es: seq<Event>, a: View)
  {
    forall p, addr: nat :: p in a.pages ==> ByteIn(a, p, addr) == LastByte(es, p, addr)
  }

  /** A store changes the byte at its address, no other byte and no other process. */
  lemma StoreChangesOneByte(a: View, p: Pid, addr: nat, b: Byte, a': View)
    requires SpecNext(a, Event.Store(p, addr, b), a')
    ensures a'.pages.Keys == a.pages.Keys
    ensures forall q, addr': nat :: q in a.pages ==>
              ByteIn(a', q, addr') == if q == p && addr' == addr then Some(b) else ByteIn(a, q, addr')
  {
    forall q, addr': nat | q in a.pages
      ensures ByteIn(a', q, addr') == if q == p && addr' == addr then Some(b) else ByteIn(a, q, addr')
    {
      SameByte(addr, addr');
    }
  }

  lemma SameByte(addr: nat, addr': nat)
    ensures addr / PGSIZE == addr' / PGSIZE && addr % PGSIZE == addr' % PGSIZE <==> addr == addr'
  {
  }

  lemma TellsNext(es: seq<Event>, a: View, e: Event, a': View)
    requires Told(es, a) && SpecNext(a, e, a')
    ensures Told(es + [e], a')
  {
    assert (es + [e])[..|es|] == es;
    if e.Store? {
      StoreChangesOneByte(a, e.p, e.addr, e.b, a');
    }
    forall p, addr: nat | p in a'.pages
      ensures ByteIn(a', p, addr) == LastByte(es + [e], p, addr)
    {
      if e.Fork? && e.child == p {
        assert ByteIn(a, e.p, addr) == LastByte(es, e.p, addr);
      } else if p in a.pages {
        assert ByteIn(a, p, addr) == LastByte(es, p, addr);
      }
    }
  }

  lemma {:induction false} TellsRun(es: seq<Event>, a: View, es': seq<Event>, c: View)
    requires Told(es, a) && SpecRun(a, es', c)
    ensures Told(es + es', c)
    decreases |es'|
  {
    hide SpecNext, Told;
    if es' == [] {
      assert es + [] == es;
    } else {
      var m :| SpecNext(a, es'[0], m) && SpecRun(m, es'[1..], c);
      TellsNext(es, a, es'[0], m);
      TellsRun(es + [es'[0]], m, es'[1..], c);
      assert es + [es'[0]] + es'[1..] == es + es';
    }
  }

  /** In every run of the system with private memories, processes find what the
      history says. */
  lemma RunsTell(es: seq<Event>, a: View)
    requires SpecRun(ViewOf(INITIAL), es, a)
    ensures Told(es, a)
  {
    assert Told([], ViewOf(INITIAL));
    hide SpecRun, Told;
    TellsRun([], ViewOf(INITIAL), es, a);
    assert [] + es == es;
  }

  lemma LoadTold(es: seq<Event>, a: View, p: Pid, addr: nat, b: Byte, a': View)
    requires Told(es, a) && SpecNext(a, Event.Load(p, addr, b), a')
    ensures LastByte(es, p, addr) == Some(b)
  {
    assert ByteIn(a, p, addr) == Some(b);
  }

  /** With copy-on-write fork, a load returns the byte that was last stored at its
      address, by the process or by the one it was forked from, else what was mapped. */
  lemma CowLoadsLastStored(es: seq<Event>, s: State, p: Pid, addr: nat, b: Byte, t: State)
    requires CowRun(INITIAL, es, s) && CowNext(s, Event.Load(p, addr, b), t)
    ensures LastByte(es, p, addr) == Some(b)
  {
    assert CowInv(INITIAL);
    CowRunSound(INITIAL, es, s);
    CowSimulates(s, Event.Load(p, addr, b), t);
    hide CowRun, CowNext, CowInv, ViewOf, SpecRun, SpecNext, LastByte, Told;
    RunsTell(es, ViewOf(s));
    LoadTold(es, ViewOf(s), p, addr, b, ViewOf(t));
  }

  /** So it does with eager fork. */
  lemma EagerLoadsLastStored(es: seq<Event>, s: State, p: Pid, addr: nat, b: Byte, t: State)
    requires EagerRun(INITIAL, es, s) && EagerNext(s, Event.Load(p, addr, b), t)
    ensures LastByte(es, p, addr) == Some(b)
  {
    assert EagerInv(INITIAL);
    EagerRunSound(INITIAL, es, s);
    EagerSimulates(s, Event.Load(p, addr, b), t);
    hide EagerRun, EagerNext, EagerInv, ViewOf, SpecRun, SpecNext, LastByte, Told;
    RunsTell(es, ViewOf(s));
    LoadTold(es, ViewOf(s), p, addr, b, ViewOf(t));
  }
}
