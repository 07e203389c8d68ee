/** The process table of the kernel. Every operation is proved to do to the linked
    records what ProcSpec says, and to keep its invariant. */
module Proc {
  import opened PidAlloc
  import opened ProcLinks
  import opened ProcSpec
  import opened Wrappers

  const MAX_PROCESS := 4096
  const E_BAD_PROC := 2
  const E_INVAL := 3
  const E_NO_FREE_PROC := 5

  /** Where do_wait is to store the exit code. */
  datatype CodeStore = NoStore | Writable | Invalid

  datatype Answer = Returns(value: int, stored: Option<int>) | Scheduled | Panics

  function AnswerOf(codeStore: CodeStore, r: WaitResult<ProcStruct>): Answer
  {
    match r
    case Reaped(_, code) => Returns(0, if codeStore.NoStore? then None else Some(code))
    case Asleep => Scheduled
    case BadProc => Returns(-E_BAD_PROC, None)
  }

  /** What the caller of do_wait learns, in terms of the processes as they were: 0
      exactly if a child that matches is a zombie, and then this child's own exit code
      is stored if it is asked for; the error exactly if no child matches. */
  ghost predicate Informs(s: State<ProcStruct>, cur: ProcStruct, target: int, codeStore: CodeStore,
                          r: WaitResult<ProcStruct>, a: Answer)
  {
    && !a.Panics?
    && (a.Scheduled? <==> Matching(s, cur, target) && !MatchingZombie(s, cur, target))
    && (a.Returns? && a.value == 0 <==> MatchingZombie(s, cur, target))
    && (a.Returns? && a.value == -E_BAD_PROC <==> !Matching(s, cur, target))
    && (a.Returns? && a.value == 0 ==>
          && r.Reaped? && Matches(s, cur, target, r.child) && s.procs[r.child].state == Zombie
          && a.stored == if codeStore.NoStore? then None else Some(s.procs[r.child].exitCode))
    && (a.Returns? && a.value != 0 ==> a.stored == None)
  }

  lemma AnswerInforms(s: State<ProcStruct>, cur: ProcStruct, target: int, codeStore: CodeStore,
                      r: WaitResult<ProcStruct>)
    requires WaitAnswer(s, cur, target, r)
    ensures Informs(s, cur, target, codeStore, r, AnswerOf(codeStore, r))
  {
  }

  // ----- The process list -----

  function PidsOf(ps: seq<ProcStruct>): seq<int>
    reads ps`pid
  {
    if ps == [] then [] else [ps[0].pid] + PidsOf(ps[1..])
  }

  lemma {:induction false} PidsOfElems(ps: seq<ProcStruct>)
    ensures forall i :: 0 <= i < |ps| ==> ps[i].pid in PidsOf(ps)
    ensures forall q :: q in PidsOf(ps) ==> exists i :: 0 <= i < |ps| && ps[i].pid == q
    ensures |PidsOf(ps)| == |ps|
  {
    if ps != [] {
      var rest := ps[1..];
      PidsOfElems(rest);
      forall i | 0 <= i < |ps|
        ensures ps[i].pid in PidsOf(ps)
      {
        assert i > 0 ==> ps[i] == rest[i - 1];
      }
      forall q | q in PidsOf(ps)
        ensures exists i :: 0 <= i < |ps| && ps[i].pid == q
      {
        if q != ps[0].pid {
          var i :| 0 <= i < |rest| && rest[i].pid == q;
          assert ps[i + 1].pid == q;
        }
      }
    }
  }

  lemma UnlistFacts(ps: seq<ProcStruct>, p: ProcStruct)
    requires NoDuplicates(ps) && p in ps
    ensures |Without(ps, p)| == |ps| - 1 && NoDuplicates(Without(ps, p))
    ensures forall x :: x in ps && x != p ==> x in Without(ps, p)
    ensures forall i :: 0 <= i < |Without(ps, p)| ==> Without(ps, p)[i] in ps && Without(ps, p)[i] != p
  {
    var i :| 0 <= i < |ps| && ps[i] == p;
    CutIsWithout(ps, i);
    WithoutElems(ps, p);
  }

  // ----- The steps of do_exit and do_wait on values -----

  /** do_exit before its loop: cur is a zombie, and its parent is awake. */
  function BuriedProc(s: State<ProcStruct>, cur: ProcStruct, code: int, p: ProcStruct): Proc<ProcStruct>
    requires cur in s.procs && p in s.procs
  {
    if p == cur then s.procs[p].(state := Zombie, exitCode := code)
    else if s.procs[cur].parent == Some(p) && s.procs[p].wtChild then WokenUp(s.procs[p])
    else s.procs[p]
  }

  function Buried(s: State<ProcStruct>, cur: ProcStruct, code: int): State<ProcStruct>
    requires cur in s.procs
  {
    s.(procs := map p | p in s.procs :: BuriedProc(s, cur, code, p))
  }

  /** The loop of do_exit: the children of cur belong to init. */
  function AdoptedProc(s: State<ProcStruct>, cur: ProcStruct, p: ProcStruct): Proc<ProcStruct>
    requires cur in s.procs && p in s.procs
  {
    var moved, r := s.procs[cur].kids, s.procs[p];
    var woken := p == s.init && r.wtChild && HasZombie(s, moved);
    Proc(r.pid, if woken then Runnable else r.state, r.wtChild && !woken, r.context, r.exiting, r.exitCode,
         if p in moved then Some(s.init) else r.parent,
         if p == cur then [] else if p == s.init then Reverse(moved) + r.kids else r.kids)
  }

  function Adopted(s: State<ProcStruct>, cur: ProcStruct): State<ProcStruct>
    requires cur in s.procs
  {
    s.(procs := map p | p in s.procs :: AdoptedProc(s, cur, p))
  }

  lemma BuriedZombies(s: State<ProcStruct>, cur: ProcStruct, code: int)
    requires cur in s.procs && cur !in s.procs[cur].kids
    requires forall p :: p in s.procs && s.procs[p].wtChild ==> s.procs[p].state == Sleeping
    ensures HasZombie(Buried(s, cur, code), s.procs[cur].kids) <==> HasZombie(s, s.procs[cur].kids)
  {
    assert forall k :: k in s.procs && k != cur ==>
      (BuriedProc(s, cur, code, k).state == Zombie <==> s.procs[k].state == Zombie);
  }

  lemma ExitSteps(s: State<ProcStruct>, cur: ProcStruct, code: int)
    requires cur in s.procs && cur != s.init && cur !in s.procs[cur].kids && s.procs[cur].parent != Some(cur)
    requires forall p :: p in s.procs && s.procs[p].wtChild ==> s.procs[p].state == Sleeping
    ensures Exit(s, cur, code) == Adopted(Buried(s, cur, code), cur)
  {
    forall p | p in s.procs
      ensures ExitProc(s, cur, code, p) == AdoptedProc(Buried(s, cur, code), cur, p)
    {
      ExitStepsOf(s, cur, code, p);
    }
    hide ExitProc, AdoptedProc;
  }

  lemma ExitStepsOf(s: State<ProcStruct>, cur: ProcStruct, code: int, p: ProcStruct)
    requires cur in s.procs && cur != s.init && cur !in s.procs[cur].kids && s.procs[cur].parent != Some(cur)
    requires forall p :: p in s.procs && s.procs[p].wtChild ==> s.procs[p].state == Sleeping
    requires p in s.procs
    ensures ExitProc(s, cur, code, p) == AdoptedProc(Buried(s, cur, code), cur, p)
  {
    BuriedZombies(s, cur, code);
    hide HasZombie, Reverse;
  }

  /** do_wait: a child is gone from the table and from the list of its parent. */
  function Dropped(s: State<ProcStruct>, cur: ProcStruct, child: ProcStruct): State<ProcStruct>
    requires cur in s.procs
  {
    s.(procs := s.procs[cur := s.procs[cur].(kids := Without(s.procs[cur].kids, child))] - {child})
  }

  lemma BootedTable(idle: ProcStruct, init: ProcStruct, procs: map<ProcStruct, Proc<ProcStruct>>)
    requires idle != init && procs.Keys == {idle, init}
    requires procs[idle] == Proc(0, Runnable, false, Outside, false, 0, None, [init]) && procs[init] == NewProc(1, idle)
    ensures State(procs, idle, init) == Booted(idle, init)
  {
  }

  lemma ForkAllowed(s: State<ProcStruct>, cur: ProcStruct, child: ProcStruct, last: int, numbers: seq<int>, pid: int)
    requires cur in s.procs && s.procs[cur].state == Runnable && child !in s.procs && NextFree(last, numbers, pid)
    requires forall p :: p in s.procs ==> s.procs[p].pid == 0 || s.procs[p].pid in numbers
    ensures ForkGuard(s, cur, child, pid)
  {
  }

  // ----- The kernel -----

  class Kernel {
    const idleproc: ProcStruct
    const initproc: ProcStruct
    var current: ProcStruct
    var nrProcess: int
    /** The hash table from process numbers to records. */
    var hash: map<int, ProcStruct>
    /** The list of all processes but idle. */
    var procList: seq<ProcStruct>
    const pids: PidAllocator
    ghost var all: set<ProcStruct>
    ghost var kids: Kids

    ghost predicate Linked()
      reads `all, `kids, all`cptr, all`parent, all`optr, all`yptr
    {
      && kids.Keys == all && Lists(kids)
      && forall p :: p in all ==> Threaded(p, p.cptr, kids[p], false)
    }

    ghost predicate Hashed()
      reads `all, `hash, all`pid
    {
      && (forall p :: p in all && p != idleproc ==> p.pid in hash && hash[p.pid] == p)
      && (forall n :: n in hash ==> hash[n] in all && hash[n] != idleproc && hash[n].pid == n)
    }

    /** The process list holds every process but idle, once. */
    ghost predicate Enumerated()
      reads `all, `procList, `nrProcess
    {
      && NoDuplicates(procList) && nrProcess == |all| == |procList| + 1
      && (forall p :: p in procList ==> p in all && p != idleproc)
      && (forall p :: p in all && p != idleproc ==> p in procList)
    }

    /** The bound of get_pid is right about it, too. */
    ghost predicate Listed()
      reads `all, `procList, `nrProcess, procList`pid, pids
    {
      Enumerated() && pids.Valid(PidsOf(procList))
    }

    ghost predicate Valid()
      reads this, all, pids, procList
      ensures Valid() ==> kids.Keys == all
    {
      && idleproc in all && initproc in all && current in all
      && kids.Keys == all && Linked() && Hashed() && Listed()
    }

    ghost function Record(p: ProcStruct): Proc<ProcStruct>
      requires p in kids
      reads `kids, p
    {
      Proc(p.pid, p.state, p.wtChild, p.context, p.exiting, p.exitCode, Maybe(p.parent), kids[p])
    }

    ghost function Abs(): State<ProcStruct>
      requires kids.Keys == all
      reads `all, `kids, all
    {
      State(map p | p in all :: Record(p), idleproc, initproc)
    }

    /** The processes are as in s. */
    ghost predicate Represents(s: State<ProcStruct>)
      reads `all, `kids, all
    {
      && kids.Keys == all && s.procs.Keys == all && s.idle == idleproc && s.init == initproc
      && forall p :: p in all ==> s.procs[p] == Record(p)
    }

    /** proc_init: idle creates init. */
    constructor ()
      ensures Valid() && fresh(all) && fresh(pids) && current == idleproc && idleproc != initproc
      ensures Abs() == Booted(idleproc, initproc) && Inv(Abs()) && procList == [initproc]
    {
      hide Threaded, Lists, Booted, NextFree, Linked, Hashed, Listed, Valid, Abs, Record, Inv;
      var idle := new ProcStruct();
      var init := new ProcStruct();
      var allocator := new PidAllocator();
      var first := allocator.GetPid([]);
      FirstNumber(first);
      idle.pid, init.pid := 0, first;
      idle.state, init.state := Runnable, Runnable;
      init.parent, idle.cptr := idle, init;
      idleproc, initproc, current := idle, init, idle;
      nrProcess := 2;
      hash := map[1 := init];
      procList := [init];
      pids := allocator;
      all := {idle, init};
      kids := map[idle := [init], init := []];
      new;
      BootedKernel(this);
      BootedInv(idleproc, initproc);
    }

    // ----- The lists of children -----

    /** set_links: proc becomes the youngest child of its parent. */
    method SetLinks(proc: ProcStruct)
      requires Linked() && proc !in all && proc.parent != null && proc.parent in all && proc.cptr == null
      modifies `nrProcess, `procList, `all, `kids, proc`yptr, proc`optr, all`yptr, proc.parent`cptr
      ensures nrProcess == old(nrProcess) + 1 && procList == [proc] + old(procList) && all == old(all) + {proc}
      ensures kids == Push(old(kids), proc.parent, proc)
      ensures Linked()
    {
      hide NoDuplicates, Threaded;
      var par := proc.parent;
      ghost var siblings := kids[par];
      ListsPush(kids, par, proc);
      NotInLists(kids, par, proc);
      ListsApart(kids, par, proc);
      hide Lists;
      assert OthersThreaded(kids, par, all);
      PushFront(proc, par, siblings, kids, all);
      procList := [proc] + procList;
      nrProcess := nrProcess + 1;
      all := all + {proc};
      kids := Push(kids, par, proc);
      NoChildren(proc);
    }

    /** remove_links: proc, which has no children, leaves its parent's list. */
    method RemoveLinks(proc: ProcStruct)
      requires Linked() && proc in all && proc.parent != null && proc.parent in all && proc.parent != proc
      requires proc in kids[proc.parent] && kids[proc] == []
      modifies `nrProcess, `procList, `all, `kids, all`optr, all`yptr, proc.parent`cptr
      ensures nrProcess == old(nrProcess) - 1 && procList == Without(old(procList), proc) && all == old(all) - {proc}
      ensures kids == old(kids)[proc.parent := Without(old(kids)[proc.parent], proc)] - {proc}
      ensures Linked()
    {
      hide NoDuplicates, Threaded, Cut, Without;
      var par := proc.parent;
      ghost var ps := kids[par];
      ghost var i :| 0 <= i < |ps| && ps[i] == proc;
      InLists(kids, par);
      NeighboursInList(ps, i);
      CutIsWithout(ps, i);
      ListsCut(kids, par, proc);
      hide Lists;
      assert OthersThreaded(kids, par, all);
      UnlinkAmong(proc, par, ps, i, kids, all);
      procList := Without(procList, proc);
      nrProcess := nrProcess - 1;
      all := all - {proc};
      kids := kids[par := Without(ps, proc)] - {proc};
    }

    // ----- Giving the children to init -----

    /** The loop of do_exit. */
    method GiveChildrenToInit()
      requires Linked() && Hashed() && current in all && initproc in all && current != initproc
      requires initproc !in kids[current]
      requires initproc.state != Zombie && (initproc.wtChild <==> initproc.state == Sleeping)
      modifies `kids, current`cptr, initproc`cptr, initproc`state, initproc`wtChild, all`yptr, all`optr, all`parent
      ensures Linked() && Hashed() && kids == old(GivenAway(kids, current, initproc))
      ensures forall p :: p in all ==> p.parent == if p in old(kids[current]) then initproc else old(p.parent)
      ensures initproc.wtChild ==
              (old(initproc.wtChild) && forall k :: k in old(kids[current]) ==> old(k.state) != Zombie)
      ensures initproc.state == if initproc.wtChild == old(initproc.wtChild) then old(initproc.state) else Runnable
    {
      hide Threaded, NoDuplicates, Moving, OthersThreaded, Reverse, Lists, GivenAway;
      StartMoving(current, initproc, all, kids);
      AdoptionLoop(current, initproc, kids[current], kids[initproc], kids - {initproc}, all);
      DoneMoving(current, initproc, all, kids);
      kids := GivenAway(kids, current, initproc);
    }

    /** It does this to the processes. */
    method GiveAway(ghost s: State<ProcStruct>)
      requires Linked() && Hashed() && Represents(s) && current in all && initproc in all && current != initproc
      requires initproc !in kids[current] && forall k :: k in kids[current] ==> k in all
      requires initproc.state != Zombie && (initproc.wtChild <==> initproc.state == Sleeping)
      modifies `kids, current`cptr, initproc`cptr, initproc`state, initproc`wtChild, all`yptr, all`optr, all`parent
      ensures Linked() && Hashed() && Represents(Adopted(s, current))
    {
      hide Linked, Hashed, Reverse;
      ghost var moved, zombie := kids[current], HasZombie(s, kids[current]);
      assert zombie <==> !forall k :: k in moved ==> k.state != Zombie;
      hide HasZombie, AdoptedProc;
      GiveChildrenToInit();
      forall p | p in all
        ensures && p.pid == s.procs[p].pid && p.exiting == s.procs[p].exiting && p.exitCode == s.procs[p].exitCode
                && p.context == s.procs[p].context
        ensures Maybe(p.parent) == if p in moved then Some(initproc) else s.procs[p].parent
        ensures p != initproc ==> p.state == s.procs[p].state && p.wtChild == s.procs[p].wtChild
      {
        assert s.procs[p] == old(Record(p));
      }
      hide Represents, Record;
      AdoptedRecords(this, s);
    }

    // ----- do_exit -----

    /** do_exit, up to the call of schedule. */
    method DoExit(errorCode: int)
      requires Valid() && Inv(Abs()) && ExitGuard(Abs(), current)
      modifies `kids, all`state, all`wtChild, all`exitCode, all`parent, all`cptr, all`optr, all`yptr
      ensures Valid() && Abs() == old(Exit(Abs(), current, errorCode)) && Inv(Abs())
    {
      hide Inv, ExitGuard, Linked, Hashed, Exit, Buried, Adopted, Record, Represents, Abs;
      ghost var s := Abs();
      AbsRepresents(this);
      ExitFacts(this);
      ExitInSteps(this, errorCode);
      ExitKeepsInv(s, current, errorCode);
      ExitRecords(errorCode, s);
      RepresentsAbs(this, Exit(s, current, errorCode));
    }

    method ExitRecords(errorCode: int, ghost s: State<ProcStruct>)
      requires Linked() && Hashed() && Represents(s) && current in all && initproc in all && current != initproc
      requires current in s.procs && current in kids && initproc !in kids[current]
      requires forall k :: k in kids[current] ==> k in all
      requires current.parent != null && current.parent in all && current.parent != current
      requires current.parent.wtChild ==> current.parent.state == Sleeping
      requires initproc.state != Zombie && (initproc.wtChild <==> initproc.state == Sleeping)
      modifies `kids, all`state, all`wtChild, all`exitCode, all`parent, all`cptr, all`optr, all`yptr
      ensures Linked() && Hashed() && Represents(Adopted(Buried(s, current, errorCode), current))
    {
      hide Linked, Hashed, Buried, Adopted, Record, Represents;
      BuryRecords(errorCode, s);
      GiveAway(Buried(s, current, errorCode));
    }

    method BuryRecords(errorCode: int, ghost s: State<ProcStruct>)
      requires Linked() && Hashed() && Represents(s) && current in all
      requires current.parent != null && current.parent in all && current.parent != current
      requires current.parent.wtChild ==> current.parent.state == Sleeping
      requires initproc != current && initproc.state != Zombie && (initproc.wtChild <==> initproc.state == Sleeping)
      modifies current`state, current`exitCode, current.parent`state, current.parent`wtChild
      ensures Linked() && Hashed() && Represents(Buried(s, current, errorCode))
      ensures initproc.state != Zombie && (initproc.wtChild <==> initproc.state == Sleeping)
    {
      hide Linked, Hashed;
      Bury(errorCode);
      forall p | p in all
        ensures Record(p) == BuriedProc(s, current, errorCode, p)
      {
      }
    }

    /** The part of do_exit before the loop. */
    method Bury(errorCode: int)
      requires Linked() && Hashed() && current.parent != null && current.parent != current
      requires current.parent.wtChild ==> current.parent.state == Sleeping
      modifies current`state, current`exitCode, current.parent`state, current.parent`wtChild
      ensures Linked() && Hashed()
      ensures current.state == Zombie && current.exitCode == errorCode && !current.parent.wtChild
      ensures current.parent.state == if old(current.parent.wtChild) then Runnable else old(current.parent.state)
    {
      hide Threaded, Lists;
      current.state := Zombie;
      current.exitCode := errorCode;
      var proc := current.parent;
      if proc.wtChild {
        WakeupProc(proc);
      }
    }

    // ----- do_kill -----

    /** find_proc. */
    method FindProc(pid: int) returns (proc: ProcStruct?)
      requires Valid() && Numbers(Abs())
      ensures proc != null ==> proc in all && proc != idleproc && proc.pid == pid
      ensures proc == null ==> forall p :: p in all && p != idleproc ==> p.pid != pid
    {
      NumbersFacts(this);
      if 0 < pid < MAX_PID && pid in hash {
        proc := hash[pid];
      } else {
        proc := null;
      }
    }

    /** do_kill; target is the process that it finds. */
    method DoKill(pid: int) returns (ret: int, ghost target: ProcStruct?)
      requires Valid() && Inv(Abs())
      modifies all`exiting, all`state, all`wtChild
      ensures Valid()
      ensures target != null ==> target in all && target != idleproc && target.pid == pid
      ensures target == null ==> forall p :: p in all && p != idleproc ==> p.pid != pid
      ensures ret == if target == null then -E_INVAL else if old(target.exiting) then -E_KILLED else 0
      ensures Abs() == (if ret == 0 then old(Killed(Abs(), target)) else old(Abs())) && Inv(Abs())
    {
      hide Linked, Hashed, Listed, Inv, Killed, Represents, Numbers, Abs;
      ghost var s := Abs();
      StatesFacts(this);
      var proc := FindProc(pid);
      target := proc;
      if proc != null {
        if !proc.exiting {
          KillKeepsInv(s, proc);
          KillRecord(proc, s);
          RepresentsAbs(this, Killed(s, proc));
          return 0, target;
        }
        return -E_KILLED, target;
      }
      ret := -E_INVAL;
    }

    method KillRecord(proc: ProcStruct, ghost s: State<ProcStruct>)
      requires Linked() && Hashed() && Listed() && Represents(s) && proc in all && !proc.exiting
      requires proc.wtChild ==> proc.state == Sleeping
      modifies proc`exiting, proc`state, proc`wtChild
      ensures Linked() && Hashed() && Listed() && Represents(Killed(s, proc))
    {
      hide Linked, Hashed, Listed;
      Kill(proc);
      assert Record(proc) == Killed(s, proc).procs[proc];
      forall p | p in all && p != proc
        ensures Record(p) == s.procs[p]
      {
      }
    }

    method Kill(proc: ProcStruct)
      requires Linked() && Hashed() && Listed() && proc in all && (proc.wtChild ==> proc.state == Sleeping)
      modifies proc`exiting, proc`state, proc`wtChild
      ensures Linked() && Hashed() && Listed()
      ensures proc.exiting && !proc.wtChild && proc.state == if old(proc.wtChild) then Runnable else old(proc.state)
    {
      hide Threaded, Lists, NoDuplicates, PidsOf;
      proc.exiting := true;
      if proc.wtChild {
        WakeupProc(proc);
      }
    }

    // ----- do_wait -----

    /** The search of do_wait for a zombie among all children. */
    method FindAny() returns (found: ProcStruct?, haskid: bool)
      requires Linked() && current in all
      ensures found != null ==> found in kids[current] && found.state == Zombie
      ensures found == null ==>
              (forall k :: k in kids[current] ==> k.state != Zombie) && (haskid <==> kids[current] != [])
    {
      ghost var ps, i := kids[current], 0;
      haskid := false;
      var proc := current.cptr;
      while proc != null
        invariant 0 <= i <= |ps| && proc == At(ps, i) && (haskid <==> i > 0)
        invariant forall j :: 0 <= j < i ==> ps[j].state != Zombie
        decreases |ps| - i
      {
        haskid := true;
        if proc.state == Zombie {
          return proc, haskid;
        }
        proc := proc.optr;
        i := i + 1;
      }
      found := null;
    }

    /** The search of do_wait for one child. */
    method FindOne(pid: int) returns (found: ProcStruct?, haskid: bool)
      requires Valid() && Inv(Abs())
      ensures found != null ==> found in kids[current] && found.pid == pid && found.state == Zombie
      ensures found == null ==> forall k :: k in kids[current] && k.pid == pid ==> k.state != Zombie
      ensures found == null ==> (haskid <==> exists k :: k in kids[current] && k.pid == pid)
    {
      hide Linked, Hashed, Listed, Inv, Abs, Represents, Numbers;
      StatesFacts(this);
      haskid := false;
      var proc := FindProc(pid);
      OneChild(this, pid, proc);
      if proc != null && proc.parent == current {
        haskid := true;
        if proc.state == Zombie {
          return proc, haskid;
        }
      }
      found := null;
    }

    method FindZombie(pid: int) returns (found: ProcStruct?, haskid: bool)
      requires Valid() && Inv(Abs())
      ensures found != null ==> Matches(Abs(), current, pid, found) && Abs().procs[found].state == Zombie
      ensures found == null ==> !MatchingZombie(Abs(), current, pid) && (haskid <==> Matching(Abs(), current, pid))
    {
      hide Inv, Hashed, Listed, Linked, Matches, Matching, MatchingZombie, Abs;
      MatchingChildren(this, pid);
      if pid != 0 {
        found, haskid := FindOne(pid);
      } else {
        found, haskid := FindAny();
        assert kids[current] != [] ==> kids[current][0] in kids[current];
      }
    }

    /** unhash_proc and remove_links. */
    method Reap(proc: ProcStruct)
      requires Linked() && Hashed() && Listed() && proc in all && proc != idleproc
      requires proc.parent != null && proc.parent in all && proc.parent != proc
      requires proc in kids[proc.parent] && kids[proc] == []
      modifies `hash, `nrProcess, `procList, `all, `kids, all`optr, all`yptr, proc.parent`cptr
      ensures Linked() && Hashed() && Listed() && all == old(all) - {proc}
      ensures procList == Without(old(procList), proc)
      ensures kids == old(kids)[proc.parent := Without(old(kids)[proc.parent], proc)] - {proc}
    {
      ghost var procListBefore, allBefore, hashBefore := procList, all, hash;
      Unhash(proc);
      hide Linked, Hashed, Without, NoDuplicates;
      RemoveLinks(proc);
      StillHashed(this, hashBefore, allBefore, proc);
      StillListed(this, procListBefore, allBefore, proc);
    }

    method Unhash(proc: ProcStruct)
      requires Linked() && Listed()
      modifies `hash
      ensures Linked() && Listed() && hash == old(hash) - {proc.pid}
    {
      hide Threaded, Lists, NoDuplicates;
      hash := hash - {proc.pid};
    }

    /** From repeat to the call of schedule or a return. */
    method WaitOnce(pid: int) returns (r: WaitResult<ProcStruct>)
      requires Valid() && Inv(Abs()) && WaitGuard(Abs(), current)
      modifies `hash, `nrProcess, `procList, `all, `kids, all`optr, all`yptr
      modifies current`cptr, current`context, current`state, current`wtChild
      ensures Valid() && Abs() == WaitPass(old(Abs()), current, pid, r) && Inv(Abs()) && all <= old(all)
      ensures WaitAnswer(old(Abs()), current, pid, r)
      ensures procList == if r.Reaped? then Without(old(procList), r.child) else old(procList)
    {
      hide Linked, Hashed, Listed, Inv, Represents, WaitGuard, Matches, Matching, MatchingZombie, WaitPass, Abs, Record;
      ghost var s := Abs();
      AbsRepresents(this);
      var found, haskid := FindZombie(pid);
      if found == null {
        if haskid {
          FallAsleep(pid, s);
          r := Asleep;
        } else {
          Leave(pid, s);
          r := BadProc;
        }
      } else {
        ReapFacts(this, pid, found);
        assert found != idleproc && found != initproc;
        r := Reaped(found, found.exitCode);
        ReapChild(found, pid, s);
      }
      WaitKeepsInv(s, current, pid, r);
      RepresentsAbs(this, WaitPass(s, current, pid, r));
    }

    method FallAsleep(pid: int, ghost s: State<ProcStruct>)
      requires Linked() && Hashed() && Listed() && Represents(s) && current in all
      modifies current`state, current`wtChild, current`context
      ensures Linked() && Hashed() && Listed() && Represents(WaitPass(s, current, pid, Asleep))
    {
      hide Linked, Hashed, Listed;
      GiveUp(Sleeping, true, InWait(pid));
      forall p | p in all && p != current
        ensures Record(p) == s.procs[p]
      {
      }
      OneRecord(this, s, current);
    }

    method Leave(pid: int, ghost s: State<ProcStruct>)
      requires Linked() && Hashed() && Listed() && Represents(s) && current in all
      modifies current`state, current`wtChild, current`context
      ensures Linked() && Hashed() && Listed() && Represents(WaitPass(s, current, pid, BadProc))
    {
      hide Linked, Hashed, Listed;
      GiveUp(current.state, current.wtChild, Outside);
      forall p | p in all && p != current
        ensures Record(p) == s.procs[p]
      {
      }
      OneRecord(this, s, current);
    }

    /** No link depends on the state of the current process. */
    method GiveUp(state: PState, wtChild: bool, context: Context)
      requires Linked() && Hashed() && Listed()
      modifies current`state, current`wtChild, current`context
      ensures Linked() && Hashed() && Listed()
      ensures current.state == state && current.wtChild == wtChild && current.context == context
    {
      hide Threaded, Lists, NoDuplicates, PidsOf;
      current.state := state;
      current.wtChild := wtChild;
      current.context := context;
    }

    method ReapChild(proc: ProcStruct, pid: int, ghost s: State<ProcStruct>)
      requires Linked() && Hashed() && Listed() && Represents(s) && current in all && current in s.procs
      requires proc in all && proc != idleproc && proc != current && proc.parent == current
      requires proc in kids[current] && kids[proc] == []
      modifies `hash, `nrProcess, `procList, `all, `kids, all`optr, all`yptr
      modifies current`cptr, current`state, current`wtChild, current`context
      ensures Linked() && Hashed() && Listed() && all == old(all) - {proc}
      ensures procList == Without(old(procList), proc)
      ensures Represents(WaitPass(s, current, pid, Reaped(proc, old(proc.exitCode))))
    {
      hide Linked, Hashed, Listed, Without, Represents;
      Leave(pid, s);
      ReapRecord(proc, WaitPass(s, current, pid, BadProc));
      assert Dropped(WaitPass(s, current, pid, BadProc), current, proc) ==
             WaitPass(s, current, pid, Reaped(proc, old(proc.exitCode)));
    }

    method ReapRecord(proc: ProcStruct, ghost s: State<ProcStruct>)
      requires Linked() && Hashed() && Listed() && Represents(s) && current in all && current in s.procs
      requires proc in all && proc != idleproc && proc != current && proc.parent == current
      requires proc in kids[current] && kids[proc] == []
      modifies `hash, `nrProcess, `procList, `all, `kids, all`optr, all`yptr, current`cptr
      ensures Linked() && Hashed() && Listed() && all == old(all) - {proc}
      ensures procList == Without(old(procList), proc)
      ensures Represents(Dropped(s, current, proc))
    {
      hide Linked, Hashed, Listed, Without, Dropped;
      Reap(proc);
      assert Record(current) == s.procs[current].(kids := Without(s.procs[current].kids, proc)) by {
        assert s.procs[current] == old(Record(current));
      }
      forall p | p in all && p != current
        ensures p in kids && Record(p) == s.procs[p]
      {
        assert s.procs[p] == old(Record(p));
      }
      DroppedRecords(this, s, proc);
    }

    /** What may happen to a call of do_wait: it returns, and perhaps stores a
        code; or the process gives up the processor. */
    method DoWait(pid: int, codeStore: CodeStore) returns (answer: Answer, ghost r: WaitResult<ProcStruct>)
      requires Valid() && Inv(Abs()) && WaitGuard(Abs(), current)
      modifies `hash, `nrProcess, `procList, `all, `kids, all`optr, all`yptr
      modifies current`cptr, current`context, current`state, current`wtChild
      ensures Valid() && Inv(Abs()) && all <= old(all)
      ensures procList == if !codeStore.Invalid? && r.Reaped? then Without(old(procList), r.child) else old(procList)
      ensures Abs() == if codeStore.Invalid? then old(Abs()) else WaitPass(old(Abs()), current, pid, r)
      ensures !codeStore.Invalid? ==> WaitAnswer(old(Abs()), current, pid, r)
      ensures answer == if codeStore.Invalid? then Returns(-E_INVAL, None) else AnswerOf(codeStore, r)
      ensures !codeStore.Invalid? ==> Informs(old(Abs()), current, pid, codeStore, r, answer)
    {
      if codeStore.Invalid? {
        return Returns(-E_INVAL, None), BadProc;
      }
      ghost var s := Abs();
      hide *;
      var result := WaitOnce(pid);
      AnswerInforms(s, current, pid, codeStore, result);
      match result
      case Reaped(_, code) => return Returns(0, if codeStore.NoStore? then None else Some(code)), result;
      case Asleep => return Scheduled, result;
      case BadProc => return Returns(-E_BAD_PROC, None), result;
    }

    /** do_wait goes on behind the call of schedule. A process that has been killed
        meanwhile exits; if it is init, do_exit panics before it changes anything. */
    method ResumeWait(codeStore: CodeStore) returns (answer: Answer, ghost r: WaitResult<ProcStruct>)
      requires Valid() && Inv(Abs()) && WaitGuard(Abs(), current) && current.context.InWait?
      modifies `hash, `nrProcess, `procList, `all, `kids, current`context
      modifies all`state, all`wtChild, all`exitCode, all`parent, all`cptr, all`optr, all`yptr
      ensures Valid() && Inv(Abs()) && all <= old(all)
      ensures procList == if !old(current.exiting) && r.Reaped? then Without(old(procList), r.child)
                          else old(procList)
      ensures Abs() == if !old(current.exiting) then WaitPass(old(Abs()), current, old(current.context.target), r)
                       else if current == initproc then old(Abs())
                       else Exit(old(Abs()), current, -E_KILLED)
      ensures !old(current.exiting) ==> WaitAnswer(old(Abs()), current, old(current.context.target), r)
      ensures answer == if !old(current.exiting) then AnswerOf(codeStore, r)
                        else if current == initproc then Panics else Scheduled
      ensures !old(current.exiting) ==>
                Informs(old(Abs()), current, old(current.context.target), codeStore, r, answer)
    {
      hide Inv, Linked, Hashed, Listed, WaitGuard, ExitGuard, WaitAnswer, Exit, WaitPass, Abs, Record, Informs;
      WaiterMayExit(this);
      if current.exiting {
        if current == initproc {
          return Panics, BadProc;
        }
        DoExit(-E_KILLED);
        return Scheduled, BadProc;
      }
      ghost var s, target := Abs(), current.context.target;
      var result := WaitOnce(current.context.target);
      AnswerInforms(s, current, target, codeStore, result);
      return AnswerOf(codeStore, result), result;
    }

    // ----- do_fork -----

    /** do_fork for the family and the tables. */
    method DoFork() returns (ret: int, ghost child: ProcStruct?)
      requires Valid() && Inv(Abs()) && current.state == Runnable
      modifies `hash, `nrProcess, `procList, `all, `kids, pids, all`yptr, current`cptr
      ensures Valid() && Inv(Abs())
      ensures procList == if child == null then old(procList) else [child] + old(procList)
      ensures old(nrProcess) >= MAX_PROCESS ==>
              ret == -E_NO_FREE_PROC && child == null && all == old(all) && Abs() == old(Abs())
      ensures old(nrProcess) < MAX_PROCESS ==>
                && child != null && fresh(child) && all == old(all) + {child}
                && Abs() == Fork(old(Abs()), current, child, ret)
                && NextFree(old(pids.lastPid), old(PidsOf(procList)), ret)
                && ForkGuard(old(Abs()), current, child, ret)
    {
      hide Inv, Linked, Hashed, Listed, Fork, ForkGuard, Represents, Abs, NextFree, PidsOf;
      if nrProcess >= MAX_PROCESS {
        return -E_NO_FREE_PROC, null;
      }
      ghost var s := Abs();
      AbsRepresents(this);
      NumbersListed(this);
      ghost var last, numbers := pids.lastPid, PidsOf(procList);
      var proc := SpawnRecord(s);
      ret, child := proc.pid, proc;
      ForkAllowed(s, current, proc, last, numbers, ret);
      ForkKeepsInv(s, current, proc, ret);
      RepresentsAbs(this, Fork(s, current, proc, ret));
    }

    method SpawnRecord(ghost s: State<ProcStruct>) returns (proc: ProcStruct)
      requires Linked() && Hashed() && Listed() && Represents(s) && current in all && idleproc in all
      requires nrProcess < MAX_PROCESS && current in s.procs
      modifies `hash, `nrProcess, `procList, `all, `kids, pids, all`yptr, current`cptr
      ensures Linked() && Hashed() && Listed() && fresh(proc) && all == old(all) + {proc}
      ensures Represents(Fork(s, current, proc, proc.pid))
      ensures procList == [proc] + old(procList)
      ensures NextFree(old(pids.lastPid), old(PidsOf(procList)), proc.pid)
    {
      hide Linked, Hashed, Listed, NextFree, Fork;
      proc := Spawn();
      forall p | p in all && p != proc
        ensures p in kids && Record(p) ==
                if p == current then s.procs[p].(kids := [proc] + s.procs[p].kids) else s.procs[p]
      {
        assert s.procs[p] == old(Record(p));
      }
      ForkedRecords(this, s, proc);
    }

    method Spawn() returns (proc: ProcStruct)
      requires Linked() && Hashed() && Listed() && current in all && idleproc in all && nrProcess < MAX_PROCESS
      modifies `hash, `nrProcess, `procList, `all, `kids, pids, all`yptr, current`cptr
      ensures Linked() && Hashed() && Listed() && fresh(proc) && all == old(all) + {proc}
      ensures kids == Push(old(kids), current, proc)
      ensures procList == [proc] + old(procList)
      ensures proc.state == Runnable && !proc.wtChild && !proc.exiting && proc.exitCode == 0
      ensures proc.context == Outside && proc.parent == current
      ensures NextFree(old(pids.lastPid), old(PidsOf(procList)), proc.pid)
    {
      hide Linked, Hashed, Listed, Enumerated, NextFree;
      proc := AllocProc();
      AssignPid(proc);
      Enter(proc);
      Wake(proc);
    }

    /** alloc_proc, and the assignment of the parent. */
    method AllocProc() returns (proc: ProcStruct)
      requires Linked() && Hashed() && Listed() && current in all
      ensures Linked() && Hashed() && Listed() && fresh(proc)
      ensures proc.state == Uninit && !proc.wtChild && !proc.exiting && proc.exitCode == 0
      ensures proc.context == Outside && proc.parent == current && proc.cptr == null
    {
      hide Threaded, Lists, NoDuplicates, PidsOf;
      proc := new ProcStruct();
      proc.parent := current;
    }

    /** The process list is short enough for get_pid to find a number. */
    method AssignPid(proc: ProcStruct)
      requires Linked() && Hashed() && Listed() && nrProcess < MAX_PROCESS && proc !in all
      modifies pids, proc`pid
      ensures NextFree(old(pids.lastPid), old(PidsOf(procList)), proc.pid) && pids.Valid(PidsOf(procList) + [proc.pid])
      ensures Linked() && Hashed() && Enumerated() && proc.pid !in PidsOf(procList)
    {
      hide Threaded, Lists, NoDuplicates, NextFree;
      PidsOfElems(procList);
      hide PidsOf;
      var pid := pids.GetPid(PidsOf(procList));
      proc.pid := pid;
    }

    /** hash_proc and set_links. */
    method Enter(proc: ProcStruct)
      requires Linked() && Hashed() && Enumerated() && proc !in all && proc.parent != null && proc.parent in all
      requires proc.cptr == null
      requires proc.pid !in PidsOf(procList) && pids.Valid(PidsOf(procList) + [proc.pid]) && proc != idleproc
      modifies `hash, `nrProcess, `procList, `all, `kids, proc`yptr, proc`optr, all`yptr, proc.parent`cptr
      ensures Linked() && Hashed() && Listed() && all == old(all) + {proc} && kids == Push(old(kids), proc.parent, proc)
      ensures procList == [proc] + old(procList)
    {
      hide Threaded, Lists;
      ghost var hashBefore, allBefore, listBefore := hash, all, procList;
      assert Hashed() && Enumerated();
      HashProc(proc);
      hide Linked, Enumerated, Hashed, NoDuplicates, PidsOf;
      SetLinks(proc);
      NowHashed(this, hashBefore, allBefore, listBefore, proc);
      NowListed(this, allBefore, listBefore, proc);
    }

    method HashProc(proc: ProcStruct)
      requires Linked()
      modifies `hash
      ensures Linked() && hash == old(hash)[proc.pid := proc]
    {
      hide Threaded, Lists;
      hash := hash[proc.pid := proc];
    }

    method Wake(proc: ProcStruct)
      requires Linked() && Hashed() && Listed() && proc.state != Zombie
      modifies proc`state, proc`wtChild
      ensures Linked() && Hashed() && Listed()
      ensures proc.state == Runnable && proc.wtChild == (old(proc.state) == Runnable && old(proc.wtChild))
    {
      hide Threaded, Lists, NoDuplicates, PidsOf;
      WakeupProc(proc);
    }
  }

  // ----- What the kernel looks like -----

  lemma AbsRepresents(k: Kernel)
    requires k.kids.Keys == k.all
    ensures k.Represents(k.Abs()) && k.Abs().procs.Keys == k.all
  {
  }

  lemma RepresentsAbs(k: Kernel, s: State<ProcStruct>)
    requires k.Represents(s)
    ensures k.kids.Keys == k.all && s == k.Abs()
  {
    assert s.procs == k.Abs().procs;
  }

  /** Only p has changed. */
  lemma OneRecord(k: Kernel, s: State<ProcStruct>, p: ProcStruct)
    requires k.kids.Keys == k.all == s.procs.Keys && s.idle == k.idleproc && s.init == k.initproc && p in k.all
    requires forall q :: q in k.all && q != p ==> k.Record(q) == s.procs[q]
    ensures k.Represents(Put(s, p, k.Record(p)))
  {
  }

  lemma FirstNumber(pid: int)
    requires NextFree(MAX_PID, [], pid)
    ensures pid == 1
  {
    assert Usable(1) && 1 !in [];
  }

  lemma BootedKernel(k: Kernel)
    requires k.idleproc != k.initproc && k.current == k.idleproc && k.nrProcess == 2
    requires k.all == {k.idleproc, k.initproc} && k.kids == map[k.idleproc := [k.initproc], k.initproc := []]
    requires k.hash == map[1 := k.initproc] && k.procList == [k.initproc] && k.pids.Valid([1])
    requires var idle, init := k.idleproc, k.initproc;
             && idle.pid == 0 && idle.state == Runnable && !idle.wtChild && !idle.exiting && idle.exitCode == 0
             && idle.context == Outside && idle.parent == null && idle.cptr == init
             && init.pid == 1 && init.state == Runnable && !init.wtChild && !init.exiting && init.exitCode == 0
             && init.context == Outside && init.parent == idle
             && init.cptr == null && init.optr == null && init.yptr == null
    ensures k.Valid() && k.Abs() == Booted(k.idleproc, k.initproc)
  {
    var idle, init := k.idleproc, k.initproc;
    BootedLists(idle, init);
    BootedThreaded(idle, init);
    hide Threaded, Lists, Booted;
    assert k.Linked();
    assert k.Hashed();
    assert PidsOf([init]) == [1] && NoDuplicates([init]);
    assert k.Listed();
    hide Kernel.Linked, Kernel.Hashed, Kernel.Listed;
    assert k.Record(idle) == Proc(0, Runnable, false, Outside, false, 0, None, [init]);
    assert k.Record(init) == NewProc(1, idle);
    BootedTable(idle, init, k.Abs().procs);
  }

  lemma NumbersFacts(k: Kernel)
    requires k.Valid() && Numbers(k.Abs())
    ensures forall p :: p in k.all && p != k.idleproc ==> 0 < p.pid < MAX_PID
    ensures k.idleproc.pid == 0 && forall p, q :: p in k.all && q in k.all && p.pid == q.pid ==> p == q
  {
    var s := k.Abs();
    forall p | p in k.all && p != k.idleproc
      ensures 0 < p.pid < MAX_PID
    {
      assert 0 < s.procs[p].pid < MAX_PID;
    }
    forall p, q | p in k.all && q in k.all && p.pid == q.pid
      ensures p == q
    {
      assert s.procs[p].pid == s.procs[q].pid;
    }
  }

  lemma StatesFacts(k: Kernel)
    requires k.Valid() && Inv(k.Abs())
    ensures forall p :: p in k.all ==> (p.wtChild <==> p.state == Sleeping)
    ensures Numbers(k.Abs()) && k.Represents(k.Abs())
  {
    forall p | p in k.all
      ensures p.wtChild <==> p.state == Sleeping
    {
      assert StateOk(k.Abs().procs[p]);
    }
  }

  lemma NumbersListed(k: Kernel)
    requires k.Valid() && Inv(k.Abs()) && k.current.state == Runnable
    ensures var s := k.Abs();
            && s.procs.Keys == k.all && k.current in s.procs && s.procs[k.current].state == Runnable
            && forall p :: p in s.procs ==> s.procs[p].pid == 0 || s.procs[p].pid in PidsOf(k.procList)
  {
    NumbersFacts(k);
    PidsOfElems(k.procList);
    hide Inv, Kernel.Linked, Kernel.Hashed, PidsOf;
  }

  /** The children of the current process are those whose parent it is, and
      numbers identify them. */
  lemma ChildrenFacts(k: Kernel)
    requires k.Valid() && Inv(k.Abs())
    ensures forall x :: x in k.kids[k.current] ==> x in k.all && x != k.idleproc && x.parent == k.current
    ensures forall x :: x in k.all && x.parent == k.current ==> x in k.kids[k.current]
    ensures forall x, y :: x in k.all && y in k.all && x.pid == y.pid ==> x == y
  {
    var s := k.Abs();
    NumbersFacts(k);
    forall x | x in k.kids[k.current]
      ensures x in k.all && x != k.idleproc && x.parent == k.current
    {
      assert KidOf(s, k.current, x);
    }
    forall x | x in k.all && x.parent == k.current
      ensures x in k.kids[k.current]
    {
      assert ParentKnowsKid(s, x);
    }
  }

  // ----- Facts for fork -----

  lemma NowHashed(k: Kernel, hash: map<int, ProcStruct>, all: set<ProcStruct>, ps: seq<ProcStruct>, p: ProcStruct)
    requires k.hash == hash[p.pid := p] && k.all == all + {p} && p !in all && p != k.idleproc
    requires forall x :: x in all && x != k.idleproc ==> x.pid in hash && hash[x.pid] == x
    requires forall n :: n in hash ==> hash[n] in all && hash[n] != k.idleproc && hash[n].pid == n
    requires (forall x :: x in all && x != k.idleproc ==> x in ps) && p.pid !in PidsOf(ps)
    ensures k.Hashed()
  {
    PidsOfElems(ps);
    hide PidsOf;
  }

  lemma NowListed(k: Kernel, all: set<ProcStruct>, ps: seq<ProcStruct>, p: ProcStruct)
    requires NoDuplicates(ps) && p !in all && p != k.idleproc && |all| == |ps| + 1 && k.pids.Valid(PidsOf(ps) + [p.pid])
    requires forall x :: x in ps ==> x in all && x != k.idleproc
    requires forall x :: x in all && x != k.idleproc ==> x in ps
    requires k.procList == [p] + ps && k.all == all + {p} && k.nrProcess == |ps| + 2
    ensures k.Listed()
  {
    NoDuplicatesConcat([p], ps);
    hide NoDuplicates;
    assert PidsOf([p] + ps) == [p.pid] + PidsOf(ps) by {
      assert ([p] + ps)[1..] == ps;
    }
    hide PidsOf;
    assert k.Enumerated();
    hide Kernel.Enumerated;
    forall q | q in [p.pid] + PidsOf(ps)
      ensures q in PidsOf(ps) + [p.pid]
    {
    }
  }

  lemma ForkedRecords(k: Kernel, s: State<ProcStruct>, proc: ProcStruct)
    requires k.kids.Keys == k.all == s.procs.Keys + {proc} && proc !in s.procs && s.idle == k.idleproc
    requires s.init == k.initproc
    requires k.current in s.procs && k.Record(proc) == NewProc(proc.pid, k.current)
    requires forall p :: p in s.procs ==>
               k.Record(p) == if p == k.current then s.procs[p].(kids := [proc] + s.procs[p].kids) else s.procs[p]
    ensures k.Represents(Fork(s, k.current, proc, proc.pid))
  {
  }

  // ----- Facts for exit -----

  /** What do_exit relies on. */
  lemma ExitFacts(k: Kernel)
    requires k.Valid() && Inv(k.Abs()) && ExitGuard(k.Abs(), k.current)
    ensures k.current != k.initproc && k.initproc !in k.kids[k.current]
    ensures var par := k.current.parent;
            par != null && par in k.all && par != k.current
    ensures forall p :: p in k.all ==> (p.wtChild <==> p.state == Sleeping)
    ensures k.initproc.state != Zombie && k.current !in k.kids[k.current]
    ensures forall x :: x in k.kids[k.current] ==> x in k.all
  {
    var s := k.Abs();
    assert ParentKnowsKid(s, k.current) && !KidOf(s, k.current, k.initproc) && !KidOf(s, k.current, k.current);
    forall p | p in k.all
      ensures p.wtChild <==> p.state == Sleeping
    {
      assert StateOk(s.procs[p]);
    }
  }

  lemma ExitInSteps(k: Kernel, code: int)
    requires k.Valid() && Inv(k.Abs()) && ExitGuard(k.Abs(), k.current)
    ensures Exit(k.Abs(), k.current, code) == Adopted(Buried(k.Abs(), k.current, code), k.current)
  {
    ExitFacts(k);
    hide Inv, Exit, Adopted, Buried;
    ExitSteps(k.Abs(), k.current, code);
  }

  lemma AdoptedRecords(k: Kernel, s: State<ProcStruct>)
    requires k.current in s.procs && k.initproc in s.procs && k.current != k.initproc
    requires s.procs.Keys == k.all && s.idle == k.idleproc && s.init == k.initproc
    requires var moved := s.procs[k.current].kids;
             k.kids.Keys == k.all && forall p :: p in k.all ==>
               k.kids[p] ==
               if p == k.current then [] else if p == s.init then Reverse(moved) + s.procs[p].kids else s.procs[p].kids
    requires forall p :: p in k.all ==>
               && p.pid == s.procs[p].pid && p.exiting == s.procs[p].exiting && p.exitCode == s.procs[p].exitCode
               && p.context == s.procs[p].context
    requires forall p :: p in k.all ==>
               Maybe(p.parent) == if p in s.procs[k.current].kids then Some(s.init) else s.procs[p].parent
    requires forall p :: p in k.all && p != s.init ==> p.state == s.procs[p].state && p.wtChild == s.procs[p].wtChild
    requires var init, woken := k.initproc, s.procs[k.initproc].wtChild && HasZombie(s, s.procs[k.current].kids);
             && init.state == (if woken then Runnable else s.procs[init].state)
             && init.wtChild == (s.procs[init].wtChild && !woken)
    ensures k.Represents(Adopted(s, k.current))
  {
    hide HasZombie, Reverse;
    forall p | p in k.all
      ensures p in k.kids && k.Record(p) == AdoptedProc(s, k.current, p)
    {
    }
  }

  // ----- Facts for wait -----

  /** What the search for one number finds is the only child that can match. */
  lemma OneChild(k: Kernel, pid: int, proc: ProcStruct?)
    requires k.Valid() && Inv(k.Abs())
    requires proc != null ==> proc in k.all && proc.pid == pid
    requires proc == null ==> forall p :: p in k.all && p != k.idleproc ==> p.pid != pid
    ensures forall x :: x in k.kids[k.current] && x.pid == pid ==> x == proc
    ensures proc != null ==> (proc.parent == k.current <==> proc in k.kids[k.current])
  {
    ChildrenFacts(k);
    hide Inv, Kernel.Linked, Kernel.Hashed, Kernel.Listed;
  }

  lemma MatchesChild(k: Kernel, pid: int, x: ProcStruct)
    requires k.Valid() && Inv(k.Abs())
    ensures Matches(k.Abs(), k.current, pid, x) <==> x in k.kids[k.current] && (pid == 0 || x.pid == pid)
    ensures Matches(k.Abs(), k.current, pid, x) ==> k.Abs().procs[x].state == x.state
  {
    ChildrenFacts(k);
    hide Inv, Kernel.Linked, Kernel.Hashed, Kernel.Listed;
    var s := k.Abs();
    assert x in k.all ==> s.procs[x] == k.Record(x);
  }

  lemma MatchingChildren(k: Kernel, pid: int)
    requires k.Valid() && Inv(k.Abs())
    ensures Matching(k.Abs(), k.current, pid) <==> exists x :: x in k.kids[k.current] && (pid == 0 || x.pid == pid)
    ensures MatchingZombie(k.Abs(), k.current, pid) <==>
              exists x :: x in k.kids[k.current] && (pid == 0 || x.pid == pid) && x.state == Zombie
    ensures forall x :: x in k.kids[k.current] && (pid == 0 || x.pid == pid) ==>
              Matches(k.Abs(), k.current, pid, x) && k.Abs().procs[x].state == x.state
  {
    var s := k.Abs();
    forall x: ProcStruct
      ensures Matches(s, k.current, pid, x) <==> x in k.kids[k.current] && (pid == 0 || x.pid == pid)
      ensures Matches(s, k.current, pid, x) ==> s.procs[x].state == x.state
    {
      MatchesChild(k, pid, x);
    }
    hide Inv, Kernel.Linked, Kernel.Hashed, Kernel.Listed, Kernel.Abs, Matches;
  }

  lemma WaiterMayExit(k: Kernel)
    requires k.Valid() && WaitGuard(k.Abs(), k.current)
    ensures k.current != k.initproc ==> ExitGuard(k.Abs(), k.current)
  {
    hide Kernel.Linked, Kernel.Hashed, Kernel.Listed;
  }

  lemma ReapFacts(k: Kernel, pid: int, proc: ProcStruct)
    requires k.Valid() && Inv(k.Abs()) && WaitGuard(k.Abs(), k.current)
    requires Matches(k.Abs(), k.current, pid, proc) && k.Abs().procs[proc].state == Zombie
    ensures proc in k.all && proc != k.idleproc && proc != k.initproc && proc != k.current && proc.parent == k.current
    ensures proc in k.kids[k.current] && k.kids[proc] == [] && proc.exitCode == k.Abs().procs[proc].exitCode
  {
    var s := k.Abs();
    ReapKids(s, k.current, pid, proc, s.procs[proc].exitCode);
    hide Inv, Kernel.Linked, Kernel.Hashed, Kernel.Listed, WaitPass;
    assert s.procs[proc] == k.Record(proc);
  }

  lemma StillHashed(k: Kernel, hash: map<int, ProcStruct>, all: set<ProcStruct>, p: ProcStruct)
    requires k.hash == hash - {p.pid} && k.all == all - {p}
    requires forall x :: x in all && x != k.idleproc ==> x.pid in hash && hash[x.pid] == x
    requires forall n :: n in hash ==> hash[n] in all && hash[n] != k.idleproc && hash[n].pid == n
    requires p in all && p != k.idleproc
    ensures k.Hashed()
  {
  }

  lemma StillListed(k: Kernel, ps: seq<ProcStruct>, all: set<ProcStruct>, p: ProcStruct)
    requires NoDuplicates(ps) && p in ps && |all| == |ps| + 1 && k.pids.Valid(PidsOf(ps))
    requires forall x :: x in ps ==> x in all && x != k.idleproc
    requires forall x :: x in all && x != k.idleproc ==> x in ps
    requires k.procList == Without(ps, p) && k.all == all - {p} && k.nrProcess == |ps|
    ensures k.Listed()
  {
    UnlistFacts(ps, p);
    hide Without, NoDuplicates;
    PidsOfElems(ps);
    PidsOfElems(k.procList);
    hide PidsOf;
  }

  lemma DroppedRecords(k: Kernel, s: State<ProcStruct>, proc: ProcStruct)
    requires k.kids.Keys == k.all == s.procs.Keys - {proc} && s.idle == k.idleproc && s.init == k.initproc
    requires k.current in k.all
    requires k.Record(k.current) == s.procs[k.current].(kids := Without(s.procs[k.current].kids, proc))
    requires forall p :: p in k.all && p != k.current ==> k.Record(p) == s.procs[p]
    ensures k.Represents(Dropped(s, k.current, proc))
  {
  }
}
