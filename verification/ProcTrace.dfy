/** The kernel in operation: its entry points, called in any order by whichever
    process runs, go through the runs of ProcRuns, so that what holds for these
    runs holds for the linked records of the kernel. */
module ProcTrace {
  import opened PidAlloc
  import opened ProcLinks
  import opened ProcRuns
  import opened ProcSpec
  import opened Proc
  import opened RoundRobin
  import opened Wrappers

  class Machine {
    const kernel: Kernel
    /** The steps since booting, and the system that they lead to. */
    ghost var run: seq<Action<ProcStruct>>
    ghost var system: System<ProcStruct>

    ghost predicate Valid()
      reads this, kernel, kernel.all, kernel.pids, kernel.procList
    {
      && kernel.Valid() && kernel.idleproc != kernel.initproc
      && Possible(Start(kernel.idleproc, kernel.initproc), run)
      && After(Start(kernel.idleproc, kernel.initproc), run) == system
      && system.s == kernel.Abs() && kernel.procList == Line(system)
    }

    /** What runs now is a process that can run. */
    ghost predicate Running()
      reads this, kernel
    {
      CanRun(system.s, kernel.current)
    }

    /** The process that runs, or a kill, has just led from y to the present system. */
    ghost predicate Goes(y: System<ProcStruct>, a: Action<ProcStruct>)
      reads this, kernel`current
    {
      Step(Config(y, kernel.current), Acts(a), Config(system, kernel.current))
    }

    /** What the caller of do_wait gets is the exit code on record of the child, which
        is gone from the table. */
    ghost predicate Delivered(codeStore: CodeStore, r: WaitResult<ProcStruct>, answer: Answer)
      requires answer.Returns?
      reads this, kernel
    {
      && r.Reaped? && r.child in system.exits && r.child !in system.s.procs
      && answer.stored == if codeStore.NoStore? then None else Some(system.exits[r.child])
    }

    constructor ()
      ensures Valid() && Running() && run == [] && fresh(kernel) && fresh(kernel.all) && fresh(kernel.pids)
    {
      hide Kernel.Valid, Kernel.Abs, Inv;
      var k := new Kernel();
      kernel := k;
      run := [];
      system := Start(k.idleproc, k.initproc);
      FirstLine(k.idleproc, k.initproc);
    }

    /** proc_run: whatever the scheduler, a runnable process goes on. */
    method Switch(next: ProcStruct)
      requires Valid() && next in kernel.all && next.state == Runnable
      modifies kernel`current
      ensures Valid() && Running() && kernel.current == next
    {
      hide Kernel.Linked, Kernel.Hashed, Kernel.Listed, Possible, After, Line;
      kernel.current := next;
    }

    /** schedule of lab5: the next one in the process list that can run goes on. */
    method Schedule()
      requires Valid()
      modifies kernel`current
      ensures Valid() && Running()
      ensures Step(Config(system, old(kernel.current)), Schedules, Config(system, kernel.current))
    {
      IdleCanRun(this);
      hide Kernel.Valid, Kernel.Abs, Kernel.Linked, Kernel.Hashed, Kernel.Listed, Possible, After, Line, NextTurn;
      var next := PickNext(kernel);
      Switch(next);
    }

    method Fork() returns (ret: int, ghost child: ProcStruct?)
      requires Valid() && Running() && kernel.current != kernel.idleproc && kernel.current.context == Outside
      modifies this, kernel, kernel.all, kernel.pids
      ensures Valid() && Running() && fresh(kernel.all - old(kernel.all)) && kernel.current == old(kernel.current)
      ensures run == if child == null then old(run) else old(run) + [Forks(kernel.current, child, ret)]
      ensures child == null <==> old(kernel.nrProcess) >= MAX_PROCESS
      ensures child == null ==> ret == -E_NO_FREE_PROC
      ensures child != null ==> Goes(old(system), Forks(kernel.current, child, ret))
    {
      hide Kernel.Valid, Kernel.Abs, Kernel.Record, PidsOf, Inv, SysInv, Start, Possible, After, Enabled, Next;
      hide ForkGuard, ExitGuard, WaitGuard, WaitAnswer, NextFree, ProcSpec.Fork, ProcSpec.Exit, WaitPass, Killed;
      hide Line, Without;
      Reachable(this);
      ret, child := kernel.DoFork();
      if child != null {
        ForksStep(system, kernel.current, child, ret);
        Record(Forks(kernel.current, child, ret));
      }
    }

    method Exit(code: int)
      requires Valid() && Running() && kernel.current != kernel.idleproc && kernel.current != kernel.initproc
      requires kernel.current.context == Outside
      modifies this, kernel, kernel.all
      ensures Valid() && kernel.all == old(kernel.all) && run == old(run) + [Exits(old(kernel.current), code)]
      ensures kernel.current == old(kernel.current) && Goes(old(system), Exits(kernel.current, code))
      ensures kernel.current in system.exits && system.exits[kernel.current] == code
    {
      hide Kernel.Valid, Kernel.Abs, Kernel.Record, PidsOf, Inv, SysInv, Start, Possible, After, Enabled, Next;
      hide ForkGuard, ExitGuard, WaitGuard, WaitAnswer, NextFree, ProcSpec.Fork, ProcSpec.Exit, WaitPass, Killed;
      hide Line, Without;
      Reachable(this);
      kernel.DoExit(code);
      ExitsStep(system, kernel.current, code);
      Record(Exits(kernel.current, code));
    }

    method Wait(pid: int, codeStore: CodeStore) returns (answer: Answer, ghost r: WaitResult<ProcStruct>)
      requires Valid() && Running() && kernel.current != kernel.idleproc && kernel.current.context == Outside
      modifies this, kernel, kernel.all
      ensures Valid() && kernel.all <= old(kernel.all) && kernel.current == old(kernel.current)
      ensures run == if codeStore.Invalid? then old(run) else old(run) + [Waits(kernel.current, pid, r)]
      ensures answer == if codeStore.Invalid? then Returns(-E_INVAL, None) else AnswerOf(codeStore, r)
      ensures !codeStore.Invalid? ==> Goes(old(system), Waits(kernel.current, pid, r))
      ensures answer.Returns? && answer.value == 0 ==> Delivered(codeStore, r, answer)
      ensures answer.Returns? ==> Running()
    {
      hide Kernel.Valid, Kernel.Abs, Kernel.Record, PidsOf, Inv, SysInv, Start, Possible, After, Enabled, Next;
      hide ForkGuard, ExitGuard, WaitGuard, WaitAnswer, NextFree, ProcSpec.Fork, ProcSpec.Exit, WaitPass, Killed;
      hide Line, Without;
      Reachable(this);
      answer, r := kernel.DoWait(pid, codeStore);
      if !codeStore.Invalid? {
        WaitsStep(system, kernel.current, pid, r);
        DeliveryRecorded(system, Waits(kernel.current, pid, r), codeStore, answer);
        Record(Waits(kernel.current, pid, r));
      }
    }

    /** A process continues behind the call of schedule in do_wait. */
    method Resume(codeStore: CodeStore) returns (answer: Answer, ghost r: WaitResult<ProcStruct>)
      requires Valid() && Running() && kernel.current != kernel.idleproc && kernel.current.context.InWait?
      modifies this, kernel, kernel.all
      ensures Valid() && kernel.all <= old(kernel.all) && kernel.current == old(kernel.current)
      ensures run == if answer.Panics? then old(run) else old(run) + [Resumes(kernel.current, r)]
      ensures !answer.Panics? ==> Goes(old(system), Resumes(kernel.current, r))
      ensures answer.Returns? && answer.value == 0 ==> Delivered(codeStore, r, answer)
      ensures answer.Returns? ==> Running()
    {
      hide Kernel.Valid, Kernel.Abs, Kernel.Record, PidsOf, Inv, SysInv, Start, Possible, After, Enabled, Next;
      hide ForkGuard, ExitGuard, WaitGuard, WaitAnswer, NextFree, ProcSpec.Fork, ProcSpec.Exit, WaitPass, Killed;
      hide Line, Without;
      Reachable(this);
      answer, r := kernel.ResumeWait(codeStore);
      if !answer.Panics? {
        ResumesStep(system, kernel.current, r);
        DeliveryRecorded(system, Resumes(kernel.current, r), codeStore, answer);
        Record(Resumes(kernel.current, r));
      }
    }

    method Kill(pid: int) returns (ret: int, ghost target: ProcStruct?)
      requires Valid()
      modifies this, kernel.all
      ensures Valid() && (old(Running()) ==> Running())
      ensures run == if ret == 0 then old(run) + [Kills(target)] else old(run)
      ensures kernel.current == old(kernel.current) && (ret == 0 ==> target != null && Goes(old(system), Kills(target)))
    {
      hide Kernel.Valid, Kernel.Abs, Kernel.Record, PidsOf, Inv, SysInv, Start, Possible, After, Enabled, Next;
      hide ForkGuard, ExitGuard, WaitGuard, WaitAnswer, NextFree, ProcSpec.Fork, ProcSpec.Exit, WaitPass, Killed;
      hide Line, Without;
      Reachable(this);
      ret, target := kernel.DoKill(pid);
      if ret == 0 {
        KillsStep(system, target);
        Record(Kills(target));
      }
    }

    /** The step a has just been taken by the kernel. */
    ghost method Record(a: Action<ProcStruct>)
      requires Possible(Start(kernel.idleproc, kernel.initproc), run) && SysInv(system)
      requires After(Start(kernel.idleproc, kernel.initproc), run) == system && Enabled(system, a)
      requires By(a, kernel.current)
      requires kernel.procList == if a.Forks? then [a.child] + Line(system)
                                  else if Reaps(system, a) then Without(Line(system), a.r.child)
                                  else Line(system)
      modifies `run, `system
      ensures Possible(Start(kernel.idleproc, kernel.initproc), run)
      ensures After(Start(kernel.idleproc, kernel.initproc), run) == system && kernel.procList == Line(system)
      ensures run == old(run) + [a] && system == Next(old(system), a) && Goes(old(system), a)
    {
      hide SysInv, Possible, After, Enabled, Next, Line, Without, Reaps;
      RunSnoc(Start(kernel.idleproc, kernel.initproc), run, a);
      LineSteps(system, a);
      run, system := run + [a], Next(system, a);
    }
  }

  // ----- Going round the process list -----

  method PickNext(k: Kernel) returns (picked: ProcStruct)
    requires k.Valid() && k.idleproc.state == Runnable
    ensures picked in k.all && picked.state == Runnable && NextTurn(k.Abs(), k.procList, k.current, picked)
  {
    hide Kernel.Linked, Kernel.Hashed, NoDuplicates, Turns;
    var last := 0;
    if k.current != k.idleproc {
      var i :| 0 <= i < |k.procList| && k.procList[i] == k.current;
      RankIs(k.procList, i);
      last := i + 1;
    }
    TurnsFrom(k.procList, k.current, last);
    var next, seen := FirstRunnable(k.procList, last);
    picked := if next == null || next.state != Runnable then k.idleproc else next;
    FirstToRun(k, seen, picked);
  }

  lemma TurnsFrom(line: seq<ProcStruct>, cur: ProcStruct, last: nat)
    requires last <= |line| && last == if cur in line then Rank(line, cur) + 1 else 0
    ensures Turns(line, cur) == line[last..] + line[..last]
  {
  }

  /** The loop of schedule over the links of the list: position 0 is the head, and
      position i + 1 is the link of process i. */
  method FirstRunnable(line: seq<ProcStruct>, last: nat) returns (next: ProcStruct?, ghost seen: nat)
    requires last <= |line|
    ensures seen <= |line| && forall j :: 0 <= j < seen ==> (line[last..] + line[..last])[j].state != Runnable
    ensures if seen < |line| then next == (line[last..] + line[..last])[seen] && next.state == Runnable
            else next == null || next.state != Runnable
  {
    var n := |line|;
    ghost var turns := line[last..] + line[..last];
    var le := last;
    next, seen := null, 0;
    var looking := true;
    while looking
      invariant 0 <= le <= n && 0 <= seen <= n
      invariant next == null || next.state != Runnable
      invariant forall j :: 0 <= j < seen ==> turns[j].state != Runnable
      invariant if looking && le >= last then seen == le - last else seen == n - last + le
      invariant !looking ==> seen == n
      decreases looking, n - seen, le >= last
    {
      le := if le == n then 0 else le + 1;
      if le != 0 {
        next := line[le - 1];
        assert turns[seen] == next;
        if next.state == Runnable {
          return;
        }
        seen := seen + 1;
      }
      looking := le != last;
    }
  }

  lemma FirstToRun(k: Kernel, seen: nat, picked: ProcStruct)
    requires k.Valid() && seen <= |Turns(k.procList, k.current)| && picked in k.all && picked.state == Runnable
    requires forall j :: 0 <= j < seen ==> Turns(k.procList, k.current)[j].state != Runnable
    requires if seen == |k.procList| then picked == k.idleproc else picked == Turns(k.procList, k.current)[seen]
    ensures NextTurn(k.Abs(), k.procList, k.current, picked)
  {
    hide Kernel.Linked, Kernel.Hashed, NoDuplicates;
    var turns := Turns(k.procList, k.current);
    TurnsMembers(k.procList, k.current);
    hide Turns;
    assert NoneBefore(k.Abs(), turns, seen) && CanRun(k.Abs(), picked);
  }

  lemma IdleCanRun(m: Machine)
    requires m.Valid()
    ensures m.kernel.Valid() && m.kernel.idleproc in m.kernel.all && m.kernel.idleproc.state == Runnable
  {
    Reachable(m);
    hide Family, Numbers, NoLostWakeup, Kernel.Linked, Kernel.Hashed, Kernel.Listed, Possible, After, SysInv;
    assert m.kernel.Abs().procs[m.kernel.idleproc] == m.kernel.Record(m.kernel.idleproc);
  }

  // ----- Which step a call is -----

  lemma ForksStep<T>(y: System<T>, cur: T, child: T, pid: int)
    requires ForkGuard(y.s, cur, child, pid) && child !in y.births
    requires cur != y.s.idle && y.s.procs[cur].context == Outside
    ensures var a := Forks(cur, child, pid); Enabled(y, a) && Next(y, a).s == ProcSpec.Fork(y.s, cur, child, pid)
    ensures cur in Next(y, Forks(cur, child, pid)).s.procs
    ensures Next(y, Forks(cur, child, pid)).s.procs[cur].state == y.s.procs[cur].state
  {
  }

  lemma ExitsStep<T>(y: System<T>, cur: T, code: int)
    requires ExitGuard(y.s, cur) && y.s.procs[cur].context == Outside
    ensures Enabled(y, Exits(cur, code)) && Next(y, Exits(cur, code)).s == ProcSpec.Exit(y.s, cur, code)
    ensures Next(y, Exits(cur, code)).exits == y.exits[cur := code]
  {
  }

  lemma WaitsStep<T>(y: System<T>, cur: T, target: int, r: WaitResult<T>)
    requires WaitGuard(y.s, cur) && y.s.procs[cur].context == Outside && WaitAnswer(y.s, cur, target, r)
    ensures var a := Waits(cur, target, r); Enabled(y, a) && Next(y, a).s == WaitPass(y.s, cur, target, r)
    ensures !r.Asleep? ==> CanRun(Next(y, Waits(cur, target, r)).s, cur)
  {
  }

  lemma ResumesStep<T>(y: System<T>, cur: T, r: WaitResult<T>)
    requires WaitGuard(y.s, cur) && y.s.procs[cur].context.InWait?
    requires if y.s.procs[cur].exiting then cur != y.s.init else WaitAnswer(y.s, cur, y.s.procs[cur].context.target, r)
    ensures Enabled(y, Resumes(cur, r))
    ensures Next(y, Resumes(cur, r)).s == if y.s.procs[cur].exiting then ProcSpec.Exit(y.s, cur, -E_KILLED)
                                          else WaitPass(y.s, cur, y.s.procs[cur].context.target, r)
    ensures !r.Asleep? && !y.s.procs[cur].exiting ==> CanRun(Next(y, Resumes(cur, r)).s, cur)
  {
  }

  /** A wait that answers 0 has stored the recorded code of the child reaped. */
  lemma DeliveryRecorded(y: System<ProcStruct>, a: Action<ProcStruct>, codeStore: CodeStore, answer: Answer)
    requires SysInv(y) && Enabled(y, a) && (a.Waits? || a.Resumes?)
    requires a.Waits? || !y.s.procs[a.cur].exiting ==>
               var target := if a.Waits? then a.target else y.s.procs[a.cur].context.target;
               Informs(y.s, a.cur, target, codeStore, a.r, answer)
    requires a.Resumes? && y.s.procs[a.cur].exiting ==> answer.Scheduled?
    ensures answer.Returns? && answer.value == 0 ==>
              var y' := Next(y, a);
              && a.r.Reaped? && a.r.child in y'.exits && a.r.child !in y'.s.procs
              && answer.stored == if codeStore.NoStore? then None else Some(y'.exits[a.r.child])
  {
    hide Inv, Ancestry, Accounted, WaitAnswer, Matching, MatchingZombie;
  }

  lemma KillsStep<T>(y: System<T>, victim: T)
    requires victim in y.s.procs && victim != y.s.idle
    ensures Enabled(y, Kills(victim)) && Next(y, Kills(victim)).s == Killed(y.s, victim)
    ensures forall p :: CanRun(y.s, p) ==> CanRun(Next(y, Kills(victim)).s, p)
  {
  }

  /** What is reached has the invariant of runs, and the table agrees with it. */
  lemma Reachable(m: Machine)
    requires m.Valid()
    ensures SysInv(m.system) && Inv(m.kernel.Abs())
    ensures m.system.s.idle == m.kernel.idleproc && m.system.s.init == m.kernel.initproc
    ensures m.kernel.current in m.kernel.all && m.system.s.procs.Keys == m.kernel.all
    ensures var r, p := m.system.s.procs[m.kernel.current], m.kernel.current;
            r.state == p.state && r.context == p.context && r.exiting == p.exiting
    ensures var k := m.kernel;
            m.Running() && k.current != k.idleproc ==>
              WaitGuard(m.system.s, k.current) && (k.current != k.initproc ==> ExitGuard(m.system.s, k.current))
  {
    StartInv(m.kernel.idleproc, m.kernel.initproc);
    RunKeeps(Start(m.kernel.idleproc, m.kernel.initproc), m.run);
    hide Kernel.Linked, Kernel.Hashed, Kernel.Listed, SysInv, Possible, After, Start;
  }

  // ----- What holds whenever the kernel is between two steps -----

  /** nr_process counts what has been created and not yet reaped. */
  lemma ProcessesCounted(m: Machine)
    requires m.Valid()
    ensures m.kernel.nrProcess + |m.system.reaps| == |m.system.births|
    ensures m.kernel.nrProcess == |Living(m.system)| + |Zombies(m.system)|
  {
    Reachable(m);
    hide Inv, Ancestry, Codes, Kernel.Linked, Kernel.Hashed, Kernel.Abs, Possible, After;
    AccountedCount(m.system);
    LivingAndZombies(m.system);
  }

  lemma LivingAndZombies<T>(y: System<T>)
    ensures |Living(y)| + |Zombies(y)| == |y.s.procs.Keys|
  {
    assert Living(y) + Zombies(y) == y.s.procs.Keys && Living(y) !! Zombies(y);
  }

  /** A record that sleeps waits for a child in its own list, and for no zombie. */
  lemma SleepersWait(m: Machine, p: ProcStruct)
    requires m.Valid() && p in m.kernel.all && p.state == Sleeping
    ensures p.context.InWait?
    ensures var target := p.context.target;
            && (exists k :: k in m.kernel.kids[p] && (target == 0 || k.pid == target))
            && (forall k :: k in m.kernel.kids[p] && (target == 0 || k.pid == target) ==> k.state != Zombie)
  {
    hide Inv, SysInv, Kernel.Linked, Kernel.Hashed, Kernel.Listed, Possible, After;
    var s := m.system.s;
    Reachable(m);
    KidsAreProcesses(m.kernel, p);
    assert s.procs[p] == m.kernel.Record(p);
    SleepingWell(s, p);
    var target := p.context.target;
    var k :| Matches(s, p, target, k);
    assert k in m.kernel.kids[p] && s.procs[k] == m.kernel.Record(k);
    forall k | k in m.kernel.kids[p] && (target == 0 || k.pid == target)
      ensures k.state != Zombie
    {
      assert s.procs[k] == m.kernel.Record(k);
      assert Matches(s, p, target, k);
    }
  }

  lemma SleepingWell<T>(s: State<T>, p: T)
    requires Inv(s) && p in s.procs && s.procs[p].state == Sleeping
    ensures s.procs[p].context.InWait? && WaitAnswer(s, p, s.procs[p].context.target, Asleep)
  {
    assert SleepsWell(s, p);
  }

  lemma KidsAreProcesses(k: Kernel, p: ProcStruct)
    requires k.Valid() && p in k.all
    ensures forall x :: x in k.kids[p] ==> x in k.all
  {
  }

  /** The assertions of init_main, which it makes when it has no child left. */
  lemma InitMainAssertions(m: Machine)
    requires m.Valid() && m.kernel.initproc.cptr == null
    ensures var k, init := m.kernel, m.kernel.initproc;
            && init.cptr == null && init.yptr == null && init.optr == null
            && k.nrProcess == 2 && k.procList == [init]
  {
    hide Inv, Ancestry, Accounted, Codes, Kernel.Linked, Kernel.Hashed, Kernel.Listed, Possible, After, PidsOf;
    Reachable(m);
    ListsOfRoots(m.kernel);
    OnlyRoots(m.system);
    LastInList(m.kernel);
  }

  lemma ListsOfRoots(k: Kernel)
    requires k.Valid() && k.initproc.cptr == null
    ensures k.Abs().procs[k.initproc].kids == []
    ensures k.Abs().procs[k.idleproc].kids == [k.initproc] ==> k.initproc.yptr == null && k.initproc.optr == null
  {
    hide Lists, Kernel.Hashed, Kernel.Listed;
    assert Threaded(k.initproc, null, k.kids[k.initproc], false);
    assert Threaded(k.idleproc, k.idleproc.cptr, k.kids[k.idleproc], false);
    assert k.Abs().procs[k.initproc] == k.Record(k.initproc) && k.Abs().procs[k.idleproc] == k.Record(k.idleproc);
  }

  lemma LastInList(k: Kernel)
    requires k.Listed() && k.all == {k.idleproc, k.initproc} && k.idleproc != k.initproc
    ensures k.nrProcess == 2 && k.procList == [k.initproc]
  {
    assert |k.all| == 2;
    assert |k.procList| == 1 && k.procList[0] in k.procList;
  }
}
