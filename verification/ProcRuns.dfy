/** Whole runs of the process system. Between two calls of schedule the kernel is
    not preempted, so each stretch of kernel code is one step; any runnable process
    may take the next one. Beside the processes a ledger is kept of the processes
    in the order of their creation, of what do_exit has recorded and of what
    do_wait has delivered. */
module ProcRuns {
  import opened ProcSpec
  import opened Wrappers

  /** A successful do_wait: the child, the exit code delivered and the caller. */
  datatype Delivery<T> = Delivery(child: T, code: int, caller: T)

  datatype System<T> = System(s: State<T>, births: seq<T>, exits: map<T, int>, reaps: seq<Delivery<T>>)

  datatype Action<T> =
    | Forks(cur: T, child: T, pid: int)
    | Exits(cur: T, code: int)
    | Waits(cur: T, target: int, r: WaitResult<T>)
    | Resumes(cur: T, r: WaitResult<T>)
    | Kills(victim: T)

  function Start<T>(idle: T, init: T): System<T>
  {
    System(Booted(idle, init), [idle, init], map[], [])
  }

  /** A process inside do_wait can only go on there. */
  ghost predicate Enabled<T>(y: System<T>, a: Action<T>)
  {
    match a
    case Forks(cur, child, pid) =>
      && ForkGuard(y.s, cur, child, pid) && child !in y.births
      && cur != y.s.idle && y.s.procs[cur].context == Outside
    case Exits(cur, _) => ExitGuard(y.s, cur) && y.s.procs[cur].context == Outside
    case Waits(cur, target, r) =>
      WaitGuard(y.s, cur) && y.s.procs[cur].context == Outside && WaitAnswer(y.s, cur, target, r)
    case Resumes(cur, r) =>
      && WaitGuard(y.s, cur) && y.s.procs[cur].context.InWait?
      && if y.s.procs[cur].exiting then cur != y.s.init else WaitAnswer(y.s, cur, y.s.procs[cur].context.target, r)
    case Kills(victim) => victim in y.s.procs && victim != y.s.idle
  }

  function ExitStep<T(==)>(y: System<T>, cur: T, code: int): System<T>
    requires cur in y.s.procs
  {
    y.(s := Exit(y.s, cur, code), exits := y.exits[cur := code])
  }

  function WaitStep<T(==)>(y: System<T>, cur: T, target: int, r: WaitResult<T>): System<T>
    requires cur in y.s.procs
  {
    y.(s := WaitPass(y.s, cur, target, r),
       reaps := if r.Reaped? then y.reaps + [Delivery(r.child, r.code, cur)] else y.reaps)
  }

  ghost function Next<T>(y: System<T>, a: Action<T>): System<T>
    requires Enabled(y, a)
  {
    match a
    case Forks(cur, child, pid) => y.(s := Fork(y.s, cur, child, pid), births := y.births + [child])
    case Exits(cur, code) => ExitStep(y, cur, code)
    case Waits(cur, target, r) => WaitStep(y, cur, target, r)
    case Resumes(cur, r) =>
      if y.s.procs[cur].exiting then ExitStep(y, cur, -E_KILLED)
      else WaitStep(y, cur, y.s.procs[cur].context.target, r)
    case Kills(victim) => y.(s := Killed(y.s, victim))
  }

  ghost predicate Possible<T>(y: System<T>, run: seq<Action<T>>)
    decreases |run|
  {
    run == [] || (Enabled(y, run[0]) && Possible(Next(y, run[0]), run[1..]))
  }

  ghost function After<T>(y: System<T>, run: seq<Action<T>>): System<T>
    requires Possible(y, run)
    decreases |run|
  {
    if run == [] then y else After(Next(y, run[0]), run[1..])
  }

  // ----- The invariant of the whole system -----

  ghost predicate Reaped<T>(y: System<T>, p: T)
  {
    exists i :: 0 <= i < |y.reaps| && y.reaps[i].child == p
  }

  /** The position in the order of creation. */
  ghost function Rank<T>(births: seq<T>, p: T): (r: nat)
    ensures p in births ==> r < |births| && births[r] == p
  {
    if births == [] || births[0] == p then 0 else Rank(births[1..], p) + 1
  }

  ghost predicate OlderParent<T>(y: System<T>, p: T)
  {
    && p in y.s.procs && y.s.procs[p].parent.Some?
    && y.s.procs[p].parent.value in y.births && Rank(y.births, y.s.procs[p].parent.value) < Rank(y.births, p)
  }

  /** Idle and init are the first processes. Parents are older than their children,
      and idle has no child but init. */
  ghost predicate Ancestry<T>(y: System<T>)
  {
    && |y.births| >= 2 && y.births[0] == y.s.idle && y.births[1] == y.s.init && y.s.idle != y.s.init
    && (forall p :: p in y.s.procs && p != y.s.idle ==> OlderParent(y, p))
    && y.s.idle in y.s.procs && y.s.procs[y.s.idle].kids == [y.s.init]
  }

  /** Every process created is in the table or has been reaped, not both, and is
      reaped only once. */
  ghost predicate Accounted<T>(y: System<T>)
  {
    && NoDuplicates(y.births)
    && (forall p :: p in y.births ==> p in y.s.procs || Reaped(y, p))
    && (forall p :: p in y.s.procs ==> p in y.births)
    && (forall i :: 0 <= i < |y.reaps| ==> y.reaps[i].child in y.births && y.reaps[i].child !in y.s.procs)
    && (forall i, j :: 0 <= i < j < |y.reaps| ==> y.reaps[i].child != y.reaps[j].child)
  }

  /** An exit code is on record exactly for the zombies, which still carry it, and
      for the reaped processes, for which it has been delivered. */
  ghost predicate Codes<T>(y: System<T>)
  {
    && (forall p :: p in y.exits ==> (p in y.s.procs && y.s.procs[p].state == Zombie) || Reaped(y, p))
    && (forall p :: p in y.s.procs && y.s.procs[p].state == Zombie ==>
          p in y.exits && y.s.procs[p].exitCode == y.exits[p])
    && (forall i :: 0 <= i < |y.reaps| ==> y.reaps[i].child in y.exits && y.reaps[i].code == y.exits[y.reaps[i].child])
  }

  ghost predicate SysInv<T>(y: System<T>)
  {
    Inv(y.s) && Ancestry(y) && Accounted(y) && Codes(y)
  }

  lemma StartInv<T>(idle: T, init: T)
    requires idle != init
    ensures SysInv(Start(idle, init))
  {
    var y := Start(idle, init);
    BootedInv(idle, init);
    hide Inv;
    assert Rank(y.births, idle) == 0 && Rank(y.births, init) == 1;
  }

  // ----- Each step keeps it -----

  ghost predicate IsZombie<T>(y: System<T>, p: T)
  {
    p in y.s.procs && y.s.procs[p].state == Zombie
  }

  /** A step that neither creates, reaps nor ends a process. */
  lemma SameLedger<T>(y: System<T>, y': System<T>)
    requires Accounted(y) && Codes(y)
    requires y'.births == y.births && y'.exits == y.exits && y'.reaps == y.reaps && y'.s.procs.Keys == y.s.procs.Keys
    requires forall p :: p in y.s.procs ==>
               && (y'.s.procs[p].state == Zombie <==> y.s.procs[p].state == Zombie)
               && y'.s.procs[p].exitCode == y.s.procs[p].exitCode
    ensures Accounted(y') && Codes(y')
  {
    assert forall p :: Reaped(y', p) <==> Reaped(y, p);
    hide Reaped;
  }

  /** Only the family matters for the ancestry. */
  lemma SameAncestry<T>(y: System<T>, y': System<T>)
    requires Ancestry(y) && y'.s.idle == y.s.idle && y'.s.init == y.s.init && y'.births == y.births
    requires y.s.idle in y'.s.procs
    requires forall p :: p in y'.s.procs ==> p in y.s.procs && y'.s.procs[p].parent == y.s.procs[p].parent
    requires y'.s.procs[y.s.idle].kids == y.s.procs[y.s.idle].kids
    ensures Ancestry(y')
  {
    forall p | p in y'.s.procs && p != y.s.idle
      ensures OlderParent(y', p)
    {
      assert OlderParent(y, p);
    }
  }

  lemma {:induction false} RankSnoc<T>(births: seq<T>, c: T, p: T)
    requires c !in births
    ensures p in births ==> Rank(births + [c], p) == Rank(births, p)
    ensures p == c ==> Rank(births + [c], p) == |births|
  {
    if births != [] && births[0] != p {
      assert (births + [c])[1..] == births[1..] + [c];
      RankSnoc(births[1..], c, p);
    }
  }

  lemma ForkAncestry<T>(y: System<T>, cur: T, child: T, pid: int)
    requires Accounted(y) && Ancestry(y) && Enabled(y, Forks(cur, child, pid))
    ensures Ancestry(Next(y, Forks(cur, child, pid)))
  {
    var y' := Next(y, Forks(cur, child, pid));
    assert y'.s == Fork(y.s, cur, child, pid) && cur in y.births;
    RankSnoc(y.births, child, child);
    hide Enabled, Next, Rank;
    forall p | p in y'.s.procs && p != y.s.idle
      ensures OlderParent(y', p)
    {
      if p == child {
        RankSnoc(y.births, child, cur);
        RankBelow(y.births, cur);
      } else {
        assert OlderParent(y, p);
        RankSnoc(y.births, child, p);
        RankSnoc(y.births, child, y.s.procs[p].parent.value);
      }
    }
  }

  lemma RankBelow<T>(births: seq<T>, p: T)
    requires p in births
    ensures Rank(births, p) < |births|
  {
  }

  lemma ForkLedger<T>(y: System<T>, cur: T, child: T, pid: int)
    requires Accounted(y) && Codes(y) && Enabled(y, Forks(cur, child, pid))
    ensures Accounted(Next(y, Forks(cur, child, pid))) && Codes(Next(y, Forks(cur, child, pid)))
  {
    var y' := Next(y, Forks(cur, child, pid));
    assert y'.s == Fork(y.s, cur, child, pid);
    hide Enabled, Next;
    NewLedger(y, y', child);
    hide Codes, Accounted;
  }

  /** The ledger when a process is created. */
  lemma NewLedger<T>(y: System<T>, y': System<T>, child: T)
    requires Accounted(y) && Codes(y) && child !in y.births
    requires y'.births == y.births + [child] && y'.reaps == y.reaps && y'.exits == y.exits
    requires y'.s.procs.Keys == y.s.procs.Keys + {child} && !IsZombie(y', child)
    requires forall p :: p in y.s.procs ==>
               y'.s.procs[p].exitCode == y.s.procs[p].exitCode && (IsZombie(y', p) <==> IsZombie(y, p))
    ensures Accounted(y') && Codes(y')
  {
    NoDuplicatesConcat(y.births, [child]);
    hide NoDuplicates;
    assert forall p :: Reaped(y', p) <==> Reaped(y, p);
    hide Reaped;
  }

  lemma ForkStepKeeps<T>(y: System<T>, cur: T, child: T, pid: int)
    requires SysInv(y) && Enabled(y, Forks(cur, child, pid))
    ensures SysInv(Next(y, Forks(cur, child, pid)))
  {
    hide Inv, Accounted, Codes, Ancestry;
    ForkKeepsInv(y.s, cur, child, pid);
    ForkLedger(y, cur, child, pid);
    ForkAncestry(y, cur, child, pid);
  }

  lemma ExitLedger<T>(y: System<T>, cur: T, code: int)
    requires States(y.s) && Accounted(y) && Codes(y) && ExitGuard(y.s, cur)
    ensures Accounted(ExitStep(y, cur, code)) && Codes(ExitStep(y, cur, code))
  {
    ExitCodes(y.s, cur, code);
    hide States, Exit;
    ZombieLedger(y, ExitStep(y, cur, code), cur, code);
  }

  /** The ledger when a process becomes a zombie. */
  lemma ZombieLedger<T>(y: System<T>, y': System<T>, cur: T, code: int)
    requires Accounted(y) && Codes(y) && cur in y.s.procs
    requires y'.births == y.births && y'.reaps == y.reaps && y'.exits == y.exits[cur := code]
    requires y'.s.procs.Keys == y.s.procs.Keys && IsZombie(y', cur) && y'.s.procs[cur].exitCode == code
    requires forall p :: p in y.s.procs && p != cur ==>
               y'.s.procs[p].exitCode == y.s.procs[p].exitCode && (IsZombie(y', p) <==> IsZombie(y, p))
    ensures Accounted(y') && Codes(y')
  {
    assert forall p :: Reaped(y', p) <==> Reaped(y, p);
    forall i | 0 <= i < |y.reaps|
      ensures y.reaps[i].child != cur
    {
      ReapedAt(y, i);
    }
    hide Reaped;
  }

  lemma ReapedAt<T>(y: System<T>, i: nat)
    requires i < |y.reaps|
    ensures Reaped(y, y.reaps[i].child)
  {
  }

  lemma ExitCodes<T>(s: State<T>, cur: T, code: int)
    requires ExitGuard(s, cur) && States(s)
    ensures var s' := Exit(s, cur, code);
            && s'.procs.Keys == s.procs.Keys
            && s'.procs[cur].state == Zombie && s'.procs[cur].exitCode == code
            && forall p :: p in s.procs && p != cur ==>
                 && s'.procs[p].exitCode == s.procs[p].exitCode
                 && (s'.procs[p].state == Zombie <==> s.procs[p].state == Zombie)
  {
    hide HasZombie, Reverse;
    assert forall p :: p in s.procs ==> StateOk(s.procs[p]);
  }

  lemma ExitAncestry<T>(y: System<T>, cur: T, code: int)
    requires Family(y.s) && Ancestry(y) && ExitGuard(y.s, cur)
    ensures Ancestry(ExitStep(y, cur, code))
  {
    var s', idle, init := Exit(y.s, cur, code), y.s.idle, y.s.init;
    assert ParentKnowsKid(y.s, init) && OlderParent(y, init) && OlderParent(y, cur);
    hide HasZombie, Reverse, NoDuplicates, Rank;
    forall p | p in s'.procs && p != idle
      ensures OlderParent(ExitStep(y, cur, code), p)
    {
      assert OlderParent(y, p);
      if p in y.s.procs[cur].kids {
        assert KidOf(y.s, cur, p);
        RankOfInit(y, p);
      }
    }
    assert s'.procs[idle].kids == [init];
  }

  lemma RankOfInit<T>(y: System<T>, p: T)
    requires |y.births| >= 2 && y.births[0] == y.s.idle && y.births[1] == y.s.init && y.s.idle != y.s.init
    requires p != y.s.idle && p != y.s.init
    ensures Rank(y.births, y.s.init) == 1 < Rank(y.births, p)
  {
  }

  lemma ExitStepKeeps<T>(y: System<T>, cur: T, code: int)
    requires SysInv(y) && ExitGuard(y.s, cur)
    ensures SysInv(ExitStep(y, cur, code))
  {
    hide Family, Numbers, States, NoLostWakeup, Accounted, Codes, Ancestry, ExitGuard, Exit;
    ExitKeepsInv(y.s, cur, code);
    ExitLedger(y, cur, code);
    ExitAncestry(y, cur, code);
  }

  lemma WaitStepKeeps<T>(y: System<T>, cur: T, target: int, r: WaitResult<T>)
    requires SysInv(y) && WaitGuard(y.s, cur) && WaitAnswer(y.s, cur, target, r)
    ensures SysInv(WaitStep(y, cur, target, r))
  {
    hide Family, Numbers, States, NoLostWakeup, Accounted, Codes, Ancestry, WaitAnswer, WaitPass, WaitGuard;
    WaitKeepsInv(y.s, cur, target, r);
    if r.Reaped? {
      ReapLedger(y, cur, target, r.child, r.code);
    } else {
      PassLedger(y, cur, target, r);
    }
  }

  lemma PassLedger<T>(y: System<T>, cur: T, target: int, r: WaitResult<T>)
    requires Ancestry(y) && Accounted(y) && Codes(y) && WaitGuard(y.s, cur) && !r.Reaped?
    ensures var y' := WaitStep(y, cur, target, r); Ancestry(y') && Accounted(y') && Codes(y')
  {
    hide Ancestry, Accounted, Codes;
    AncestryHasIdle(y);
    SameLedger(y, WaitStep(y, cur, target, r));
    SameAncestry(y, WaitStep(y, cur, target, r));
  }

  lemma AncestryHasIdle<T>(y: System<T>)
    requires Ancestry(y)
    ensures y.s.idle in y.s.procs
  {
  }

  lemma ReapLedger<T>(y: System<T>, cur: T, target: int, child: T, code: int)
    requires SysInv(y) && WaitGuard(y.s, cur) && WaitAnswer(y.s, cur, target, WaitResult.Reaped(child, code))
    ensures var y' := WaitStep(y, cur, target, WaitResult.Reaped(child, code));
            Ancestry(y') && Accounted(y') && Codes(y')
  {
    hide NoLostWakeup, Numbers, Accounted, Codes;
    ReapKids(y.s, cur, target, child, code);
    assert IsZombie(y, child) && code == y.s.procs[child].exitCode;
    AncestryHasIdle(y);
    hide Family, Numbers, States, NoLostWakeup, Matches, Without, WaitAnswer, Accounted, Codes, KidOf;
    var y' := WaitStep(y, cur, target, WaitResult.Reaped(child, code));
    assert y'.s.procs.Keys == y.s.procs.Keys - {child};
    assert forall p :: p in y'.s.procs ==>
      && y'.s.procs[p].parent == y.s.procs[p].parent && y'.s.procs[p].state == y.s.procs[p].state
      && y'.s.procs[p].exitCode == y.s.procs[p].exitCode;
    SameAncestry(y, y');
    hide Ancestry;
    GoneLedger(y, y', child, code, cur);
  }

  /** The ledger when a zombie goes. */
  lemma GoneLedger<T>(y: System<T>, y': System<T>, child: T, code: int, cur: T)
    requires Accounted(y) && Codes(y) && IsZombie(y, child) && code == y.s.procs[child].exitCode
    requires y'.births == y.births && y'.exits == y.exits && y'.reaps == y.reaps + [Delivery(child, code, cur)]
    requires y'.s.procs.Keys == y.s.procs.Keys - {child}
    requires forall p :: p in y'.s.procs ==>
               y'.s.procs[p].state == y.s.procs[p].state && y'.s.procs[p].exitCode == y.s.procs[p].exitCode
    ensures Accounted(y') && Codes(y')
  {
    ReapedNow(y, y', child, code, cur);
    forall i | 0 <= i < |y.reaps|
      ensures y.reaps[i].child != child
    {
      ReapedAt(y, i);
    }
    hide Reaped;
  }

  lemma ReapedNow<T>(y: System<T>, y': System<T>, child: T, code: int, cur: T)
    requires y'.reaps == y.reaps + [Delivery(child, code, cur)]
    ensures forall p :: Reaped(y', p) <==> Reaped(y, p) || p == child
  {
    forall p
      ensures Reaped(y', p) <==> Reaped(y, p) || p == child
    {
      if p == child {
        ReapedAt(y', |y.reaps|);
      } else if Reaped(y, p) {
        var i :| 0 <= i < |y.reaps| && y.reaps[i].child == p;
        ReapedAt(y', i);
        assert y'.reaps[i] == y.reaps[i];
      }
    }
  }

  lemma KillStepKeeps<T>(y: System<T>, victim: T)
    requires SysInv(y) && Enabled(y, Kills(victim))
    ensures SysInv(Next(y, Kills(victim)))
  {
    StateOkOf(y, victim);
    hide Family, Numbers, States, NoLostWakeup, Accounted, Codes, Ancestry, Killed;
    KillKeepsInv(y.s, victim);
    KillLedger(y, victim);
  }

  lemma KillLedger<T>(y: System<T>, victim: T)
    requires Ancestry(y) && Accounted(y) && Codes(y) && victim in y.s.procs && StateOk(y.s.procs[victim])
    ensures var y' := y.(s := Killed(y.s, victim)); Ancestry(y') && Accounted(y') && Codes(y')
  {
    hide Ancestry, Accounted, Codes;
    AncestryHasIdle(y);
    var y' := y.(s := Killed(y.s, victim));
    SameLedger(y, y');
    SameAncestry(y, y');
  }

  lemma StateOkOf<T>(y: System<T>, p: T)
    requires Inv(y.s) && p in y.s.procs
    ensures StateOk(y.s.procs[p])
  {
  }

  lemma StepKeeps<T>(y: System<T>, a: Action<T>)
    requires SysInv(y) && Enabled(y, a)
    ensures SysInv(Next(y, a))
  {
    match a
    case Forks(cur, child, pid) => ForkStepKeeps(y, cur, child, pid);
    case Exits(cur, code) => ExitStepKeeps(y, cur, code);
    case Waits(cur, target, r) => WaitStepKeeps(y, cur, target, r);
    case Resumes(cur, r) =>
      if y.s.procs[cur].exiting {
        ExitStepKeeps(y, cur, -E_KILLED);
      } else {
        WaitStepKeeps(y, cur, y.s.procs[cur].context.target, r);
      }
    case Kills(victim) => KillStepKeeps(y, victim);
  }

  lemma {:induction false} RunKeeps<T>(y: System<T>, run: seq<Action<T>>)
    requires SysInv(y) && Possible(y, run)
    ensures SysInv(After(y, run))
    decreases |run|
  {
    if run != [] {
      StepKeeps(y, run[0]);
      RunKeeps(Next(y, run[0]), run[1..]);
    }
  }

  // ----- What follows for every run -----

  /** In every reachable state: a process that sleeps in do_wait has a matching
      child and no matching zombie. */
  lemma NoWakeupIsLost<T>(idle: T, init: T, run: seq<Action<T>>, p: T)
    requires idle != init && Possible(Start(idle, init), run)
    ensures var s := After(Start(idle, init), run).s;
            p in s.procs && s.procs[p].state == Sleeping ==>
              && s.procs[p].context.InWait?
              && Matching(s, p, s.procs[p].context.target) && !MatchingZombie(s, p, s.procs[p].context.target)
  {
    StartInv(idle, init);
    RunKeeps(Start(idle, init), run);
    var s := After(Start(idle, init), run).s;
    assert p in s.procs ==> SleepsWell(s, p);
  }

  // ----- Exactly-once delivery -----

  /** What one step does to the ledger: exit codes on record stay as they are, and a
      delivery, if there is one, hands the code of a zombie to its parent. */
  lemma StepsAddToLedger<T>(y: System<T>, a: Action<T>)
    requires SysInv(y) && Enabled(y, a)
    ensures var y' := Next(y, a);
            && y.births <= y'.births
            && (forall p :: p in y.exits ==> p in y'.exits && y'.exits[p] == y.exits[p])
            && (y'.reaps == y.reaps || (|y'.reaps| == |y.reaps| + 1 && y'.reaps[..|y.reaps|] == y.reaps))
    ensures var y' := Next(y, a);
            |y'.reaps| == |y.reaps| + 1 ==>
              var d := y'.reaps[|y.reaps|];
              && IsZombie(y, d.child) && y.s.procs[d.child].parent == Some(d.caller)
              && d.code == y.exits[d.child] && d.child !in y'.s.procs
  {
    hide Family, Numbers, States, NoLostWakeup, Accounted, Codes, Ancestry, Exit, Fork, Killed, WaitPass, WaitAnswer;
    match a
    case Forks(_, _, _) =>
    case Exits(cur, code) => RunnableUnrecorded(y, cur);
    case Waits(cur, target, r) =>
      if r.Reaped? {
        DeliveryOf(y, cur, target, r);
      }
    case Resumes(cur, r) =>
      if y.s.procs[cur].exiting {
        RunnableUnrecorded(y, cur);
      } else if r.Reaped? {
        DeliveryOf(y, cur, y.s.procs[cur].context.target, r);
      }
    case Kills(_) =>
  }

  lemma RunnableUnrecorded<T>(y: System<T>, cur: T)
    requires Accounted(y) && Codes(y) && cur in y.s.procs && y.s.procs[cur].state == Runnable
    ensures cur !in y.exits
  {
    assert !Reaped(y, cur);
  }

  lemma DeliveryOf<T>(y: System<T>, cur: T, target: int, r: WaitResult<T>)
    requires SysInv(y) && WaitGuard(y.s, cur) && WaitAnswer(y.s, cur, target, r) && r.Reaped?
    ensures IsZombie(y, r.child) && y.s.procs[r.child].parent == Some(cur) && r.code == y.exits[r.child]
    ensures r.child !in WaitPass(y.s, cur, target, r).procs
  {
    ReapKids(y.s, cur, target, r.child, r.code);
    hide Inv;
  }

  /** In every reachable state: no process is reaped twice, and what was delivered
      for it is the code that its do_exit recorded. */
  lemma DeliveredOnce<T>(idle: T, init: T, run: seq<Action<T>>)
    requires idle != init && Possible(Start(idle, init), run)
    ensures var y := After(Start(idle, init), run);
            && (forall i, j :: 0 <= i < j < |y.reaps| ==> y.reaps[i].child != y.reaps[j].child)
            && (forall i :: 0 <= i < |y.reaps| ==>
                  y.reaps[i].child in y.exits && y.reaps[i].code == y.exits[y.reaps[i].child])
  {
    StartInv(idle, init);
    RunKeeps(Start(idle, init), run);
  }

  ghost function Living<T>(y: System<T>): set<T>
  {
    set p | p in y.s.procs && y.s.procs[p].state != Zombie
  }

  ghost function Zombies<T>(y: System<T>): set<T>
  {
    set p | p in y.s.procs && y.s.procs[p].state == Zombie
  }

  /** In every reachable state, each process created is living, a zombie or reaped. */
  lemma Conservation<T>(idle: T, init: T, run: seq<Action<T>>)
    requires idle != init && Possible(Start(idle, init), run)
    ensures var y := After(Start(idle, init), run); |y.births| == |Living(y)| + |Zombies(y)| + |y.reaps|
  {
    StartInv(idle, init);
    RunKeeps(Start(idle, init), run);
    var y := After(Start(idle, init), run);
    hide Inv, Ancestry, Codes, After, Possible;
    AccountedCount(y);
  }

  lemma AccountedCount<T>(y: System<T>)
    requires Accounted(y)
    ensures |y.births| == |Living(y)| + |Zombies(y)| + |y.reaps|
  {
    ReapedCount(y, |y.reaps|);
    AccountedSets(y);
    BirthsCount(y.births);
    hide Accounted, ReapedAmong;
    assert Living(y) + Zombies(y) == y.s.procs.Keys && Living(y) !! Zombies(y);
    hide Living, Zombies;
    assert |ReapedAmong(y, |y.reaps|) + y.s.procs.Keys| == |ReapedAmong(y, |y.reaps|)| + |y.s.procs.Keys|;
  }

  lemma AccountedSets<T>(y: System<T>)
    requires Accounted(y)
    ensures var gone := ReapedAmong(y, |y.reaps|);
            gone !! y.s.procs.Keys && gone + y.s.procs.Keys == set p | p in y.births
  {
    ReapedWereBorn(y, |y.reaps|);
    forall p | p in y.births
      ensures p in ReapedAmong(y, |y.reaps|) || p in y.s.procs
    {
      ReapedElems(y, |y.reaps|, p);
    }
    hide ReapedAmong;
  }

  ghost function ReapedAmong<T>(y: System<T>, n: nat): set<T>
    requires n <= |y.reaps|
  {
    if n == 0 then {} else ReapedAmong(y, n - 1) + {y.reaps[n - 1].child}
  }

  lemma {:induction false} ReapedElems<T>(y: System<T>, n: nat, p: T)
    requires n <= |y.reaps|
    ensures p in ReapedAmong(y, n) <==> exists i :: 0 <= i < n && y.reaps[i].child == p
  {
    if n > 0 {
      ReapedElems(y, n - 1, p);
      if y.reaps[n - 1].child != p && exists i :: 0 <= i < n && y.reaps[i].child == p {
        var i :| 0 <= i < n && y.reaps[i].child == p;
        assert i < n - 1;
      }
    }
  }

  lemma {:induction false} ReapedCount<T>(y: System<T>, n: nat)
    requires n <= |y.reaps| && forall i, j :: 0 <= i < j < |y.reaps| ==> y.reaps[i].child != y.reaps[j].child
    ensures |ReapedAmong(y, n)| == n
  {
    if n > 0 {
      ReapedCount(y, n - 1);
      ReapedElems(y, n - 1, y.reaps[n - 1].child);
    }
  }

  lemma {:induction false} ReapedWereBorn<T>(y: System<T>, n: nat)
    requires n <= |y.reaps| && Accounted(y)
    ensures ReapedAmong(y, n) <= set p | p in y.births
    ensures ReapedAmong(y, n) !! y.s.procs.Keys
  {
    if n > 0 {
      ReapedWereBorn(y, n - 1);
    }
  }

  lemma {:induction false} BirthsCount<T>(births: seq<T>)
    requires NoDuplicates(births)
    ensures |set p | p in births| == |births|
  {
    if births != [] {
      var rest := births[1..];
      BirthsCount(rest);
      assert births[0] !in rest;
      assert (set p | p in births) == (set p | p in rest) + {births[0]};
    }
  }

  // ----- Init outlives all others -----

  lemma {:induction false} NobodyWithoutInit<T>(y: System<T>, p: T)
    requires SysInv(y) && y.s.init in y.s.procs && y.s.procs[y.s.init].kids == [] && p in y.s.procs
    ensures p == y.s.idle || p == y.s.init
    decreases Rank(y.births, p)
  {
    if p != y.s.idle && p != y.s.init {
      assert OlderParent(y, p);
      var q := y.s.procs[p].parent.value;
      assert ParentKnowsKid(y.s, p) && KidOf(y.s, q, p);
      hide Family, Numbers, States, NoLostWakeup, Accounted, Codes;
      NobodyWithoutInit(y, q);
    }
  }

  /** When do_wait(0) tells init that it has no children, only idle and init are
      left: what init_main asserts behind its loop. All others have been reaped. */
  lemma InitIsLast<T>(idle: T, init: T, run: seq<Action<T>>, a: Action<T>)
    requires idle != init && Possible(Start(idle, init), run) && Enabled(After(Start(idle, init), run), a)
    requires var y := After(Start(idle, init), run);
             || a == Waits(y.s.init, 0, BadProc)
             || (a == Resumes(y.s.init, BadProc) && y.s.procs[y.s.init].context == InWait(0))
    ensures var y := After(Start(idle, init), run);
            && y.s.procs.Keys == {idle, init} && y.s.procs[init].kids == [] && y.s.procs[idle].kids == [init]
            && |y.reaps| == |y.births| - 2
  {
    StartInv(idle, init);
    RunKeeps(Start(idle, init), run);
    SameRoots(Start(idle, init), run);
    var y := After(Start(idle, init), run);
    Conservation(idle, init, run);
    hide After, Possible;
    Childless(y.s, init);
    OnlyRoots(y);
  }

  lemma {:induction false} SameRoots<T>(y: System<T>, run: seq<Action<T>>)
    requires Possible(y, run)
    ensures After(y, run).s.idle == y.s.idle && After(y, run).s.init == y.s.init
    decreases |run|
  {
    if run != [] {
      SameRoots(Next(y, run[0]), run[1..]);
    }
  }

  lemma OnlyRoots<T>(y: System<T>)
    requires SysInv(y) && y.s.init in y.s.procs && y.s.procs[y.s.init].kids == []
    ensures y.s.procs.Keys == {y.s.idle, y.s.init} && y.s.procs[y.s.idle].kids == [y.s.init]
    ensures Living(y) == {y.s.idle, y.s.init} && Zombies(y) == {} && |Living(y)| == 2
  {
    forall p | p in y.s.procs
      ensures p == y.s.idle || p == y.s.init
    {
      NobodyWithoutInit(y, p);
    }
    RootsLive(y.s);
    hide Family, Numbers, States, NoLostWakeup, Accounted, Codes;
  }

  lemma RootsLive<T>(s: State<T>)
    requires Inv(s)
    ensures s.idle in s.procs && s.init in s.procs && s.idle != s.init
    ensures s.procs[s.idle].state != Zombie && s.procs[s.init].state != Zombie
  {
  }

  lemma Childless<T>(s: State<T>, p: T)
    requires Inv(s) && p in s.procs && !Matching(s, p, 0)
    ensures s.procs[p].kids == []
  {
    if s.procs[p].kids != [] {
      var k := s.procs[p].kids[0];
      assert KidOf(s, p, k);
      assert Matches(s, p, 0, k);
    }
  }

  /** In every reachable state the parent of a process is alive and can wait for it. */
  lemma ParentsLive<T>(idle: T, init: T, run: seq<Action<T>>, p: T)
    requires idle != init && Possible(Start(idle, init), run)
    requires p in After(Start(idle, init), run).s.procs && p != After(Start(idle, init), run).s.idle
    ensures var y := After(Start(idle, init), run);
            y.s.procs[p].parent.Some? && y.s.procs[p].parent.value in Living(y)
  {
    StartInv(idle, init);
    RunKeeps(Start(idle, init), run);
    var y := After(Start(idle, init), run);
    assert ParentKnowsKid(y.s, p);
    StateOkOf(y, y.s.procs[p].parent.value);
  }

  // ----- Waiting never deadlocks -----

  /** Each is a child of the one before. */
  ghost predicate Lineage<T>(s: State<T>, line: seq<T>)
  {
    forall i :: 0 <= i < |line| - 1 ==> KidOf(s, line[i], line[i + 1])
  }

  lemma AwaitedChild<T>(y: System<T>, p: T) returns (k: T)
    requires SysInv(y) && p in y.s.procs && y.s.procs[p].state == Sleeping
    ensures KidOf(y.s, p, k) && k in y.s.procs && (y.s.procs[k].state == Sleeping || y.s.procs[k].state == Runnable)
    ensures k in y.births && Rank(y.births, p) < Rank(y.births, k)
  {
    assert SleepsWell(y.s, p);
    var target := y.s.procs[p].context.target;
    k :| Matches(y.s, p, target, k);
    assert y.s.procs[k].parent == Some(p) && OlderParent(y, k);
    StateOkOf(y, k);
  }

  lemma {:induction false} AwaitedRunner<T>(y: System<T>, p: T) returns (line: seq<T>)
    requires SysInv(y) && p in y.s.procs && y.s.procs[p].state == Sleeping
    ensures |line| >= 2 && line[0] == p && Lineage(y.s, line)
    ensures var q := line[|line| - 1]; q in y.s.procs && y.s.procs[q].state == Runnable
    decreases |y.births| - Rank(y.births, p)
  {
    hide SysInv, KidOf, Rank;
    var k := AwaitedChild(y, p);
    if y.s.procs[k].state == Runnable {
      line := [p, k];
    } else {
      RankBelow(y.births, k);
      var rest := AwaitedRunner(y, k);
      line := [p] + rest;
      forall i | 0 <= i < |line| - 1
        ensures KidOf(y.s, line[i], line[i + 1])
      {
        assert i > 0 ==> KidOf(y.s, rest[i - 1], rest[i]);
      }
    }
  }

  /** In every reachable state each process asleep in do_wait has a descendant that
      can run: no cycle of waiting processes exists. */
  lemma SomeDescendantRuns<T>(idle: T, init: T, run: seq<Action<T>>, p: T) returns (line: seq<T>)
    requires idle != init && Possible(Start(idle, init), run)
    requires p in After(Start(idle, init), run).s.procs && After(Start(idle, init), run).s.procs[p].state == Sleeping
    ensures var s := After(Start(idle, init), run).s;
            && |line| >= 2 && line[0] == p && Lineage(s, line)
            && var q := line[|line| - 1]; q in s.procs && s.procs[q].state == Runnable
  {
    StartInv(idle, init);
    RunKeeps(Start(idle, init), run);
    line := AwaitedRunner(After(Start(idle, init), run), p);
  }

  // ----- Extending runs -----

  lemma {:induction false} RunSnoc<T>(y: System<T>, run: seq<Action<T>>, a: Action<T>)
    requires Possible(y, run) && Enabled(After(y, run), a)
    ensures Possible(y, run + [a]) && After(y, run + [a]) == Next(After(y, run), a)
    decreases |run|
  {
    if run == [] {
      assert ([] + [a])[1..] == [];
    } else {
      assert (run + [a])[1..] == run[1..] + [a];
      RunSnoc(Next(y, run[0]), run[1..], a);
    }
  }
}
