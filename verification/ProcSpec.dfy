/** The process life cycle on values: what fork, exit, wait and kill do to the
    family of processes, and the invariant that all of them keep. Processes are
    identified by values of a type T, which outlive their process numbers. */
module ProcSpec {
  import opened PidAlloc
  import opened Wrappers

  const E_KILLED := 9

  datatype PState = Uninit | Sleeping | Runnable | Zombie

  /** Where a process continues when it is scheduled: outside of do_wait, or in
      do_wait behind the call of schedule. */
  datatype Context = Outside | InWait(target: int)

  /** wtChild is the wait state WT_CHILD; kids are the children from the youngest
      to the oldest. */
  datatype Proc<T> = Proc(pid: int, state: PState, wtChild: bool, context: Context, exiting: bool, exitCode: int,
                          parent: Option<T>, kids: seq<T>)

  datatype State<T> = State(procs: map<T, Proc<T>>, idle: T, init: T)

  function Put<T>(s: State<T>, p: T, r: Proc<T>): State<T>
  {
    s.(procs := s.procs[p := r])
  }

  /** k is one of the children of p. */
  predicate KidOf<T(==)>(s: State<T>, older p: T, older k: T)
  {
    p in s.procs && k in s.procs[p].kids
  }

  /** The family after booting: idle and its child init. */
  function Booted<T>(idle: T, init: T): State<T>
  {
    State(map[idle := Proc(0, Runnable, false, Outside, false, 0, None, [init]), init := NewProc(1, idle)], idle, init)
  }

  // ----- Waking up -----

  function WokenUp<T>(r: Proc<T>): Proc<T>
  {
    if r.state == Runnable then r else r.(state := Runnable, wtChild := false)
  }

  // ----- Fork -----

  function NewProc<T>(pid: int, parent: T): Proc<T>
  {
    Proc(pid, Runnable, false, Outside, false, 0, Some(parent), [])
  }

  function Fork<T(==)>(s: State<T>, cur: T, child: T, pid: int): State<T>
    requires cur in s.procs
  {
    Put(Put(s, cur, s.procs[cur].(kids := [child] + s.procs[cur].kids)), child, NewProc(pid, cur))
  }

  // ----- Exit -----

  function Reverse<T>(xs: seq<T>): (r: seq<T>)
    ensures |r| == |xs|
  {
    if xs == [] then [] else Reverse(xs[1..]) + [xs[0]]
  }

  predicate HasZombie<T>(s: State<T>, ps: seq<T>)
  {
    exists p :: p in ps && p in s.procs && s.procs[p].state == Zombie
  }

  /** The process is a zombie without children; its parent no longer sleeps in
      do_wait; its children belong to init, in front of init's own and in
      reverse order; and init no longer sleeps if one of them is a zombie. */
  function ExitProc<T(==)>(s: State<T>, cur: T, code: int, p: T): (r: Proc<T>)
    requires cur in s.procs && p in s.procs
  {
    var r := s.procs[p];
    var moved := s.procs[cur].kids;
    if p == cur then r.(state := Zombie, exitCode := code, kids := [])
    else
      var woken := r.wtChild && (s.procs[cur].parent == Some(p) || (p == s.init && HasZombie(s, moved)));
      var r1 := if woken then WokenUp(r) else r;
      var r2 := if p in moved then r1.(parent := Some(s.init)) else r1;
      if p == s.init then r2.(kids := Reverse(moved) + r2.kids) else r2
  }

  function Exit<T(==)>(s: State<T>, cur: T, code: int): State<T>
    requires cur in s.procs
  {
    s.(procs := map p | p in s.procs :: ExitProc(s, cur, code, p))
  }

  // ----- Wait -----

  /** k is a child of cur that the target selects: one pid, or any child for 0. */
  predicate Matches<T(==)>(s: State<T>, older cur: T, target: int, older k: T)
  {
    KidOf(s, cur, k) && k in s.procs && (target == 0 || s.procs[k].pid == target)
  }

  ghost predicate MatchingZombie<T>(s: State<T>, cur: T, target: int)
  {
    exists k :: Matches(s, cur, target, k) && s.procs[k].state == Zombie
  }

  ghost predicate Matching<T>(s: State<T>, cur: T, target: int)
  {
    exists k :: Matches(s, cur, target, k)
  }

  datatype WaitResult<T> = Reaped(child: T, code: int) | Asleep | BadProc

  /** What one pass of do_wait may answer: a matching zombie and its exit code;
      sleep if there are matching children but no zombie among them; and an error
      exactly if no child matches. */
  ghost predicate WaitAnswer<T>(s: State<T>, cur: T, target: int, r: WaitResult<T>)
  {
    match r
    case Reaped(child, code) =>
      Matches(s, cur, target, child) && s.procs[child].state == Zombie && code == s.procs[child].exitCode
    case Asleep => Matching(s, cur, target) && !MatchingZombie(s, cur, target)
    case BadProc => !Matching(s, cur, target)
  }

  function Without<T(==)>(xs: seq<T>, x: T): seq<T>
  {
    if xs == [] then [] else if xs[0] == x then Without(xs[1..], x) else [xs[0]] + Without(xs[1..], x)
  }

  /** The state after a pass: a zombie is gone, or the caller sleeps, or nothing. */
  function WaitPass<T(==)>(s: State<T>, cur: T, target: int, r: WaitResult<T>): State<T>
    requires cur in s.procs
  {
    var me := s.procs[cur].(context := Outside);
    match r
    case Reaped(child, _) =>
      s.(procs := s.procs[cur := me.(kids := Without(me.kids, child))] - {child})
    case Asleep => Put(s, cur, me.(state := Sleeping, wtChild := true, context := InWait(target)))
    case BadProc => Put(s, cur, me)
  }

  // ----- Kill -----

  function Killed<T>(s: State<T>, p: T): State<T>
    requires p in s.procs
  {
    var r := s.procs[p];
    if r.exiting then s
    else if r.wtChild then Put(s, p, WokenUp(r.(exiting := true)))
    else Put(s, p, r.(exiting := true))
  }

  // ----- The invariant -----

  ghost predicate NoDuplicates<T>(xs: seq<T>)
  {
    forall i, j :: 0 <= i < j < |xs| ==> xs[i] != xs[j]
  }

  ghost predicate Roots<T>(s: State<T>)
  {
    && s.idle in s.procs && s.init in s.procs && s.idle != s.init
    && s.procs[s.idle].parent == None && s.procs[s.init].parent == Some(s.idle)
  }

  ghost predicate KidsKnowParent<T>(s: State<T>)
  {
    forall p, k :: KidOf(s, p, k) ==> k in s.procs && s.procs[k].parent == Some(p)
  }

  ghost predicate ParentKnowsKid<T>(s: State<T>, k: T)
  {
    k in s.procs && k != s.idle ==>
      s.procs[k].parent.Some? && s.procs[k].parent.value != k && KidOf(s, s.procs[k].parent.value, k)
  }

  /** Each process is in exactly the child list of its parent, once; only idle has
      no parent. */
  ghost predicate Family<T>(s: State<T>)
  {
    && Roots(s) && KidsKnowParent(s)
    && (forall k :: k in s.procs ==> ParentKnowsKid(s, k))
    && (forall p :: p in s.procs ==> NoDuplicates(s.procs[p].kids))
  }

  ghost predicate Numbers<T>(s: State<T>)
  {
    && (forall p :: p in s.procs && p != s.idle ==> 0 < s.procs[p].pid < MAX_PID)
    && (s.idle in s.procs ==> s.procs[s.idle].pid == 0)
    && (forall p, q :: p in s.procs && q in s.procs && s.procs[p].pid == s.procs[q].pid ==> p == q)
  }

  /** A zombie has no children; a process sleeps exactly if its wait state says so. */
  predicate StateOk<T>(r: Proc<T>)
  {
    r.state != Uninit && (r.state == Zombie ==> r.kids == []) && (r.wtChild <==> r.state == Sleeping)
  }

  ghost predicate States<T>(s: State<T>)
  {
    && (forall p :: p in s.procs ==> StateOk(s.procs[p]))
    && (s.idle in s.procs ==> s.procs[s.idle].state == Runnable)
    && (s.init in s.procs ==> s.procs[s.init].state != Zombie)
  }

  /** No lost wakeup for p: if it sleeps in do_wait, it has a child that matches
      its target, and none of the matching children is a zombie already. */
  ghost predicate SleepsWell<T>(s: State<T>, p: T)
    requires p in s.procs
  {
    s.procs[p].state == Sleeping ==>
      s.procs[p].context.InWait? && WaitAnswer(s, p, s.procs[p].context.target, Asleep)
  }

  ghost predicate NoLostWakeup<T>(s: State<T>)
  {
    forall p :: p in s.procs ==> SleepsWell(s, p)
  }

  ghost predicate Inv<T>(s: State<T>)
  {
    Family(s) && Numbers(s) && States(s) && NoLostWakeup(s)
  }

  // ----- Lists -----

  lemma {:induction false} ReverseElems<T>(xs: seq<T>)
    ensures forall x :: x in Reverse(xs) <==> x in xs
    ensures forall i :: 0 <= i < |xs| ==> Reverse(xs)[i] in xs
    ensures NoDuplicates(xs) ==> NoDuplicates(Reverse(xs))
  {
    if xs != [] {
      ReverseElems(xs[1..]);
      if NoDuplicates(xs) {
        assert xs[0] !in xs[1..];
      }
    }
  }

  lemma {:induction false} WithoutElems<T>(xs: seq<T>, x: T)
    ensures forall y :: y in Without(xs, x) <==> y in xs && y != x
    ensures forall i :: 0 <= i < |Without(xs, x)| ==> Without(xs, x)[i] in xs && Without(xs, x)[i] != x
    ensures NoDuplicates(xs) ==> NoDuplicates(Without(xs, x))
  {
    if xs != [] {
      WithoutElems(xs[1..], x);
      if NoDuplicates(xs) {
        assert xs[0] !in xs[1..];
        assert NoDuplicates(xs[1..]);
      }
    }
  }

  lemma NoDuplicatesConcat<T>(xs: seq<T>, ys: seq<T>)
    requires NoDuplicates(xs) && NoDuplicates(ys) && forall x :: x in xs ==> x !in ys
    ensures NoDuplicates(xs + ys)
  {
    forall i, j | 0 <= i < j < |xs + ys|
      ensures (xs + ys)[i] != (xs + ys)[j]
    {
      if i < |xs| && |xs| <= j {
        assert xs[i] in xs && ys[j - |xs|] in ys;
      }
    }
  }

  // ----- Sleeping well -----

  /** A sleeper keeps sleeping well if it keeps a matching child and gets no
      matching zombie. */
  lemma StillAsleep<T>(s: State<T>, s': State<T>, p: T, target: int)
    requires WaitAnswer(s, p, target, Asleep)
    requires forall k :: Matches(s, p, target, k) ==> Matches(s', p, target, k)
    requires forall k :: Matches(s', p, target, k) && s'.procs[k].state == Zombie ==>
               Matches(s, p, target, k) && s.procs[k].state == Zombie
    ensures WaitAnswer(s', p, target, Asleep)
  {
    hide Matches;
    var k :| Matches(s, p, target, k);
    assert Matches(s', p, target, k);
  }

  /** It does so if its own record is the same and its children neither change
      their numbers nor become zombies. */
  lemma UnchangedSleeper<T>(s: State<T>, s': State<T>, p: T)
    requires p in s.procs && p in s'.procs && SleepsWell(s, p)
    requires s'.procs[p].state == Sleeping ==>
               && s'.procs[p].kids == s.procs[p].kids && s'.procs[p].context == s.procs[p].context
               && s.procs[p].state == Sleeping
    requires forall k :: KidOf(s, p, k) && k in s.procs && s'.procs[p].state == Sleeping ==>
               && k in s'.procs && s'.procs[k].pid == s.procs[k].pid
               && (s'.procs[k].state == Zombie ==> s.procs[k].state == Zombie)
    requires KidsKnowParent(s)
    ensures SleepsWell(s', p)
  {
    if s'.procs[p].state == Sleeping {
      StillAsleep(s, s', p, s.procs[p].context.target);
    }
  }

  lemma BootedInv<T>(idle: T, init: T)
    requires idle != init
    ensures Inv(Booted(idle, init))
  {
    var s := Booted(idle, init);
    assert ParentKnowsKid(s, init);
    assert NoDuplicates([init]) && NoDuplicates<T>([]);
  }

  // ----- Fork keeps the invariant -----

  ghost predicate ForkGuard<T>(s: State<T>, cur: T, child: T, pid: int)
  {
    && cur in s.procs && s.procs[cur].state == Runnable && child !in s.procs
    && 0 < pid < MAX_PID && forall p :: p in s.procs ==> s.procs[p].pid != pid
  }

  lemma ForkKids<T>(s: State<T>, cur: T, child: T, pid: int)
    requires cur in s.procs && child !in s.procs
    ensures var s' := Fork(s, cur, child, pid);
            forall p, k :: KidOf(s', p, k) <==> KidOf(s, p, k) || (p == cur && k == child)
  {
  }

  lemma ForkFamily<T>(s: State<T>, cur: T, child: T, pid: int)
    requires Family(s) && cur in s.procs && child !in s.procs
    ensures Family(Fork(s, cur, child, pid))
  {
    var s' := Fork(s, cur, child, pid);
    ForkKids(s, cur, child, pid);
    assert child !in s.procs[cur].kids by {
      assert KidOf(s, cur, child) ==> child in s.procs;
    }
    NoDuplicatesConcat([child], s.procs[cur].kids);
    assert NoDuplicates<T>([]);
    hide KidOf, NoDuplicates;
    assert Roots(s') && KidsKnowParent(s');
    forall k | k in s'.procs
      ensures ParentKnowsKid(s', k)
    {
      assert k == child || ParentKnowsKid(s, k);
    }
  }

  lemma ForkRest<T>(s: State<T>, cur: T, child: T, pid: int)
    requires Roots(s) && Numbers(s) && States(s) && ForkGuard(s, cur, child, pid)
    ensures Numbers(Fork(s, cur, child, pid)) && States(Fork(s, cur, child, pid))
  {
  }

  lemma ForkKeepsInv<T>(s: State<T>, cur: T, child: T, pid: int)
    requires Inv(s) && ForkGuard(s, cur, child, pid)
    ensures Inv(Fork(s, cur, child, pid))
  {
    var s' := Fork(s, cur, child, pid);
    ForkFamily(s, cur, child, pid);
    ForkRest(s, cur, child, pid);
    forall p | p in s'.procs
      ensures SleepsWell(s', p)
    {
      if p in s.procs {
        assert SleepsWell(s, p);
        UnchangedSleeper(s, s', p);
      }
    }
    hide Family, Numbers, States, SleepsWell;
  }

  // ----- Exit keeps the invariant -----

  ghost predicate ExitGuard<T>(s: State<T>, cur: T)
  {
    cur in s.procs && s.procs[cur].state == Runnable && cur != s.idle && cur != s.init
  }

  lemma ExitKids<T>(s: State<T>, cur: T, code: int)
    requires s.init in s.procs && cur in s.procs && cur != s.init
    ensures var s' := Exit(s, cur, code);
            forall p, k :: KidOf(s', p, k) <==> p != cur && (KidOf(s, p, k) || (p == s.init && KidOf(s, cur, k)))
  {
    ReverseElems(s.procs[cur].kids);
    hide HasZombie, Reverse, WokenUp;
  }

  /** The fields that an exit does not change, and the new parents. */
  lemma ExitFields<T>(s: State<T>, cur: T, code: int)
    requires cur in s.procs
    ensures var s' := Exit(s, cur, code);
            && s'.procs.Keys == s.procs.Keys && s'.idle == s.idle && s'.init == s.init
            && forall p :: p in s.procs ==>
                 && s'.procs[p].pid == s.procs[p].pid
                 && s'.procs[p].parent == (if p != cur && KidOf(s, cur, p) then Some(s.init) else s.procs[p].parent)
                 && (p != cur && s'.procs[p].state == Sleeping ==> s.procs[p].state == Sleeping)
                 && s'.procs[p].context == s.procs[p].context
                 && (s'.procs[p].state == Zombie ==> p == cur || s.procs[p].state == Zombie)
  {
    hide HasZombie, Reverse;
  }

  lemma ExitLists<T>(s: State<T>, cur: T, code: int)
    requires Family(s) && ExitGuard(s, cur)
    ensures forall p :: p in s.procs ==> NoDuplicates(Exit(s, cur, code).procs[p].kids)
  {
    ReverseElems(s.procs[cur].kids);
    forall k | k in Reverse(s.procs[cur].kids)
      ensures k !in s.procs[s.init].kids
    {
      assert KidOf(s, cur, k);
      assert !KidOf(s, s.init, k);
    }
    NoDuplicatesConcat(Reverse(s.procs[cur].kids), s.procs[s.init].kids);
    assert NoDuplicates<T>([]);
    hide NoDuplicates, HasZombie, Reverse, KidOf;
  }

  lemma ExitFamily<T>(s: State<T>, cur: T, code: int)
    requires Family(s) && ExitGuard(s, cur)
    ensures Family(Exit(s, cur, code))
  {
    var s' := Exit(s, cur, code);
    ExitLists(s, cur, code);
    ExitKids(s, cur, code);
    ExitFields(s, cur, code);
    hide Exit, KidOf, NoDuplicates;
    assert ParentKnowsKid(s, s.init) && ParentKnowsKid(s, cur);
    assert Roots(s') && KidsKnowParent(s');
    forall k | k in s'.procs
      ensures ParentKnowsKid(s', k)
    {
      assert ParentKnowsKid(s, k);
    }
  }

  lemma ExitRest<T>(s: State<T>, cur: T, code: int)
    requires Roots(s) && Numbers(s) && States(s) && ExitGuard(s, cur)
    ensures Numbers(Exit(s, cur, code)) && States(Exit(s, cur, code))
  {
    var s' := Exit(s, cur, code);
    ExitFields(s, cur, code);
    assert Numbers(s') by {
      hide Exit, States;
    }
    hide HasZombie, Reverse, Numbers;
    forall p | p in s'.procs
      ensures StateOk(s'.procs[p])
    {
      assert StateOk(s.procs[p]);
    }
  }

  /** A process that still sleeps after the exit is not the parent of the new
      zombie, and if it is init, it has received no zombies. */
  lemma ExitWakes<T>(s: State<T>, cur: T, code: int, p: T)
    requires States(s) && ExitGuard(s, cur) && p in s.procs && Exit(s, cur, code).procs[p].state == Sleeping
    ensures p != cur && s.procs[p].state == Sleeping && s.procs[cur].parent != Some(p)
    ensures p == s.init ==> !HasZombie(s, s.procs[cur].kids)
    ensures p != s.init ==> Exit(s, cur, code).procs[p].kids == s.procs[p].kids
  {
    hide HasZombie, Reverse;
    assert StateOk(s.procs[p]);
  }

  lemma ExitSleeper<T>(s: State<T>, cur: T, code: int, p: T)
    requires Inv(s) && ExitGuard(s, cur) && p in s.procs && Exit(s, cur, code).procs[p].state == Sleeping
    ensures SleepsWell(Exit(s, cur, code), p)
  {
    var s' := Exit(s, cur, code);
    ExitWakes(s, cur, code, p);
    ExitKids(s, cur, code);
    ExitFields(s, cur, code);
    assert SleepsWell(s, p);
    assert ParentKnowsKid(s, cur) && !KidOf(s, p, cur) && !KidOf(s, cur, cur);
    var target := s.procs[p].context.target;
    forall k | Matches(s', p, target, k) && s'.procs[k].state == Zombie
      ensures Matches(s, p, target, k) && s.procs[k].state == Zombie
    {
      assert !(p == s.init && KidOf(s, cur, k));
    }
    hide Exit, HasZombie;
    StillAsleep(s, s', p, target);
  }

  lemma ExitKeepsInv<T>(s: State<T>, cur: T, code: int)
    requires Inv(s) && ExitGuard(s, cur)
    ensures Inv(Exit(s, cur, code))
  {
    var s' := Exit(s, cur, code);
    ExitFamily(s, cur, code);
    ExitRest(s, cur, code);
    ExitFields(s, cur, code);
    hide Exit, Family, Numbers, States;
    forall p | p in s'.procs
      ensures SleepsWell(s', p)
    {
      if s'.procs[p].state == Sleeping {
        ExitSleeper(s, cur, code, p);
      }
    }
  }

  // ----- Wait keeps the invariant -----

  ghost predicate WaitGuard<T>(s: State<T>, cur: T)
  {
    cur in s.procs && s.procs[cur].state == Runnable && cur != s.idle
  }

  lemma ReapKids<T>(s: State<T>, cur: T, target: int, child: T, code: int)
    requires Family(s) && States(s) && WaitGuard(s, cur) && WaitAnswer(s, cur, target, Reaped(child, code))
    ensures child != cur && child in s.procs && child != s.idle && child != s.init
    ensures s.procs[child].kids == [] && s.procs[child].parent == Some(cur)
    ensures var s' := WaitPass(s, cur, target, Reaped(child, code));
            && s'.procs.Keys == s.procs.Keys - {child} && s'.idle == s.idle && s'.init == s.init
            && forall p, k :: KidOf(s', p, k) <==> KidOf(s, p, k) && k != child
  {
    WithoutElems(s.procs[cur].kids, child);
    assert StateOk(s.procs[child]);
    assert KidOf(s, cur, child);
    forall p | KidOf(s, p, child)
      ensures p == cur
    {
    }
    hide NoDuplicates, Without;
  }

  lemma ReapFamily<T>(s: State<T>, cur: T, target: int, child: T, code: int)
    requires Family(s) && States(s) && WaitGuard(s, cur) && WaitAnswer(s, cur, target, Reaped(child, code))
    ensures Family(WaitPass(s, cur, target, Reaped(child, code)))
  {
    var s' := WaitPass(s, cur, target, Reaped(child, code));
    ReapKids(s, cur, target, child, code);
    WithoutElems(s.procs[cur].kids, child);
    hide KidOf, NoDuplicates, Without, States;
    assert Roots(s') && KidsKnowParent(s');
    forall k | k in s'.procs
      ensures ParentKnowsKid(s', k)
    {
      assert ParentKnowsKid(s, k);
    }
  }

  lemma ReapRest<T>(s: State<T>, cur: T, target: int, child: T, code: int)
    requires Family(s) && Numbers(s) && States(s) && WaitGuard(s, cur)
    requires WaitAnswer(s, cur, target, Reaped(child, code))
    ensures var s' := WaitPass(s, cur, target, Reaped(child, code)); Numbers(s') && States(s')
  {
    ReapKids(s, cur, target, child, code);
    hide Family, Without;
  }

  lemma ReapKeepsInv<T>(s: State<T>, cur: T, target: int, child: T, code: int)
    requires Inv(s) && WaitGuard(s, cur) && WaitAnswer(s, cur, target, Reaped(child, code))
    ensures Inv(WaitPass(s, cur, target, Reaped(child, code)))
  {
    var s' := WaitPass(s, cur, target, Reaped(child, code));
    ReapFamily(s, cur, target, child, code);
    ReapKids(s, cur, target, child, code);
    ReapRest(s, cur, target, child, code);
    hide Family, Numbers, States, Without;
    forall p | p in s'.procs
      ensures SleepsWell(s', p)
    {
      assert SleepsWell(s, p);
      if s'.procs[p].state == Sleeping {
        ReapSleeper(s, cur, target, child, code, p);
      }
    }
  }

  lemma ReapSleeper<T>(s: State<T>, cur: T, target: int, child: T, code: int, p: T)
    requires Inv(s) && WaitGuard(s, cur) && WaitAnswer(s, cur, target, Reaped(child, code))
    requires p in s.procs && p != child && p != cur && s.procs[p].state == Sleeping
    ensures SleepsWell(WaitPass(s, cur, target, Reaped(child, code)), p)
  {
    var s' := WaitPass(s, cur, target, Reaped(child, code));
    ReapKids(s, cur, target, child, code);
    assert SleepsWell(s, p);
    assert !KidOf(s, p, child);
    hide Numbers, States, Without;
    StillAsleep(s, s', p, s.procs[p].context.target);
  }

  /** A step that changes one process, but neither its children, its parent nor
      its number. */
  lemma OneProcessKids<T>(s: State<T>, p: T, r: Proc<T>)
    requires p in s.procs && r.kids == s.procs[p].kids
    ensures forall q, k :: KidOf(Put(s, p, r), q, k) <==> KidOf(s, q, k)
  {
  }

  lemma OneProcessFamily<T>(s: State<T>, p: T, r: Proc<T>)
    requires Family(s) && Numbers(s) && p in s.procs
    requires r.kids == s.procs[p].kids && r.parent == s.procs[p].parent && r.pid == s.procs[p].pid
    ensures Family(Put(s, p, r)) && Numbers(Put(s, p, r))
  {
    OneProcessNumbers(s, p, r);
    hide Numbers, KidOf, NoDuplicates;
    var s' := Put(s, p, r);
    OneProcessKids(s, p, r);
    forall k | k in s'.procs
      ensures ParentKnowsKid(s', k)
    {
      assert ParentKnowsKid(s, k);
    }
  }

  lemma OneProcessNumbers<T>(s: State<T>, p: T, r: Proc<T>)
    requires Numbers(s) && p in s.procs && r.pid == s.procs[p].pid
    ensures Numbers(Put(s, p, r))
  {
  }

  /** If it does not become a zombie either, all other sleepers sleep on. */
  lemma OneProcessSleepers<T>(s: State<T>, p: T, r: Proc<T>)
    requires Inv(s) && p in s.procs && r.state != Zombie
    requires r.kids == s.procs[p].kids && r.parent == s.procs[p].parent && r.pid == s.procs[p].pid
    ensures forall q :: q in s.procs && q != p ==> SleepsWell(Put(s, p, r), q)
  {
    var s' := Put(s, p, r);
    forall q | q in s.procs && q != p
      ensures SleepsWell(s', q)
    {
      assert SleepsWell(s, q);
      UnchangedSleeper(s, s', q);
    }
  }

  lemma SleepKeepsInv<T>(s: State<T>, cur: T, target: int)
    requires Inv(s) && WaitGuard(s, cur) && WaitAnswer(s, cur, target, Asleep)
    ensures Inv(WaitPass(s, cur, target, Asleep))
  {
    var r := s.procs[cur].(context := InWait(target), state := Sleeping, wtChild := true);
    var s' := Put(s, cur, r);
    assert s' == WaitPass(s, cur, target, Asleep);
    OneProcessFamily(s, cur, r);
    OneProcessSleepers(s, cur, r);
    StillAsleepMyself(s, cur, target, r);
    hide Family, Numbers;
    assert States(s');
  }

  lemma StillAsleepMyself<T>(s: State<T>, cur: T, target: int, r: Proc<T>)
    requires WaitAnswer(s, cur, target, Asleep) && cur in s.procs && r.kids == s.procs[cur].kids
    requires r.pid == s.procs[cur].pid && r.state == Sleeping && r.context == InWait(target)
    ensures SleepsWell(Put(s, cur, r), cur)
  {
    StillAsleep(s, Put(s, cur, r), cur, target);
  }

  lemma WaitKeepsInv<T>(s: State<T>, cur: T, target: int, r: WaitResult<T>)
    requires Inv(s) && WaitGuard(s, cur) && WaitAnswer(s, cur, target, r)
    ensures Inv(WaitPass(s, cur, target, r))
  {
    match r
    case Reaped(child, code) => ReapKeepsInv(s, cur, target, child, code);
    case Asleep => SleepKeepsInv(s, cur, target);
    case BadProc => AwakeKeepsInv(s, cur, s.procs[cur].(context := Outside));
  }

  /** A process that is or becomes runnable. */
  lemma AwakeKeepsInv<T>(s: State<T>, p: T, r: Proc<T>)
    requires Inv(s) && p in s.procs && r.state == Runnable && !r.wtChild
    requires r.kids == s.procs[p].kids && r.parent == s.procs[p].parent && r.pid == s.procs[p].pid
    ensures Inv(Put(s, p, r))
  {
    OneProcessFamily(s, p, r);
    OneProcessSleepers(s, p, r);
    hide Family, Numbers;
  }

  // ----- Kill keeps the invariant -----

  lemma KillKeepsInv<T>(s: State<T>, p: T)
    requires Inv(s) && p in s.procs
    ensures Inv(Killed(s, p))
  {
    var r := s.procs[p];
    assert StateOk(r);
    if !r.exiting {
      if r.wtChild {
        AwakeKeepsInv(s, p, WokenUp(r.(exiting := true)));
      } else if r.state == Runnable {
        AwakeKeepsInv(s, p, r.(exiting := true));
      } else {
        FlaggedZombie(s, p);
      }
    }
  }

  lemma FlaggedZombie<T>(s: State<T>, p: T)
    requires Inv(s) && p in s.procs && s.procs[p].state == Zombie
    ensures Inv(Put(s, p, s.procs[p].(exiting := true)))
  {
    var r := s.procs[p].(exiting := true);
    var s' := Put(s, p, r);
    OneProcessFamily(s, p, r);
    forall q | q in s'.procs
      ensures SleepsWell(s', q)
    {
      assert SleepsWell(s, q);
      if s'.procs[q].state == Sleeping {
        StillAsleep(s, s', q, s.procs[q].context.target);
      }
    }
    hide Family, Numbers;
  }
}
