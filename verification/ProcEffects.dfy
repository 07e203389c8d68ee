/** What fork, exit, wait and kill do, process by process and field by field. */
module ProcEffects {
  import opened ProcRuns
  import opened ProcSpec
  import opened Wrappers

  /** After booting there are idle with number 0 and its child init with number 1; both
      can run, outside of any call, and neither is flagged. */
  lemma BootedEffects<T>(idle: T, init: T)
    requires idle != init
    ensures var s := Booted(idle, init);
            && s.idle == idle && s.init == init && s.procs.Keys == {idle, init}
            && s.procs[idle].pid == 0 && s.procs[idle].parent == None && s.procs[idle].kids == [init]
            && s.procs[init].pid == 1 && s.procs[init].parent == Some(idle) && s.procs[init].kids == []
            && forall p :: p in s.procs ==>
                 && s.procs[p].state == Runnable && s.procs[p].context == Outside && s.procs[p].exitCode == 0
                 && !s.procs[p].exiting && !s.procs[p].wtChild
  {
  }

  /** The child can run and is the youngest child of its parent; all else is as it
      was. */
  lemma ForkEffects<T>(s: State<T>, cur: T, child: T, pid: int)
    requires cur in s.procs && child !in s.procs
    ensures var s' := Fork(s, cur, child, pid);
            && s'.procs.Keys == s.procs.Keys + {child}
            && s'.procs[child].pid == pid && s'.procs[child].parent == Some(cur) && s'.procs[child].kids == []
            && s'.procs[child].state == Runnable && s'.procs[child].context == Outside
            && !s'.procs[child].exiting && !s'.procs[child].wtChild && s'.procs[child].exitCode == 0
            && s'.procs[cur].kids == [child] + s.procs[cur].kids
            && forall p :: p in s.procs ==>
                 (p != cur ==> s'.procs[p] == s.procs[p]) && s'.procs[p].(kids := s.procs[p].kids) == s.procs[p]
  {
  }

  /** p sleeps for its children, and now one of them is a zombie: cur, or a zombie
      that cur leaves to init. */
  ghost predicate GetsZombie<T>(s: State<T>, cur: T, p: T)
    requires cur in s.procs && p in s.procs
  {
    && s.procs[p].state == Sleeping
    && (|| s.procs[cur].parent == Some(p)
        || (p == s.init && exists k :: k in s.procs[cur].kids && k in s.procs && s.procs[k].state == Zombie))
  }

  /** A process that exits is a zombie with its code and without children. Its children
      belong to init, the youngest of them behind the others. Who sleeps for a child
      and has got a zombie wakes up; nobody else's state changes. */
  lemma ExitEffects<T>(s: State<T>, cur: T, code: int)
    requires Inv(s) && ExitGuard(s, cur)
    ensures var s', kids := Exit(s, cur, code), s.procs[cur].kids;
            && s'.procs.Keys == s.procs.Keys && s'.idle == s.idle && s'.init == s.init
            && s'.procs[cur].state == Zombie && s'.procs[cur].exitCode == code && s'.procs[cur].kids == []
            && (forall p :: p in s.procs ==>
                  s'.procs[p].parent == if p in kids then Some(s.init) else s.procs[p].parent)
            && (forall p :: p in s.procs && p != cur ==>
                  s'.procs[p].state == if GetsZombie(s, cur, p) then Runnable else s.procs[p].state)
            && (forall p :: p in s.procs && p != cur && p != s.init ==> s'.procs[p].kids == s.procs[p].kids)
            && (forall p :: p in s.procs ==>
                  s'.procs[p].pid == s.procs[p].pid && s'.procs[p].exiting == s.procs[p].exiting)
            && (forall p :: p in s.procs && p != cur ==>
                  s'.procs[p].exitCode == s.procs[p].exitCode && s'.procs[p].context == s.procs[p].context)
  {
    NotOwnChild(s, cur);
    hide Family, Numbers, NoLostWakeup;
    forall p | p in s.procs
      ensures var r, r' := s.procs[p], ExitProc(s, cur, code, p);
              && r'.pid == r.pid && r'.exiting == r.exiting
              && (p != cur ==>
                    && r'.state == (if GetsZombie(s, cur, p) then Runnable else r.state)
                    && r'.exitCode == r.exitCode && r'.context == r.context
                    && r'.parent == (if p in s.procs[cur].kids then Some(s.init) else r.parent)
                    && (p != s.init ==> r'.kids == r.kids))
    {
      OtherAfterExit(s, cur, code, p);
    }
    assert ExitProc(s, cur, code, cur) == s.procs[cur].(state := Zombie, exitCode := code, kids := []);
    hide GetsZombie, HasZombie, Reverse, States, ExitProc;
  }

  lemma OtherAfterExit<T>(s: State<T>, cur: T, code: int, p: T)
    requires States(s) && cur in s.procs && p in s.procs
    ensures var r, r' := s.procs[p], ExitProc(s, cur, code, p);
            && r'.pid == r.pid && r'.exiting == r.exiting
            && (p != cur ==>
                  && r'.state == (if GetsZombie(s, cur, p) then Runnable else r.state)
                  && r'.exitCode == r.exitCode && r'.context == r.context
                  && r'.parent == (if p in s.procs[cur].kids then Some(s.init) else r.parent)
                  && (p != s.init ==> r'.kids == r.kids))
  {
    hide Reverse;
    assert StateOk(s.procs[p]);
  }

  lemma NotOwnChild<T>(s: State<T>, p: T)
    requires Family(s) && p in s.procs
    ensures p !in s.procs[p].kids
  {
    assert ParentKnowsKid(s, p);
    assert forall k :: KidOf(s, p, k) ==> s.procs[k].parent == Some(p);
  }

  lemma AdoptedChildren<T>(s: State<T>, cur: T, code: int)
    requires Inv(s) && ExitGuard(s, cur)
    ensures var kids, adopted := s.procs[cur].kids, Exit(s, cur, code).procs[s.init].kids;
            && |adopted| == |kids| + |s.procs[s.init].kids|
            && (forall i :: 0 <= i < |kids| ==> adopted[i] == kids[|kids| - 1 - i])
            && adopted[|kids|..] == s.procs[s.init].kids
  {
    assert s.init in s.procs;
    hide Family, Numbers, States, NoLostWakeup;
    var kids := s.procs[cur].kids;
    assert ExitProc(s, cur, code, s.init).kids == Reverse(kids) + s.procs[s.init].kids;
    forall i | 0 <= i < |kids|
      ensures Reverse(kids)[i] == kids[|kids| - 1 - i]
    {
      ReverseAt(kids, i);
    }
    hide Reverse, ExitProc, Inv;
  }

  lemma {:induction false} ReverseAt<T>(xs: seq<T>, i: nat)
    requires i < |xs|
    ensures Reverse(xs)[i] == xs[|xs| - 1 - i]
  {
    if i < |xs| - 1 {
      ReverseAt(xs[1..], i);
    }
  }

  /** A pass of do_wait takes the child out of the table and of its parent's list, or
      puts the caller to sleep for its target, or leaves all as it was. */
  lemma WaitEffects<T>(s: State<T>, cur: T, target: int, r: WaitResult<T>)
    requires Inv(s) && WaitGuard(s, cur) && WaitAnswer(s, cur, target, r)
    ensures var s' := WaitPass(s, cur, target, r);
            && cur in s'.procs && s'.procs.Keys == s.procs.Keys - (if r.Reaped? then {r.child} else {})
            && (forall p :: p in s'.procs && p != cur ==> s'.procs[p] == s.procs[p])
            && (forall p :: p in s'.procs[cur].kids <==> p in s.procs[cur].kids && !(r.Reaped? && p == r.child))
            && s'.procs[cur].state == (if r.Asleep? then Sleeping else Runnable)
            && s'.procs[cur].context == (if r.Asleep? then InWait(target) else Outside)
            && s'.procs[cur].exiting == s.procs[cur].exiting && s'.procs[cur].pid == s.procs[cur].pid
  {
    hide Family, Numbers, NoLostWakeup, Without, Matching, MatchingZombie;
    if r.Reaped? {
      ReapKids(s, cur, target, r.child, r.code);
      WithoutElems(s.procs[cur].kids, r.child);
    }
  }

  /** A process that is killed is flagged, and wakes up if it sleeps and was not
      flagged before. */
  lemma KillEffects<T>(s: State<T>, victim: T)
    requires Inv(s) && victim in s.procs
    ensures var s' := Killed(s, victim);
            && s'.procs.Keys == s.procs.Keys
            && (forall p :: p in s.procs && p != victim ==> s'.procs[p] == s.procs[p])
            && s'.procs[victim].exiting && s'.procs[victim].context == s.procs[victim].context
            && s'.procs[victim].kids == s.procs[victim].kids && s'.procs[victim].parent == s.procs[victim].parent
            && s'.procs[victim].state ==
               if s.procs[victim].state == Sleeping && !s.procs[victim].exiting then Runnable
               else s.procs[victim].state
  {
    assert StateOk(s.procs[victim]);
    hide Family, Numbers, NoLostWakeup;
  }

  /** A process killed in its sleep can go on behind schedule, */
  lemma KilledSleeperResumes<T>(y: System<T>, victim: T, y': System<T>, r: WaitResult<T>)
    requires Inv(y.s) && Enabled(y, Kills(victim)) && y' == Next(y, Kills(victim))
    requires y.s.procs[victim].state == Sleeping && !y.s.procs[victim].exiting && victim != y.s.init
    ensures Enabled(y', Resumes(victim, r)) && y'.s.procs[victim].exiting
  {
    hide Family, Numbers, WaitAnswer;
    KillEffects(y.s, victim);
    assert SleepsWell(y.s, victim);
  }

  /** and whatever it waited for, it exits, with the code for killed processes on
      record. */
  lemma FlaggedExits<T>(y: System<T>, p: T, r: WaitResult<T>, y': System<T>)
    requires Enabled(y, Resumes(p, r)) && y.s.procs[p].exiting && y' == Next(y, Resumes(p, r))
    ensures p in y'.s.procs && y'.s.procs[p].state == Zombie && p in y'.exits && y'.exits[p] == -E_KILLED
  {
    hide WaitAnswer, HasZombie, Reverse;
  }
}
