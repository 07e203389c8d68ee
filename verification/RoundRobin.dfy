/** The scheduler of lab5, which goes round the process list, and why every process
    that can run gets its turn, however many others are created meanwhile. */
module RoundRobin {
  import opened ProcSpec
  import opened ProcRuns

  predicate CanRun<T(==)>(s: State<T>, p: T)
  {
    p in s.procs && s.procs[p].state == ProcSpec.Runnable
  }

  // ----- The process list -----

  /** The processes of alive, the youngest first. */
  ghost function LineOf<T>(births: seq<T>, alive: set<T>): seq<T>
  {
    if births == [] then []
    else
      var rest, p := LineOf(births[..|births| - 1], alive), births[|births| - 1];
      if p in alive then [p] + rest else rest
  }

  /** The order of the process list, in which idle is not. */
  ghost function Line<T>(y: System<T>): seq<T>
  {
    LineOf(y.births, y.s.procs.Keys - {y.s.idle})
  }

  lemma {:induction false} LineElems<T>(births: seq<T>, alive: set<T>)
    ensures forall p :: p in LineOf(births, alive) <==> p in births && p in alive
    ensures NoDuplicates(births) ==> NoDuplicates(LineOf(births, alive))
  {
    if births != [] {
      var n := |births| - 1;
      LineElems(births[..n], alive);
      assert births == births[..n] + [births[n]];
    }
  }

  lemma {:induction false} LineGrows<T>(births: seq<T>, alive: set<T>, p: T)
    requires p !in births
    ensures LineOf(births, alive + {p}) == LineOf(births, alive)
  {
    if births != [] {
      var n := |births| - 1;
      LineGrows(births[..n], alive, p);
    }
  }

  lemma {:induction false} LineShrinks<T>(births: seq<T>, alive: set<T>, p: T)
    ensures LineOf(births, alive - {p}) == Without(LineOf(births, alive), p)
  {
    if births != [] {
      var n := |births| - 1;
      var rest, q := LineOf(births[..n], alive), births[n];
      LineShrinks(births[..n], alive, p);
      if q in alive {
        assert ([q] + rest)[1..] == rest;
      }
    }
  }

  // ----- Whose turn it is -----

  /** The order in which schedule looks at the line: those behind cur, then the
      others from the front on, cur last. Idle stands in front of the line. */
  ghost function Turns<T>(line: seq<T>, cur: T): (r: seq<T>)
    ensures |r| == |line|
  {
    if cur in line then line[Rank(line, cur) + 1..] + line[..Rank(line, cur) + 1] else line
  }

  ghost predicate NoneBefore<T>(s: State<T>, turns: seq<T>, k: nat)
  {
    k <= |turns| && forall j :: 0 <= j < k ==> !CanRun(s, turns[j])
  }

  /** The first one that can run goes on, idle if there is none. */
  ghost predicate NextTurn<T>(s: State<T>, line: seq<T>, cur: T, next: T)
  {
    var turns := Turns(line, cur);
    || (exists k: nat :: NoneBefore(s, turns, k) && k < |turns| && turns[k] == next && CanRun(s, next))
    || (NoneBefore(s, turns, |turns|) && next == s.idle)
  }

  /** There is only one such process. */
  lemma NextTurnUnique<T>(s: State<T>, line: seq<T>, cur: T, p: T, q: T)
    requires NextTurn(s, line, cur, p) && NextTurn(s, line, cur, q)
    ensures p == q
  {
  }

  // ----- How long a process waits -----

  /** Whether schedule comes to the front of the line again before it comes to p,
      and how many stand between cur and p, or the end of the line. */
  ghost function Waiting<T>(line: seq<T>, cur: T, p: T): (r: (nat, nat))
    requires p in line
  {
    if cur !in line then (0, Rank(line, p))
    else if Rank(line, cur) < Rank(line, p) then (0, Rank(line, p) - Rank(line, cur) - 1)
    else (1, |line| - 1 - Rank(line, cur))
  }

  predicate Less(a: (nat, nat), b: (nat, nat))
  {
    a.0 < b.0 || (a.0 == b.0 && a.1 < b.1)
  }

  lemma {:induction false} RankIs<T>(line: seq<T>, k: nat)
    requires k < |line| && NoDuplicates(line)
    ensures Rank(line, line[k]) == k
  {
    var r := Rank(line, line[k]);
    assert line[k] in line;
    assert line[r] == line[k];
  }

  /** A turn of another process brings p closer. */
  lemma TurnBringsCloser<T>(s: State<T>, line: seq<T>, cur: T, next: T, p: T)
    requires NextTurn(s, line, cur, next) && NoDuplicates(line) && p in line && CanRun(s, p) && next != p
    ensures next in line && Less(Waiting(line, next, p), Waiting(line, cur, p))
  {
    var turns := Turns(line, cur);
    var c := if cur in line then Rank(line, cur) + 1 else 0;
    var q := Rank(line, p);
    var m := if c <= q then q - c else |line| - c + q;
    assert turns == line[c..] + line[..c];
    assert turns[m] == p;
    var k: nat :| NoneBefore(s, turns, k) && k < |turns| && turns[k] == next;
    assert k < m;
    var n := if k < |line| - c then c + k else c + k - |line|;
    assert line[n] == next;
    RankIs(line, n);
  }

  /** A new process at the front makes nobody wait longer, unless idle runs. */
  lemma JoinKeepsWaiting<T>(line: seq<T>, cur: T, p: T, child: T)
    requires cur in line && p in line && child !in line
    ensures Waiting([child] + line, cur, p) == Waiting(line, cur, p)
  {
    assert ([child] + line)[1..] == line;
  }

  lemma {:induction false} RankWithout<T>(line: seq<T>, x: T, p: T)
    requires NoDuplicates(line) && x in line && p in line && p != x
    ensures p in Without(line, x) && |Without(line, x)| == |line| - 1
    ensures Rank(Without(line, x), p) == if Rank(line, x) < Rank(line, p) then Rank(line, p) - 1 else Rank(line, p)
  {
    WithoutElems(line, x);
    if line[0] == x {
      NothingWithout(line[1..], x);
    } else if line[0] == p {
      LengthWithout(line, x);
    } else {
      assert x in line[1..] && p in line[1..];
      RankWithout(line[1..], x, p);
      assert ([line[0]] + Without(line[1..], x))[1..] == Without(line[1..], x);
    }
  }

  lemma {:induction false} NothingWithout<T>(line: seq<T>, x: T)
    requires x !in line
    ensures Without(line, x) == line
  {
    if line != [] {
      NothingWithout(line[1..], x);
    }
  }

  lemma {:induction false} LengthWithout<T>(line: seq<T>, x: T)
    requires NoDuplicates(line) && x in line
    ensures |Without(line, x)| == |line| - 1
  {
    if line[0] == x {
      NothingWithout(line[1..], x);
    } else {
      LengthWithout(line[1..], x);
    }
  }

  /** Neither does it make p wait longer when another one leaves. */
  lemma LeaveKeepsWaiting<T>(line: seq<T>, cur: T, p: T, x: T)
    requires NoDuplicates(line) && x in line && p in line && p != x && cur != x
    ensures p in Without(line, x)
    ensures !Less(Waiting(line, cur, p), Waiting(Without(line, x), cur, p))
  {
    hide Without, Rank, NoDuplicates;
    RankWithout(line, x, p);
    assert cur in Without(line, x) <==> cur in line by {
      WithoutElems(line, x);
    }
    if cur in line {
      RankWithout(line, x, cur);
    }
  }

  // ----- The line from step to step -----

  lemma WaiterStays<T>(s: State<T>, cur: T, target: int, r: WaitResult<T>)
    requires Inv(s) && WaitGuard(s, cur) && WaitAnswer(s, cur, target, r)
    ensures cur in WaitPass(s, cur, target, r).procs
    ensures r.Reaped? ==> r.child != cur && r.child in s.procs && r.child != s.idle
  {
    hide Family, States, Numbers, NoLostWakeup, Without;
    if r.Reaped? {
      ReapKids(s, cur, target, r.child, r.code);
    }
  }

  lemma ForkLine<T>(y: System<T>, cur: T, child: T, pid: int)
    requires Enabled(y, Forks(cur, child, pid)) && y.s.idle in y.births
    ensures Line(Next(y, Forks(cur, child, pid))) == [child] + Line(y) && child !in Line(y)
  {
    var alive := y.s.procs.Keys - {y.s.idle};
    LineElems(y.births, alive);
    LineGrows(y.births, alive, child);
    assert Next(y, Forks(cur, child, pid)).s.procs.Keys - {y.s.idle} == alive + {child};
    assert (y.births + [child])[..|y.births|] == y.births;
  }

  lemma WaitLine<T>(y: System<T>, cur: T, target: int, r: WaitResult<T>)
    requires cur in y.s.procs && (r.Reaped? ==> r.child != cur)
    ensures Line(WaitStep(y, cur, target, r)) == if r.Reaped? then Without(Line(y), r.child) else Line(y)
  {
    var alive := y.s.procs.Keys - {y.s.idle};
    var alive' := WaitStep(y, cur, target, r).s.procs.Keys - {y.s.idle};
    if r.Reaped? {
      LineShrinks(y.births, alive, r.child);
      assert alive' == alive - {r.child};
    } else {
      assert alive' == alive;
    }
  }

  lemma ExitLine<T>(y: System<T>, cur: T, code: int)
    requires cur in y.s.procs
    ensures Line(ExitStep(y, cur, code)) == Line(y)
  {
    assert ExitStep(y, cur, code).s.procs.Keys == y.s.procs.Keys;
  }

  lemma KillLine<T>(y: System<T>, victim: T)
    requires Enabled(y, Kills(victim))
    ensures Line(Next(y, Kills(victim))) == Line(y)
  {
    assert Next(y, Kills(victim)).s.procs.Keys == y.s.procs.Keys;
  }

  lemma LineMembers<T>(y: System<T>)
    requires SysInv(y)
    ensures forall p :: p in Line(y) <==> p in y.s.procs && p != y.s.idle
    ensures NoDuplicates(Line(y)) && y.s.idle in y.births
  {
    hide Inv, Codes;
    LineElems(y.births, y.s.procs.Keys - {y.s.idle});
  }

  /** A new process stands in front, one that is reaped leaves. */
  lemma LineSteps<T>(y: System<T>, a: Action<T>)
    requires SysInv(y) && Enabled(y, a)
    ensures Line(Next(y, a)) ==
            if a.Forks? then [a.child] + Line(y)
            else if Reaps(y, a) then Without(Line(y), a.r.child)
            else Line(y)
  {
    hide Inv, Codes, Accounted, Line, Without;
    match a
    case Forks(cur, child, pid) => ForkLine(y, cur, child, pid);
    case Exits(cur, code) => ExitLine(y, cur, code);
    case Waits(cur, target, r) =>
      WaiterStays(y.s, cur, target, r);
      WaitLine(y, cur, target, r);
    case Resumes(cur, r) =>
      if y.s.procs[cur].exiting {
        ExitLine(y, cur, -E_KILLED);
      } else {
        WaiterStays(y.s, cur, y.s.procs[cur].context.target, r);
        WaitLine(y, cur, y.s.procs[cur].context.target, r);
      }
    case Kills(victim) => KillLine(y, victim);
  }

  ghost predicate Reaps<T>(y: System<T>, a: Action<T>)
    requires Enabled(y, a)
  {
    (a.Waits? || (a.Resumes? && !y.s.procs[a.cur].exiting)) && a.r.Reaped?
  }

  lemma FirstLine<T>(idle: T, init: T)
    requires idle != init
    ensures Line(Start(idle, init)) == [init]
  {
    var y := Start(idle, init);
    var alive := y.s.procs.Keys - {idle};
    assert y.births[..1] == [idle] && [idle][..0] == [];
    assert LineOf([], alive) == [] && LineOf([idle], alive) == [];
  }

  // ----- Executions -----

  /** The process system and the process that runs. */
  datatype Config<T> = Config(y: System<T>, cur: T)

  datatype Event<T> = Schedules | Acts(a: Action<T>)

  /** Only kills may come from elsewhere. */
  predicate By<T(==)>(a: Action<T>, cur: T)
  {
    a.Kills? || a.cur == cur
  }

  ghost predicate Step<T>(c: Config<T>, e: Event<T>, c': Config<T>)
  {
    match e
    case Schedules => c'.y == c.y && NextTurn(c.y.s, Line(c.y), c.cur, c'.cur)
    case Acts(a) => Enabled(c.y, a) && By(a, c.cur) && c' == Config(Next(c.y, a), c.cur)
  }

  ghost predicate Sane<T>(c: Config<T>)
  {
    SysInv(c.y) && c.cur in c.y.s.procs
  }

  ghost predicate WaitsNoLonger<T>(c: Config<T>, c': Config<T>, p: T)
    requires p in Line(c.y) && p in Line(c'.y)
  {
    !Less(Waiting(Line(c.y), c.cur, p), Waiting(Line(c'.y), c'.cur, p))
  }

  lemma ActKeepsWaiting<T>(c: Config<T>, a: Action<T>, c': Config<T>, p: T)
    requires Sane(c) && Step(c, Acts(a), c') && p in Line(c.y) && p in Line(c'.y)
    ensures WaitsNoLonger(c, c', p)
  {
    LineSteps(c.y, a);
    LineMembers(c.y);
    RunnerInLine(c.y, a, c.cur);
    hide SysInv, Enabled, Next, Line, Waiting, Without, NoDuplicates;
    if a.Forks? {
      JoinKeepsWaiting(Line(c.y), c.cur, p, a.child);
    } else if Reaps(c.y, a) {
      WithoutElems(Line(c.y), a.r.child);
      LeaveKeepsWaiting(Line(c.y), c.cur, p, a.r.child);
    }
  }

  lemma RunnerInLine<T>(y: System<T>, a: Action<T>, cur: T)
    requires SysInv(y) && Enabled(y, a) && By(a, cur)
    ensures a.Forks? ==> cur in Line(y) && a.child !in Line(y)
    ensures Reaps(y, a) ==> a.r.child in Line(y) && a.r.child != cur
  {
    LineMembers(y);
    hide Inv, Codes, Accounted, Ancestry, Line;
    if a.Waits? {
      WaiterStays(y.s, cur, a.target, a.r);
    } else if a.Resumes? && !y.s.procs[cur].exiting {
      WaiterStays(y.s, cur, y.s.procs[cur].context.target, a.r);
    }
  }

  lemma StepSane<T>(c: Config<T>, e: Event<T>, c': Config<T>)
    requires Sane(c) && Step(c, e, c')
    ensures Sane(c') && c'.y.s.idle == c.y.s.idle
  {
    hide Inv, Accounted, Codes, Line, Waiting;
    match e
    case Schedules =>
      LineMembers(c.y);
      TurnsMembers(Line(c.y), c.cur);
      hide Turns;
    case Acts(a) =>
      StepKeeps(c.y, a);
      ActorStays(c.y, a, c.cur);
  }

  lemma TurnsMembers<T>(line: seq<T>, cur: T)
    ensures forall k :: 0 <= k < |line| ==> Turns(line, cur)[k] in line
  {
  }

  lemma ActorStays<T>(y: System<T>, a: Action<T>, cur: T)
    requires SysInv(y) && Enabled(y, a) && By(a, cur) && cur in y.s.procs
    ensures cur in Next(y, a).s.procs && Next(y, a).s.idle == y.s.idle
  {
    hide Inv, Accounted, Codes, Ancestry, WaitAnswer;
    if a.Waits? {
      WaiterStays(y.s, cur, a.target, a.r);
    } else if a.Resumes? && !y.s.procs[cur].exiting {
      WaiterStays(y.s, cur, y.s.procs[cur].context.target, a.r);
    }
  }

  /** Nobody stops another process from being able to run. */
  lemma OthersKeepRunning<T>(y: System<T>, a: Action<T>, cur: T, p: T)
    requires SysInv(y) && Enabled(y, a) && By(a, cur) && p != cur && CanRun(y.s, p)
    ensures CanRun(Next(y, a).s, p)
  {
    hide Inv, Accounted, Codes, Ancestry;
  }

  /** An execution without end. */
  ghost predicate Execution<T>(f: nat -> Config<T>, es: nat -> Event<T>)
  {
    Sane(f(0)) && forall i: nat {:trigger es(i)} :: Step(f(i), es(i), f(i + 1))
  }

  lemma StepAt<T>(f: nat -> Config<T>, es: nat -> Event<T>, i: nat)
    requires Execution(f, es)
    ensures Sane(f(0)) && Step(f(i), es(i), f(i + 1))
  {
    hide Sane, Step;
  }

  ghost predicate TurnFrom<T>(es: nat -> Event<T>, i: nat)
  {
    exists n: nat :: n >= i && es(n).Schedules?
  }

  lemma {:induction false} StaysSane<T>(f: nat -> Config<T>, es: nat -> Event<T>, i: nat)
    requires Execution(f, es)
    ensures Sane(f(i)) && f(i).y.s.idle == f(0).y.s.idle
  {
    hide Execution, Sane, Step;
    if i == 0 {
      StepAt(f, es, 0);
    } else {
      StaysSane(f, es, i - 1);
      StepAt(f, es, i - 1);
      StepSane(f(i - 1), es(i - 1), f(i));
    }
  }

  /** If schedule is called again and again, a process that can run at time i gets
      its turn, whatever the others do, even if they create processes at each turn. */
  lemma NoStarvation<T>(f: nat -> Config<T>, es: nat -> Event<T>, p: T, i: nat) returns (k: nat)
    requires Execution(f, es) && forall j: nat :: TurnFrom(es, j)
    requires CanRun(f(i).y.s, p) && f(i).cur != p && p != f(0).y.s.idle
    ensures k >= i && es(k).Schedules? && f(k + 1).cur == p
  {
    hide Execution, Line, CanRun, Sane, NoDuplicates;
    assert TurnFrom(es, i);
    var n: nat :| n >= i && es(n).Schedules?;
    InLine(f, es, p, i);
    hide TurnFrom;
    k := Served(f, es, p, i, n);
  }

  lemma InLine<T>(f: nat -> Config<T>, es: nat -> Event<T>, p: T, i: nat)
    requires Execution(f, es) && CanRun(f(i).y.s, p) && p != f(0).y.s.idle
    ensures p in Line(f(i).y) && NoDuplicates(Line(f(i).y)) && Sane(f(i))
  {
    StaysSane(f, es, i);
    hide SysInv, Execution, Line, NoDuplicates;
    LineMembers(f(i).y);
  }

  /** The next call of schedule is at n at the latest. */
  lemma {:induction false} Served<T>(f: nat -> Config<T>, es: nat -> Event<T>, p: T, i: nat, n: nat) returns (k: nat)
    requires Execution(f, es) && forall j: nat :: TurnFrom(es, j)
    requires i <= n && es(n).Schedules? && p in Line(f(i).y)
    requires CanRun(f(i).y.s, p) && f(i).cur != p && p != f(0).y.s.idle
    ensures k >= i && es(k).Schedules? && f(k + 1).cur == p
    decreases Waiting(Line(f(i).y), f(i).cur, p).0, Waiting(Line(f(i).y), f(i).cur, p).1, n - i
  {
    hide Execution, Sane, Line, Waiting, NextTurn, SysInv, NoDuplicates;
    InLine(f, es, p, i);
    StepAt(f, es, i);
    var c, c' := f(i), f(i + 1);
    if es(i).Schedules? {
      if c'.cur == p {
        return i;
      }
      TurnBringsCloser(c.y.s, Line(c.y), c.cur, c'.cur, p);
      assert TurnFrom(es, i + 1);
      var n': nat :| n' >= i + 1 && es(n').Schedules?;
      hide CanRun;
      k := Served(f, es, p, i + 1, n');
    } else {
      OtherStep(c, es(i).a, c', p);
      hide CanRun;
      InLine(f, es, p, i + 1);
      ActKeepsWaiting(c, es(i).a, c', p);
      k := Served(f, es, p, i + 1, n);
    }
  }

  lemma OtherStep<T>(c: Config<T>, a: Action<T>, c': Config<T>, p: T)
    requires Sane(c) && Step(c, Acts(a), c') && p != c.cur && CanRun(c.y.s, p)
    ensures CanRun(c'.y.s, p) && c'.cur == c.cur
  {
    hide SysInv, CanRun, Enabled, Next;
    OthersKeepRunning(c.y, a, c.cur, p);
  }

  function FirstTurns<T>(idle: T, init: T, i: nat): Config<T>
  {
    Config(Start(idle, init), if i == 0 then idle else init)
  }

  /** There are such executions: after booting, init is scheduled for ever. */
  lemma ExecutionExists<T>(idle: T, init: T) returns (f: nat -> Config<T>, es: nat -> Event<T>)
    requires idle != init
    ensures Execution(f, es) && f(0) == Config(Start(idle, init), idle) && CanRun(f(0).y.s, init)
    ensures forall j: nat :: TurnFrom(es, j)
  {
    f := (i: nat) => FirstTurns(idle, init, i);
    es := (i: nat) => Schedules;
    StartInv(idle, init);
    hide SysInv, Line;
    forall i: nat
      ensures Step(f(i), es(i), f(i + 1))
    {
      InitIsNext(idle, init, f(i).cur);
    }
    forall j: nat
      ensures TurnFrom(es, j)
    {
      assert es(j).Schedules?;
    }
  }

  lemma InitIsNext<T>(idle: T, init: T, cur: T)
    requires idle != init && (cur == idle || cur == init)
    ensures NextTurn(Start(idle, init).s, Line(Start(idle, init)), cur, init)
  {
    FirstLine(idle, init);
    hide Line;
    var s := Start(idle, init).s;
    assert NoneBefore(s, Turns([init], cur), 0) && Turns([init], cur)[0] == init && CanRun(s, init);
  }
}
