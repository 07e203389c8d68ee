/** Process numbers: get_pid of the kernel, which remembers the last number given
    out and a bound below which the numbers behind it are known to be free. */
module PidAlloc {

  const MAX_PID := 8192

  /** A number that get_pid may give out. */
  predicate Usable(pid: int)
  {
    0 < pid < MAX_PID
  }

  /** pid is the first unused number behind last, counting on from 1 after the
      largest one. */
  ghost predicate NextFree(last: int, pids: seq<int>, pid: int)
  {
    && Usable(pid) && pid !in pids
    && if last < pid then forall q :: last < q < pid ==> q in pids
       else forall q :: Usable(q) && (last < q || q < pid) ==> q in pids
  }

  /** From 1 to 8191 and round again. */
  lemma CyclicOrder(last: int)
    ensures 0 < last < 8191 ==> NextFree(last, [], last + 1)
    ensures NextFree(8191, [], 1) && !NextFree(8191, [1], 1) && NextFree(8191, [1], 2)
  {
  }

  class PidAllocator {
    var lastPid: int
    var nextSafe: int

    /** No number between lastPid and nextSafe is in use. */
    ghost predicate Valid(pids: seq<int>)
      reads this
    {
      && 0 < lastPid <= MAX_PID && nextSafe <= MAX_PID
      && forall q :: q in pids ==> !(lastPid < q < nextSafe)
    }

    /** The static variables: both bounds are MAX_PID at first. */
    constructor ()
      ensures Valid([]) && lastPid == nextSafe == MAX_PID
    {
      lastPid, nextSafe := MAX_PID, MAX_PID;
    }

    /** get_pid; pids are the numbers of the processes in the process list, in the
        order of the list. */
    method GetPid(pids: seq<int>) returns (pid: int)
      requires Valid(pids) && |pids| < MAX_PID - 1
      modifies this
      ensures NextFree(old(lastPid), pids, pid) && pid == lastPid
      ensures Valid(pids + [pid])
    {
      ghost var last := lastPid;
      lastPid := lastPid + 1;
      if lastPid >= MAX_PID {
        lastPid := 1;
        Search(pids, last, true);
      } else if lastPid >= nextSafe {
        Search(pids, last, false);
      }
      pid := lastPid;
    }

    /** The part of get_pid between inside and the end: every number passed over is
        in use. wrapped says that the search has begun at 1 again. */
    method Search(pids: seq<int>, ghost last: int, ghost wrapped: bool)
      requires |pids| < MAX_PID - 1 && 0 < last <= MAX_PID
      requires lastPid == if wrapped then 1 else last + 1
      requires lastPid < MAX_PID && (wrapped ==> last + 1 >= MAX_PID)
      modifies this
      ensures NextFree(last, pids, lastPid)
      ensures lastPid < nextSafe <= MAX_PID && forall q :: q in pids ==> !(lastPid < q < nextSafe)
    {
      ghost var again := wrapped;
      nextSafe := MAX_PID;
      var i := 0;
      while i < |pids|
        invariant i <= |pids| && 0 < lastPid < nextSafe <= MAX_PID
        invariant forall j :: 0 <= j < i ==> !(lastPid <= pids[j] < nextSafe)
        invariant if again then forall q :: Usable(q) && (last < q || q < lastPid) ==> q in pids
                  else last < lastPid && forall q :: last < q < lastPid ==> q in pids
        decreases !again, MAX_PID - lastPid, |pids| - i
      {
        if pids[i] == lastPid {
          lastPid := lastPid + 1;
          if lastPid >= nextSafe {
            if lastPid >= MAX_PID {
              lastPid := 1;
              if again {
                NotAllUsed(pids);
              }
              again := true;
            }
            nextSafe := MAX_PID;
            i := 0;
            continue;
          }
        } else if pids[i] > lastPid && nextSafe > pids[i] {
          nextSafe := pids[i];
        }
        i := i + 1;
      }
    }
  }

  // ----- Counting -----

  /** A list that is too short does not hold all usable numbers. */
  lemma NotAllUsed(pids: seq<int>)
    requires |pids| < MAX_PID - 1
    ensures exists q :: Usable(q) && q !in pids
  {
    if forall q :: Usable(q) ==> q in pids {
      ElementsAtMost(pids);
      NumbersUpTo(MAX_PID - 1);
      forall q | q in UpTo(MAX_PID - 1)
        ensures q in pids
      {
        assert Usable(q);
      }
      Subset(UpTo(MAX_PID - 1), set q | q in pids);
      assert false;
    }
  }

  lemma {:induction false} ElementsAtMost(pids: seq<int>)
    ensures |set q | q in pids| <= |pids|
  {
    if pids != [] {
      ElementsAtMost(pids[1..]);
      var front := set q | q in pids[1..];
      assert (set q | q in pids) == front + {pids[0]};
    }
  }

  function UpTo(n: nat): set<int>
  {
    if n == 0 then {} else UpTo(n - 1) + {n}
  }

  lemma {:induction false} NumbersUpTo(n: nat)
    ensures |UpTo(n)| == n && forall q :: q in UpTo(n) <==> 0 < q <= n
  {
    if n > 0 {
      NumbersUpTo(n - 1);
    }
  }

  lemma {:induction false} Subset<T>(a: set<T>, b: set<T>)
    requires a <= b
    ensures |a| <= |b|
  {
    if a != {} {
      var x :| x in a;
      Subset(a - {x}, b - {x});
    }
  }

  /** The numbers in use determine the answer. */
  lemma NextFreeUnique(last: int, pids: seq<int>, p: int, q: int)
    requires NextFree(last, pids, p) && NextFree(last, pids, q)
    ensures p == q
  {
    assert Usable(p) && Usable(q);
  }

  // ----- Fairness -----

  /** The answers of successive calls, each with the numbers then in use. */
  ghost predicate Answers(answers: seq<int>, used: seq<seq<int>>)
  {
    && |answers| == |used| + 1
    && forall k :: 0 <= k < |used| ==> NextFree(answers[k], used[k], answers[k + 1])
  }

  /** A number that stays free and is not given out is never passed by. */
  lemma {:induction false} NotPassed(answers: seq<int>, used: seq<seq<int>>, q: int, k: nat)
    requires Answers(answers, used) && Usable(q) && q !in answers && 0 < k <= |used|
    requires forall i :: 0 <= i < |used| ==> q !in used[i]
    ensures if q > answers[0] then answers[0] < answers[k] < q else answers[0] < answers[k] || answers[k] < q
  {
    assert answers[k] in answers && answers[k - 1] in answers;
    assert NextFree(answers[k - 1], used[k - 1], answers[k]);
    if k > 1 {
      NotPassed(answers, used, q, k - 1);
    } else {
      assert answers[0] in answers;
    }
  }

  /** Before a number is given out again, every number that has been free all the
      time since is given out. */
  lemma EveryFreeNumberHasItsTurn(answers: seq<int>, used: seq<seq<int>>, q: int)
    requires Answers(answers, used) && |used| > 0 && answers[0] == answers[|used|]
    requires Usable(q) && forall i :: 0 <= i < |used| ==> q !in used[i]
    ensures q in answers
  {
    if q !in answers {
      NotPassed(answers, used, q, |used|);
    }
  }
}
