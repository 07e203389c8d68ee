/** The comparison callback of the stride scheduler, on 32-bit strides that
    wrap around, and when it meets the contract of the skew heap. */
module Stride {
  import opened SkewTree

  const WORD := 0x1_0000_0000
  const HALF := 0x8000_0000

  /** Strides are unsigned 32-bit words. */
  type Word = x: nat | x < WORD witness 0

  /** The difference of two strides read as a signed 32-bit number. */
  function SignedDifference(p: Word, q: Word): int
  {
    var d := (p - q) % WORD;
    if d < HALF then d else d - WORD
  }

  function StrideComp(p: Word, q: Word): int
  {
    var c := SignedDifference(p, q);
    if c > 0 then 1 else if c == 0 then 0 else -1
  }

  /** How far q is ahead of m, going upwards with wrap-around. */
  function Ahead(m: Word, q: Word): (d: nat)
  {
    (q - m) % WORD
  }

  /** All strides lie less than half the range ahead of one of them. */
  ghost predicate Window(s: set<Word>)
  {
    s == {} || exists m :: m in s && InWindow(m, s)
  }

  ghost predicate InWindow(m: Word, s: set<Word>)
  {
    forall q :: q in s ==> Ahead(m, q) < HALF
  }

  /** The callback answers 0 for equal strides, 1 if the first is ahead of the second
      by less than half of the range, and else -1. */
  lemma CompIsAhead(p: Word, q: Word)
    ensures StrideComp(p, q) == if p == q then 0 else if Ahead(q, p) < HALF then 1 else -1
  {
  }

  lemma LeIsAhead(m: Word, q: Word)
    ensures Le(StrideComp, m, q) <==> Ahead(m, q) < HALF
  {
  }

  lemma LeInWindow(m: Word, p: Word, q: Word)
    requires Ahead(m, p) < HALF && Ahead(m, q) < HALF
    ensures Le(StrideComp, p, q) <==> Ahead(m, p) <= Ahead(m, q)
  {
    LeIsAhead(p, q);
    assert Ahead(p, q) == (Ahead(m, q) - Ahead(m, p)) % WORD;
  }

  lemma {:induction false} LeastExists(s: set<Word>) returns (m: Word)
    requires s != {} && TotalPreorder(StrideComp, s)
    ensures m in s && forall q :: q in s ==> Le(StrideComp, m, q)
  {
    var some :| some in s;
    var rest := s - {some};
    m := some;
    assert Le(StrideComp, some, some);
    if rest != {} {
      assert TotalPreorder(StrideComp, rest);
      var least := LeastExists(rest);
      assert Le(StrideComp, least, some) || Le(StrideComp, some, least);
      if Le(StrideComp, least, some) {
        m := least;
      } else {
        StepsDown(s, some, least);
      }
    }
    hide StrideComp, TotalPreorder;
    assert forall q :: q in s ==> q == some || q in rest;
  }

  lemma StepsDown(s: set<Word>, m: Word, least: Word)
    requires TotalPreorder(StrideComp, s) && m in s && least in s && Le(StrideComp, m, least)
    ensures forall q :: q in s && Le(StrideComp, least, q) ==> Le(StrideComp, m, q)
  {
  }

  /** The wrapping comparison orders a set of strides exactly when they fit into
      half of the 32-bit range. */
  lemma OrdersExactlyWindows(s: set<Word>)
    ensures TotalPreorder(StrideComp, s) <==> Window(s)
  {
    if s != {} && TotalPreorder(StrideComp, s) {
      var m := LeastExists(s);
      forall q | q in s
        ensures Ahead(m, q) < HALF
      {
        LeIsAhead(m, q);
      }
      assert InWindow(m, s);
    }
    if s != {} && Window(s) {
      var m :| m in s && InWindow(m, s);
      forall p, q | p in s && q in s
        ensures Le(StrideComp, p, q) <==> Ahead(m, p) <= Ahead(m, q)
      {
        LeInWindow(m, p, q);
      }
    }
  }

  /** Two strides half of the range apart are each behind the other. */
  lemma OppositeStrides()
    ensures StrideComp(0, HALF) == -1 && StrideComp(HALF, 0) == -1
    ensures var s: set<Word> := {0, HALF}; !TotalPreorder(StrideComp, s)
  {
    var zero: Word, half: Word := 0, HALF;
    assert !Le(StrideComp, zero, half) && !Le(StrideComp, half, zero);
  }

  // ----- The run queue -----

  /** A process in the run queue, with its stride. */
  datatype Queued = Queued(id: nat, stride: Word)

  function QueuedComp(p: Queued, q: Queued): int
  {
    StrideComp(p.stride, q.stride)
  }

  ghost function Strides(s: set<Queued>): set<Word>
  {
    set p | p in s :: p.stride
  }

  lemma LeQueued(p: Queued, q: Queued)
    ensures Le(QueuedComp, p, q) <==> Le(StrideComp, p.stride, q.stride)
  {
  }

  /** Processes are ordered exactly if their strides are. */
  lemma QueueOrderedIff(s: set<Queued>)
    ensures TotalPreorder(QueuedComp, s) <==> Window(Strides(s))
  {
    OrdersExactlyWindows(Strides(s));
    if Window(Strides(s)) {
      forall p, q | p in s && q in s
        ensures Le(QueuedComp, p, q) <==> Le(StrideComp, p.stride, q.stride)
      {
        LeQueued(p, q);
      }
    }
    if TotalPreorder(QueuedComp, s) {
      QueueOrdersStrides(s);
    }
  }

  lemma QueueOrdersStrides(s: set<Queued>)
    requires TotalPreorder(QueuedComp, s)
    ensures TotalPreorder(StrideComp, Strides(s))
  {
    forall x, y | x in Strides(s) && y in Strides(s)
      ensures Le(StrideComp, x, y) || Le(StrideComp, y, x)
    {
      var p :| p in s && p.stride == x;
      var q :| q in s && q.stride == y;
      assert Le(QueuedComp, p, q) || Le(QueuedComp, q, p);
    }
    forall x, y, z | && x in Strides(s) && y in Strides(s) && z in Strides(s)
                     && Le(StrideComp, x, y) && Le(StrideComp, y, z)
      ensures Le(StrideComp, x, z)
    {
      var p :| p in s && p.stride == x;
      var q :| q in s && q.stride == y;
      var r :| r in s && r.stride == z;
      assert Le(QueuedComp, p, q) && Le(QueuedComp, q, r);
    }
  }

  /** A run in which at any time the strides in the queue fit into half of the
      range; over the run they may go round it many times. */
  ghost predicate SlidingRun(ops: seq<Op<Queued>>, members: set<Queued>)
  {
    if ops == [] then Window(Strides(members))
    else
      && Legal(ops[0], members) && Window(Strides(members + {ops[0].x}))
      && SlidingRun(ops[1..], Members(members, ops[0]))
  }

  lemma {:induction false} SlidingIsOrdered(ops: seq<Op<Queued>>, members: set<Queued>)
    requires SlidingRun(ops, members)
    ensures OrderedRun(QueuedComp, ops, members)
  {
    if ops == [] {
      QueueOrderedIff(members);
    } else {
      QueueOrderedIff(members + {ops[0].x});
      SlidingIsOrdered(ops[1..], Members(members, ops[0]));
    }
  }

  /** Among strides that fit into half of the range, to be above is to be at or
      behind. */
  lemma SortedIsBehind(out: seq<Queued>, s: set<Queued>)
    requires Window(Strides(s)) && Sorted(QueuedComp, out) && forall p :: p in out ==> p in s
    ensures forall i, j :: 0 <= i < j < |out| ==> Ahead(out[i].stride, out[j].stride) < HALF
  {
    forall i, j | 0 <= i < j < |out|
      ensures Ahead(out[i].stride, out[j].stride) < HALF
    {
      assert Le(QueuedComp, out[i], out[j]);
      LeQueued(out[i], out[j]);
      LeIsAhead(out[i].stride, out[j].stride);
    }
  }

  lemma {:induction false} SlidingEnds(ops: seq<Op<Queued>>, members: set<Queued>)
    requires SlidingRun(ops, members)
    ensures Window(Strides(RunMembers(ops, members)))
  {
    if ops != [] {
      SlidingEnds(ops[1..], Members(members, ops[0]));
    }
  }

  /** The run queue of the stride scheduler: after any such run it is emptied in the
      order of the strides, although they wrap around. */
  lemma StrideQueueDrains(ops: seq<Op<Queued>>)
    requires SlidingRun(ops, {})
    ensures var out := Drain(QueuedComp, RunHeap(QueuedComp, ops, Empty));
            && multiset(out) == multiset(RunMembers(ops, {}))
            && forall i, j :: 0 <= i < j < |out| ==> Ahead(out[i].stride, out[j].stride) < HALF
  {
    SlidingIsOrdered(ops, {});
    DrainAfterRun(QueuedComp, ops);
    var out, members := Drain(QueuedComp, RunHeap(QueuedComp, ops, Empty)), RunMembers(ops, {});
    SlidingEnds(ops, {});
    forall p | p in out
      ensures p in members
    {
      assert p in multiset(out);
    }
    SortedIsBehind(out, members);
  }
}
