/** The pseudo-random number generator of the C library: a linear congruential
    generator on 48 bits whose upper bits are handed to the caller. */
module Rand {
  import opened Arith

  const WORD := 0x1_0000_0000_0000_0000
  const STATES := 0x1_0000_0000_0000
  const MULTIPLIER := 0x5_DEEC_E66D
  const INCREMENT := 0xB
  const RAND_MAX := 0x7FFF_FFFF

  /** The state that one call leaves behind. */
  function Advance(state: nat): (next: nat)
    ensures next < STATES
  {
    (state * MULTIPLIER + INCREMENT) % STATES
  }

  /** The number a call returns once it has advanced to the given state. */
  function Output(state: nat): (r: nat)
    ensures r <= RAND_MAX
  {
    (state / 4096) % (RAND_MAX + 1)
  }

  class Generator {
    var next: nat

    ghost predicate Valid()
      reads this
    {
      next < STATES
    }

    /** The static initial value of the state. */
    constructor ()
      ensures Valid() && next == 1
    {
      next := 1;
    }

    /** Arithmetic is on unsigned 64-bit words; the mask keeps the low 48 bits. */
    method Rand() returns (r: nat)
      requires Valid()
      modifies this
      ensures Valid() && next == Advance(old(next)) && r == Output(next)
    {
      var product := (next * MULTIPLIER) % WORD;
      var sum := (product + INCREMENT) % WORD;
      MaskAfterWrap(next);
      next := sum % STATES;
      var result := next / 4096;
      r := result % (RAND_MAX + 1);
    }

    method Srand(seed: nat)
      requires seed < 0x1_0000_0000
      modifies this
      ensures Valid() && next == seed
    {
      next := seed;
    }
  }

  /** Wrapping at 64 bits is invisible after masking to 48 bits. */
  lemma MaskAfterWrap(state: nat)
    ensures (((state * MULTIPLIER) % WORD + INCREMENT) % WORD) % STATES == Advance(state)
  {
    var p := state * MULTIPLIER;
    ModOfWrap(p % WORD + INCREMENT);
    ModOfWrap(p);
    var q := p / WORD;
    assert p % WORD + INCREMENT == (p + INCREMENT) - q * 0x1_0000 * STATES;
    CongIntro(p % WORD + INCREMENT, p + INCREMENT, STATES, -(q * 0x1_0000));
    CongMod(p % WORD + INCREMENT, p + INCREMENT, STATES);
  }

  lemma ModOfWrap(x: nat)
    ensures (x % WORD) % STATES == x % STATES
  {
    var q := x / WORD;
    CongIntro(x % WORD, x, STATES, -(q * 0x1_0000));
    CongMod(x % WORD, x, STATES);
  }

  /** The state after n calls. */
  function Run(n: nat, state: nat): (s: nat)
    requires state < STATES
    ensures s < STATES
  {
    if n == 0 then state else Advance(Run(n - 1, state))
  }

  // ----- The affine map on unbounded integers -----

  /** n applications of x -> a * x + c, without any reduction. */
  function Iterate(a: nat, c: nat, n: nat, x: int): int
  {
    if n == 0 then x else a * Iterate(a, c, n - 1, x) + c
  }

  lemma {:induction false} IterateAdd(a: nat, c: nat, i: nat, j: nat, x: int)
    ensures Iterate(a, c, i + j, x) == Iterate(a, c, i, Iterate(a, c, j, x))
  {
    if i == 0 {
    } else {
      IterateAdd(a, c, i - 1, j, x);
    }
  }

  /** Slope and offset of 2^k applications, by repeated squaring. */
  function Slope(a: nat, k: nat): int
  {
    if k == 0 then a else Slope(a, k - 1) * Slope(a, k - 1)
  }

  function Offset(a: nat, c: nat, k: nat): int
  {
    if k == 0 then c else Offset(a, c, k - 1) * (Slope(a, k - 1) + 1)
  }

  lemma {:induction false} Jump(a: nat, c: nat, k: nat, x: int)
    ensures Iterate(a, c, Pow2(k), x) == Slope(a, k) * x + Offset(a, c, k)
  {
    if k == 0 {
      assert Iterate(a, c, 1, x) == a * Iterate(a, c, 0, x) + c;
    } else {
      var s, o := Slope(a, k - 1), Offset(a, c, k - 1);
      var half := Pow2(k - 1);
      var y := Iterate(a, c, half, x);
      Jump(a, c, k - 1, x);
      Jump(a, c, k - 1, y);
      IterateAdd(a, c, half, half, x);
      ComposeAffine(s, o, x);
    }
  }

  lemma ComposeAffine(s: int, o: int, x: int)
    ensures s * (s * x + o) + o == (s * s) * x + o * (s + 1)
  {
  }

  /** The slope of 2^k steps is 1 modulo 2^(k+2). */
  lemma {:induction false} SlopeShape(a: nat, k: nat) returns (m: int)
    requires a % 4 == 1
    ensures Slope(a, k) == 1 + 4 * Pow2(k) * m
  {
    if k == 0 {
      m := a / 4;
    } else {
      var m' := SlopeShape(a, k - 1);
      var p := Pow2(k - 1);
      m := m' + 2 * (p * m') * m';
      SquareNearOne(p, m');
    }
  }

  lemma SquareNearOne(p: int, m: int)
    ensures (1 + 4 * p * m) * (1 + 4 * p * m) == 1 + 4 * (2 * p) * (m + 2 * (p * m) * m)
  {
    var pm := p * m;
    assert (1 + 4 * pm) * (1 + 4 * pm) == 1 + 8 * pm + 16 * (pm * pm);
    assert p * (m + 2 * pm * m) == pm + 2 * (pm * pm);
  }

  /** The offset of 2^k steps is an odd multiple of 2^k. */
  lemma {:induction false} OffsetShape(a: nat, c: nat, k: nat) returns (q: int)
    requires a % 4 == 1 && c % 2 == 1
    ensures Offset(a, c, k) == Pow2(k) * (2 * q + 1)
  {
    if k == 0 {
      q := c / 2;
    } else {
      var q' := OffsetShape(a, c, k - 1);
      var m := SlopeShape(a, k - 1);
      var p := Pow2(k - 1);
      q := q' + 2 * (p * m) * q' + p * m;
      OddTimesSlope(p, m, q');
    }
  }

  lemma OddTimesSlope(p: int, m: int, q: int)
    ensures (p * (2 * q + 1)) * (1 + 4 * p * m + 1) == 2 * p * (2 * (q + 2 * (p * m) * q + p * m) + 1)
  {
    var pm := p * m;
    assert (2 * q + 1) * (1 + 2 * pm) == 2 * (q + 2 * pm * q + pm) + 1;
    assert 1 + 4 * p * m + 1 == 2 * (1 + 2 * pm);
    var odd, slope := 2 * q + 1, 1 + 2 * pm;
    assert (p * odd) * (2 * slope) == 2 * p * (odd * slope);
  }

  /** 2^k steps move every x by 2^k, modulo 2^(k+1). */
  lemma JumpShift(a: nat, c: nat, k: nat, x: int)
    requires a % 4 == 1 && c % 2 == 1
    ensures Cong(Iterate(a, c, Pow2(k), x), x + Pow2(k), 2 * Pow2(k))
  {
    var m := SlopeShape(a, k);
    var q := OffsetShape(a, c, k);
    var p := Pow2(k);
    Jump(a, c, k, x);
    JumpDifference(p, m, q, x);
    CongIntro(Iterate(a, c, p, x), x + p, 2 * p, 2 * m * x + q);
  }

  lemma JumpDifference(p: int, m: int, q: int, x: int)
    ensures (1 + 4 * p * m) * x + p * (2 * q + 1) - (x + p) == (2 * m * x + q) * (2 * p)
  {
    var pm := p * m;
    assert (1 + 4 * pm) * x == x + 4 * (pm * x);
    var mx := m * x;
    assert pm * x == p * mx;
    assert (2 * mx + q) * (2 * p) == 4 * (p * mx) + 2 * (p * q);
  }

  lemma {:induction false} JumpMany(a: nat, c: nat, k: nat, times: nat, x: int)
    requires a % 4 == 1 && c % 2 == 1
    ensures Cong(Iterate(a, c, times * Pow2(k), x), x + times * Pow2(k), 2 * Pow2(k))
  {
    var p := Pow2(k);
    if times == 0 {
      assert 0 * p == 0;
      CongIntro(x, x, 2 * p, 0);
    } else {
      JumpMany(a, c, k, times - 1, x);
      var y := Iterate(a, c, (times - 1) * p, x);
      assert times * p == p + (times - 1) * p;
      IterateAdd(a, c, p, (times - 1) * p, x);
      JumpShift(a, c, k, y);
      CongLinear(1, p, y, x + (times - 1) * p, 2 * p);
      CongTrans(Iterate(a, c, p, y), y + p, x + times * p, 2 * p);
    }
  }

  /** n steps return to x modulo 2^k exactly when 2^k divides n. */
  lemma {:induction false} ReturnsIff(a: nat, c: nat, k: nat, n: nat, x: int)
    requires a % 4 == 1 && c % 2 == 1
    ensures Cong(Iterate(a, c, n, x), x, Pow2(k)) <==> Cong(n, 0, Pow2(k))
  {
    var y := Iterate(a, c, n, x);
    if k == 0 {
      CongIntro(y, x, 1, y - x);
      CongIntro(n, 0, 1, n);
    } else {
      var p := Pow2(k - 1);
      ReturnsIff(a, c, k - 1, n, x);
      if Cong(y, x, 2 * p) {
        CongFactor(y, x, p, 2);
      }
      if Cong(n, 0, 2 * p) {
        CongFactor(n, 0, p, 2);
      }
      if Cong(n, 0, p) {
        var times :| n - 0 == times * p;
        QuotientNonnegative(n, times, p);
        JumpMany(a, c, k - 1, times, x);
        ShiftedCong(y, x, n, 2 * p);
      }
    }
  }

  lemma QuotientNonnegative(n: nat, q: int, p: int)
    requires p >= 1 && n == q * p
    ensures q >= 0
  {
    if q < 0 {
      MulAtLeast(-q, p);
      assert false;
    }
  }

  lemma ShiftedCong(y: int, x: int, n: int, m: int)
    requires Cong(y, x + n, m)
    ensures Cong(y, x, m) <==> Cong(n, 0, m)
  {
    var r :| y - (x + n) == r * m;
    if Cong(y, x, m) {
      var q :| y - x == q * m;
      CongIntro(n, 0, m, q - r);
    }
    if Cong(n, 0, m) {
      var q :| n - 0 == q * m;
      CongIntro(y, x, m, q + r);
    }
  }

  /** Some n below 2^k leads from x to y modulo 2^k. */
  lemma {:induction false} Reach(a: nat, c: nat, k: nat, x: int, y: int) returns (n: nat)
    requires a % 4 == 1 && c % 2 == 1
    ensures n < Pow2(k) && Cong(Iterate(a, c, n, x), y, Pow2(k))
  {
    if k == 0 {
      n := 0;
      CongIntro(x, y, 1, x - y);
    } else {
      var p := Pow2(k - 1);
      n := Reach(a, c, k - 1, x, y);
      var z := Iterate(a, c, n, x);
      var q :| z - y == q * p;
      HalveQuotient(q, p);
      if q % 2 == 0 {
        CongIntro(z, y, 2 * p, q / 2);
      } else {
        JumpShift(a, c, k - 1, z);
        IterateAdd(a, c, p, n, x);
        CongIntro(z + p, y, 2 * p, q / 2 + 1);
        CongTrans(Iterate(a, c, p, z), z + p, y, 2 * p);
        n := p + n;
      }
    }
  }

  lemma HalveQuotient(q: int, p: int)
    ensures q % 2 == 0 ==> q * p == (q / 2) * (2 * p)
    ensures q % 2 != 0 ==> q * p + p == (q / 2 + 1) * (2 * p)
  {
    var h := q / 2;
    if q % 2 == 0 {
      assert q == 2 * h;
    } else {
      assert q == 2 * h + 1;
      assert (2 * h + 1) * p + p == (h + 1) * (2 * p);
    }
  }

  // ----- Back to the reduced states -----

  /** Reducing after every call or only at the end gives the same state. */
  lemma {:induction false} RunIsIterate(n: nat, state: nat)
    requires state < STATES
    ensures Cong(Run(n, state), Iterate(MULTIPLIER, INCREMENT, n, state), STATES)
  {
    if n == 0 {
      CongIntro(state, state, STATES, 0);
    } else {
      var r := Run(n - 1, state);
      var i := Iterate(MULTIPLIER, INCREMENT, n - 1, state);
      RunIsIterate(n - 1, state);
      CongLinear(MULTIPLIER, INCREMENT, r, i, STATES);
      ModSelf(r * MULTIPLIER + INCREMENT, STATES);
      CongTrans(Advance(r), MULTIPLIER * r + INCREMENT, MULTIPLIER * i + INCREMENT, STATES);
    }
  }

  lemma {:induction false} RunAdd(i: nat, j: nat, state: nat)
    requires state < STATES
    ensures Run(i + j, state) == Run(i, Run(j, state))
  {
    if i == 0 {
    } else {
      RunAdd(i - 1, j, state);
    }
  }

  lemma RunReturnsIff(n: nat, state: nat)
    requires state < STATES
    ensures Run(n, state) == state <==> n % STATES == 0
  {
    Pow2At48();
    var i := Iterate(MULTIPLIER, INCREMENT, n, state);
    RunIsIterate(n, state);
    ReturnsIff(MULTIPLIER, INCREMENT, 48, n, state);
    CongMod(Run(n, state), i, STATES);
    CongMod(i, state, STATES);
    CongMod(n, 0, STATES);
  }

  /** Within one period no state repeats. */
  lemma RunInjective(i: nat, j: nat, state: nat)
    requires state < STATES && i < j < STATES
    ensures Run(i, state) != Run(j, state)
  {
    hide Run;
    var y := Run(i, state);
    RunAdd(j - i, i, state);
    RunReturnsIff(j - i, y);
  }

  /** Some call of the first period lands on the target. */
  ghost predicate Visits(state: nat, target: nat)
    requires state < STATES
  {
    exists n: nat :: n < STATES && Run(n, state) == target
  }

  lemma AlwaysVisits(state: nat, target: nat)
    requires state < STATES && target < STATES
    ensures Visits(state, target)
  {
    Pow2At48();
    var n := Reach(MULTIPLIER, INCREMENT, 48, state, target);
    RunIsIterate(n, state);
    var i := Iterate(MULTIPLIER, INCREMENT, n, state);
    CongTrans(Run(n, state), i, target, STATES);
    CongMod(Run(n, state), target, STATES);
  }

  /** From every seed the generator has full period: it is back at its start
      after exactly the multiples of 2^48 calls, repeats no state in between,
      and visits every 48-bit value. */
  lemma FullPeriod(state: nat)
    requires state < STATES
    ensures forall n: nat :: Run(n, state) == state <==> n % STATES == 0
    ensures forall i: nat, j: nat :: i < j < STATES ==> Run(i, state) != Run(j, state)
    ensures forall target: nat :: target < STATES ==> Visits(state, target)
  {
    forall n: nat
      ensures Run(n, state) == state <==> n % STATES == 0
    {
      RunReturnsIff(n, state);
    }
    forall i: nat, j: nat | i < j < STATES
      ensures Run(i, state) != Run(j, state)
    {
      RunInjective(i, j, state);
    }
    forall target: nat | target < STATES
      ensures Visits(state, target)
    {
      AlwaysVisits(state, target);
    }
  }

  // ----- Which bits are returned -----

  /** The number returned is bits 12 to 42 of the state: five bits stand above it and
      twelve below. */
  lemma OutputBits(state: nat) returns (hi: nat, lo: nat)
    requires state < STATES
    ensures hi < 32 && lo < 0x1000 && state == hi * 0x800_0000_0000 + Output(state) * 0x1000 + lo
  {
    hi, lo := state / 0x800_0000_0000, state % 0x1000;
    OutputDecomposition(state, Output(state), hi * 4096 + lo);
  }

  /** The first numbers that the library returns, starting from its static state. */
  lemma FirstNumbers()
    ensures Output(Run(1, 1)) == 6155982
    ensures Output(Run(2, 1)) == 907315423
    ensures Output(Run(3, 1)) == 1947276689
  {
    assert Run(1, 1) == Advance(Run(0, 1)) == 25214903928;
    assert Run(2, 1) == Advance(Run(1, 1)) == 206026503483683;
    assert Run(3, 1) == Advance(Run(2, 1)) == 245470556921330;
  }

  // ----- How often each output occurs -----

  /** The calls of one period, numbered from 0, that return v. */
  ghost function CallsReturning(state: nat, v: nat): set<int>
    requires state < STATES
  {
    set n: int | 0 <= n < STATES && Output(Advance(Run(n, state))) == v
  }

  /** The t-th of the 2^17 states whose output is v. */
  function StateWithOutput(v: nat, t: int): (s: nat)
    requires v <= RAND_MAX && 0 <= t < 0x2_0000
    ensures s < STATES && Output(s) == v
    ensures s % 4096 == t % 4096 && s / 0x800_0000_0000 == t / 4096
  {
    (t / 4096) * 0x800_0000_0000 + v * 4096 + t % 4096
  }

  /** The call of the period that lands on a state. */
  ghost function CallReaching(state: nat, target: nat): (n: nat)
    requires state < STATES && target < STATES
    ensures n < STATES && Advance(Run(n, state)) == target
  {
    AlwaysVisits(Advance(state), target);
    var n: nat :| n < STATES && Run(n, Advance(state)) == target;
    AdvanceFirst(n, state);
    n
  }

  lemma AdvanceFirst(n: nat, state: nat)
    requires state < STATES
    ensures Run(n, Advance(state)) == Advance(Run(n, state))
  {
    assert Run(1, state) == Advance(Run(0, state));
    RunAdd(n, 1, state);
  }

  /** Every output in [0, RAND_MAX] is returned by exactly 2^17 of the 2^48
      calls of a period. */
  lemma Equidistributed(state: nat, v: nat)
    requires state < STATES && v <= RAND_MAX
    ensures |CallsReturning(state, v)| == 0x2_0000
  {
    var calls := CallsReturning(state, v);
    var f := (t: int) => if 0 <= t < 0x2_0000 then CallReaching(state, StateWithOutput(v, t)) else 0;
    forall i, j | 0 <= i < j < 0x2_0000
      ensures f(i) != f(j)
    {
      assert StateWithOutput(v, i) != StateWithOutput(v, j);
    }
    forall n | n in calls
      ensures exists t :: 0 <= t < 0x2_0000 && f(t) == n
    {
      var s := Advance(Run(n, state));
      var t := (s / 0x800_0000_0000) * 4096 + s % 4096;
      OutputDecomposition(s, v, t);
      var n' := CallReaching(state, s);
      SameCall(n, n', state);
      assert f(t) == n;
    }
    EnumeratedSize(0x2_0000, f, calls);
  }

  lemma OutputDecomposition(s: nat, v: nat, t: nat)
    requires s < STATES && Output(s) == v && t == (s / 0x800_0000_0000) * 4096 + s % 4096
    ensures 0 <= t < 0x2_0000 && StateWithOutput(v, t) == s
  {
    assert s == (s / 4096) * 4096 + s % 4096;
    assert s / 4096 == ((s / 4096) / 0x8000_0000) * 0x8000_0000 + v;
    assert (s / 4096) / 0x8000_0000 == s / 0x800_0000_0000;
  }

  lemma SameCall(n: nat, n': nat, state: nat)
    requires state < STATES && n < STATES && n' < STATES
    requires Advance(Run(n, state)) == Advance(Run(n', state))
    ensures n == n'
  {
    AdvanceFirst(n, state);
    AdvanceFirst(n', state);
    if n < n' {
      RunInjective(n, n', Advance(state));
    } else if n' < n {
      RunInjective(n', n, Advance(state));
    }
  }
}
