/** Powers of two, congruences and counting: the arithmetic shared by the
    random number generator and the hash function. */
module Arith {

  function Pow2(k: nat): (p: nat)
    ensures p >= 1
  {
    if k == 0 then 1 else 2 * Pow2(k - 1)
  }

  lemma {:induction false} Pow2Add(j: nat, k: nat)
    ensures Pow2(j + k) == Pow2(j) * Pow2(k)
  {
    if j == 0 {
    } else {
      Pow2Add(j - 1, k);
    }
  }

  lemma Pow2At12()
    ensures Pow2(12) == 4096
  {
  }

  lemma Pow2At17()
    ensures Pow2(17) == 0x2_0000
  {
    Pow2At12();
    Pow2Add(12, 5);
  }

  lemma Pow2At31()
    ensures Pow2(31) == 0x8000_0000
  {
    Pow2At17();
    Pow2At12();
    Pow2Add(17, 14);
    Pow2Add(12, 2);
  }

  lemma Pow2At32()
    ensures Pow2(32) == 0x1_0000_0000
  {
    Pow2At31();
  }

  lemma Pow2At48()
    ensures Pow2(48) == 0x1_0000_0000_0000
  {
    Pow2At31();
    Pow2At17();
    Pow2Add(31, 17);
  }

  /** a and b leave the same remainder modulo m. */
  ghost predicate Cong(a: int, b: int, m: int)
  {
    exists q: int :: a - b == q * m
  }

  lemma CongIntro(a: int, b: int, m: int, q: int)
    requires a - b == q * m
    ensures Cong(a, b, m)
  {
  }

  lemma CongMod(a: int, b: int, m: int)
    requires m > 0
    ensures Cong(a, b, m) <==> a % m == b % m
  {
    var qa, qb := a / m, b / m;
    assert a == qa * m + a % m && b == qb * m + b % m;
    if a % m == b % m {
      assert a - b == (qa - qb) * m;
      CongIntro(a, b, m, qa - qb);
    }
    if Cong(a, b, m) {
      var q :| a - b == q * m;
      var d := a % m - b % m;
      assert d == (q - qa + qb) * m;
      SmallMultiple(d, q - qa + qb, m);
    }
  }

  lemma SmallMultiple(d: int, q: int, m: int)
    requires m > 0 && -m < d < m && d == q * m
    ensures d == 0
  {
    if q != 0 {
      MulAtLeast(if q > 0 then q else -q, m);
      assert false;
    }
  }

  lemma MulAtLeast(q: int, m: int)
    requires q >= 1 && m >= 0
    ensures q * m >= m
  {
    assert q * m == m + (q - 1) * m;
  }

  lemma ModSelf(a: int, m: int)
    requires m > 0
    ensures Cong(a % m, a, m)
  {
    CongIntro(a % m, a, m, -(a / m));
  }

  lemma CongTrans(a: int, b: int, c: int, m: int)
    requires Cong(a, b, m) && Cong(b, c, m)
    ensures Cong(a, c, m)
  {
    var q :| a - b == q * m;
    var r :| b - c == r * m;
    CongIntro(a, c, m, q + r);
  }

  lemma CongLinear(s: int, t: int, a: int, b: int, m: int)
    requires Cong(a, b, m)
    ensures Cong(s * a + t, s * b + t, m)
  {
    var q :| a - b == q * m;
    calc {
      (s * a + t) - (s * b + t);
      s * (a - b);
      s * (q * m);
      (s * q) * m;
    }
    CongIntro(s * a + t, s * b + t, m, s * q);
  }

  /** A congruence modulo a multiple holds modulo the factor. */
  lemma CongFactor(a: int, b: int, m: int, f: int)
    requires Cong(a, b, f * m)
    ensures Cong(a, b, m)
  {
    var q :| a - b == q * (f * m);
    assert q * (f * m) == (q * f) * m;
    CongIntro(a, b, m, q * f);
  }

  /** A set that an injective enumeration of 0..n fills exactly has n elements. */
  lemma {:induction false} EnumeratedSize(n: nat, f: int -> int, s: set<int>)
    requires forall i, j :: 0 <= i < j < n ==> f(i) != f(j)
    requires forall i :: 0 <= i < n ==> f(i) in s
    requires forall y :: y in s ==> exists i :: 0 <= i < n && f(i) == y
    ensures |s| == n
  {
    if n == 0 {
      forall y | y in s
        ensures false
      {
      }
      assert s == {};
    } else {
      var last := f(n - 1);
      var rest := s - {last};
      forall y | y in rest
        ensures exists i :: 0 <= i < n - 1 && f(i) == y
      {
        var i :| 0 <= i < n && f(i) == y;
        assert i != n - 1;
      }
      EnumeratedSize(n - 1, f, rest);
      assert s == rest + {last};
    }
  }
}
