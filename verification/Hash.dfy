/** The multiplicative hash that spreads process identifiers over buckets. */
module Hash {
  import opened Arith

  const VALUES := 0x1_0000_0000
  const GOLDEN_RATIO_PRIME_32 := 0x9e37_0001

  /** The inverse of the multiplier modulo 2^32. */
  const GOLDEN_RATIO_INVERSE := 0x61c9_0001

  /** Multiplication truncated to 32 bits. */
  function Scramble(val: nat): (r: nat)
    ensures r < VALUES
  {
    (val * GOLDEN_RATIO_PRIME_32) % VALUES
  }

  function ShiftRight(x: nat, k: nat): (r: nat)
    ensures r * Pow2(k) <= x < (r + 1) * Pow2(k)
  {
    DivisionBounds(x, Pow2(k));
    x / Pow2(k)
  }

  lemma DivisionBounds(x: nat, d: nat)
    requires d >= 1
    ensures x / d >= 0 && (x / d) * d <= x < (x / d + 1) * d
  {
    assert x == (x / d) * d + x % d;
  }

  /** Shifts by 0 to 31 bits have a meaning, so bits is in 1..32: for 0 the
      source would shift a 32-bit word by its whole width. */
  function Hash32(val: nat, bits: nat): (h: nat)
    requires val < VALUES && 1 <= bits <= 32
  {
    ShiftRight(Scramble(val), 32 - bits)
  }

  lemma HashInRange(val: nat, bits: nat)
    requires val < VALUES && 1 <= bits <= 32
    ensures Hash32(val, bits) < Pow2(bits)
  {
    Pow2At32();
    Pow2Add(bits, 32 - bits);
    ProductBelow(Hash32(val, bits), Pow2(bits), Pow2(32 - bits));
  }

  lemma ProductBelow(q: nat, n: nat, d: nat)
    requires d >= 1 && q * d < n * d
    ensures q < n
  {
    if q >= n {
      MulAtLeast(q - n + 1, d);
      assert false;
    }
  }

  lemma MulNonnegative(x: nat, y: nat)
    ensures x * y >= 0
  {
  }

  // ----- Multiplication by the golden ratio prime is a bijection -----

  function Unscramble(r: nat): (val: nat)
    ensures val < VALUES
  {
    (r * GOLDEN_RATIO_INVERSE) % VALUES
  }

  lemma ScrambleBijective(x: nat)
    requires x < VALUES
    ensures Unscramble(Scramble(x)) == x && Scramble(Unscramble(x)) == x
  {
    UndoProduct(x, GOLDEN_RATIO_PRIME_32, GOLDEN_RATIO_INVERSE);
    UndoProduct(x, GOLDEN_RATIO_INVERSE, GOLDEN_RATIO_PRIME_32);
  }

  lemma UndoProduct(x: nat, m: nat, inverse: nat)
    requires x < VALUES && (m * inverse) % VALUES == 1
    ensures (((x * m) % VALUES) * inverse) % VALUES == x
  {
    var p := x * m;
    var t := (m * inverse) / VALUES;
    ModSelf(p, VALUES);
    CongLinear(inverse, 0, p % VALUES, p, VALUES);
    ProductWithInverse(x, m, inverse, t);
    CongIntro(inverse * p, x, VALUES, x * t);
    CongTrans(inverse * (p % VALUES), inverse * p, x, VALUES);
    CongMod(inverse * (p % VALUES), x, VALUES);
  }

  lemma ProductWithInverse(x: int, m: int, inverse: int, t: int)
    requires m * inverse == t * VALUES + 1
    ensures inverse * (x * m) - x == (x * t) * VALUES
  {
    assert inverse * (x * m) == x * (m * inverse);
    assert x * (t * VALUES + 1) == x * (t * VALUES) + x;
  }

  // ----- Every bucket has the same number of preimages -----

  ghost function Bucket(h: nat, bits: nat): set<int>
    requires 1 <= bits <= 32
  {
    set val: int | 0 <= val < VALUES && Hash32(val, bits) == h
  }

  /** The t-th value of a bucket: the one whose product begins with h and ends
      with t. */
  function Member(h: nat, bits: nat, t: int): (val: int)
    requires 1 <= bits <= 32
    ensures 0 <= val < VALUES
  {
    if 0 <= t < Pow2(32 - bits) then MulNonnegative(h, Pow2(32 - bits)); Unscramble(h * Pow2(32 - bits) + t) else 0
  }

  lemma MembersDiffer(h: nat, bits: nat, i: int, j: int)
    requires 1 <= bits <= 32 && h < Pow2(bits) && 0 <= i < j < Pow2(32 - bits)
    ensures Member(h, bits, i) != Member(h, bits, j)
  {
    var width := Pow2(32 - bits);
    BucketFits(h, bits);
    ScrambleBijective(h * width + i);
    ScrambleBijective(h * width + j);
  }

  lemma MemberInBucket(h: nat, bits: nat, t: int)
    requires 1 <= bits <= 32 && h < Pow2(bits) && 0 <= t < Pow2(32 - bits)
    ensures Member(h, bits, t) in Bucket(h, bits)
  {
    hide Pow2, Scramble;
    var width := Pow2(32 - bits);
    BucketFits(h, bits);
    ScrambleBijective(h * width + t);
    QuotientUnique(h * width + t, h, Hash32(Member(h, bits, t), bits), width);
  }

  lemma MemberFound(h: nat, bits: nat, val: int) returns (t: int)
    requires 1 <= bits <= 32 && h < Pow2(bits) && val in Bucket(h, bits)
    ensures 0 <= t < Pow2(32 - bits) && Member(h, bits, t) == val
  {
    var width := Pow2(32 - bits);
    t := Scramble(val) - h * width;
    ScrambleBijective(val);
    assert (h + 1) * width == h * width + width;
  }

  /** For every width the 2^32 values are split evenly: each of the 2^bits
      buckets has exactly 2^(32 - bits) preimages. */
  lemma HashUniform(h: nat, bits: nat)
    requires 1 <= bits <= 32 && h < Pow2(bits)
    ensures |Bucket(h, bits)| == Pow2(32 - bits)
  {
    var width, bucket := Pow2(32 - bits), Bucket(h, bits);
    var f: int -> int := t => Member(h, bits, t);
    hide Member, Pow2, Bucket;
    forall i, j | 0 <= i < j < width
      ensures f(i) != f(j)
    {
      MembersDiffer(h, bits, i, j);
    }
    forall t | 0 <= t < width
      ensures f(t) in bucket
    {
      MemberInBucket(h, bits, t);
    }
    forall val | val in bucket
      ensures exists t :: 0 <= t < width && f(t) == val
    {
      var t := MemberFound(h, bits, val);
      assert f(t) == val;
    }
    EnumeratedSize(width, f, bucket);
  }

  lemma BucketFits(h: nat, bits: nat)
    requires 1 <= bits <= 32 && h < Pow2(bits)
    ensures 0 <= h * Pow2(32 - bits) && h * Pow2(32 - bits) + Pow2(32 - bits) <= VALUES
  {
    Pow2At32();
    Pow2Add(bits, 32 - bits);
    RowFits(h, Pow2(bits), Pow2(32 - bits));
  }

  lemma RowFits(h: nat, n: nat, width: nat)
    requires h < n
    ensures 0 <= h * width && h * width + width <= n * width
  {
    MulNonnegative(n - h - 1, width);
    assert n * width == h * width + width + (n - h - 1) * width;
  }

  lemma QuotientUnique(x: int, q: int, r: int, d: nat)
    requires q * d <= x < q * d + d && r * d <= x < (r + 1) * d
    ensures q == r
  {
    assert (r + 1) * d == r * d + d;
    assert (q - r) * d == q * d - r * d;
    if q != r {
      MulAtLeast(if q > r then q - r else r - q, d);
      assert false;
    }
  }

  /** Some process numbers and their places in the table of 1024 lists. */
  lemma SomeHashes()
    ensures Hash32(1, 32) == 0x9e37_0001
    ensures Hash32(1, 10) == 632 && Hash32(2, 10) == 241 && Hash32(8191, 10) == 263
  {
    assert Scramble(1) == 0x9e37_0001 && Scramble(2) == 0x3c6e_0002 && Scramble(8191) == 0x41c9_1fff;
    hide Scramble;
    assert Pow2(0) == 1 && 0x9e37_0001 / 1 == 0x9e37_0001;
    Pow2At22();
    hide Pow2;
    assert 0x9e37_0001 / 0x40_0000 == 632 && 0x3c6e_0002 / 0x40_0000 == 241 && 0x41c9_1fff / 0x40_0000 == 263;
  }

  lemma Pow2At22()
    ensures Pow2(22) == 0x40_0000
  {
    Pow2At12();
    Pow2Add(12, 10);
    assert Pow2(10) == 1024;
  }
}
