/**
 Positional notation, and the 32-bit bitwise operators that the scripting language applies to
 numbers: operands are reduced modulo 2^32, results are read back as signed 32-bit integers.
 */
module Numbers {

  // --- Positional notation, most significant digit first ---------------------------------------

  function Pow(b: nat, k: nat): nat {
    if k == 0 then 1 else b * Pow(b, k - 1)
  }

  function Value(ds: seq<nat>, b: nat): nat {
    if ds == [] then 0 else Value(ds[..|ds| - 1], b) * b + ds[|ds| - 1]
  }

  predicate AreDigits(ds: seq<nat>, b: nat) {
    forall i :: 0 <= i < |ds| ==> ds[i] < b
  }

  /** The `k` low-order digits of `v` in base `b`. */
  function ToDigits(v: nat, k: nat, b: nat): (ds: seq<nat>)
    requires b >= 2
    ensures |ds| == k && AreDigits(ds, b)
  {
    if k == 0 then [] else ToDigits(v / b, k - 1, b) + [v % b]
  }

  lemma MulDistributes(x: int, y: int, z: int)
    ensures (x + y) * z == x * z + y * z
  {
  }

  lemma MulAssociates(x: int, y: int, z: int)
    ensures (x * y) * z == x * (y * z)
  {
  }

  lemma MulNonNegative(x: nat, y: nat)
    ensures x * y >= 0
  {
  }

  lemma MulRegroups(v: int, x: nat, w: int, p: nat, q: int) returns (y: nat)
    requires v == x * w && w == p * q
    ensures y == x * p && v == y * q
  {
    MulNonNegative(x, p);
    MulAssociates(x, p, q);
    y := x * p;
  }

  lemma MulMonotone(x: int, y: int, z: nat)
    requires x <= y
    ensures x * z <= y * z
  {
  }

  lemma PowPositive(b: nat, k: nat)
    requires b >= 1
    ensures Pow(b, k) >= 1
  {
    if k > 0 { PowPositive(b, k - 1); }
  }

  lemma {:induction false} PowAdd(b: nat, j: nat, k: nat)
    ensures Pow(b, j + k) == Pow(b, j) * Pow(b, k)
  {
    if j == 0 {
    } else {
      PowAdd(b, j - 1, k);
      MulAssociates(b, Pow(b, j - 1), Pow(b, k));
    }
  }

  lemma {:induction false} PowOfPow(b: nat, j: nat, k: nat)
    ensures Pow(Pow(b, j), k) == Pow(b, j * k)
  {
    if k == 0 {
    } else {
      PowOfPow(b, j, k - 1);
      assert j * k == j + j * (k - 1);
      PowAdd(b, j, j * (k - 1));
    }
  }

  lemma HornerStep(x: int, p: int, y: int, b: int)
    ensures (x * p + y) * b == x * (b * p) + y * b
  {
    MulDistributes(x * p, y, b);
    MulAssociates(x, p, b);
  }

  lemma {:induction false} ValueAppend(a: seq<nat>, c: seq<nat>, b: nat)
    ensures Value(a + c, b) == Value(a, b) * Pow(b, |c|) + Value(c, b)
  {
    if c == [] {
      assert a + c == a;
    } else {
      var c' := c[..|c| - 1];
      assert (a + c)[..|a + c| - 1] == a + c';
      ValueAppend(a, c', b);
      var p, x := Pow(b, |c'|), Value(a, b);
      HornerStep(x, p, Value(c', b), b);
    }
  }

  lemma ValueSnoc(a: seq<nat>, d: nat, b: nat)
    ensures Value(a + [d], b) == Value(a, b) * b + d
  {
    assert (a + [d])[..|a|] == a;
  }

  lemma HornerBound(x: nat, d: nat, p: nat, b: nat)
    requires x < p && d < b
    ensures x * b + d < b * p
  {
    MulMonotone(x + 1, p, b);
    MulDistributes(x, 1, b);
  }

  lemma QuotientBound(v: nat, p: nat, b: nat)
    requires b >= 1 && v < b * p
    ensures v / b < p
  {
    if p <= v / b {
      MulMonotone(p, v / b, b);
      assert false;
    }
  }

  lemma {:induction false} ValueBound(ds: seq<nat>, b: nat)
    requires AreDigits(ds, b)
    ensures Value(ds, b) < Pow(b, |ds|)
  {
    if ds == [] {
    } else {
      var ds' := ds[..|ds| - 1];
      ValueBound(ds', b);
      HornerBound(Value(ds', b), ds[|ds| - 1], Pow(b, |ds'|), b);
    }
  }

  /** Writing out the digits of a number and reading them back gives the number. */
  lemma {:induction false} ToDigitsOfValue(ds: seq<nat>, b: nat)
    requires b >= 2 && AreDigits(ds, b)
    ensures ToDigits(Value(ds, b), |ds|, b) == ds
  {
    if ds == [] {
    } else {
      var ds', d := ds[..|ds| - 1], ds[|ds| - 1];
      DivModUnique(Value(ds', b), d, b);
      ToDigitsOfValue(ds', b);
    }
  }

  /** Quotient and remainder are unique. */
  lemma QuotientUnique(q: nat, r: nat, q': nat, r': nat, b: nat)
    requires r < b && r' < b
    requires q * b + r == q' * b + r'
    ensures q == q' && r == r'
  {
    if q < q' {
      MulMonotone(q + 1, q', b);
      MulDistributes(q, 1, b);
    } else if q' < q {
      MulMonotone(q' + 1, q, b);
      MulDistributes(q', 1, b);
    }
  }

  lemma DivModUnique(q: nat, r: nat, b: nat)
    requires r < b
    ensures (q * b + r) / b == q && (q * b + r) % b == r
  {
    var x := q * b + r;
    QuotientUnique(q, r, x / b, x % b, b);
  }

  lemma ValueOfNextDigit(v: nat, ds: seq<nat>, b: nat)
    requires b >= 2 && Value(ds, b) == v / b
    ensures Value(ds + [v % b], b) == v
  {
    ValueSnoc(ds, v % b, b);
  }

  lemma {:induction false} ValueOfToDigits(v: nat, k: nat, b: nat)
    requires b >= 2 && v < Pow(b, k)
    ensures Value(ToDigits(v, k, b), b) == v
  {
    if k == 0 {
    } else {
      QuotientBound(v, Pow(b, k - 1), b);
      ValueOfToDigits(v / b, k - 1, b);
      ValueOfNextDigit(v, ToDigits(v / b, k - 1, b), b);
    }
  }

  /** `v` without its `k` low-order bits. */
  function Shr(v: nat, k: nat): nat {
    PowPositive(2, k);
    v / Pow(2, k)
  }

  // --- Bitwise operators on unsigned numbers, bit by bit ----------------------------------------

  function BitOr(a: nat, c: nat): nat
    decreases a + c
  {
    if a == 0 && c == 0 then 0
    else 2 * BitOr(a / 2, c / 2) + (if a % 2 == 1 || c % 2 == 1 then 1 else 0)
  }

  function BitAnd(a: nat, c: nat): nat
    decreases a + c
  {
    if a == 0 || c == 0 then 0
    else 2 * BitAnd(a / 2, c / 2) + (if a % 2 == 1 && c % 2 == 1 then 1 else 0)
  }

  /** `|` of two numbers whose bits do not overlap is their sum. */
  lemma {:induction false} BitOrDisjoint(a: nat, c: nat, k: nat)
    requires c < Pow(2, k)
    ensures BitOr(a * Pow(2, k), c) == a * Pow(2, k) + c
  {
    if k == 0 {
      BitOrZero(a);
    } else {
      var p := Pow(2, k - 1);
      assert a * Pow(2, k) == 2 * (a * p);
      BitOrDisjoint(a, c / 2, k - 1);
    }
  }

  lemma BitOrZero(a: nat)
    ensures BitOr(a, 0) == a
  {
    if a > 0 { BitOrZero(a / 2); }
  }

  /** `&` with a mask of up to eight ones keeps that many low bits. */
  lemma {:induction false} BitAndMask(a: nat, m: nat)
    requires m in {0, 1, 3, 7, 15, 31, 63, 127, 255}
    ensures BitAnd(a, m) == a % (m + 1)
    decreases m
  {
    if m == 0 {
    } else {
      assert m / 2 in {0, 1, 3, 7, 15, 31, 63, 127} && m % 2 == 1;
      BitAndMask(a / 2, m / 2);
      BitAndOdd(a, m / 2);
      LowBits(a, m / 2 + 1);
    }
  }

  lemma DoubleQuotient(q: nat, p: nat, r: nat, e: nat)
    ensures 2 * (q * p + r) + e == q * (2 * p) + (2 * r + e)
  {
    MulAssociates(2, q, p);
    MulAssociates(q, 2, p);
    assert 2 * q == q * 2;
  }

  lemma LowBitsOf(q: nat, r: nat, e: nat, p: nat)
    requires r < p && e < 2
    ensures var a := 2 * (q * p + r) + e; a >= 0 && a % (2 * p) == 2 * r + e
  {
    MulNonNegative(q, p);
    DoubleQuotient(q, p, r, e);
    DivModUnique(q, 2 * r + e, 2 * p);
  }

  lemma LowBits(a: nat, p: nat)
    requires p > 0
    ensures a % (2 * p) == 2 * ((a / 2) % p) + a % 2
  {
    var h := a / 2;
    LowBitsOf(h / p, h % p, a % 2, p);
    assert h == h / p * p + h % p;
  }

  lemma BitAndOdd(a: nat, m: nat)
    ensures BitAnd(a, 2 * m + 1) == 2 * BitAnd(a / 2, m) + a % 2
  {
  }

  // --- The 32-bit operators ----------------------------------------------------------------------

  const TWO_TO_32: nat := 0x1_0000_0000

  function ToUint32(x: int): (u: nat)
    ensures u < TWO_TO_32
  {
    x % TWO_TO_32
  }

  function ToInt32(x: int): int {
    var u := ToUint32(x);
    if u < 0x8000_0000 then u else u - TWO_TO_32
  }

  /** `a | c` */
  function Or32(a: int, c: int): int {
    ToInt32(BitOr(ToUint32(a), ToUint32(c)))
  }

  /** `a & c` */
  function And32(a: int, c: int): int {
    ToInt32(BitAnd(ToUint32(a), ToUint32(c)))
  }

  /** `a << k` */
  function Shl32(a: int, k: nat): int
    requires k < 32
  {
    ToInt32(a * Pow(2, k))
  }

  /** `a >>> k` */
  function Ushr32(a: int, k: nat): nat
    requires k < 32
  {
    Shr(ToUint32(a), k)
  }

  /** Only the value modulo 2^32 survives the signed reading. */
  lemma ToUint32OfToInt32(x: int)
    ensures ToUint32(ToInt32(x)) == ToUint32(x)
  {
  }

  lemma ToUint32OfShl32(x: int)
    ensures ToUint32(Shl32(x, 5)) == ToUint32(x * 32)
  {
    assert Pow(2, 5) == 32;
    ToUint32OfToInt32(x * 32);
  }

  lemma ToUint32OfOr32(a: int, c: nat)
    requires c < TWO_TO_32
    ensures ToUint32(Or32(a, c)) == ToUint32(BitOr(ToUint32(a), c))
  {
    assert ToUint32(c) == c;
    ToUint32OfToInt32(BitOr(ToUint32(a), c));
  }

  lemma ToUint32Twice(x: int)
    ensures ToUint32(ToUint32(x)) == ToUint32(x)
  {
  }

  /** `&` of an unsigned number with such a mask. */
  lemma And32Mask(a: nat, m: nat)
    requires a < TWO_TO_32 && m in {0, 1, 3, 7, 15, 31, 63, 127, 255}
    ensures And32(a, m) == a % (m + 1)
  {
    BitAndMask(a, m);
    ToUint32Of(a, 0, a);
    ToUint32Of(m, 0, m);
    ToInt32OfSmall(a % (m + 1));
  }

  lemma SmallModulo(a: nat, n: nat)
    requires a < n
    ensures a % n == a
  {
    DivModUnique(0, a, n);
  }

  lemma And32Whole(a: nat, m: nat)
    requires a <= m && m in {15, 127, 255}
    ensures And32(a, m) == a
  {
    SmallModulo(a, m + 1);
    And32Mask(a, m);
  }

  lemma ToInt32OfSmall(x: nat)
    requires x < 0x8000_0000
    ensures ToInt32(x) == x
  {
  }

  lemma ToUint32Of(x: int, k: int, u: nat)
    requires x == k * TWO_TO_32 + u && u < TWO_TO_32
    ensures ToUint32(x) == u
  {
  }

  lemma ToUint32Absorbs(x: int, y: int, term: nat)
    requires ToUint32(x) == ToUint32(y)
    ensures ToUint32(x * 32 + term) == ToUint32(y * 32 + term)
  {
    var k := x / TWO_TO_32 - y / TWO_TO_32;
    var z := y * 32 + term;
    assert x * 32 + term == (k * 32 + z / TWO_TO_32) * TWO_TO_32 + z % TWO_TO_32;
    ToUint32Of(x * 32 + term, k * 32 + z / TWO_TO_32, z % TWO_TO_32);
  }

  /** Shifting left by five leaves five zero bits, which a small addend fills without a carry. */
  lemma ShiftedHasRoom(x: int, term: nat) returns (h: nat)
    requires term < 32
    ensures ToUint32(x * 32) == h * 32 && ToUint32(x * 32 + term) == h * 32 + term
  {
    var k, u := x / TWO_TO_32, x % TWO_TO_32;
    var a, b := u / 0x800_0000, u % 0x800_0000;
    h := b;
    assert x * 32 == (k * 32 + a) * TWO_TO_32 + b * 32;
    ToUint32Of(x * 32, k * 32 + a, b * 32);
    ToUint32Of(x * 32 + term, k * 32 + a, b * 32 + term);
  }

  lemma BitOrDisjointFive(h: nat, c: nat)
    requires c < 32
    ensures BitOr(h * 32, c) == h * 32 + c
  {
    assert Pow(2, 5) == 32;
    BitOrDisjoint(h, c, 5);
  }

  lemma QuotientOfSum(k: nat, m: nat, d: nat, u: nat)
    requires d >= 1
    ensures (k * (m * d) + u) / d == k * m + u / d
  {
    var t, r := u / d, u % d;
    assert u == t * d + r;
    MulAssociates(k, m, d);
    MulDistributes(k * m, t, d);
    DivModUnique(k * m + t, r, d);
  }

  lemma LowByteOfSum(k: nat, c: nat, t: nat)
    ensures (k * (c * 256) + t) % 256 == t % 256
  {
    MulAssociates(k, c, 256);
  }
}
