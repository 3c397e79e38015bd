// 16-bit PDP-11 words as the integers 0..65535, with the operations the compiler folds.
module Words {

  const RADIX := 65536

  function W(x: int): (w: int)
    ensures 0 <= w < RADIX
  {
    x % RADIX
  }

  // The signed reading of a word.
  function S(x: int): (s: int)
    ensures -32768 <= s < 32768 && W(s) == W(x)
  {
    if W(x) < 32768 then W(x) else W(x) - RADIX
  }

  function Add(a: int, b: int): (r: int)
    ensures 0 <= r < RADIX
  {
    W(a + b)
  }

  function Mul(a: int, b: int): (r: int)
    ensures 0 <= r < RADIX
  {
    W(a * b)
  }

  // C's quotient and remainder, truncated toward zero.
  function Quo(a: int, b: int): int
    requires b != 0
  {
    if a >= 0 then a / b else -(-a / b)
  }

  function Rem(a: int, b: int): int
    requires b != 0
  {
    a - b * Quo(a, b)
  }

  function Pow2(n: nat): (p: int)
    ensures p >= 1
  {
    if n == 0 then 1 else 2 * Pow2(n - 1)
  }

  // The count of an ash instruction: six bits, signed.
  function AshCount(n: int): int {
    var c := n % 64;
    if c < 32 then c else c - 64
  }

  // ash: left for a positive count, arithmetic right for a negative one.
  function Ash(a: int, n: int): (r: int)
    ensures 0 <= r < RADIX
  {
    var k := AshCount(n);
    if k >= 0 then W(a * Pow2(k)) else W(S(a) / Pow2(-k))
  }

  datatype BitFn = BitAnd | BitOr | BitXor

  function Bit(f: BitFn, x: int, y: int): (b: int)
    ensures 0 <= b <= 1
  {
    match f
    case BitAnd => if x == 1 && y == 1 then 1 else 0
    case BitOr => if x == 1 || y == 1 then 1 else 0
    case BitXor => if x != y then 1 else 0
  }

  function Bits(f: BitFn, n: nat, a: int, b: int): (r: int)
    ensures 0 <= r < Pow2(n)
  {
    if n == 0 then 0 else 2 * Bits(f, n - 1, a / 2, b / 2) + Bit(f, a % 2, b % 2)
  }

  function BitOp(f: BitFn, a: int, b: int): (r: int)
    ensures 0 <= r < RADIX
  {
    assert Pow2(16) == RADIX by { Pow2Sixteen(); }
    Bits(f, 16, a, b)
  }

  function Not(a: int): int { W(-1 - a) }

  lemma Pow2Sixteen()
    ensures Pow2(16) == RADIX
  {
    assert Pow2(8) == 256;
    Pow2Plus(8, 8);
  }

  lemma {:induction false} Pow2Plus(m: nat, n: nat)
    ensures Pow2(m + n) == Pow2(m) * Pow2(n)
    decreases m
  {
    if m > 0 {
      Pow2Plus(m - 1, n);
      assert Pow2(m + n) == 2 * Pow2(m - 1 + n);
    }
  }

  // ---- congruences modulo 2^16

  lemma WAdd(a: int, b: int)
    ensures W(W(a) + b) == W(a + b) == W(a + W(b)) == W(W(a) + W(b))
  {
  }

  lemma WMul(a: int, b: int)
    ensures W(W(a) * b) == W(a * b) == W(a * W(b))
  {
    var q, q' := a / RADIX, b / RADIX;
    assert a == W(a) + q * RADIX && b == W(b) + q' * RADIX;
    assert a * b == W(a) * b + (q * b) * RADIX by { Distribute(W(a), q * RADIX, b); Regroup(q, b); }
    WMultiple(W(a) * b, q * b);
    assert a * b == a * W(b) + (a * q') * RADIX by { Distribute'(W(b), q' * RADIX, a); }
    WMultiple(a * W(b), a * q');
  }

  lemma WSmall(x: int)
    requires 0 <= x < RADIX
    ensures W(x) == x
  {
  }

  lemma Distribute(x: int, y: int, z: int)
    ensures (x + y) * z == x * z + y * z
  {
  }

  lemma Distribute'(x: int, y: int, z: int)
    ensures z * (x + y) == z * x + z * y
  {
  }

  lemma Regroup(q: int, b: int)
    ensures q * RADIX * b == q * b * RADIX
  {
  }

  lemma WMultiple(x: int, k: int)
    ensures W(x + k * RADIX) == W(x)
  {
  }

  lemma MulAssoc(a: int, b: int, c: int)
    ensures Mul(Mul(a, b), c) == Mul(a, Mul(b, c))
  {
    WMul(a * b, c);
    WMul(a, b * c);
    assert (a * b) * c == a * (b * c);
  }

  lemma MulDistrib(a: int, b: int, c: int)
    ensures Mul(Add(a, b), c) == Add(Mul(a, c), Mul(b, c))
  {
    hide W;
    WMul(a + b, c);
    Distribute(a, b, c);
    WAdd(a * c, b * c);
  }

  // ---- bitwise laws

  lemma {:induction false} BitsComm(f: BitFn, n: nat, a: int, b: int)
    ensures Bits(f, n, a, b) == Bits(f, n, b, a)
  {
    if n > 0 { BitsComm(f, n - 1, a / 2, b / 2); }
  }

  lemma HalfAndBit(h: int, b: int)
    requires 0 <= b <= 1
    ensures (2 * h + b) / 2 == h && (2 * h + b) % 2 == b
  {
  }

  lemma BitAssoc(f: BitFn, x: int, y: int, z: int)
    requires 0 <= x <= 1 && 0 <= y <= 1 && 0 <= z <= 1
    ensures Bit(f, Bit(f, x, y), z) == Bit(f, x, Bit(f, y, z))
  {
  }

  lemma {:induction false} BitsAssoc(f: BitFn, n: nat, a: int, b: int, c: int)
    ensures Bits(f, n, Bits(f, n, a, b), c) == Bits(f, n, a, Bits(f, n, b, c))
  {
    hide Bit;
    if n > 0 {
      BitAssoc(f, a % 2, b % 2, c % 2);
      BitsAssoc(f, n - 1, a / 2, b / 2, c / 2);
      HalfAndBit(Bits(f, n - 1, a / 2, b / 2), Bit(f, a % 2, b % 2));
      HalfAndBit(Bits(f, n - 1, b / 2, c / 2), Bit(f, b % 2, c % 2));
    }
  }

  // 0 and the all-ones word as units and zeros.
  lemma {:induction false} BitsConst(n: nat, a: int)
    requires 0 <= a < Pow2(n)
    ensures Bits(BitAnd, n, a, 0) == 0 && Bits(BitOr, n, a, 0) == a && Bits(BitXor, n, a, 0) == a
    ensures Bits(BitAnd, n, a, Pow2(n) - 1) == a
  {
    if n > 0 { BitsConst(n - 1, a / 2); }
  }

  lemma {:induction false} BitsSelf(n: nat, a: int)
    requires 0 <= a < Pow2(n)
    ensures Bits(BitAnd, n, a, a) == a
  {
    if n > 0 { BitsSelf(n - 1, a / 2); }
  }

  // d&(d-1) is zero only of powers of two.
  lemma {:induction false} ClearLowest(n: nat, d: int) returns (k: nat)
    requires 0 < d < Pow2(n) && Bits(BitAnd, n, d, d - 1) == 0
    ensures k < n && d == Pow2(k)
  {
    if d % 2 == 0 {
      assert (d - 1) / 2 == d / 2 - 1;
      k := ClearLowest(n - 1, d / 2);
      k := k + 1;
    } else {
      assert (d - 1) / 2 == d / 2;
      BitsSelf(n - 1, d / 2);
      k := 0;
    }
  }

  // Division by 2^k as a right shift: right exactly for dividends that are not negative
  // or that 2^k divides.
  lemma ShiftForQuotientIff(x: int, k: int)
    requires 1 <= k <= 14
    ensures W(Quo(S(x), Pow2(k))) == Ash(x, W(-k)) <==> S(x) >= 0 || S(x) % Pow2(k) == 0
  {
    hide Quo, Ash, Pow2;
    AshRight(x, k);
    Pow2Bound(k);
    FloorOrTruncate(S(x), Pow2(k));
    NextWord(S(x) / Pow2(k));
  }

  lemma AshRight(x: int, k: int)
    requires 1 <= k <= 14
    ensures Ash(x, W(-k)) == W(S(x) / Pow2(k))
  {
    NegativeCount(k);
    hide S, Pow2, W, AshCount;
  }

  lemma SShared(x: int, y: int)
    requires W(x) == W(y)
    ensures S(x) == S(y)
  {
  }

  lemma MulWord(x: int, y: int)
    ensures Mul(x, W(y)) == Mul(x, y)
  {
    WMul(x, y);
  }

  lemma AshLeft(x: int, k: int)
    requires 0 <= k < 32
    ensures Ash(x, k) == Mul(x, Pow2(k))
  {
    SmallCount(k);
    hide Pow2, W, AshCount, S;
  }

  lemma NegativeCount(k: int)
    requires 1 <= k <= 14
    ensures AshCount(W(-k)) == -k
  {
    assert W(-k) == RADIX - k;
    assert (RADIX - k) % 64 == 64 - k;
  }

  lemma SmallCount(k: int)
    requires 0 <= k < 32
    ensures AshCount(k) == k && W(k) == k && S(k) == k
  {
  }

  lemma SmallWord(x: int)
    requires 0 <= x < 32768
    ensures S(x) == x == W(x)
  {
  }

  lemma NegateTwice(v: int)
    requires 0 <= v < RADIX
    ensures W(-W(-v)) == v && Not(Not(v)) == v
  {
  }

  lemma NextWord(f: int)
    ensures W(f + 1) != W(f)
  {
  }

  lemma FloorOrTruncate(s: int, p: int)
    requires -32768 <= s < 32768 && 2 <= p <= 16384
    ensures -32768 <= s / p < 32768 && -32768 <= Quo(s, p) <= 32768
    ensures s >= 0 || s % p == 0 ==> Quo(s, p) == s / p
    ensures s < 0 && s % p != 0 ==> Quo(s, p) == s / p + 1
  {
    var q, r := s / p, s % p;
    assert s == p * q + r;
    if s < 0 {
      if r == 0 {
        assert -s == p * -q;
        UniqueQuotient(-s, p, -q, 0);
      } else {
        assert -s == p * (-q - 1) + (p - r);
        UniqueQuotient(-s, p, -q - 1, p - r);
      }
    }
  }

  lemma UniqueQuotient(a: int, p: int, q: int, r: int)
    requires p > 0 && a == p * q + r && 0 <= r < p
    ensures a / p == q && a % p == r
  {
    var q', r' := a / p, a % p;
    assert p * q' + r' == p * q + r;
    if q < q' {
      Gap(p, q, q');
    } else if q > q' {
      Gap(p, q', q);
    }
  }

  lemma Gap(p: int, a: int, b: int)
    requires p > 0 && a < b
    ensures p * b - p * a >= p
  {
    Distribute'(a, b - a, p);
    assert a + (b - a) == b;
    AtLeast(p, b - a);
  }

  lemma AtLeast(p: int, n: int)
    requires p > 0 && n >= 1
    ensures p * n >= p
  {
  }

  lemma {:induction false} Pow2Bound(k: nat)
    requires 1 <= k <= 14
    ensures 2 <= Pow2(k) <= 16384
    decreases 14 - k
  {
    if k == 14 {
      assert Pow2(7) == 128;
      Pow2Plus(7, 7);
    } else {
      Pow2Bound(k + 1);
    }
  }

  // ---- shifts

  lemma AshZero(a: int, n: int)
    requires 0 <= a < RADIX && n == 0
    ensures Ash(a, n) == a && Ash(a, W(-n)) == a
  {
  }

  lemma AddNegated(x: int, c: int)
    ensures Add(x, W(W(-c))) == W(x - W(c))
  {
    var q := c / RADIX;
    assert -c == -q * RADIX - W(c);
    WShift(-W(c), -q);
    WShift(x - W(c), 1);
  }

  lemma WShift(x: int, q: int)
    ensures W(x + q * RADIX) == W(x)
  {
  }

  lemma AshAdd(a: int, b: int, n: int)
    requires 0 <= AshCount(n)
    ensures Ash(Add(a, b), n) == Add(Ash(a, n), Ash(b, n))
  {
    hide W, S, Pow2, AshCount;
    var p := Pow2(AshCount(n));
    WMul(a + b, p);
    Distribute(a, b, p);
    WAdd(a * p, b * p);
  }

  // A left shift distributes over addition exactly when the six-bit count is not negative.
  lemma AshAddIff(n: int)
    ensures (forall a, b :: Ash(Add(a, b), n) == Add(Ash(a, n), Ash(b, n))) <==> n % 64 < 32
  {
    if n % 64 < 32 {
      forall a, b
        ensures Ash(Add(a, b), n) == Add(Ash(a, n), Ash(b, n))
      {
        AshAdd(a, b, n);
      }
    } else {
      var k := -AshCount(n);
      assert Pow2(k) == 2 * Pow2(k - 1);
      var p := Pow2(k);
      assert 0 / p == 0 && 1 / p == 0 && -1 / p == -1 by { SmallQuotients(p); }
      assert Ash(Add(-1, 1), n) != Add(Ash(-1, n), Ash(1, n));
    }
  }

  lemma SmallQuotients(p: int)
    requires p >= 2
    ensures 0 / p == 0 && 1 / p == 0 && -1 / p == -1
  {
    assert -1 == p * -1 + (p - 1);
  }
}
