/** Machine integers of the C sources, little-endian words and the bitwise `&`
    on non-negative integers. */
module Bytes {

  type byte = x: int | 0 <= x < 0x100
  type u16 = x: int | 0 <= x < 0x1_0000
  type u32 = x: int | 0 <= x < 0x1_0000_0000

  function Min(a: int, b: int): int { if a <= b then a else b }

  /** Value of two bytes, low byte first. */
  function Le16(lo: byte, hi: byte): u16 { lo + 0x100 * hi }

  /** Value of four bytes, lowest first. */
  function Le32(b0: byte, b1: byte, b2: byte, b3: byte): u32 {
    b0 + 0x100 * b1 + 0x1_0000 * b2 + 0x100_0000 * b3
  }

  /** Four bytes of a word, lowest first (fujinet_nio_put_le32). */
  function PutLe32(v: u32): (s: seq<byte>)
    ensures |s| == 4 && Le32(s[0], s[1], s[2], s[3]) == v
  {
    var high := v / 0x100;
    var higher := high / 0x100;
    [v % 0x100, high % 0x100, higher % 0x100, higher / 0x100]
  }

  /** A word determines its bytes. */
  lemma Le32Injective(a: seq<byte>, b: seq<byte>)
    requires |a| == |b| == 4
    requires Le32(a[0], a[1], a[2], a[3]) == Le32(b[0], b[1], b[2], b[3])
    ensures a == b
  {
    var a2: int, b2: int := a[2] + 0x100 * (a[3] as int), b[2] + 0x100 * (b[3] as int);
    SplitLow(a[0], a[1] + 0x100 * a2, b[0], b[1] + 0x100 * b2);
    SplitLow(a[1], a2, b[1], b2);
    SplitLow(a[2], a[3], b[2], b[3]);
  }

  lemma SplitLow(a: byte, h: nat, b: byte, k: nat)
    requires a + 0x100 * h == b + 0x100 * k
    ensures a == b && h == k
  {
  }

  /** C's bitwise `&`, bit by bit. */
  function And(a: nat, b: nat): nat {
    if a == 0 || b == 0 then 0 else (a % 2) * (b % 2) + 2 * And(a / 2, b / 2)
  }

  function Pow2(k: nat): (p: nat)
    ensures p >= 1
  {
    if k == 0 then 1 else 2 * Pow2(k - 1)
  }

  /** Masking with 2^k - 1 is reduction modulo 2^k. */
  lemma MaskIsMod(x: nat, k: nat)
    ensures And(x, Pow2(k) - 1) == x % Pow2(k)
  {
    MaskIsLow(x, k);
    LowIsMod(x, k);
  }

  /** The k lowest bits. */
  function Low(x: nat, k: nat): nat { if k == 0 then 0 else x % 2 + 2 * Low(x / 2, k - 1) }

  lemma {:induction false} MaskIsLow(x: nat, k: nat)
    ensures And(x, Pow2(k) - 1) == Low(x, k)
  {
    if k > 0 {
      MaskIsLow(x / 2, k - 1);
      MaskBelow(x, Pow2(k - 1));
    }
  }

  lemma {:induction false} LowIsMod(x: nat, k: nat)
    ensures Low(x, k) == x % Pow2(k)
  {
    if k > 0 {
      LowIsMod(x / 2, k - 1);
      ModDouble(x, Pow2(k - 1));
    }
  }

  lemma MaskBelow(x: nat, p: nat)
    requires p > 0
    ensures And(x, 2 * p - 1) == x % 2 + 2 * And(x / 2, p - 1)
  {
    AndBits(x / 2, x % 2, p - 1, 1);
  }

  /** Masking with a single bit tests that bit. */
  lemma {:induction false} BitTest(x: nat, k: nat)
    ensures And(x, Pow2(k)) == if x / Pow2(k) % 2 == 1 then Pow2(k) else 0
  {
    if k == 0 {
      AndBits(x / 2, x % 2, 0, 1);
    } else {
      BitTest(x / 2, k - 1);
      DivDouble(x, Pow2(k - 1));
      AndBits(x / 2, x % 2, Pow2(k - 1), 0);
    }
  }

  /** One bit at a time: x and y are the lowest bits. */
  lemma AndBits(a: nat, x: nat, b: nat, y: nat)
    requires x <= 1 && y <= 1
    ensures And(2 * a + x, 2 * b + y) == (if x == 1 && y == 1 then 1 else 0) + 2 * And(a, b)
  {
    assert (2 * a + x) / 2 == a && (2 * a + x) % 2 == x;
    assert (2 * b + y) / 2 == b && (2 * b + y) % 2 == y;
  }

  lemma DivModDouble(x: nat, p: nat)
    requires p > 0
    ensures x % (2 * p) == x % 2 + 2 * (x / 2 % p) && x / (2 * p) == x / 2 / p
  {
    var q, r := x / 2 / p, x / 2 % p;
    assert x / 2 == p * q + r;
    assert x == (2 * p) * q + (x % 2 + 2 * r);
    DivModUnique(x, 2 * p, q, x % 2 + 2 * r);
  }

  lemma ModDouble(x: nat, p: nat)
    requires p > 0
    ensures x % (2 * p) == x % 2 + 2 * (x / 2 % p)
  {
    DivModDouble(x, p);
  }

  lemma DivDouble(x: nat, p: nat)
    requires p > 0
    ensures x / (2 * p) == x / 2 / p
  {
    DivModDouble(x, p);
  }

  lemma DivModUnique(x: int, d: int, q: int, r: int)
    requires d > 0 && 0 <= r < d && x == d * q + r
    ensures x / d == q && x % d == r
  {
    var e := q - x / d;
    assert d * e == d * q - d * (x / d);
    assert d * -e == -(d * e);
    if e > 0 { AtLeastFactor(d, e); }
    if e < 0 { AtLeastFactor(d, -e); }
  }

  lemma AtLeastFactor(d: nat, n: nat)
    requires n > 0
    ensures d * n >= d
  {
    assert d * n == d * (n - 1) + d;
    assert d * (n - 1) >= 0;
  }

  /** The power-of-two test `(n & (n - 1)) == 0`. */
  lemma {:induction false} PowerOfTwoTest(n: nat)
    requires n > 0
    ensures And(n, n - 1) == 0 <==> exists k: nat :: n == Pow2(k)
  {
    var h := n / 2;
    if n == 1 {
      IsPow2(n, 0);
    } else if n % 2 == 1 {
      AndBits(h, 1, h, 0);
      AndSelf(h);
      assert And(n, n - 1) == 2 * h;
      forall k: nat ensures n != Pow2(k) { Pow2Parity(k); }
    } else {
      PowerOfTwoTest(h);
      AndBits(h, 0, h - 1, 1);
      assert And(n, n - 1) == 2 * And(h, h - 1);
      HalvesPow2(n, h);
    }
  }

  lemma HalvesPow2(n: nat, h: nat)
    requires n == 2 * h > 0
    ensures (exists k: nat :: n == Pow2(k)) <==> exists k: nat :: h == Pow2(k)
  {
    if k: nat :| n == Pow2(k) { assert h == Pow2(k - 1); }
    if k: nat :| h == Pow2(k) { Pow2Double(k); IsPow2(n, k + 1); }
  }

  lemma IsPow2(n: nat, k: nat)
    requires n == Pow2(k)
    ensures exists j: nat :: n == Pow2(j)
  {
  }

  lemma Pow2Double(k: nat)
    ensures Pow2(k + 1) == 2 * Pow2(k)
  {
  }

  lemma Pow2Parity(k: nat)
    ensures Pow2(k) == 1 || Pow2(k) % 2 == 0
  {
  }

  lemma {:induction false} AndSelf(n: nat)
    ensures And(n, n) == n
  {
    if n > 0 {
      AndSelf(n / 2);
      AndBits(n / 2, n % 2, n / 2, n % 2);
    }
  }
}
