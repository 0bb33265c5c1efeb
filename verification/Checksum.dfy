/** The end-around-carry checksum shared by the MS-DOS client
    (msdos/src/nio/nio_protocol.c) and the packet guard. */
module Checksum {
  import opened Bytes

  /** One loop iteration: the carry out of the low byte is added back in. */
  function AddCarry(chk: nat, b: byte): nat { (chk + b) / 0x100 + (chk + b) % 0x100 }

  function Fold(s: seq<byte>, seed: nat): nat {
    if s == [] then seed else AddCarry(Fold(s[..|s| - 1], seed), s[|s| - 1])
  }

  function Sum(s: seq<byte>): nat {
    if s == [] then 0 else Sum(s[..|s| - 1]) + s[|s| - 1]
  }

  /** Arithmetic meaning of the checksum of a total: zero only for a zero total,
      otherwise the representative of the total modulo 255 in 1..255. */
  function Residue(total: nat): (r: byte) {
    if total == 0 then 0 else 1 + (total - 1) % 255
  }

  /** The accumulating loop. */
  method Compute(buf: seq<byte>, seed: u16) returns (chk: u16)
    ensures chk == Fold(buf, seed)
    ensures seed < 0x100 ==> chk == Residue(seed + Sum(buf))
  {
    chk := seed;
    for idx := 0 to |buf|
      invariant chk == Fold(buf[..idx], seed)
    {
      assert buf[..idx + 1][..idx] == buf[..idx];
      FoldSnoc(buf[..idx + 1], seed);
      chk := (chk + buf[idx]) / 0x100 + (chk + buf[idx]) % 0x100;
    }
    assert buf[..|buf|] == buf;
    if seed < 0x100 { FoldIsResidue(buf, seed); }
  }

  /** Closed form of the loop, for every byte-sized seed. */
  lemma {:induction false} FoldIsResidue(s: seq<byte>, seed: byte)
    ensures Fold(s, seed) == Residue(seed + Sum(s))
  {
    FoldCastsOut(s, seed);
    CastOutIsResidue(seed + Sum(s));
  }

  /** Casting out 255s one at a time: the residue without division. */
  function CastOut(total: nat): (r: nat)
    ensures r < 0x100 && (r == 0 <==> total == 0)
  {
    if total <= 255 then total else CastOut(total - 255)
  }

  lemma {:induction false} CastOutIsResidue(total: nat)
    ensures CastOut(total) == Residue(total)
  {
    if total > 255 {
      CastOutIsResidue(total - 255);
      assert (total - 1) % 255 == (total - 256) % 255;
    }
  }

  /** Fold and Sum, one byte further. */
  lemma FoldSnoc(s: seq<byte>, seed: nat)
    requires s != []
    ensures Fold(s, seed) == AddCarry(Fold(s[..|s| - 1], seed), s[|s| - 1])
    ensures Sum(s) == Sum(s[..|s| - 1]) + s[|s| - 1]
  {
  }

  lemma {:induction false} FoldCastsOut(s: seq<byte>, seed: byte)
    ensures Fold(s, seed) == CastOut(seed + Sum(s))
  {
    if s != [] {
      var init, last := s[..|s| - 1], s[|s| - 1];
      FoldCastsOut(init, seed);
      CarryCastsOut(seed + Sum(init), last);
      FoldSnoc(s, seed);
    }
  }

  lemma {:induction false} CarryCastsOut(total: nat, b: byte)
    ensures AddCarry(CastOut(total), b) == CastOut(total + b)
  {
    if total > 255 {
      CarryCastsOut(total - 255, b);
    } else if total + b > 255 {
      assert (total + b) / 0x100 == if total + b == 255 then 0 else 1;
    }
  }

  /** Adding less than 255 to a total always shows; adding 255 shows only when
      the total was zero. */
  lemma {:induction false} CastOutSeparates(total: nat, d: nat)
    requires 0 < d <= 255
    ensures CastOut(total + d) == CastOut(total) <==> (d == 255 && total > 0)
  {
    if total > 255 { CastOutSeparates(total - 255, d); }
  }

  lemma {:induction false} SumConcat(a: seq<byte>, b: seq<byte>)
    ensures Sum(a + b) == Sum(a) + Sum(b)
  {
    if b == [] {
      assert a + b == a;
    } else {
      assert (a + b)[..|a + b| - 1] == a + b[..|b| - 1];
      SumConcat(a, b[..|b| - 1]);
    }
  }

  /** Checksumming in two pieces, the first result seeding the second, is
      checksumming the concatenation. */
  lemma {:induction false} FoldConcat(a: seq<byte>, b: seq<byte>, seed: nat)
    ensures Fold(b, Fold(a, seed)) == Fold(a + b, seed)
  {
    if b == [] {
      assert a + b == a;
    } else {
      assert (a + b)[..|a + b| - 1] == a + b[..|b| - 1];
      FoldConcat(a, b[..|b| - 1], seed);
    }
  }

  /** Order does not matter: rearranging the bytes keeps the checksum. */
  lemma {:induction false} FoldIgnoresOrder(a: seq<byte>, b: seq<byte>, seed: byte)
    requires multiset(a) == multiset(b)
    ensures Fold(a, seed) == Fold(b, seed)
  {
    FoldCastsOut(a, seed);
    FoldCastsOut(b, seed);
    SumIgnoresOrder(a, b);
  }

  /** The sum with the byte at one position taken out. */
  lemma SumWithout(s: seq<byte>, i: nat)
    requires i < |s|
    ensures Sum(s[..i] + s[i + 1..]) == Sum(s) - s[i]
  {
    var a, x, b := s[..i], s[i], s[i + 1..];
    assert s == a + [x] + b;
    SumConcat(a + [x], b);
    SumConcat(a, b);
    SumOneMore(a, x);
  }

  lemma SumOneMore(a: seq<byte>, x: byte)
    ensures Sum(a + [x]) == Sum(a) + x
  {
    assert (a + [x])[..|a|] == a;
  }

  lemma {:induction false} SumIgnoresOrder(a: seq<byte>, b: seq<byte>)
    requires multiset(a) == multiset(b)
    ensures Sum(a) == Sum(b)
  {
    assert |a| == |multiset(a)| == |multiset(b)| == |b|;
    if a != [] {
      var n := |a| - 1;
      assert a[n] in multiset(b);
      var i :| 0 <= i < |b| && b[i] == a[n];
      RemoveOne(a, n);
      RemoveOne(b, i);
      assert a[..n] + a[n + 1..] == a[..n];
      SumIgnoresOrder(a[..n], b[..i] + b[i + 1..]);
      SumWithout(b, i);
    }
  }

  lemma RemoveOne(s: seq<byte>, i: nat)
    requires i < |s|
    ensures multiset(s[..i] + s[i + 1..]) == multiset(s) - multiset{s[i]}
  {
    assert s == s[..i] + [s[i]] + s[i + 1..];
  }

  lemma SumUpdate(s: seq<byte>, i: nat, v: byte)
    requires i < |s|
    ensures Sum(s[i := v]) == Sum(s) - s[i] + v
  {
    SumWithout(s, i);
    SumWithout(s[i := v], i);
    assert s[i := v][..i] + s[i := v][i + 1..] == s[..i] + s[i + 1..];
  }

  /** Skipping one byte of a packet, as the packet checksum skips its own slot,
      gives the checksum of the packet with that byte zeroed. */
  lemma SkipIsZeroing(s: seq<byte>, i: nat, seed: byte)
    requires i < |s|
    ensures Fold(s[..i] + s[i + 1..], seed) == Fold(s[i := 0], seed)
  {
    FoldCastsOut(s[..i] + s[i + 1..], seed);
    FoldCastsOut(s[i := 0], seed);
    SumWithout(s, i);
    SumUpdate(s, i, 0);
  }

  /** Exactly which single-byte changes go unnoticed: a swap of 0x00 and 0xFF
      while the remaining bytes (and the seed) do not all sum to zero. */
  lemma SingleByteChange(s: seq<byte>, i: nat, v: byte, seed: byte)
    requires i < |s| && v != s[i]
    ensures Fold(s[i := v], seed) == Fold(s, seed)
      <==> (((s[i] == 0x00 && v == 0xFF) || (s[i] == 0xFF && v == 0x00))
            && seed + Sum(s[..i] + s[i + 1..]) > 0)
  {
    FoldWith(s, i, s[i], seed);
    FoldWith(s, i, v, seed);
    assert s[i := s[i]] == s;
    OnlySwapsGoUnnoticed(seed + Sum(s[..i] + s[i + 1..]), s[i], v);
  }

  lemma OnlySwapsGoUnnoticed(rest: nat, a: byte, b: byte)
    requires a != b
    ensures CastOut(rest + b) == CastOut(rest + a)
      <==> ((a == 0x00 && b == 0xFF) || (a == 0xFF && b == 0x00)) && rest > 0
  {
    if b > a {
      assert rest + b == (rest + a) + (b - a);
      CastOutSeparates(rest + a, b - a);
    } else {
      assert rest + a == (rest + b) + (a - b);
      CastOutSeparates(rest + b, a - b);
    }
  }

  lemma FoldWith(s: seq<byte>, i: nat, v: byte, seed: byte)
    requires i < |s|
    ensures Fold(s[i := v], seed) == CastOut(seed + Sum(s[..i] + s[i + 1..]) + v)
  {
    FoldCastsOut(s[i := v], seed);
    SumUpdate(s, i, v);
    SumWithout(s, i);
  }
}
