/** The Paula receive ring (amiga/serial.device/fujinet_paula_uart.c), read while
    the receive interrupt keeps filling it. */
module PaulaRing {
  import opened Bytes

  const SERDATR_OVRUN: u16 := 0x8000
  const SERDATR_RBF: u16 := 0x4000

  // Bit tests of the status word; StatusBits shows that they are the C masks.
  predicate HasByte(serdatr: u16) { serdatr / 0x4000 % 2 == 1 }
  predicate HasOverrun(serdatr: u16) { serdatr / 0x8000 % 2 == 1 }

  lemma StatusBits(serdatr: u16)
    ensures HasByte(serdatr) <==> And(serdatr, SERDATR_RBF) != 0
    ensures HasOverrun(serdatr) <==> And(serdatr, SERDATR_OVRUN) != 0
  {
    Pow2Of16();
    BitTest(serdatr, 14);
    BitTest(serdatr, 15);
  }

  // ---------------------------------------------------- the abstract stream

  /** One receive interrupt on a queue of at most `room` bytes. */
  function Arrive(q: seq<byte>, w: u16, room: nat): seq<byte> {
    if HasByte(w) && |q| < room then q + [w % 0x100] else q
  }

  function ArriveAll(q: seq<byte>, ws: seq<u16>, room: nat): seq<byte> {
    if ws == [] then q else Arrive(ArriveAll(q, ws[..|ws| - 1], room), ws[|ws| - 1], room)
  }

  /** Some byte of ws found the queue full. */
  predicate Loses(q: seq<byte>, ws: seq<u16>, room: nat) {
    ws != [] && (Loses(q, ws[..|ws| - 1], room)
                 || (HasByte(ws[|ws| - 1]) && |ArriveAll(q, ws[..|ws| - 1], room)| >= room))
  }

  /** The words of interrupts 0..n - 1 in order. */
  ghost function Gather(arrivals: nat -> seq<u16>, n: nat): seq<u16> {
    if n == 0 then [] else Gather(arrivals, n - 1) + arrivals(n - 1)
  }

  lemma {:induction false} ArriveConcat(q: seq<byte>, a: seq<u16>, b: seq<u16>, room: nat)
    ensures ArriveAll(q, a + b, room) == ArriveAll(ArriveAll(q, a, room), b, room)
    ensures Loses(q, a + b, room) <==> Loses(q, a, room) || Loses(ArriveAll(q, a, room), b, room)
  {
    if b == [] {
      assert a + b == a;
    } else {
      assert (a + b)[..|a + b| - 1] == a + b[..|b| - 1];
      ArriveConcat(q, a, b[..|b| - 1], room);
    }
  }

  /** Arrivals only extend the queue, never beyond its room; and a run that loses
      nothing accepts exactly the bytes that were signalled. */
  lemma {:induction false} ArriveExtends(q: seq<byte>, ws: seq<u16>, room: nat)
    requires |q| <= room
    ensures q <= ArriveAll(q, ws, room) && |ArriveAll(q, ws, room)| <= room
  {
    if ws != [] { ArriveExtends(q, ws[..|ws| - 1], room); }
  }

  function Payload(ws: seq<u16>): seq<byte> {
    if ws == [] then []
    else Payload(ws[..|ws| - 1]) + if HasByte(ws[|ws| - 1]) then [ws[|ws| - 1] % 0x100] else []
  }

  /** Bytes are lost only when the ring is full: without a loss every signalled
      byte is in the queue, in order. */
  lemma {:induction false} NoLossKeepsAll(q: seq<byte>, ws: seq<u16>, room: nat)
    requires !Loses(q, ws, room)
    ensures ArriveAll(q, ws, room) == q + Payload(ws)
  {
    if ws != [] { NoLossKeepsAll(q, ws[..|ws| - 1], room); }
  }

  lemma {:induction false} PayloadConcat(a: seq<u16>, b: seq<u16>)
    ensures Payload(a + b) == Payload(a) + Payload(b)
  {
    if b == [] {
      assert a + b == a;
    } else {
      assert (a + b)[..|a + b| - 1] == a + b[..|b| - 1];
      PayloadConcat(a, b[..|b| - 1]);
    }
  }

  /** Exactly what a full queue keeps and when it loses: the signalled bytes follow the
      old ones up to the room there is, and a byte is lost if and only if there are
      more. */
  lemma {:induction false} ArriveKeepsFirst(q: seq<byte>, ws: seq<u16>, room: nat)
    requires |q| <= room
    ensures var all := q + Payload(ws);
      && ArriveAll(q, ws, room) == all[..Min(room, |all|)]
      && (Loses(q, ws, room) <==> |all| > room)
  {
    if ws != [] {
      ArriveKeepsFirst(q, ws[..|ws| - 1], room);
      assert q + Payload(ws) == q + Payload(ws[..|ws| - 1]) + Payload([ws[|ws| - 1]]) by {
        assert ws == ws[..|ws| - 1] + [ws[|ws| - 1]];
        PayloadConcat(ws[..|ws| - 1], [ws[|ws| - 1]]);
      }
    }
  }

  // ------------------------------------------------------- index arithmetic

  /** The C expression `x & mask` for a 16-bit mask, x possibly negative. */
  function Masked(x: int, mask: u16): nat { And(x % 0x1_0000, mask) }

  function Wrap(x: int, size: nat): int { if x >= size then x - size else if x < 0 then x + size else x }

  lemma {:induction false} Pow2Sum(a: nat, b: nat)
    ensures Pow2(a + b) == Pow2(a) * Pow2(b)
  {
    if a > 0 { Pow2Sum(a - 1, b); }
  }

  lemma {:induction false} Pow2Grows(a: nat, b: nat)
    requires a < b
    ensures 2 * Pow2(a) <= Pow2(b)
  {
    if a + 1 < b { Pow2Grows(a, b - 1); }
  }

  lemma Pow2Of16()
    ensures Pow2(14) == 0x4000 && Pow2(15) == 0x8000 && Pow2(16) == 0x1_0000
  {
    assert Pow2(7) == 128;
    Pow2Sum(7, 7);
  }

  lemma ModOfMod(x: int, size: nat, m: nat)
    requires size > 0 && m > 0
    ensures size * m > 0 && x % (size * m) % size == x % size
  {
    AtLeastFactor(size, m);
    var q, w := x / (size * m), x % (size * m);
    assert x == (size * m) * q + w && (size * m) * q == size * (m * q);
    assert x == size * (m * q + w / size) + w % size by {
      assert w == size * (w / size) + w % size;
      assert size * (m * q + w / size) == size * (m * q) + size * (w / size);
    }
    DivModUnique(x, size, m * q + w / size, w % size);
  }

  lemma WrapIsMod(x: int, size: int)
    requires 0 < size && -size <= x < 2 * size
    ensures Wrap(x, size) == x % size
  {
    if x >= size { DivModUnique(x, size, 1, x - size); }
    else if x < 0 { DivModUnique(x, size, -1, x + size); }
    else { DivModUnique(x, size, 0, x); }
  }

  /** For a power-of-two ring the mask wraps an index that left it by one lap. */
  lemma MaskWraps(x: int, k: nat, mask: u16)
    requires mask + 1 == Pow2(k) && -(mask as int) - 1 <= x < 2 * (mask as int) + 2
    ensures Masked(x, mask) == Wrap(x, mask + 1)
  {
    Pow2Of16();
    if k > 16 { Pow2Grows(16, k); assert false; }
    Pow2Sum(k, 16 - k);
    ModOfMod(x, Pow2(k), Pow2(16 - k));
    MaskIsMod(x % 0x1_0000, k);
    WrapIsMod(x, mask + 1);
  }

  // ---------------------------------------------------------------- the ring

  /** fujinet_paula_rx_init's test accepts exactly the powers of two from 2 up. */
  method AcceptsSize(size: u16) returns (ok: bool)
    ensures ok <==> size >= 2 && exists k: nat :: size == Pow2(k)
  {
    if size < 2 { return false; }
    PowerOfTwoTest(size);
    ok := And(size, size - 1) == 0;
  }

  /** The queue and the overflow latch at the start of a read. */
  datatype Snapshot = Snapshot(contents: seq<byte>, overflow: bool)

  function Burst(s: Snapshot, ws: seq<u16>, room: nat): Snapshot {
    Snapshot(ArriveAll(s.contents, ws, room), s.overflow || Loses(s.contents, ws, room))
  }

  /** After the first i batches of interrupts. */
  function After(was: Snapshot, arrivals: nat -> seq<u16>, i: nat, room: nat): Snapshot {
    if i == 0 then was else Burst(After(was, arrivals, i - 1, room), arrivals(i - 1), room)
  }

  lemma {:induction false} AfterGathers(was: Snapshot, arrivals: nat -> seq<u16>, i: nat, room: nat)
    ensures After(was, arrivals, i, room) == Burst(was, Gather(arrivals, i), room)
  {
    if i > 0 {
      AfterGathers(was, arrivals, i - 1, room);
      ArriveConcat(was.contents, Gather(arrivals, i - 1), arrivals(i - 1), room);
    }
  }

  class Rx {
    // set once, by fujinet_paula_rx_init
    const buf: array<byte>
    const mask: u16
    var head: u16
    var tail: u16
    var hardwareOverrun: bool
    var ringOverflow: bool
    /** Base-two logarithm of the ring size. */
    ghost const log: nat

    ghost predicate Valid()
      reads this
    {
      && mask + 1 == buf.Length == Pow2(log) && buf.Length >= 2
      && head <= mask && tail <= mask
    }

    function Size(): int { mask + 1 }

    ghost function Count(): nat
      requires Valid()
      reads this
    {
      Wrap(head - tail, Size())
    }

    /** The bytes in the ring, oldest first. */
    ghost function Contents(): (q: seq<byte>)
      requires Valid()
      reads this, buf
      ensures |q| == Count()
    {
      if tail <= head then buf[tail..head] else buf[tail..] + buf[..head]
    }

    constructor (buf: array<byte>, size: u16)
      requires size == buf.Length && size >= 2 && And(size, size - 1) == 0
      ensures Valid() && Contents() == [] && this.buf == buf && !hardwareOverrun && !ringOverflow
    {
      PowerOfTwoTest(size);
      this.buf := buf;
      mask := size - 1;
      head, tail := 0, 0;
      hardwareOverrun, ringOverflow := false, false;
      ghost var k: nat :| size == Pow2(k);
      log := k;
    }

    method Clear()
      requires Valid()
      modifies this
      ensures Valid() && Contents() == [] && !hardwareOverrun && !ringOverflow
    {
      head, tail := 0, 0;
      hardwareOverrun, ringOverflow := false, false;
    }

    /** The C expression `x & rx->mask`. */
    method Index(x: int) returns (i: u16)
      requires Valid() && -Size() <= x < 2 * Size()
      ensures i == Wrap(x, Size())
    {
      MaskWraps(x, log, mask);
      i := Masked(x, mask);
    }

    method Available() returns (n: u16)
      requires Valid()
      ensures n == |Contents()| <= mask
    {
      n := Index(head - tail);
    }

    /** One receive interrupt: the ring holds at most `mask` bytes; a byte that
        does not fit is dropped and the overflow is latched. */
    method Ingest(serdatr: u16)
      requires Valid()
      modifies this`head, this`hardwareOverrun, this`ringOverflow, buf
      ensures Valid() && Contents() == Arrive(old(Contents()), serdatr, mask)
      ensures hardwareOverrun == (old(hardwareOverrun) || HasOverrun(serdatr))
      ensures ringOverflow == (old(ringOverflow) || (HasByte(serdatr) && |old(Contents())| >= mask))
    {
      if HasOverrun(serdatr) { hardwareOverrun := true; }
      if !HasByte(serdatr) { return; }
      var next := Index(head + 1);
      if next == tail {
        ringOverflow := true;
        return;
      }
      Put(serdatr % 0x100, next);
    }

    method Put(b: byte, next: u16)
      requires Valid() && next == Wrap(head + 1, Size()) && next != tail
      modifies this`head, buf
      ensures Valid() && Contents() == old(Contents()) + [b]
    {
      ghost var q := Contents();
      ghost var h := head;
      buf[head] := b;
      head := next;
      if tail <= h {
        assert buf[tail..h] == q && buf[tail..h + 1] == q + [b];
      } else {
        assert buf[tail..] + buf[..h] == q;
        assert buf[tail..] + buf[..h + 1] == q + [b];
      }
    }

    /** Where the i-th byte of the queue is stored. */
    lemma StoredAt(i: nat)
      requires Valid() && i < Count()
      ensures 0 <= Wrap(tail + i, Size()) < buf.Length && Contents()[i] == buf[Wrap(tail + i, Size())]
    {
    }

    /** The interrupts that happen between two steps of the reader. */
    method Interrupts(ws: seq<u16>)
      requires Valid()
      modifies this`head, this`hardwareOverrun, this`ringOverflow, buf
      ensures Valid() && Contents() == ArriveAll(old(Contents()), ws, mask)
      ensures ringOverflow == (old(ringOverflow) || Loses(old(Contents()), ws, mask))
    {
      for i := 0 to |ws|
        invariant Valid() && Contents() == ArriveAll(old(Contents()), ws[..i], mask)
        invariant ringOverflow == (old(ringOverflow) || Loses(old(Contents()), ws[..i], mask))
      {
        assert ws[..i + 1][..i] == ws[..i];
        Ingest(ws[i]);
      }
      assert ws[..|ws|] == ws;
    }

    /** fujinet_paula_rx_read with the receive interrupt live: before the snapshot
        of head, before every byte copied, and before the tail is moved, any
        interrupts may run. The call behaves as one atomic read at the moment the
        tail moves: it returns exactly the oldest bytes there were at the
        snapshot, and everything that arrived since is behind them. */
    method Read(dst: array<byte>, want: u16, arrivals: nat -> seq<u16>) returns (n: u16, ghost ws: seq<u16>)
      requires Valid() && dst != buf && want <= dst.Length
      modifies this`head, this`tail, this`hardwareOverrun, this`ringOverflow, buf, dst
      ensures Valid()
      ensures n == Min(want, |ArriveAll(old(Contents()), arrivals(0), mask)|)
      ensures dst[..n] == ArriveAll(old(Contents()), arrivals(0), mask)[..n] && dst[n..] == old(dst[n..])
      ensures ws == Gather(arrivals, if n == 0 then 1 else n + 2)
      ensures n <= |ArriveAll(old(Contents()), ws, mask)|
      ensures Contents() == ArriveAll(old(Contents()), ws, mask)[n..]
      ensures ringOverflow == (old(ringOverflow) || Loses(old(Contents()), ws, mask))
    {
      ghost var was := Snapshot(Contents(), ringOverflow);
      n := First(want, arrivals, was);
      ws := Gather(arrivals, 1);
      AfterGathers(was, arrivals, 1, mask);
      if n > 0 {
        CopyOldest(dst, n, arrivals, was);
        ws := Consume(n, arrivals, was);
      }
    }

    /** The interrupts before the tail moves, and the move. */
    method Consume(n: nat, arrivals: nat -> seq<u16>, ghost was: Snapshot) returns (ghost ws: seq<u16>)
      requires Valid() && n <= Count() && Tracks(was, arrivals, n + 1)
      modifies this`head, this`tail, this`hardwareOverrun, this`ringOverflow, buf
      ensures Valid() && ws == Gather(arrivals, n + 2)
      ensures n <= |ArriveAll(was.contents, ws, mask)| && Contents() == ArriveAll(was.contents, ws, mask)[n..]
      ensures ringOverflow == (was.overflow || Loses(was.contents, ws, mask))
    {
      Step(was, arrivals, n + 1);
      AfterGathers(was, arrivals, n + 2, mask);
      ws := Gather(arrivals, n + 2);
      Advance(n);
    }

    /** The interrupts before the snapshot, and the number of bytes to return. */
    method First(want: u16, arrivals: nat -> seq<u16>, ghost was: Snapshot) returns (n: u16)
      requires Valid() && was == Snapshot(Contents(), ringOverflow)
      modifies this`head, this`hardwareOverrun, this`ringOverflow, buf
      ensures Valid() && Tracks(was, arrivals, 1) && n == Min(want, Count())
      ensures Contents() == ArriveAll(was.contents, arrivals(0), mask)
    {
      Step(was, arrivals, 0);
      n := Available();
      if n > want { n := want; }
    }

    /** The two copies of the reader: up to the end of the buffer, then the rest
        from its start. */
    method CopyOldest(dst: array<byte>, n: nat, arrivals: nat -> seq<u16>, ghost was: Snapshot)
      requires Valid() && dst != buf && 0 < n <= dst.Length && n <= Count() && Tracks(was, arrivals, 1)
      modifies this`head, this`hardwareOverrun, this`ringOverflow, buf, dst
      ensures Valid() && old(Contents()) <= Contents() && Tracks(was, arrivals, n + 1)
      ensures dst[..n] == old(Contents())[..n] && dst[n..] == old(dst[n..])
    {
      ghost var seen := Contents();
      var first := buf.Length - tail;
      if first > n { first := n; }
      CopyRun(dst, 0, first, tail, arrivals, was, seen);
      if first < n { CopyRun(dst, first, n, 0, arrivals, was, seen); }
    }

    /** The ring is what it was plus the first i batches of interrupts. */
    ghost predicate Tracks(was: Snapshot, arrivals: nat -> seq<u16>, i: nat)
      requires Valid()
      reads this, buf
    {
      Snapshot(Contents(), ringOverflow) == After(was, arrivals, i, mask)
    }

    /** One memcpy of the reader, byte by byte, with interrupts before each byte. */
    method CopyRun(dst: array<byte>, lo: nat, hi: nat, src: nat, arrivals: nat -> seq<u16>,
                   ghost was: Snapshot, ghost seen: seq<byte>)
      requires Valid() && dst != buf && lo <= hi <= |seen| && hi <= dst.Length
      requires seen <= Contents() && Tracks(was, arrivals, lo + 1)
      requires src == Wrap(tail + lo, Size()) && src + (hi - lo) <= Size()
      requires dst[..lo] == seen[..lo]
      modifies this`head, this`hardwareOverrun, this`ringOverflow, buf, dst
      ensures Valid() && seen <= Contents() && Tracks(was, arrivals, hi + 1)
      ensures dst[..hi] == seen[..hi] && dst[hi..] == old(dst[hi..])
    {
      ghost var d := dst[..];
      for i := lo to hi
        invariant Valid() && seen <= Contents() && Tracks(was, arrivals, i + 1)
        invariant Copied(dst[..], d, seen, i)
        invariant tail == old(tail)
      {
        CopyNext(dst, i, src + (i - lo), arrivals, was, seen, d);
      }
    }

    /** The first i bytes are those seen, the rest as before. */
    ghost predicate Copied(now: seq<byte>, before: seq<byte>, seen: seq<byte>, i: nat) {
      |now| == |before| && i <= |now| && i <= |seen| && now[..i] == seen[..i] && now[i..] == before[i..]
    }

    lemma CopiedMore(now: seq<byte>, before: seq<byte>, seen: seq<byte>, i: nat)
      requires Copied(now, before, seen, i) && i < |now| && i < |seen|
      ensures Copied(now[i := seen[i]], before, seen, i + 1)
    {
      assert now[i := seen[i]][..i + 1] == now[..i] + [seen[i]];
      assert now[i := seen[i]][i + 1..] == now[i..][1..];
    }

    method CopyNext(dst: array<byte>, i: nat, at: nat, arrivals: nat -> seq<u16>, ghost was: Snapshot,
                    ghost seen: seq<byte>, ghost before: seq<byte>)
      requires Valid() && dst != buf && i < |seen| && i < dst.Length && seen <= Contents()
      requires Tracks(was, arrivals, i + 1) && at == Wrap(tail + i, Size()) && Copied(dst[..], before, seen, i)
      modifies this`head, this`hardwareOverrun, this`ringOverflow, buf, dst
      ensures Valid() && seen <= Contents() && Tracks(was, arrivals, i + 2) && Copied(dst[..], before, seen, i + 1)
    {
      CopiedMore(dst[..], before, seen, i);
      CopyByte(dst, i, at, arrivals, was, seen);
    }

    method CopyByte(dst: array<byte>, i: nat, at: nat, arrivals: nat -> seq<u16>, ghost was: Snapshot,
                    ghost seen: seq<byte>)
      requires Valid() && dst != buf && i < |seen| && i < dst.Length && seen <= Contents()
      requires Tracks(was, arrivals, i + 1) && at == Wrap(tail + i, Size())
      modifies this`head, this`hardwareOverrun, this`ringOverflow, buf, dst
      ensures Valid() && seen <= Contents() && Tracks(was, arrivals, i + 2)
      ensures dst[..] == old(dst[..])[i := seen[i]]
    {
      var b := Fetch(i, at, arrivals, was, seen);
      Store(dst, i, b);
    }

    method Store(dst: array<byte>, i: nat, b: byte)
      requires Valid() && dst != buf && i < dst.Length
      modifies dst
      ensures Valid() && Contents() == old(Contents()) && dst[..] == old(dst[..])[i := b]
    {
      dst[i] := b;
    }

    /** Interrupts, then the i-th byte as it was at the snapshot. */
    method Fetch(i: nat, at: nat, arrivals: nat -> seq<u16>, ghost was: Snapshot, ghost seen: seq<byte>)
      returns (b: byte)
      requires Valid() && i < |seen| && seen <= Contents() && Tracks(was, arrivals, i + 1)
      requires at == Wrap(tail + i, Size())
      modifies this`head, this`hardwareOverrun, this`ringOverflow, buf
      ensures Valid() && seen <= Contents() && Tracks(was, arrivals, i + 2) && b == seen[i]
    {
      Step(was, arrivals, i + 1);
      StoredAt(i);
      b := buf[at];
    }

    /** The tail moves past the n oldest bytes. */
    method Advance(n: nat)
      requires Valid() && n <= Count()
      modifies this`tail
      ensures Valid() && Contents() == old(Contents())[n..]
    {
      ghost var q, t := Contents(), tail;
      tail := Index(tail + n);
      if t <= head {
        assert buf[t..head][n..] == buf[t + n..head];
      } else if t + n < Size() {
        assert (buf[t..] + buf[..head])[n..] == buf[t + n..] + buf[..head];
      } else {
        assert (buf[t..] + buf[..head])[n..] == buf[..head][t + n - Size()..];
      }
    }

    /** The i-th batch of interrupts during a read. */
    method Step(ghost was: Snapshot, arrivals: nat -> seq<u16>, i: nat)
      requires Valid() && Tracks(was, arrivals, i)
      modifies this`head, this`hardwareOverrun, this`ringOverflow, buf
      ensures Valid() && Tracks(was, arrivals, i + 1) && old(Contents()) <= Contents()
    {
      ArriveExtends(Contents(), arrivals(i), mask);
      Interrupts(arrivals(i));
    }
  }
}
