/** The Amiga guard and the MS-DOS client agree on what a packet is, although one skips
    the checksum byte and the other zeroes it. */
module Interop {
  import opened Bytes
  import Checksum
  import DiskRetry
  import NioTransaction
  import PacketGuard

  /** The guard accepts exactly the client's intact frames whose descriptor chain fits. */
  lemma WellFormedIff(p: seq<byte>)
    ensures PacketGuard.WellFormed(p) <==> NioTransaction.Intact(p) && PacketGuard.ChainFits(p)
  {
    if |p| >= 6 { DiskRetry.SkippedIsZeroed(p); }
  }

  /** No single corrupted byte gets past the guard, except a swap of 0x00 and 0xFF outside
      length field and checksum. */
  lemma GuardNoticesCorruption(p: seq<byte>, i: nat, v: byte)
    requires PacketGuard.WellFormed(p) && i < |p| && v != p[i] && PacketGuard.WellFormed(p[i := v])
    ensures i !in {2, 3, 4} && ((p[i] == 0x00 && v == 0xFF) || (p[i] == 0xFF && v == 0x00))
  {
    WellFormedIff(p);
    WellFormedIff(p[i := v]);
    NioTransaction.CorruptionNoticed(p, i, v);
  }

  /** Bytes that one descriptor announces: up to four single bytes, one or two words, one
      long word. */
  function Announced(d: byte): nat {
    match d % 8
    case 5 => 1 * 2
    case 6 => 2 * 2
    case 7 => 1 * 4
    case n => n * 1
  }

  function AnnouncedByAll(ds: seq<byte>): nat {
    if ds == [] then 0 else AnnouncedByAll(ds[..|ds| - 1]) + Announced(ds[|ds| - 1])
  }

  /** Bit 7 of a descriptor announces another one behind the header. */
  ghost predicate IsChain(ds: seq<byte>) {
    ds != [] && ds[|ds| - 1] < 0x80 && forall i :: 0 <= i < |ds| - 1 ==> ds[i] >= 0x80
  }

  /** A sealed frame with a chain of descriptors passes the guard exactly if the bytes
      after them are at least those they announce. */
  lemma DescribedDataFits(device: byte, command: byte, ds: seq<byte>, data: seq<byte>)
    requires IsChain(ds) && |ds| - 1 + |data| <= 0xFFFF - 6
    ensures PacketGuard.WellFormed(NioTransaction.Seal(device, command, ds[0], ds[1..] + data))
      <==> AnnouncedByAll(ds) <= |data|
  {
    var n := |ds| - 1;
    var f := DescriptorsInPlace(device, command, ds, data);
    WellFormedIff(f);
    ChainOf(f, ds);
    PacketGuard.EndsHere(f, n);
    WidthIsAnnounced(f, ds, n);
    assert ds[..|ds|] == ds;
  }

  lemma ChainOf(f: seq<byte>, ds: seq<byte>)
    requires IsChain(ds) && |f| >= 5 + |ds| && forall j :: 0 <= j < |ds| ==> f[5 + j] == ds[j]
    ensures PacketGuard.ChainEnds(f, |ds| - 1)
  {
    forall i | 5 <= i < 5 + |ds| - 1 ensures PacketGuard.Continues(f[i]) { assert f[5 + (i - 5)] == ds[i - 5]; }
  }

  lemma DescriptorsInPlace(device: byte, command: byte, ds: seq<byte>, data: seq<byte>) returns (f: seq<byte>)
    requires ds != [] && |ds| - 1 + |data| <= 0xFFFF - 6
    ensures f == NioTransaction.Seal(device, command, ds[0], ds[1..] + data)
    ensures NioTransaction.Intact(f) && |f| == 5 + |ds| + |data|
    ensures forall j :: 0 <= j < |ds| ==> f[5 + j] == ds[j]
  {
    var body := ds[1..] + data;
    f := NioTransaction.Seal(device, command, ds[0], body);
    NioTransaction.SealedIsIntact(device, command, ds[0], body);
    forall j | 0 <= j < |ds| ensures f[5 + j] == ds[j] {
      if j > 0 { assert f[5 + j] == f[6..][j - 1] == body[j - 1]; }
    }
  }

  lemma {:induction false} WidthIsAnnounced(f: seq<byte>, ds: seq<byte>, k: nat)
    requires k < |ds| && 5 + k < |f| && forall j :: 0 <= j <= k ==> f[5 + j] == ds[j]
    ensures PacketGuard.Width(f, k) == AnnouncedByAll(ds[..k + 1])
  {
    assert ds[..k + 1][..k] == ds[..k];
    if k > 0 { WidthIsAnnounced(f, ds, k - 1); }
  }

  /** So every request of the client passes, and every response with a status byte. */
  lemma ClientPassesGuard(device: byte, command: byte, payload: seq<byte>, status: byte, data: seq<byte>)
    requires |payload| <= 0xFFFF - 6 && |data| <= 0xFFFF - 7
    ensures PacketGuard.WellFormed(NioTransaction.Seal(device, command, NioTransaction.FIELD_NONE, payload))
    ensures PacketGuard.WellFormed(NioTransaction.Seal(device, command, NioTransaction.FIELD_A1, [status] + data))
  {
    DescribedDataFits(device, command, [NioTransaction.FIELD_NONE], payload);
    DescribedDataFits(device, command, [NioTransaction.FIELD_A1], [status] + data);
    assert [] + payload == payload && [] + ([status] + data) == [status] + data;
    assert [NioTransaction.FIELD_NONE][..0] == [] && [NioTransaction.FIELD_A1][..0] == [];
  }
}
