/** The diagnostic record left in the response buffer of a failed exchange
    (amiga/include/fujinet_nio_session_diag.h). */
module SessionDiag {
  import opened Bytes
  import opened Wrappers

  const MAGIC: byte := 0xA5
  const VERSION: byte := 1
  const HEADER := 16

  /** fn_nio_session_diag_t with the copies themselves in place of pointers. */
  datatype Diag = Diag(rawLen: u16, decodedLen: u16, pktLen: u16, c0Count: byte, lastByte: byte, first3: seq<byte>,
                       raw: seq<byte>, leftover: seq<byte>)

  /** A length is stored in 16 bits, saturating. */
  function Capped(n: nat): u16 { Min(n, 0xFFFF) }

  function CountC0(s: seq<byte>): nat {
    if s == [] then 0 else CountC0(s[..|s| - 1]) + if s[|s| - 1] == 0xC0 then 1 else 0
  }

  /** The first three bytes, missing ones as zero. */
  function First3(s: seq<byte>): (r: seq<byte>)
    ensures |r| == 3
  {
    [if |s| >= 1 then s[0] else 0, if |s| >= 2 then s[1] else 0, if |s| >= 3 then s[2] else 0]
  }

  /** What a record of `cap` bytes can tell about a session: saturated lengths, the
      saturated number of frame delimiters, and as much of the raw bytes, then of
      the leftover, as there is room for. */
  function Summary(cap: nat, raw: seq<byte>, decoded: nat, pkt: nat, leftover: seq<byte>): Diag
    requires cap >= HEADER
  {
    var kept := raw[..Capped(|raw|)];
    var rawCopy := Min(|kept|, cap - HEADER);
    var leftCopy := Min(Min(|leftover|, 255), cap - HEADER - rawCopy);
    Diag(|kept|, Capped(decoded), Capped(pkt), Min(CountC0(kept), 255), if kept == [] then 0 else kept[|kept| - 1],
         First3(kept), kept[..rawCopy], leftover[..leftCopy])
  }

  /** The summary loses nothing it has room for: lengths and the delimiter count are those
      of the session unless saturated, the copies are prefixes, and a prefix is cut short
      only where 16 bits or the record end, or after 255 bytes of leftover. */
  lemma SummaryIsMaximal(cap: nat, raw: seq<byte>, decoded: nat, pkt: nat, leftover: seq<byte>)
    requires cap >= HEADER
    ensures var d := Summary(cap, raw, decoded, pkt, leftover);
      var room := cap - HEADER - |d.raw| - |d.leftover|;
      && (|raw| <= 0xFFFF ==> d.rawLen == |raw| && d.c0Count == Min(multiset(raw)[0xC0], 255))
      && (raw != [] && |raw| <= 0xFFFF ==> d.lastByte == raw[|raw| - 1])
      && (decoded <= 0xFFFF ==> d.decodedLen == decoded) && (pkt <= 0xFFFF ==> d.pktLen == pkt)
      && (|raw| >= 3 ==> d.first3 == raw[..3])
      && room >= 0 && d.raw <= raw && d.leftover <= leftover
      && (d.raw == raw || |d.raw| == 0xFFFF || room == 0)
      && (d.leftover == leftover || |d.leftover| == 255 || room == 0)
  {
    var kept := raw[..Capped(|raw|)];
    CountIsMultiplicity(kept);
    assert |raw| <= 0xFFFF ==> kept == raw;
  }

  lemma {:induction false} CountIsMultiplicity(s: seq<byte>)
    ensures CountC0(s) == multiset(s)[0xC0]
  {
    if s != [] {
      CountIsMultiplicity(s[..|s| - 1]);
      assert s == s[..|s| - 1] + [s[|s| - 1]];
    }
  }

  predicate Storable(d: Diag) { |d.first3| == 3 && |d.raw| <= 0xFFFF && |d.leftover| <= 0xFF }

  /** The fixed part of a record. */
  function Head(d: Diag): (h: seq<byte>)
    requires Storable(d)
    ensures |h| == HEADER
  {
    [MAGIC, VERSION, d.rawLen % 0x100, d.rawLen / 0x100, d.decodedLen % 0x100, d.decodedLen / 0x100,
     d.pktLen % 0x100, d.pktLen / 0x100, d.c0Count, d.lastByte, d.first3[0], d.first3[1], d.first3[2],
     |d.leftover|, |d.raw| % 0x100, |d.raw| / 0x100]
  }

  /** The byte layout of a record. */
  function Layout(d: Diag): seq<byte>
    requires Storable(d)
  {
    Head(d) + d.raw + d.leftover
  }

  /** fn_nio_session_diag_parse. */
  function Parse(buf: seq<byte>): Option<Diag> {
    if |buf| < HEADER || buf[0] != MAGIC || buf[1] != VERSION then None
    else
      var rawCopy, left := Le16(buf[14], buf[15]), buf[13];
      if HEADER + rawCopy + left > |buf| then None
      else Some(Diag(Le16(buf[2], buf[3]), Le16(buf[4], buf[5]), Le16(buf[6], buf[7]), buf[8], buf[9], buf[10..13],
                     buf[HEADER..HEADER + rawCopy], buf[HEADER + rawCopy..HEADER + rawCopy + left]))
  }

  /** Round trip: a stored record parses back, whatever follows it in the buffer. */
  lemma ParseLayout(d: Diag, rest: seq<byte>)
    requires Storable(d)
    ensures Parse(Layout(d) + rest) == Some(d)
  {
    var b, h := Layout(d) + rest, Head(d);
    Sections(h, d.raw, d.leftover, rest);
    HeadFields(d);
    assert forall i :: 0 <= i < HEADER ==> b[i] == b[..HEADER][i] == h[i];
    assert b[10..13] == h[10..13];
  }

  /** The fixed part reads back field by field. */
  lemma HeadFields(d: Diag)
    requires Storable(d)
    ensures var h := Head(d);
      && Le16(h[2], h[3]) == d.rawLen && Le16(h[4], h[5]) == d.decodedLen && Le16(h[6], h[7]) == d.pktLen
      && h[10..13] == d.first3 && h[13] == |d.leftover| && Le16(h[14], h[15]) == |d.raw|
  {
  }

  lemma Sections(a: seq<byte>, b: seq<byte>, c: seq<byte>, rest: seq<byte>)
    ensures var s := a + b + c + rest;
      s[..|a|] == a && s[|a|..|a| + |b|] == b && s[|a| + |b|..|a| + |b| + |c|] == c
  {
  }

  /** The counting loop, saturating at 255. */
  method CountDelimiters(raw: seq<byte>) returns (c0: byte)
    ensures c0 == Min(CountC0(raw), 255)
  {
    c0 := 0;
    for i := 0 to |raw|
      invariant c0 == Min(CountC0(raw[..i]), 255)
    {
      assert raw[..i + 1][..i] == raw[..i];
      if raw[i] == 0xC0 && c0 < 255 { c0 := c0 + 1; }
    }
    assert raw[..|raw|] == raw;
  }

  /** The lengths and counts that fill computes before writing anything. */
  method Measure(cap: nat, raw: seq<byte>, decoded: nat, pkt: nat, leftover: seq<byte>) returns (d: Diag)
    requires cap >= HEADER
    ensures d == Summary(cap, raw, decoded, pkt, leftover) && Storable(d)
    ensures HEADER + |d.raw| + |d.leftover| <= cap
  {
    var kept := raw[..Capped(|raw|)];
    var room := cap - HEADER;
    var rawCopy := |kept|;
    if rawCopy > room { rawCopy := room; }
    var leftCopy := |leftover|;
    if leftCopy > 255 { leftCopy := 255; }
    if leftCopy > room - rawCopy { leftCopy := room - rawCopy; }
    var c0 := CountDelimiters(kept);
    var last := if kept == [] then 0 else kept[|kept| - 1];
    d := Diag(|kept|, Capped(decoded), Capped(pkt), c0, last, First3(kept), kept[..rawCopy], leftover[..leftCopy]);
  }

  method Copy(out: array<byte>, record: seq<byte>)
    requires |record| <= out.Length
    modifies out
    ensures out[..|record|] == record && out[|record|..] == old(out[|record|..])
  {
    for i := 0 to |record|
      invariant out[..i] == record[..i] && out[i..] == old(out[i..])
    {
      out[i] := record[i];
    }
  }

  /** fn_nio_session_diag_fill: writes the record of the summary and nothing
      beyond it; parsing the buffer, or just the bytes written, gives the summary
      back. */
  method Fill(out: array<byte>, raw: seq<byte>, decoded: nat, pkt: nat, leftover: seq<byte>) returns (n: nat)
    modifies out
    ensures out.Length < HEADER ==> n == 0 && out[..] == old(out[..])
    ensures out.Length >= HEADER ==>
      var d := Summary(out.Length, raw, decoded, pkt, leftover);
      && n == HEADER + |d.raw| + |d.leftover| <= out.Length
      && out[n..] == old(out[n..])
      && Parse(out[..]) == Parse(out[..n]) == Some(d)
  {
    if out.Length < HEADER { return 0; }
    var d := Measure(out.Length, raw, decoded, pkt, leftover);
    var record := Layout(d);
    n := |record|;
    Copy(out, record);
    assert out[..] == record + out[n..];
    ParseLayout(d, out[n..]);
    assert out[..n] == record + [];
    ParseLayout(d, []);
  }
}
