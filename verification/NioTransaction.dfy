/** FujiBus frames and the retrying transaction of the MS-DOS client
    (msdos/src/nio/nio_protocol.c, msdos/src/nio/nio_transaction.c). */
module NioTransaction {
  import opened Bytes
  import Checksum

  const FRAME_HEADER_SIZE := 6
  const FIELD_NONE: byte := 0
  const FIELD_A1: byte := 1
  const STATUS_INTERNAL_ERROR: byte := 7

  datatype Error = ShortFrame | LengthMismatch | BadChecksum | DeviceCommand | Fields | EmptyStatus
                 | ReplyTooLarge | Payload | Timeout | BufferFull | Uart | NoError

  datatype Parse = Reply(status: byte, data: seq<byte>) | Bad(error: Error)

  // ----------------------------------------------------------------- frames

  function Header(device: byte, command: byte, length: u16, checksum: byte, fields: byte): seq<byte> {
    [device, command, length % 0x100, length / 0x100, checksum, fields]
  }

  /** Length field and checksum are right. The checksum is stated as the residue
      of the sum of all other bytes. */
  ghost predicate Intact(f: seq<byte>) {
    && |f| >= FRAME_HEADER_SIZE
    && Le16(f[2], f[3]) == |f|
    && f[4] == Checksum.Residue(Checksum.Sum(f[4 := 0]))
  }

  /** What a response frame means to a caller waiting for (device, command) with
      room for `capacity` bytes. */
  ghost function Meaning(f: seq<byte>, device: byte, command: byte, capacity: nat): Parse {
    if |f| < FRAME_HEADER_SIZE then Bad(ShortFrame)
    else if Le16(f[2], f[3]) != |f| then Bad(LengthMismatch)
    else if !Intact(f) then Bad(BadChecksum)
    else if f[0] != device || f[1] != command then Bad(DeviceCommand)
    else if f[5] >= 0x80 || f[5] % 8 != FIELD_A1 then Bad(Fields)
    else if |f| == FRAME_HEADER_SIZE then Bad(EmptyStatus)
    else if |f| - 7 > capacity then Bad(ReplyTooLarge)
    else Reply(f[6], f[7..])
  }

  /** An intact frame of this device and command that carries one status byte and no more
      data than there is room for. */
  ghost predicate IsReplyTo(f: seq<byte>, device: byte, command: byte, capacity: nat) {
    && Intact(f) && f[0] == device && f[1] == command
    && f[5] < 0x80 && f[5] % 8 == 1
    && 7 <= |f| && |f| - 7 <= capacity
  }

  /** An intact frame of another device or command, as a late response is. */
  ghost predicate IsStale(f: seq<byte>, device: byte, command: byte) {
    Intact(f) && (f[0] != device || f[1] != command)
  }

  /** Every meaning, by what the bytes of the frame are. */
  lemma MeaningIff(f: seq<byte>, device: byte, command: byte, capacity: nat)
    ensures var m := Meaning(f, device, command, capacity);
      && (m.Reply? <==> IsReplyTo(f, device, command, capacity))
      && (m.Reply? ==> m.status == f[6] && m.data == f[7..])
      && (m == Bad(DeviceCommand) <==> IsStale(f, device, command))
      && (m == Bad(ShortFrame) <==> |f| < 6)
      && (m == Bad(LengthMismatch) <==> |f| >= 6 && Le16(f[2], f[3]) != |f|)
      && (m == Bad(BadChecksum) <==> |f| >= 6 && Le16(f[2], f[3]) == |f| && !Intact(f))
      && (m.Bad? ==> m.error in {ShortFrame, LengthMismatch, BadChecksum, DeviceCommand, Fields, EmptyStatus,
                                 ReplyTooLarge})
      && (m == Bad(ReplyTooLarge) ==> exists room: nat :: room > capacity && IsReplyTo(f, device, command, room))
  {
    if Meaning(f, device, command, capacity) == Bad(ReplyTooLarge) {
      assert IsReplyTo(f, device, command, |f| - 7);
    }
  }

  /** Header (with a zeroed checksum) and payload are checksummed in turn, the
      second seeded with the first. */
  method FrameChecksum(f: seq<byte>) returns (sum: byte)
    requires FRAME_HEADER_SIZE <= |f| < 0x1_0000
    ensures sum == Checksum.Residue(Checksum.Sum(f[4 := 0]))
  {
    assert f[..6][4 := 0] + f[6..] == f[4 := 0];
    sum := ChecksumInTwo(f[..6][4 := 0], f[6..]);
  }

  /** nio_protocol_validate_response. */
  method Validate(f: seq<byte>, device: byte, command: byte, capacity: nat) returns (r: Parse)
    requires |f| < 0x1_0000
    ensures r == Meaning(f, device, command, capacity)
    ensures r.Reply? <==> IsReplyTo(f, device, command, capacity)
    ensures r.Reply? ==> r.status == f[6] && r.data == f[7..]
    ensures r == Bad(DeviceCommand) <==> IsStale(f, device, command)
  {
    MeaningIff(f, device, command, capacity);
    if |f| < FRAME_HEADER_SIZE { return Bad(ShortFrame); }
    if Le16(f[2], f[3]) != |f| { return Bad(LengthMismatch); }
    var sum := FrameChecksum(f);
    if sum != f[4] { return Bad(BadChecksum); }
    if f[0] != device || f[1] != command { return Bad(DeviceCommand); }
    if f[5] >= 0x80 || f[5] % 8 != FIELD_A1 { return Bad(Fields); }
    if |f| == FRAME_HEADER_SIZE { return Bad(EmptyStatus); }
    if |f| - 7 > capacity { return Bad(ReplyTooLarge); }
    r := Reply(f[6], f[7..]);
  }

  /** A frame with its checksum filled in. */
  function Seal(device: byte, command: byte, fields: byte, body: seq<byte>): seq<byte>
    requires |body| <= 0xFFFF - FRAME_HEADER_SIZE
  {
    var f := Header(device, command, FRAME_HEADER_SIZE + |body|, 0, fields) + body;
    f[4 := Checksum.Residue(Checksum.Sum(f))]
  }

  /** Every sealed frame is intact. */
  lemma SealedIsIntact(device: byte, command: byte, fields: byte, body: seq<byte>)
    requires |body| <= 0xFFFF - FRAME_HEADER_SIZE
    ensures Intact(Seal(device, command, fields, body))
    ensures Seal(device, command, fields, body)[..4]
      == Header(device, command, FRAME_HEADER_SIZE + |body|, 0, fields)[..4]
    ensures Seal(device, command, fields, body)[5] == fields && Seal(device, command, fields, body)[6..] == body
  {
    var f := Header(device, command, FRAME_HEADER_SIZE + |body|, 0, fields) + body;
    assert Seal(device, command, fields, body)[4 := 0] == f;
  }

  /** The intact frames are the sealed ones: each is the seal of its own parts. */
  lemma IntactIffSealed(f: seq<byte>)
    requires FRAME_HEADER_SIZE <= |f| < 0x1_0000
    ensures Intact(f) <==> f == Seal(f[0], f[1], f[5], f[6..])
  {
    var sealed := Seal(f[0], f[1], f[5], f[6..]);
    SealedIsIntact(f[0], f[1], f[5], f[6..]);
    if Intact(f) {
      assert f[2] == |f| % 0x100 && f[3] == |f| / 0x100;
      assert f[4 := 0] == Header(f[0], f[1], |f|, 0, f[5]) + f[6..];
      assert f == f[4 := 0][4 := f[4]];
    }
  }

  /** Round trip: a service's response comes back as its status and data exactly
      when the data fits the caller's buffer. */
  lemma ResponseRoundTrip(device: byte, command: byte, status: byte, data: seq<byte>, capacity: nat)
    requires |data| <= 0xFFFF - FRAME_HEADER_SIZE - 1
    ensures Meaning(Seal(device, command, FIELD_A1, [status] + data), device, command, capacity)
      == if |data| <= capacity then Reply(status, data) else Bad(ReplyTooLarge)
  {
    var body := [status] + data;
    SealedIsIntact(device, command, FIELD_A1, body);
    var f := Seal(device, command, FIELD_A1, body);
    assert f[0] == f[..4][0] && f[1] == f[..4][1] && f[6..][0] == f[6];
    assert f[7..] == f[6..][1..] == data;
  }

  /** Exactly which single corrupted byte goes unnoticed: a swap of 0x00 and 0xFF
      anywhere but in the length field and the checksum. */
  lemma CorruptionNoticed(f: seq<byte>, i: nat, v: byte)
    requires Intact(f) && i < |f| && v != f[i]
    ensures Intact(f[i := v])
      <==> i !in {2, 3, 4} && ((f[i] == 0x00 && v == 0xFF) || (f[i] == 0xFF && v == 0x00))
  {
    var g, z := f[i := v], f[4 := 0];
    if i == 4 {
      assert g[4 := 0] == z;
    } else if i != 2 && i != 3 {
      assert g[4 := 0] == z[i := v];
      Checksum.FoldIsResidue(z, 0);
      Checksum.FoldIsResidue(z[i := v], 0);
      Checksum.SingleByteChange(z, i, v, 0);
      LengthCounts(z, i);
    }
  }

  /** The length field is never zero, so the other bytes never all sum to zero. */
  lemma LengthCounts(z: seq<byte>, i: nat)
    requires |z| >= FRAME_HEADER_SIZE && Le16(z[2], z[3]) == |z| && i < |z| && i != 2 && i != 3
    ensures Checksum.Sum(z[..i] + z[i + 1..]) > 0
  {
    var rest := z[..i] + z[i + 1..];
    var at := if z[2] > 0 then 2 else 3;
    assert z[at] > 0;
    var k := if at < i then at else at - 1;
    assert rest[k] == z[at];
    Checksum.SumWithout(rest, k);
  }

  // -------------------------------------------------------------- stale loop

  /** The byte-sized stale counter after k stale responses. */
  function StaleCount(k: nat): byte { k % 0x100 }

  /** The stale loop `if (++stale_count <= max) read again` can be left by stale
      responses alone exactly if max < 255: then after max + 1 of them. */
  lemma StaleLoopEndsIff(max: byte)
    ensures (exists k: nat :: k > 0 && StaleCount(k) > max) <==> max < 0xFF
    ensures max < 0xFF ==> StaleCount(max + 1) > max && forall k: nat :: 0 < k <= max ==> StaleCount(k) <= max
  {
    if max < 0xFF { assert StaleCount(max + 1) == max + 1; }
  }

  // ------------------------------------------------------------- transaction

  /** Why the SLIP reader stopped (last_slip_reason). */
  datatype Reason = NoReason | TimedOut | Full | LineStatus

  /** What one getbuf_slip_dual call delivers, and the port's state after it. */
  datatype Reception = Reception(frame: seq<byte>, lineError: bool, reason: Reason)

  /** nio_port_error. */
  function PortError(rec: Reception, fallback: Error): Error {
    if rec.lineError then Uart
    else match rec.reason
      case TimedOut => Timeout
      case Full => BufferFull
      case LineStatus => Uart
      case NoReason => fallback
  }

  predicate ShouldRetry(e: Error) { e in {Uart, Timeout, ShortFrame, LengthMismatch, BadChecksum} }

  /** The frame on the wire: the prepared header, then the payload if there is one. */
  ghost function Frame(tx: seq<byte>, payload: array?<byte>, n: nat): seq<byte>
    requires payload != null ==> n <= payload.Length
    reads payload
  {
    if payload == null then tx else tx + payload[..n]
  }

  /** n-th frame received by a call, from wherever it started counting. */
  ghost predicate Bounded(script: nat -> Reception, rx: array<byte>) {
    forall i :: |script(i).frame| <= FRAME_HEADER_SIZE + rx.Length && |script(i).frame| < 0x1_0000
  }

  /** The serial link, with everything sent and the number of receives. */
  class Link {
    var sent: seq<seq<byte>>
    var receives: nat

    constructor ()
      ensures sent == [] && receives == 0
    {
      sent, receives := [], 0;
    }
  }

  /** getbuf_slip_dual: everything after the header lands in the receive buffer. */
  method Receive(rec: Reception, rx: array<byte>)
    requires |rec.frame| <= FRAME_HEADER_SIZE + rx.Length
    modifies rx
    ensures |rec.frame| >= FRAME_HEADER_SIZE ==> rx[..|rec.frame| - 6] == rec.frame[6..]
  {
    var n := if |rec.frame| > FRAME_HEADER_SIZE then |rec.frame| - FRAME_HEADER_SIZE else 0;
    for i := 0 to n
      invariant rx[..i] == if n == 0 then [] else rec.frame[6..6 + i]
    {
      rx[i] := rec.frame[6 + i];
    }
  }

  /** memmove(reply, rx + 1, n): right even when reply is the receive buffer. */
  method MoveDown(reply: array<byte>, rx: array<byte>, n: nat)
    requires n <= reply.Length && n + 1 <= rx.Length
    modifies reply
    ensures reply[..n] == old(rx[1..n + 1])
  {
    for i := 0 to n
      invariant reply[..i] == old(rx[1..i + 1])
      invariant forall j :: i + 1 <= j <= n ==> rx[j] == old(rx[j])
    {
      reply[i] := rx[i + 1];
    }
  }

  /** What a waiting caller makes of the i-th reception. */
  ghost function Heard(script: nat -> Reception, i: nat, device: byte, command: byte, capacity: nat): Parse {
    Meaning(script(i).frame, device, command, capacity)
  }

  /** The error a failing attempt reports after its last reception. */
  ghost function Failure(script: nat -> Reception, i: nat, device: byte, command: byte, capacity: nat): Error {
    var heard := Heard(script, i, device, command, capacity);
    if heard.Reply? then NoError
    else if heard.error == DeviceCommand then DeviceCommand
    else PortError(script(i), heard.error)
  }

  /** A reception that neither answers the caller nor is stale, and after which it is
      worth sending again: the line or the wait failed, or the frame is damaged and the
      port has nothing to say. */
  ghost predicate Broken(rec: Reception, device: byte, command: byte, capacity: nat) {
    && !IsReplyTo(rec.frame, device, command, capacity) && !IsStale(rec.frame, device, command)
    && (rec.lineError || rec.reason in {TimedOut, LineStatus} || (rec.reason == NoReason && !Intact(rec.frame)))
  }

  /** Exactly the broken receptions are retried, and the error names what is broken. */
  lemma FailureIff(script: nat -> Reception, i: nat, device: byte, command: byte, capacity: nat)
    ensures var rec, error := script(i), Failure(script, i, device, command, capacity);
      && (ShouldRetry(error) <==> Broken(rec, device, command, capacity))
      && (error == DeviceCommand <==> IsStale(rec.frame, device, command))
      && (Broken(rec, device, command, capacity) ==>
            error == if rec.lineError || rec.reason == LineStatus then Uart
                     else if rec.reason == TimedOut then Timeout
                     else if |rec.frame| < 6 then ShortFrame
                     else if Le16(rec.frame[2], rec.frame[3]) != |rec.frame| then LengthMismatch else BadChecksum)
  {
    MeaningIff(script(i).frame, device, command, capacity);
  }

  /** nio_transaction_once: one frame out, then receptions until one is not a
      stale response, at most max + 1 of them. */
  method Once(link: Link, script: nat -> Reception, tx: seq<byte>, payload: array?<byte>, n: nat,
              reply: array?<byte>, capacity: nat, rx: array<byte>, device: byte, command: byte, maxStale: byte)
    returns (ok: bool, error: Error, status: byte, length: nat)
    requires maxStale < 0xFF && Bounded(script, rx)
    requires payload != null ==> n <= payload.Length && payload != rx
    requires reply != null ==> capacity <= reply.Length
    modifies link, rx, reply
    ensures link.sent == old(link.sent) + [old(Frame(tx, payload, n))]
    ensures old(link.receives) < link.receives <= old(link.receives) + maxStale + 1
    // Only stale frames are skipped, and only as many as are allowed.
    ensures forall i :: old(link.receives) <= i < link.receives - 1 ==> IsStale(script(i).frame, device, command)
    ensures IsStale(script(link.receives - 1).frame, device, command) ==>
      link.receives == old(link.receives) + maxStale + 1
    ensures ok <==> IsReplyTo(script(link.receives - 1).frame, device, command, capacity)
    ensures ok ==> var f := script(link.receives - 1).frame;
      && status == f[6] && length == |f| - 7 <= capacity
      && (reply != null ==> reply[..length] == f[7..])
    ensures !ok ==> status == STATUS_INTERNAL_ERROR && length == 0
    ensures !ok ==> error == Failure(script, link.receives - 1, device, command, capacity)
    ensures !ok ==> Frame(tx, payload, n) == old(Frame(tx, payload, n))
  {
    ok, error, status, length := false, NoError, STATUS_INTERNAL_ERROR, 0;
    link.sent := link.sent + [if payload == null then tx else tx + payload[..n]];
    var stale: byte := 0;
    while true
      invariant link.sent == old(link.sent) + [old(Frame(tx, payload, n))]
      invariant stale <= maxStale && link.receives == old(link.receives) + stale
      invariant forall i :: old(link.receives) <= i < link.receives ==> IsStale(script(i).frame, device, command)
      invariant Frame(tx, payload, n) == old(Frame(tx, payload, n))
      decreases maxStale - stale
    {
      var rec := script(link.receives);
      Receive(rec, rx);
      link.receives := link.receives + 1;
      var parse := Validate(rec.frame, device, command, capacity);
      if parse == Bad(DeviceCommand) {
        stale := stale + 1;
        if stale <= maxStale { continue; }
        error := DeviceCommand;
        return;
      }
      if parse.Bad? {
        error := PortError(rec, parse.error);
        return;
      }
      status, length, ok := parse.status, |parse.data|, true;
      if reply != null && length > 0 {
        assert rx[..length + 1] == rec.frame[6..];
        assert rx[1..length + 1] == rec.frame[6..][1..] == parse.data;
        MoveDown(reply, rx, length);
      }
      return;
    }
  }

  /** Two checksum calls, the second seeded with the first. */
  method ChecksumInTwo(a: seq<byte>, b: seq<byte>) returns (sum: byte)
    ensures sum == Checksum.Residue(Checksum.Sum(a + b))
  {
    Checksum.FoldConcat(a, b, 0);
    Checksum.FoldIsResidue(a + b, 0);
    var seed := Checksum.Compute(a, 0);
    var chk := Checksum.Compute(b, seed);
    sum := chk;
  }

  lemma SealedBySteps(device: byte, command: byte, header: seq<byte>, body: seq<byte>, sum: byte)
    requires |body| <= 0xFFFF - FRAME_HEADER_SIZE && sum == Checksum.Residue(Checksum.Sum(header + body))
    requires header == Header(device, command, FRAME_HEADER_SIZE + |body|, 0, FIELD_NONE)
    ensures header[4 := sum] + body == Seal(device, command, FIELD_NONE, body)
  {
    assert header[4 := sum] + body == (header + body)[4 := sum];
  }

  /** The prepared transmit header, checksummed over header and payload. */
  method Prepare(device: byte, command: byte, payload: array?<byte>, n: u16) returns (tx: seq<byte>)
    requires payload != null ==> n <= payload.Length
    ensures |tx| == FRAME_HEADER_SIZE
    ensures payload != null && n <= 0xFFFF - FRAME_HEADER_SIZE ==>
      Frame(tx, payload, n) == Seal(device, command, FIELD_NONE, payload[..n])
    ensures payload == null && n == 0 ==> tx == Seal(device, command, FIELD_NONE, [])
  {
    var header := Header(device, command, (FRAME_HEADER_SIZE + n) % 0x1_0000, 0, FIELD_NONE);
    var body := if payload == null then [] else payload[..n];
    var sum := ChecksumInTwo(header, body);
    tx := header[4 := sum];
    if |body| == n <= 0xFFFF - FRAME_HEADER_SIZE {
      SealedBySteps(device, command, header, body, sum);
    }
  }

  /** `sent` is `before` and then n times the same frame. */
  ghost predicate Repeats(before: seq<seq<byte>>, sent: seq<seq<byte>>, frame: seq<byte>, n: nat) {
    |sent| == |before| + n && before <= sent && forall i :: |before| <= i < |sent| ==> sent[i] == frame
  }

  lemma OneMoreFrame(before: seq<seq<byte>>, sent: seq<seq<byte>>, frame: seq<byte>, n: nat)
    requires Repeats(before, sent, frame, n)
    ensures Repeats(before, sent + [frame], frame, n + 1)
  {
  }

  /** The last of `count` receptions left an attempt with a broken one. */
  ghost predicate GaveUp(script: nat -> Reception, count: nat, device: byte, command: byte, capacity: nat) {
    count > 0 && Broken(script(count - 1), device, command, capacity)
  }

  /** The first n attempts did. */
  ghost predicate AllGaveUp(script: nat -> Reception, ends: seq<nat>, n: nat, device: byte, command: byte,
                            capacity: nat)
    requires n <= |ends|
  {
    forall a :: 0 <= a < n ==> GaveUp(script, ends[a], device, command, capacity)
  }

  /** Of the receptions from i to j only the last is not stale, or there are as many as
      are allowed. */
  ghost predicate Skipped(script: nat -> Reception, i: nat, j: nat, device: byte, command: byte, maxStale: byte) {
    && i < j <= i + maxStale + 1
    && (forall k :: i <= k < j - 1 ==> IsStale(script(k).frame, device, command))
    && (IsStale(script(j - 1).frame, device, command) ==> j == i + maxStale + 1)
  }

  /** Status and data of a reply have been handed over. */
  ghost predicate Copied(f: seq<byte>, status: byte, length: nat, reply: array?<byte>)
    reads reply
  {
    && 7 <= |f| && status == f[6] && length == |f| - 7
    && (reply != null ==> length <= reply.Length && reply[..length] == f[7..])
  }

  /** What an attempt reports is settled by its last reception. */
  ghost predicate Concludes(script: nat -> Reception, receives: nat, device: byte, command: byte, capacity: nat,
                            ok: bool, error: Error, status: byte, length: nat, reply: array?<byte>)
    reads reply
  {
    && receives > 0 && (ok <==> IsReplyTo(script(receives - 1).frame, device, command, capacity))
    && if ok then Copied(script(receives - 1).frame, status, length, reply)
       else status == STATUS_INTERNAL_ERROR && length == 0
            && error == Failure(script, receives - 1, device, command, capacity)
  }

  /** Where the a-th attempt began to receive. */
  function Begin(start: nat, ends: seq<nat>, a: nat): nat
    requires a <= |ends|
  {
    if a == 0 then start else ends[a - 1]
  }

  /** The a-th attempt skipped only stale frames. */
  ghost predicate SkippedIn(script: nat -> Reception, start: nat, ends: seq<nat>, a: nat, device: byte, command: byte,
                            maxStale: byte)
    requires a < |ends|
  {
    Skipped(script, Begin(start, ends, a), ends[a], device, command, maxStale)
  }

  ghost predicate AllSkipped(script: nat -> Reception, start: nat, ends: seq<nat>, device: byte, command: byte,
                             maxStale: byte) {
    forall a :: 0 <= a < |ends| ==> SkippedIn(script, start, ends, a, device, command, maxStale)
  }

  lemma OneMoreEnd(script: nat -> Reception, start: nat, ends: seq<nat>, end: nat, device: byte, command: byte,
                   maxStale: byte)
    requires AllSkipped(script, start, ends, device, command, maxStale)
    requires Skipped(script, Begin(start, ends, |ends|), end, device, command, maxStale)
    ensures AllSkipped(script, start, ends + [end], device, command, maxStale)
  {
    var more := ends + [end];
    forall a | 0 <= a < |more| ensures SkippedIn(script, start, more, a, device, command, maxStale) {
      if a < |ends| { assert SkippedIn(script, start, ends, a, device, command, maxStale); }
    }
  }

  /** The most attempts a call makes: the byte-sized retries + 1, at least one; a
      caller without diagnostics gets one. */
  function Attempts(retries: byte, hasDiag: bool): nat {
    if retries == 0xFF || !hasDiag then 1 else retries + 1
  }

  /** Receptions allowed to a number of attempts. */
  function Budget(attempts: nat, each: nat): nat {
    if attempts == 0 then 0 else Budget(attempts - 1, each) + each
  }

  lemma {:induction false} BudgetIsProduct(attempts: nat, each: nat)
    ensures Budget(attempts, each) == attempts * each
  {
    if attempts > 0 {
      BudgetIsProduct(attempts - 1, each);
      assert attempts * each == (attempts - 1) * each + each;
    }
  }

  /** Since `before` and `start` there was one attempt for each of `ends`, all with the
      same frame. */
  ghost predicate Attempted(script: nat -> Reception, before: seq<seq<byte>>, sent: seq<seq<byte>>, frame: seq<byte>,
                            start: nat, receives: nat, ends: seq<nat>, device: byte, command: byte, maxStale: byte) {
    && Repeats(before, sent, frame, |ends|) && AllSkipped(script, start, ends, device, command, maxStale)
    && Begin(start, ends, |ends|) == receives
    && start <= receives <= start + Budget(|ends|, maxStale + 1) && (ends != [] ==> start < receives)
  }

  lemma OneMoreAttempt(script: nat -> Reception, before: seq<seq<byte>>, sent: seq<seq<byte>>, frame: seq<byte>,
                       start: nat, receives: nat, ends: seq<nat>, device: byte, command: byte, maxStale: byte, end: nat)
    requires Attempted(script, before, sent, frame, start, receives, ends, device, command, maxStale)
    requires Skipped(script, receives, end, device, command, maxStale)
    ensures Attempted(script, before, sent + [frame], frame, start, end, ends + [end], device, command, maxStale)
  {
    OneMoreFrame(before, sent, frame, |ends|);
    OneMoreEnd(script, start, ends, end, device, command, maxStale);
  }

  lemma OneMoreGivenUp(script: nat -> Reception, ends: seq<nat>, end: nat, device: byte, command: byte, capacity: nat)
    requires AllGaveUp(script, ends, |ends|, device, command, capacity)
    ensures AllGaveUp(script, ends + [end], |ends|, device, command, capacity)
    ensures GaveUp(script, end, device, command, capacity) ==>
      AllGaveUp(script, ends + [end], |ends| + 1, device, command, capacity)
  {
  }

  /** One more attempt with the same frame; `again` says that its error is retryable. */
  method Repeat(link: Link, script: nat -> Reception, tx: seq<byte>, payload: array?<byte>, n: nat,
                reply: array?<byte>, capacity: nat, rx: array<byte>, device: byte, command: byte, maxStale: byte,
                ghost before: seq<seq<byte>>, ghost start: nat, ghost ends: seq<nat>)
    returns (ok: bool, again: bool, error: Error, status: byte, length: nat, ghost ends': seq<nat>)
    requires maxStale < 0xFF && Bounded(script, rx)
    requires payload != null ==> n <= payload.Length && payload != rx
    requires reply != null ==> capacity <= reply.Length
    requires Attempted(script, before, link.sent, Frame(tx, payload, n), start, link.receives, ends, device, command,
                       maxStale)
    requires AllGaveUp(script, ends, |ends|, device, command, capacity)
    modifies link, rx, reply
    ensures |ends'| == |ends| + 1 && ends'[|ends|] == link.receives
    ensures AllGaveUp(script, ends', |ends|, device, command, capacity)
    ensures again ==> AllGaveUp(script, ends', |ends'|, device, command, capacity)
    ensures Attempted(script, before, link.sent, old(Frame(tx, payload, n)), start, link.receives, ends',
                      device, command, maxStale)
    ensures again <==> GaveUp(script, link.receives, device, command, capacity)
    ensures Concludes(script, link.receives, device, command, capacity, ok, error, status, length, reply)
    ensures !ok ==> Frame(tx, payload, n) == old(Frame(tx, payload, n))
  {
    ghost var sent, received := link.sent, link.receives;
    ok, error, status, length := Once(link, script, tx, payload, n, reply, capacity, rx, device, command, maxStale);
    OneMoreAttempt(script, before, sent, old(Frame(tx, payload, n)), start, received, ends, device, command, maxStale,
                   link.receives);
    FailureIff(script, link.receives - 1, device, command, capacity);
    OneMoreGivenUp(script, ends, link.receives, device, command, capacity);
    ends' := ends + [link.receives];
    again := !ok && ShouldRetry(error);
  }

  /** nio_transaction_call. However the link behaves and whether or not the reply
      buffer is also the payload or the receive buffer: at most retries + 1 frames
      go out, all byte for byte the same, each followed by at most maxStale + 1
      receptions; success means that the last reception was an intact frame for
      this device and command whose data fits and has been copied exactly. `ends`
      counts the receptions up to the end of each attempt: only a broken reception
      is followed by another attempt, only the last attempt can give up on one, and
      within an attempt only stale frames are skipped. */
  method Call(link: Link, script: nat -> Reception, device: byte, command: byte, payload: array?<byte>, n: u16,
              reply: array?<byte>, capacity: nat, rx: array<byte>, retries: byte, maxStale: byte, hasDiag: bool)
    returns (ok: bool, error: Error, status: byte, length: nat, ghost frame: seq<byte>, ghost ends: seq<nat>)
    requires maxStale < 0xFF && Bounded(script, rx)
    requires payload != null ==> n <= payload.Length && payload != rx
    requires reply != null ==> capacity <= reply.Length
    modifies link, rx, reply
    ensures payload != null && n <= 0xFFFF - FRAME_HEADER_SIZE ==>
      frame == Seal(device, command, FIELD_NONE, old(payload[..n]))
    ensures payload == null && n == 0 ==> frame == Seal(device, command, FIELD_NONE, [])
    ensures 1 <= |ends| <= Attempts(retries, hasDiag) && ends[|ends| - 1] == link.receives
    ensures Repeats(old(link.sent), link.sent, frame, |ends|)
    ensures old(link.receives) < link.receives <= old(link.receives) + Budget(|ends|, maxStale + 1)
    ensures AllSkipped(script, old(link.receives), ends, device, command, maxStale)
    ensures AllGaveUp(script, ends, |ends| - 1, device, command, capacity)
    ensures hasDiag && GaveUp(script, link.receives, device, command, capacity) ==>
      |ends| == if retries == 0xFF then 1 else retries + 1
    ensures ok <==> IsReplyTo(script(link.receives - 1).frame, device, command, capacity)
    ensures ok ==> var g := script(link.receives - 1).frame;
      && Intact(g) && g[0] == device && g[1] == command && g[5] < 0x80 && g[5] % 8 == 1 && 7 <= |g|
      && status == g[6] && length == |g| - 7 <= capacity && (reply != null ==> reply[..length] == g[7..])
    ensures !ok ==> status == STATUS_INTERNAL_ERROR && length == 0
    ensures !ok ==> error == Failure(script, link.receives - 1, device, command, capacity)
  {
    var tx := Prepare(device, command, payload, n);
    frame := Frame(tx, payload, n);
    ok, error, status, length, ends := SendFrame(link, script, device, command, tx, payload, n, reply, capacity, rx,
                                                 retries, maxStale, hasDiag);
  }

  /** The loop of attempts. */
  method SendFrame(link: Link, script: nat -> Reception, device: byte, command: byte, tx: seq<byte>,
                   payload: array?<byte>, n: u16, reply: array?<byte>, capacity: nat, rx: array<byte>, retries: byte,
                   maxStale: byte, hasDiag: bool)
    returns (ok: bool, error: Error, status: byte, length: nat, ghost ends: seq<nat>)
    requires maxStale < 0xFF && Bounded(script, rx)
    requires payload != null ==> n <= payload.Length && payload != rx
    requires reply != null ==> capacity <= reply.Length
    modifies link, rx, reply
    ensures 1 <= |ends| <= Attempts(retries, hasDiag)
    ensures Attempted(script, old(link.sent), link.sent, old(Frame(tx, payload, n)), old(link.receives), link.receives,
                      ends, device, command, maxStale)
    ensures AllGaveUp(script, ends, |ends| - 1, device, command, capacity)
    ensures hasDiag && GaveUp(script, link.receives, device, command, capacity) ==> |ends| == Attempts(retries, true)
    ensures Concludes(script, link.receives, device, command, capacity, ok, error, status, length, reply)
  {
    ghost var frame, before, start := Frame(tx, payload, n), link.sent, link.receives;
    var maxAttempts := (retries + 1) % 0x100;
    if maxAttempts == 0 { maxAttempts := 1; }
    ok, error, status, length, ends := false, NoError, STATUS_INTERNAL_ERROR, 0, [];
    for attempt := 0 to maxAttempts
      invariant Attempted(script, before, link.sent, frame, start, link.receives, ends, device, command, maxStale)
      invariant |ends| == attempt && AllGaveUp(script, ends, |ends|, device, command, capacity)
      invariant Frame(tx, payload, n) == frame
      invariant attempt > 0 ==>
        hasDiag && !ok
        && Concludes(script, link.receives, device, command, capacity, ok, error, status, length, reply)
    {
      var again;
      ok, again, error, status, length, ends := Repeat(link, script, tx, payload, n, reply, capacity, rx, device,
                                                       command, maxStale, before, start, ends);
      if ok || !hasDiag || !again { return; }
    }
  }
}
