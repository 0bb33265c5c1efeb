/** The bounded sector retry loop (common/fujinet_disk_retry.c) over the broker's
    lazy reopen and the guarded directory backend. */
module DiskRetry {
  import opened Bytes
  import opened PacketGuard
  import Checksum
  import NioTransaction

  const RETRY_ATTEMPTS := 3
  const DEVICE_DISK: byte := 0xFC
  const PROTOCOL_VERSION: byte := 1
  const READ_SECTOR: byte := 0x03
  const WRITE_SECTOR: byte := 0x04
  const READ_REQUEST_SIZE := HEADER_SIZE + 8
  const WRITE_REQUEST_SIZE := HEADER_SIZE + 8 + 512

  /** Only complete, checksummed sector reads and writes may be repeated. */
  predicate IsRetryable(request: seq<byte>) {
    && |request| >= HEADER_SIZE
    && ((request[1] == READ_SECTOR && |request| == READ_REQUEST_SIZE)
        || (request[1] == WRITE_SECTOR && |request| == WRITE_REQUEST_SIZE))
    && request[0] == DEVICE_DISK
    && Le16(request[2], request[3]) == |request|
    && request[CHECKSUM_OFFSET] == Checksum.Fold(request[..CHECKSUM_OFFSET] + request[CHECKSUM_OFFSET + 1..], 0)
    && request[5] == 0 && request[6] == PROTOCOL_VERSION
    && 1 <= request[7] <= 8
    && Le16(request[12], request[13]) == 512
  }

  /** What follows the header of a sector request: protocol version, slot, sector number
      and the sector size 512. */
  function SectorBody(slot: byte, lba: seq<byte>): seq<byte> { [1, slot] + lba + [0x00, 0x02] }

  function SectorRead(slot: byte, lba: seq<byte>): seq<byte>
    requires |lba| == 4
  {
    NioTransaction.Seal(0xFC, 0x03, 0, SectorBody(slot, lba))
  }

  function SectorWrite(slot: byte, lba: seq<byte>, data: seq<byte>): seq<byte>
    requires |lba| == 4 && |data| == 512
  {
    NioTransaction.Seal(0xFC, 0x04, 0, SectorBody(slot, lba) + data)
  }

  ghost predicate IsSectorRead(request: seq<byte>) {
    exists slot: byte, lba: seq<byte> :: 1 <= slot <= 8 && |lba| == 4 && request == SectorRead(slot, lba)
  }

  ghost predicate IsSectorWrite(request: seq<byte>) {
    exists slot: byte, lba: seq<byte>, data: seq<byte> ::
      1 <= slot <= 8 && |lba| == 4 && |data| == 512 && request == SectorWrite(slot, lba, data)
  }

  /** Exactly the sealed reads and writes of one sector of slots 1 to 8 may be repeated. */
  lemma RetryableIff(request: seq<byte>)
    requires |request| < 0x1_0000
    ensures IsRetryable(request) <==> IsSectorRead(request) || IsSectorWrite(request)
  {
    if IsRetryable(request) { RetryableIsSector(request); }
    if slot: byte, lba: seq<byte> :| 1 <= slot <= 8 && |lba| == 4 && request == SectorRead(slot, lba) {
      SealedSector(0x03, slot, lba, []);
    }
    if slot: byte, lba: seq<byte>, data: seq<byte> :|
      1 <= slot <= 8 && |lba| == 4 && |data| == 512 && request == SectorWrite(slot, lba, data)
    {
      SealedSector(0x04, slot, lba, data);
    }
  }

  lemma RetryableIsSector(request: seq<byte>)
    requires IsRetryable(request)
    ensures IsSectorRead(request) || IsSectorWrite(request)
  {
    var slot, lba, data := request[7], request[8..12], request[14..];
    SkippedIsZeroed(request);
    NioTransaction.IntactIffSealed(request);
    assert request[12] == 0 && request[13] == 2;
    assert request[6..] == SectorBody(slot, lba) + data;
    if request[1] == READ_SECTOR {
      assert data == [] && SectorBody(slot, lba) + data == SectorBody(slot, lba);
      assert request == SectorRead(slot, lba);
    } else {
      assert request == SectorWrite(slot, lba, data);
    }
  }

  /** The packet checksum, which skips its own byte, is the frame checksum. */
  lemma SkippedIsZeroed(p: seq<byte>)
    requires |p| >= HEADER_SIZE
    ensures Checksum.Fold(p[..CHECKSUM_OFFSET] + p[CHECKSUM_OFFSET + 1..], 0)
      == Checksum.Residue(Checksum.Sum(p[CHECKSUM_OFFSET := 0]))
  {
    Checksum.SkipIsZeroing(p, CHECKSUM_OFFSET, 0);
    Checksum.FoldIsResidue(p[CHECKSUM_OFFSET := 0], 0);
  }

  lemma SealedSector(command: byte, slot: byte, lba: seq<byte>, data: seq<byte>)
    requires 1 <= slot <= 8 && |lba| == 4
    requires (command == 0x03 && data == []) || (command == 0x04 && |data| == 512)
    ensures IsRetryable(NioTransaction.Seal(0xFC, command, 0, SectorBody(slot, lba) + data))
    ensures SectorBody(slot, lba) + [] == SectorBody(slot, lba)
  {
    var body := SectorBody(slot, lba) + data;
    var f := NioTransaction.Seal(0xFC, command, 0, body);
    NioTransaction.SealedIsIntact(0xFC, command, 0, body);
    SkippedIsZeroed(f);
    assert f[0] == f[..4][0] && f[1] == f[..4][1];
    assert f[6] == f[6..][0] && f[7] == f[6..][1] && f[12] == f[6..][6] && f[13] == f[6..][7];
  }

  /** A retryable request is a packet the guard does not refuse as malformed. */
  lemma RetryableIsWellFormed(request: seq<byte>)
    requires IsRetryable(request)
    ensures WellFormed(request)
  {
    assert ChainEnds(request, 0) && Width(request, 0) == 0;
  }

  /** What the environment does during one attempt. `quiesce` is the barrier's
      answer when no uncertainty is recorded; `marked` says whether a transfer that
      did not send had got as far as writing the AMBIGUOUS marker, and `cleanup`
      whether removing it after a good reply succeeds. */
  datatype Attempt = Attempt(open: Hook, quiesce: Hook, close: Hook, transfer: Transfer, marked: bool, cleanup: bool)

  /** The marker is on disk after the transfer. It is written before anything can be
      sent (DirectoryRecovery); a transfer may also give up before writing it, when the
      session has ended or the challenge has rotated. */
  predicate Marks(a: Attempt) {
    match a.transfer.outcome
    case Rejected => false
    case Complete(_) => true
    case Unknown(sent) => sent || a.marked
  }

  /** The transfer is known not to have sent anything. */
  predicate Unsent(outcome: Outcome) { outcome == Rejected || outcome == Unknown(false) }

  /** Result of backend_open when the guard is closed. */
  function OpenResult(marker: bool, a: Attempt): Code {
    if a.open.present && a.open.result != Ok then a.open.result
    else if marker || !a.quiesce.present then Transport
    else a.quiesce.result
  }

  /** The transfer delivers a complete reply to the request, whatever is in scratch. */
  ghost predicate Delivers(t: Transfer, request: seq<byte>, size: nat, responseCapacity: nat) {
    t.outcome.Complete? && t.length <= size && t.length <= responseCapacity && t.length <= |t.written|
    && Answers(request, t.written[..t.length])
  }

  lemma DeliveryIsAccepted(t: Transfer, request: seq<byte>, scratch: seq<byte>, responseCapacity: nat)
    requires Delivers(t, request, |scratch|, responseCapacity)
    ensures Accepts(request, scratch, responseCapacity, t)
  {
    assert Overlay(scratch, t.written)[..t.length] == t.written[..t.length];
  }

  /** The last transfer completed and its reply is its own. */
  ghost predicate LastIsOwn(log: seq<Record>) {
    log != [] && log[|log| - 1].outcome.Complete? && log[|log| - 1].replyOf == log[|log| - 1].ticket
  }

  /** The directory backend seen from the broker: the guard plus the marker that
      directory_transfer writes before sending. No operator consent is given
      during a retry call, so the barrier is refused while the marker stands. */
  class Backend {
    const guard: Guard
    var marker: bool
    var sessionReady: bool

    ghost predicate Valid()
      reads this, guard
    {
      && guard.Valid() && !guard.active
      && (marker ==> guard.quarantined)
      && (!guard.quarantined ==> sessionReady)
    }

    constructor (guard: Guard)
      requires guard.Valid() && !guard.active && guard.quarantined
      ensures Valid() && this.guard == guard && !marker && !sessionReady
    {
      this.guard := guard;
      marker, sessionReady := false, false;
    }

    /** backend_open: open the guard, then demand proof of quiescence. */
    method Open(a: Attempt) returns (r: Code)
      requires Valid()
      modifies this, guard, guard.scratch
      ensures Valid() && marker == old(marker) && guard.log == old(guard.log)
      ensures r == Ok ==> guard.isOpen && !guard.quarantined && !marker
      ensures old(marker) ==> r != Ok
      ensures r != Ok ==> !guard.isOpen
      ensures !old(guard.isOpen) ==> r == OpenResult(old(marker), a)
      ensures guard.scratch[..] == old(guard.scratch[..])
    {
      r := guard.Open(a.open);
      if r != Ok { return r; }
      sessionReady := false;
      var hook := if marker then Hook(true, a.quiesce.calls, Transport) else a.quiesce;
      r := guard.Recover(hook);
      sessionReady := r == Ok;
      if r != Ok { guard.Close(a.close); }
    }

    /** backend_exchange over directory_transfer. */
    method Exchange(request: seq<byte>, response: array<byte>, responseCapacity: u16, a: Attempt)
      returns (r: Code, length: u16)
      requires Valid() && |request| < 0x1_0000
      requires response != guard.scratch && responseCapacity <= response.Length
      modifies this, guard, guard.scratch, response
      ensures Valid()
      ensures r != Ok ==> length == 0 && response[..] == old(response[..])
      ensures r == Ok ==> length <= responseCapacity && Answers(request, response[..length])
      ensures guard.log == old(guard.log) ==> r != Ok && marker == old(marker)
      ensures guard.log != old(guard.log) ==>
        && |guard.log| == |old(guard.log)| + 1 && guard.log[..|old(guard.log)|] == old(guard.log)
        && guard.log[|old(guard.log)|].code == r
        && (r != Ok ==> marker == Marks(a))
        && guard.log[|old(guard.log)|].outcome == a.transfer.outcome
        && (r == Ok <==> Accepts(request, old(guard.scratch[..]), responseCapacity, a.transfer))
      ensures guard.log != old(guard.log)
        <==> !guard.Blocked(old(guard.isOpen), false, old(guard.quarantined), request)
    {
      var ran;
      r, length, ran := guard.Exchange(request, response, responseCapacity, a.transfer);
      if ran { marker := Marks(a); }
      if r == Ok {
        marker := !a.cleanup;
        if !a.cleanup {
          guard.quarantined := true;
          sessionReady := false;
        }
      }
    }

    /** Nothing stands in the way of the adapter: the guard is open and clean, or it
        will open and be proved quiescent. */
    ghost predicate Ready(a: Attempt)
      reads this, guard
    {
      if guard.isOpen then !guard.quarantined else OpenResult(marker, a) == Ok
    }

    /** One broker exchange: lazy open, exchange, and close after a transport
        fault or a timeout. */
    method Attempt(request: seq<byte>, response: array<byte>, responseCapacity: u16, a: Attempt)
      returns (r: Code, length: u16)
      requires Valid() && |request| < 0x1_0000
      requires response != guard.scratch && responseCapacity <= response.Length
      modifies this, guard, guard.scratch, response
      ensures Valid()
      ensures r != Ok ==> length == 0 && response[..] == old(response[..])
      ensures r == Ok ==> length <= responseCapacity && Answers(request, response[..length])
      ensures old(marker) ==> r != Ok && marker && guard.log == old(guard.log)
      ensures guard.log == old(guard.log) ==> r != Ok && marker == old(marker)
      ensures guard.log != old(guard.log) ==>
        && |guard.log| == |old(guard.log)| + 1 && guard.log[..|old(guard.log)|] == old(guard.log)
        && guard.log[|old(guard.log)|].code == r
        && (r != Ok ==> marker == Marks(a))
      // The request gets its chance exactly when it is sound and the backend ready.
      ensures guard.log != old(guard.log) <==> old(Ready(a)) && |request| <= guard.scratch.Length && WellFormed(request)
      ensures guard.log != old(guard.log) ==>
        guard.log[|old(guard.log)|].outcome == a.transfer.outcome
        && (r == Ok <==> Accepts(request, old(guard.scratch[..]), responseCapacity, a.transfer))
      ensures r in {Transport, Timeout} ==> !guard.isOpen
      ensures r == Ok ==> LastIsOwn(guard.log)
    {
      r, length := Ok, 0;
      if !guard.isOpen { r := Open(a); }
      if r == Ok {
        r, length := Exchange(request, response, responseCapacity, a);
        if r == Transport || r == Timeout { guard.Close(a.close); }
      }
    }
  }

  predicate Opens(a: Attempt) { OpenResult(false, a) == Ok }

  /** The j-th attempt delivers; those before it leave no marker, and the backend opens
      again after each of them. */
  ghost predicate DeliversAt(script: seq<Attempt>, j: nat, request: seq<byte>, size: nat, responseCapacity: nat)
    requires j < |script|
  {
    && Delivers(script[j].transfer, request, size, responseCapacity)
    && (forall i :: 0 < i <= j ==> Opens(script[i]))
    && forall i :: 0 <= i < j ==> !Marks(script[i])
  }

  /** After `before`, transfers were proved unsent: all of them, or all but the last. */
  ghost predicate AllUnsent(before: seq<Record>, log: seq<Record>) {
    before <= log && forall i :: |before| <= i < |log| ==> Unsent(log[i].outcome)
  }

  ghost predicate OneSent(before: seq<Record>, log: seq<Record>) {
    before <= log && forall i :: |before| <= i < |log| - 1 ==> Unsent(log[i].outcome)
  }

  lemma OneMore(before: seq<Record>, log: seq<Record>, log': seq<Record>)
    requires AllUnsent(before, log) && |log'| <= |log| + 1 && log <= log'
    ensures OneSent(before, log')
    ensures log' == log || Unsent(log'[|log'| - 1].outcome) ==> AllUnsent(before, log')
  {
  }

  /** A clean and ready backend, a retryable request, and a good attempt. */
  ghost predicate Promised(marker: bool, ready: bool, script: seq<Attempt>, good: nat, request: seq<byte>, size: nat,
                           responseCapacity: nat) {
    && !marker && ready && IsRetryable(request) && |request| <= size && |script| == RETRY_ATTEMPTS
    && good < RETRY_ATTEMPTS && DeliversAt(script, good, request, size, responseCapacity)
  }

  /** The retry loop. Whatever the peer and the adapter do, of all attempts of one call
      only the last that reached the adapter can have sent anything; success means that
      it did, once, and that its reply is its own. Conversely the loop does not stop
      early: for any attempt `good` that delivers after attempts that left no marker,
      the call succeeds with it. */
  method RetryExchange(b: Backend, request: seq<byte>, response: array<byte>, responseCapacity: u16,
                       script: seq<Attempt>, ghost good: nat)
    returns (r: Code, length: u16, results: seq<Code>)
    requires b.Valid() && |request| < 0x1_0000 && |script| == RETRY_ATTEMPTS
    requires response != b.guard.scratch && responseCapacity <= response.Length
    modifies b, b.guard, b.guard.scratch, response
    ensures b.Valid()
    ensures 1 <= |results| <= (if IsRetryable(request) then RETRY_ATTEMPTS else 1)
    ensures results[|results| - 1] == r && forall i :: 0 <= i < |results| - 1 ==> results[i] in {Transport, Timeout}
    ensures r in {Transport, Timeout} ==> |results| == if IsRetryable(request) then RETRY_ATTEMPTS else 1
    ensures r != Ok ==> length == 0 && response[..] == old(response[..])
    ensures r == Ok ==> length <= responseCapacity && Answers(request, response[..length])
    ensures OneSent(old(b.guard.log), b.guard.log)
    ensures r == Ok ==> |b.guard.log| > |old(b.guard.log)| && LastIsOwn(b.guard.log)
    ensures old(b.marker) ==> r != Ok && b.guard.log == old(b.guard.log)
    ensures var size := b.guard.scratch.Length;
      Promised(old(b.marker), old(b.Ready(script[0])), script, good, request, size, responseCapacity) ==>
        r == Ok && |results| == good + 1
  {
    var attempts := if IsRetryable(request) then RETRY_ATTEMPTS else 1;
    r, length, results := Invalid, 0, [];
    ghost var size := b.guard.scratch.Length;
    ghost var promised := Promised(b.marker, b.Ready(script[0]), script, good, request, size, responseCapacity);
    if IsRetryable(request) { RetryableIsWellFormed(request); }
    for attempt := 0 to attempts
      invariant b.Valid()
      invariant |results| == attempt && (attempt > 0 ==> results[attempt - 1] == r)
      invariant forall i :: 0 <= i < attempt ==> results[i] in {Transport, Timeout}
      invariant length == 0 && response[..] == old(response[..])
      invariant OneSent(old(b.guard.log), b.guard.log)
      invariant !b.marker ==> AllUnsent(old(b.guard.log), b.guard.log)
      invariant old(b.marker) ==> b.marker && b.guard.log == old(b.guard.log)
      invariant attempt == 0 ==> b.marker == old(b.marker) && b.Ready(script[0]) == old(b.Ready(script[0]))
      invariant attempt > 0 ==> !b.guard.isOpen
      invariant promised ==> attempt <= good && !b.marker
    {
      if promised && attempt == good {
        DeliveryIsAccepted(script[good].transfer, request, b.guard.scratch[..], responseCapacity);
      }
      assert promised ==> b.Ready(script[attempt]);
      ghost var log, marker := b.guard.log, b.marker;
      r, length := b.Attempt(request, response, responseCapacity, script[attempt]);
      if !marker { OneMore(old(b.guard.log), log, b.guard.log); }
      results := results + [r];
      if r == Ok { return; }
      if r != Transport && r != Timeout { return; }
    }
  }
}
