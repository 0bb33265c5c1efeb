/** Whole-packet validation and the quarantine guard in front of an unreliable
    peer (amiga/nio.device/fujinet_nio_packet_backend.c). */
module PacketGuard {
  import opened Bytes
  import Checksum

  const HEADER_SIZE := 6
  const CHECKSUM_OFFSET := 4

  /** Result codes that the guard itself distinguishes. */
  datatype Code = Ok | Invalid | Busy | Transport | Timeout | Other(code: byte)

  // ---------------------------------------------------------------- packets

  /** Bytes announced by one field descriptor: 0..4 single bytes, one or two
      words, or one long word. Only the low three bits count. */
  function FieldWidth(d: byte): (w: nat)
    ensures w <= 4
  {
    [0, 1, 2, 3, 4, 2, 4, 4][d % 8]
  }

  /** Bit 7 announces one more descriptor. */
  predicate Continues(d: byte) { d >= 0x80 }

  /** The descriptor chain of p (byte 5, then the bytes after the header) ends
      with the k-th extra descriptor, inside the packet. */
  ghost predicate ChainEnds(p: seq<byte>, k: nat) {
    5 + k < |p| && !Continues(p[5 + k]) && forall j :: 5 <= j < 5 + k ==> Continues(p[j])
  }

  /** Total width announced by descriptors 0..k. */
  ghost function Width(p: seq<byte>, k: nat): nat
    requires 5 + k < |p|
  {
    FieldWidth(p[5 + k]) + if k == 0 then 0 else Width(p, k - 1)
  }

  ghost function PacketChecksum(p: seq<byte>): nat
    requires |p| > CHECKSUM_OFFSET
  {
    Checksum.Fold(p[..CHECKSUM_OFFSET] + p[CHECKSUM_OFFSET + 1..], 0)
  }

  /** What a packet is, said without any scanning order. */
  ghost predicate WellFormed(p: seq<byte>) {
    && |p| >= HEADER_SIZE
    && Le16(p[2], p[3]) == |p|
    && PacketChecksum(p) == p[CHECKSUM_OFFSET]
    && ChainFits(p)
  }

  lemma {:induction false} WidthGrows(p: seq<byte>, j: nat, k: nat)
    requires j <= k && 5 + k < |p|
    ensures Width(p, j) <= Width(p, k)
  {
    if j < k { WidthGrows(p, j, k - 1); }
  }

  /** All descriptors before position j continue, and the packet is too short
      for descriptors 0..j: then it is too short for the whole chain. */
  lemma TooWideStaysTooWide(p: seq<byte>, j: nat)
    requires 5 + j < |p| && HEADER_SIZE + j + Width(p, j) > |p|
    requires forall i :: 5 <= i < 5 + j ==> Continues(p[i])
    ensures !ChainFits(p)
  {
    forall k: nat | ChainEnds(p, k) ensures HEADER_SIZE + k + Width(p, k) > |p| {
      WidthGrows(p, j, k);
    }
  }

  /** A chain has one end, so that end decides. */
  lemma EndsHere(p: seq<byte>, j: nat)
    requires ChainEnds(p, j)
    ensures ChainFits(p) <==> HEADER_SIZE + j + Width(p, j) <= |p|
  {
    forall k: nat | ChainEnds(p, k) ensures k == j {
      assert Continues(p[5 + k]) == Continues(p[5 + j]) == false;
    }
  }

  lemma RunsOffTheEnd(p: seq<byte>)
    requires forall j :: 5 <= j < |p| ==> Continues(p[j])
    ensures !ChainFits(p)
  {
  }

  /** The descriptor chain ends inside the packet, and the header, the extra
      descriptors and all fields fit. */
  ghost predicate ChainFits(p: seq<byte>) {
    exists k: nat :: ChainEnds(p, k) && HEADER_SIZE + k + Width(p, k) <= |p|
  }

  /** The descriptor loop with its early rejections decides ChainFits exactly.
      `fields` is a 16-bit variable: that its sum never truncates is proved here. */
  method DescriptorsFit(p: seq<byte>) returns (ok: bool)
    requires HEADER_SIZE <= |p| < 0x1_0000
    ensures ok <==> ChainFits(p)
  {
    var offset: u16, fields: u16 := HEADER_SIZE, 0;
    var descriptor := p[5];
    while true
      invariant HEADER_SIZE <= offset <= |p| && descriptor == p[offset - 1]
      invariant forall i :: 5 <= i < offset - 1 ==> Continues(p[i])
      invariant fields == if offset == HEADER_SIZE then 0 else Width(p, offset - 7)
      decreases |p| - offset
    {
      var size := FieldWidth(descriptor);
      if size > |p| - offset || fields > |p| - offset - size {
        TooWideStaysTooWide(p, offset - 6);
        return false;
      }
      fields := fields + size;
      if !Continues(descriptor) {
        EndsHere(p, offset - 6);
        return fields <= |p| - offset;
      }
      if offset == |p| {
        RunsOffTheEnd(p);
        return false;
      }
      descriptor := p[offset];
      offset := offset + 1;
    }
  }

  /** valid_packet. */
  method ValidPacket(p: seq<byte>) returns (ok: bool)
    requires |p| < 0x1_0000
    ensures ok <==> WellFormed(p)
  {
    if |p| < HEADER_SIZE || Le16(p[2], p[3]) != |p| { return false; }
    var sum := Checksum.Compute(p[..CHECKSUM_OFFSET] + p[CHECKSUM_OFFSET + 1..], 0);
    if sum != p[CHECKSUM_OFFSET] { return false; }
    ok := DescriptorsFit(p);
  }

  // ------------------------------------------------------------------ guard

  /** What an adapter callback does before it returns: re-entrant calls into the
      guard, then a result code. `present` is false for a NULL callback. */
  datatype Hook = Hook(present: bool, calls: seq<Op>, result: Code)

  /** What the transfer callback reports. Rejected: nothing was sent. Complete:
      sent, and this exchange can neither run again nor answer again; `stale`
      asks for a reply left over from an earlier request, if there is one.
      Unknown: sent or not. */
  datatype Outcome = Rejected | Complete(stale: bool) | Unknown(sent: bool)

  /** One transfer: re-entrant calls, the bytes put into scratch, the reported
      length (which may exceed the scratch) and the outcome. */
  datatype Transfer = Transfer(calls: seq<Op>, written: seq<byte>, length: u16, outcome: Outcome)

  datatype Op =
    | OpOpen(hook: Hook)
    | OpClose(hook: Hook)
    | OpReset(hook: Hook)
    | OpRecover(hook: Hook)
    | OpExchange(request: seq<byte>, responseCapacity: u16, transfer: Transfer)
    | PeerSettles(pending: set<nat>) // the peer finishes or drops work by itself

  /** What is left of the outstanding work after some calls: only the peer itself ends
      any of it. */
  function Settled(outstanding: set<nat>, calls: seq<Op>): (r: set<nat>)
    ensures r <= outstanding
  {
    if calls == [] then outstanding
    else
      var before := Settled(outstanding, calls[..|calls| - 1]);
      if calls[|calls| - 1].PeerSettles? then before * calls[|calls| - 1].pending else before
  }

  /** The same for one callback, if it is made at all. */
  function During(outstanding: set<nat>, made: bool, hook: Hook): set<nat> {
    if made && hook.present then Settled(outstanding, hook.calls) else outstanding
  }

  /** History entry of one transfer callback. */
  datatype Record = Record(ticket: nat, outcome: Outcome, code: Code, replyOf: nat)

  function Overlay(buffer: seq<byte>, written: seq<byte>): (r: seq<byte>)
    ensures |r| == |buffer|
  {
    if |written| >= |buffer| then written[..|buffer|] else written + buffer[|written|..]
  }

  /** A reply: a packet for the device and command of the request. */
  ghost predicate Answers(request: seq<byte>, reply: seq<byte>) {
    WellFormed(reply) && |request| >= 2 && reply[0] == request[0] && reply[1] == request[1]
  }

  /** The guard's acceptance test of a completed transfer. */
  ghost predicate Accepts(request: seq<byte>, scratch: seq<byte>, responseCapacity: nat, t: Transfer) {
    && t.outcome.Complete?
    && t.length <= |scratch|
    && t.length <= responseCapacity
    && Answers(request, Overlay(scratch, t.written)[..t.length])
  }

  class Guard {
    const scratch: array<byte>
    var isOpen: bool
    var active: bool
    var quarantined: bool

    // The peer and the history, which no guard operation can inspect.

    /** Transmissions the peer may still execute or answer. */
    ghost var outstanding: set<nat>
    /** Work of an earlier life of the endpoint, unknown to this guard. */
    ghost const inherited: set<nat>
    ghost var issued: nat
    ghost var log: seq<Record>

    /** The safety invariant of every run: idle and unquarantined means the peer
        is quiescent; never two of our requests outstanding; every accepted reply
        answers its own request. */
    ghost predicate Valid()
      reads this
    {
      && HEADER_SIZE <= scratch.Length < 0x1_0000
      && (!active && !quarantined ==> outstanding == {})
      && (outstanding <= inherited || |outstanding| <= 1)
      && (forall t :: t in outstanding || t in inherited ==> t < issued)
      && (forall i :: 0 <= i < |log| && log[i].code == Ok ==>
            log[i].outcome.Complete? && log[i].replyOf == log[i].ticket)
      && (forall i :: 0 <= i < |log| && log[i].code != Ok ==> log[i].code == Transport)
    }

    constructor (scratch: array<byte>, ghost inherited: set<nat>, ghost issued: nat)
      requires HEADER_SIZE <= scratch.Length < 0x1_0000
      requires forall t :: t in inherited ==> t < issued
      ensures Valid() && this.scratch == scratch && this.inherited == inherited
      ensures !isOpen && !active && quarantined && outstanding == inherited && log == []
    {
      this.scratch := scratch;
      this.inherited := inherited;
      isOpen, active, quarantined := false, false, true;
      this.outstanding, this.issued, log := inherited, issued, [];
    }

    /** Nothing a caller or the peer can see has changed, except that the peer
        may have finished work. */
    twostate predicate OnlySettled()
      reads this, scratch
    {
      && isOpen == old(isOpen) && active == old(active) && quarantined == old(quarantined)
      && outstanding <= old(outstanding) && issued == old(issued) && log == old(log)
      && scratch[..] == old(scratch[..])
    }

    /** Calls made from inside a callback, while `active` is set: all are refused. */
    method Reenter(calls: seq<Op>)
      requires Valid() && active
      modifies this, scratch
      ensures Valid() && OnlySettled() && outstanding == Settled(old(outstanding), calls)
      decreases calls, 0
    {
      for i := 0 to |calls|
        invariant Valid() && OnlySettled() && outstanding == Settled(old(outstanding), calls[..i])
      {
        assert calls[..i + 1][..i] == calls[..i];
        var _, _ := Apply(calls[i]);
      }
      assert calls[..|calls|] == calls;
    }

    method Open(hook: Hook) returns (r: Code)
      requires Valid()
      modifies this, scratch
      ensures Valid() && issued == old(issued)
      ensures outstanding == During(old(outstanding), !old(active) && !old(isOpen), hook)
      ensures log == old(log) && scratch[..] == old(scratch[..])
      ensures active == old(active) && quarantined == old(quarantined)
      ensures old(active) ==> r == Busy && OnlySettled()
      ensures !old(active) ==> r == if old(isOpen) || !hook.present then Ok else hook.result
      ensures isOpen == (old(isOpen) || r == Ok)
      decreases hook, 1
    {
      if active { return Busy; }
      if isOpen { return Ok; }
      active := true;
      r := Ok;
      if hook.present { Reenter(hook.calls); r := hook.result; }
      active := false;
      if r == Ok { isOpen := true; }
    }

    method Close(hook: Hook)
      requires Valid()
      modifies this, scratch
      ensures Valid() && issued == old(issued)
      ensures outstanding == During(old(outstanding), !old(active) && old(isOpen), hook)
      ensures log == old(log) && scratch[..] == old(scratch[..])
      ensures active == old(active) && quarantined == old(quarantined)
      ensures old(active) ==> OnlySettled()
      ensures !old(active) ==> !isOpen
      decreases hook, 1
    {
      if active || !isOpen { return; }
      active := true;
      if hook.present { Reenter(hook.calls); }
      isOpen := false;
      active := false;
    }

    /** Every reset attempt quarantines, whatever its result. */
    method Reset(hook: Hook) returns (r: Code)
      requires Valid()
      modifies this, scratch
      ensures Valid() && issued == old(issued)
      ensures outstanding == During(old(outstanding), !old(active), hook)
      ensures log == old(log) && scratch[..] == old(scratch[..])
      ensures isOpen == old(isOpen) && active == old(active)
      ensures old(active) ==> r == Busy && OnlySettled()
      ensures !old(active) ==> quarantined && r == if hook.present then hook.result else Transport
      decreases hook, 1
    {
      if active { return Busy; }
      active := true;
      quarantined := true;
      r := Transport;
      if hook.present { Reenter(hook.calls); r := hook.result; }
      active := false;
    }

    /** Success of the quiesce callback is its proof that the peer is drained. */
    method Recover(hook: Hook) returns (r: Code)
      requires Valid()
      modifies this, scratch
      ensures Valid() && issued == old(issued)
      ensures r != Ok ==> outstanding == During(old(outstanding), !old(active), hook)
      ensures log == old(log) && scratch[..] == old(scratch[..])
      ensures isOpen == old(isOpen) && active == old(active)
      ensures old(active) ==> r == Busy && OnlySettled()
      ensures !old(active) ==> r == if hook.present then hook.result else Transport
      ensures !old(active) ==> (quarantined <==> r != Ok) && (r == Ok ==> outstanding == {})
      decreases hook, 1
    {
      if active { return Busy; }
      active := true;
      r := Transport;
      if hook.present {
        Reenter(hook.calls);
        r := hook.result;
        if r == Ok { outstanding := {}; }
      }
      active := false;
      quarantined := r != Ok;
    }

    /** Uncertainty is marked before the adapter gets any chance to send. */
    method CallTransfer(transfer: Transfer) returns (ghost ticket: nat, ghost replyOf: nat)
      requires Valid() && !active && !quarantined
      modifies this, scratch
      ensures Valid() && isOpen == old(isOpen) && !active && quarantined
      ensures ticket == replyOf == old(issued) && issued == old(issued) + 1 && log == old(log)
      ensures outstanding == if transfer.outcome == Unknown(true) then {ticket} else {}
      ensures scratch[..] == Overlay(old(scratch[..]), transfer.written)
      decreases transfer, 1
    {
      active := true;
      quarantined := true;
      ticket, replyOf := Adapter(transfer);
      active := false;
    }

    /** The transfer callback: it runs only with the guard active and quarantined. What
        it sends stays outstanding unless it reports otherwise. */
    method Adapter(transfer: Transfer) returns (ghost ticket: nat, ghost replyOf: nat)
      requires Valid() && active && quarantined && outstanding == {}
      modifies this, scratch
      ensures Valid() && isOpen == old(isOpen) && active && quarantined
      ensures ticket == replyOf == old(issued) && issued == old(issued) + 1 && log == old(log)
      ensures outstanding == if transfer.outcome == Unknown(true) then {ticket} else {}
      ensures scratch[..] == Overlay(old(scratch[..]), transfer.written)
      decreases transfer, 0
    {
      Reenter(transfer.calls);
      ticket := issued;
      replyOf := ticket;
      issued := issued + 1;
      match transfer.outcome {
        case Rejected =>
        case Complete(stale) =>
          ghost var origins := if stale && outstanding != {} then outstanding else {ticket};
          replyOf :| replyOf in origins;
        case Unknown(sent) =>
          if sent { outstanding := outstanding + {ticket}; }
      }
      Deposit(transfer.written);
    }

    method Exchange(request: seq<byte>, response: array<byte>, responseCapacity: u16, transfer: Transfer)
      returns (r: Code, length: u16, ran: bool)
      requires Valid() && |request| < 0x1_0000
      requires response != scratch && responseCapacity <= response.Length
      modifies this, scratch, response
      ensures Valid() && isOpen == old(isOpen) && active == old(active)
      // A failed exchange exposes nothing; a good one delivers exactly the reply.
      ensures r != Ok ==> length == 0 && response[..] == old(response[..])
      ensures r == Ok ==> length == transfer.length <= responseCapacity && length <= scratch.Length
      ensures r == Ok ==> response[..length] == Overlay(old(scratch[..]), transfer.written)[..length]
      ensures r == Ok ==> response[length..] == old(response[length..])
      ensures r == Ok ==> length >= HEADER_SIZE && |request| >= HEADER_SIZE
      ensures r == Ok ==> response[0] == request[0] && response[1] == request[1]
      ensures r == Ok ==> WellFormed(response[..length]) && Answers(request, response[..length])
      // Refused without touching the peer.
      ensures old(active) ==> r == Busy && OnlySettled()
      ensures Blocked(old(isOpen), old(active), old(quarantined), request) ==> outstanding == old(outstanding)
      ensures !old(active) && (|request| > scratch.Length || !WellFormed(request)) ==> r == Invalid && OnlySettled()
      ensures !old(active) && |request| <= scratch.Length && WellFormed(request) && (!old(isOpen) || old(quarantined))
        ==> r == Transport && OnlySettled()
      // Otherwise exactly one transfer, under a fresh ticket.
      ensures ran <==> !Blocked(old(isOpen), old(active), old(quarantined), request)
      ensures !ran ==> log == old(log)
      ensures !Blocked(old(isOpen), old(active), old(quarantined), request) ==>
        && |log| == |old(log)| + 1 && log[..|old(log)|] == old(log)
        && log[|old(log)|].ticket == old(issued) && issued == old(issued) + 1
        && log[|old(log)|].outcome == transfer.outcome && log[|old(log)|].code == r
        && (r == Ok <==> Accepts(request, old(scratch[..]), responseCapacity, transfer))
        && (transfer.outcome.Complete? && transfer.length <= Min(scratch.Length, responseCapacity) ==>
              var p := Overlay(old(scratch[..]), transfer.written)[..transfer.length];
              r == Ok <==> WellFormed(p) && p[0] == request[0] && p[1] == request[1])
        && (quarantined <==> r != Ok && !transfer.outcome.Rejected?)
        && outstanding == if transfer.outcome == Unknown(true) then {old(issued)} else {}
      decreases transfer, 2
    {
      length, ran := 0, false;
      if active { return Busy, 0, false; }
      if |request| > scratch.Length { return Invalid, 0, false; }
      var sound := ValidPacket(request);
      if !sound { return Invalid, 0, false; }
      if !isOpen || quarantined { return Transport, 0, false; }
      ghost var ticket, replyOf := CallTransfer(transfer);
      r, ran := Transport, true;
      if transfer.outcome.Rejected? {
        quarantined := false;
      } else if transfer.outcome.Complete? && transfer.length <= scratch.Length && transfer.length <= responseCapacity {
        sound := Judge(request, transfer.length);
        if sound {
          Copy(response, transfer.length);
          length := transfer.length;
          quarantined := false;
          r := Ok;
        }
      }
      log := log + [Record(ticket, transfer.outcome, r, replyOf)];
    }

    /** A complete transfer has left a packet for the device and command of the request. */
    method Judge(request: seq<byte>, n: u16) returns (ok: bool)
      requires n <= scratch.Length && |request| >= HEADER_SIZE
      ensures ok <==> WellFormed(scratch[..n]) && scratch[..n][0] == request[0] && scratch[..n][1] == request[1]
      ensures ok <==> Answers(request, scratch[..n])
    {
      ok := ValidPacket(scratch[..n]);
      ok := ok && scratch[0] == request[0] && scratch[1] == request[1];
    }

    /** An exchange in this state is refused before the transfer callback. */
    ghost predicate Blocked(isOpen: bool, active: bool, quarantined: bool, request: seq<byte>) {
      active || !isOpen || quarantined || |request| > scratch.Length || !WellFormed(request)
    }

    /** The callback fills scratch and never writes past its end. */
    method Deposit(written: seq<byte>)
      modifies scratch
      ensures scratch[..] == Overlay(old(scratch[..]), written)
    {
      for i := 0 to Min(|written|, scratch.Length)
        invariant scratch[..i] == written[..i] && scratch[i..] == old(scratch[i..])
      {
        scratch[i] := written[i];
      }
    }

    method Copy(response: array<byte>, n: nat)
      requires n <= scratch.Length && n <= response.Length && response != scratch
      modifies response
      ensures response[..n] == scratch[..n] && response[n..] == old(response[n..])
    {
      for i := 0 to n
        invariant response[..i] == scratch[..i] && response[i..] == old(response[i..])
      {
        response[i] := scratch[i];
      }
    }

    /** One step of a run: any guard operation, or progress of the peer. */
    method Apply(op: Op) returns (r: Code, length: u16)
      requires Valid()
      modifies this, scratch
      ensures Valid() && active == old(active)
      ensures old(active) ==> OnlySettled() && outstanding == Settled(old(outstanding), [op])
      ensures old(log) <= log
      decreases op, 1
    {
      r, length := Ok, 0;
      assert [op][..0] == [];
      match op {
        case OpOpen(hook) => r := Open(hook);
        case OpClose(hook) => Close(hook);
        case OpReset(hook) => r := Reset(hook);
        case OpRecover(hook) => r := Recover(hook);
        case OpExchange(request, capacity, transfer) =>
          if |request| < 0x1_0000 {
            var response := new byte[capacity];
            var ran;
            r, length, ran := Exchange(request, response, capacity, transfer);
          }
        case PeerSettles(pending) =>
          ghost var before := outstanding;
          outstanding := outstanding * pending;
          Shrinks(outstanding, before);
      }
    }

    /** Guard safety for every finite run, callbacks re-entering at will. */
    method Run(ops: seq<Op>)
      requires Valid() && !active
      modifies this, scratch
      ensures Valid() && !active && old(log) <= log
    {
      for i := 0 to |ops|
        invariant Valid() && !active && old(log) <= log
      {
        var _, _ := Apply(ops[i]);
      }
    }
  }

  lemma Shrinks(a: set<nat>, b: set<nat>)
    requires a <= b
    ensures |a| <= |b|
  {
    assert b == a + (b - a);
  }
}
