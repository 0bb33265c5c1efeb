/** The serial device's read/write/open/close/expunge state machine
    (amiga/serial.device/fujinet_serial_lifecycle.c). Each method of Lifecycle is
    one entry of that file; interrupts, aborts, flushes and closes may follow one
    another in any order. Software interrupts are delivered only while flagged. */
module SerialLifecycle {
  import opened Bytes
  import opened PaulaRing

  /** Ring size 8, so at most 7 bytes wait. */
  const ROOM: nat := 7
  const PAULA_DEPTH := 8

  datatype Status = Ok | OpenFail | Busy | Aborted | NoCommand
  datatype Owner = Tbe | Abort | Flush | Close

  // ------------------------------------------------------------- write side

  /** The reply of the id-th accepted non-empty write: who resolved it, with what,
      and how many bytes had really been handed to the transmitter. */
  datatype WriteReply = WriteReply(id: nat, owner: Owner, status: Status, actual: nat, length: nat, sent: nat)

  /** The accepted non-empty writes: whether the latest is pending, how many there
      were, and their replies. */
  datatype WriteLog = WriteLog(pending: bool, started: nat, replies: seq<WriteReply>)
  {
    function Accept(): WriteLog { this.(pending := true, started := started + 1) }

    function Reply(owner: Owner, status: Status, actual: nat, length: nat, sent: nat): WriteLog {
      this.(pending := false, replies := replies + [WriteReply(|replies|, owner, status, actual, length, sent)])
    }

    /** Every started write has been replied exactly once, in order, except the
        pending one. */
    ghost predicate Inv() {
      && |replies| + (if pending then 1 else 0) == started
      && forall i :: 0 <= i < |replies| ==> replies[i].id == i && GoodWrite(replies[i])
    }
  }

  /** One owner; success means the full length; anything else is an abort that
      reports exactly the bytes that were sent. */
  ghost predicate GoodWrite(r: WriteReply) {
    && r.actual == r.sent <= r.length
    && (r.status == Ok <==> r.owner == Tbe)
    && (r.status == Ok ==> r.actual == r.length)
    && (r.status != Ok ==> r.status == Aborted)
  }

  /** The transmit side; `sent` counts the bytes moved to the transmitter for the
      current write, which `committed` is meant to count. */
  datatype WriteSide = WriteSide(
    log: WriteLog, remaining: nat, committed: nat, length: nat, accepted: bool, softint: bool,
    tbeFire: nat, tbeEnabled: bool, tbeRequested: bool, sent: nat)
  {
    /** fn_serial_lc_write of a non-empty buffer. */
    function Start(n: nat): WriteSide { WriteSide(log.Accept(), n, 0, n, false, false, 0, true, true, 0) }

    /** fn_serial_lc_tbe_handler, with interrupts enabled at the master. */
    function TbeInterrupt(): WriteSide {
      if !tbeEnabled || !tbeRequested then this
      else if remaining == 0 then
        this.(tbeRequested := false, tbeFire := tbeFire + 1, tbeEnabled := false, accepted := true, softint := true)
      else
        this.(tbeFire := tbeFire + 1, remaining := remaining - 1, committed := committed + 1, sent := sent + 1)
    }

    /** take_pending_write and reply_write. */
    function Resolve(owner: Owner, status: Status): WriteSide {
      if !log.pending then this
      else this.(remaining := 0, tbeEnabled := false, tbeRequested := false,
                 log := log.Reply(owner, status, committed, length, sent))
    }

    /** While a write is pending, its bytes are accounted for and either the
        transmitter interrupt or the completion is on its way. */
    ghost predicate PendingOk() {
      && length > 0
      && committed + remaining == length && sent == committed
      && tbeFire == committed + (if accepted then 1 else 0)
      && (softint <==> accepted)
      && (if accepted then remaining == 0 && !tbeEnabled else tbeEnabled && tbeRequested)
    }

    ghost predicate Inv() { log.Inv() && (log.pending ==> PendingOk()) }
  }

  const NO_WRITE := WriteSide(WriteLog(false, 0, []), 0, 0, 0, false, false, 0, false, false, 0)

  lemma StartKeeps(w: WriteSide, n: nat)
    requires w.Inv() && !w.log.pending && n > 0
    ensures w.Start(n).Inv()
  {
  }

  lemma TbeKeeps(w: WriteSide)
    requires w.Inv()
    ensures w.TbeInterrupt().Inv() && w.TbeInterrupt().log == w.log
  {
  }

  lemma ResolveKeeps(w: WriteSide, owner: Owner, status: Status)
    requires w.Inv()
    requires if owner == Tbe then status == Ok && (w.log.pending ==> w.accepted) else status == Aborted
    ensures w.Resolve(owner, status).Inv() && !w.Resolve(owner, status).log.pending
  {
  }

  /** k transmitter interrupts. */
  function Fire(w: WriteSide, k: nat): WriteSide {
    if k == 0 then w else Fire(w, k - 1).TbeInterrupt()
  }

  /** Progress: length + 1 transmitter interrupts after the start, and not earlier,
      a write left alone has sent every byte and flagged its completion. */
  lemma {:induction false} WriteCompletes(w: WriteSide, n: nat, k: nat)
    requires 0 < n && k <= n + 1
    ensures Fire(w.Start(n), k) == WriteSide(
      w.log.Accept(), n - Min(k, n), Min(k, n), n, k == n + 1, k == n + 1, k, k <= n, k <= n, Min(k, n))
  {
    if k > 0 { WriteCompletes(w, n, k - 1); }
  }

  /** The completion then replies Ok with the full length. */
  lemma CompletedWriteRepliesInFull(w: WriteSide, n: nat)
    requires 0 < n
    ensures Fire(w.Start(n), n + 1).Resolve(Tbe, Ok).log.replies
      == w.log.replies + [WriteReply(|w.log.replies|, Tbe, Ok, n, n, n)]
  {
    WriteCompletes(w, n, n + 1);
  }

  /** A write that has been replied, aborted or not, sends nothing more: transmitter
      interrupts find nothing to do until the next write starts. */
  lemma {:induction false} RepliedWriteIsOver(w: WriteSide, owner: Owner, status: Status, k: nat)
    requires w.log.pending
    ensures Fire(w.Resolve(owner, status), k) == w.Resolve(owner, status)
  {
    if k > 0 { RepliedWriteIsOver(w, owner, status, k - 1); }
  }

  // -------------------------------------------------------------- read side

  /** The reply of the id-th accepted non-empty read. */
  datatype ReadReply = ReadReply(id: int, status: Status, data: seq<byte>, need: nat)

  /** The accepted non-empty reads: the pending one with its length, how many
      there were, their replies, and those overwritten while pending. */
  datatype ReadLog = ReadLog(pending: bool, need: nat, started: nat, replies: seq<ReadReply>, lost: set<int>)
  {
    function Accept(n: nat): ReadLog { this.(pending := true, need := n, started := started + 1) }

    /** take_pending and reply_read. */
    function Reply(status: Status, data: seq<byte>): ReadLog {
      if !pending then this
      else this.(pending := false, need := 0, replies := replies + [ReadReply(started - 1, status, data, need)])
    }

    /** reply_read without take_pending, as a zero-length read does. */
    function Overwrite(): ReadLog {
      if pending then this.(pending := false, need := 0, lost := lost + {started - 1}) else this.(need := 0)
    }

    /** Reads with smaller numbers are no longer pending. */
    ghost function Resolved(): int { if pending then started - 1 else started }

    /** Accepted reads are pending, replied or lost, one of these each; replies
        come in order and never exceed the request. */
    ghost predicate Inv() {
      && (pending ==> started > 0 && 0 < need <= ROOM)
      && |replies| + |lost| == Resolved()
      && (forall i :: 0 <= i < |replies| ==>
            GoodRead(replies[i]) && replies[i].id < Resolved() && replies[i].id !in lost)
      && (forall i, j :: 0 <= i < j < |replies| ==> replies[i].id < replies[j].id)
      && (forall k :: k in lost ==> k < Resolved())
    }
  }

  ghost predicate GoodRead(r: ReadReply) {
    |r.data| <= r.need && (r.status == Ok || (r.status == Aborted && r.data == []))
  }

  lemma AcceptKeeps(r: ReadLog, n: nat)
    requires r.Inv() && !r.pending && 0 < n <= ROOM
    ensures r.Accept(n).Inv()
  {
  }

  lemma ReplyKeeps(r: ReadLog, status: Status, data: seq<byte>)
    requires r.Inv() && (r.pending ==> |data| <= r.need) && (status == Ok || (status == Aborted && data == []))
    ensures r.Reply(status, data).Inv() && !r.Reply(status, data).pending
  {
  }

  /** A zero-length read loses a pending read, and nothing else does: it is not
      pending any more, in no reply, and never will be replied. */
  lemma OverwriteLosesPending(r: ReadLog)
    requires r.Inv()
    ensures r.Overwrite().Inv() && !r.Overwrite().pending
    ensures r.Overwrite().lost - r.lost == if r.pending then {r.started - 1} else {}
    ensures r.Overwrite().replies == r.replies
  {
  }

  /** The receive side: the log, the completion flag, the ring's bytes and the
      words Paula has not been relieved of. */
  datatype ReadSide = ReadSide(log: ReadLog, softint: bool, ring: seq<byte>, paula: seq<u16>)
  {
    predicate Satisfied() { log.pending && log.need > 0 && |ring| >= log.need }

    /** drain_rbf: every waiting word is sampled, acknowledged and ingested, unless
        interrupts are off at the master. */
    function Drain(master: bool): ReadSide {
      if master then this.(ring := ArriveAll(ring, paula, ROOM), paula := []) else this
    }

    /** fn_serial_lc_read with a length between 1 and the ring's capacity. */
    function Start(n: nat): ReadSide {
      var r := this.(log := log.Accept(n));
      r.(softint := softint || r.Satisfied())
    }

    /** fn_serial_lc_softint: hands over at most `need` of the oldest bytes. */
    function Softint(): ReadSide {
      if !log.pending then this.(softint := false)
      else
        var n := Min(log.need, |ring|);
        ReadSide(log.Reply(Ok, ring[..n]), false, ring[n..], paula)
    }

    /** fn_serial_lc_rbf_handler: drain, and flag a read that is now satisfied. */
    function Interrupt(master: bool): ReadSide {
      var r := Drain(master);
      if master && r.Satisfied() then r.(softint := true) else r
    }

    /** A word arrives at Paula, which holds at most eight of them. */
    function Receive(word: u16): ReadSide {
      if |paula| < PAULA_DEPTH then this.(paula := paula + [word]) else this
    }

    function Abort(): ReadSide { this.(log := log.Reply(Aborted, [])) }

    /** fujinet_paula_rx_clear after a drain, as write, flush and clear do. */
    function Discard(master: bool): ReadSide { Drain(master).(ring := []) }

    ghost predicate Inv() { log.Inv() && |ring| <= ROOM && |paula| <= PAULA_DEPTH }
  }

  const NO_READ := ReadSide(ReadLog(false, 0, 0, [], {}), false, [], [])

  lemma DrainKeeps(r: ReadSide, master: bool)
    requires r.Inv()
    ensures r.Drain(master).Inv() && r.Discard(master).Inv()
  {
    ArriveExtends(r.ring, r.paula, ROOM);
  }

  lemma SoftintKeeps(r: ReadSide)
    requires r.Inv()
    ensures r.Softint().Inv() && !r.Softint().log.pending
  {
    if r.log.pending { ReplyKeeps(r.log, Ok, r.ring[..Min(r.log.need, |r.ring|)]); }
  }

  /** A delivery to a pending read hands over the oldest bytes, and all that were asked
      for exactly when the ring holds enough. */
  lemma DeliveryIsFullIff(r: ReadSide)
    requires r.Inv() && r.log.pending
    ensures var reply := r.Softint().log.replies[|r.log.replies|];
      reply.status == Ok && reply.data <= r.ring && (|reply.data| == r.log.need <==> |r.ring| >= r.log.need)
  {
  }

  /** What can happen to the receive side between two moments. */
  datatype ReadEvent =
    | Receives(word: u16) | Interrupts(master: bool) | Rearms(master: bool) | Starts(need: nat) | Delivers
    | Aborts | Overwrites | Discards(master: bool) | Reopens

  /** The functions that the methods of Lifecycle apply; a start needs an idle side and
      a delivery a flag. */
  function ReadStep(r: ReadSide, e: ReadEvent): ReadSide {
    match e
    case Receives(word) => r.Receive(word)
    case Interrupts(master) => r.Interrupt(master)
    case Rearms(master) => r.Drain(master)
    case Starts(need) => if r.log.pending || !(0 < need <= ROOM) then r else r.Start(need)
    case Delivers => if r.softint then r.Softint() else r
    case Aborts => r.Abort()
    case Overwrites => r.(log := r.log.Overwrite())
    case Discards(master) => r.Discard(master)
    case Reopens => r.(ring := [])
  }

  function ReadRun(r: ReadSide, es: seq<ReadEvent>): ReadSide {
    if es == [] then r else ReadStep(ReadRun(r, es[..|es| - 1]), es[|es| - 1])
  }

  lemma {:induction false} ReadRunConcat(r: ReadSide, a: seq<ReadEvent>, b: seq<ReadEvent>)
    ensures ReadRun(r, a + b) == ReadRun(ReadRun(r, a), b)
  {
    if b == [] {
      assert a + b == a;
    } else {
      assert (a + b)[..|a + b| - 1] == a + b[..|b| - 1];
      ReadRunConcat(r, a, b[..|b| - 1]);
    }
  }

  // ------------------------------------------------------------- lost reads

  lemma StepKeepsReadInv(r: ReadSide, e: ReadEvent)
    requires r.Inv()
    ensures ReadStep(r, e).Inv()
  {
    match e {
      case Receives(word) =>
      case Interrupts(master) => DrainKeeps(r, master);
      case Rearms(master) => DrainKeeps(r, master);
      case Starts(need) => if !r.log.pending && 0 < need <= ROOM { AcceptKeeps(r.log, need); }
      case Delivers => SoftintKeeps(r);
      case Aborts => ReplyKeeps(r.log, Aborted, []);
      case Overwrites => OverwriteLosesPending(r.log);
      case Discards(master) => DrainKeeps(r, master);
      case Reopens =>
    }
  }

  /** One step loses a read exactly if it is a zero-length read while one is pending;
      replies are only added. */
  lemma StepLosesIff(r: ReadSide, e: ReadEvent)
    requires r.Inv()
    ensures ReadStep(r, e).log.lost != r.log.lost <==> e.Overwrites? && r.log.pending
    ensures r.log.lost <= ReadStep(r, e).log.lost && r.log.replies <= ReadStep(r, e).log.replies
  {
    if e.Overwrites? && r.log.pending { assert r.log.started - 1 !in r.log.lost; }
  }

  /** The i-th event of the run is a zero-length read while another is pending. */
  ghost predicate LosesAt(r: ReadSide, es: seq<ReadEvent>, i: nat)
    requires i < |es|
  {
    es[i].Overwrites? && ReadRun(r, es[..i]).log.pending
  }

  ghost predicate LosesRead(r: ReadSide, es: seq<ReadEvent>) { exists i :: 0 <= i < |es| && LosesAt(r, es, i) }

  lemma LosesMore(r: ReadSide, es: seq<ReadEvent>)
    requires es != []
    ensures LosesRead(r, es) <==> LosesRead(r, es[..|es| - 1]) || LosesAt(r, es, |es| - 1)
  {
    var n := |es| - 1;
    forall i | 0 <= i < n ensures LosesAt(r, es[..n], i) == LosesAt(r, es, i) { assert es[..n][..i] == es[..i]; }
  }

  /** Over every run a read is lost if and only if some event is a zero-length read
      while another read is pending; replies already given stay. */
  lemma {:induction false} LostIff(r: ReadSide, es: seq<ReadEvent>)
    requires r.Inv()
    ensures var s := ReadRun(r, es);
      && s.Inv() && r.log.lost <= s.log.lost && r.log.replies <= s.log.replies
      && (s.log.lost != r.log.lost <==> LosesRead(r, es))
  {
    if es != [] {
      var init := es[..|es| - 1];
      LostIff(r, init);
      LosesMore(r, es);
      StepKeepsReadInv(ReadRun(r, init), es[|es| - 1]);
      StepLosesIff(ReadRun(r, init), es[|es| - 1]);
    }
  }

  /** Every accepted read that is no longer pending has been replied, if and only if no
      zero-length read has overwritten a pending one. */
  lemma {:induction false} EveryReadRepliedIff(es: seq<ReadEvent>)
    ensures var log := ReadRun(NO_READ, es).log; |log.replies| == log.Resolved() <==> !LosesRead(NO_READ, es)
  {
    LostIff(NO_READ, es);
  }

  /** Neither ends the pending read nor empties the ring. */
  predicate Harmless(e: ReadEvent) { e.Receives? || e.Interrupts? || e.Rearms? || e.Starts? }

  /** A read that was flagged while satisfied keeps its claim under harmless events. */
  ghost predicate Kept(was: ReadSide, r: ReadSide) {
    r.Inv() && r.log == was.log && r.softint && was.ring <= r.ring
  }

  lemma StepKeepsClaim(was: ReadSide, r: ReadSide, e: ReadEvent)
    requires was.Satisfied() && Kept(was, r) && Harmless(e)
    ensures Kept(was, ReadStep(r, e))
  {
    ArriveExtends(r.ring, r.paula, ROOM);
  }

  lemma {:induction false} RunKeepsClaim(was: ReadSide, es: seq<ReadEvent>)
    requires was.Inv() && was.Satisfied() && was.softint
    requires forall i :: 0 <= i < |es| ==> Harmless(es[i])
    ensures Kept(was, ReadRun(was, es))
  {
    if es != [] {
      RunKeepsClaim(was, es[..|es| - 1]);
      StepKeepsClaim(was, ReadRun(was, es[..|es| - 1]), es[|es| - 1]);
    }
  }

  /** A reply is full if its flag was raised for the read that is still pending and
      nothing discarded the ring, ended the read or overwrote it before the delivery:
      then it is Ok with exactly the oldest bytes at the moment of the flag. */
  lemma {:induction false} FlaggedReadIsFull(was: ReadSide, es: seq<ReadEvent>)
    requires was.Inv() && was.Satisfied() && was.softint
    requires forall i :: 0 <= i < |es| ==> Harmless(es[i])
    ensures ReadRun(was, es + [Delivers]).log.replies
      == was.log.replies + [ReadReply(was.log.started - 1, Ok, was.ring[..was.log.need], was.log.need)]
  {
    RunKeepsClaim(was, es);
    var r := ReadRun(was, es);
    assert (es + [Delivers])[..|es|] == es;
    DeliveryIsFullIff(r);
    assert r.ring[..was.log.need] == was.ring[..was.log.need];
  }

  /** A receive interrupt and an accepted read leave the pending read flagged if it is
      satisfied, and raise no other flag. */
  lemma FlagsExactlyTheSatisfied(r: ReadSide, e: ReadEvent)
    requires r.Inv() && (e == Interrupts(true) || (e.Starts? && !r.log.pending && 0 < e.need <= ROOM))
    ensures var s := ReadStep(r, e);
      && s.Inv() && (s.log.pending && |s.ring| >= s.log.need ==> s.softint)
      && (e.Starts? ==> s.log.pending && s.log.need == e.need && s.log.started == r.log.started + 1)
      && (!r.softint && s.softint ==> s.log.pending && |s.ring| >= s.log.need)
  {
    ArriveExtends(r.ring, r.paula, ROOM);
    if e.Starts? { AcceptKeeps(r.log, e.need); }
  }

  /** A pending read for which enough bytes wait, in the ring and in Paula together, is
      replied by the next interrupt and its delivery: Ok, with the oldest bytes. */
  lemma {:induction false} WaitingBytesAreDelivered(r: ReadSide)
    requires r.Inv() && r.log.pending && |r.ring| + |Payload(r.paula)| >= r.log.need
    ensures var s, all := ReadRun(r, [Interrupts(true), Delivers]), r.ring + Payload(r.paula);
      && s.log.replies == r.log.replies + [ReadReply(r.log.started - 1, Ok, all[..r.log.need], r.log.need)]
      && s.ring == all[r.log.need..Min(ROOM, |all|)] && s.paula == [] && !s.log.pending
  {
    ArriveKeepsFirst(r.ring, r.paula, ROOM);
    var flagged := ReadStep(r, Interrupts(true));
    FlagsExactlyTheSatisfied(r, Interrupts(true));
    var es := [Interrupts(true), Delivers];
    assert es[..1] == [Interrupts(true)] && es[..1][..0] == [];
    assert ReadRun(r, es[..1]) == flagged;
    assert ReadRun(r, es) == flagged.Softint();
    var all := r.ring + Payload(r.paula);
    assert flagged.ring == all[..Min(ROOM, |all|)];
    assert flagged.ring[..r.log.need] == all[..r.log.need];
  }

  /** Every reply comes from a delivery under a flag or from an abort; what it carries. */
  lemma RepliesOf(r: ReadSide, e: ReadEvent)
    requires r.Inv()
    ensures ReadStep(r, e).log.replies == r.log.replies +
      if !r.log.pending then []
      else if e == Aborts then [ReadReply(r.log.started - 1, Aborted, [], r.log.need)]
      else if e == Delivers && r.softint then
        [ReadReply(r.log.started - 1, Ok, r.ring[..Min(r.log.need, |r.ring|)], r.log.need)]
      else []
  {
  }

  // ------------------------------------------------------- the byte stream

  /** The bytes of all replies, in order. */
  function Delivered(replies: seq<ReadReply>): seq<byte> {
    if replies == [] then [] else Delivered(replies[..|replies| - 1]) + replies[|replies| - 1].data
  }

  /** Everything the callers have got, then the ring, then what Paula holds. */
  function Stream(r: ReadSide): seq<byte> { Delivered(r.log.replies) + r.ring + Payload(r.paula) }

  /** The event destroys bytes: the ring is emptied, a word finds Paula full, or bytes
      find the ring full. */
  predicate Destroys(r: ReadSide, e: ReadEvent) {
    match e
    case Receives(_) => |r.paula| >= PAULA_DEPTH
    case Interrupts(master) => master && |r.ring| + |Payload(r.paula)| > ROOM
    case Rearms(master) => master && |r.ring| + |Payload(r.paula)| > ROOM
    case Discards(_) => true
    case Reopens => true
    case _ => false
  }

  ghost predicate NothingDestroyed(r: ReadSide, es: seq<ReadEvent>) {
    forall i :: 0 <= i < |es| ==> !Destroys(ReadRun(r, es[..i]), es[i])
  }

  /** The words that have come in. */
  function Received(es: seq<ReadEvent>): seq<u16> {
    if es == [] then []
    else Received(es[..|es| - 1]) + if es[|es| - 1].Receives? then [es[|es| - 1].word] else []
  }

  lemma StreamStep(r: ReadSide, e: ReadEvent)
    requires r.Inv() && !Destroys(r, e)
    ensures Stream(ReadStep(r, e)) == Stream(r) + if e.Receives? then Payload([e.word]) else []
  {
    match e {
      case Receives(word) => PayloadConcat(r.paula, [word]);
      case Interrupts(master) => DrainKeepsStream(r, master);
      case Rearms(master) => DrainKeepsStream(r, master);
      case Delivers => SoftintKeepsStream(r);
      case Aborts => AbortKeepsStream(r);
      case _ =>
    }
  }

  lemma DrainKeepsStream(r: ReadSide, master: bool)
    requires r.Inv() && !(master && |r.ring| + |Payload(r.paula)| > ROOM)
    ensures Stream(r.Drain(master)) == Stream(r)
  {
    ArriveKeepsFirst(r.ring, r.paula, ROOM);
  }

  lemma SoftintKeepsStream(r: ReadSide)
    requires r.Inv()
    ensures Stream(r.Softint()) == Stream(r)
  {
    if r.log.pending {
      var n := Min(r.log.need, |r.ring|);
      DeliveredMore(r.log.replies, r.Softint().log.replies[|r.log.replies|]);
      assert r.ring == r.ring[..n] + r.ring[n..];
    }
  }

  lemma AbortKeepsStream(r: ReadSide)
    ensures Stream(r.Abort()) == Stream(r)
  {
    if r.log.pending { DeliveredMore(r.log.replies, ReadReply(r.log.started - 1, Aborted, [], r.log.need)); }
  }

  lemma DeliveredMore(replies: seq<ReadReply>, reply: ReadReply)
    ensures Delivered(replies + [reply]) == Delivered(replies) + reply.data
  {
    assert (replies + [reply])[..|replies|] == replies;
  }

  /** Over every run that destroys no bytes the callers get the received bytes in order,
      each once: what they have got, what the ring holds and what Paula holds are, one
      after the other, what there was and what has come in. */
  lemma {:induction false} BytesComeInOrder(r: ReadSide, es: seq<ReadEvent>)
    requires r.Inv() && NothingDestroyed(r, es)
    ensures Stream(ReadRun(r, es)) == Stream(r) + Payload(Received(es))
  {
    if es != [] {
      var n := |es| - 1;
      FirstDestroyNothing(r, es, n);
      BytesComeInOrder(r, es[..n]);
      LostIff(r, es[..n]);
      StreamStep(ReadRun(r, es[..n]), es[n]);
      ReceivedMore(es);
    }
  }

  lemma FirstDestroyNothing(r: ReadSide, es: seq<ReadEvent>, n: nat)
    requires n < |es| && NothingDestroyed(r, es)
    ensures NothingDestroyed(r, es[..n]) && !Destroys(ReadRun(r, es[..n]), es[n])
  {
    forall i | 0 <= i < n ensures !Destroys(ReadRun(r, es[..n][..i]), es[..n][i]) { assert es[..n][..i] == es[..i]; }
  }

  lemma ReceivedMore(es: seq<ReadEvent>)
    requires es != []
    ensures var n := |es| - 1;
      Payload(Received(es)) == Payload(Received(es[..n])) + if es[n].Receives? then Payload([es[n].word]) else []
  {
    var n := |es| - 1;
    if es[n].Receives? {
      PayloadConcat(Received(es[..n]), [es[n].word]);
    } else {
      assert Received(es) == Received(es[..n]);
    }
  }

  /** The flag is up only for a pending read that the ring satisfies, and every reply so
      far was full. */
  ghost predicate Full(r: ReadSide) {
    && r.Inv() && (r.softint ==> r.log.pending && |r.ring| >= r.log.need)
    && forall i :: 0 <= i < |r.log.replies| ==>
         r.log.replies[i].status == Ok && |r.log.replies[i].data| == r.log.replies[i].need
  }

  /** As long as nothing is aborted, overwritten or discarded, every reply is full and the
      flag never outlives its read. */
  lemma {:induction false} RepliesAreFull(es: seq<ReadEvent>)
    requires forall i :: 0 <= i < |es| ==> Harmless(es[i]) || es[i].Delivers?
    ensures Full(ReadRun(NO_READ, es))
  {
    if es != [] {
      RepliesAreFull(es[..|es| - 1]);
      StaysFull(ReadRun(NO_READ, es[..|es| - 1]), es[|es| - 1]);
    }
  }

  lemma StaysFull(r: ReadSide, e: ReadEvent)
    requires Full(r) && (Harmless(e) || e.Delivers?)
    ensures Full(ReadStep(r, e))
  {
    StepKeepsReadInv(r, e);
    ArriveExtends(r.ring, r.paula, ROOM);
    RepliesOf(r, e);
  }

  // Each condition is needed.

  /** The flag of a read that was satisfied and then flushed stays behind: the next
      read is replied Ok with nothing although it asked for two bytes. */
  lemma StaleSoftintGivesShortRead(word: u16)
    requires HasByte(word)
    ensures var flagged := NO_READ.(paula := [word]).Drain(true).Start(1);
      var second := flagged.Abort().Discard(true).Start(2);
      && flagged.softint && second.log.pending && second.softint
      && second.Softint().log.replies[1] == ReadReply(1, Ok, [], 2)
  {
    assert [word][..0] == [];
    assert ArriveAll([], [word], ROOM) == [word % 0x100];
  }

  /** A write between flag and delivery empties the ring: the read is replied Ok with
      nothing. */
  lemma WriteEmptiesFlaggedRead(word: u16)
    requires HasByte(word)
    ensures var flagged := NO_READ.(paula := [word]).Drain(true).Start(1);
      && flagged.Satisfied() && flagged.softint
      && flagged.Discard(true).Softint().log.replies == [ReadReply(0, Ok, [], 1)]
  {
    assert [word][..0] == [];
    assert ArriveAll([], [word], ROOM) == [word % 0x100];
  }

  // -------------------------------------------------------------- the device

  datatype Event =
    | EvOpen(portBusy: bool, bitsBusy: bool) | EvClose | EvExpunge
    | EvRead(need: nat) | EvAbortRead | EvSoftint
    | EvWrite(length: nat) | EvAbortWrite | EvTbe | EvWriteSoftint
    | EvFlush | EvReceive(word: u16) | EvRbf | EvSetParams(valid: bool) | EvQuery | EvMaster(on: bool)

  class Lifecycle {
    var openCount: nat
    var closing: bool
    var portOwned: bool
    var bitsOwned: bool
    var deferredExpunge: bool
    var expunged: bool
    var intenMaster: bool
    var rbfEnabled: bool
    var rbfWasEnabled: bool
    var vectorOurs: bool
    var receiveArmed: bool
    var pendingAtVectorRestore: bool
    var read: ReadSide
    var write: WriteSide

    ghost predicate Valid()
      reads this
    {
      && read.Inv() && write.Inv()
      && (openCount == 0 || closing ==> !read.log.pending && !write.log.pending)
      && (openCount == 0 ==> !vectorOurs && !portOwned && !bitsOwned)
      && !pendingAtVectorRestore
      // No wake-up is lost: a pending read has reception armed, and once it is satisfied
      // its completion is flagged.
      && (read.log.pending ==> receiveArmed)
      && (read.log.pending && |read.ring| >= read.log.need ==> read.softint)
    }

    constructor ()
      ensures Valid() && openCount == 0 && read == NO_READ && write == NO_WRITE && intenMaster
    {
      openCount, closing, portOwned, bitsOwned, deferredExpunge, expunged := 0, false, false, false, false, false;
      intenMaster, rbfEnabled, rbfWasEnabled, vectorOurs, receiveArmed := true, false, false, false, false;
      pendingAtVectorRestore, read, write := false, NO_READ, NO_WRITE;
    }

    /** Whatever is pending is aborted by this owner. */
    method AbortAll(owner: Owner)
      requires read.Inv() && write.Inv() && owner != Tbe
      modifies this`read, this`write
      ensures read.Inv() && write.Inv() && !read.log.pending && !write.log.pending
      ensures write == old(write).Resolve(owner, Aborted) && read == old(read).Abort()
    {
      ResolveKeeps(write, owner, Aborted);
      ReplyKeeps(read.log, Aborted, []);
      write := write.Resolve(owner, Aborted);
      read := read.Abort();
    }

    /** Hardware teardown. Pending work is resolved first, so none is pending when
        the interrupt vector goes back to its owner. */
    method Teardown()
      requires read.Inv() && write.Inv() && openCount == 0
      modifies this`closing, this`portOwned, this`bitsOwned, this`rbfEnabled, this`vectorOurs, this`receiveArmed,
               this`pendingAtVectorRestore, this`read, this`write
      ensures Valid() && closing && !receiveArmed
      ensures write == old(write).Resolve(Close, Aborted).(tbeEnabled := false, tbeRequested := false)
      ensures read == old(read).Abort().Drain(intenMaster)
    {
      closing := true;
      AbortAll(Close);
      Silence();
      RestoreVector();
    }

    /** Both interrupts off, and Paula relieved of what it still holds. */
    method Silence()
      requires read.Inv() && write.Inv() && !write.log.pending
      modifies this`rbfEnabled, this`receiveArmed, this`read, this`write
      ensures read.Inv() && write.Inv() && !receiveArmed && !rbfEnabled
      ensures write == old(write).(tbeEnabled := false, tbeRequested := false)
      ensures read == old(read).Drain(intenMaster)
    {
      write := write.(tbeEnabled := false, tbeRequested := false);
      rbfEnabled, receiveArmed := false, false;
      DrainKeeps(read, intenMaster);
      read := read.Drain(intenMaster);
    }

    method RestoreVector()
      modifies this`portOwned, this`bitsOwned, this`rbfEnabled, this`vectorOurs, this`pendingAtVectorRestore
      ensures !vectorOurs && !portOwned && !bitsOwned && pendingAtVectorRestore == write.log.pending
      ensures rbfEnabled == if old(vectorOurs) then rbfWasEnabled else old(rbfEnabled)
    {
      pendingAtVectorRestore := write.log.pending;
      if vectorOurs {
        vectorOurs := false;
        rbfEnabled := rbfWasEnabled;
      }
      bitsOwned := false;
      portOwned := false;
    }

    /** rearm_receive. */
    method Rearm()
      requires read.Inv()
      modifies this`read, this`rbfEnabled, this`receiveArmed
      ensures read.Inv() && receiveArmed && rbfEnabled == (old(rbfEnabled) || !old(receiveArmed))
      ensures read == if old(receiveArmed) then old(read) else old(read).Drain(intenMaster)
    {
      if receiveArmed { return; }
      DrainKeeps(read, intenMaster);
      read := read.Drain(intenMaster);
      rbfEnabled := true;
      receiveArmed := true;
    }

    /** OpenDevice; the flags say whether another owner holds the serial port or
        the serial control bits. */
    method Open(portBusy: bool, bitsBusy: bool) returns (s: Status)
      requires Valid()
      modifies `openCount, `closing, `portOwned, `bitsOwned, `deferredExpunge, `rbfEnabled, `rbfWasEnabled,
               `vectorOurs, `receiveArmed, `read, `write
      ensures Valid()
      ensures s == if old(openCount) != 0 then Busy else if portBusy || bitsBusy then OpenFail else Ok
      ensures s != Ok ==> read == old(read) && write == old(write) && openCount == old(openCount)
      ensures s == OpenFail ==> !portOwned && !bitsOwned && !vectorOurs
      ensures s == Ok ==> openCount == 1 && !closing && portOwned && bitsOwned && vectorOurs && receiveArmed
      ensures s == Ok ==> read == old(read).(ring := [])
      ensures s == Ok ==> write == old(write).(tbeEnabled := false, tbeRequested := false)
    {
      if openCount != 0 { return Busy; }
      s := Claim(portBusy, bitsBusy);
      if s == Ok { Arm(); }
    }

    /** The serial port and its control bits, or neither. */
    method Claim(portBusy: bool, bitsBusy: bool) returns (s: Status)
      requires !portOwned && !bitsOwned
      modifies `portOwned, `bitsOwned
      ensures s == if portBusy || bitsBusy then OpenFail else Ok
      ensures portOwned == bitsOwned == (s == Ok)
    {
      if portBusy { return OpenFail; }
      portOwned := true;
      if bitsBusy {
        portOwned := false;
        return OpenFail;
      }
      bitsOwned := true;
      s := Ok;
    }

    /** The vector is taken, reception armed and the ring emptied. */
    method Arm()
      requires read.Inv() && write.Inv() && !read.log.pending && !write.log.pending && !pendingAtVectorRestore
      modifies `openCount, `closing, `deferredExpunge, `rbfEnabled, `rbfWasEnabled, `vectorOurs, `receiveArmed,
               `read, `write
      ensures Valid() && openCount == 1 && !closing && vectorOurs && receiveArmed
      ensures read == old(read).(ring := [])
      ensures write == old(write).(tbeEnabled := false, tbeRequested := false)
    {
      rbfWasEnabled := rbfEnabled;
      vectorOurs, rbfEnabled, receiveArmed := true, true, true;
      write := write.(tbeEnabled := false, tbeRequested := false, log := write.log.(pending := false));
      closing, openCount, deferredExpunge := false, 1, false;
      read := read.(ring := []);
    }

    /** CloseDevice. */
    method CloseLast()
      requires Valid()
      modifies this
      ensures Valid() && openCount == (if old(openCount) > 0 then old(openCount) - 1 else 0)
      ensures intenMaster == old(intenMaster)
      ensures openCount != 0 ==> read == old(read) && write == old(write)
      ensures openCount == 0 ==>
        write == old(write).Resolve(Close, Aborted).(tbeEnabled := false, tbeRequested := false)
      ensures openCount == 0 ==> read == old(read).Abort().Drain(intenMaster)
      ensures openCount == 0 && old(deferredExpunge) ==> expunged
    {
      if openCount != 0 { openCount := openCount - 1; }
      if openCount == 0 {
        Teardown();
        if deferredExpunge { Expunge(); }
      }
    }

    /** Expunge is deferred while the device is open; afterwards nothing is left
        to tear down. */
    method Expunge()
      requires Valid()
      modifies this`deferredExpunge, this`expunged
      ensures Valid() && deferredExpunge == (openCount != 0) && expunged == (old(expunged) || openCount == 0)
    {
      if openCount != 0 {
        deferredExpunge := true;
        return;
      }
      deferredExpunge := false;
      expunged := true;
    }

    method Read(need: nat) returns (s: Status)
      requires Valid()
      modifies this`read, this`rbfEnabled, this`receiveArmed
      ensures Valid()
      ensures s == if closing || openCount == 0 then OpenFail else if need == 0 then Ok
                   else if need > ROOM then NoCommand else if old(read).log.pending then Busy else Ok
      ensures s != Ok ==> read == old(read)
      ensures s == Ok && need == 0 ==> read == old(read).(log := old(read).log.Overwrite())
      ensures s == Ok && need > 0 ==>
        receiveArmed && read == (if old(receiveArmed) then old(read) else old(read).Drain(intenMaster)).Start(need)
    {
      if closing || openCount == 0 { return OpenFail; }
      if need == 0 {
        OverwriteLosesPending(read.log);
        read := read.(log := read.log.Overwrite());
        return Ok;
      }
      if need > ROOM { return NoCommand; }
      if read.log.pending { return Busy; }
      Rearm();
      AcceptKeeps(read.log, need);
      read := read.Start(need);
      s := Ok;
    }

    method AbortRead() returns (done: bool)
      requires Valid()
      modifies this`read
      ensures Valid() && done == old(read).log.pending && read == old(read).Abort()
    {
      ReplyKeeps(read.log, Aborted, []);
      done := read.log.pending;
      read := read.Abort();
    }

    /** The receive software interrupt. */
    method Softint()
      requires Valid() && read.softint
      modifies this`read
      ensures Valid() && read == old(read).Softint()
    {
      SoftintKeeps(read);
      read := read.Softint();
    }

    /** CMD_FLUSH and CMD_CLEAR. */
    method FlushAll() returns (s: Status)
      requires Valid()
      modifies this`read, this`write
      ensures Valid() && write == old(write).Resolve(Flush, Aborted)
      ensures read == old(read).Abort().Discard(intenMaster)
      ensures s == if old(write).log.pending || old(read).log.pending then Aborted else Ok
    {
      s := if write.log.pending || read.log.pending then Aborted else Ok;
      AbortAll(Flush);
      DrainKeeps(read, intenMaster);
      read := read.Discard(intenMaster);
    }

    method Write(length: nat) returns (s: Status)
      requires Valid()
      modifies this`read, this`write, this`rbfEnabled, this`receiveArmed
      ensures Valid()
      ensures s == if closing || openCount == 0 then OpenFail else if old(write).log.pending then Busy else Ok
      ensures s != Ok ==> read == old(read) && write == old(write)
      ensures s == Ok ==> receiveArmed && read == old(read).Discard(intenMaster)
      ensures s == Ok ==>
        write == if length == 0 then old(write).(length := 0, committed := 0) else old(write).Start(length)
    {
      if closing || openCount == 0 { return OpenFail; }
      if write.log.pending { return Busy; }
      Rearm();
      DrainKeeps(read, intenMaster);
      read := read.Discard(intenMaster);
      StartWrite(length);
      s := Ok;
    }

    /** The write is pending from here on, unless it is empty. */
    method StartWrite(length: nat)
      requires write.Inv() && !write.log.pending
      modifies this`write
      ensures write.Inv()
      ensures write == if length == 0 then old(write).(length := 0, committed := 0) else old(write).Start(length)
    {
      if length == 0 {
        write := write.(length := 0, committed := 0);
      } else {
        StartKeeps(write, length);
        write := write.Start(length);
      }
    }

    /** The transmit-buffer-empty interrupt. */
    method TbeHandler()
      requires Valid()
      modifies this`write
      ensures Valid() && write == if intenMaster then old(write).TbeInterrupt() else old(write)
    {
      TbeKeeps(write);
      if !intenMaster || !write.tbeEnabled || !write.tbeRequested { return; }
      write := write.TbeInterrupt();
    }

    /** The transmit software interrupt. */
    method WriteSoftint() returns (done: bool)
      requires Valid() && write.softint
      modifies this`write
      ensures Valid() && done == old(write).log.pending
      ensures write == old(write).(softint := false).Resolve(Tbe, Ok)
    {
      done := write.log.pending;
      var w := write.Resolve(Tbe, Ok);
      ResolveKeeps(write, Tbe, Ok);
      write := w.(softint := false);
    }

    method AbortWrite() returns (done: bool)
      requires Valid()
      modifies this`write
      ensures Valid() && done == old(write).log.pending && write == old(write).Resolve(Abort, Aborted)
    {
      ResolveKeeps(write, Abort, Aborted);
      done := write.log.pending;
      write := write.Resolve(Abort, Aborted);
    }

    /** One more reply: a full write of one byte. */
    ghost predicate OneByteWritten(was: WriteSide, w: WriteSide) {
      w.log.replies == was.log.replies + [WriteReply(|was.log.replies|, Tbe, Ok, 1, 1, 1)]
    }

    /** fn_serial_lc_write_byte: write one byte and pump it, at most eight times.
        With interrupts on at the master, two rounds are enough. */
    method WriteByte() returns (s: Status)
      requires Valid()
      modifies this`read, this`write, this`rbfEnabled, this`receiveArmed
      ensures Valid()
      ensures s == if closing || openCount == 0 then OpenFail else if old(write).log.pending then Busy else Ok
      ensures s != Ok ==> write == old(write)
      ensures s == Ok && !intenMaster ==> write == old(write).Start(1)
      ensures s == Ok && intenMaster ==>
        !write.log.pending && OneByteWritten(old(write), write)
    {
      s := Write(1);
      if s != Ok { return; }
      var guard := 0;
      while write.log.pending && guard < 8
        invariant Valid() && 0 <= guard <= 8 && (!intenMaster || guard <= 2)
        invariant write.log.pending ==>
          write.log.replies == old(write).log.replies && write.length == 1
          && (intenMaster ==> write.committed == guard && !write.accepted)
        invariant !intenMaster ==> write == old(write).Start(1)
        invariant !write.log.pending ==> OneByteWritten(old(write), write)
      {
        TbeHandler();
        if write.softint { var _ := WriteSoftint(); }
        guard := guard + 1;
      }
    }

    method HwReceive(word: u16)
      requires Valid()
      modifies this`read
      ensures Valid() && read == old(read).Receive(word)
    {
      if |read.paula| < PAULA_DEPTH { read := read.(paula := read.paula + [word]); }
    }

    /** The receive interrupt. */
    method RbfHandler()
      requires Valid()
      modifies this`read
      ensures Valid() && read == old(read).Interrupt(intenMaster)
      ensures intenMaster && read.log.pending && |read.ring| >= read.log.need ==> read.softint
      ensures !intenMaster ==> read == old(read)
      ensures intenMaster ==>
        var all := old(read).ring + Payload(old(read).paula);
        read.paula == [] && read.ring == all[..Min(ROOM, |all|)]
    {
      ArriveKeepsFirst(read.ring, read.paula, ROOM);
      if !intenMaster { return; }
      DrainKeeps(read, true);
      var r := read.Drain(true);
      read := if r.Satisfied() then r.(softint := true) else r;
    }

    /** SDCMD_SETPARAMS; `valid` says whether the baud rate and word format are accepted.
        The ring is discarded and reception armed. */
    method SetParams(valid: bool) returns (s: Status)
      requires Valid()
      modifies this`read, this`rbfEnabled, this`receiveArmed
      ensures Valid()
      ensures s == if openCount == 0 then OpenFail
                   else if read.log.pending || write.log.pending || !valid then NoCommand else Ok
      ensures read == if s == Ok then old(read).Discard(intenMaster) else old(read)
      ensures s == Ok ==> receiveArmed && rbfEnabled == (old(rbfEnabled) || !old(receiveArmed))
    {
      if openCount == 0 { return OpenFail; }
      if read.log.pending || write.log.pending || !valid { return NoCommand; }
      DrainKeeps(read, intenMaster);
      read := read.Discard(intenMaster);
      if !receiveArmed { rbfEnabled, receiveArmed := true, true; }
      s := Ok;
    }

    /** SDCMD_QUERY: arms reception and counts the bytes that are waiting. */
    method Query() returns (count: nat)
      requires Valid()
      modifies this`read, this`rbfEnabled, this`receiveArmed
      ensures Valid() && receiveArmed && count == |read.ring|
      ensures read == if old(receiveArmed) then old(read) else old(read).Drain(intenMaster)
    {
      Rearm();
      count := |read.ring|;
    }

    /** What an event does to the receive side, in terms of ReadStep. */
    ghost predicate Reads(was: ReadSide, now: ReadSide, steps: seq<ReadEvent>, e: Event) {
      now == ReadRun(was, steps) && forall i :: 0 <= i < |steps| && steps[i].Overwrites? ==> e == EvRead(0)
    }

    lemma NoSteps(r: ReadSide)
      ensures ReadRun(r, []) == r
    {
    }

    lemma OneStep(r: ReadSide, e: ReadEvent)
      ensures ReadRun(r, [e]) == ReadStep(r, e)
    {
      assert [e][..0] == [];
    }

    lemma TwoSteps(r: ReadSide, e: ReadEvent, f: ReadEvent)
      ensures ReadRun(r, [e, f]) == ReadStep(ReadStep(r, e), f)
    {
      assert [e, f][..1] == [e];
      OneStep(r, e);
    }

    /** Opening and closing, as steps. */
    method ApplyOpen(e: Event) returns (ghost steps: seq<ReadEvent>)
      requires Valid() && (e.EvOpen? || e.EvClose? || e.EvExpunge?)
      modifies this
      ensures Valid() && Reads(old(read), read, steps, e) && old(write.log.replies) <= write.log.replies
    {
      ghost var r, m := read, intenMaster;
      steps := [];
      match e {
        case EvOpen(portBusy, bitsBusy) =>
          var s := Open(portBusy, bitsBusy);
          if s == Ok { steps := [Reopens]; OneStep(r, Reopens); }
        case EvClose =>
          CloseLast();
          if openCount == 0 { steps := [Aborts, Rearms(m)]; TwoSteps(r, Aborts, Rearms(m)); }
        case EvExpunge =>
          Expunge();
      }
    }

    /** Flushing, setting parameters and querying, as steps. */
    method ApplyControl(e: Event) returns (ghost steps: seq<ReadEvent>)
      requires Valid() && (e.EvFlush? || e.EvSetParams? || e.EvQuery?)
      modifies this
      ensures Valid() && Reads(old(read), read, steps, e) && old(write.log.replies) <= write.log.replies
    {
      ghost var r, m, armed := read, intenMaster, receiveArmed;
      steps := [];
      match e {
        case EvFlush =>
          var _ := FlushAll();
          steps := [Aborts, Discards(m)];
          TwoSteps(r, Aborts, Discards(m));
        case EvSetParams(valid) =>
          var s := SetParams(valid);
          if s == Ok { steps := [Discards(m)]; OneStep(r, Discards(m)); }
        case EvQuery =>
          var _ := Query();
          if !armed { steps := [Rearms(m)]; OneStep(r, Rearms(m)); }
      }
    }

    /** Reads and what interrupts them, as steps. */
    method ApplyRead(e: Event) returns (ghost steps: seq<ReadEvent>)
      requires Valid() && (e.EvRead? || e.EvAbortRead? || e.EvSoftint? || e.EvReceive? || e.EvRbf?)
      modifies this`read, this`rbfEnabled, this`receiveArmed
      ensures Valid() && Reads(old(read), read, steps, e)
    {
      ghost var r, m, armed := read, intenMaster, receiveArmed;
      steps := [];
      match e {
        case EvRead(need) =>
          var s := Read(need);
          if s == Ok {
            steps := if need == 0 then [Overwrites] else if armed then [Starts(need)] else [Rearms(m), Starts(need)];
            OneStep(r, steps[0]);
            if |steps| == 2 { TwoSteps(r, Rearms(m), Starts(need)); }
          }
        case EvAbortRead =>
          var _ := AbortRead();
          steps := [Aborts];
          OneStep(r, Aborts);
        case EvSoftint =>
          if read.softint { Softint(); }
          steps := [Delivers];
          OneStep(r, Delivers);
        case EvReceive(word) =>
          HwReceive(word);
          steps := [Receives(word)];
          OneStep(r, Receives(word));
        case EvRbf =>
          RbfHandler();
          steps := [Interrupts(m)];
          OneStep(r, Interrupts(m));
      }
    }

    /** A write that is accepted discards the ring. */
    method ApplyWrite(e: Event) returns (ghost steps: seq<ReadEvent>)
      requires Valid() && e.EvWrite?
      modifies this`read, this`write, this`rbfEnabled, this`receiveArmed
      ensures Valid() && Reads(old(read), read, steps, e) && old(write.log.replies) <= write.log.replies
    {
      ghost var r, m := read, intenMaster;
      var s := Write(e.length);
      steps := if s == Ok then [Discards(m)] else [];
      OneStep(r, Discards(m));
    }

    /** What ends a write; the receive side is not concerned. */
    method ApplyTransmit(e: Event)
      requires Valid() && (e.EvAbortWrite? || e.EvTbe? || e.EvWriteSoftint?)
      modifies this`write
      ensures Valid() && old(write.log.replies) <= write.log.replies
    {
      match e {
        case EvAbortWrite => var _ := AbortWrite();
        case EvTbe => TbeHandler();
        case EvWriteSoftint => if write.softint { var _ := WriteSoftint(); }
      }
    }

    /** One event of a run. */
    method Apply(e: Event) returns (ghost steps: seq<ReadEvent>)
      requires Valid()
      modifies this
      ensures Valid() && Reads(old(read), read, steps, e) && old(write.log.replies) <= write.log.replies
    {
      match e {
        case EvMaster(on) => intenMaster, steps := on, [];
        case EvRead(_) => steps := ApplyRead(e);
        case EvAbortRead => steps := ApplyRead(e);
        case EvSoftint => steps := ApplyRead(e);
        case EvReceive(_) => steps := ApplyRead(e);
        case EvRbf => steps := ApplyRead(e);
        case EvWrite(_) => steps := ApplyWrite(e);
        case EvAbortWrite => steps := []; ApplyTransmit(e);
        case EvTbe => steps := []; ApplyTransmit(e);
        case EvWriteSoftint => steps := []; ApplyTransmit(e);
        case EvFlush => steps := ApplyControl(e);
        case EvSetParams(_) => steps := ApplyControl(e);
        case EvQuery => steps := ApplyControl(e);
        case _ => steps := ApplyOpen(e);
      }
    }

    /** Every interleaving of callers, interrupts and aborts keeps the accounts: writes
        are replied exactly once by one owner, replies once given stay, and the vector
        is never restored under a pending write. On the receive side the run is one of
        ReadRun, so that a read is lost exactly if a zero-length read comes while
        another is pending; FlaggedReadIsFull says which replies are full. */
    method Run(es: seq<Event>) returns (ghost steps: seq<ReadEvent>)
      requires Valid()
      modifies this
      ensures Valid() && read == ReadRun(old(read), steps)
      ensures old(write.log.replies) <= write.log.replies && old(read.log.replies) <= read.log.replies
      ensures old(read.log.lost) <= read.log.lost
      ensures read.log.lost != old(read.log.lost) <==> LosesRead(old(read), steps)
      ensures (forall i :: 0 <= i < |es| ==> es[i] != EvRead(0)) ==> read.log.lost == old(read.log.lost)
    {
      steps := [];
      for i := 0 to |es|
        invariant Valid() && read == ReadRun(old(read), steps) && old(write.log.replies) <= write.log.replies
        invariant (forall j :: 0 <= j < i ==> es[j] != EvRead(0)) ==>
          forall k :: 0 <= k < |steps| ==> !steps[k].Overwrites?
      {
        ghost var more := Apply(es[i]);
        ReadRunConcat(old(read), steps, more);
        steps := steps + more;
      }
      LostIff(old(read), steps);
    }
  }
}
