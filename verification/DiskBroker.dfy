/** The request broker of disk.device (amiga/disk.device/fujinet_disk_device.c):
    units that can be stopped, one worker task woken by a signal, abort, flush,
    close and deferred expunge, over the linked queue of module IoQueue. Expunge
    takes two steps: a locked check, and the teardown after Enable(), between which
    anything else may happen. */
module DiskBroker {
  import opened Bytes
  import opened IoQueue
  import opened Moments
  import opened Wrappers

  const UNIT_COUNT := 8

  // exec/io.h and devices/trackdisk.h
  const CMD_STOP: u16 := 6
  const CMD_START: u16 := 7
  const CMD_FLUSH: u16 := 8
  const TD_REMOVE: u16 := 12
  const TD_CHANGENUM: u16 := 13
  const TD_CHANGESTATE: u16 := 14
  const TD_PROTSTATUS: u16 := 15
  const TD_ADDCHANGEINT: u16 := 20
  const TD_REMCHANGEINT: u16 := 21

  /** History: requests accepted into the queue, those replied, and those given back
      without a reply when their change registration was removed. */
  datatype History = History(accepted: multiset<Entry>, replied: multiset<Entry>, released: multiset<Entry>)
  {
    function Accept(e: Entry): History { this.(accepted := accepted + multiset{e}) }

    function Reply(es: multiset<Entry>): History { this.(replied := replied + es) }

    function Release(es: set<Entry>): History { this.(released := released + multiset(es)) }
  }

  /** The worker task: io_processing, its signal bit, whether it is inside
      worker_drain, and its request. */
  datatype Worker = Worker(processing: bool, signalled: bool, draining: bool, running: Option<Entry>)

  /** The library node. `leaving`: an expunge has passed its locked check; `expunged`:
      the segment list has been returned and the memory freed. */
  datatype Library = Library(openCount: nat, delayedExpunge: bool, leaving: bool, expunged: bool)

  /** The device base; `registered` are the requests retained by TD_ADDCHANGEINT. */
  datatype Disk = Disk(
    queue: seq<Entry>, stopped: seq<bool>, worker: Worker, library: Library, registered: set<Entry>, log: History)

  const UNSTOPPED := [false, false, false, false, false, false, false, false]

  const INITIAL := Disk([], UNSTOPPED, Worker(false, false, false, None), Library(0, false, false, false), {},
                        History(multiset{}, multiset{}, multiset{}))

  function Bag(hit: Option<Entry>): multiset<Entry> { if hit.Some? then multiset{hit.value} else multiset{} }

  /** The dispatch rule for a set of stopped units. */
  function RuleOf(stopped: seq<bool>): Rule { Rule(stopped, CMD_START, CMD_FLUSH) }

  /** All requests of a unit taken out, one by one as abort_queued_unit does. */
  function Flushed(q: seq<Entry>, unit: byte): seq<Entry>
    decreases |q|
  {
    if Find(q, ByUnit(unit)) < |q| then Flushed(Without(q, ByUnit(unit)), unit) else q
  }

  datatype Event =
    | BeginIo(entry: Entry, memory: bool)
    | Wake
    | Fetch
    | Finish(memory: bool)
    | AbortIo(unit: byte, request: nat)
    | OpenDevice
    | Withdraw(request: nat) // the head of CloseDevice, outside Disable()
    | CloseDevice
    | WantExpunge            // the head of device_expunge, outside Disable()
    | CheckExpunge
    | Teardown

  /** Commands that BeginIO completes on the spot, whatever the worker does. */
  predicate Immediate(command: u16) {
    command == TD_REMCHANGEINT || command == CMD_FLUSH || command == TD_REMOVE
  }

  /** Status commands, completed on the spot unless the worker is busy. */
  predicate Status(command: u16) {
    command == TD_CHANGENUM || command == TD_CHANGESTATE || command == TD_PROTSTATUS
  }

  function FlushStep(s: Disk, unit: byte): Disk {
    s.(queue := Flushed(s.queue, unit),
       log := s.log.Reply(multiset(s.queue) - multiset(Flushed(s.queue, unit))))
  }

  /** The registration that a request of a unit would have. */
  function Registration(unit: byte, request: nat): Entry { Entry(request, unit, TD_ADDCHANGEINT) }

  /** Registrations are removed; their requests go back to the caller unreplied. */
  function ReleaseStep(s: Disk, es: set<Entry>): Disk {
    s.(registered := s.registered - es, log := s.log.Release(s.registered * es))
  }

  function BeginStep(s: Disk, e: Entry, memory: bool): Disk {
    if e.unit >= UNIT_COUNT then s
    else if e.command == TD_REMCHANGEINT then ReleaseStep(s, {Registration(e.unit, e.request)})
    else if e.command == CMD_FLUSH then FlushStep(s, e.unit)
    else if Immediate(e.command) || (Status(e.command) && !s.worker.processing) || !memory then s
    else s.(queue := s.queue + [e], worker := s.worker.(processing := true, signalled := true), log := s.log.Accept(e))
  }

  /** The worker's Wait() returns. */
  function WakeStep(s: Disk): Disk {
    if !s.worker.signalled || s.worker.draining then s
    else s.(worker := s.worker.(signalled := false, draining := true))
  }

  /** The locked section of worker_drain. */
  function DispatchStep(s: Disk): Disk {
    var search := Search.Dispatch(RuleOf(s.stopped));
    if !s.worker.draining || s.worker.running.Some? then s
    else if Find(s.queue, search) < |s.queue| then
      s.(queue := Without(s.queue, search), worker := s.worker.(running := Some(s.queue[Find(s.queue, search)])))
    else s.(worker := s.worker.(processing := false, draining := false))
  }

  function SetStopped(stopped: seq<bool>, unit: byte, flag: bool): seq<bool> {
    if unit < |stopped| then stopped[unit := flag] else stopped
  }

  /** What a processed command does to the broker itself. */
  function Effect(s: Disk, e: Entry): Disk {
    if e.command == CMD_START then s.(stopped := SetStopped(s.stopped, e.unit, false))
    else if e.command == CMD_STOP then s.(stopped := SetStopped(s.stopped, e.unit, true))
    else if e.command == CMD_FLUSH then FlushStep(s, e.unit)
    else s
  }

  /** The worker is done with its request. */
  function Idle(s: Disk): Disk { s.(worker := s.worker.(running := None)) }

  /** TD_ADDCHANGEINT: one registration for each request, kept if there is memory for
      it; a request that is registered already is retained by the same registration. */
  function RegisterStep(s: Disk, e: Entry, memory: bool): Disk {
    if e in s.registered then s.(log := s.log.Release({e}))
    else if memory then s.(registered := s.registered + {e})
    else s.(log := s.log.Reply(multiset{e}))
  }

  /** device_process_request, as far as the broker can see it. */
  function FinishStep(s: Disk, memory: bool): Disk {
    if s.worker.running.None? then s
    else
      var e, t := s.worker.running.value, Idle(s);
      if e.command == TD_ADDCHANGEINT then RegisterStep(t, e, memory)
      else Effect(t.(log := s.log.Reply(multiset{e})), e)
  }

  /** A queued request is taken out and replied. */
  function UnqueueStep(s: Disk, request: nat): Disk {
    s.(queue := Without(s.queue, ByRequest(request)), log := s.log.Reply(multiset(Hit(s.queue, ByRequest(request)))))
  }

  /** A retained change request is replied; otherwise the queue is searched. */
  function AbortStep(s: Disk, unit: byte, request: nat): Disk {
    var e := Registration(unit, request);
    if unit < UNIT_COUNT && e in s.registered then
      s.(registered := s.registered - {e}, log := s.log.Reply(multiset{e}))
    else UnqueueStep(s, request)
  }

  predicate Quiet(s: Disk) { s.library.openCount == 0 && s.queue == [] && s.worker.running.None? }

  /** The locked check of complete_pending_expunge. */
  function ExpungeStep(s: Disk): Disk {
    if !s.library.delayedExpunge || s.library.openCount != 0 || s.queue != [] || s.worker.processing then s
    else s.(library := s.library.(delayedExpunge := false, leaving := true))
  }

  /** The rest of complete_pending_expunge: worker, registrations, transport and
      memory go, whatever has happened since the check. */
  function TeardownStep(s: Disk): Disk {
    if !s.library.leaving then s
    else ReleaseStep(s, s.registered).(library := s.library.(leaving := false, expunged := true))
  }

  /** All registrations of a request. */
  function Of(registered: set<Entry>, request: nat): set<Entry> { set e | e in registered && e.request == request }

  /** The head of CloseDevice: the request's registrations go, and its queued request. */
  function WithdrawStep(s: Disk, request: nat): Disk {
    UnqueueStep(ReleaseStep(s, Of(s.registered, request)), request)
  }

  function OpenStep(s: Disk): Disk {
    s.(library := s.library.(openCount := s.library.openCount + 1, delayedExpunge := false))
  }

  /** The locked part of CloseDevice. The last close that finds a deferred expunge goes
      on to complete_pending_expunge, which is a CheckExpunge event of its own. */
  function CloseStep(s: Disk): Disk {
    s.(library := s.library.(openCount := if s.library.openCount > 0 then s.library.openCount - 1 else 0))
  }

  function WantStep(s: Disk): Disk { s.(library := s.library.(delayedExpunge := true)) }

  function Next(s: Disk, e: Event): Disk {
    if s.library.expunged then s
    else match e
      case BeginIo(entry, memory) => BeginStep(s, entry, memory)
      case Wake => WakeStep(s)
      case Fetch => DispatchStep(s)
      case Finish(memory) => FinishStep(s, memory)
      case AbortIo(unit, request) => AbortStep(s, unit, request)
      case OpenDevice => OpenStep(s)
      case Withdraw(request) => WithdrawStep(s, request)
      case CloseDevice => CloseStep(s)
      case WantExpunge => WantStep(s)
      case CheckExpunge => ExpungeStep(s)
      case Teardown => TeardownStep(s)
  }

  function RunFrom(s: Disk, es: seq<Event>): Disk {
    if es == [] then s else Next(RunFrom(s, es[..|es| - 1]), es[|es| - 1])
  }

  function Run(es: seq<Event>): Disk {
    if es == [] then INITIAL else Next(Run(es[..|es| - 1]), es[|es| - 1])
  }

  // -------------------------------------------------------------- invariant

  ghost predicate NoneRunnable(q: seq<Entry>, stopped: seq<bool>) {
    forall i :: 0 <= i < |q| ==> !RuleOf(stopped).Runnable(q[i])
  }

  ghost predicate Awake(s: Disk) {
    && (!s.worker.processing ==> NoneRunnable(s.queue, s.stopped))
    && (s.worker.processing ==> s.worker.signalled || s.worker.draining)
    && (s.worker.running.Some? ==> s.worker.draining && s.worker.processing)
  }

  /** Requests that are neither waiting nor running. */
  ghost function Settled(s: Disk): multiset<Entry> { s.log.replied + multiset(s.registered) + s.log.released }

  ghost predicate Conserved(s: Disk) {
    s.log.accepted == multiset(s.queue) + Bag(s.worker.running) + Settled(s)
  }

  ghost predicate InRange(s: Disk) {
    && |s.stopped| == UNIT_COUNT
    && (forall i :: 0 <= i < |s.queue| ==> s.queue[i].unit < UNIT_COUNT)
  }

  ghost predicate Inv(s: Disk) { Awake(s) && Conserved(s) && InRange(s) }

  /** Taking entries out of a queue leaves a part of it. */
  ghost predicate Part(p: seq<Entry>, q: seq<Entry>) {
    multiset(p) <= multiset(q) && |p| <= |q|
  }

  lemma PartMember(p: seq<Entry>, q: seq<Entry>, i: nat)
    requires Part(p, q) && i < |p|
    ensures p[i] in q
  {
    assert p[i] in multiset(p);
    assert p[i] in multiset(q);
  }

  lemma WithoutIsPart(q: seq<Entry>, search: Search)
    ensures Part(Without(q, search), q)
  {
    HitAndRest(q, search);
  }

  lemma {:induction false} FlushedIsPart(q: seq<Entry>, unit: byte)
    ensures Part(Flushed(q, unit), q)
    decreases |q|
  {
    if Find(q, ByUnit(unit)) < |q| {
      WithoutIsPart(q, ByUnit(unit));
      FlushedIsPart(Without(q, ByUnit(unit)), unit);
    }
  }

  /** Nothing of the unit stays behind, and the others keep their order. */
  lemma {:induction false} FlushedLeavesOthers(q: seq<Entry>, unit: byte, other: byte)
    requires other != unit
    ensures OfUnit(Flushed(q, unit), unit) == []
    ensures OfUnit(Flushed(q, unit), other) == OfUnit(q, other)
    decreases |q|
  {
    var k := Find(q, ByUnit(unit));
    if k < |q| {
      FlushedLeavesOthers(Without(q, ByUnit(unit)), unit, other);
      RemoveForeign(q, k, other);
    } else {
      forall i | 0 <= i < |q| ensures q[i].unit != unit { assert !ByUnit(unit).Matches(q[i]); }
      OfUnitNone(q, unit);
    }
  }

  lemma RemoveForeign(q: seq<Entry>, k: nat, unit: byte)
    requires k < |q| && q[k].unit != unit
    ensures OfUnit(RemoveAt(q, k), unit) == OfUnit(q, unit)
  {
    OfUnitConcat(q[..k], q[k + 1..], unit);
    OfUnitConcat(q[..k + 1], q[k + 1..], unit);
    assert q == q[..k + 1] + q[k + 1..] && q[..k + 1][..k] == q[..k];
  }

  lemma PartKeeps(p: seq<Entry>, q: seq<Entry>, stopped: seq<bool>)
    requires Part(p, q)
    ensures NoneRunnable(q, stopped) ==> NoneRunnable(p, stopped)
    ensures (forall i :: 0 <= i < |q| ==> q[i].unit < UNIT_COUNT) ==>
      forall i :: 0 <= i < |p| ==> p[i].unit < UNIT_COUNT
    ensures q == [] ==> p == []
  {
    forall i | 0 <= i < |p| ensures p[i] in q { PartMember(p, q, i); }
  }

  lemma FlushKeepsInv(s: Disk, unit: byte)
    requires Inv(s)
    ensures Inv(FlushStep(s, unit))
  {
    FlushedIsPart(s.queue, unit);
    PartKeeps(Flushed(s.queue, unit), s.queue, s.stopped);
  }

  lemma ReleaseKeepsInv(s: Disk, es: set<Entry>)
    requires Inv(s)
    ensures Inv(ReleaseStep(s, es))
  {
    assert s.registered == (s.registered - es) + (s.registered * es);
    assert multiset(s.registered) == multiset(s.registered - es) + multiset(s.registered * es);
  }

  lemma AbortKeepsInv(s: Disk, unit: byte, request: nat)
    requires Inv(s)
    ensures Inv(AbortStep(s, unit, request))
  {
    var e := Registration(unit, request);
    if unit < UNIT_COUNT && e in s.registered {
      assert multiset(s.registered) == multiset(s.registered - {e}) + multiset{e};
    } else {
      UnqueueKeepsInv(s, request);
    }
  }

  lemma UnqueueKeepsInv(s: Disk, request: nat)
    requires Inv(s)
    ensures Inv(UnqueueStep(s, request))
  {
    HitAndRest(s.queue, ByRequest(request));
    WithoutIsPart(s.queue, ByRequest(request));
    PartKeeps(Without(s.queue, ByRequest(request)), s.queue, s.stopped);
  }

  lemma BeginKeepsInv(s: Disk, e: Entry, memory: bool)
    requires Inv(s) && !s.library.expunged
    ensures Inv(BeginStep(s, e, memory))
  {
    if e.unit < UNIT_COUNT {
      if e.command == CMD_FLUSH { FlushKeepsInv(s, e.unit); }
      if e.command == TD_REMCHANGEINT { ReleaseKeepsInv(s, {Registration(e.unit, e.request)}); }
    }
  }

  lemma DispatchKeepsInv(s: Disk)
    requires Inv(s) && !s.library.expunged
    ensures Inv(DispatchStep(s))
  {
    var search := Search.Dispatch(RuleOf(s.stopped));
    if s.worker.draining && s.worker.running.None? {
      if Find(s.queue, search) < |s.queue| { TakeKeepsInv(s, search); } else { NoneTakenKeepsInv(s, search); }
    }
  }

  lemma TakeKeepsInv(s: Disk, search: Search)
    requires Inv(s) && search == Search.Dispatch(RuleOf(s.stopped)) && Find(s.queue, search) < |s.queue|
    requires s.worker.draining && s.worker.running.None?
    ensures Inv(DispatchStep(s))
  {
    HitAndRest(s.queue, search);
    WithoutIsPart(s.queue, search);
    PartKeeps(Without(s.queue, search), s.queue, s.stopped);
    assert search.Matches(s.queue[Find(s.queue, search)]);
  }

  lemma NoneTakenKeepsInv(s: Disk, search: Search)
    requires Inv(s) && search == Search.Dispatch(RuleOf(s.stopped)) && Find(s.queue, search) == |s.queue|
    requires s.worker.draining && s.worker.running.None?
    ensures Inv(DispatchStep(s))
  {
    forall i | 0 <= i < |s.queue| ensures !RuleOf(s.stopped).Runnable(s.queue[i]) {
      assert !search.Matches(s.queue[i]);
    }
  }

  lemma ReplyKeepsInv(s: Disk)
    requires Inv(s) && !s.library.expunged && s.worker.running.Some?
    ensures Inv(Idle(s).(log := s.log.Reply(multiset{s.worker.running.value})))
  {
  }

  lemma RegisterKeepsInv(s: Disk, memory: bool)
    requires Inv(s) && !s.library.expunged && s.worker.running.Some?
    ensures Inv(RegisterStep(Idle(s), s.worker.running.value, memory))
  {
    var e := s.worker.running.value;
    if e !in s.registered { assert multiset(s.registered + {e}) == multiset(s.registered) + multiset{e}; }
  }

  lemma StopKeepsInv(s: Disk, unit: byte, flag: bool)
    requires Inv(s) && !s.library.expunged && s.worker.processing
    ensures Inv(s.(stopped := SetStopped(s.stopped, unit, flag)))
  {
  }

  lemma EffectKeepsInv(s: Disk, e: Entry)
    requires Inv(s) && !s.library.expunged && s.worker.processing
    ensures Inv(Effect(s, e))
  {
    if e.command == CMD_FLUSH { FlushKeepsInv(s, e.unit); }
    if e.command == CMD_START { StopKeepsInv(s, e.unit, false); }
    if e.command == CMD_STOP { StopKeepsInv(s, e.unit, true); }
  }

  lemma FinishKeepsInv(s: Disk, memory: bool)
    requires Inv(s) && !s.library.expunged
    ensures Inv(FinishStep(s, memory))
  {
    if s.worker.running.Some? {
      var e := s.worker.running.value;
      if e.command == TD_ADDCHANGEINT {
        RegisterKeepsInv(s, memory);
      } else {
        ReplyKeepsInv(s);
        EffectKeepsInv(Idle(s).(log := s.log.Reply(multiset{e})), e);
      }
    }
  }

  lemma WithdrawKeepsInv(s: Disk, request: nat)
    requires Inv(s) && !s.library.expunged
    ensures Inv(WithdrawStep(s, request))
  {
    var es := Of(s.registered, request);
    ReleaseKeepsInv(s, es);
    UnqueueKeepsInv(ReleaseStep(s, es), request);
  }

  /** The library node says nothing about requests. */
  lemma SameRequests(s: Disk, r: Disk)
    requires Inv(s) && r == s.(library := r.library)
    ensures Inv(r)
  {
  }

  // One lemma for each case of Next.

  lemma BeginNext(s: Disk, e: Entry, memory: bool)
    requires Inv(s) && !s.library.expunged
    ensures Inv(Next(s, BeginIo(e, memory)))
  {
    assert Next(s, BeginIo(e, memory)) == BeginStep(s, e, memory);
    BeginKeepsInv(s, e, memory);
  }

  lemma WakeNext(s: Disk)
    requires Inv(s) && !s.library.expunged
    ensures Inv(Next(s, Wake))
  {
    assert Next(s, Wake) == WakeStep(s);
  }

  lemma FetchNext(s: Disk)
    requires Inv(s) && !s.library.expunged
    ensures Inv(Next(s, Fetch))
  {
    assert Next(s, Fetch) == DispatchStep(s);
    DispatchKeepsInv(s);
  }

  lemma FinishNext(s: Disk, memory: bool)
    requires Inv(s) && !s.library.expunged
    ensures Inv(Next(s, Finish(memory)))
  {
    assert Next(s, Finish(memory)) == FinishStep(s, memory);
    FinishKeepsInv(s, memory);
  }

  lemma AbortNext(s: Disk, unit: byte, request: nat)
    requires Inv(s) && !s.library.expunged
    ensures Inv(Next(s, AbortIo(unit, request)))
  {
    assert Next(s, AbortIo(unit, request)) == AbortStep(s, unit, request);
    AbortKeepsInv(s, unit, request);
  }

  lemma WithdrawNext(s: Disk, request: nat)
    requires Inv(s) && !s.library.expunged
    ensures Inv(Next(s, Withdraw(request)))
  {
    assert Next(s, Withdraw(request)) == WithdrawStep(s, request);
    WithdrawKeepsInv(s, request);
  }

  lemma OpenNext(s: Disk)
    requires Inv(s) && !s.library.expunged
    ensures Inv(Next(s, OpenDevice))
  {
    assert Next(s, OpenDevice) == OpenStep(s);
    SameRequests(s, OpenStep(s));
  }

  lemma CloseNext(s: Disk)
    requires Inv(s) && !s.library.expunged
    ensures Inv(Next(s, CloseDevice))
  {
    assert Next(s, CloseDevice) == CloseStep(s);
    SameRequests(s, CloseStep(s));
  }

  lemma WantNext(s: Disk)
    requires Inv(s) && !s.library.expunged
    ensures Inv(Next(s, WantExpunge))
  {
    assert Next(s, WantExpunge) == WantStep(s);
    SameRequests(s, WantStep(s));
  }

  lemma CheckNext(s: Disk)
    requires Inv(s) && !s.library.expunged
    ensures Inv(Next(s, CheckExpunge))
  {
    assert Next(s, CheckExpunge) == ExpungeStep(s);
    SameRequests(s, ExpungeStep(s));
  }

  lemma TeardownNext(s: Disk)
    requires Inv(s) && !s.library.expunged
    ensures Inv(Next(s, Teardown))
  {
    assert Next(s, Teardown) == TeardownStep(s);
    ReleaseKeepsInv(s, s.registered);
    SameRequests(ReleaseStep(s, s.registered), ReleaseStep(s, s.registered).(library := TeardownStep(s).library));
  }

  lemma {:induction false} StepKeepsInv(s: Disk, e: Event)
    requires Inv(s)
    ensures Inv(Next(s, e))
  {
    if s.library.expunged {
      assert Next(s, e) == s;
    } else {
      match e {
        case BeginIo(entry, memory) => BeginNext(s, entry, memory);
        case Wake => WakeNext(s);
        case Fetch => FetchNext(s);
        case Finish(memory) => FinishNext(s, memory);
        case AbortIo(unit, request) => AbortNext(s, unit, request);
        case OpenDevice => OpenNext(s);
        case Withdraw(request) => WithdrawNext(s, request);
        case CloseDevice => CloseNext(s);
        case WantExpunge => WantNext(s);
        case CheckExpunge => CheckNext(s);
        case Teardown => TeardownNext(s);
      }
    }
  }

  lemma {:induction false} RunKeepsInv(es: seq<Event>)
    ensures Inv(Run(es))
  {
    if es != [] {
      RunKeepsInv(es[..|es| - 1]);
      StepKeepsInv(Run(es[..|es| - 1]), es[|es| - 1]);
    }
  }

  // --------------------------------------------------------------- theorems

  /** No lost work. In every reachable state a worker that is neither signalled
      nor draining leaves behind only requests held by stopped units, and none of
      them is START or FLUSH. */
  lemma {:induction false} NoLostWork(es: seq<Event>, i: nat)
    requires var s := Run(es); !s.worker.signalled && !s.worker.draining && i < |s.queue|
    ensures var s := Run(es); var e := s.queue[i];
      && e.unit < |s.stopped| && s.stopped[e.unit] && e.command != CMD_START && e.command != CMD_FLUSH
      && !s.worker.processing && s.worker.running.None?
  {
    RunKeepsInv(es);
    assert !RuleOf(Run(es).stopped).Runnable(Run(es).queue[i]);
  }

  /** Every accepted request is waiting, running, replied, retained or given back, with
      the multiplicity with which it was accepted. */
  lemma {:induction false} EveryRequestAccounted(es: seq<Event>)
    ensures Conserved(Run(es))
  {
    RunKeepsInv(es);
  }

  // ---------------------------------------------------------------- unload

  function BalanceAfter(n: nat, e: Event): nat {
    match e
    case OpenDevice => n + 1
    case CloseDevice => if n > 0 then n - 1 else 0
    case _ => n
  }

  /** Opens of a run that no later close has undone. */
  function OpenBalance(es: seq<Event>): nat {
    if es == [] then 0 else BalanceAfter(OpenBalance(es[..|es| - 1]), es[|es| - 1])
  }

  /** What a step does to the open count, to history and to an expunge under way. */
  ghost predicate Moves(s: Disk, e: Event, r: Disk) {
    && r.library.openCount == BalanceAfter(s.library.openCount, e)
    && s.log.accepted <= r.log.accepted && Settled(s) <= Settled(r)
    && (!s.library.leaving && r.library.leaving ==> Quiet(r) && s.library.delayedExpunge)
    && (r.library.expunged ==> s.library.leaving && e == Teardown && (Quiet(r) <==> Quiet(s)))
  }

  lemma ReleaseMoves(s: Disk, es: set<Entry>)
    ensures Settled(ReleaseStep(s, es)) == Settled(s)
  {
    assert multiset(s.registered) == multiset(s.registered - es) + multiset(s.registered * es);
  }

  lemma BeginMoves(s: Disk, e: Entry, memory: bool)
    requires !s.library.expunged
    ensures Moves(s, BeginIo(e, memory), BeginStep(s, e, memory))
  {
    ReleaseMoves(s, {Registration(e.unit, e.request)});
  }

  lemma FinishMoves(s: Disk, memory: bool)
    requires !s.library.expunged
    ensures Moves(s, Finish(memory), FinishStep(s, memory))
  {
    if s.worker.running.Some? {
      var e, t := s.worker.running.value, Idle(s);
      RegisterMoves(t, e, memory);
      EffectMoves(t.(log := s.log.Reply(multiset{e})), e);
    }
  }

  lemma RegisterMoves(s: Disk, e: Entry, memory: bool)
    ensures var r := RegisterStep(s, e, memory);
      Settled(s) <= Settled(r) && r == s.(registered := r.registered, log := r.log) && r.log.accepted == s.log.accepted
  {
    if e !in s.registered { assert multiset(s.registered + {e}) == multiset(s.registered) + multiset{e}; }
  }

  lemma EffectMoves(s: Disk, e: Entry)
    ensures var r := Effect(s, e);
      && Settled(s) <= Settled(r) && r.log.accepted == s.log.accepted
      && r == s.(queue := r.queue, stopped := r.stopped, log := r.log)
  {
  }

  lemma AbortMoves(s: Disk, unit: byte, request: nat)
    requires !s.library.expunged
    ensures Moves(s, AbortIo(unit, request), AbortStep(s, unit, request))
  {
    var e := Registration(unit, request);
    if e in s.registered { assert multiset(s.registered) == multiset(s.registered - {e}) + multiset{e}; }
  }

  lemma WithdrawMoves(s: Disk, request: nat)
    requires !s.library.expunged
    ensures Moves(s, Withdraw(request), WithdrawStep(s, request))
  {
    ReleaseMoves(s, Of(s.registered, request));
  }

  lemma WakeMoves(s: Disk)
    requires !s.library.expunged
    ensures Moves(s, Wake, WakeStep(s))
  {
  }

  lemma FetchMoves(s: Disk)
    requires !s.library.expunged
    ensures Moves(s, Fetch, DispatchStep(s))
  {
  }

  lemma OpenMoves(s: Disk)
    requires !s.library.expunged
    ensures Moves(s, OpenDevice, OpenStep(s))
  {
  }

  lemma CloseMoves(s: Disk)
    requires !s.library.expunged
    ensures Moves(s, CloseDevice, CloseStep(s))
  {
  }

  lemma WantMoves(s: Disk)
    requires !s.library.expunged
    ensures Moves(s, WantExpunge, WantStep(s))
  {
  }

  lemma CheckMoves(s: Disk)
    requires !s.library.expunged && Awake(s)
    ensures Moves(s, CheckExpunge, ExpungeStep(s))
  {
  }

  lemma TeardownMoves(s: Disk)
    requires !s.library.expunged
    ensures Moves(s, Teardown, TeardownStep(s))
  {
    ReleaseMoves(s, s.registered);
  }

  lemma StepMoves(s: Disk, e: Event)
    requires Inv(s)
    ensures if s.library.expunged then Next(s, e) == s else Moves(s, e, Next(s, e))
  {
    if !s.library.expunged {
      match e {
        case BeginIo(entry, memory) => BeginMoves(s, entry, memory);
        case Wake => WakeMoves(s);
        case Fetch => FetchMoves(s);
        case Finish(memory) => FinishMoves(s, memory);
        case AbortIo(unit, request) => AbortMoves(s, unit, request);
        case OpenDevice => OpenMoves(s);
        case Withdraw(request) => WithdrawMoves(s, request);
        case CloseDevice => CloseMoves(s);
        case WantExpunge => WantMoves(s);
        case CheckExpunge => CheckMoves(s);
        case Teardown => TeardownMoves(s);
      }
    }
  }

  lemma {:induction false} RunMoves(s: Disk, es: seq<Event>)
    requires Inv(s)
    ensures var r := RunFrom(s, es);
      Inv(r) && s.log.accepted <= r.log.accepted && Settled(s) <= Settled(r)
    ensures s.library.openCount == 0 && !RunFrom(s, es).library.expunged ==>
      RunFrom(s, es).library.openCount == OpenBalance(es)
  {
    if es != [] {
      RunMoves(s, es[..|es| - 1]);
      StepMoves(RunFrom(s, es[..|es| - 1]), es[|es| - 1]);
      StepKeepsInv(RunFrom(s, es[..|es| - 1]), es[|es| - 1]);
    }
  }

  lemma {:induction false} RunSplit(pre: seq<Event>, mid: seq<Event>)
    ensures Run(pre + mid) == RunFrom(Run(pre), mid)
  {
    if mid == [] {
      assert pre + mid == pre;
    } else {
      assert (pre + mid)[..|pre + mid| - 1] == pre + mid[..|mid| - 1];
      RunSplit(pre, mid[..|mid| - 1]);
    }
  }

  /** What is true when the segment list is returned. s has just passed the locked
      check, `mid` is everything that happened before the memory is freed: the
      device is still quiet if and only if every open in between has been closed
      and as many requests were replied, retained or given back as were accepted. */
  lemma {:induction false} StillQuietIff(s: Disk, mid: seq<Event>)
    requires Inv(s) && Quiet(s) && !RunFrom(s, mid).library.expunged
    ensures var r := RunFrom(s, mid);
      Quiet(r) <==> OpenBalance(mid) == 0 && r.log.accepted - s.log.accepted == Settled(r) - Settled(s)
  {
    var r := RunFrom(s, mid);
    RunMoves(s, mid);
    assert s.log.accepted == Settled(s);
    var busy := multiset(r.queue) + Bag(r.worker.running);
    assert r.log.accepted == busy + Settled(r);
    assert busy == multiset{} <==> r.queue == [] && r.worker.running.None? by {
      if r.queue != [] { assert r.queue[0] in multiset(r.queue); }
      if r.worker.running.Some? { assert r.worker.running.value in busy; }
    }
    SameDifference(s.log.accepted, busy, Settled(r));
  }

  lemma SameDifference(base: multiset<Entry>, busy: multiset<Entry>, settled: multiset<Entry>)
    requires base <= settled
    ensures (busy + settled) - base == settled - base <==> busy == multiset{}
  {
    if (busy + settled) - base == settled - base {
      forall e: Entry ensures busy[e] == 0 {
        assert ((busy + settled) - base)[e] == (settled - base)[e];
      }
    }
  }

  /** Callers that neither open nor submit in between find the device quiet. */
  lemma {:induction false} UndisturbedUnload(s: Disk, mid: seq<Event>)
    requires Quiet(s) && forall i :: 0 <= i < |mid| ==> !mid[i].OpenDevice? && !mid[i].BeginIo?
    ensures Quiet(RunFrom(s, mid))
  {
    if mid != [] {
      UndisturbedUnload(s, mid[..|mid| - 1]);
      StaysQuiet(RunFrom(s, mid[..|mid| - 1]), mid[|mid| - 1]);
    }
  }

  lemma StaysQuiet(s: Disk, e: Event)
    requires Quiet(s) && !e.OpenDevice? && !e.BeginIo?
    ensures Quiet(Next(s, e))
  {
  }

  /** How every unload came about: expunge was wanted, at k a check found the device closed, its queue
      empty and its worker idle, from then on the expunge was on its way, and at j
      the memory was freed. StillQuietIff says what may have changed in between. */
  lemma {:induction false} ExpungeOnlyWhenIdle(es: seq<Event>) returns (k: nat, j: nat)
    requires Run(es).library.expunged
    ensures k < j < |es| && es[j] == Teardown && Run(es) == Next(Run(es[..j]), es[j])
    ensures Run(es[..k]).library.delayedExpunge
    ensures Run(es[..k + 1]).library.leaving && Quiet(Run(es[..k + 1])) && Inv(Run(es[..k + 1]))
    ensures Run(es[..j]) == RunFrom(Run(es[..k + 1]), es[k + 1..j]) && !Run(es[..j]).library.expunged
    ensures Quiet(Run(es)) <==> Quiet(Run(es[..j]))
  {
    j := UnloadedAt(es);
    k := LeavingSince(es[..j]);
    assert es[..j][..k + 1] == es[..k + 1] && es[..j][..k] == es[..k];
    RunKeepsInv(es[..k + 1]);
    RunsOn(es, k + 1, j);
    UnloadKeepsQuiet(es, j);
  }

  lemma RunsOn(es: seq<Event>, i: nat, j: nat)
    requires i <= j <= |es|
    ensures Run(es[..j]) == RunFrom(Run(es[..i]), es[i..j])
  {
    assert es[..j] == es[..i] + es[i..j];
    RunSplit(es[..i], es[i..j]);
  }

  lemma UnloadKeepsQuiet(es: seq<Event>, j: nat)
    requires j < |es| && Run(es) == Next(Run(es[..j]), es[j])
    requires !Run(es[..j]).library.expunged && Run(es).library.expunged
    ensures Quiet(Run(es)) <==> Quiet(Run(es[..j]))
  {
    RunKeepsInv(es[..j]);
    StepMoves(Run(es[..j]), es[j]);
  }

  lemma {:induction false} UnloadedAt(es: seq<Event>) returns (j: nat)
    requires Run(es).library.expunged
    ensures j < |es| && es[j] == Teardown && Run(es) == Next(Run(es[..j]), es[j])
    ensures Run(es[..j]).library.leaving && !Run(es[..j]).library.expunged
  {
    j := |es| - 1;
    RunKeepsInv(es[..j]);
    StepMoves(Run(es[..j]), es[j]);
    if Run(es[..j]).library.expunged {
      var n := j;
      j := UnloadedAt(es[..n]);
      assert es[..n][..j] == es[..j];
    }
  }

  lemma {:induction false} LeavingSince(es: seq<Event>) returns (k: nat)
    requires Run(es).library.leaving
    ensures k < |es| && Run(es[..k + 1]).library.leaving && Quiet(Run(es[..k + 1]))
    ensures Run(es[..k]).library.delayedExpunge
  {
    var n := |es| - 1;
    RunKeepsInv(es[..n]);
    StepMoves(Run(es[..n]), es[n]);
    if Run(es[..n]).library.leaving {
      k := LeavingSince(es[..n]);
      assert es[..n][..k + 1] == es[..k + 1] && es[..n][..k] == es[..k];
    } else {
      k := n;
      assert es[..n + 1] == es;
    }
  }

  /** The window is real: an open and a read request between check and teardown, and
      the segment list is returned under an open device with a queued request. */
  lemma {:induction false} UnloadUnderOpenDevice(e: Entry)
    requires e.unit < UNIT_COUNT && !Immediate(e.command) && !Status(e.command)
    ensures var s := Run([WantExpunge, CheckExpunge, OpenDevice, BeginIo(e, true), Teardown]);
      s.library.expunged && s.library.openCount == 1 && s.queue == [e] && s.log.replied == multiset{}
  {
    var es := Then([], WantExpunge);
    es := Then(es, CheckExpunge);
    assert Run(es) == INITIAL.(library := Library(0, false, true, false));
    es := Then(es, OpenDevice);
    es := Then(es, BeginIo(e, true));
    assert Run(es).queue == [e];
    es := Then(es, Teardown);
    assert es == [WantExpunge, CheckExpunge, OpenDevice, BeginIo(e, true), Teardown];
  }

  lemma Then(es: seq<Event>, e: Event) returns (r: seq<Event>)
    ensures r == es + [e] && Run(r) == Next(Run(es), e)
  {
    r := es + [e];
    assert r[..|es|] == es;
  }

  // -------------------------------------------------- stopping and starting

  /** The moments at which a command of the unit is finished. */
  ghost function Finishing(es: seq<Event>, command: u16, unit: byte): nat -> bool {
    (i: nat) => i < |es| && es[i].Finish? && FinishesIn(Run(es[..i]), command, unit)
  }

  predicate FinishesIn(s: Disk, command: u16, unit: byte) {
    && !s.library.expunged && s.worker.running.Some?
    && s.worker.running.value.command == command && s.worker.running.value.unit == unit
  }

  lemma FinishingBefore(es: seq<Event>, n: nat, command: u16, unit: byte, i: nat)
    requires i < n <= |es|
    ensures Finishing(es[..n], command, unit)(i) == Finishing(es, command, unit)(i)
  {
    assert es[..n][..i] == es[..i];
  }

  /** A unit is stopped if and only if a CMD_STOP for it has been processed and no
      CMD_START since. */
  lemma {:induction false} StoppedIff(es: seq<Event>, unit: byte)
    requires unit < UNIT_COUNT
    ensures |Run(es).stopped| == UNIT_COUNT
    ensures Run(es).stopped[unit] <==> Since(|es|, Finishing(es, CMD_STOP, unit), Finishing(es, CMD_START, unit))
  {
    if es != [] {
      var n := |es| - 1;
      var on, off := Finishing(es, CMD_STOP, unit), Finishing(es, CMD_START, unit);
      StoppedIff(es[..n], unit);
      forall i: nat | i < n
        ensures on(i) == Finishing(es[..n], CMD_STOP, unit)(i) && off(i) == Finishing(es[..n], CMD_START, unit)(i)
      {
        FinishingBefore(es, n, CMD_STOP, unit, i);
        FinishingBefore(es, n, CMD_START, unit, i);
      }
      SinceSame(n, on, off, Finishing(es[..n], CMD_STOP, unit), Finishing(es[..n], CMD_START, unit));
      SinceStep(n, on, off);
      StoppedStep(Run(es[..n]), es[n], unit);
    }
  }

  lemma StoppedStep(s: Disk, e: Event, unit: byte)
    requires |s.stopped| == UNIT_COUNT && unit < UNIT_COUNT
    ensures |Next(s, e).stopped| == UNIT_COUNT
    ensures Next(s, e).stopped[unit] ==
      if e.Finish? && FinishesIn(s, CMD_STOP, unit) then true
      else if e.Finish? && FinishesIn(s, CMD_START, unit) then false else s.stopped[unit]
  {
  }

  /** After a processed CMD_STOP (the event at i) and before the next processed CMD_START
      the worker takes no request of the unit but CMD_START and CMD_FLUSH. */
  lemma {:induction false} HeldWhileStopped(es: seq<Event>, i: nat, j: nat, e: Entry)
    requires i < j < |es| && Finishing(es, CMD_STOP, e.unit)(i) && e.unit < UNIT_COUNT
    requires forall k: nat :: i < k < j ==> !Finishing(es, CMD_START, e.unit)(k)
    requires Run(es[..j]).worker.running != Some(e) && Next(Run(es[..j]), es[j]).worker.running == Some(e)
    ensures e.command == CMD_START || e.command == CMD_FLUSH
  {
    StillStopped(es, i, j, e.unit);
    StoppedIff(es[..j], e.unit);
    TakenIsRunnable(Run(es[..j]), es[j], e);
  }

  lemma StillStopped(es: seq<Event>, i: nat, j: nat, unit: byte)
    requires i < j <= |es| && Finishing(es, CMD_STOP, unit)(i)
    requires forall k: nat :: i < k < j ==> !Finishing(es, CMD_START, unit)(k)
    ensures Since(j, Finishing(es[..j], CMD_STOP, unit), Finishing(es[..j], CMD_START, unit))
  {
    FinishingBefore(es, j, CMD_STOP, unit, i);
    forall k: nat | i < k < j ensures !Finishing(es[..j], CMD_START, unit)(k) {
      FinishingBefore(es, j, CMD_START, unit, k);
    }
  }

  /** What the worker starts to process was waiting, and its unit lets it through. */
  lemma TakenIsRunnable(s: Disk, event: Event, e: Entry)
    requires s.worker.running != Some(e) && Next(s, event).worker.running == Some(e)
    ensures event.Fetch? && e in s.queue && e.unit < |s.stopped|
    ensures s.stopped[e.unit] ==> e.command == CMD_START || e.command == CMD_FLUSH
  {
    if !s.library.expunged && event.Fetch? {
      assert Search.Dispatch(RuleOf(s.stopped)).Matches(e);
    }
  }

  // ---------------------------------------------------- change registrations

  /** TD_ADDCHANGEINT is processed for e and there is memory to retain it. */
  predicate Retains(s: Disk, event: Event, e: Entry) {
    event.Finish? && event.memory && FinishesIn(s, TD_ADDCHANGEINT, e.unit) && s.worker.running == Some(e)
  }

  /** Whatever takes a registration away: TD_REMCHANGEINT or AbortIO for the same unit and
      request, a close with that request, the end of the device. */
  predicate LetsGo(s: Disk, event: Event, e: Entry) {
    !s.library.expunged && match event
    case BeginIo(entry, _) =>
      entry.command == TD_REMCHANGEINT && entry.unit == e.unit < UNIT_COUNT && entry.request == e.request
    case AbortIo(unit, request) => unit == e.unit < UNIT_COUNT && request == e.request
    case Withdraw(request) => request == e.request
    case Teardown => s.library.leaving
    case _ => false
  }

  ghost function Retaining(es: seq<Event>, e: Entry): nat -> bool {
    (i: nat) => i < |es| && Retains(Run(es[..i]), es[i], e)
  }

  ghost function LettingGo(es: seq<Event>, e: Entry): nat -> bool {
    (i: nat) => i < |es| && LetsGo(Run(es[..i]), es[i], e)
  }

  /** A change request is retained if and only if it has been processed with memory to
      retain it, and neither removed nor aborted nor closed since. */
  lemma {:induction false} RegisteredIff(es: seq<Event>, e: Entry)
    ensures e in Run(es).registered <==> Since(|es|, Retaining(es, e), LettingGo(es, e))
    ensures e in Run(es).registered ==> e.command == TD_ADDCHANGEINT
  {
    if es != [] {
      var n := |es| - 1;
      RegisteredIff(es[..n], e);
      forall i: nat | i < n
        ensures Retaining(es, e)(i) == Retaining(es[..n], e)(i) && LettingGo(es, e)(i) == LettingGo(es[..n], e)(i)
      {
        assert es[..n][..i] == es[..i];
      }
      SinceSame(n, Retaining(es, e), LettingGo(es, e), Retaining(es[..n], e), LettingGo(es[..n], e));
      SinceStep(n, Retaining(es, e), LettingGo(es, e));
      RegisteredStep(Run(es[..n]), es[n], e);
    }
  }

  lemma RegisteredStep(s: Disk, event: Event, e: Entry)
    requires e in s.registered ==> e.command == TD_ADDCHANGEINT
    ensures e in Next(s, event).registered <==> Retains(s, event, e) || (e in s.registered && !LetsGo(s, event, e))
    ensures e in Next(s, event).registered ==> e.command == TD_ADDCHANGEINT
  {
  }

  // ------------------------------------------------------- what callers see

  /** The requests of a unit that wait. */
  ghost function WaitingOf(s: Disk, unit: byte): multiset<Entry> { multiset(OfUnit(s.queue, unit)) }

  /** The entry that an abort or a close finds in the queue: the oldest of the request. */
  ghost predicate OldestOf(q: seq<Entry>, request: nat, k: nat) {
    k < |q| && q[k].request == request && forall i :: 0 <= i < k ==> q[i].request != request
  }

  lemma {:induction false} FlushedBag(q: seq<Entry>, unit: byte)
    ensures multiset(Flushed(q, unit)) + multiset(OfUnit(q, unit)) == multiset(q)
    decreases |q|
  {
    var k := Find(q, ByUnit(unit));
    if k < |q| {
      HitAndRest(q, ByUnit(unit));
      FlushedBag(Without(q, ByUnit(unit)), unit);
      forall i | 0 <= i < k ensures q[..k][i].unit != unit { assert !ByUnit(unit).Matches(q[i]); }
      TakeOldest(q, k, unit);
      assert [q[k]][..0] == [];
      assert OfUnit([q[k]], unit) == [q[k]];
    } else {
      forall i | 0 <= i < |q| ensures q[i].unit != unit { assert !ByUnit(unit).Matches(q[i]); }
      OfUnitNone(q, unit);
    }
  }

  /** CMD_FLUSH, on the spot or by the worker: every waiting request of the unit is
      replied, no other, and none of the unit waits any more. */
  lemma FlushReplies(s: Disk, unit: byte)
    ensures FlushStep(s, unit).log == s.log.(replied := s.log.replied + WaitingOf(s, unit))
    ensures multiset(FlushStep(s, unit).queue) + WaitingOf(s, unit) == multiset(s.queue)
    ensures WaitingOf(FlushStep(s, unit), unit) == multiset{}
  {
    FlushedBag(s.queue, unit);
    FlushedLeavesOthers(s.queue, unit, if unit == 0 then 1 else 0);
  }

  /** BeginIO puts into the queue exactly the requests of valid units for which there is
      memory, except those completed on the spot: removal of a change interrupt, flush
      and eject state always, status commands while the worker is idle. What it accepts
      waits at the end, with the worker signalled. */
  lemma AcceptedIff(s: Disk, e: Entry, memory: bool)
    requires !s.library.expunged
    ensures var r := Next(s, BeginIo(e, memory));
      if e.unit < UNIT_COUNT && memory && e.command !in {8, 12, 21}
         && (e.command in {13, 14, 15} ==> s.worker.processing)
      then r.queue == s.queue + [e] && r.log.accepted == s.log.accepted + multiset{e} && r.worker.signalled
           && r.log.replied == s.log.replied
      else r.log.accepted == s.log.accepted && (e.command != 8 || e.unit >= UNIT_COUNT ==> r.queue == s.queue)
  {
  }

  /** A flush by BeginIO takes effect whatever the worker does. */
  lemma FlushAtOnce(s: Disk, e: Entry, memory: bool)
    requires !s.library.expunged && e.command == 8 && e.unit < UNIT_COUNT
    ensures var r := Next(s, BeginIo(e, memory));
      && r.log.replied == s.log.replied + WaitingOf(s, e.unit) && WaitingOf(r, e.unit) == multiset{}
      && multiset(r.queue) + WaitingOf(s, e.unit) == multiset(s.queue)
  {
    FlushReplies(s, e.unit);
  }

  /** The worker settles exactly the request it was processing. A change request is
      retained if there is memory, given back if it was retained already, and replied
      otherwise. */
  lemma RegisterSettles(s: Disk, memory: bool)
    requires !s.library.expunged && s.worker.running.Some? && s.worker.running.value.command == TD_ADDCHANGEINT
    ensures var e, r := s.worker.running.value, Next(s, Finish(memory));
      && r.worker.running.None? && r.queue == s.queue && r.log.accepted == s.log.accepted
      && (if e in s.registered then r.registered == s.registered && r.log == s.log.(released := r.log.released)
                                    && r.log.released == s.log.released + multiset{e}
          else if memory then r.registered == s.registered + {e} && r.log == s.log
          else r.registered == s.registered && r.log == s.log.(replied := s.log.replied + multiset{e}))
  {
  }

  /** Any other request is replied, and CMD_FLUSH replies with it every waiting request of
      its unit, no other. */
  lemma FinishReplies(s: Disk, memory: bool)
    requires !s.library.expunged && s.worker.running.Some? && s.worker.running.value.command != TD_ADDCHANGEINT
    ensures var e, r := s.worker.running.value, Next(s, Finish(memory));
      && r.worker.running.None? && r.registered == s.registered
      && (if e.command == CMD_FLUSH
          then r.log == s.log.(replied := s.log.replied + multiset{e} + WaitingOf(s, e.unit))
               && multiset(r.queue) + WaitingOf(s, e.unit) == multiset(s.queue)
          else r.log == s.log.(replied := s.log.replied + multiset{e}) && r.queue == s.queue)
  {
    var e := s.worker.running.value;
    if e.command == CMD_FLUSH { FlushReplies(Idle(s).(log := s.log.Reply(multiset{e})), e.unit); }
  }

  /** AbortIO replies the retained change request of that unit and request, if there is
      one, otherwise the oldest queued entry of the request, and nothing else. */
  lemma AbortReplies(s: Disk, unit: byte, request: nat)
    requires !s.library.expunged
    ensures var r, e := Next(s, AbortIo(unit, request)), Registration(unit, request);
      if unit < UNIT_COUNT && e in s.registered then r.log.replied == s.log.replied + multiset{e} && r.queue == s.queue
      else RepliedOldest(s, request, r)
  {
    if !(unit < UNIT_COUNT && Registration(unit, request) in s.registered) {
      UnqueueReplies(s, request);
      assert Next(s, AbortIo(unit, request)) == UnqueueStep(s, request);
    }
  }

  /** The oldest queued entry of the request is replied, if there is one. */
  ghost predicate RepliedOldest(s: Disk, request: nat, r: Disk) {
    && (forall k: nat :: OldestOf(s.queue, request, k) ==>
          r.queue == s.queue[..k] + s.queue[k + 1..] && r.log.replied == s.log.replied + multiset{s.queue[k]})
    && ((forall i :: 0 <= i < |s.queue| ==> s.queue[i].request != request) ==>
          r.queue == s.queue && r.log.replied == s.log.replied)
  }

  lemma UnqueueReplies(s: Disk, request: nat)
    ensures RepliedOldest(s, request, UnqueueStep(s, request))
  {
    var f := Find(s.queue, ByRequest(request));
    forall k: nat | OldestOf(s.queue, request, k) ensures k == f {
      assert ByRequest(request).Matches(s.queue[k]);
      assert f < |s.queue| ==> ByRequest(request).Matches(s.queue[f]);
    }
    if f < |s.queue| { assert ByRequest(request).Matches(s.queue[f]); }
  }

  /** A close with a request gives back its change registrations, without a reply, and
      replies its oldest queued entry. */
  lemma WithdrawReplies(s: Disk, request: nat)
    requires !s.library.expunged
    ensures var r := Next(s, Withdraw(request));
      && RepliedOldest(s, request, r) && (forall e :: e in r.registered ==> e.request != request)
      && forall e :: e in s.registered && e.request != request ==> e in r.registered
  {
    UnqueueReplies(ReleaseStep(s, Of(s.registered, request)), request);
  }

  // --------------------------------------------------------------- progress

  /** What the worker does by itself. */
  predicate ByWorker(e: Event) { e.Wake? || e.Fetch? || e.Finish? }

  predicate AllByWorker(es: seq<Event>) { forall i :: 0 <= i < |es| ==> ByWorker(es[i]) }

  predicate Rests(s: Disk) { !s.worker.signalled && !s.worker.draining }

  /** A worker at rest does nothing unasked. */
  lemma RestsUnasked(s: Disk, e: Event)
    requires Inv(s) && Rests(s) && ByWorker(e)
    ensures Next(s, e) == s
  {
  }

  function WorkerMove(s: Disk): Event {
    if s.worker.running.Some? then Finish(true) else if s.worker.draining then Fetch else Wake
  }

  /** Steps the worker still has to make, at most. */
  function Work(s: Disk): nat {
    4 * |s.queue| + (if s.worker.running.Some? then 3 else 0)
    + (if s.worker.signalled then 2 else 0) + (if s.worker.draining then 1 else 0)
  }

  lemma LessWork(s: Disk)
    requires Inv(s) && !s.library.expunged && !Rests(s)
    ensures var r := Next(s, WorkerMove(s)); !r.library.expunged && Work(r) < Work(s)
  {
    if s.worker.running.Some? {
      FlushedIsPart(s.queue, s.worker.running.value.unit);
    } else {
      assert s.worker.draining ==> Next(s, WorkerMove(s)) == DispatchStep(s);
    }
  }

  /** The worker alone comes to rest, from every state of a loaded device; then nothing
      is being processed, and what waits are requests of stopped units other than
      CMD_START and CMD_FLUSH. */
  lemma {:induction false} ServesAll(s: Disk) returns (es: seq<Event>)
    requires Inv(s) && !s.library.expunged
    ensures AllByWorker(es)
    ensures var r := RunFrom(s, es);
      && Inv(r) && Rests(r) && r.worker.running.None? && !r.worker.processing && !r.library.expunged
      && forall i :: 0 <= i < |r.queue| ==> r.stopped[r.queue[i].unit] && r.queue[i].command !in {CMD_START, CMD_FLUSH}
    decreases Work(s)
  {
    if Rests(s) {
      es := [];
      forall i | 0 <= i < |s.queue|
        ensures s.stopped[s.queue[i].unit] && s.queue[i].command !in {CMD_START, CMD_FLUSH}
      {
        assert !RuleOf(s.stopped).Runnable(s.queue[i]);
      }
    } else {
      var e := WorkerMove(s);
      StepKeepsInv(s, e);
      LessWork(s);
      var rest := ServesAll(Next(s, e));
      RunAfter(s, e, rest);
      es := [e] + rest;
    }
  }

  lemma RunSnoc(s: Disk, es: seq<Event>, e: Event)
    ensures RunFrom(s, es + [e]) == Next(RunFrom(s, es), e)
  {
    assert (es + [e])[..|es|] == es;
  }

  /** One more step in front of a run. */
  lemma {:induction false} RunAfter(s: Disk, e: Event, es: seq<Event>)
    ensures RunFrom(s, [e] + es) == RunFrom(Next(s, e), es)
  {
    if es == [] {
      RunSnoc(s, [], e);
      assert [e] + es == [] + [e];
    } else {
      var init, last := es[..|es| - 1], es[|es| - 1];
      RunAfter(s, e, init);
      RunSnoc(s, [e] + init, last);
      RunSnoc(Next(s, e), init, last);
      assert [e] + es == ([e] + init) + [last] && es == init + [last];
    }
  }

  /** A closed device at rest with nothing waiting unloads when asked to: no registration
      is kept and every accepted request is settled. */
  lemma {:induction false} QuietDeviceUnloads(s: Disk)
    requires Inv(s) && !s.library.expunged && Rests(s) && Quiet(s)
    ensures var r := RunFrom(s, [WantExpunge, CheckExpunge, Teardown]);
      r.library.expunged && r.registered == {} && r.log.accepted == r.log.replied + r.log.released
  {
    UnloadSteps(s);
    RunAfter(s, WantExpunge, [CheckExpunge, Teardown]);
    RunAfter(WantStep(s), CheckExpunge, [Teardown]);
    RunAfter(ExpungeStep(WantStep(s)), Teardown, []);
    assert [WantExpunge] + [CheckExpunge, Teardown] == [WantExpunge, CheckExpunge, Teardown];
    assert [CheckExpunge] + [Teardown] == [CheckExpunge, Teardown] && [Teardown] + [] == [Teardown];
    ReleaseMoves(s, s.registered);
  }

  lemma UnloadSteps(s: Disk)
    requires !s.library.expunged && Quiet(s) && !s.worker.processing
    ensures Next(s, WantExpunge) == WantStep(s) && Next(WantStep(s), CheckExpunge) == ExpungeStep(WantStep(s))
    ensures var t := ExpungeStep(WantStep(s));
      && t == s.(library := s.library.(delayedExpunge := false, leaving := true))
      && Next(t, Teardown) == TeardownStep(t)
      && TeardownStep(t) == ReleaseStep(s, s.registered).(library := TeardownStep(t).library)
      && TeardownStep(t).library.expunged
  {
  }

  /** An expunge that could not be carried out is remembered until the device is opened
      again or a check passes. */
  predicate Forgets(s: Disk, e: Event) {
    !s.library.expunged && (e.OpenDevice? || (e.CheckExpunge? && s.library.openCount == 0 && s.queue == []
                                              && !s.worker.processing))
  }

  predicate Remembers(s: Disk, e: Event) { !s.library.expunged && e.WantExpunge? }

  ghost function Remembering(es: seq<Event>): nat -> bool {
    (i: nat) => i < |es| && Remembers(Run(es[..i]), es[i])
  }

  ghost function Forgetting(es: seq<Event>): nat -> bool { (i: nat) => i < |es| && Forgets(Run(es[..i]), es[i]) }

  lemma {:induction false} DeferredIff(es: seq<Event>)
    ensures Run(es).library.delayedExpunge <==> Since(|es|, Remembering(es), Forgetting(es))
  {
    if es != [] {
      var n := |es| - 1;
      DeferredIff(es[..n]);
      forall i: nat | i < n
        ensures Remembering(es)(i) == Remembering(es[..n])(i) && Forgetting(es)(i) == Forgetting(es[..n])(i)
      {
        assert es[..n][..i] == es[..i];
      }
      SinceSame(n, Remembering(es), Forgetting(es), Remembering(es[..n]), Forgetting(es[..n]));
      SinceStep(n, Remembering(es), Forgetting(es));
      DeferredStep(Run(es[..n]), es[n]);
    }
  }

  lemma DeferredStep(s: Disk, e: Event)
    ensures Next(s, e).library.delayedExpunge <==>
      Remembers(s, e) || (s.library.delayedExpunge && !Forgets(s, e))
  {
  }

  // ------------------------------------------------------------- the device

  /** On the way to a flushed queue, `out` has been taken from q. */
  ghost predicate Taking(q: seq<Entry>, unit: byte, out: multiset<Entry>, r: seq<Entry>) {
    out + multiset(r) == multiset(q) && Flushed(r, unit) == Flushed(q, unit)
  }

  lemma StillTaking(q: seq<Entry>, unit: byte, out: multiset<Entry>, r: seq<Entry>, more: multiset<Entry>,
                    left: seq<Entry>)
    requires Taking(q, unit, out, r) && Taking(r, unit, more, left)
    ensures Taking(q, unit, out + more, left)
  {
  }

  lemma TookOne(q: seq<Entry>, unit: byte, hit: Option<Entry>, r: seq<Entry>)
    requires Took(q, ByUnit(unit), hit, r)
    ensures Taking(q, unit, Bag(hit), r)
    ensures if hit.Some? then |r| < |q| else r == q == Flushed(r, unit)
  {
    HitAndRest(q, ByUnit(unit));
  }

  lemma Difference(a: multiset<Entry>, b: multiset<Entry>, whole: multiset<Entry>)
    requires a + b == whole
    ensures a == whole - b
  {
  }

  /** A search took its first match out of q and left r. */
  ghost predicate Took(q: seq<Entry>, search: Search, hit: Option<Entry>, r: seq<Entry>) {
    r == Without(q, search) && hit == if Find(q, search) < |q| then Some(q[Find(q, search)]) else None
  }

  lemma TookConserves(q: seq<Entry>, search: Search, hit: Option<Entry>, r: seq<Entry>)
    requires Took(q, search, hit, r)
    ensures Bag(hit) == multiset(Hit(q, search)) && Bag(hit) + multiset(r) == multiset(q)
    ensures |r| + |Bag(hit)| == |q|
  {
    HitAndRest(q, search);
  }

  /** The linked queue and, as a value, what is in it. */
  class RequestQueue {
    const list: Queue
    ghost var waiting: seq<Entry>

    ghost predicate Valid()
      reads this, list, list.footprint
    {
      list.Valid() && waiting == list.Contents() && (waiting == [] <==> list.head == null)
    }

    constructor ()
      ensures Valid() && fresh(list) && list.footprint == {} && waiting == []
    {
      list := new Queue();
      waiting := [];
    }

    method Enqueue(e: Entry)
      requires Valid()
      modifies `waiting, list, list.footprint
      ensures Valid() && waiting == old(waiting) + [e]
      ensures fresh(list.footprint - old(list.footprint))
    {
      var node := new Node();
      list.Append(node, e.request, e.unit, e.command);
      waiting := waiting + [e];
    }

    method Dispatch(rule: Rule) returns (hit: Option<Entry>)
      requires Valid()
      modifies `waiting, list, list.footprint
      ensures Valid() && Took(old(waiting), Search.Dispatch(rule), hit, waiting)
      ensures list.footprint == old(list.footprint)
    {
      var node := list.Next(rule);
      hit := if node == null then None else Some(node.Value());
      waiting := Without(waiting, Search.Dispatch(rule));
    }

    method Remove(request: nat) returns (hit: Option<Entry>)
      requires Valid()
      modifies `waiting, list, list.footprint
      ensures Valid() && Took(old(waiting), ByRequest(request), hit, waiting)
      ensures list.footprint == old(list.footprint)
    {
      var node := list.RemoveRequest(request);
      hit := if node == null then None else Some(node.Value());
      waiting := Without(waiting, ByRequest(request));
    }

    method TakeUnit(unit: byte) returns (hit: Option<Entry>)
      requires Valid()
      modifies `waiting, list, list.footprint
      ensures Valid() && Took(old(waiting), ByUnit(unit), hit, waiting)
      ensures list.footprint == old(list.footprint)
    {
      var node := list.TakeUnit(unit);
      hit := if node == null then None else Some(node.Value());
      waiting := Without(waiting, ByUnit(unit));
    }

    /** The loop of abort_queued_unit; `out` are the requests it takes out. */
    method TakeAllOf(unit: byte) returns (ghost out: multiset<Entry>)
      requires Valid()
      modifies `waiting, list, list.footprint
      ensures Valid() && waiting == Flushed(old(waiting), unit)
      ensures out == multiset(old(waiting)) - multiset(waiting)
      ensures list.footprint == old(list.footprint)
    {
      out := multiset{};
      var hit := TakeOne(unit);
      while hit.Some?
        invariant Valid() && list.footprint == old(list.footprint)
        invariant Taking(old(waiting), unit, out + Bag(hit), waiting)
        invariant hit.None? ==> waiting == Flushed(waiting, unit)
        decreases |waiting|, hit.Some?
      {
        out := out + Bag(hit);
        ghost var q := waiting;
        hit := TakeOne(unit);
        StillTaking(old(waiting), unit, out, q, Bag(hit), waiting);
      }
      Difference(out, multiset(waiting), multiset(old(waiting)));
    }

    method TakeOne(unit: byte) returns (hit: Option<Entry>)
      requires Valid()
      modifies `waiting, list, list.footprint
      ensures Valid() && list.footprint == old(list.footprint)
      ensures Taking(old(waiting), unit, Bag(hit), waiting)
      ensures if hit.Some? then |waiting| < |old(waiting)| else waiting == Flushed(waiting, unit)
    {
      ghost var q := waiting;
      hit := TakeUnit(unit);
      TookOne(q, unit, hit, waiting);
    }
  }

  /** The device base over the linked queue. Each method is one Disable/Enable
      section (or a step of the worker) and performs exactly its step. */
  class DiskDevice {
    const queue: RequestQueue
    var stopped: seq<bool>
    var ioProcessing: bool
    var openCount: nat
    var delayedExpunge: bool
    var signalled: bool
    var draining: bool
    var running: Option<Entry>
    var registered: set<Entry>
    var leaving: bool
    var expunged: bool
    ghost var log: History

    ghost predicate Valid()
      reads this, queue, queue.list, queue.list.footprint
    {
      queue.Valid()
    }

    ghost function State(): Disk
      reads this, queue
    {
      Disk(queue.waiting, stopped, Worker(ioProcessing, signalled, draining, running),
           Library(openCount, delayedExpunge, leaving, expunged), registered, log)
    }

    constructor ()
      ensures Valid() && State() == INITIAL && fresh(queue) && fresh(queue.list)
    {
      queue := new RequestQueue();
      stopped := UNSTOPPED;
      ioProcessing, openCount, delayedExpunge, signalled, draining := false, 0, false, false, false;
      running, registered, leaving, expunged := None, {}, false, false;
      log := History(multiset{}, multiset{}, multiset{});
    }

    /** abort_queued_unit: every queued request of the unit is replied. */
    method AbortQueuedUnit(unit: byte)
      requires Valid()
      modifies `log, queue`waiting, queue.list, queue.list.footprint
      ensures Valid() && queue.waiting == Flushed(old(queue.waiting), unit)
      ensures log == old(log).Reply(multiset(old(queue.waiting)) - multiset(queue.waiting))
      ensures queue.list.footprint == old(queue.list.footprint)
    {
      ghost var out := queue.TakeAllOf(unit);
      log := log.Reply(out);
    }

    method BeginIO(e: Entry, memory: bool)
      requires Valid() && !expunged
      modifies `ioProcessing, `signalled, `registered, `log, queue`waiting, queue.list, queue.list.footprint
      ensures Valid() && State() == BeginStep(old(State()), e, memory)
      ensures fresh(queue.list.footprint - old(queue.list.footprint))
    {
      if e.unit >= UNIT_COUNT { return; }
      if e.command == TD_REMCHANGEINT {
        Release({Registration(e.unit, e.request)});
        return;
      }
      if e.command == CMD_FLUSH {
        AbortQueuedUnit(e.unit);
        return;
      }
      if Immediate(e.command) || (Status(e.command) && !ioProcessing) || !memory { return; }
      ioProcessing, signalled, log := true, true, log.Accept(e);
      queue.Enqueue(e);
    }

    /** Registrations are dropped without a reply. */
    method Release(es: set<Entry>)
      requires Valid()
      modifies `registered, `log
      ensures Valid() && State() == ReleaseStep(old(State()), es)
    {
      log := log.Release(registered * es);
      registered := registered - es;
    }

    /** The locked section of worker_drain. */
    method FetchNext()
      requires Valid() && !expunged && draining && running.None?
      modifies `running, `ioProcessing, `draining, queue`waiting, queue.list, queue.list.footprint
      ensures Valid() && State() == DispatchStep(old(State()))
      ensures queue.list.footprint == old(queue.list.footprint)
    {
      running := queue.Dispatch(RuleOf(stopped));
      if running.None? { ioProcessing, draining := false, false; }
    }

    /** The end of device_process_request. */
    method FinishRequest(memory: bool)
      requires Valid() && !expunged && running.Some?
      modifies `running, `registered, `log, `stopped, queue`waiting, queue.list, queue.list.footprint
      ensures Valid() && State() == FinishStep(old(State()), memory)
      ensures queue.list.footprint == old(queue.list.footprint)
    {
      var e := running.value;
      running := None;
      if e.command == TD_ADDCHANGEINT {
        Register(e, memory);
      } else {
        log := log.Reply(multiset{e});
        ApplyEffect(e);
      }
    }

    method Register(e: Entry, memory: bool)
      requires Valid()
      modifies `registered, `log
      ensures Valid() && State() == RegisterStep(old(State()), e, memory)
    {
      if e in registered { log := log.Release({e}); }
      else if memory { registered := registered + {e}; }
      else { log := log.Reply(multiset{e}); }
    }

    method ApplyEffect(e: Entry)
      requires Valid()
      modifies `log, `stopped, queue`waiting, queue.list, queue.list.footprint
      ensures Valid() && State() == Effect(old(State()), e)
      ensures queue.list.footprint == old(queue.list.footprint)
    {
      if e.command == CMD_START { stopped := SetStopped(stopped, e.unit, false); }
      else if e.command == CMD_STOP { stopped := SetStopped(stopped, e.unit, true); }
      else if e.command == CMD_FLUSH { AbortQueuedUnit(e.unit); }
    }

    /** A queued request is taken out and replied. */
    method Unqueue(request: nat)
      requires Valid()
      modifies `log, queue`waiting, queue.list, queue.list.footprint
      ensures Valid() && State() == UnqueueStep(old(State()), request)
      ensures queue.list.footprint == old(queue.list.footprint)
    {
      ghost var q := queue.waiting;
      var hit := queue.Remove(request);
      TookConserves(q, ByRequest(request), hit, queue.waiting);
      log := log.Reply(Bag(hit));
    }

    method AbortIO(unit: byte, request: nat)
      requires Valid() && !expunged
      modifies `registered, `log, queue`waiting, queue.list, queue.list.footprint
      ensures Valid() && State() == AbortStep(old(State()), unit, request)
      ensures queue.list.footprint == old(queue.list.footprint)
    {
      var e := Registration(unit, request);
      if unit < UNIT_COUNT && e in registered {
        registered := registered - {e};
        log := log.Reply(multiset{e});
      } else {
        Unqueue(request);
      }
    }

    /** The head of CloseDevice. */
    method Withdraw(request: nat)
      requires Valid() && !expunged
      modifies `registered, `log, queue`waiting, queue.list, queue.list.footprint
      ensures Valid() && State() == WithdrawStep(old(State()), request)
      ensures queue.list.footprint == old(queue.list.footprint)
    {
      Release(Of(registered, request));
      Unqueue(request);
    }

    /** The locked part of CloseDevice; true if the caller goes on to
        complete_pending_expunge. */
    method Close() returns (expunge: bool)
      requires Valid() && !expunged
      modifies `openCount
      ensures Valid() && State() == CloseStep(old(State())) && expunge == (openCount == 0 && delayedExpunge)
    {
      if openCount != 0 { openCount := openCount - 1; }
      expunge := openCount == 0 && delayedExpunge;
    }

    /** The locked check of complete_pending_expunge. */
    method CheckExpunge()
      requires Valid()
      modifies `delayedExpunge, `leaving
      ensures Valid() && State() == ExpungeStep(old(State()))
    {
      if !delayedExpunge || openCount != 0 || queue.list.head != null || ioProcessing { return; }
      delayedExpunge := false;
      leaving := true;
    }

    /** The rest of complete_pending_expunge. */
    method FinishExpunge()
      requires Valid() && !expunged && leaving
      modifies `registered, `log, `leaving, `expunged
      ensures Valid() && State() == TeardownStep(old(State()))
    {
      Release(registered);
      leaving := false;
      expunged := true;
    }
  }
}
