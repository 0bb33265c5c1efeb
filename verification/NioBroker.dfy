/** The EXCHANGE broker of nio.device (amiga/nio.device/fujinet_nio_device.c).
    Every method is one step that is atomic under Disable/Enable (or private to
    the worker); an arbitrary interleaving of them is a run. Expunge is
    a locked check and, after Enable(), stopping the worker and the teardown; anything
    else may happen in between. */
module NioBroker {
  import opened Bytes
  import opened Moments
  import opened Wrappers
  import IoQueue
  import SerialConfig

  const MAX_PACKET_SIZE := 1024
  const SERIAL_PAYLOAD_MIN := 6
  const SERIAL_PAYLOAD_MAX := 35

  datatype Code = Ok | Invalid | Io | Transport | Timeout | Aborted | Unsupported | Other(code: byte)
  datatype IoError = Fine | NoCommand | BadLength | BadAddress | OpenFail | IoAborted

  datatype Command = Exchange | SetBaud | GetBaud | SetSerial | GetSerial | Unknown

  /** The fields of FujiNetNIORequest that BeginIO looks at. */
  datatype Request = Request(id: nat, command: Command, sizeOk: bool, padClear: bool,
                             hasData: bool, length: u16, hasBuffer: bool, capacity: u16)

  /** device_begin_io's verdict; Fine means that the request is queued. */
  function Verdict(q: Request): IoError {
    if q.command.Unknown? then NoCommand
    else if !q.sizeOk then BadLength
    else if !q.padClear then NoCommand
    else if !q.hasData && q.length != 0 then BadAddress
    else if !q.hasBuffer && q.capacity != 0 then BadAddress
    else match q.command
      case Exchange => if q.length > MAX_PACKET_SIZE || q.capacity > MAX_PACKET_SIZE then BadLength else Fine
      case SetBaud => if !q.hasData || q.length != 4 || q.capacity != 0 then BadLength else Fine
      case GetBaud => if q.length != 0 || !q.hasBuffer || q.capacity < 4 then BadLength else Fine
      case SetSerial =>
        if !q.hasData || q.length < SERIAL_PAYLOAD_MIN || q.length > SERIAL_PAYLOAD_MAX || q.capacity != 0
        then BadLength else Fine
      case GetSerial =>
        if q.length != 0 || !q.hasBuffer || q.capacity < SERIAL_PAYLOAD_MAX then BadLength else Fine
  }

  /** An accepted submission; tickets number them in order. */
  datatype Pending = Pending(ticket: nat, request: Request)

  /** fn_nio_error and fn_response_length of a request that was not aborted. An
      aborted one always carries FN_ERR_ABORTED and length zero. */
  datatype Result = Result(code: Code, length: nat)

  /** What the backend answers to one dequeued request: to opening, to the
      exchange or control call, and the length it reports. */
  datatype Answer = Answer(open: Code, call: Code, length: u16)

  datatype Event =
    | BeginIo(request: Request, memory: bool)
    | Wake
    | Take
    | Complete(answer: Answer)
    | AbortIo(id: nat)
    | Open
    | Close(id: nat)
    | Expunge
    | StopWorker
    | Teardown // the worker has ended, or the wait for it has run out

  /** What callers have seen of the device: accepted submissions and refusals,
      replies in order (served requests with their results, and aborted requests),
      and the tickets for which AbortIO or CloseDevice was called while outstanding. */
  datatype History = History(
    submitted: seq<Pending>, refused: seq<(Request, IoError)>,
    served: seq<Pending>, results: seq<Result>, aborted: seq<Pending>, abortCalls: set<nat>)
  {
    function Serve(p: Pending, r: Result): History { this.(served := served + [p], results := results + [r]) }

    function Abort(p: Pending): History { this.(aborted := aborted + [p], abortCalls := abortCalls + {p.ticket}) }

    function Call(p: Pending): History { this.(abortCalls := abortCalls + {p.ticket}) }
  }

  /** The worker runs, has been told to stop, or has ended. */
  datatype Stage = Alive | Stopping | Gone

  /** The worker process: its stage, its signal bits, whether it is inside worker_pump,
      io_processing, and the request in progress with its abort flag. */
  datatype Worker = Worker(stage: Stage, signalled: bool, pumping: bool, processing: bool, running: Option<Pending>,
                           aborted: bool)

  /** The library node. `leaving`: an expunge has passed its locked check; `expunged`:
      the segment list has been returned and the memory freed. */
  datatype Library = Library(openCount: nat, delayedExpunge: bool, leaving: bool, expunged: bool)

  /** Everything the device keeps. */
  datatype Broker = Broker(queue: seq<Pending>, worker: Worker, backendOpen: bool, library: Library, log: History)

  const NEW_WORKER := Worker(Alive, false, false, false, None, false)

  const INITIAL := Broker([], NEW_WORKER, false, Library(0, false, false, false), History([], [], [], [], [], {}))

  /** Position of a request in the queue, or the queue's length. */
  function Find(q: seq<Pending>, id: nat): (k: nat)
    ensures k <= |q| && (k < |q| ==> q[k].request.id == id)
    ensures forall i :: 0 <= i < k ==> q[i].request.id != id
  {
    if q == [] || q[0].request.id == id then 0 else 1 + Find(q[1..], id)
  }

  predicate IsRunning(s: Broker, id: nat) { s.worker.running.Some? && s.worker.running.value.request.id == id }

  predicate Outstanding(s: Broker, id: nat) { Find(s.queue, id) < |s.queue| || IsRunning(s, id) }

  // ------------------------------------------------------------------ steps

  function BeginStep(s: Broker, q: Request, memory: bool): Broker {
    if Verdict(q) != Fine then s.(log := s.log.(refused := s.log.refused + [(q, Verdict(q))]))
    else if !memory then s.(log := s.log.(refused := s.log.refused + [(q, OpenFail)]))
    else
      var p := Pending(|s.log.submitted|, q);
      var w := s.worker.(processing := true, signalled := s.worker.signalled || !s.worker.stage.Gone?);
      s.(queue := s.queue + [p], worker := w, log := s.log.(submitted := s.log.submitted + [p]))
  }

  /** The worker's Wait() returns: it ends if it has been told to stop. */
  function WakeStep(s: Broker): Broker {
    if !s.worker.signalled || s.worker.pumping || s.worker.stage.Gone? then s
    else if s.worker.stage.Stopping? then s.(worker := s.worker.(stage := Gone, signalled := false))
    else s.(worker := s.worker.(pumping := true, signalled := false))
  }

  /** worker_pump's locked section: dequeue the oldest request, or go idle. */
  function TakeStep(s: Broker): Broker {
    if !s.worker.pumping || s.worker.running.Some? then s
    else if s.queue == [] then s.(worker := s.worker.(processing := false, pumping := false))
    else s.(queue := s.queue[1..], worker := s.worker.(running := Some(s.queue[0]), aborted := false))
  }

  /** The backend is open after the call: opened on demand, closed again by a
      transport fault or a timeout, closed by a reconfiguration. */
  function BackendAfter(backendOpen: bool, p: Pending, a: Answer): bool {
    match p.request.command
    case Exchange => (backendOpen || a.open == Ok) && a.call !in {Transport, Timeout}
    case GetBaud => backendOpen
    case GetSerial => backendOpen
    case _ => false
  }

  /** The result of an unaborted request. */
  function Completion(backendOpen: bool, p: Pending, a: Answer): Result {
    match p.request.command
    case Exchange =>
      var code := if !backendOpen && a.open != Ok then a.open else a.call;
      if code == Ok && a.length > p.request.capacity then Result(Io, 0)
      else Result(code, if code == Ok then a.length else 0)
    case GetBaud => Result(a.call, if a.call == Ok then 4 else 0)
    case GetSerial =>
      // fujinet_nio_serial_encode: four bytes, the name and its terminator
      var code := if a.call == Ok && a.length > SERIAL_PAYLOAD_MAX then Invalid else a.call;
      Result(code, if code == Ok then a.length else 0)
    case _ => Result(a.call, 0)
  }

  /** process_exchange / process_control: backend work, then the locked section
      that completes and forgets the request. */
  function CompleteStep(s: Broker, a: Answer): Broker {
    if s.worker.running.None? then s
    else
      var p := s.worker.running.value;
      var t := s.(backendOpen := BackendAfter(s.backendOpen, p, a),
                  worker := s.worker.(running := None, aborted := false));
      if s.worker.aborted then t.(log := s.log.(aborted := s.log.aborted + [p]))
      else t.(log := s.log.Serve(p, Completion(s.backendOpen, p, a)))
  }

  /** Removes a queued request and replies it as aborted. */
  function Withdrawn(s: Broker, k: nat): Broker
    requires k < |s.queue|
  {
    s.(queue := s.queue[..k] + s.queue[k + 1..], log := s.log.Abort(s.queue[k]))
  }

  function AbortStep(s: Broker, id: nat): Broker {
    var k := Find(s.queue, id);
    if k < |s.queue| then Withdrawn(s, k)
    else if IsRunning(s, id) then
      s.(worker := s.worker.(aborted := true), log := s.log.Call(s.worker.running.value))
    else s
  }

  predicate Idle(s: Broker) { s.library.openCount == 0 && s.queue == [] && s.worker.running.None? }

  /** The locked check of device_expunge. */
  function ExpungeStep(s: Broker): Broker {
    s.(library := if Idle(s) then s.library.(delayedExpunge := false, leaving := true)
                  else s.library.(delayedExpunge := true))
  }

  /** worker_stop is set, for good, and the worker is signalled. */
  function StopStep(s: Broker): Broker {
    if !s.library.leaving || s.worker.stage.Gone? then s
    else s.(worker := s.worker.(stage := Stopping, signalled := true))
  }

  /** The rest of device_expunge, which looks at nothing but the worker: one that has
      not ended in time defers expunge. */
  function TeardownStep(s: Broker): Broker {
    if !s.library.leaving then s
    else match s.worker.stage
      case Alive => s
      case Stopping => s.(library := s.library.(leaving := false, delayedExpunge := true))
      case Gone => s.(backendOpen := false, library := s.library.(leaving := false, expunged := true))
  }

  /** One opener fewer. A last CloseDevice that finds a deferred expunge goes on to
      device_expunge, which is an Expunge event of its own. */
  function Departure(s: Broker): Broker {
    s.(library := s.library.(openCount := if s.library.openCount > 0 then s.library.openCount - 1 else 0))
  }

  function CloseStep(s: Broker, id: nat): Broker {
    var k := Find(s.queue, id);
    Departure(if k < |s.queue| then Withdrawn(s, k) else s)
  }

  function OpenStep(s: Broker): Broker {
    s.(library := s.library.(openCount := s.library.openCount + 1, delayedExpunge := false))
  }

  /** One event of a run. Callers do not resubmit a request that is outstanding,
      and nothing happens to a device that has been unloaded. */
  function Next(s: Broker, e: Event): Broker {
    if s.library.expunged then s
    else match e
      case BeginIo(q, memory) => if Outstanding(s, q.id) then s else BeginStep(s, q, memory)
      case Wake => WakeStep(s)
      case Take => TakeStep(s)
      case Complete(a) => CompleteStep(s, a)
      case AbortIo(id) => AbortStep(s, id)
      case Open => OpenStep(s)
      case Close(id) => CloseStep(s, id)
      case Expunge => ExpungeStep(s)
      case StopWorker => StopStep(s)
      case Teardown => TeardownStep(s)
  }

  function RunFrom(s: Broker, es: seq<Event>): Broker {
    if es == [] then s else Next(RunFrom(s, es[..|es| - 1]), es[|es| - 1])
  }

  function Run(es: seq<Event>): Broker {
    if es == [] then INITIAL else Next(Run(es[..|es| - 1]), es[|es| - 1])
  }

  // -------------------------------------------------------------- invariant

  /** Served, being served, waiting: the path of every submission not aborted. */
  ghost function Flow(s: Broker): seq<Pending> {
    s.log.served + (if s.worker.running.Some? then [s.worker.running.value] else []) + s.queue
  }

  ghost predicate InOrder(f: seq<Pending>) { forall i, j :: 0 <= i < j < |f| ==> f[i].ticket < f[j].ticket }

  ghost predicate Numbered(submitted: seq<Pending>) {
    forall i :: 0 <= i < |submitted| ==> submitted[i].ticket == i && Verdict(submitted[i].request) == Fine
  }

  /** The flow is in submission order, and together with the aborted requests it
      holds every submission exactly once. */
  ghost predicate Accounted(flow: seq<Pending>, aborted: seq<Pending>, submitted: seq<Pending>) {
    InOrder(flow) && Numbered(submitted) && multiset(flow) + multiset(aborted) == multiset(submitted)
  }

  ghost predicate Flows(s: Broker) { Accounted(Flow(s), s.log.aborted, s.log.submitted) }

  /** A success never claims more than the caller's buffer holds. */
  ghost predicate Fits(p: Pending, r: Result) {
    r.length <= if r.code == Ok then p.request.capacity as int else 0
  }

  ghost predicate Sound(s: Broker) {
    && (forall i :: 0 <= i < |s.queue| ==> Verdict(s.queue[i].request) == Fine)
    && (s.worker.running.Some? ==> Verdict(s.worker.running.value.request) == Fine)
    && |s.log.results| == |s.log.served|
    && (forall i :: 0 <= i < |s.log.served| ==> Fits(s.log.served[i], s.log.results[i]))
    && (!s.worker.processing ==> s.queue == [] && s.worker.running.None?)
    && (s.library.expunged ==> s.worker.running.None? && !s.backendOpen)
  }

  /** An abort only ever lands on a submission it was asked for. */
  ghost predicate AbortsAsked(s: Broker) {
    && (s.worker.aborted ==> s.worker.running.Some? && s.worker.running.value.ticket in s.log.abortCalls)
    && (forall i :: 0 <= i < |s.log.aborted| ==> s.log.aborted[i].ticket in s.log.abortCalls)
  }

  /** A worker that has not been told to stop has been signalled or is pumping if
      requests wait; a request is in progress only while it pumps. */
  predicate Attended(s: Broker) {
    && (s.worker.running.Some? ==> s.worker.pumping)
    && (s.worker.stage.Gone? ==> !s.worker.pumping && !s.worker.signalled)
    && (s.worker.stage.Alive? && s.queue != [] ==> s.worker.signalled || s.worker.pumping)
  }

  ghost predicate Inv(s: Broker) { Flows(s) && Sound(s) && AbortsAsked(s) && Attended(s) }

  // Effect of the steps on the flow: it grows at its end, loses one element to
  // the aborted requests, or does not change at all.

  lemma Arrive(flow: seq<Pending>, aborted: seq<Pending>, submitted: seq<Pending>, p: Pending)
    requires Accounted(flow, aborted, submitted) && p.ticket == |submitted| && Verdict(p.request) == Fine
    ensures Accounted(flow + [p], aborted, submitted + [p])
  {
    forall i | 0 <= i < |flow| ensures flow[i].ticket < p.ticket {
      assert flow[i] in multiset(flow) + multiset(aborted);
      assert flow[i] in submitted;
    }
  }

  lemma Leave(a: seq<Pending>, p: Pending, b: seq<Pending>, aborted: seq<Pending>, submitted: seq<Pending>)
    requires Accounted(a + [p] + b, aborted, submitted)
    ensures Accounted(a + b, aborted + [p], submitted)
  {
    assert multiset(a + [p] + b) == multiset(a + b) + multiset{p};
    var f := a + [p] + b;
    forall i, j | 0 <= i < j < |a + b| ensures (a + b)[i].ticket < (a + b)[j].ticket {
      assert (a + b)[i] == f[if i < |a| then i else i + 1] && (a + b)[j] == f[if j < |a| then j else j + 1];
    }
  }

  lemma BeginFlows(s: Broker, q: Request)
    requires Flows(s) && Verdict(q) == Fine
    ensures Flows(BeginStep(s, q, true))
  {
    var p := Pending(|s.log.submitted|, q);
    Arrive(Flow(s), s.log.aborted, s.log.submitted, p);
    assert Flow(BeginStep(s, q, true)) == Flow(s) + [p];
  }

  lemma TakeFlow(s: Broker)
    ensures Flow(TakeStep(s)) == Flow(s)
  {
    if s.queue != [] { assert s.queue == [s.queue[0]] + s.queue[1..]; }
  }

  lemma CompleteFlows(s: Broker, a: Answer)
    requires Flows(s) && s.worker.running.Some?
    ensures Flows(CompleteStep(s, a))
  {
    if s.worker.aborted {
      Leave(s.log.served, s.worker.running.value, s.queue, s.log.aborted, s.log.submitted);
      assert Flow(CompleteStep(s, a)) == s.log.served + s.queue;
    } else {
      assert Flow(CompleteStep(s, a)) == Flow(s);
    }
  }

  lemma WithdrawFlows(s: Broker, k: nat)
    requires Flows(s) && k < |s.queue|
    ensures Flows(Withdrawn(s, k))
  {
    var ahead := s.log.served + if s.worker.running.Some? then [s.worker.running.value] else [];
    assert Flow(s) == (ahead + s.queue[..k]) + [s.queue[k]] + s.queue[k + 1..];
    Leave(ahead + s.queue[..k], s.queue[k], s.queue[k + 1..], s.log.aborted, s.log.submitted);
    assert Flow(Withdrawn(s, k)) == (ahead + s.queue[..k]) + s.queue[k + 1..];
  }

  lemma CompletionFits(backendOpen: bool, p: Pending, a: Answer)
    requires Verdict(p.request) == Fine
    ensures Fits(p, Completion(backendOpen, p, a))
  {
  }

  lemma BeginKeepsInv(s: Broker, q: Request, memory: bool)
    requires Inv(s) && !s.library.expunged
    ensures Inv(BeginStep(s, q, memory))
  {
    if Verdict(q) == Fine && memory {
      BeginFlows(s, q);
      BeginSound(s, q);
    } else {
      assert Flow(BeginStep(s, q, memory)) == Flow(s);
    }
  }

  lemma BeginSound(s: Broker, q: Request)
    requires Sound(s) && AbortsAsked(s) && Verdict(q) == Fine && !s.library.expunged
    ensures Sound(BeginStep(s, q, true)) && AbortsAsked(BeginStep(s, q, true))
  {
  }

  lemma TakeKeepsInv(s: Broker)
    requires Inv(s) && !s.library.expunged
    ensures Inv(TakeStep(s))
  {
    TakeFlow(s);
    assert TakeStep(s).log == s.log;
    TakeSound(s);
  }

  lemma TakeSound(s: Broker)
    requires Sound(s) && AbortsAsked(s) && Attended(s) && !s.library.expunged
    ensures Sound(TakeStep(s)) && AbortsAsked(TakeStep(s)) && Attended(TakeStep(s))
  {
  }

  lemma CompleteKeepsInv(s: Broker, a: Answer)
    requires Inv(s) && !s.library.expunged
    ensures Inv(CompleteStep(s, a))
  {
    if s.worker.running.Some? {
      CompleteFlows(s, a);
      CompleteSound(s, a);
    }
  }

  lemma CompleteSound(s: Broker, a: Answer)
    requires Sound(s) && AbortsAsked(s) && s.worker.running.Some? && !s.library.expunged
    ensures Sound(CompleteStep(s, a)) && AbortsAsked(CompleteStep(s, a))
  {
    CompletionFits(s.backendOpen, s.worker.running.value, a);
  }

  lemma WithdrawKeepsInv(s: Broker, k: nat)
    requires Inv(s) && !s.library.expunged && k < |s.queue|
    ensures Inv(Withdrawn(s, k))
  {
    WithdrawFlows(s, k);
    WithdrawSound(s, k);
  }

  lemma WithdrawSound(s: Broker, k: nat)
    requires Sound(s) && AbortsAsked(s) && !s.library.expunged && k < |s.queue|
    ensures Sound(Withdrawn(s, k)) && AbortsAsked(Withdrawn(s, k))
  {
  }

  /** Opening, closing, expunging and waking touch neither requests nor history. */
  lemma SameWork(s: Broker, r: Broker)
    requires Inv(s) && r.queue == s.queue && r.worker.running == s.worker.running && r.log == s.log
    requires r.worker.aborted == s.worker.aborted && r.worker.processing == s.worker.processing
    requires Attended(r) && (r.library.expunged ==> r.worker.running.None? && !r.backendOpen)
    ensures Inv(r)
  {
    assert Flow(r) == Flow(s);
  }

  lemma CloseKeepsInv(s: Broker, id: nat)
    requires Inv(s) && !s.library.expunged
    ensures Inv(CloseStep(s, id))
  {
    var k := Find(s.queue, id);
    if k < |s.queue| {
      WithdrawKeepsInv(s, k);
      SameWork(Withdrawn(s, k), CloseStep(s, id));
    } else {
      SameWork(s, CloseStep(s, id));
    }
  }

  lemma AbortKeepsInv(s: Broker, id: nat)
    requires Inv(s) && !s.library.expunged
    ensures Inv(AbortStep(s, id))
  {
    if Find(s.queue, id) < |s.queue| { WithdrawKeepsInv(s, Find(s.queue, id)); }
  }

  // One lemma for each case of Next.

  lemma BeginNext(s: Broker, q: Request, memory: bool)
    requires Inv(s) && !s.library.expunged
    ensures Inv(Next(s, BeginIo(q, memory)))
  {
    if !Outstanding(s, q.id) { BeginKeepsInv(s, q, memory); }
  }

  lemma TakeNext(s: Broker)
    requires Inv(s) && !s.library.expunged
    ensures Inv(Next(s, Take))
  {
    assert Next(s, Take) == TakeStep(s);
    TakeKeepsInv(s);
  }

  lemma CompleteNext(s: Broker, a: Answer)
    requires Inv(s) && !s.library.expunged
    ensures Inv(Next(s, Complete(a)))
  {
    assert Next(s, Complete(a)) == CompleteStep(s, a);
    CompleteKeepsInv(s, a);
  }

  lemma AbortNext(s: Broker, id: nat)
    requires Inv(s) && !s.library.expunged
    ensures Inv(Next(s, AbortIo(id)))
  {
    assert Next(s, AbortIo(id)) == AbortStep(s, id);
    AbortKeepsInv(s, id);
  }

  lemma CloseNext(s: Broker, id: nat)
    requires Inv(s) && !s.library.expunged
    ensures Inv(Next(s, Close(id)))
  {
    assert Next(s, Close(id)) == CloseStep(s, id);
    CloseKeepsInv(s, id);
  }

  lemma WakeNext(s: Broker)
    requires Inv(s) && !s.library.expunged
    ensures Inv(Next(s, Wake))
  {
    assert Next(s, Wake) == WakeStep(s);
    SameWork(s, WakeStep(s));
  }

  lemma OpenNext(s: Broker)
    requires Inv(s) && !s.library.expunged
    ensures Inv(Next(s, Open))
  {
    assert Next(s, Open) == OpenStep(s);
    SameWork(s, OpenStep(s));
  }

  lemma ExpungeNext(s: Broker)
    requires Inv(s) && !s.library.expunged
    ensures Inv(Next(s, Expunge))
  {
    assert Next(s, Expunge) == ExpungeStep(s);
    SameWork(s, ExpungeStep(s));
  }

  lemma StopNext(s: Broker)
    requires Inv(s) && !s.library.expunged
    ensures Inv(Next(s, StopWorker))
  {
    assert Next(s, StopWorker) == StopStep(s);
    SameWork(s, StopStep(s));
  }

  lemma TeardownNext(s: Broker)
    requires Inv(s) && !s.library.expunged
    ensures Inv(Next(s, Teardown))
  {
    assert Next(s, Teardown) == TeardownStep(s);
    SameWork(s, TeardownStep(s));
  }

  lemma {:induction false} StepKeepsInv(s: Broker, e: Event)
    requires Inv(s)
    ensures Inv(Next(s, e))
  {
    if s.library.expunged {
      assert Next(s, e) == s;
    } else {
      match e {
        case BeginIo(q, memory) => BeginNext(s, q, memory);
        case Wake => WakeNext(s);
        case Take => TakeNext(s);
        case Complete(a) => CompleteNext(s, a);
        case AbortIo(id) => AbortNext(s, id);
        case Open => OpenNext(s);
        case Close(id) => CloseNext(s, id);
        case Expunge => ExpungeNext(s);
        case StopWorker => StopNext(s);
        case Teardown => TeardownNext(s);
      }
    }
  }

  lemma {:induction false} RunKeepsInv(es: seq<Event>)
    ensures Inv(Run(es))
  {
    if es != [] {
      var s, e := Run(es[..|es| - 1]), es[|es| - 1];
      RunKeepsInv(es[..|es| - 1]);
      StepKeepsInv(s, e);
    }
  }

  // --------------------------------------------------------------- theorems

  /** In every run each submission is in exactly one of queue, worker, served and
      aborted, and is there once: nothing is lost and nothing is replied twice. */
  lemma {:induction false} EverySubmissionOnce(es: seq<Event>, t: nat)
    requires t < |Run(es).log.submitted|
    ensures var s, p := Run(es), Run(es).log.submitted[t];
      multiset(s.queue)[p] + (if s.worker.running == Some(p) then 1 else 0)
      + multiset(s.log.served)[p] + multiset(s.log.aborted)[p] == 1
  {
    RunKeepsInv(es);
    OncePlaced(Run(es), t);
  }

  lemma OncePlaced(s: Broker, t: nat)
    requires Inv(s) && t < |s.log.submitted|
    ensures var p := s.log.submitted[t];
      multiset(s.queue)[p] + (if s.worker.running == Some(p) then 1 else 0)
      + multiset(s.log.served)[p] + multiset(s.log.aborted)[p] == 1
  {
    OnceEach(s.log.submitted, t);
    var running := if s.worker.running.Some? then [s.worker.running.value] else [];
    assert multiset(Flow(s)) == multiset(s.log.served) + multiset(running) + multiset(s.queue);
  }

  lemma OnceEach(submitted: seq<Pending>, t: nat)
    requires Numbered(submitted) && t < |submitted|
    ensures multiset(submitted)[submitted[t]] == 1
  {
    var p := submitted[t];
    assert submitted == submitted[..t] + [p] + submitted[t + 1..];
    assert p !in submitted[..t] && p !in submitted[t + 1..];
  }

  /** Replies that are not aborts come in submission order, and before anything
      still in the worker or the queue. */
  lemma {:induction false} RepliesInOrder(es: seq<Event>)
    ensures InOrder(Run(es).log.served)
    ensures InOrder(Flow(Run(es)))
  {
    RunKeepsInv(es);
    var s := Run(es);
    assert forall i :: 0 <= i < |s.log.served| ==> s.log.served[i] == Flow(s)[i];
  }

  /** An abort reply goes only to a submission whose abort was asked for; an `Ok`
      reply fits its buffer; any other reply has length zero. */
  lemma {:induction false} RepliesAreSound(es: seq<Event>, i: nat)
    ensures i < |Run(es).log.aborted| ==> Run(es).log.aborted[i].ticket in Run(es).log.abortCalls
    ensures i < |Run(es).log.served| ==>
      i < |Run(es).log.results| && Fits(Run(es).log.served[i], Run(es).log.results[i])
  {
    RunKeepsInv(es);
  }

  // ---------------------------------------------------------------- unload

  /** The submission has been replied. */
  ghost predicate Answered(s: Broker, t: nat)
    requires t < |s.log.submitted|
  {
    s.log.submitted[t] in s.log.served || s.log.submitted[t] in s.log.aborted
  }

  /** Opens of a run that no later close has undone. */
  function OpenBalance(es: seq<Event>): nat {
    if es == [] then 0
    else BalanceAfter(OpenBalance(es[..|es| - 1]), es[|es| - 1])
  }

  function BalanceAfter(n: nat, e: Event): nat {
    match e
    case Open => n + 1
    case Close(_) => if n > 0 then n - 1 else 0
    case _ => n
  }

  /** History only grows. */
  ghost predicate Extends(s: Broker, r: Broker) {
    s.log.submitted <= r.log.submitted && s.log.served <= r.log.served && s.log.aborted <= r.log.aborted
  }

  /** What a step does to the open count, to history and to an expunge under way. */
  ghost predicate Effect(s: Broker, e: Event, r: Broker) {
    && Extends(s, r) && r.library.openCount == BalanceAfter(s.library.openCount, e)
    && (!s.library.leaving && r.library.leaving ==> Idle(r))
    && (r.library.expunged ==> s.library.leaving && e == Teardown && (Idle(r) <==> Idle(s)))
  }

  lemma BeginEffect(s: Broker, q: Request, memory: bool)
    requires !s.library.expunged
    ensures Effect(s, BeginIo(q, memory), BeginStep(s, q, memory)) && Effect(s, BeginIo(q, memory), s)
  {
  }

  lemma WorkerEffect(s: Broker, a: Answer)
    requires !s.library.expunged
    ensures Effect(s, Wake, WakeStep(s)) && Effect(s, Take, TakeStep(s)) && Effect(s, Complete(a), CompleteStep(s, a))
  {
  }

  lemma AbortEffect(s: Broker, id: nat)
    requires !s.library.expunged
    ensures Effect(s, AbortIo(id), AbortStep(s, id))
  {
  }

  lemma CloseEffect(s: Broker, id: nat)
    requires !s.library.expunged
    ensures Effect(s, Close(id), CloseStep(s, id))
  {
  }

  lemma LibraryEffect(s: Broker)
    requires !s.library.expunged
    ensures Effect(s, Open, OpenStep(s)) && Effect(s, Expunge, ExpungeStep(s))
    ensures Effect(s, StopWorker, StopStep(s)) && Effect(s, Teardown, TeardownStep(s))
  {
  }

  lemma StepEffect(s: Broker, e: Event)
    ensures if s.library.expunged then Next(s, e) == s else Effect(s, e, Next(s, e))
  {
    if !s.library.expunged {
      match e {
        case BeginIo(q, memory) => BeginEffect(s, q, memory);
        case Wake => WorkerEffect(s, Answer(Ok, Ok, 0));
        case Take => WorkerEffect(s, Answer(Ok, Ok, 0));
        case Complete(a) => WorkerEffect(s, a);
        case AbortIo(id) => AbortEffect(s, id);
        case Open => LibraryEffect(s);
        case Close(id) => CloseEffect(s, id);
        case Expunge => LibraryEffect(s);
        case StopWorker => LibraryEffect(s);
        case Teardown => LibraryEffect(s);
      }
    }
  }

  lemma {:induction false} BalanceCounts(s: Broker, es: seq<Event>)
    requires s.library.openCount == 0 && !RunFrom(s, es).library.expunged
    ensures RunFrom(s, es).library.openCount == OpenBalance(es)
  {
    if es != [] {
      StepEffect(RunFrom(s, es[..|es| - 1]), es[|es| - 1]);
      BalanceCounts(s, es[..|es| - 1]);
    }
  }

  lemma {:induction false} RunExtends(s: Broker, es: seq<Event>)
    ensures Extends(s, RunFrom(s, es))
  {
    if es != [] {
      RunExtends(s, es[..|es| - 1]);
      StepEffect(RunFrom(s, es[..|es| - 1]), es[|es| - 1]);
    }
  }

  lemma {:induction false} RunFromKeepsInv(s: Broker, es: seq<Event>)
    requires Inv(s)
    ensures Inv(RunFrom(s, es))
  {
    if es != [] {
      RunFromKeepsInv(s, es[..|es| - 1]);
      StepKeepsInv(RunFrom(s, es[..|es| - 1]), es[|es| - 1]);
    }
  }

  lemma {:induction false} RunSplit(pre: seq<Event>, mid: seq<Event>)
    ensures Run(pre + mid) == RunFrom(Run(pre), mid)
  {
    if mid == [] {
      assert pre + mid == pre;
    } else {
      assert (pre + mid)[..|pre + mid| - 1] == pre + mid[..|mid| - 1];
      RunSplit(pre, mid[..|mid| - 1]);
    }
  }

  /** Nothing queued or running means that every submission has been replied. */
  lemma QuietIffAnswered(s: Broker)
    requires Inv(s)
    ensures s.queue == [] && s.worker.running.None? <==> forall t: nat :: t < |s.log.submitted| ==> Answered(s, t)
  {
    forall t: nat | t < |s.log.submitted|
      ensures var p := s.log.submitted[t];
        multiset(s.queue)[p] + (if s.worker.running == Some(p) then 1 else 0)
        + multiset(s.log.served)[p] + multiset(s.log.aborted)[p] == 1
    {
      OncePlaced(s, t);
    }
    if s.queue != [] { WaitingIsUnanswered(s, s.queue[0]); }
    if s.worker.running.Some? { WaitingIsUnanswered(s, s.worker.running.value); }
  }

  lemma WaitingIsUnanswered(s: Broker, p: Pending)
    requires Inv(s) && (p in s.queue || s.worker.running == Some(p))
    ensures exists t: nat :: t < |s.log.submitted| && !Answered(s, t)
  {
    assert p in Flow(s);
    assert p in multiset(Flow(s)) + multiset(s.log.aborted);
    var t: nat :| t < |s.log.submitted| && s.log.submitted[t] == p;
    OncePlaced(s, t);
    assert !Answered(s, t);
  }

  /** What is true when the segment list is returned. s has just passed the locked
      check, `mid` is everything that happened before the memory is freed: the
      device is still idle if and only if every open in between has been closed
      and every submission in between has been replied. */
  lemma {:induction false} StillIdleIff(s: Broker, mid: seq<Event>)
    requires Inv(s) && Idle(s) && !RunFrom(s, mid).library.expunged
    ensures var r := RunFrom(s, mid);
      |s.log.submitted| <= |r.log.submitted|
      && (Idle(r) <==>
            OpenBalance(mid) == 0
            && forall t: nat :: |s.log.submitted| <= t < |r.log.submitted| ==> Answered(r, t))
  {
    var r := RunFrom(s, mid);
    RunFromKeepsInv(s, mid);
    BalanceCounts(s, mid);
    RunExtends(s, mid);
    QuietIffAnswered(s);
    QuietIffAnswered(r);
    forall t: nat | t < |s.log.submitted| ensures Answered(r, t) {
      assert Answered(s, t);
      assert r.log.submitted[t] == s.log.submitted[t];
    }
  }

  /** Callers that neither open nor submit in between find the device idle. */
  lemma {:induction false} UndisturbedUnload(s: Broker, mid: seq<Event>)
    requires Inv(s) && Idle(s)
    requires forall i :: 0 <= i < |mid| ==> !mid[i].Open? && !mid[i].BeginIo?
    ensures Idle(RunFrom(s, mid))
  {
    if mid != [] {
      UndisturbedUnload(s, mid[..|mid| - 1]);
      StaysIdle(RunFrom(s, mid[..|mid| - 1]), mid[|mid| - 1]);
    }
  }

  lemma StaysIdle(s: Broker, e: Event)
    requires Idle(s) && !e.Open? && !e.BeginIo?
    ensures Idle(Next(s, e))
  {
  }

  /** How every unload came about: at k a check found the device idle, from then on
      the expunge was on its way, and at j the worker had stopped. In between
      anything could happen; StillIdleIff says what that means at j. */
  lemma {:induction false} ExpungeOnlyWhenIdle(es: seq<Event>) returns (k: nat, j: nat)
    requires Run(es).library.expunged
    ensures k < j < |es| && es[j] == Teardown && Run(es) == Next(Run(es[..j]), es[j])
    ensures Run(es[..k + 1]).library.leaving && Idle(Run(es[..k + 1])) && Inv(Run(es[..k + 1]))
    ensures Run(es[..j]) == RunFrom(Run(es[..k + 1]), es[k + 1..j]) && !Run(es[..j]).library.expunged
    ensures Idle(Run(es)) <==> Idle(Run(es[..j]))
  {
    j := UnloadedAt(es);
    k := LeavingSince(es[..j]);
    assert es[..j][..k + 1] == es[..k + 1];
    RunKeepsInv(es[..k + 1]);
    RunsOn(es, k + 1, j);
    UnloadKeepsIdle(es, j);
  }

  lemma RunsOn(es: seq<Event>, i: nat, j: nat)
    requires i <= j <= |es|
    ensures Run(es[..j]) == RunFrom(Run(es[..i]), es[i..j])
  {
    assert es[..j] == es[..i] + es[i..j];
    RunSplit(es[..i], es[i..j]);
  }

  lemma UnloadKeepsIdle(es: seq<Event>, j: nat)
    requires j < |es| && Run(es) == Next(Run(es[..j]), es[j])
    requires !Run(es[..j]).library.expunged && Run(es).library.expunged
    ensures Idle(Run(es)) <==> Idle(Run(es[..j]))
  {
    StepEffect(Run(es[..j]), es[j]);
  }

  lemma {:induction false} UnloadedAt(es: seq<Event>) returns (j: nat)
    requires Run(es).library.expunged
    ensures j < |es| && es[j] == Teardown && Run(es) == Next(Run(es[..j]), es[j])
    ensures Run(es[..j]).library.leaving && !Run(es[..j]).library.expunged
  {
    j := |es| - 1;
    StepEffect(Run(es[..j]), es[j]);
    if Run(es[..j]).library.expunged {
      var n := j;
      j := UnloadedAt(es[..n]);
      assert es[..n][..j] == es[..j];
    }
  }

  lemma {:induction false} LeavingSince(es: seq<Event>) returns (k: nat)
    requires Run(es).library.leaving
    ensures k < |es| && Run(es[..k + 1]).library.leaving && Idle(Run(es[..k + 1]))
  {
    var n := |es| - 1;
    StepEffect(Run(es[..n]), es[n]);
    if Run(es[..n]).library.leaving {
      k := LeavingSince(es[..n]);
      assert es[..n][..k + 1] == es[..k + 1];
    } else {
      k := n;
      assert es[..n + 1] == es;
    }
  }

  lemma RunSnoc(s: Broker, es: seq<Event>, e: Event)
    ensures RunFrom(s, es + [e]) == Next(RunFrom(s, es), e)
  {
    assert (es + [e])[..|es|] == es;
  }

  /** One more step in front of a run. */
  lemma {:induction false} RunAfter(s: Broker, e: Event, es: seq<Event>)
    ensures RunFrom(s, [e] + es) == RunFrom(Next(s, e), es)
  {
    if es == [] {
      RunSnoc(s, [], e);
      assert [e] + es == [] + [e];
    } else {
      var init, last := es[..|es| - 1], es[|es| - 1];
      RunAfter(s, e, init);
      RunSnoc(s, [e] + init, last);
      RunSnoc(Next(s, e), init, last);
      assert [e] + es == ([e] + init) + [last] && es == init + [last];
    }
  }

  lemma Then(es: seq<Event>, e: Event) returns (r: seq<Event>)
    ensures r == es + [e] && Run(r) == Next(Run(es), e)
  {
    r := es + [e];
    assert r[..|es|] == es;
  }

  /** The window is real: with the worker already ended, an open and a submission fall
      between check and teardown, and the segment list is returned under an open device
      with a queued request. */
  lemma {:induction false} UnloadUnderOpenDevice(q: Request)
    requires Verdict(q) == Fine
    ensures var s := Run([Expunge, StopWorker, Wake, Open, BeginIo(q, true), Teardown]);
      && s.library.expunged && s.library.openCount == 1 && s.queue == s.log.submitted == [Pending(0, q)]
      && s.log.served == s.log.aborted == []
  {
    var es := WorkerStopped();
    es := Then(es, Wake);
    var ended := NEW_WORKER.(stage := Gone);
    assert Run(es) == INITIAL.(worker := ended, library := Library(0, false, true, false));
    es := OpenAndSubmit(es, q);
    es := Then(es, Teardown);
    assert es == [Expunge, StopWorker, Wake, Open, BeginIo(q, true), Teardown];
  }

  /** An expunge that has passed its check and told the worker to stop. */
  lemma WorkerStopped() returns (es: seq<Event>)
    ensures es == [Expunge, StopWorker]
    ensures Run(es) == INITIAL.(worker := NEW_WORKER.(stage := Stopping, signalled := true),
                                library := Library(0, false, true, false))
  {
    es := Then([], Expunge);
    es := Then(es, StopWorker);
  }

  /** A device opened and used in a state in which nothing was submitted before. */
  lemma OpenAndSubmit(es: seq<Event>, q: Request) returns (r: seq<Event>)
    requires var s := Run(es);
      !s.library.expunged && s.queue == [] && s.worker.running.None? && s.log == INITIAL.log && Verdict(q) == Fine
    ensures r == es + [Open, BeginIo(q, true)]
    ensures Run(r) == BeginStep(OpenStep(Run(es)), q, true)
  {
    r := Then(es, Open);
    r := Then(r, BeginIo(q, true));
  }

  // -------------------------------------------------------------- lost work

  /** What the worker does by itself. */
  predicate ByWorker(e: Event) { e.Wake? || e.Take? || e.Complete? }

  predicate AllByWorker(es: seq<Event>) { forall i :: 0 <= i < |es| ==> ByWorker(es[i]) }

  /** The worker alone leaves nothing waiting and nothing running. */
  ghost predicate Drains(s: Broker, es: seq<Event>) {
    AllByWorker(es) && RunFrom(s, es).queue == [] && RunFrom(s, es).worker.running.None?
  }

  /** The worker can serve everything that waits, by itself. */
  ghost predicate CanServe(s: Broker) { exists es :: Drains(s, es) }

  lemma DrainsAfter(s: Broker, e: Event, es: seq<Event>)
    requires ByWorker(e) && Drains(Next(s, e), es)
    ensures Drains(s, [e] + es)
  {
    RunAfter(s, e, es);
  }

  /** An attended worker serves request after request until none is left. */
  lemma {:induction false} ServesAll(s: Broker) returns (es: seq<Event>)
    requires Inv(s) && Serving(s)
    ensures Drains(s, es)
    decreases Work(s)
  {
    if s.queue == [] && s.worker.running.None? {
      es := [];
    } else {
      var e, r := ServingStep(s);
      var rest := ServesAll(r);
      DrainsAfter(s, e, rest);
      es := [e] + rest;
    }
  }

  /** Steps the worker still has to make, at most. */
  function Work(s: Broker): nat {
    3 * |s.queue| + (if s.worker.running.Some? then 2 else 0) + (if s.worker.pumping then 0 else 1)
  }

  predicate Serving(s: Broker) { !s.library.expunged && (s.worker.stage.Alive? || s.worker.pumping) }

  /** A worker that is neither signalled nor pumping does nothing unasked. */
  lemma RestsUnasked(s: Broker, e: Event)
    requires Inv(s) && !s.worker.signalled && !s.worker.pumping && ByWorker(e)
    ensures Next(s, e) == s
  {
  }

  /** What the worker does next. */
  function WorkerMove(s: Broker): Event {
    if s.worker.running.Some? then Complete(Answer(Ok, Ok, 0)) else if s.worker.pumping then Take else Wake
  }

  lemma ServingStep(s: Broker) returns (e: Event, r: Broker)
    requires Inv(s) && Serving(s) && !(s.queue == [] && s.worker.running.None?)
    ensures ByWorker(e) && r == Next(s, e) && Inv(r) && Serving(r) && Work(r) < Work(s)
  {
    e := WorkerMove(s);
    r := Next(s, e);
    StepKeepsInv(s, e);
    LessWork(s);
  }

  lemma LessWork(s: Broker)
    requires Attended(s) && Serving(s) && !(s.queue == [] && s.worker.running.None?)
    ensures Serving(Next(s, WorkerMove(s))) && Work(Next(s, WorkerMove(s))) < Work(s)
  {
  }

  predicate Rests(s: Broker) { !s.worker.signalled && !s.worker.pumping }

  function Steps(s: Broker): nat {
    4 * |s.queue| + (if s.worker.running.Some? then 3 else 0)
    + (if s.worker.signalled then 2 else 0) + (if s.worker.pumping then 1 else 0)
  }

  lemma FewerSteps(s: Broker)
    requires Attended(s) && !s.library.expunged && !Rests(s)
    ensures var r := Next(s, WorkerMove(s)); !r.library.expunged && Steps(r) < Steps(s)
  {
  }

  lemma RestingStep(s: Broker) returns (e: Event, r: Broker)
    requires Inv(s) && !s.library.expunged && !Rests(s)
    ensures ByWorker(e) && r == Next(s, e) && Inv(r) && !r.library.expunged && Steps(r) < Steps(s)
  {
    e := WorkerMove(s);
    r := Next(s, e);
    StepKeepsInv(s, e);
    FewerSteps(s);
  }

  /** Nothing is in progress, and nothing waits for a worker that serves. */
  ghost predicate AtRest(s: Broker) {
    Inv(s) && Rests(s) && s.worker.running.None? && (s.worker.stage.Alive? ==> s.queue == [])
  }

  ghost predicate LeadsToRest(s: Broker, es: seq<Event>) { AllByWorker(es) && AtRest(RunFrom(s, es)) }

  lemma RestAfter(s: Broker, e: Event, es: seq<Event>)
    requires ByWorker(e) && LeadsToRest(Next(s, e), es)
    ensures LeadsToRest(s, [e] + es)
  {
    RunAfter(s, e, es);
  }

  /** Left to itself the worker comes to rest, and does not run on for nothing; unless it
      has been told to stop, nothing waits then. */
  lemma {:induction false} ComesToRest(s: Broker) returns (es: seq<Event>)
    requires Inv(s) && !s.library.expunged
    ensures LeadsToRest(s, es)
    decreases Steps(s)
  {
    if Rests(s) {
      es := [];
    } else {
      var e, r := RestingStep(s);
      var rest := ComesToRest(r);
      RestAfter(s, e, rest);
      es := [e] + rest;
    }
  }

  /** A worker that has been told to stop and is not pumping serves nothing any more. */
  ghost predicate Abandoned(s: Broker, r: Broker) {
    r.queue == s.queue && r.worker.running.None? && !r.worker.stage.Alive? && !r.worker.pumping
  }

  lemma {:induction false} ServesNothing(s: Broker, es: seq<Event>)
    requires Abandoned(s, s) && AllByWorker(es)
    ensures Abandoned(s, RunFrom(s, es))
  {
    if es != [] { ServesNothing(s, es[..|es| - 1]); }
  }

  /** No lost work, exactly: in every reachable state of a loaded device, what waits can
      be served if and only if the worker has not been told to stop or is still pumping
      (or nothing waits). */
  lemma {:induction false} NoLostWorkIff(es: seq<Event>)
    requires !Run(es).library.expunged
    ensures var s := Run(es);
      CanServe(s) <==> s.queue == [] || s.worker.stage.Alive? || s.worker.pumping
  {
    var s := Run(es);
    RunKeepsInv(es);
    if s.worker.stage.Alive? || s.worker.pumping {
      var ws := ServesAll(s);
    } else if s.queue == [] {
      assert Drains(s, []);
    } else {
      forall ws | AllByWorker(ws) ensures !Drains(s, ws) { ServesNothing(s, ws); }
    }
  }

  /** At i an expunge under way tells the worker to stop. */
  ghost predicate StopsAt(es: seq<Event>, i: nat)
    requires i < |es|
  {
    es[i].StopWorker? && Stops(Run(es[..i]))
  }

  /** Some event of the run did so. */
  ghost predicate Told(es: seq<Event>) { exists i :: 0 <= i < |es| && StopsAt(es, i) }

  /** The worker has not been told to stop exactly if no expunge has got past its check
      as far as that. */
  lemma {:induction false} AliveIff(es: seq<Event>)
    ensures Run(es).worker.stage.Alive? <==> !Told(es)
  {
    if es != [] {
      var n := |es| - 1;
      AliveIff(es[..n]);
      ToldStep(es);
      StageStep(Run(es[..n]), es[n]);
    }
  }

  lemma ToldStep(es: seq<Event>)
    requires es != []
    ensures Told(es) <==> Told(es[..|es| - 1]) || StopsAt(es, |es| - 1)
  {
    var n := |es| - 1;
    forall i | 0 <= i < n ensures StopsAt(es[..n], i) == StopsAt(es, i) { assert es[..n][..i] == es[..i]; }
  }

  /** An expunge is on its way. */
  predicate Stops(s: Broker) { s.library.leaving && !s.library.expunged }

  lemma StageStep(s: Broker, e: Event)
    ensures Next(s, e).worker.stage.Alive? <==> s.worker.stage.Alive? && !(e.StopWorker? && Stops(s))
  {
  }

  /** A worker that has ended stays so. */
  lemma {:induction false} EndsForGood(s: Broker, es: seq<Event>)
    requires s.worker.stage.Gone?
    ensures RunFrom(s, es).worker.stage.Gone?
  {
    if es != [] {
      EndsForGood(s, es[..|es| - 1]);
      EndedStep(RunFrom(s, es[..|es| - 1]), es[|es| - 1]);
    }
  }

  lemma EndedStep(s: Broker, e: Event)
    requires s.worker.stage.Gone?
    ensures Next(s, e).worker.stage.Gone?
  {
  }

  /** A wait that has run out leaves a loaded device whose worker ends: a request
      submitted after that is never served. */
  lemma {:induction false} TimedOutTeardownLosesWork(q: Request)
    requires Verdict(q) == Fine
    ensures var s := Run([Expunge, StopWorker, Teardown, Open, BeginIo(q, true), Wake]);
      && !s.library.expunged && s.library.openCount == 1 && s.queue == [Pending(0, q)] && Abandoned(s, s)
      && forall es :: AllByWorker(es) ==> RunFrom(s, es).queue == s.queue
  {
    var run := WorkerStopped();
    run := Then(run, Teardown);
    assert Run(run).library == Library(0, true, false, false);
    run := OpenAndSubmit(run, q);
    run := Then(run, Wake);
    assert run == [Expunge, StopWorker, Teardown, Open, BeginIo(q, true), Wake];
    var s := Run(run);
    forall es | AllByWorker(es) ensures RunFrom(s, es).queue == s.queue { ServesNothing(s, es); }
  }

  // ------------------------------------------------------ aborts are honoured

  /** Where an outstanding submission is. */
  predicate Holds(s: Broker, p: Pending) { p in s.queue || s.worker.running == Some(p) }

  /** No two outstanding submissions are of the same request. */
  ghost predicate DistinctIds(s: Broker) {
    && (forall i, j :: 0 <= i < j < |s.queue| ==> s.queue[i].request.id != s.queue[j].request.id)
    && (s.worker.running.Some? ==>
          forall i :: 0 <= i < |s.queue| ==> s.queue[i].request.id != s.worker.running.value.request.id)
  }

  /** A submission whose abort was asked for is neither waiting nor served; in progress it
      carries the flag. */
  ghost predicate Honoured(s: Broker) {
    && (forall i :: 0 <= i < |s.queue| ==> s.queue[i].ticket !in s.log.abortCalls)
    && (forall i :: 0 <= i < |s.log.served| ==> s.log.served[i].ticket !in s.log.abortCalls)
    && (s.worker.running.Some? ==> (s.worker.aborted <==> s.worker.running.value.ticket in s.log.abortCalls))
    && (forall t :: t in s.log.abortCalls ==> t < |s.log.submitted|)
  }

  /** AbortIO for an outstanding submission, or a close with one that waits. */
  predicate Asks(s: Broker, e: Event, t: nat) {
    !s.library.expunged && match e
    case AbortIo(id) => (exists p :: p in s.queue && p.request.id == id && p.ticket == t)
                        || (s.worker.running.Some? && s.worker.running.value.request.id == id
                            && s.worker.running.value.ticket == t)
    case Close(id) => exists p :: p in s.queue && p.request.id == id && p.ticket == t
    case _ => false
  }

  lemma FindsIt(s: Broker, p: Pending)
    requires DistinctIds(s) && p in s.queue
    ensures Find(s.queue, p.request.id) < |s.queue| && s.queue[Find(s.queue, p.request.id)] == p
  {
    var i :| 0 <= i < |s.queue| && s.queue[i] == p;
    var k := Find(s.queue, p.request.id);
    assert k <= i;
  }

  lemma BeginKeepsIds(s: Broker, q: Request, memory: bool)
    requires DistinctIds(s) && !Outstanding(s, q.id)
    ensures DistinctIds(BeginStep(s, q, memory))
  {
    assert Find(s.queue, q.id) == |s.queue|;
  }

  lemma WithdrawnKeepsIds(s: Broker, k: nat)
    requires DistinctIds(s) && k < |s.queue|
    ensures DistinctIds(Withdrawn(s, k))
  {
    var q, r := s.queue, Withdrawn(s, k).queue;
    assert forall i :: 0 <= i < |r| ==> r[i] == q[if i < k then i else i + 1];
  }

  lemma WorkerKeepsIds(s: Broker, e: Event)
    requires DistinctIds(s) && ByWorker(e) && !s.library.expunged
    ensures DistinctIds(Next(s, e))
  {
  }

  lemma StepKeepsIds(s: Broker, e: Event)
    requires DistinctIds(s)
    ensures DistinctIds(Next(s, e))
  {
    if !s.library.expunged {
      match e {
        case BeginIo(q, memory) => if !Outstanding(s, q.id) { BeginKeepsIds(s, q, memory); }
        case AbortIo(id) => if Find(s.queue, id) < |s.queue| { WithdrawnKeepsIds(s, Find(s.queue, id)); }
        case Close(id) => if Find(s.queue, id) < |s.queue| { WithdrawnKeepsIds(s, Find(s.queue, id)); }
        case Wake => WorkerKeepsIds(s, e);
        case Take => WorkerKeepsIds(s, e);
        case Complete(_) => WorkerKeepsIds(s, e);
        case _ =>
      }
    }
  }

  /** Where the parts of the flow are. */
  lemma FlowParts(s: Broker)
    ensures var f, m := Flow(s), |s.log.served| + if s.worker.running.Some? then 1 else 0;
      && |f| == m + |s.queue|
      && (forall i :: 0 <= i < |s.log.served| ==> f[i] == s.log.served[i])
      && (s.worker.running.Some? ==> f[|s.log.served|] == s.worker.running.value)
      && (forall i :: 0 <= i < |s.queue| ==> f[m + i] == s.queue[i])
  {
  }

  lemma FlowIsNumbered(s: Broker, i: nat)
    requires Flows(s) && i < |Flow(s)|
    ensures Flow(s)[i].ticket < |s.log.submitted|
  {
    assert Flow(s)[i] in multiset(Flow(s)) + multiset(s.log.aborted);
    assert Flow(s)[i] in s.log.submitted;
  }

  /** The flow names every ticket once: what waits is behind what runs, and that behind what
      has been served. */
  lemma TicketsDiffer(s: Broker)
    requires Flows(s)
    ensures forall i, j :: 0 <= i < j < |s.queue| ==> s.queue[i].ticket < s.queue[j].ticket
    ensures forall i, j :: 0 <= i < |s.log.served| && 0 <= j < |s.queue| ==> s.log.served[i].ticket < s.queue[j].ticket
    ensures s.worker.running.Some? ==> forall i :: 0 <= i < |s.queue| ==>
      s.worker.running.value.ticket < s.queue[i].ticket < |s.log.submitted|
    ensures s.worker.running.Some? ==> forall i :: 0 <= i < |s.log.served| ==>
      s.log.served[i].ticket < s.worker.running.value.ticket
    ensures forall i :: 0 <= i < |s.queue| ==> s.queue[i].ticket < |s.log.submitted|
    ensures s.worker.running.Some? ==> s.worker.running.value.ticket < |s.log.submitted|
  {
    FlowParts(s);
    forall i | 0 <= i < |Flow(s)| ensures Flow(s)[i].ticket < |s.log.submitted| { FlowIsNumbered(s, i); }
  }

  lemma WithdrawnHonours(s: Broker, k: nat)
    requires Flows(s) && Honoured(s) && k < |s.queue|
    ensures Honoured(Withdrawn(s, k))
    ensures Withdrawn(s, k).log.abortCalls == s.log.abortCalls + {s.queue[k].ticket}
  {
    TicketsDiffer(s);
  }

  lemma AbortHonours(s: Broker, id: nat)
    requires Flows(s) && Honoured(s)
    ensures Honoured(AbortStep(s, id))
  {
    if Find(s.queue, id) < |s.queue| { WithdrawnHonours(s, Find(s.queue, id)); } else { TicketsDiffer(s); }
  }

  lemma BeginHonours(s: Broker, q: Request, memory: bool)
    requires Honoured(s)
    ensures Honoured(BeginStep(s, q, memory))
  {
  }

  lemma WorkerHonours(s: Broker, a: Answer)
    requires Flows(s) && Honoured(s) && (s.worker.running.None? ==> !s.worker.aborted)
    ensures Honoured(WakeStep(s)) && Honoured(TakeStep(s)) && Honoured(CompleteStep(s, a))
  {
    TicketsDiffer(s);
  }

  lemma StepHonours(s: Broker, e: Event)
    requires Inv(s) && Honoured(s)
    ensures Honoured(Next(s, e))
  {
    if !s.library.expunged {
      match e {
        case AbortIo(id) => AbortHonours(s, id);
        case Close(id) =>
          if Find(s.queue, id) < |s.queue| { WithdrawnHonours(s, Find(s.queue, id)); }
        case BeginIo(q, memory) => BeginHonours(s, q, memory);
        case Wake => WorkerHonours(s, Answer(Ok, Ok, 0));
        case Take => WorkerHonours(s, Answer(Ok, Ok, 0));
        case Complete(a) => WorkerHonours(s, a);
        case _ =>
      }
    }
  }

  /** Exactly the asked aborts are on record. */
  lemma AskedStep(s: Broker, e: Event, t: nat)
    requires DistinctIds(s)
    ensures t in Next(s, e).log.abortCalls <==> t in s.log.abortCalls || Asks(s, e, t)
  {
    if !s.library.expunged && (e.AbortIo? || e.Close?) {
      var k := Find(s.queue, e.id);
      forall p | p in s.queue && p.request.id == e.id ensures k < |s.queue| && s.queue[k] == p { FindsIt(s, p); }
    }
  }

  lemma {:induction false} RunHonours(es: seq<Event>)
    ensures Inv(Run(es)) && Honoured(Run(es)) && DistinctIds(Run(es))
  {
    RunKeepsInv(es);
    if es != [] {
      RunHonours(es[..|es| - 1]);
      StepHonours(Run(es[..|es| - 1]), es[|es| - 1]);
      StepKeepsIds(Run(es[..|es| - 1]), es[|es| - 1]);
    }
  }

  ghost predicate AsksAt(es: seq<Event>, k: nat, t: nat)
    requires k < |es|
  {
    Asks(Run(es[..k]), es[k], t)
  }

  ghost predicate AskedIn(es: seq<Event>, t: nat) { exists k :: 0 <= k < |es| && AsksAt(es, k, t) }

  lemma AskedMore(es: seq<Event>, t: nat)
    requires es != []
    ensures AskedIn(es, t) <==> AskedIn(es[..|es| - 1], t) || AsksAt(es, |es| - 1, t)
  {
    var n := |es| - 1;
    forall k | 0 <= k < n ensures AsksAt(es[..n], k, t) == AsksAt(es, k, t) { assert es[..n][..k] == es[..k]; }
  }

  lemma {:induction false} OnRecordIff(es: seq<Event>, t: nat)
    ensures t in Run(es).log.abortCalls <==> AskedIn(es, t)
  {
    if es != [] {
      OnRecordIff(es[..|es| - 1], t);
      AskedMore(es, t);
      RunHonours(es[..|es| - 1]);
      AskedStep(Run(es[..|es| - 1]), es[|es| - 1], t);
    }
  }

  /** A submission that has been replied was replied as aborted if and only if its abort
      was asked for while it was outstanding (or its request closed while it waited); all
      others carry the backend's result. */
  lemma {:induction false} AbortedIffAsked(es: seq<Event>, t: nat)
    requires t < |Run(es).log.submitted| && Answered(Run(es), t)
    ensures var s := Run(es);
      && (s.log.submitted[t] in s.log.aborted <==> AskedIn(es, t))
      && (s.log.submitted[t] in s.log.served <==> !AskedIn(es, t))
  {
    RunHonours(es);
    OnRecordIff(es, t);
    var s := Run(es);
    assert s.log.submitted[t].ticket == t;
    if s.log.submitted[t] in s.log.aborted {
      var i :| 0 <= i < |s.log.aborted| && s.log.aborted[i] == s.log.submitted[t];
      RepliesAreSound(es, i);
    }
  }

  // ------------------------------------------------------------ the backend

  /** A completed exchange that leaves the backend open even if it was not before. */
  predicate Opens(s: Broker, e: Event) {
    && e.Complete? && !s.library.expunged && s.worker.running.Some?
    && s.worker.running.value.request.command.Exchange? && e.answer.open == Ok
    && e.answer.call != Transport && e.answer.call != Timeout
  }

  /** A transport fault or timeout, a reconfiguration, or the end of the device. */
  predicate Shuts(s: Broker, e: Event) {
    if e.Complete? then
      && !s.library.expunged && s.worker.running.Some?
      && match s.worker.running.value.request.command
         case Exchange => e.answer.call == Transport || e.answer.call == Timeout
         case GetBaud => false
         case GetSerial => false
         case _ => true
    else e.Teardown? && !s.library.expunged && s.library.leaving && s.worker.stage.Gone?
  }

  ghost function Opening(es: seq<Event>): nat -> bool { (i: nat) => i < |es| && Opens(Run(es[..i]), es[i]) }

  ghost function Shutting(es: seq<Event>): nat -> bool { (i: nat) => i < |es| && Shuts(Run(es[..i]), es[i]) }

  /** The backend is open if and only if an exchange has opened it, or could have, and
      there has been no fault, timeout or reconfiguration since. */
  lemma {:induction false} BackendOpenIff(es: seq<Event>)
    ensures Run(es).backendOpen <==> Since(|es|, Opening(es), Shutting(es))
  {
    if es != [] {
      var n := |es| - 1;
      BackendOpenIff(es[..n]);
      forall i: nat | i < n
        ensures Opening(es)(i) == Opening(es[..n])(i) && Shutting(es)(i) == Shutting(es[..n])(i)
      {
        assert es[..n][..i] == es[..i];
      }
      SinceSame(n, Opening(es), Shutting(es), Opening(es[..n]), Shutting(es[..n]));
      SinceStep(n, Opening(es), Shutting(es));
      BackendStep(Run(es[..n]), es[n]);
    }
  }

  lemma BackendStep(s: Broker, e: Event)
    ensures Next(s, e).backendOpen <==> Opens(s, e) || (s.backendOpen && !Shuts(s, e))
  {
    if e.Complete? { assert !s.library.expunged ==> Next(s, e) == CompleteStep(s, e.answer); }
  }

  /** Exactly when an unaborted request succeeds, and with which length; every other code
      is passed on as the backend gave it, with length zero. */
  lemma SucceedsIff(backendOpen: bool, p: Pending, a: Answer)
    requires Verdict(p.request) == Fine
    ensures var r, c := Completion(backendOpen, p, a), p.request.command;
      && (r.code == Ok <==>
            && a.call == Ok && (c.Exchange? ==> (backendOpen || a.open == Ok) && a.length <= p.request.capacity)
            && (c.GetSerial? ==> a.length <= 35))
      && (r.code == Ok ==> r.length == if c.Exchange? || c.GetSerial? then a.length as int else if c.GetBaud? then 4
                                       else 0)
      && (r.code != Ok ==> r.length == 0)
      && (c.Exchange? && !backendOpen && a.open != Ok ==> r.code == a.open)
      && (a.call != Ok && !(c.Exchange? && !backendOpen && a.open != Ok) ==> r.code == a.call)
  {
  }

  // ----------------------------------------------- requests that are accepted

  /** A request whose structure is in order. */
  predicate Tidy(q: Request) {
    q.sizeOk && q.padClear && (q.hasData || q.length == 0) && (q.hasBuffer || q.capacity == 0)
  }

  /** SET_SERIAL takes exactly the lengths of encoded configurations. */
  lemma SetSerialTakesEncodings(q: Request)
    requires q.command.SetSerial?
    ensures Verdict(q) == Fine <==> Tidy(q) && q.capacity == 0 && SerialConfig.IsPayloadLength(q.length)
  {
    SerialConfig.PayloadLengths(q.length);
  }

  /** GET_SERIAL takes exactly the buffers that hold every configuration there can be. */
  lemma GetSerialHoldsEncodings(q: Request)
    requires q.command.GetSerial?
    ensures Verdict(q) == Fine <==>
      Tidy(q) && q.length == 0 && forall n: nat :: SerialConfig.IsPayloadLength(n) ==> n <= q.capacity
  {
    forall n: nat ensures SerialConfig.IsPayloadLength(n) <==> 6 <= n <= 35 { SerialConfig.PayloadLengths(n); }
    assert SerialConfig.IsPayloadLength(35);
  }

  /** It returns every configuration, with its full length. */
  lemma EncodingReturns(backendOpen: bool, p: Pending, unit: u32, name: seq<byte>)
    requires p.request.command.GetSerial? && SerialConfig.ValidName(name)
    ensures var length := |SerialConfig.Encoded(unit, name)|;
      length < 0x1_0000 && Completion(backendOpen, p, Answer(Ok, Ok, length)) == Result(Ok, length)
  {
    SerialConfig.EncodedParts(unit, name);
  }

  /** BeginIO queues a request that is in order, if there is memory, under the next ticket
      and at the end; every other one is refused with its error, and nothing else
      happens. */
  lemma BegunOrRefused(s: Broker, q: Request, memory: bool)
    requires !s.library.expunged && !Outstanding(s, q.id)
    ensures var r, p := Next(s, BeginIo(q, memory)), Pending(|s.log.submitted|, q);
      if Verdict(q) == Fine && memory
      then r.queue == s.queue + [p] && r.log == s.log.(submitted := s.log.submitted + [p])
           && (s.worker.stage.Alive? ==> r.worker.signalled)
      else r == s.(log := r.log)
           && r.log == s.log.(refused := s.log.refused + [(q, if Verdict(q) == Fine then OpenFail else Verdict(q))])
  {
  }

  /** SET_BAUD and GET_BAUD carry one 32-bit word, an exchange at most one packet each
      way. */
  lemma WordsAndPackets(q: Request, word: u32)
    ensures q.command.SetBaud? ==>
      (Verdict(q) == Fine <==> Tidy(q) && q.length == |PutLe32(word)| && q.capacity == 0)
    ensures q.command.GetBaud? ==>
      (Verdict(q) == Fine <==> Tidy(q) && q.length == 0 && |PutLe32(word)| <= q.capacity)
    ensures q.command.Exchange? ==> (Verdict(q) == Fine <==> Tidy(q) && q.length <= 1024 && q.capacity <= 1024)
    ensures q.command.Unknown? ==> Verdict(q) == NoCommand
  {
  }

  // ------------------------------------------------------- deferred expunge

  /** A last close, or a later call, has to see to an expunge that could not be done. */
  predicate Defers(s: Broker, e: Event) {
    && !s.library.expunged
    && ((e.Expunge? && !Idle(s)) || (e.Teardown? && s.library.leaving && s.worker.stage.Stopping?))
  }

  predicate Forgets(s: Broker, e: Event) { !s.library.expunged && (e.Open? || (e.Expunge? && Idle(s))) }

  ghost function Deferring(es: seq<Event>): nat -> bool { (i: nat) => i < |es| && Defers(Run(es[..i]), es[i]) }

  ghost function Forgetting(es: seq<Event>): nat -> bool { (i: nat) => i < |es| && Forgets(Run(es[..i]), es[i]) }

  /** An expunge is deferred if and only if one has found the device in use, or its worker
      still running, and the device has not been opened since nor an expunge passed. */
  lemma {:induction false} DeferredIff(es: seq<Event>)
    ensures Run(es).library.delayedExpunge <==> Since(|es|, Deferring(es), Forgetting(es))
  {
    if es != [] {
      var n := |es| - 1;
      DeferredIff(es[..n]);
      forall i: nat | i < n
        ensures Deferring(es)(i) == Deferring(es[..n])(i) && Forgetting(es)(i) == Forgetting(es[..n])(i)
      {
        assert es[..n][..i] == es[..i];
      }
      SinceSame(n, Deferring(es), Forgetting(es), Deferring(es[..n]), Forgetting(es[..n]));
      SinceStep(n, Deferring(es), Forgetting(es));
      DeferredStep(Run(es[..n]), es[n]);
    }
  }

  lemma DeferredStep(s: Broker, e: Event)
    ensures Next(s, e).library.delayedExpunge <==> Defers(s, e) || (s.library.delayedExpunge && !Forgets(s, e))
  {
  }

  /** An idle device whose worker waits unloads when asked to. */
  lemma {:induction false} IdleDeviceUnloads(s: Broker)
    requires Inv(s) && Idle(s) && !s.worker.pumping && !s.library.expunged
    ensures var r := RunFrom(s, [Expunge, StopWorker, Wake, Teardown]);
      r.library.expunged && !r.backendOpen && r.log == s.log
  {
    var a, b, c, d := UnloadSteps(s);
    RunAfter(s, Expunge, [StopWorker, Wake, Teardown]);
    RunAfter(a, StopWorker, [Wake, Teardown]);
    RunAfter(b, Wake, [Teardown]);
    RunAfter(c, Teardown, []);
    assert [Expunge] + [StopWorker, Wake, Teardown] == [Expunge, StopWorker, Wake, Teardown];
    assert [StopWorker] + [Wake, Teardown] == [StopWorker, Wake, Teardown];
    assert [Wake] + [Teardown] == [Wake, Teardown] && [Teardown] + [] == [Teardown];
  }

  lemma UnloadSteps(s: Broker) returns (a: Broker, b: Broker, c: Broker, d: Broker)
    requires Attended(s) && Idle(s) && !s.worker.pumping && !s.library.expunged
    ensures a == Next(s, Expunge) && b == Next(a, StopWorker) && c == Next(b, Wake) && d == Next(c, Teardown)
    ensures d.library.expunged && !d.backendOpen && d.log == s.log
  {
    a, b := ExpungeStep(s), StopStep(ExpungeStep(s));
    c := WakeStep(b);
    d := TeardownStep(c);
  }

  // ------------------------------------------------------------- the device

  /** io_Command; CMD_NONSTD is 9. Unknown stands for every other value. */
  function CommandCode(c: Command): u16 {
    match c
    case Exchange => 9
    case SetBaud => 10
    case GetBaud => 11
    case SetSerial => 12
    case GetSerial => 13
    case Unknown => 0
  }

  /** The device has one unit, which is never stopped. */
  const RULE := IoQueue.Rule([false], 0, 0)

  /** Queue entries name requests, whose fields `memory` holds. */
  ghost predicate Backed(q: seq<IoQueue.Entry>, memory: map<nat, Pending>) {
    && (forall i :: 0 <= i < |q| ==>
          q[i].unit == 0 && q[i].request in memory && memory[q[i].request].request.id == q[i].request)
    && (forall i, j :: 0 <= i < j < |q| ==> q[i].request != q[j].request)
  }

  /** The submissions that a queue of entries stands for. */
  ghost function Waiting(q: seq<IoQueue.Entry>, memory: map<nat, Pending>): (r: seq<Pending>)
    requires Backed(q, memory)
    ensures |r| == |q| && forall i :: 0 <= i < |q| ==> r[i] == memory[q[i].request]
  {
    seq(|q|, i requires 0 <= i < |q| => memory[q[i].request])
  }

  lemma FindsSame(q: seq<IoQueue.Entry>, memory: map<nat, Pending>, id: nat)
    requires Backed(q, memory)
    ensures Find(Waiting(q, memory), id) == IoQueue.Find(q, IoQueue.ByRequest(id))
  {
    var search := IoQueue.ByRequest(id);
    assert forall i :: 0 <= i < |q| ==> search.Matches(q[i]) == (Waiting(q, memory)[i].request.id == id);
  }

  lemma TakesFirst(q: seq<IoQueue.Entry>, memory: map<nat, Pending>)
    requires Backed(q, memory)
    ensures IoQueue.Find(q, IoQueue.Dispatch(RULE)) == 0
  {
    if q != [] { assert IoQueue.Dispatch(RULE).Matches(q[0]); }
  }

  lemma WaitingWithout(q: seq<IoQueue.Entry>, memory: map<nat, Pending>, k: nat)
    requires Backed(q, memory) && k < |q|
    ensures Backed(IoQueue.RemoveAt(q, k), memory)
    ensures Waiting(IoQueue.RemoveAt(q, k), memory) == Waiting(q, memory)[..k] + Waiting(q, memory)[k + 1..]
  {
    var r := IoQueue.RemoveAt(q, k);
    assert forall i :: 0 <= i < |r| ==> r[i] == q[if i < k then i else i + 1];
  }

  lemma WaitingWith(q: seq<IoQueue.Entry>, memory: map<nat, Pending>, e: IoQueue.Entry, p: Pending)
    requires Backed(q, memory) && e.unit == 0 && e.request == p.request.id
    requires IoQueue.Find(q, IoQueue.ByRequest(e.request)) == |q|
    ensures Backed(q + [e], memory[e.request := p])
    ensures Waiting(q + [e], memory[e.request := p]) == Waiting(q, memory) + [p]
  {
    forall i | 0 <= i < |q| ensures q[i].request != e.request {
      assert !IoQueue.ByRequest(e.request).Matches(q[i]);
    }
  }

  /** The linked queue together with the request structures it points to. */
  class RequestQueue {
    const list: IoQueue.Queue
    /** The request structures that have been submitted, by address. */
    var memory: map<nat, Pending>
    /** What is queued. */
    ghost var waiting: seq<Pending>

    ghost predicate Valid()
      reads this, list, list.footprint
    {
      && list.Valid() && Backed(list.Contents(), memory) && waiting == Waiting(list.Contents(), memory)
      && (waiting == [] <==> list.head == null)
    }

    constructor ()
      ensures Valid() && fresh(list) && list.footprint == {} && waiting == []
    {
      list := new IoQueue.Queue();
      memory, waiting := map[], [];
    }

    /** A node for the request goes to the end. */
    method Enqueue(p: Pending)
      requires Valid() && Find(waiting, p.request.id) == |waiting|
      modifies `memory, `waiting, list, list.footprint
      ensures Valid() && waiting == old(waiting) + [p]
      ensures fresh(list.footprint - old(list.footprint))
    {
      var id, command := p.request.id, CommandCode(p.request.command);
      FindsSame(list.Contents(), memory, id);
      WaitingWith(list.Contents(), memory, IoQueue.Entry(id, 0, command), p);
      var node := new IoQueue.Node();
      list.Append(node, id, 0, command);
      memory, waiting := memory[id := p], waiting + [p];
    }

    /** dequeue_next: the oldest request, if there is one. */
    method Dequeue() returns (p: Option<Pending>)
      requires Valid()
      modifies `waiting, list, list.footprint
      ensures Valid() && p == if old(waiting) == [] then None else Some(old(waiting)[0])
      ensures waiting == if old(waiting) == [] then [] else old(waiting)[1..]
      ensures list.footprint == old(list.footprint)
    {
      TakesFirst(list.Contents(), memory);
      if waiting != [] { WaitingWithout(list.Contents(), memory, 0); }
      var node := list.Next(RULE);
      if node == null { return None; }
      waiting := waiting[1..];
      p := Some(memory[node.request]);
    }

    /** Takes one request out, if it is there. */
    method Unqueue(id: nat) returns (p: Option<Pending>)
      requires Valid()
      modifies `waiting, list, list.footprint
      ensures var k := Find(old(waiting), id);
        && Valid() && p == (if k < |old(waiting)| then Some(old(waiting)[k]) else None)
        && waiting == if k < |old(waiting)| then old(waiting)[..k] + old(waiting)[k + 1..] else old(waiting)
      ensures list.footprint == old(list.footprint)
    {
      ghost var q, k := list.Contents(), Find(waiting, id);
      FindsSame(q, memory, id);
      if k < |waiting| { WaitingWithout(q, memory, k); }
      var node := list.RemoveRequest(id);
      assert list.Contents() == IoQueue.Drop(q, k);
      if node == null { return None; }
      waiting := waiting[..k] + waiting[k + 1..];
      p := Some(memory[id]);
    }
  }

  /** The device base over the linked queue. Each method is one Disable/Enable
      section (or worker-private work followed by one) and performs exactly the
      corresponding step. */
  class NioDevice {
    const queue: RequestQueue
    var inProgress: Option<Pending>
    var inProgressAborted: bool
    var ioProcessing: bool
    var backendOpen: bool
    var stage: Stage
    var signalled: bool
    var pumping: bool
    var openCount: nat
    var delayedExpunge: bool
    ghost var log: History
    var leaving: bool
    var expunged: bool
    var tickets: nat

    ghost predicate Valid()
      reads this, queue, queue.list, queue.list.footprint
    {
      tickets == |log.submitted| && queue.Valid()
    }

    ghost function State(): Broker
      reads this, queue
    {
      Broker(queue.waiting, Worker(stage, signalled, pumping, ioProcessing, inProgress, inProgressAborted), backendOpen,
             Library(openCount, delayedExpunge, leaving, expunged), log)
    }

    constructor ()
      ensures Valid() && State() == INITIAL && fresh(queue) && fresh(queue.list)
    {
      queue := new RequestQueue();
      inProgress, inProgressAborted, ioProcessing, backendOpen := None, false, false, false;
      stage, signalled, pumping := Alive, false, false;
      openCount, delayedExpunge, leaving, expunged, tickets := 0, false, false, false, 0;
      log := History([], [], [], [], [], {});
    }

    method BeginIO(q: Request, hasMemory: bool)
      requires Valid() && !expunged && !Outstanding(State(), q.id)
      modifies `ioProcessing, `signalled, `log, `tickets, queue`memory, queue`waiting,
               queue.list, queue.list.footprint
      ensures Valid() && State() == BeginStep(old(State()), q, hasMemory)
      ensures fresh(queue.list.footprint - old(queue.list.footprint))
    {
      if Verdict(q) != Fine {
        Refuse(q, Verdict(q));
      } else if !hasMemory {
        Refuse(q, OpenFail);
      } else {
        Accept(q);
      }
    }

    method Refuse(q: Request, error: IoError)
      requires Valid()
      modifies `log
      ensures Valid() && State() == old(State()).(log := old(log).(refused := old(log).refused + [(q, error)]))
    {
      log := log.(refused := log.refused + [(q, error)]);
    }

    method Accept(q: Request)
      requires Valid() && Find(queue.waiting, q.id) == |queue.waiting| && Verdict(q) == Fine
      modifies `ioProcessing, `signalled, `log, `tickets, queue`memory, queue`waiting,
               queue.list, queue.list.footprint
      ensures Valid() && State() == BeginStep(old(State()), q, true)
      ensures fresh(queue.list.footprint - old(queue.list.footprint))
    {
      var p := Pending(tickets, q);
      Announce(p);
      queue.Enqueue(p);
    }

    /** The submission is on record and the worker signalled. */
    method Announce(p: Pending)
      requires tickets == |log.submitted|
      modifies `ioProcessing, `signalled, `log, `tickets
      ensures tickets == |log.submitted| && ioProcessing && signalled == (old(signalled) || stage != Gone)
      ensures log == old(log).(submitted := old(log).submitted + [p])
    {
      ioProcessing, signalled := true, signalled || stage != Gone;
      tickets, log := tickets + 1, log.(submitted := log.submitted + [p]);
    }

    /** The worker's Wait() returns. */
    method WakeUp()
      requires Valid() && !expunged && signalled && !pumping && stage != Gone
      modifies `signalled, `pumping, `stage
      ensures Valid() && State() == WakeStep(old(State()))
    {
      signalled := false;
      if stage == Stopping { stage := Gone; } else { pumping := true; }
    }

    /** The locked head of worker_pump; true if there is a request to process. */
    method TakeNext() returns (more: bool)
      requires Valid() && !expunged && pumping && inProgress.None?
      modifies `inProgress, `inProgressAborted, `ioProcessing, `pumping, queue`waiting, queue.list, queue.list.footprint
      ensures Valid() && State() == TakeStep(old(State())) && more == inProgress.Some?
      ensures queue.list.footprint == old(queue.list.footprint)
    {
      var p := queue.Dequeue();
      Start(p);
      more := p.Some?;
    }

    /** The worker has a request, or goes idle. */
    method Start(p: Option<Pending>)
      requires Valid() && inProgress.None?
      modifies `inProgress, `inProgressAborted, `ioProcessing, `pumping
      ensures Valid()
      ensures var w := old(State()).worker;
        State() == old(State()).(worker := if p.Some? then w.(running := p, aborted := false)
                                           else w.(processing := false, pumping := false))
    {
      inProgress := p;
      if p.Some? { inProgressAborted := false; } else { ioProcessing, pumping := false, false; }
    }

    /** The unlocked part of process_exchange and process_control: open on demand,
        call the backend, close after a fault or for a new configuration. */
    method CallBackend(p: Pending, a: Answer) returns (r: Result)
      modifies `backendOpen
      ensures r == Completion(old(backendOpen), p, a) && backendOpen == BackendAfter(old(backendOpen), p, a)
    {
      var code, length := a.call, 0;
      match p.request.command {
        case Exchange =>
          if !backendOpen && a.open != Ok { return Result(a.open, 0); }
          backendOpen := code !in {Transport, Timeout};
          if code == Ok {
            if a.length > p.request.capacity { code := Io; } else { length := a.length; }
          }
        case GetBaud =>
          if code == Ok { length := 4; }
        case GetSerial =>
          if code == Ok {
            if a.length > SERIAL_PAYLOAD_MAX { code := Invalid; } else { length := a.length; }
          }
        case _ =>
          backendOpen := false;
      }
      r := Result(code, length);
    }

    /** process_exchange or process_control, ending in the locked completion. */
    method Process(a: Answer)
      requires Valid() && !expunged && inProgress.Some?
      modifies `inProgress, `inProgressAborted, `backendOpen, `log
      ensures Valid() && State() == CompleteStep(old(State()), a)
    {
      var p := inProgress.value;
      var result := CallBackend(p, a);
      log := if inProgressAborted then log.(aborted := log.aborted + [p]) else log.Serve(p, result);
      inProgress := None;
      inProgressAborted := false;
    }

    /** A queued request is taken out and replied as aborted. */
    method Withdraw(id: nat) returns (found: bool)
      requires Valid()
      modifies `log, queue`waiting, queue.list, queue.list.footprint
      ensures var s, k := old(State()), Find(old(queue.waiting), id);
        Valid() && found == (k < |s.queue|) && State() == if found then Withdrawn(s, k) else s
      ensures queue.list.footprint == old(queue.list.footprint)
    {
      ghost var s, k := State(), Find(queue.waiting, id);
      var p := queue.Unqueue(id);
      found := p.Some?;
      if found {
        assert State() == s.(queue := s.queue[..k] + s.queue[k + 1..]);
        Record(log.Abort(p.value));
      }
    }

    method Record(ghost h: History)
      requires Valid() && h.submitted == log.submitted
      modifies `log
      ensures Valid() && State() == old(State()).(log := h)
    {
      log := h;
    }

    method AbortIO(id: nat)
      requires Valid() && !expunged
      modifies `inProgressAborted, `log, queue`waiting, queue.list, queue.list.footprint
      ensures Valid() && State() == AbortStep(old(State()), id)
      ensures queue.list.footprint == old(queue.list.footprint)
    {
      var found := Withdraw(id);
      if !found && inProgress.Some? && inProgress.value.request.id == id {
        inProgressAborted := true;
        log := log.Call(inProgress.value);
      }
    }

    method OpenDevice()
      requires Valid() && !expunged
      modifies `openCount, `delayedExpunge
      ensures Valid() && State() == Next(old(State()), Open)
    {
      openCount := openCount + 1;
      delayedExpunge := false;
    }

    /** CloseDevice; true if the caller goes on to device_expunge. */
    method CloseDevice(id: nat) returns (expunge: bool)
      requires Valid() && !expunged
      modifies `log, `openCount, queue`waiting, queue.list, queue.list.footprint
      ensures Valid() && State() == CloseStep(old(State()), id) && expunge == (openCount == 0 && delayedExpunge)
      ensures queue.list.footprint == old(queue.list.footprint)
    {
      var _ := Withdraw(id);
      Leave();
      expunge := openCount == 0 && delayedExpunge;
    }

    method Leave()
      requires Valid()
      modifies `openCount
      ensures Valid() && State() == Departure(old(State()))
    {
      if openCount != 0 { openCount := openCount - 1; }
    }

    /** The locked check of device_expunge. */
    method TryExpunge()
      requires Valid()
      modifies `delayedExpunge, `leaving
      ensures Valid() && State() == ExpungeStep(old(State()))
    {
      if openCount != 0 || queue.list.head != null || inProgress.Some? {
        delayedExpunge := true;
      } else {
        delayedExpunge := false;
        leaving := true;
      }
    }

    /** The head of stop_directory_worker and stop_serial_worker. */
    method RequestStop()
      requires Valid() && !expunged && leaving && stage != Gone
      modifies `stage, `signalled
      ensures Valid() && State() == StopStep(old(State()))
    {
      stage, signalled := Stopping, true;
    }

    /** The rest of device_expunge, after the wait for the worker; true if the segment
        list is returned. */
    method FinishExpunge() returns (unloaded: bool)
      requires Valid() && !expunged && leaving && stage != Alive
      modifies `delayedExpunge, `leaving, `backendOpen, `expunged
      ensures Valid() && State() == TeardownStep(old(State())) && unloaded == expunged == stage.Gone?
    {
      leaving, unloaded := false, stage == Gone;
      if unloaded {
        backendOpen := false;
        expunged := true;
      } else {
        delayedExpunge := true;
      }
    }
  }
}
