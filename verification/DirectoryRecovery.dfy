/** The persistent recovery protocol of the shared-directory backend
    (amiga/nio.device/fujinet_nio_directory_backend.c) as a state machine: guest,
    host, operator and crash each move by single file operations.

    Challenges are never-reused tokens, so they are numbered in the order the host
    draws them. A request is named by its ticket. */
module DirectoryRecovery {
  import opened Wrappers

  /** A RECOVER file: the challenge copied into it, the number of transfers that
      had retired consent when it was deposited, and its own serial number. */
  datatype Consent = Consent(token: nat, epoch: nat, serial: nat)

  /** Between a barrier request and its acknowledgement the host drains, rotates
      the challenge, then publishes ACK. */
  datatype HostPc = HostIdle | Drained(barrier: nat) | Rotated(barrier: nat)

  /** Where the guest is. Quiesce states carry the challenge read on entry and,
      once it has been consumed, the operator's consent. */
  datatype GuestPc =
    | Idle
    // directory_quiesce
    | Recovering
    | HaveChallenge(token: nat)
    | NeedConsent(token: nat)
    | Consuming(token: nat, read: Consent)
    | Clearing(token: nat, consent: Option<Consent>)
    | Requesting(token: nat, consent: Option<Consent>)
    | Polling(token: nat, consent: Option<Consent>)
    | SeenAck(token: nat, consent: Option<Consent>)
    | Proved(token: nat, consent: Option<Consent>, next: nat)
    | ProvedHalf(token: nat, consent: Option<Consent>, next: nat)
    // directory_transfer inside backend_exchange
    | Sending
    | Checked
    | Current
    | Retired
    | MarkedTmp
    | Marked
    | Refused
    | RefusedHalf
    | Waiting
    | Received(reply: nat)
    | Accepted
    | AcceptedHalf

  datatype State = State(
    // the directory
    challenge: nat, ack: Option<nat>, recover: Option<Consent>, barriers: set<nat>,
    ambiguous: bool, ambiguousTmp: bool, toHost: Option<nat>, toGuest: Option<nat>,
    // the host process
    host: HostPc, work: set<nat>,
    // the guest's volatile memory
    quarantined: bool, sessionReady: bool, sessionChallenge: nat, pc: GuestPc,
    // counters for naming: requests published, transfers begun, consents deposited and spent
    ticket: nat, epoch: nat, deposits: nat, spent: set<nat>)

  const INITIAL := State(0, None, None, {}, false, false, None, None,
                         HostIdle, {}, true, false, 0, Idle, 0, 0, 0, {})

  /** Requests the peer may still execute, or whose reply may still be delivered. */
  ghost function Outstanding(s: State): set<nat> {
    s.work + (if s.toHost.Some? then {s.toHost.value} else {})
           + (if s.toGuest.Some? then {s.toGuest.value} else {})
  }

  /** Nothing outstanding. */
  predicate Quiet(s: State) { s.work == {} && s.toHost.None? && s.toGuest.None? }

  /** The uncertainty marker, under its final or its temporary name. */
  predicate Marker(s: State) { s.ambiguous || s.ambiguousTmp }

  /** directory_quiesce, one file operation at a time. */
  datatype QuiesceOp =
    | BeginRecover | ReadChallenge | CheckMarker | ReadRecover | SpendRecover
    | DiscardAck | WriteBarrier | ReadAck | ReadRotated | ProvedRemove | ProvedRemoveTmp

  /** backend_exchange and directory_transfer. */
  datatype ExchangeOp =
    | BeginExchange | CheckSession | CheckCurrent | RetireRecover | WriteMarkerTmp | RenameMarker
    | Publish | RefuseSend | RefusedRemove | RefusedRemoveTmp
    | Receive | DropReply | Validate | RejectReply | AcceptedRemove | AcceptedRemoveTmp

  /** The host process, and the operator who copies CHALLENGE to RECOVER. */
  datatype EnvOp =
    | HostTakes | HostReplies(request: nat) | HostDrops(request: nat)
    | HostDrains(barrier: nat) | HostRotates | HostAcks | HostRestarts
    | Deposit

  /** `GuestFails`: a file operation fails or polling times out; the file being
      removed may be gone all the same. The discards are those of close and reset. */
  datatype Event =
    | Quiesce(q: QuiesceOp) | Exchange(x: ExchangeOp) | GuestFails(removed: bool)
    | DiscardToHost | DiscardToGuest | LocalReset | Crash
    | Env(v: EnvOp)

  predicate InQuiesce(pc: GuestPc) {
    pc.Recovering? || pc.HaveChallenge? || pc.NeedConsent? || pc.Consuming? || pc.Clearing?
    || pc.Requesting? || pc.Polling? || pc.SeenAck? || pc.Proved? || pc.ProvedHalf?
  }

  predicate InExchange(pc: GuestPc) { !pc.Idle? && !InQuiesce(pc) }

  /** What only the host and the operator change. */
  function HostSide(s: State): (nat, HostPc, set<nat>, nat) { (s.challenge, s.host, s.work, s.deposits) }

  /** The guard's view when a callback gives up: quarantine stays or is restored,
      and the error paths of the polling loop try to discard the request record. */
  function Fail(s: State, removed: bool): (r: State)
    ensures HostSide(r) == HostSide(s) && (r.ack == s.ack || r.ack.None?)
    ensures r.pc.Idle? && (r.recover == s.recover || r.recover.None?) && r.ticket == s.ticket
    ensures (r.toHost == s.toHost || r.toHost.None?) && (r.toGuest == s.toGuest || r.toGuest.None?)
  {
    var s' := s.(pc := Idle, quarantined := true);
    match s.pc
    case Idle => s
    case Consuming(_, _) => if removed then s'.(recover := None) else s'
    case Current => if removed then s'.(recover := None) else s'
    case Clearing(_, _) => if removed then s'.(ack := None) else s'
    // A failed marker write may or may not leave the temporary file behind.
    case Retired => s'.(ambiguousTmp := !removed)
    case Proved(_, _, _) => if removed then s'.(ambiguous := false) else s'
    case Refused => if removed then s'.(ambiguous := false) else s'
    // The validated reply is kept, but no later exchange may start.
    case Accepted => (if removed then s'.(ambiguous := false) else s').(sessionReady := false)
    case AcceptedHalf => s'.(sessionReady := false)
    case Waiting => if removed then s'.(toHost := None) else s'
    case _ => s'
  }

  // One step each. An operation that is not enabled changes nothing.

  function QuiesceStep(s: State, q: QuiesceOp): (r: State)
    ensures HostSide(r) == HostSide(s) && (r.ack == s.ack || r.ack.None?)
    ensures r.ticket == s.ticket && r.epoch == s.epoch && (r.recover == s.recover || r.recover.None?)
  {
    match q
    case BeginRecover => if s.pc.Idle? then s.(pc := Recovering, sessionReady := false) else s
    case ReadChallenge => if s.pc.Recovering? then s.(pc := HaveChallenge(s.challenge)) else s
    case CheckMarker =>
      if s.pc.HaveChallenge? then
        s.(pc := if Marker(s) then NeedConsent(s.pc.token) else Clearing(s.pc.token, None))
      else s
    case ReadRecover =>
      if s.pc.NeedConsent? then
        if s.recover.Some? && s.recover.value.token == s.pc.token
        then s.(pc := Consuming(s.pc.token, s.recover.value))
        else Fail(s, false)
      else s
    case SpendRecover =>
      if s.pc.Consuming? then
        s.(recover := None, spent := s.spent + {s.pc.read.serial}, pc := Clearing(s.pc.token, Some(s.pc.read)))
      else s
    case DiscardAck =>
      if s.pc.Clearing? then s.(ack := None, pc := Requesting(s.pc.token, s.pc.consent)) else s
    case WriteBarrier =>
      if s.pc.Requesting? then
        s.(barriers := s.barriers + {s.pc.token}, pc := Polling(s.pc.token, s.pc.consent))
      else s
    case ReadAck =>
      if s.pc.Polling? && s.ack == Some(s.pc.token) then s.(pc := SeenAck(s.pc.token, s.pc.consent)) else s
    case ReadRotated =>
      if s.pc.SeenAck? then
        s.(pc := if s.challenge != s.pc.token then Proved(s.pc.token, s.pc.consent, s.challenge)
                 else Polling(s.pc.token, s.pc.consent))
      else s
    case ProvedRemove =>
      if s.pc.Proved? then s.(ambiguous := false, pc := ProvedHalf(s.pc.token, s.pc.consent, s.pc.next)) else s
    case ProvedRemoveTmp =>
      if s.pc.ProvedHalf? then
        s.(ambiguousTmp := false, sessionChallenge := s.pc.next, sessionReady := true, quarantined := false, pc := Idle)
      else s
  }

  function ExchangeStep(s: State, x: ExchangeOp): (r: State)
    ensures HostSide(r) == HostSide(s) && r.ack == s.ack
    ensures (r.recover == s.recover || r.recover.None?) && (InQuiesce(r.pc) ==> r.pc == s.pc)
  {
    match x
    case BeginExchange => if s.pc.Idle? && !s.quarantined then s.(quarantined := true, pc := Sending) else s
    case CheckSession =>
      if s.pc.Sending? then s.(pc := if s.sessionReady && !Marker(s) then Checked else Idle) else s
    case CheckCurrent =>
      if s.pc.Checked? then s.(pc := if s.challenge == s.sessionChallenge then Current else Idle) else s
    case RetireRecover => if s.pc.Current? then s.(recover := None, epoch := s.epoch + 1, pc := Retired) else s
    case WriteMarkerTmp => if s.pc.Retired? then s.(ambiguousTmp := true, pc := MarkedTmp) else s
    case RenameMarker =>
      if s.pc.MarkedTmp? then s.(ambiguous := true, ambiguousTmp := false, pc := Marked) else s
    case Publish =>
      if s.pc.Marked? then
        if s.toHost.None? then s.(toHost := Some(s.ticket + 1), ticket := s.ticket + 1, pc := Waiting)
        else s.(pc := Refused)
      else s
    case RefuseSend => if s.pc.Marked? then s.(pc := Refused) else s
    case RefusedRemove => if s.pc.Refused? then s.(ambiguous := false, pc := RefusedHalf) else s
    case RefusedRemoveTmp =>
      if s.pc.RefusedHalf? then s.(ambiguousTmp := false, quarantined := false, pc := Idle) else s
    case Receive =>
      if s.pc.Waiting? && s.toGuest.Some? then s.(toGuest := None, pc := Received(s.toGuest.value)) else s
    // A record that cannot be read is removed; the call then gives up.
    case DropReply => if s.pc.Waiting? then s.(toGuest := None) else s
    case Validate => if s.pc.Received? then s.(quarantined := false, pc := Accepted) else s
    case RejectReply => if s.pc.Received? then s.(pc := Idle) else s
    case AcceptedRemove => if s.pc.Accepted? then s.(ambiguous := false, pc := AcceptedHalf) else s
    case AcceptedRemoveTmp => if s.pc.AcceptedHalf? then s.(ambiguousTmp := false, pc := Idle) else s
  }

  function EnvStep(s: State, v: EnvOp): State {
    match v
    case HostTakes =>
      if s.host.HostIdle? && s.toHost.Some? then s.(toHost := None, work := s.work + {s.toHost.value}) else s
    case HostReplies(r) =>
      if s.host.HostIdle? && r in s.work then s.(work := s.work - {r}, toGuest := Some(r)) else s
    case HostDrops(r) => s.(work := s.work - {r})
    case HostDrains(b) =>
      if s.host.HostIdle? && b in s.barriers then
        s.(barriers := s.barriers - {b}, toHost := None, toGuest := None, work := {}, host := Drained(b))
      else s
    case HostRotates =>
      if s.host.Drained? then s.(challenge := s.challenge + 1, host := Rotated(s.host.barrier)) else s
    case HostAcks => if s.host.Rotated? then s.(ack := Some(s.host.barrier), host := HostIdle) else s
    case HostRestarts =>
      s.(challenge := s.challenge + 1, ack := None, barriers := {}, recover := None, host := HostIdle)
    case Deposit =>
      s.(recover := Some(Consent(s.challenge, s.epoch, s.deposits)), deposits := s.deposits + 1)
  }

  function Next(s: State, e: Event): State {
    match e
    case Quiesce(q) => QuiesceStep(s, q)
    case Exchange(x) => ExchangeStep(s, x)
    case Env(v) => EnvStep(s, v)
    case GuestFails(removed) => Fail(s, removed)
    case DiscardToHost => if s.pc.Idle? then s.(toHost := None) else s
    case DiscardToGuest => if s.pc.Idle? then s.(toGuest := None) else s
    case LocalReset => if s.pc.Idle? then s.(quarantined := true) else s
    case Crash => s.(pc := Idle, quarantined := true, sessionReady := false)
  }

  function Run(s: State, es: seq<Event>): State {
    if es == [] then s else Next(Run(s, es[..|es| - 1]), es[|es| - 1])
  }

  // -------------------------------------------------------------- invariant

  /** The challenge a quiesce call is working for, once it has read one. */
  function Token(pc: GuestPc): Option<nat> {
    if InQuiesce(pc) && !pc.Recovering? then Some(pc.token) else None
  }

  function ConsentOf(pc: GuestPc): Option<Consent> {
    if pc.Clearing? || pc.Requesting? || pc.Polling? || pc.SeenAck? || pc.Proved? || pc.ProvedHalf?
    then pc.consent else None
  }

  /** The host has drained for challenge b, in this or an earlier guest life. */
  predicate DrainedFor(s: State, b: nat) {
    (!s.host.HostIdle? && s.host.barrier == b) || s.ack == Some(b)
  }

  /** A published request is in one place at a time, and only the latest exists. */
  ghost predicate OnePlace(s: State) {
    && (forall r :: r in s.work ==> r == s.ticket)
    && (s.toHost.Some? ==> s.toHost.value == s.ticket)
    && (s.toGuest.Some? ==> s.toGuest.value == s.ticket)
    && (s.toHost.Some? ==> s.work == {} && s.toGuest.None?)
    && (s.work != {} ==> s.toGuest.None?)
  }

  ghost predicate Uncertainty(s: State) {
    && (!Quiet(s) ==> Marker(s))
    && (!s.quarantined ==> Quiet(s))
    && (InExchange(s.pc) && !s.pc.Waiting? ==> Quiet(s))
    && (InExchange(s.pc) && !s.pc.Accepted? && !s.pc.AcceptedHalf? ==> s.quarantined)
    && (s.pc.Checked? || s.pc.Current? || s.pc.Retired? ==> !Marker(s))
    && (s.pc.Marked? || s.pc.Waiting? ==> s.ambiguous)
    && (s.pc.SeenAck? || s.pc.Proved? || s.pc.ProvedHalf? ==> Quiet(s))
  }

  ghost predicate Tokens(s: State) {
    && (s.ack.Some? ==> s.ack.value < s.challenge)
    && (forall b :: b in s.barriers ==> b <= s.challenge)
    && (s.host.Drained? ==> s.host.barrier <= s.challenge)
    && (s.host.Rotated? ==> s.host.barrier < s.challenge)
    && (Token(s.pc).Some? ==>
          && Token(s.pc).value <= s.challenge
          && (forall b :: b in s.barriers ==> b <= Token(s.pc).value)
          && (!s.host.HostIdle? ==> s.host.barrier <= Token(s.pc).value))
    && (s.pc.Proved? || s.pc.ProvedHalf? ==> s.pc.token < s.pc.next <= s.challenge)
  }

  ghost predicate Sessions(s: State) {
    && (s.sessionReady ==>
          && s.sessionChallenge <= s.challenge
          && (forall b :: b in s.barriers ==> b < s.sessionChallenge)
          && (!s.host.HostIdle? ==> s.host.barrier < s.sessionChallenge))
    && (InQuiesce(s.pc) ==> !s.sessionReady)
    && (s.pc.Checked? || s.pc.Current? || s.pc.Retired? || s.pc.MarkedTmp? || s.pc.Marked? || s.pc.Waiting?
        ==> s.sessionReady)
  }

  /** A drained barrier for the challenge in force, or for the one the guest is
      waiting on, means that nothing is outstanding. */
  ghost predicate Barriers(s: State) {
    && (s.host == Drained(s.challenge) ==> Quiet(s))
    && (Token(s.pc).Some? && DrainedFor(s, Token(s.pc).value) ==> Quiet(s))
  }

  ghost predicate Consents(s: State) {
    && (s.recover.Some? ==>
          && s.recover.value.epoch == s.epoch && s.recover.value.token <= s.challenge
          && s.recover.value.serial < s.deposits && s.recover.value.serial !in s.spent)
    && (s.pc.Consuming? ==>
          && s.pc.read.token == s.pc.token && s.pc.read.epoch == s.epoch
          && s.pc.read.serial < s.deposits && s.pc.read.serial !in s.spent)
    && (ConsentOf(s.pc).Some? ==>
          && ConsentOf(s.pc).value.token == s.pc.token
          && ConsentOf(s.pc).value.epoch == s.epoch
          && ConsentOf(s.pc).value.serial in s.spent)
    && (Token(s.pc).Some? && ConsentOf(s.pc).None? && !s.pc.HaveChallenge? && !s.pc.NeedConsent? && !s.pc.Consuming?
        ==> !Marker(s))
    && (forall n :: n in s.spent ==> n < s.deposits)
  }

  ghost predicate Inv(s: State) {
    OnePlace(s) && Uncertainty(s) && Tokens(s) && Sessions(s) && Barriers(s) && Consents(s)
  }

  // ------------------------------------------------- every step keeps it

  lemma QuiesceKeepsPlace(s: State, q: QuiesceOp)
    requires OnePlace(s)
    ensures OnePlace(QuiesceStep(s, q)) && QuiesceStep(s, q).work == s.work
  {
  }

  /** The head of directory_quiesce, up to the barrier request, proves and removes nothing. */
  predicate Asks(q: QuiesceOp) { !q.ReadAck? && !q.ReadRotated? && !q.ProvedRemove? && !q.ProvedRemoveTmp? }

  lemma AskingKeepsUncertainty(s: State, q: QuiesceOp)
    requires Uncertainty(s) && Asks(q)
    ensures Uncertainty(QuiesceStep(s, q))
  {
  }

  lemma ProvingKeepsUncertainty(s: State, q: QuiesceOp)
    requires Uncertainty(s) && Barriers(s) && !Asks(q)
    ensures Uncertainty(QuiesceStep(s, q))
  {
  }

  lemma QuiesceKeepsUncertainty(s: State, q: QuiesceOp)
    requires Uncertainty(s) && Barriers(s)
    ensures Uncertainty(QuiesceStep(s, q))
  {
    if Asks(q) { AskingKeepsUncertainty(s, q); } else { ProvingKeepsUncertainty(s, q); }
  }

  lemma QuiesceKeepsTokens(s: State, q: QuiesceOp)
    requires Tokens(s)
    ensures Tokens(QuiesceStep(s, q))
  {
  }

  lemma QuiesceKeepsSessions(s: State, q: QuiesceOp)
    requires Tokens(s) && Sessions(s)
    ensures Sessions(QuiesceStep(s, q))
  {
  }

  lemma QuiesceKeepsBarriers(s: State, q: QuiesceOp)
    requires Uncertainty(s) && Tokens(s) && Barriers(s)
    ensures Barriers(QuiesceStep(s, q))
  {
  }

  lemma QuiesceKeepsConsents(s: State, q: QuiesceOp)
    requires Inv(s)
    ensures Consents(QuiesceStep(s, q))
  {
  }

  lemma ExchangeKeepsPeer(s: State, x: ExchangeOp)
    requires Inv(s)
    ensures OnePlace(ExchangeStep(s, x)) && Uncertainty(ExchangeStep(s, x))
  {
  }

  lemma ExchangeKeepsTokens(s: State, x: ExchangeOp)
    requires Tokens(s)
    ensures Tokens(ExchangeStep(s, x))
  {
  }

  lemma ExchangeKeepsSessions(s: State, x: ExchangeOp)
    requires Inv(s)
    ensures Sessions(ExchangeStep(s, x)) && Barriers(ExchangeStep(s, x))
  {
  }

  lemma ExchangeKeepsConsents(s: State, x: ExchangeOp)
    requires Inv(s)
    ensures Consents(ExchangeStep(s, x))
  {
  }

  lemma EnvKeepsPeer(s: State, v: EnvOp)
    requires Inv(s)
    ensures OnePlace(EnvStep(s, v)) && Uncertainty(EnvStep(s, v))
  {
  }

  lemma EnvKeepsTokens(s: State, v: EnvOp)
    requires Inv(s)
    ensures Tokens(EnvStep(s, v))
  {
  }

  lemma EnvKeepsSessions(s: State, v: EnvOp)
    requires Inv(s)
    ensures Sessions(EnvStep(s, v))
  {
  }

  lemma EnvKeepsBarriers(s: State, v: EnvOp)
    requires Inv(s)
    ensures Barriers(EnvStep(s, v))
  {
  }

  lemma EnvKeepsConsents(s: State, v: EnvOp)
    requires Inv(s)
    ensures Consents(EnvStep(s, v))
  {
  }

  lemma FailKeepsPlace(s: State, removed: bool)
    requires OnePlace(s)
    ensures OnePlace(Fail(s, removed))
  {
    var r := Fail(s, removed);
    assert r.ticket == s.ticket && r.work == s.work;
  }

  lemma FailKeepsUncertainty(s: State, removed: bool)
    requires Inv(s)
    ensures Uncertainty(Fail(s, removed))
  {
  }

  lemma FailKeepsTokens(s: State, removed: bool)
    requires Inv(s)
    ensures Tokens(Fail(s, removed))
  {
  }

  lemma FailKeepsSessions(s: State, removed: bool)
    requires Inv(s)
    ensures Sessions(Fail(s, removed))
  {
  }

  lemma FailKeepsBarriers(s: State, removed: bool)
    requires Inv(s)
    ensures Barriers(Fail(s, removed))
  {
  }

  lemma FailKeepsConsents(s: State, removed: bool)
    requires Inv(s)
    ensures Consents(Fail(s, removed))
  {
  }

  // One lemma for each case of Next.

  lemma QuiesceNext(s: State, q: QuiesceOp)
    requires Inv(s)
    ensures Inv(Next(s, Quiesce(q)))
  {
    assert Next(s, Quiesce(q)) == QuiesceStep(s, q);
    QuiesceKeepsPlace(s, q);
    QuiesceKeepsUncertainty(s, q);
    QuiesceKeepsTokens(s, q);
    QuiesceKeepsSessions(s, q);
    QuiesceKeepsBarriers(s, q);
    QuiesceKeepsConsents(s, q);
  }

  lemma ExchangeNext(s: State, x: ExchangeOp)
    requires Inv(s)
    ensures Inv(Next(s, Exchange(x)))
  {
    assert Next(s, Exchange(x)) == ExchangeStep(s, x);
    ExchangeKeepsPeer(s, x);
    ExchangeKeepsTokens(s, x);
    ExchangeKeepsSessions(s, x);
    ExchangeKeepsConsents(s, x);
  }

  lemma EnvNext(s: State, v: EnvOp)
    requires Inv(s)
    ensures Inv(Next(s, Env(v)))
  {
    assert Next(s, Env(v)) == EnvStep(s, v);
    EnvKeepsPeer(s, v);
    EnvKeepsTokens(s, v);
    EnvKeepsSessions(s, v);
    EnvKeepsBarriers(s, v);
    EnvKeepsConsents(s, v);
  }

  lemma FailNext(s: State, removed: bool)
    requires Inv(s)
    ensures Inv(Next(s, GuestFails(removed)))
  {
    assert Next(s, GuestFails(removed)) == Fail(s, removed);
    FailKeepsPlace(s, removed);
    FailKeepsUncertainty(s, removed);
    FailKeepsTokens(s, removed);
    FailKeepsSessions(s, removed);
    FailKeepsBarriers(s, removed);
    FailKeepsConsents(s, removed);
  }

  lemma DiscardToHostNext(s: State)
    requires Inv(s)
    ensures Inv(Next(s, DiscardToHost))
  {
  }

  lemma DiscardToGuestNext(s: State)
    requires Inv(s)
    ensures Inv(Next(s, DiscardToGuest))
  {
  }

  lemma LocalResetNext(s: State)
    requires Inv(s)
    ensures Inv(Next(s, LocalReset))
  {
  }

  lemma CrashNext(s: State)
    requires Inv(s)
    ensures Inv(Next(s, Crash))
  {
  }

  lemma {:induction false} StepKeepsInv(s: State, e: Event)
    requires Inv(s)
    ensures Inv(Next(s, e))
  {
    match e {
      case Quiesce(q) => QuiesceNext(s, q);
      case Exchange(x) => ExchangeNext(s, x);
      case Env(v) => EnvNext(s, v);
      case GuestFails(removed) => FailNext(s, removed);
      case DiscardToHost => DiscardToHostNext(s);
      case DiscardToGuest => DiscardToGuestNext(s);
      case LocalReset => LocalResetNext(s);
      case Crash => CrashNext(s);
    }
  }

  lemma {:induction false} RunKeepsInv(s: State, es: seq<Event>)
    requires Inv(s)
    ensures Inv(Run(s, es))
  {
    if es != [] {
      RunKeepsInv(s, es[..|es| - 1]);
      StepKeepsInv(Run(s, es[..|es| - 1]), es[|es| - 1]);
    }
  }

  // --------------------------------------------------------------- theorems

  /** In every run, with crashes, reloads and host restarts anywhere: whenever
      the peer may still execute or answer an earlier request, AMBIGUOUS is on
      disk; there is at most one such request, the latest published; and an
      unquarantined guard faces a quiescent peer. */
  lemma {:induction false} MarkerCoversOutstanding(es: seq<Event>)
    ensures var s := Run(INITIAL, es);
      && (Outstanding(s) != {} ==> Marker(s))
      && Outstanding(s) <= {s.ticket}
      && (!s.quarantined ==> Outstanding(s) == {})
  {
    RunKeepsInv(INITIAL, es);
  }

  /** The marker disappears only with nothing outstanding, and only in one of the
      three states that hold a proof: send refused, reply validated, barrier seen. */
  lemma {:induction false} MarkerRemovalNeedsProof(es: seq<Event>, e: Event)
    requires Marker(Run(INITIAL, es)) && !Marker(Run(INITIAL, es + [e]))
    ensures Outstanding(Run(INITIAL, es)) == {} && HoldsProof(Run(INITIAL, es).pc)
  {
    RunKeepsInv(INITIAL, es);
    assert (es + [e])[..|es|] == es;
    RemovalStep(Run(INITIAL, es), e);
  }

  /** The one failure that the protocol cannot bear, and that is not among the events:
      the rename that publishes the request reports failure although it has happened. */
  function PublishedButRefused(s: State): State {
    if s.pc.Marked? && s.toHost.None? then
      s.(toHost := Some(s.ticket + 1), ticket := s.ticket + 1, pc := Refused)
    else s
  }

  /** The cleanup of a refused send. */
  function AfterRefusal(s: State): State { ExchangeStep(ExchangeStep(s, RefusedRemove), RefusedRemoveTmp) }

  /** From every state about to publish (Inv holds in all reachable ones), that failure
      and the cleanup of a refused send leave an unquarantined guard and no marker while
      the peer holds the request. */
  lemma FailedRenameMustNotPublish(s: State)
    requires Inv(s) && s.pc.Marked?
    ensures var r := AfterRefusal(PublishedButRefused(s));
      Outstanding(r) == {s.ticket + 1} && !Marker(r) && !r.quarantined
  {
  }

  lemma Then(es: seq<Event>, e: Event) returns (r: seq<Event>)
    ensures r == es + [e] && Run(INITIAL, r) == Next(Run(INITIAL, es), e)
  {
    r := es + [e];
    assert r[..|es|] == es;
  }

  /** Such states are reached: the guest recovers, then begins an exchange. */
  lemma AboutToPublish() returns (es: seq<Event>)
    ensures Run(INITIAL, es).pc.Marked?
  {
    es := FirstSession();
    es := Then(es, Exchange(BeginExchange));
    es := Then(es, Exchange(CheckSession));
    es := Then(es, Exchange(CheckCurrent));
    es := Then(es, Exchange(RetireRecover));
    es := Then(es, Exchange(WriteMarkerTmp));
    es := Then(es, Exchange(RenameMarker));
  }

  lemma FirstSession() returns (es: seq<Event>)
    ensures Run(INITIAL, es) == INITIAL.(challenge := 1, ack := Some(0), quarantined := false, sessionReady := true,
      sessionChallenge := 1)
  {
    es := FirstBarrier();
    es := Then(es, Quiesce(ReadAck));
    es := Then(es, Quiesce(ReadRotated));
    es := Then(es, Quiesce(ProvedRemove));
    es := Then(es, Quiesce(ProvedRemoveTmp));
  }

  lemma FirstBarrier() returns (es: seq<Event>)
    ensures Run(INITIAL, es) == INITIAL.(challenge := 1, ack := Some(0), pc := Polling(0, None))
  {
    es := BarrierWritten();
    es := Then(es, Env(HostDrains(0)));
    es := Then(es, Env(HostRotates));
    es := Then(es, Env(HostAcks));
  }

  lemma BarrierWritten() returns (es: seq<Event>)
    ensures Run(INITIAL, es) == INITIAL.(barriers := {0}, pc := Polling(0, None))
  {
    es := Then([], Quiesce(BeginRecover));
    es := Then(es, Quiesce(ReadChallenge));
    es := Then(es, Quiesce(CheckMarker));
    es := Then(es, Quiesce(DiscardAck));
    es := Then(es, Quiesce(WriteBarrier));
  }

  predicate HoldsProof(pc: GuestPc) {
    pc.Refused? || pc.RefusedHalf? || pc.Accepted? || pc.AcceptedHalf? || pc.Proved? || pc.ProvedHalf?
  }

  lemma QuiesceRemoval(s: State, q: QuiesceOp)
    requires Inv(s) && Marker(s) && !Marker(QuiesceStep(s, q))
    ensures Quiet(s) && HoldsProof(s.pc)
  {
  }

  lemma ExchangeRemoval(s: State, x: ExchangeOp)
    requires Inv(s) && Marker(s) && !Marker(ExchangeStep(s, x))
    ensures Quiet(s) && HoldsProof(s.pc)
  {
  }

  lemma FailRemoval(s: State, removed: bool)
    requires Inv(s) && Marker(s) && !Marker(Fail(s, removed))
    ensures Quiet(s) && HoldsProof(s.pc)
  {
  }

  lemma RemovalStep(s: State, e: Event)
    requires Inv(s) && Marker(s) && !Marker(Next(s, e))
    ensures Quiet(s) && HoldsProof(s.pc)
  {
    match e {
      case Quiesce(q) => QuiesceRemoval(s, q);
      case Exchange(x) => ExchangeRemoval(s, x);
      case GuestFails(removed) => FailRemoval(s, removed);
      case _ =>
        OthersRemoveNothing(s, e);
        assert false;
    }
  }

  lemma OthersRemoveNothing(s: State, e: Event)
    requires !e.Quiesce? && !e.Exchange? && !e.GuestFails?
    ensures Marker(Next(s, e)) == Marker(s)
  {
    if e.Env? { assert Next(s, e) == EnvStep(s, e.v); }
  }

  /** A reply that the guest takes belongs to the request it waits for. */
  lemma {:induction false} RepliesAreOwn(es: seq<Event>)
    ensures var s := Run(INITIAL, es);
      s.pc.Waiting? && s.toGuest.Some? ==> Next(s, Exchange(Receive)).pc == Received(s.ticket)
  {
    RunKeepsInv(INITIAL, es);
  }

  /** The step at which a recovery is convinced: ACK for the challenge read on
      entry has been seen and that challenge has rotated; the operator's consent
      names the challenge, is newer than every transfer, and was unspent at s0. */
  ghost predicate ConsentedProof(s0: State, t: State, e: Event) {
    && e == Quiesce(ReadRotated) && t.pc.SeenAck? && t.challenge != t.pc.token
    && t.pc.consent.Some? && t.pc.consent.value.token == t.pc.token
    && t.pc.consent.value.epoch == t.epoch
    && t.pc.consent.value.serial in t.spent - s0.spent
  }

  ghost predicate Held(s0: State, t: State) {
    && Marker(t) && t.ticket == s0.ticket && s0.spent <= t.spent
    && (t.pc.Idle? || t.pc.Sending? || InQuiesce(t.pc)) && !t.pc.Proved? && !t.pc.ProvedHalf?
    && (ConsentOf(t.pc).Some? ==> ConsentOf(t.pc).value.serial !in s0.spent)
  }

  lemma QuiesceHeld(s0: State, t: State, q: QuiesceOp)
    requires Inv(t) && Held(s0, t) && !ConsentedProof(s0, t, Quiesce(q))
    ensures Held(s0, QuiesceStep(t, q))
  {
  }

  lemma ExchangeHeld(s0: State, t: State, x: ExchangeOp)
    requires Inv(t) && Held(s0, t) && !ConsentedProof(s0, t, Exchange(x))
    ensures Held(s0, ExchangeStep(t, x))
  {
  }

  lemma FailHeld(s0: State, t: State, removed: bool)
    requires Inv(t) && Held(s0, t) && !ConsentedProof(s0, t, GuestFails(removed))
    ensures Held(s0, Fail(t, removed))
  {
  }

  lemma EnvHeld(s0: State, t: State, v: EnvOp)
    requires Held(s0, t)
    ensures Held(s0, EnvStep(t, v))
  {
  }

  lemma HeldStep(s0: State, t: State, e: Event)
    requires Inv(t) && Held(s0, t) && !ConsentedProof(s0, t, e)
    ensures Held(s0, Next(t, e))
  {
    match e {
      case Quiesce(q) => QuiesceHeld(s0, t, q);
      case Exchange(x) => ExchangeHeld(s0, t, x);
      case GuestFails(removed) => FailHeld(s0, t, removed);
      case Env(v) => EnvHeld(s0, t, v);
      case _ =>
    }
  }

  /** Once an exchange has left AMBIGUOUS behind, nothing is published until a
      recovery has spent a fresh consent and seen the matching barrier. */
  lemma {:induction false} NoPublishWithoutRecovery(s: State, es: seq<Event>)
    requires Inv(s) && Marker(s) && s.pc.Idle?
    requires Run(s, es).ticket != s.ticket
    ensures exists k :: 0 <= k < |es| && ConsentedProof(s, Run(s, es[..k]), es[k])
  {
    HeldOrProved(s, es);
  }

  lemma {:induction false} HeldOrProved(s: State, es: seq<Event>)
    requires Inv(s) && Marker(s) && s.pc.Idle?
    ensures Held(s, Run(s, es)) || exists k :: 0 <= k < |es| && ConsentedProof(s, Run(s, es[..k]), es[k])
  {
    if es != [] {
      var n := |es| - 1;
      HeldOrProved(s, es[..n]);
      if k :| 0 <= k < n && ConsentedProof(s, Run(s, es[..n][..k]), es[..n][k]) {
        assert es[..n][..k] == es[..k];
        assert ConsentedProof(s, Run(s, es[..k]), es[k]);
      } else {
        RunKeepsInv(s, es[..n]);
        if !ConsentedProof(s, Run(s, es[..n]), es[n]) {
          HeldStep(s, Run(s, es[..n]), es[n]);
        }
      }
    }
  }

  /** One call at a time: a recovery and an exchange begin with an idle guest and go on
      until it is idle again; the environment moves neither. */
  lemma OneCallAtATime(s: State, e: Event)
    ensures var pc := Next(s, e).pc;
      && (InQuiesce(s.pc) ==> InQuiesce(pc) || pc.Idle?)
      && (InExchange(s.pc) ==> InExchange(pc) || pc.Idle?)
      && (e.Env? ==> pc == s.pc)
  {
    match e {
      case Quiesce(q) => QuiesceStaysInCall(s, q);
      case Exchange(x) => ExchangeStaysInCall(s, x);
      case Env(v) => EnvPublishesNothing(s, v);
      case GuestFails(removed) => assert Next(s, e) == Fail(s, removed);
      case _ =>
    }
  }

  lemma QuiesceStaysInCall(s: State, q: QuiesceOp)
    ensures var pc := QuiesceStep(s, q).pc;
      (InQuiesce(s.pc) ==> InQuiesce(pc) || pc.Idle?) && (InExchange(s.pc) ==> InExchange(pc) || pc.Idle?)
  {
  }

  lemma ExchangeStaysInCall(s: State, x: ExchangeOp)
    ensures var pc := ExchangeStep(s, x).pc;
      (InQuiesce(s.pc) ==> InQuiesce(pc) || pc.Idle?) && (InExchange(s.pc) ==> InExchange(pc) || pc.Idle?)
  {
  }

  // ------------------------------------------------ sessions and their end

  /** A live session that the host has not ended, and no uncertainty. */
  predicate InSession(s: State) {
    s.sessionReady && !Marker(s) && s.challenge == s.sessionChallenge
  }

  /** Past the comparison of the challenges, before publication. */
  predicate Committed(pc: GuestPc) { pc.Current? || pc.Retired? || pc.MarkedTmp? || pc.Marked? }

  /** The comparison at j was passed and the exchange has gone on since. */
  ghost predicate CheckedAt(s: State, es: seq<Event>, j: nat) {
    && j < |es| && es[j] == Exchange(CheckCurrent) && InSession(Run(s, es[..j]))
    && forall i :: j < i <= |es| ==> Committed(Run(s, es[..i]).pc)
  }

  lemma ExchangeCommits(t: State, x: ExchangeOp)
    requires Inv(t) && Committed(ExchangeStep(t, x).pc) && !Committed(t.pc)
    ensures x == CheckCurrent && InSession(t)
  {
  }

  lemma ExchangePublishes(t: State, x: ExchangeOp)
    requires ExchangeStep(t, x).ticket != t.ticket
    ensures x == Publish && t.pc.Marked? && ExchangeStep(t, x).ticket == t.ticket + 1
  {
  }

  /** Only the guest's exchange commits and publishes. */
  lemma OthersPublishNothing(t: State, e: Event)
    requires !e.Exchange?
    ensures Next(t, e).ticket == t.ticket && (Committed(Next(t, e).pc) ==> Committed(t.pc))
  {
    match e {
      case Quiesce(q) => QuiescePublishesNothing(t, q);
      case Env(v) => EnvPublishesNothing(t, v);
      case GuestFails(removed) => assert Next(t, e) == Fail(t, removed);
      case _ =>
    }
  }

  lemma QuiescePublishesNothing(t: State, q: QuiesceOp)
    ensures QuiesceStep(t, q).ticket == t.ticket && (Committed(QuiesceStep(t, q).pc) ==> Committed(t.pc))
  {
  }

  lemma EnvPublishesNothing(t: State, v: EnvOp)
    ensures EnvStep(t, v).ticket == t.ticket && EnvStep(t, v).pc == t.pc
  {
  }

  lemma CommitStep(t: State, e: Event)
    requires Inv(t) && Committed(Next(t, e).pc) && !Committed(t.pc)
    ensures e == Exchange(CheckCurrent) && InSession(t)
  {
    if e.Exchange? { ExchangeCommits(t, e.x); } else { OthersPublishNothing(t, e); }
  }

  lemma PublishStep(t: State, e: Event)
    requires Next(t, e).ticket != t.ticket
    ensures e == Exchange(Publish) && t.pc.Marked? && Next(t, e).ticket == t.ticket + 1
  {
    if e.Exchange? { ExchangePublishes(t, e.x); } else { OthersPublishNothing(t, e); }
  }

  lemma {:induction false} CommittedSince(s: State, es: seq<Event>) returns (j: nat)
    requires Inv(s) && s.pc.Idle? && Committed(Run(s, es).pc)
    ensures CheckedAt(s, es, j)
  {
    var n := |es| - 1;
    RunKeepsInv(s, es[..n]);
    if Committed(Run(s, es[..n]).pc) {
      j := CommittedSince(s, es[..n]);
      assert es[..n][..j] == es[..j];
    } else {
      CommitStep(Run(s, es[..n]), es[n]);
      j := n;
    }
    forall i | j < i <= |es| ensures Committed(Run(s, es[..i]).pc) {
      if i <= n { assert es[..n][..i] == es[..i]; } else { assert es[..i] == es; }
    }
  }

  /** Whenever a request is published (the event at k), the same exchange has found the
      session live before: at j the guest was ready, no uncertainty was on record, and
      the challenge on disk was the session's. */
  lemma {:induction false} PublishFollowsCheck(s: State, es: seq<Event>, k: nat) returns (j: nat)
    requires Inv(s) && s.pc.Idle? && k < |es| && Run(s, es[..k + 1]).ticket != Run(s, es[..k]).ticket
    ensures j < k && CheckedAt(s, es[..k], j) && es[k] == Exchange(Publish)
  {
    assert es[..k + 1][..k] == es[..k];
    PublishStep(Run(s, es[..k]), es[k]);
    j := CommittedSince(s, es[..k]);
  }

  /** The guest is not past the check, and cannot pass it: it is quarantined, or the host
      has ended its session. */
  ghost predicate Shut(s0: State, t: State) {
    && t.ticket == s0.ticket && !Committed(t.pc)
    && (((t.pc.Idle? || InQuiesce(t.pc)) && t.quarantined) || (t.sessionReady ==> t.sessionChallenge < t.challenge))
  }

  /** A recovery is complete. */
  predicate Completes(t: State, e: Event) { e == Quiesce(ProvedRemoveTmp) && t.pc.ProvedHalf? }

  ghost predicate CompletesAt(s: State, es: seq<Event>, k: nat) { k < |es| && Completes(Run(s, es[..k]), es[k]) }

  lemma QuiesceShut(s0: State, t: State, q: QuiesceOp)
    requires Inv(t) && Shut(s0, t) && !Completes(t, Quiesce(q))
    ensures Shut(s0, QuiesceStep(t, q))
  {
  }

  lemma ExchangeShut(s0: State, t: State, x: ExchangeOp)
    requires Inv(t) && Shut(s0, t)
    ensures Shut(s0, ExchangeStep(t, x))
  {
  }

  lemma FailShut(s0: State, t: State, removed: bool)
    requires Inv(t) && Shut(s0, t)
    ensures Shut(s0, Fail(t, removed))
  {
  }

  lemma EnvShut(s0: State, t: State, v: EnvOp)
    requires Shut(s0, t)
    ensures Shut(s0, EnvStep(t, v))
  {
  }

  lemma ShutStep(s0: State, t: State, e: Event)
    requires Inv(t) && Shut(s0, t) && !Completes(t, e)
    ensures Shut(s0, Next(t, e))
  {
    match e {
      case Quiesce(q) => QuiesceShut(s0, t, q);
      case Exchange(x) => ExchangeShut(s0, t, x);
      case GuestFails(removed) => FailShut(s0, t, removed);
      case Env(v) => EnvShut(s0, t, v);
      case _ =>
    }
  }

  /** A shut guest publishes nothing until a recovery completes. */
  lemma {:induction false} ShutUntilRecovered(s: State, es: seq<Event>)
    requires Inv(s) && Shut(s, s)
    ensures Shut(s, Run(s, es)) || exists k: nat :: CompletesAt(s, es, k)
  {
    if es != [] {
      var n := |es| - 1;
      ShutUntilRecovered(s, es[..n]);
      if k: nat :| CompletesAt(s, es[..n], k) {
        assert es[..n][..k] == es[..k];
        assert CompletesAt(s, es, k);
      } else {
        RunKeepsInv(s, es[..n]);
        if Completes(Run(s, es[..n]), es[n]) { assert CompletesAt(s, es, n); }
        else { ShutStep(s, Run(s, es[..n]), es[n]); }
      }
    }
  }

  /** What shuts an idle guest: a restart of the host, a reset, a crash and reload.
      Uncertainty on disk survives each of them. */
  predicate Cuts(e: Event) { e == Env(HostRestarts) || e.LocalReset? || e.Crash? }

  /** After a restart of the host, a reset or a crash nothing is published until a new
      recovery completes. */
  lemma {:induction false} RecoveryAfterCut(s: State, e: Event, es: seq<Event>)
    requires Inv(s) && Cuts(e) && (e.Crash? || s.pc.Idle?)
    ensures var t := Next(s, e);
      && Marker(t) == Marker(s)
      && (Run(t, es).ticket != s.ticket ==> exists k: nat :: CompletesAt(t, es, k))
  {
    StepKeepsInv(s, e);
    ShutUntilRecovered(Next(s, e), es);
  }

  // Runs in which the operator deposits nothing.

  lemma DepositStep(s: State, e: Event)
    ensures Next(s, e).deposits == s.deposits + if e == Env(Deposit) then 1 else 0
    ensures s.recover.None? && e != Env(Deposit) ==> Next(s, e).recover.None?
  {
    match e {
      case Quiesce(q) => assert Next(s, e) == QuiesceStep(s, q);
      case Exchange(x) => assert Next(s, e) == ExchangeStep(s, x);
      case Env(v) => EnvDeposits(s, v);
      case GuestFails(removed) => assert Next(s, e) == Fail(s, removed);
      case _ =>
    }
  }

  lemma EnvDeposits(s: State, v: EnvOp)
    ensures EnvStep(s, v).deposits == s.deposits + if v.Deposit? then 1 else 0
    ensures s.recover.None? && !v.Deposit? ==> EnvStep(s, v).recover.None?
  {
  }

  lemma {:induction false} DepositsGrow(t: seq<Event>, u: seq<Event>)
    requires t <= u
    ensures Run(INITIAL, t).deposits <= Run(INITIAL, u).deposits
  {
    if t != u {
      DepositsGrow(t, u[..|u| - 1]);
      DepositStep(Run(INITIAL, u[..|u| - 1]), u[|u| - 1]);
    }
  }

  /** Without a deposit no consent appears. */
  lemma {:induction false} NoConsentAppears(t: seq<Event>, u: seq<Event>)
    requires t <= u && Run(INITIAL, t).recover.None?
    requires Run(INITIAL, u).deposits == Run(INITIAL, t).deposits
    ensures Run(INITIAL, u).recover.None?
  {
    if t != u {
      var v := u[..|u| - 1];
      DepositsGrow(t, v);
      DepositStep(Run(INITIAL, v), u[|u| - 1]);
      NoConsentAppears(t, v);
    }
  }

  /** Uncertainty with no consent on disk or in use. */
  ghost predicate Stuck(s0: State, s: State) {
    Held(s0, s) && s.recover.None? && !s.pc.Consuming? && ConsentOf(s.pc).None?
  }

  lemma StuckStep(s0: State, s: State, e: Event)
    requires Inv(s) && Stuck(s0, s) && e != Env(Deposit)
    ensures Stuck(s0, Next(s, e))
  {
    HeldStep(s0, s, e);
    DepositStep(s, e);
    NoConsentTaken(s, e);
  }

  /** Only a RECOVER file can become a consent in use. */
  lemma NoConsentTaken(s: State, e: Event)
    requires s.recover.None? && !s.pc.Consuming? && ConsentOf(s.pc).None? && e != Env(Deposit)
    ensures !Next(s, e).pc.Consuming? && ConsentOf(Next(s, e).pc).None?
  {
    var pc := Next(s, e).pc;
    if pc.Consuming? { InUseStep(s, e, pc.read); }
    if ConsentOf(pc).Some? { InUseStep(s, e, ConsentOf(pc).value); }
  }

  /** A marked idle state without consent publishes nothing until one is deposited. */
  lemma {:induction false} NothingWithoutConsent(t: seq<Event>, u: seq<Event>)
    requires t <= u && Run(INITIAL, u).deposits == Run(INITIAL, t).deposits
    requires var s := Run(INITIAL, t); Marker(s) && s.pc.Idle? && s.recover.None?
    ensures Stuck(Run(INITIAL, t), Run(INITIAL, u))
  {
    if t != u {
      var v := u[..|u| - 1];
      DepositsGrow(t, v);
      DepositStep(Run(INITIAL, v), u[|u| - 1]);
      NothingWithoutConsent(t, v);
      RunKeepsInv(INITIAL, v);
      StuckStep(Run(INITIAL, t), Run(INITIAL, v), u[|u| - 1]);
    }
  }

  // Which single steps can produce an ACK, a rotation, a consent in use.

  lemma GuestPublishesNoAck(t: State, e: Event, token: nat)
    requires !e.Env? && Next(t, e).ack == Some(token)
    ensures t.ack == Some(token)
  {
  }

  lemma AckStep(t: State, e: Event, token: nat)
    requires t.ack != Some(token) && Next(t, e).ack == Some(token)
    ensures e == Env(HostAcks) && t.host == Rotated(token)
  {
    match e {
      case Env(v) =>
        assert Next(t, e) == EnvStep(t, v);
        HostPublishesAck(t, v, token);
      case _ =>
        GuestPublishesNoAck(t, e, token);
        assert false;
    }
  }

  lemma HostPublishesAck(t: State, v: EnvOp, token: nat)
    requires t.ack != Some(token) && EnvStep(t, v).ack == Some(token)
    ensures v == HostAcks && t.host == Rotated(token)
  {
  }

  lemma RotationStep(t: State, e: Event, token: nat)
    requires t.host != Rotated(token) && Next(t, e).host == Rotated(token)
    ensures e == Env(HostRotates) && t.host == Drained(token)
  {
  }

  /** Stale acknowledgements never suffice: if ACK ever names the challenge in
      force at s, the host rotated that challenge away and published ACK after s. */
  lemma {:induction false} AckFollowsChallenge(s: State, es: seq<Event>) returns (j: nat, k: nat)
    requires Inv(s) && Run(s, es).ack == Some(s.challenge)
    ensures j < k < |es| && es[j] == Env(HostRotates) && es[k] == Env(HostAcks)
    ensures Run(s, es[..j]).host == Drained(s.challenge)
    ensures Run(s, es[..k]).host == Rotated(s.challenge)
  {
    var n := |es| - 1;
    if Run(s, es[..n]).ack == Some(s.challenge) {
      j, k := AckFollowsChallenge(s, es[..n]);
      assert es[..n][..j] == es[..j] && es[..n][..k] == es[..k];
    } else {
      AckStep(Run(s, es[..n]), es[n], s.challenge);
      j := RotationFollowsChallenge(s, es[..n]);
      k := n;
      assert es[..n][..j] == es[..j];
    }
  }

  lemma {:induction false} RotationFollowsChallenge(s: State, es: seq<Event>) returns (j: nat)
    requires Inv(s) && Run(s, es).host == Rotated(s.challenge)
    ensures j < |es| && es[j] == Env(HostRotates) && Run(s, es[..j]).host == Drained(s.challenge)
  {
    var n := |es| - 1;
    if Run(s, es[..n]).host == Rotated(s.challenge) {
      j := RotationFollowsChallenge(s, es[..n]);
      assert es[..n][..j] == es[..j];
    } else {
      RotationStep(Run(s, es[..n]), es[n], s.challenge);
      j := n;
    }
  }

  /** The consent c is on disk or has been taken by the guest. */
  predicate InUse(s: State, c: Consent) {
    s.recover == Some(c) || (s.pc.Consuming? && s.pc.read == c) || ConsentOf(s.pc) == Some(c)
  }

  lemma QuiesceInUse(t: State, q: QuiesceOp, c: Consent)
    requires InUse(QuiesceStep(t, q), c)
    ensures InUse(t, c)
  {
  }

  lemma ExchangeInUse(t: State, x: ExchangeOp, c: Consent)
    requires InUse(ExchangeStep(t, x), c)
    ensures InUse(t, c)
  {
  }

  lemma FailInUse(t: State, removed: bool, c: Consent)
    requires InUse(Fail(t, removed), c)
    ensures InUse(t, c)
  {
  }

  lemma EnvInUse(t: State, v: EnvOp, c: Consent)
    requires InUse(EnvStep(t, v), c) && !InUse(t, c)
    ensures v == Deposit && c == Consent(t.challenge, t.epoch, t.deposits)
  {
  }

  lemma InUseStep(t: State, e: Event, c: Consent)
    requires InUse(Next(t, e), c) && !InUse(t, c)
    ensures e == Env(Deposit) && c == Consent(t.challenge, t.epoch, t.deposits)
  {
    match e {
      case Quiesce(q) =>
        QuiesceInUse(t, q, c);
        assert false;
      case Exchange(x) =>
        ExchangeInUse(t, x, c);
        assert false;
      case GuestFails(removed) =>
        FailInUse(t, removed, c);
        assert false;
      case Env(v) =>
        assert Next(t, e) == EnvStep(t, v);
        EnvInUse(t, v, c);
      case _ =>
        OthersInUse(t, e, c);
        assert false;
    }
  }

  lemma OthersInUse(t: State, e: Event, c: Consent)
    requires e.DiscardToHost? || e.DiscardToGuest? || e.LocalReset? || e.Crash?
    requires InUse(Next(t, e), c)
    ensures InUse(t, c)
  {
  }

  lemma InUseEpoch(s: State, c: Consent)
    requires Inv(s) && InUse(s, c)
    ensures c.epoch == s.epoch
  {
  }

  /** Consent deposited before a transfer never authorises recovery from it: the
      consent in use was deposited after the last transfer retired consent. */
  lemma {:induction false} ConsentFollowsTransfer(es: seq<Event>, c: Consent) returns (k: nat)
    requires InUse(Run(INITIAL, es), c)
    ensures k < |es| && es[k] == Env(Deposit)
    ensures c == Consent(Run(INITIAL, es[..k]).challenge, Run(INITIAL, es).epoch, Run(INITIAL, es[..k]).deposits)
    ensures Run(INITIAL, es[..k]).epoch == Run(INITIAL, es).epoch
  {
    var n := |es| - 1;
    RunKeepsInv(INITIAL, es);
    InUseEpoch(Run(INITIAL, es), c);
    if InUse(Run(INITIAL, es[..n]), c) {
      RunKeepsInv(INITIAL, es[..n]);
      InUseEpoch(Run(INITIAL, es[..n]), c);
      k := ConsentFollowsTransfer(es[..n], c);
      assert es[..n][..k] == es[..k];
    } else {
      InUseStep(Run(INITIAL, es[..n]), es[n], c);
      k := n;
    }
  }
}
