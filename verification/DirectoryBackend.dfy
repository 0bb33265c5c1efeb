/** directory_quiesce and directory_transfer as the sequential code they are,
    with the host and the operator moving between any two file operations. Each
    call is proved to be a run of the protocol in DirectoryRecovery, so the
    theorems there cover it. */
module DirectoryBackend {
  import opened DirectoryRecovery
  import opened Wrappers

  const TRANSFER_TIMEOUT_MS := 5000
  const POLL_MS := 5

  /** Everything one call does not decide itself: what the environment does before
      the call's n-th file operation and whether that operation fails. */
  datatype Plan = Plan(before: nat -> seq<EnvOp>, fails: nat -> bool, removed: nat -> bool)

  datatype Outcome = Rejected | Complete | Unknown

  /** One attempt of a retry call. */
  datatype Try = Try(opening: Plan, exchanging: Plan, sound: bool, discards: bool)

  /** From s to t only the environment moved: the guest's memory and its marker
      are untouched, and nothing new is outstanding. */
  predicate SameGuest(s: State, t: State) {
    && s.pc == t.pc && s.quarantined == t.quarantined && s.sessionReady == t.sessionReady
    && s.sessionChallenge == t.sessionChallenge && s.ticket == t.ticket
    && s.ambiguous == t.ambiguous && s.ambiguousTmp == t.ambiguousTmp
    && (Quiet(s) ==> Quiet(t))
  }

  lemma EnvSameGuest(s: State, v: EnvOp)
    ensures SameGuest(s, EnvStep(s, v))
  {
  }

  function EnvRun(s: State, moves: seq<EnvOp>): State {
    if moves == [] then s else EnvStep(EnvRun(s, moves[..|moves| - 1]), moves[|moves| - 1])
  }

  /** The n-th file operation of a call is one that polls. */
  predicate IsPoll(n: nat) { 5 <= n <= 5 + TRANSFER_TIMEOUT_MS && (n - 5) % POLL_MS == 0 }

  /** A plan without failures in which the environment moves only before the n-th
      operation. */
  ghost predicate CalmBut(plan: Plan, n: nat) { forall i :: !plan.fails(i) && (i != n ==> plan.before(i) == []) }

  ghost predicate Calm(plan: Plan) { forall i :: !plan.fails(i) && (i < 5 ==> plan.before(i) == []) }

  /** Nothing fails, and before some poll the environment makes these moves. */
  ghost predicate Cooperates(plan: Plan, moves: seq<EnvOp>) {
    exists n: nat :: IsPoll(n) && CalmBut(plan, n) && plan.before(n) == moves
  }

  /** The poll before which they are made. */
  ghost function PollOf(plan: Plan, moves: seq<EnvOp>): (n: nat)
    requires Cooperates(plan, moves)
    ensures IsPoll(n) && CalmBut(plan, n) && plan.before(n) == moves
  {
    var n: nat :| IsPoll(n) && CalmBut(plan, n) && plan.before(n) == moves;
    n
  }

  lemma CooperationIsCalm(plan: Plan, moves: seq<EnvOp>)
    ensures Cooperates(plan, moves) ==> Calm(plan)
  {
  }

  /** The host's answer to a published request, and to a barrier request. */
  function Answer(request: nat): seq<EnvOp> { [HostTakes, HostReplies(request)] }
  function Acknowledgement(barrier: nat): seq<EnvOp> { [HostDrains(barrier), HostRotates, HostAcks] }

  lemma AnswerArrives(s: State, request: nat)
    requires s.host.HostIdle? && s.toHost == Some(request)
    ensures EnvRun(s, Answer(request))
      == s.(toHost := None, work := s.work + {request} - {request}, toGuest := Some(request))
  {
    var moves := Answer(request);
    assert moves[..1] == [HostTakes] && moves[..1][..0] == [];
    assert EnvRun(s, moves[..1]) == EnvStep(s, HostTakes);
  }

  lemma BarrierArrives(s: State, barrier: nat)
    requires s.host.HostIdle? && barrier in s.barriers
    ensures EnvRun(s, Acknowledgement(barrier)) == s.(barriers := s.barriers - {barrier}, toHost := None,
      toGuest := None, work := {}, challenge := s.challenge + 1, ack := Some(barrier), host := HostIdle)
  {
    var moves := Acknowledgement(barrier);
    assert moves[..2] == [HostDrains(barrier), HostRotates] && moves[..2][..1] == [HostDrains(barrier)]
      && moves[..2][..1][..0] == [];
    assert EnvRun(s, moves[..2][..1]) == EnvStep(s, HostDrains(barrier));
    assert EnvRun(s, moves[..2]) == EnvStep(EnvStep(s, HostDrains(barrier)), HostRotates);
  }

  /** What the calls below need of the protocol invariant. */
  lemma {:induction false} QuietStates(es: seq<Event>)
    ensures var s := Run(INITIAL, es);
      && (!Quiet(s) ==> Marker(s))
      && (s.pc.Marked? || s.pc.Refused? || s.pc.Received? || s.pc.Proved? || s.pc.ProvedHalf? ==> Quiet(s))
      && (!s.quarantined ==> Quiet(s))
      && (s.pc.Received? ==> s.quarantined) && (s.pc.Waiting? ==> s.ambiguous)
      && (s.toHost.Some? ==> s.toGuest.None?)
  {
    RunKeepsInv(INITIAL, es);
  }

  lemma RunSnoc(s: State, es: seq<Event>, e: Event)
    ensures Run(s, es + [e]) == Next(Run(s, es), e)
  {
    assert (es + [e])[..|es|] == es;
  }

  /** No consent at u and none deposited between t and v means none at v. */
  lemma StillNoConsent(t: seq<Event>, u: seq<Event>, v: seq<Event>)
    requires t <= u <= v
    ensures var (a, b, c) := (Run(INITIAL, t), Run(INITIAL, u), Run(INITIAL, v));
      && a.deposits <= b.deposits <= c.deposits
      && (a.deposits == c.deposits && b.recover.None? ==> c.recover.None?)
  {
    DepositsGrow(t, u);
    DepositsGrow(u, v);
    if Run(INITIAL, v).deposits == Run(INITIAL, t).deposits && Run(INITIAL, u).recover.None? { NoConsentAppears(u, v); }
  }

  lemma FailIsQuarantine(s: State, removed: bool)
    requires !s.pc.Idle?
    ensures Fail(s, removed).pc.Idle? && Fail(s, removed).quarantined && Fail(s, removed).ticket == s.ticket
    ensures s.pc.Accepted? || s.pc.AcceptedHalf? ==> !Fail(s, removed).sessionReady
    ensures Quiet(s) ==> Quiet(Fail(s, removed))
  {
  }

  /** No uncertainty, or a fresh consent to recover from it. */
  predicate Consented(s: State) {
    Marker(s) ==> s.recover.Some? && s.recover.value.token == s.challenge
  }

  /** The session is live when an exchange begins, and its challenge is still in force
      when it is compared. */
  predicate SessionHolds(s: State, plan: Plan) {
    s.sessionReady && !Marker(s) && EnvRun(s, plan.before(0)).challenge == s.sessionChallenge
  }

  /** Reading the challenge succeeds, with no move of the environment before it. */
  predicate EndsQuietly(plan: Plan) { !plan.fails(0) && plan.before(0) == [] }

  /** Neither the host nor the marker nor what is published has changed. */
  predicate Untouched(s: State, t: State) {
    SameWorld(s, t) && Marker(s) == Marker(t) && s.ticket == t.ticket
  }

  /** None of the operations that put uncertainty on disk fails. */
  predicate Marks(plan: Plan) { !plan.fails(1) && !plan.fails(2) && !plan.fails(3) }

  /** The environment does not look at the guest's memory. */
  lemma {:induction false} EnvBlind(s: State, pc: GuestPc, quarantined: bool, moves: seq<EnvOp>)
    ensures EnvRun(s.(pc := pc, quarantined := quarantined), moves)
      == EnvRun(s, moves).(pc := pc, quarantined := quarantined)
  {
    if moves != [] {
      EnvBlind(s, pc, quarantined, moves[..|moves| - 1]);
      EnvStepBlind(EnvRun(s, moves[..|moves| - 1]), pc, quarantined, moves[|moves| - 1]);
    }
  }

  lemma EnvStepBlind(s: State, pc: GuestPc, quarantined: bool, v: EnvOp)
    ensures EnvStep(s.(pc := pc, quarantined := quarantined), v)
      == EnvStep(s, v).(pc := pc, quarantined := quarantined)
  {
    match v {
      case HostTakes => RecordsBlind(s, pc, quarantined, v);
      case HostReplies(_) => RecordsBlind(s, pc, quarantined, v);
      case HostDrops(_) => RecordsBlind(s, pc, quarantined, v);
      case HostDrains(_) => ControlsBlind(s, pc, quarantined, v);
      case HostRotates => ControlsBlind(s, pc, quarantined, v);
      case HostAcks => ControlsBlind(s, pc, quarantined, v);
      case HostRestarts => ControlsBlind(s, pc, quarantined, v);
      case Deposit => ControlsBlind(s, pc, quarantined, v);
    }
  }

  lemma RecordsBlind(s: State, pc: GuestPc, quarantined: bool, v: EnvOp)
    requires v.HostTakes? || v.HostReplies? || v.HostDrops?
    ensures EnvStep(s.(pc := pc, quarantined := quarantined), v)
      == EnvStep(s, v).(pc := pc, quarantined := quarantined)
  {
  }

  lemma ControlsBlind(s: State, pc: GuestPc, quarantined: bool, v: EnvOp)
    requires v.HostDrains? || v.HostRotates? || v.HostAcks? || v.HostRestarts? || v.Deposit?
    ensures EnvStep(s.(pc := pc, quarantined := quarantined), v)
      == EnvStep(s, v).(pc := pc, quarantined := quarantined)
  {
  }

  /** The host and the packet records are as they were. */
  predicate SamePeer(s: State, t: State) {
    s.host == t.host && s.work == t.work && s.toHost == t.toHost && s.toGuest == t.toGuest
  }

  /** The host and the challenge have not moved. */
  predicate SameWorld(s: State, t: State) {
    s.challenge == t.challenge && s.host == t.host
  }

  class DirectoryGuest {
    var world: State
    /** Everything that has happened to this directory. */
    ghost var trace: seq<Event>

    ghost predicate Valid()
      reads this
    {
      world == Run(INITIAL, trace)
    }

    constructor (world: State, ghost trace: seq<Event>)
      requires world == Run(INITIAL, trace)
      ensures Valid() && this.world == world && this.trace == trace
    {
      this.world, this.trace := world, trace;
    }

    method Do(e: Event)
      requires Valid()
      modifies this
      ensures Valid() && old(trace) <= trace
      ensures world == Next(old(world), e)
    {
      RunSnoc(INITIAL, trace, e);
      world := Next(world, e);
      trace := trace + [e];
    }

    method Environment(moves: seq<EnvOp>)
      requires Valid()
      modifies this
      ensures Valid() && old(trace) <= trace && SameGuest(old(world), world)
      ensures world == EnvRun(old(world), moves)
    {
      for i := 0 to |moves|
        invariant Valid() && old(trace) <= trace && SameGuest(old(world), world)
        invariant world == EnvRun(old(world), moves[..i])
      {
        assert moves[..i + 1][..i] == moves[..i];
        EnvSameGuest(world, moves[i]);
        Do(Env(moves[i]));
      }
      assert moves[..|moves|] == moves;
    }

    /** The n-th file operation of a call: the environment moves, then the
        operation either takes effect or fails and ends the call. */
    method Attempt(e: Event, plan: Plan, n: nat) returns (ok: bool)
      requires Valid() && !world.pc.Idle? && !e.Env?
      modifies this
      ensures Valid() && old(trace) <= trace
      ensures ok == !plan.fails(n)
      ensures !ok ==> world.pc.Idle? && world.quarantined && world.ticket == old(world.ticket)
      ensures !ok && Quiet(old(world)) ==> Quiet(world)
      ensures !ok && (old(world.pc).Accepted? || old(world.pc).AcceptedHalf?) ==> !world.sessionReady
      ensures ok ==> var t := EnvRun(old(world), plan.before(n)); SameGuest(old(world), t) && world == Next(t, e)
    {
      Environment(plan.before(n));
      if plan.fails(n) {
        FailIsQuarantine(world, plan.removed(n));
        Do(GuestFails(plan.removed(n)));
        return false;
      }
      assert SameGuest(old(world), world);
      Do(e);
      ok := true;
    }

    /** Entry of directory_quiesce: read CHALLENGE and, if uncertainty is on
        record, the operator's consent, which is consumed before going on. */
    method Authorize(plan: Plan) returns (ok: bool)
      requires Valid() && world.pc.Idle?
      modifies this
      ensures Valid() && old(trace) <= trace && world.ticket == old(world.ticket)
      ensures ok ==> world.pc.Clearing?
      ensures !ok ==> world.pc.Idle? && world.quarantined
      ensures Calm(plan) && Consented(old(world)) ==>
        ok && world.pc.token == world.challenge && SameWorld(old(world), world)
    {
      Do(Event.Quiesce(BeginRecover));
      ok := Attempt(Event.Quiesce(ReadChallenge), plan, 0);
      if !ok { return; }
      Do(Event.Quiesce(CheckMarker));
      if world.pc.NeedConsent? { ok := TakeConsent(plan); }
    }

    /** RECOVER is read, compared with the challenge and consumed. */
    method TakeConsent(plan: Plan) returns (ok: bool)
      requires Valid() && world.pc.NeedConsent?
      modifies this
      ensures Valid() && old(trace) <= trace && world.ticket == old(world.ticket)
      ensures ok ==> world.pc.Clearing? && world.pc.token == old(world.pc.token)
      ensures !ok ==> world.pc.Idle? && world.quarantined
      ensures Calm(plan) && old(world).recover.Some? && old(world).recover.value.token == old(world).pc.token ==>
        ok && SameWorld(old(world), world)
    {
      ok := Attempt(Event.Quiesce(ReadRecover), plan, 1);
      if !ok { return; }
      if world.pc.Idle? { return false; }
      assert world.pc.Consuming?;
      ok := Attempt(Event.Quiesce(SpendRecover), plan, 2);
    }

    /** The barrier has been acknowledged and the challenge has rotated. */
    method ClearMarker(plan: Plan, n: nat) returns (ok: bool)
      requires Valid() && world.pc.Proved?
      modifies this
      ensures Valid() && old(trace) <= trace && world.pc.Idle? && world.ticket == old(world.ticket)
      ensures ok ==> Recovered()
      ensures !ok ==> world.quarantined
      ensures ok <==> !plan.fails(n) && !plan.fails(n + 1)
      ensures ok && plan.before(n) == plan.before(n + 1) == [] && old(world.pc.next) == old(world.challenge) ==>
        InSession(world) && world.host == old(world.host)
    {
      ok := Attempt(Event.Quiesce(ProvedRemove), plan, n);
      if !ok { return; }
      assert world.pc.ProvedHalf? && !world.ambiguous;
      ok := Attempt(Event.Quiesce(ProvedRemoveTmp), plan, n + 1);
      QuietStates(trace);
    }

    /** One poll: ACK first, then CHALLENGE. */
    method Poll(plan: Plan, n: nat)
      requires Valid() && world.pc.Polling?
      modifies this
      ensures Valid() && old(trace) <= trace && world.ticket == old(world.ticket)
      ensures world.pc.Polling? || world.pc.Proved?
      ensures var t := EnvRun(old(world), plan.before(n));
        && (t.ack == Some(old(world.pc.token)) && t.challenge != old(world.pc.token) && plan.before(n + 1) == [] ==>
              world.pc.Proved? && world.pc.next == world.challenge && world.host == t.host)
        && (plan.before(n) == plan.before(n + 1) == [] && t.challenge == old(world.pc.token) ==> world == old(world))
    {
      Environment(plan.before(n));
      Do(Event.Quiesce(ReadAck));
      if world.pc.SeenAck? {
        Environment(plan.before(n + 1));
        Do(Event.Quiesce(ReadRotated));
      }
    }

    /** directory_quiesce. Success leaves a proved-quiescent peer, no marker and a
        live session; failure leaves the guard quarantined. */
    method Quiesce(plan: Plan) returns (ok: bool)
      requires Valid() && world.pc.Idle?
      modifies this
      ensures Valid() && old(trace) <= trace && world.pc.Idle? && world.ticket == old(world.ticket)
      ensures ok ==> Recovered()
      ensures !ok ==> world.quarantined
      // Consent, a host that answers the barrier and no failures are enough.
      ensures var s := old(world);
        s.host.HostIdle? && Consented(s) && Cooperates(plan, Acknowledgement(s.challenge)) ==> ok && Serving()
    {
      CooperationIsCalm(plan, Acknowledgement(world.challenge));
      ok := Authorize(plan);
      if ok { ok := RequestBarrier(plan); }
      if ok { ok := AwaitBarrier(plan); }
    }

    /** A stale ACK is discarded and the barrier is requested. */
    method RequestBarrier(plan: Plan) returns (ok: bool)
      requires Valid() && world.pc.Clearing?
      modifies this
      ensures Valid() && old(trace) <= trace && world.ticket == old(world.ticket)
      ensures ok ==> world.pc.Polling? && world.pc.token == old(world.pc.token)
      ensures !ok ==> world.pc.Idle? && world.quarantined
      ensures Calm(plan) ==> ok && SameWorld(old(world), world) && world.pc.token in world.barriers && world.ack.None?
    {
      ok := Attempt(Event.Quiesce(DiscardAck), plan, 3);
      if !ok { return; }
      assert world.pc.Requesting?;
      ok := Attempt(Event.Quiesce(WriteBarrier), plan, 4);
    }

    /** The host will acknowledge the barrier just requested. */
    ghost predicate BarrierComes(plan: Plan)
      reads this
    {
      && world.pc.Polling? && world.host.HostIdle? && world.pc.token in world.barriers
      && world.pc.token == world.challenge && Cooperates(plan, Acknowledgement(world.challenge))
    }

    /** The same, before the n-th operation. */
    ghost predicate BarrierComesAt(plan: Plan, n: nat)
      reads this
    {
      && world.pc.Polling? && world.host.HostIdle? && world.pc.token in world.barriers
      && world.pc.token == world.challenge && IsPoll(n) && CalmBut(plan, n)
      && plan.before(n) == Acknowledgement(world.challenge)
    }

    /** A proved-quiescent peer, no marker and a live session. */
    ghost predicate Recovered()
      reads this
    {
      Quiet(world) && !Marker(world) && world.sessionReady && !world.quarantined
    }

    /** Recovered, with the host ready to serve. */
    ghost predicate Serving()
      reads this
    {
      Recovered() && InSession(world) && world.host.HostIdle?
    }

    /** One round of the polling loop: a poll and, with the proof in hand, the cleanup. */
    method PollRound(plan: Plan, at: nat, ghost comes: bool, ghost n: nat) returns (done: bool, ok: bool)
      requires Valid() && world.pc.Polling? && (comes ==> BarrierComesAt(plan, n) && (at == n || at + 1 < n))
      modifies this
      ensures Valid() && old(trace) <= trace && world.ticket == old(world.ticket)
      ensures if done then world.pc.Idle? else world.pc.Polling? && !ok
      ensures ok ==> Recovered()
      ensures done && !ok ==> world.quarantined
      ensures comes ==> if at == n then ok && Serving() else !done && world == old(world)
    {
      done, ok := false, false;
      if comes { BarrierArrives(world, world.pc.token); }
      Poll(plan, at);
      if world.pc.Proved? {
        ok := ClearMarker(plan, at + 2);
        done := true;
      }
    }

    /** The polling loop of directory_quiesce. */
    method AwaitBarrier(plan: Plan) returns (ok: bool)
      requires Valid() && world.pc.Polling?
      modifies this
      ensures Valid() && old(trace) <= trace && world.pc.Idle? && world.ticket == old(world.ticket)
      ensures ok ==> Recovered()
      ensures !ok ==> world.quarantined
      ensures old(BarrierComes(plan)) ==> ok && Serving()
    {
      ghost var comes := BarrierComes(plan);
      ghost var n: nat := if comes then PollOf(plan, Acknowledgement(world.challenge)) else 0;
      var elapsed := 0;
      while elapsed <= TRANSFER_TIMEOUT_MS
        invariant 0 <= elapsed && elapsed % POLL_MS == 0 && Valid() && old(trace) <= trace && world.pc.Polling?
        invariant world.ticket == old(world.ticket)
        invariant comes ==> 5 + elapsed <= n && BarrierComesAt(plan, n)
        decreases TRANSFER_TIMEOUT_MS - elapsed
      {
        var done;
        done, ok := PollRound(plan, 5 + elapsed, comes, n);
        if done { return; }
        elapsed := elapsed + POLL_MS;
      }
      TimeOut();
      ok := false;
    }

    /** Polling has gone on for too long. */
    method TimeOut()
      requires Valid() && world.pc.Polling?
      modifies this
      ensures Valid() && old(trace) <= trace && world.pc.Idle? && world.ticket == old(world.ticket) && world.quarantined
    {
      FailIsQuarantine(world, false);
      Do(GuestFails(false));
    }

    /** Unused consent is retired, then uncertainty is put on disk. */
    method Mark(plan: Plan) returns (ok: bool)
      requires Valid() && world.pc.Current?
      modifies this
      ensures Valid() && old(trace) <= trace && world.ticket == old(world.ticket)
      ensures ok ==> world.pc.Marked? && world.ambiguous
      ensures !ok ==> world.pc.Idle? && world.quarantined
      ensures ok == Marks(plan)
      ensures Calm(plan) ==> SamePeer(old(world), world)
      ensures ok && world.deposits == old(world.deposits) ==> world.recover.None?
    {
      ok := Retire(plan);
      if ok {
        ghost var retired := trace;
        ok := WriteMarker(plan);
        StillNoConsent(old(trace), retired, trace);
      }
    }

    method Retire(plan: Plan) returns (ok: bool)
      requires Valid() && world.pc.Current?
      modifies this
      ensures Valid() && old(trace) <= trace && world.ticket == old(world.ticket)
      ensures if ok then world.pc.Retired? && world.recover.None? else world.pc.Idle? && world.quarantined
      ensures ok == !plan.fails(1) && (Calm(plan) ==> SamePeer(old(world), world))
    {
      ok := Attempt(Event.Exchange(RetireRecover), plan, 1);
    }

    method WriteMarker(plan: Plan) returns (ok: bool)
      requires Valid() && world.pc.Retired?
      modifies this
      ensures Valid() && old(trace) <= trace && world.ticket == old(world.ticket)
      ensures if ok then world.pc.Marked? && world.ambiguous && !world.ambiguousTmp
              else world.pc.Idle? && world.quarantined
      ensures ok == (!plan.fails(2) && !plan.fails(3)) && (Calm(plan) ==> SamePeer(old(world), world))
    {
      ok := Attempt(Event.Exchange(WriteMarkerTmp), plan, 2);
      if !ok { return; }
      assert world.pc.MarkedTmp?;
      ok := Attempt(Event.Exchange(RenameMarker), plan, 3);
    }

    /** Everything directory_transfer does before the request can be seen. */
    method Prepare(plan: Plan) returns (ok: bool)
      requires Valid() && world.pc.Idle? && !world.quarantined
      modifies this
      ensures Valid() && old(trace) <= trace && world.ticket == old(world.ticket)
      ensures ok ==> world.pc.Marked? && world.ambiguous
      ensures !ok ==> world.pc.Idle? && world.quarantined
      // Nothing but the session and failures decides.
      ensures ok <==> SessionHolds(old(world), plan) && !plan.fails(0) && Marks(plan)
      ensures !SessionHolds(old(world), plan) && EndsQuietly(plan) ==> Untouched(old(world), world)
      ensures Calm(plan) && InSession(old(world)) ==> SamePeer(old(world), world)
      ensures old(world.deposits) <= world.deposits
      ensures ok && world.deposits == old(world.deposits) ==> world.recover.None?
      ensures !ok && !Quiet(world) ==> Marker(world)
    {
      ok := CheckedSession(plan);
      ghost var checked := trace;
      if ok { ok := Mark(plan); }
      Afterwards(old(trace), checked);
    }

    lemma Afterwards(before: seq<Event>, between: seq<Event>)
      requires Valid() && before <= between <= trace
      ensures !Quiet(world) ==> Marker(world)
      ensures var (a, b, c) := (Run(INITIAL, before), Run(INITIAL, between), world);
        && a.deposits <= b.deposits <= c.deposits
        && (a.deposits == c.deposits && b.recover.None? ==> c.recover.None?)
    {
      QuietStates(trace);
      StillNoConsent(before, between, trace);
    }

    /** The session is live and its challenge is still the one in force. */
    method CheckedSession(plan: Plan) returns (ok: bool)
      requires Valid() && world.pc.Idle? && !world.quarantined
      modifies this
      ensures Valid() && old(trace) <= trace && world.ticket == old(world.ticket)
      ensures if ok then world.pc.Current? else world.pc.Idle? && world.quarantined
      ensures ok <==> SessionHolds(old(world), plan) && !plan.fails(0)
      ensures !ok && EndsQuietly(plan) ==> Untouched(old(world), world)
      ensures Calm(plan) && InSession(old(world)) ==> ok && SamePeer(old(world), world)
    {
      EnvBlind(world, Checked, true, plan.before(0));
      ok := LiveSession();
      if ok {
        ok := Attempt(Event.Exchange(CheckCurrent), plan, 0);
        if ok { ok := !world.pc.Idle?; }
      }
    }

    /** The guest's own part of the check. */
    method LiveSession() returns (ok: bool)
      requires Valid() && world.pc.Idle? && !world.quarantined
      modifies this
      ensures Valid() && old(trace) <= trace && ok == (old(world).sessionReady && !Marker(old(world)))
      ensures world == old(world).(quarantined := true, pc := if ok then Checked else Idle)
    {
      Do(Event.Exchange(BeginExchange));
      Do(Event.Exchange(CheckSession));
      ok := !world.pc.Idle?;
    }

    /** The send was refused: nothing was published, so the marker is removed. */
    method Withdraw(plan: Plan) returns (r: Outcome)
      requires Valid() && world.pc.Refused?
      modifies this
      ensures Valid() && old(trace) <= trace && world.pc.Idle? && world.ticket == old(world.ticket)
      ensures Quiet(world) && r != Complete
      ensures r == Rejected ==> !world.quarantined && !Marker(world)
      ensures r == Unknown ==> world.quarantined
    {
      r := Unknown;
      QuietStates(trace);
      var ok := Attempt(Event.Exchange(RefusedRemove), plan, 6);
      if ok {
        assert world.pc.RefusedHalf? && !world.ambiguous;
        ok := Attempt(Event.Exchange(RefusedRemoveTmp), plan, 7);
        if ok { r := Rejected; }
      }
    }

    /** The reply is validated; removing the marker may fail, which quarantines
        the guard again but does not take the reply back. */
    method Unmark(plan: Plan, n: nat)
      requires Valid() && world.pc.Accepted? && Quiet(world)
      modifies this
      ensures Valid() && old(trace) <= trace && world.pc.Idle? && world.ticket == old(world.ticket)
      ensures Quiet(world) && (Marker(world) ==> world.quarantined)
      ensures plan.fails(n) || plan.fails(n + 1) ==> world.quarantined && !world.sessionReady
      ensures !plan.fails(n) && !plan.fails(n + 1) ==> !Marker(world) && world.quarantined == old(world.quarantined)
    {
      var ok := UnmarkFinal(plan, n);
      if ok { UnmarkTmp(plan, n + 1); }
    }

    /** The marker goes under its final name, then under its temporary one. */
    method UnmarkFinal(plan: Plan, n: nat) returns (ok: bool)
      requires Valid() && world.pc.Accepted? && Quiet(world)
      modifies this
      ensures Valid() && old(trace) <= trace && world.ticket == old(world.ticket) && Quiet(world)
      ensures ok == !plan.fails(n)
      ensures ok ==> world.pc.AcceptedHalf? && !world.ambiguous && world.quarantined == old(world.quarantined)
      ensures !ok ==> world.pc.Idle? && world.quarantined && !world.sessionReady
    {
      ok := Attempt(Event.Exchange(AcceptedRemove), plan, n);
    }

    method UnmarkTmp(plan: Plan, n: nat)
      requires Valid() && world.pc.AcceptedHalf? && Quiet(world) && !world.ambiguous
      modifies this
      ensures Valid() && old(trace) <= trace && world.pc.Idle? && world.ticket == old(world.ticket) && Quiet(world)
      ensures plan.fails(n) ==> world.quarantined && !world.sessionReady
      ensures !plan.fails(n) ==> !Marker(world) && world.quarantined == old(world.quarantined)
    {
      var _ := Attempt(Event.Exchange(AcceptedRemoveTmp), plan, n);
    }

    /** A reply has been taken: the guard accepts or rejects it. */
    method Finish(plan: Plan, sound: bool, n: nat) returns (r: Outcome)
      requires Valid() && world.pc.Received?
      modifies this
      ensures Valid() && old(trace) <= trace && world.pc.Idle? && world.ticket == old(world.ticket)
      ensures Quiet(world) && r == if sound then Complete else Unknown
      ensures !sound || Marker(world) ==> world.quarantined
      ensures !sound && Marker(old(world)) ==> Marker(world)
      ensures sound && !plan.fails(n) && !plan.fails(n + 1) ==> !Marker(world) && !world.quarantined
    {
      QuietStates(trace);
      Do(if sound then Event.Exchange(Validate) else Event.Exchange(RejectReply));
      r := if sound then Complete else Unknown;
      if sound { Unmark(plan, n); }
    }

    /** One look for a reply. */
    method PollReply(plan: Plan, sound: bool, n: nat) returns (done: bool, r: Outcome, ghost reply: nat)
      requires Valid() && world.pc.Waiting?
      modifies this
      ensures Valid() && old(trace) <= trace && world.ticket == old(world.ticket)
      ensures done <==> old(world).toGuest.Some?
      ensures !done ==> world == old(world) && r == Unknown
      ensures done ==> world.pc.Idle? && reply == world.ticket && Quiet(world)
      ensures done ==> r == (if sound then Complete else Unknown) && (!sound ==> world.quarantined && Marker(world))
      ensures done && sound && !plan.fails(n) && !plan.fails(n + 1) ==> !Marker(world) && !world.quarantined
    {
      done, r, reply := false, Unknown, 0;
      RepliesAreOwn(trace);
      QuietStates(trace);
      Do(Event.Exchange(Receive));
      if world.pc.Received? {
        done, reply := true, world.pc.reply;
        r := Finish(plan, sound, n);
      }
    }

    /** One poll: the environment moves, then the guest looks, unless that fails. */
    method LookForReply(plan: Plan, sound: bool, n: nat) returns (done: bool, r: Outcome, ghost reply: nat)
      requires Valid() && world.pc.Waiting?
      modifies this
      ensures Valid() && old(trace) <= trace && world.ticket == old(world.ticket)
      ensures var t := EnvRun(old(world), plan.before(n));
        && (done <==> !plan.fails(n) && t.toGuest.Some?) && (!done ==> world == t && world.pc.Waiting? && r == Unknown)
      ensures done ==> world.pc.Idle? && reply == world.ticket && Quiet(world)
      ensures done ==> r == (if sound then Complete else Unknown) && (!sound ==> world.quarantined && Marker(world))
      ensures done && sound && !plan.fails(n + 1) && !plan.fails(n + 2) ==> !Marker(world) && !world.quarantined
    {
      done, r, reply := false, Unknown, 0;
      Environment(plan.before(n));
      if !plan.fails(n) { done, r, reply := PollReply(plan, sound, n + 1); }
    }

    /** The host will answer the request just published. */
    ghost predicate ReplyComes(plan: Plan)
      reads this
    {
      world.host.HostIdle? && world.toHost == Some(world.ticket) && Cooperates(plan, Answer(world.ticket))
    }

    /** The same, before the n-th operation. */
    ghost predicate ReplyComesAt(plan: Plan, n: nat)
      reads this
    {
      && world.host.HostIdle? && world.toHost == Some(world.ticket) && world.toGuest.None?
      && IsPoll(n) && CalmBut(plan, n) && plan.before(n) == Answer(world.ticket)
    }

    /** One round of the polling loop. */
    method ReplyRound(plan: Plan, sound: bool, at: nat, ghost comes: bool, ghost n: nat)
      returns (done: bool, r: Outcome, ghost reply: nat)
      requires Valid() && world.pc.Waiting? && (comes ==> ReplyComesAt(plan, n))
      modifies this
      ensures Valid() && old(trace) <= trace && world.ticket == old(world.ticket)
      ensures !done ==> world.pc.Waiting? && r == Unknown
      ensures done ==> world.pc.Idle? && reply == world.ticket && Quiet(world)
      ensures done ==> r == (if sound then Complete else Unknown) && (!sound ==> world.quarantined && Marker(world))
      ensures comes && at != n ==> !done && world == old(world)
      ensures comes && at == n && sound ==> done && !Marker(world) && !world.quarantined
      ensures comes && at == n ==> done
    {
      if comes { AnswerArrives(world, world.ticket); }
      done, r, reply := LookForReply(plan, sound, at);
    }

    /** The polling loop of directory_transfer, after publication. */
    method AwaitReply(plan: Plan, sound: bool) returns (r: Outcome, ghost reply: nat)
      requires Valid() && world.pc.Waiting?
      modifies this
      ensures Valid() && old(trace) <= trace && world.pc.Idle? && world.ticket == old(world.ticket)
      ensures r == Complete ==> reply == world.ticket && Quiet(world)
      ensures r == Unknown ==> world.quarantined
      ensures r != Rejected && (!Quiet(world) ==> Marker(world))
      ensures r == Unknown ==> Marker(world)
      ensures old(ReplyComes(plan)) && sound ==> r == Complete && !Marker(world) && !world.quarantined
    {
      ghost var comes := ReplyComes(plan);
      ghost var n: nat := if comes then PollOf(plan, Answer(world.ticket)) else 0;
      QuietStates(trace);
      r, reply := Unknown, 0;
      var elapsed := 0;
      while elapsed <= TRANSFER_TIMEOUT_MS
        invariant 0 <= elapsed && elapsed % POLL_MS == 0 && Valid() && old(trace) <= trace && world.pc.Waiting?
        invariant world.ticket == old(world.ticket) && r == Unknown
        invariant comes ==> 5 + elapsed <= n && ReplyComesAt(plan, n)
        decreases TRANSFER_TIMEOUT_MS - elapsed
      {
        var done;
        done, r, reply := ReplyRound(plan, sound, 5 + elapsed, comes, n);
        if done { return; }
        if plan.fails(5 + elapsed) { break; }
        elapsed := elapsed + POLL_MS;
      }
      GiveUp(plan.fails(5 + elapsed) && plan.removed(6 + elapsed), plan.removed(5 + elapsed));
    }

    /** The reply has not come, or cannot be read and is removed: the request record is
        discarded if that succeeds, uncertainty stays. */
    method GiveUp(unreadable: bool, removed: bool)
      requires Valid() && world.pc.Waiting?
      modifies this
      ensures Valid() && old(trace) <= trace && world.pc.Idle? && world.ticket == old(world.ticket)
      ensures world.quarantined && Marker(world) && (removed ==> world.toHost.None?)
    {
      QuietStates(trace);
      if unreadable { Do(Event.Exchange(DropReply)); }
      FailIsQuarantine(world, removed);
      Do(GuestFails(removed));
    }

    /** backend_exchange: transfer, validation (`sound` is the guard's verdict on
        the reply) and cleanup. Rejection is proof that nothing was published;
        completion delivers the reply to exactly the request of this call and
        leaves the peer quiescent; otherwise the guard stays quarantined. */
    method Exchange(plan: Plan, sound: bool) returns (r: Outcome, ghost reply: nat)
      requires Valid() && world.pc.Idle? && !world.quarantined
      modifies this
      ensures Valid() && old(trace) <= trace && world.pc.Idle?
      ensures r == Rejected ==> world.ticket == old(world.ticket) && !world.quarantined && !Marker(world)
      ensures r == Complete ==> world.ticket == old(world.ticket) + 1 == reply && Quiet(world)
      ensures r == Unknown ==> world.quarantined
      ensures !Quiet(world) ==> r == Unknown && Marker(world)
      // Nothing is sent into a session that is not live, or that the host has ended.
      ensures !SessionHolds(old(world), plan) ==> r == Unknown && world.ticket == old(world.ticket)
      ensures !SessionHolds(old(world), plan) && EndsQuietly(plan) ==> Untouched(old(world), world)
      // A live session, a host that answers and no failures are enough.
      ensures var s := old(world);
        InSession(s) && s.host.HostIdle? && Cooperates(plan, Answer(s.ticket + 1)) && sound ==>
          r == Complete && !Marker(world) && !world.quarantined
      // At most one request is published. If it is not answered, the marker stays, and
      // no consent is left to recover with unless one was deposited meanwhile.
      ensures world.ticket == old(world.ticket) || world.ticket == old(world.ticket) + 1
      ensures world.ticket != old(world.ticket) && r != Complete ==> Marker(world)
      ensures world.ticket != old(world.ticket) && world.deposits == old(world.deposits) ==> world.recover.None?
    {
      r, reply := Unknown, 0;
      CooperationIsCalm(plan, Answer(world.ticket + 1));
      var ok := Prepare(plan);
      if ok { r, reply := Send(plan, sound); }
    }

    /** fujinet_nio_directory_client_send: the environment moves once more, then the
        request is published, or refused without trace. */
    method PublishOrRefuse(plan: Plan)
      requires Valid() && world.pc.Marked?
      modifies this
      ensures Valid() && old(trace) <= trace
      ensures world.pc.Refused? || world.pc.Waiting?
      ensures world.ticket == old(world.ticket) + if world.pc.Waiting? then 1 else 0
      ensures Calm(plan) ==>
        world.pc.Waiting? && world.host == old(world).host && world.toHost == Some(world.ticket)
    {
      QuietStates(trace);
      Environment(plan.before(4));
      assert world.pc.Marked? && world.ticket == old(world.ticket);
      Do(if plan.fails(4) then Event.Exchange(RefuseSend) else Event.Exchange(Publish));
    }

    /** The request is published, or refused; from here on the host may see it. */
    method Send(plan: Plan, sound: bool) returns (r: Outcome, ghost reply: nat)
      requires Valid() && world.pc.Marked?
      modifies this
      ensures Valid() && old(trace) <= trace && world.pc.Idle?
      ensures r == Rejected ==> world.ticket == old(world.ticket) && !world.quarantined && !Marker(world)
      ensures r == Complete ==> world.ticket == old(world.ticket) + 1 == reply && Quiet(world)
      ensures r == Unknown ==> world.quarantined
      ensures !Quiet(world) ==> r == Unknown && Marker(world)
      ensures world.ticket == old(world.ticket) || world.ticket == old(world.ticket) + 1
      ensures world.ticket != old(world.ticket) && r != Complete ==> Marker(world)
      ensures old(world.deposits) <= world.deposits
      ensures world.deposits == old(world.deposits) && old(world.recover).None? ==> world.recover.None?
      ensures var s := old(world);
        s.host.HostIdle? && Cooperates(plan, Answer(s.ticket + 1)) && sound ==>
          r == Complete && !Marker(world) && !world.quarantined
    {
      r, reply := PublishAndAwait(plan, sound);
      StillNoConsent(old(trace), old(trace), trace);
    }

    method PublishAndAwait(plan: Plan, sound: bool) returns (r: Outcome, ghost reply: nat)
      requires Valid() && world.pc.Marked?
      modifies this
      ensures Valid() && old(trace) <= trace && world.pc.Idle?
      ensures r == Rejected ==> world.ticket == old(world.ticket) && !world.quarantined && !Marker(world)
      ensures r == Complete ==> world.ticket == old(world.ticket) + 1 == reply && Quiet(world)
      ensures r == Unknown ==> world.quarantined
      ensures !Quiet(world) ==> r == Unknown && Marker(world)
      ensures world.ticket == old(world.ticket) || world.ticket == old(world.ticket) + 1
      ensures world.ticket != old(world.ticket) && r != Complete ==> Marker(world)
      ensures var s := old(world);
        s.host.HostIdle? && Cooperates(plan, Answer(s.ticket + 1)) && sound ==>
          r == Complete && !Marker(world) && !world.quarantined
    {
      reply := 0;
      CooperationIsCalm(plan, Answer(world.ticket + 1));
      PublishOrRefuse(plan);
      if world.pc.Refused? {
        r := Withdraw(plan);
      } else {
        r, reply := AwaitReply(plan, sound);
      }
    }

    /** backend_close: undelivered packet records are discarded if that succeeds. */
    method Close(discards: bool)
      requires Valid() && world.pc.Idle?
      modifies this
      ensures Valid() && old(trace) <= trace && world.pc.Idle? && world.ticket == old(world.ticket)
      ensures Marker(world) == Marker(old(world))
      ensures if discards then world.toHost.None? && world.toGuest.None? else world == old(world)
      ensures Untouched(old(world), world)
    {
      if discards {
        Do(DiscardToHost);
        Do(DiscardToGuest);
      }
    }

    /** A host that cooperates with the attempt: it answers the barrier, if the backend
        has to be opened and consent is there when needed, and then the request. */
    ghost predicate Good(isOpen: bool, a: Try)
      reads this
    {
      && world.host.HostIdle? && a.sound && Cooperates(a.exchanging, Answer(world.ticket + 1))
      && if isOpen then InSession(world) && !world.quarantined
         else Consented(world) && Cooperates(a.opening, Acknowledgement(world.challenge))
    }

    /** One attempt of the retry loop: lazy open, exchange, and close unless the reply
        is good. */
    method TryOnce(isOpen: bool, a: Try) returns (r: Outcome, ghost reply: nat)
      requires Valid() && world.pc.Idle?
      modifies this
      ensures Valid() && old(trace) <= trace && world.pc.Idle?
      ensures r == Complete ==> world.ticket == old(world.ticket) + 1 == reply
      ensures world.ticket == old(world.ticket) || world.ticket == old(world.ticket) + 1
      ensures world.ticket != old(world.ticket) && r != Complete && world.deposits == old(world.deposits) ==>
        Marker(world) && world.recover.None?
      ensures old(Good(isOpen, a)) ==> r == Complete && !Marker(world)
      ensures isOpen && !SessionHolds(old(world), a.exchanging) && EndsQuietly(a.exchanging) ==>
        r == Unknown && Untouched(old(world), world)
    {
      var ready := Ready(isOpen, a);
      ghost var before := trace;
      r, reply := ExchangeAndClose(ready, a);
      StillNoConsent(old(trace), before, trace);
    }

    /** The backend is open, or is opened now. */
    method Ready(isOpen: bool, a: Try) returns (ready: bool)
      requires Valid() && world.pc.Idle?
      modifies this
      ensures Valid() && old(trace) <= trace && world.pc.Idle? && world.ticket == old(world.ticket)
      ensures old(Good(isOpen, a)) ==> ready && Good(true, a)
      ensures isOpen ==> world == old(world)
    {
      ready := isOpen;
      if !isOpen { ready := Quiesce(a.opening); }
    }

    method ExchangeAndClose(ready: bool, a: Try) returns (r: Outcome, ghost reply: nat)
      requires Valid() && world.pc.Idle?
      modifies this
      ensures Valid() && old(trace) <= trace && world.pc.Idle?
      ensures r == Complete ==> world.ticket == old(world.ticket) + 1 == reply
      ensures world.ticket == old(world.ticket) || world.ticket == old(world.ticket) + 1
      ensures world.ticket != old(world.ticket) && r != Complete && world.deposits == old(world.deposits) ==>
        Marker(world) && world.recover.None?
      ensures ready && old(Good(true, a)) ==> r == Complete && !Marker(world)
      ensures !SessionHolds(old(world), a.exchanging) && EndsQuietly(a.exchanging) ==>
        r == Unknown && Untouched(old(world), world)
    {
      r, reply := Unknown, 0;
      if ready && !world.quarantined { r, reply := Exchange(a.exchanging, a.sound); }
      ghost var exchanged := trace;
      if r != Complete { Close(a.discards); }
      StillNoConsent(old(trace), exchanged, trace);
    }

    /** One round of the retry loop, and what it means without fresh consent. */
    method RetryRound(isOpen: bool, a: Try) returns (r: Outcome, ghost reply: nat)
      requires Valid() && world.pc.Idle?
      modifies this
      ensures Valid() && old(trace) <= trace && world.pc.Idle? && old(world.deposits) <= world.deposits
      ensures r == Complete ==> world.ticket == old(world.ticket) + 1 == reply
      ensures world.ticket == old(world.ticket) || world.ticket == old(world.ticket) + 1
      ensures world.ticket != old(world.ticket) && r != Complete && world.deposits == old(world.deposits) ==>
        Marker(world) && world.recover.None?
      ensures old(Good(isOpen, a)) ==> r == Complete
      ensures isOpen && !SessionHolds(old(world), a.exchanging) && EndsQuietly(a.exchanging) ==>
        r == Unknown && Untouched(old(world), world)
      ensures Marker(old(world)) && old(world).recover.None? && world.deposits == old(world.deposits) ==>
        r != Complete && world.ticket == old(world.ticket) && Marker(world) && world.recover.None?
    {
      ghost var s, before := world, trace;
      r, reply := TryOnce(isOpen, a);
      DepositsGrow(before, trace);
      if s.deposits == world.deposits && Marker(s) && s.recover.None? { NothingWithoutConsent(before, trace); }
    }

    /** Two attempts that see a recovery through: the first finds that the host has ended
        the session and sends nothing, the second opens a new one. */
    ghost predicate GoodAfterRestart(isOpen: bool, tries: seq<Try>)
      reads this
    {
      && |tries| >= 2 && isOpen && EndsQuietly(tries[0].exchanging)
      && world.challenge != world.sessionChallenge && !Marker(world) && Good(false, tries[1])
    }

    /** fujinet_disk_retry_exchange over the protocol itself. However often it tries,
        and whatever host, crashes of the host and failing operations do in between: if
        the operator deposits no consent during the call, at most one request is
        published; success delivers the reply to exactly that request; a published
        request that was not answered leaves the marker; and under a marker without
        consent nothing is published at all. A cooperating host is enough for success, at
        the second attempt even if it has restarted since the last call. */
    method Retry(isOpen: bool, tries: seq<Try>) returns (r: Outcome, ghost reply: nat)
      requires Valid() && world.pc.Idle?
      modifies this
      ensures Valid() && old(trace) <= trace && world.pc.Idle?
      ensures r == Complete ==> reply == world.ticket > old(world.ticket)
      ensures world.deposits == old(world.deposits) ==>
        && world.ticket <= old(world.ticket) + 1
        && (r != Complete && world.ticket != old(world.ticket) ==> Marker(world))
        && (Marker(old(world)) && old(world).recover.None? ==> r != Complete && world.ticket == old(world.ticket))
      ensures old(tries != [] && Good(isOpen, tries[0])) ==> r == Complete
      ensures old(GoodAfterRestart(isOpen, tries)) ==> r == Complete && world.ticket == old(world.ticket) + 1
    {
      r, reply := Unknown, 0;
      var open := isOpen;
      for i := 0 to |tries|
        invariant Valid() && old(trace) <= trace && world.pc.Idle? && old(world.ticket) <= world.ticket && r != Complete
        invariant old(world.deposits) <= world.deposits
        invariant world.deposits == old(world.deposits) && world.ticket != old(world.ticket) ==>
          world.ticket == old(world.ticket) + 1 && Marker(world) && world.recover.None?
        invariant world.deposits == old(world.deposits) && Marker(old(world)) && old(world).recover.None? ==>
          world.ticket == old(world.ticket) && Marker(world) && world.recover.None?
        invariant i == 0 ==> open == isOpen && world == old(world)
        invariant i > 0 ==> !open && !old(Good(isOpen, tries[0]))
        invariant old(GoodAfterRestart(isOpen, tries)) ==> i <= 1 && world.ticket == old(world.ticket)
        invariant old(GoodAfterRestart(isOpen, tries)) && i == 1 ==> Good(false, tries[1])
      {
        r, reply := RetryRound(open, tries[i]);
        if r == Complete { return; }
        open := false;
      }
    }
  }
}
