/** What hosting keeps over every run. */
module PairingLaws {
  import opened Prelude
  import opened Channel
  import opened Pake
  import opened Mailbox
  import opened PairingHost

  function Answer(c: Config, r: HostRun): Pending { PendingOf(c.suite, r.spakeKey, r.transcript) }

  /** A session the host answered whose confirmation, now in its slot, is 32 bytes
      and not the expected ones. */
  predicate IsWrong(c: Config, s: System, x: string) {
    && x in s.runs && (x, ConfirmJoiner) in s.slots
    && |s.slots[(x, ConfirmJoiner)]| == 32 && s.slots[(x, ConfirmJoiner)] != Answer(c, s.runs[x]).expected
  }

  /** The wrong guesses the host has read. */
  function Wrong(c: Config, s: System): set<string> {
    set x | x in s.heard && IsWrong(c, s, x)
  }

  /** A session whose joiner proved the code in front of the host. */
  predicate IsProved(c: Config, s: System, x: string) {
    && x in s.heard && x in s.runs && (x, ConfirmJoiner) in s.slots
    && s.slots[(x, ConfirmJoiner)] == Answer(c, s.runs[x]).expected
  }

  // ---------------------------------------------------------------- the invariant

  ghost predicate RunOk(c: Config, s: System, x: string)
    requires x in s.runs
  {
    var t := s.runs[x].transcript;
    && x in s.served && (x, Msg2) in s.slots && s.slots[(x, Msg2)] == t.msg2
    && (x, Msg1) in s.slots && s.slots[(x, Msg1)] == t.msg1
    && c.decode(x) == Some(t.initiatorId) && t.responderId == c.hostKey
  }

  ghost predicate Confirmed(c: Config, s: System, x: string) {
    && IsProved(c, s, x)
    && (x, ConfirmHost) in s.wrote && (x, ConfirmHost) in s.slots
    && s.slots[(x, ConfirmHost)] == Answer(c, s.runs[x]).ours
  }

  ghost predicate PhaseOk(c: Config, s: System) {
    match s.phase
    case HoldsMsg2(x, p, run) =>
      && x in s.served && x !in s.runs && x !in s.heard && s.attemptsLeft > 0 && p == Answer(c, run)
      && (x, Msg1) in s.slots && s.slots[(x, Msg1)] == run.transcript.msg1
      && c.decode(x) == Some(run.transcript.initiatorId) && run.transcript.responderId == c.hostKey
    case AwaitsConfirm(x, p) => x in s.runs && x !in s.heard && s.attemptsLeft > 0 && p == Answer(c, s.runs[x])
    case HoldsConfirm(x, key, ours) => IsProved(c, s, x) && key == Answer(c, s.runs[x]).key && ours == Answer(c, s.runs[x]).ours
    case AwaitsRequest(x, sealer, opener) =>
      && Confirmed(c, s, x)
      && sealer == Half(SendKey(Answer(c, s.runs[x]).key, Responder), 0)
      && opener == Half(ReceiveKey(Answer(c, s.runs[x]).key, Responder), 0)
    case HoldsAccept(x, sealed, peer) => Confirmed(c, s, x) && IsAccept(c, s, x, peer, sealed)
    case Joined(x, _) => (x, Accept) in s.wrote
    case _ => true
  }

  /** The body is the payload of a device enrolled in this session, sealed to the
      joiner as the first message. */
  ghost predicate IsAccept(c: Config, s: System, x: string, peer: u64, body: Bytes)
    requires x in s.runs
  {
    exists e :: e in s.enrolled && e.session == x && e.device.peer == peer && IsSealed(c, s, x, e, body)
  }

  ghost predicate IsSealed(c: Config, s: System, x: string, e: Enrolment, body: Bytes)
    requires x in s.runs
  {
    e.accept.Some? && body == c.suite.aead.seal(Answer(c, s.runs[x]).key.responderToInitiator, NonceFor(0), e.accept.value)
  }

  /** The device is the one the request in this session's slot names. */
  ghost predicate IsNamed(c: Config, s: System, e: Enrolment) {
    && e.session in s.runs && (e.session, Request) in s.slots
    && var request := c.suite.aead.open(Answer(c, s.runs[e.session]).key.initiatorToResponder, NonceFor(0), s.slots[(e.session, Request)]);
       request.Some? && c.parse(request.value) == Some(e.device)
  }

  ghost predicate AcceptOk(c: Config, s: System, x: string) {
    && s.phase.Joined? && s.phase.session == x && Confirmed(c, s, x)
    && (x, Accept) in s.slots && IsAccept(c, s, x, s.phase.peer, s.slots[(x, Accept)])
  }

  ghost predicate RunsOk(c: Config, s: System) {
    && Distinct(s.served)
    && (forall x :: x in s.runs ==> RunOk(c, s, x))
    && (forall x :: x in s.heard ==> x in s.runs && (x, ConfirmJoiner) in s.slots)
    && (forall x :: (x, Msg2) in s.wrote <==> x in s.runs)
  }

  ghost predicate WritesOk(c: Config, s: System) {
    && (forall x :: (x, ConfirmHost) in s.wrote ==> Confirmed(c, s, x))
    && (forall x :: (x, Accept) in s.wrote ==> AcceptOk(c, s, x))
    && (forall e :: e in s.enrolled ==> Confirmed(c, s, e.session) && IsNamed(c, s, e))
  }

  predicate BudgetOk(c: Config, s: System) { s.attemptsLeft + |Wrong(c, s)| == MAX_ATTEMPTS }

  ghost predicate Inv(c: Config, s: System) {
    RunsOk(c, s) && WritesOk(c, s) && BudgetOk(c, s) && PhaseOk(c, s)
  }

  // ---------------------------------------------------------------- growth

  /** What is written, answered, heard or served stays so. */
  ghost predicate Grows(s: System, s': System) {
    && Extends(s'.slots, s.slots)
    && (forall x :: x in s.runs ==> x in s'.runs && s'.runs[x] == s.runs[x])
    && s.heard <= s'.heard && s.wrote <= s'.wrote && s.served <= s'.served && s.enrolled <= s'.enrolled
  }

  lemma ProvedStays(c: Config, s: System, s': System, x: string)
    requires Grows(s, s') && IsProved(c, s, x)
    ensures IsProved(c, s', x) && s'.runs[x] == s.runs[x]
  {
    hide PendingOf;
    assert (x, ConfirmJoiner) in s.slots;
  }

  lemma ConfirmedStays(c: Config, s: System, s': System, x: string)
    requires Grows(s, s') && Confirmed(c, s, x)
    ensures Confirmed(c, s', x) && s'.runs[x] == s.runs[x]
  {
    hide IsProved;
    hide PendingOf;
    ProvedStays(c, s, s', x);
    assert (x, ConfirmHost) in s.slots;
  }

  lemma NamedStays(c: Config, s: System, s': System, e: Enrolment)
    requires Grows(s, s') && IsNamed(c, s, e)
    ensures IsNamed(c, s', e)
  {
    hide PendingOf;
    hide NonceFor;
    assert (e.session, Request) in s.slots;
  }

  lemma RunStays(c: Config, s: System, s': System, x: string)
    requires Grows(s, s') && x in s.runs && RunOk(c, s, x)
    ensures RunOk(c, s', x)
  {
    assert (x, Msg1) in s.slots && (x, Msg2) in s.slots;
  }

  /** A session that was heard is judged once and for all. */
  lemma JudgementStays(c: Config, s: System, s': System, x: string)
    requires Grows(s, s') && x in s.runs && (x, ConfirmJoiner) in s.slots
    ensures IsWrong(c, s, x) <==> IsWrong(c, s', x)
  {
    hide PendingOf;
  }

  lemma WrongStays(c: Config, s: System, s': System)
    requires Grows(s, s') && RunsOk(c, s) && s'.heard == s.heard
    ensures Wrong(c, s') == Wrong(c, s)
  {
    hide IsWrong;
    forall x | x in s.heard ensures IsWrong(c, s, x) <==> IsWrong(c, s', x) {
      JudgementStays(c, s, s', x);
    }
  }

  // ---------------------------------------------------------------- parts that carry over

  /** Nothing but the phase, foreign slots and the list of served sessions moved. */
  ghost predicate Quiet(s: System, s': System) {
    && Extends(s'.slots, s.slots) && s.served <= s'.served
    && s'.runs == s.runs && s'.heard == s.heard && s'.wrote == s.wrote && s'.enrolled == s.enrolled
    && s'.attemptsLeft == s.attemptsLeft
  }

  lemma QuietKeepsRuns(c: Config, s: System, s': System)
    requires RunsOk(c, s) && Quiet(s, s') && Distinct(s'.served)
    ensures RunsOk(c, s')
  {
    hide RunOk;
    forall x | x in s'.runs ensures RunOk(c, s', x) {
      RunStays(c, s, s', x);
    }
  }

  /** The accept clause needs the phase only when the host has finished. */
  lemma GrowthKeepsWrites(c: Config, s: System, s': System)
    requires WritesOk(c, s) && Grows(s, s') && s'.enrolled == s.enrolled
    requires forall x :: (x, ConfirmHost) in s'.wrote ==> (x, ConfirmHost) in s.wrote
    requires forall x :: (x, Accept) in s'.wrote ==> (x, Accept) in s.wrote
    requires s.phase.Joined? ==> s'.phase == s.phase
    ensures WritesOk(c, s')
  {
    hide Confirmed;
    hide Grows;
    forall x | (x, ConfirmHost) in s'.wrote ensures Confirmed(c, s', x) {
      ConfirmedStays(c, s, s', x);
    }
    forall e | e in s'.enrolled ensures Confirmed(c, s', e.session) && IsNamed(c, s', e) {
      ConfirmedStays(c, s, s', e.session);
      NamedStays(c, s, s', e);
    }
    forall x | (x, Accept) in s'.wrote ensures AcceptOk(c, s', x) {
      AcceptStays(c, s, s', x);
    }
  }

  lemma AcceptStays(c: Config, s: System, s': System, x: string)
    requires AcceptOk(c, s, x) && Grows(s, s') && s'.phase == s.phase
    ensures AcceptOk(c, s', x)
  {
    hide PendingOf;
    hide NonceFor;
    ConfirmedStays(c, s, s', x);
    assert (x, Accept) in s.slots;
  }

  lemma QuietKeepsBase(c: Config, s: System, s': System)
    requires RunsOk(c, s) && WritesOk(c, s) && BudgetOk(c, s) && Quiet(s, s') && Distinct(s'.served)
    requires s.phase.Joined? ==> s'.phase == s.phase
    ensures RunsOk(c, s') && WritesOk(c, s') && BudgetOk(c, s')
  {
    hide Wrong;
    QuietKeepsRuns(c, s, s');
    GrowthKeepsWrites(c, s, s');
    WrongStays(c, s, s');
  }

  // ---------------------------------------------------------------- each step

  lemma ForeignKeeps(c: Config, s: System, session: string, slot: Slot, body: Bytes)
    requires Inv(c, s)
    ensures Inv(c, Step(c, s, Foreign(session, slot, body)))
  {
    var s' := Step(c, s, Foreign(session, slot, body));
    QuietKeepsBase(c, s, s');
    PhaseStays(c, s, s');
  }

  lemma PhaseStays(c: Config, s: System, s': System)
    requires PhaseOk(c, s) && Quiet(s, s') && s'.served == s.served && s'.phase == s.phase
    ensures PhaseOk(c, s')
  {
    hide PendingOf;
    hide NonceFor;
    hide IsProved;
    hide Confirmed;
    match s.phase {
      case HoldsConfirm(x, _, _) => ProvedStays(c, s, s', x);
      case AwaitsRequest(x, _, _) => ConfirmedStays(c, s, s', x);
      case HoldsAccept(x, _, _) => ConfirmedStays(c, s, s', x);
      case _ =>
    }
  }

  /** Ending a session, for whatever reason, keeps everything. */
  lemma DroppingKeeps(c: Config, s: System, phase: Phase)
    requires Inv(c, s) && !s.phase.Joined? && (phase.Polling? || phase.GaveUp?)
    ensures Inv(c, s.(phase := phase))
  {
    QuietKeepsBase(c, s, s.(phase := phase));
  }

  lemma PickKeeps(c: Config, s: System, session: string, seed: nat)
    requires Inv(c, s) && Enabled(s, Pick(session, seed))
    ensures Inv(c, DoPick(c, s, session, seed))
  {
    var s' := DoPick(c, s, session, seed);
    QuietKeepsBase(c, s, s');
    PickedPhase(c, s, session, seed);
  }

  lemma PickedPhase(c: Config, s: System, session: string, seed: nat)
    requires RunsOk(c, s) && Enabled(s, Pick(session, seed))
    ensures PhaseOk(c, DoPick(c, s, session, seed))
  {
    hide Distinct;
    forall x | x in s.runs ensures x in s.served {
      assert RunOk(c, s, x);
    }
  }

  lemma PutMsg2Keeps(c: Config, s: System)
    requires Inv(c, s) && Enabled(s, PutMsg2)
    ensures Inv(c, DoPutMsg2(s))
  {
    hide RunsOk;
    hide WritesOk;
    var x, s' := s.phase.session, DoPutMsg2(s);
    if (x, Msg2) in s.slots {
      hide PhaseOk;
      DroppingKeeps(c, s, Polling);
    } else {
      hide Wrong;
      AnswerGrows(c, s);
      AnsweredRuns(c, s);
      GrowthKeepsWrites(c, s, s');
      WrongStays(c, s, s');
    }
  }

  lemma AnsweredRuns(c: Config, s: System)
    requires Inv(c, s) && Enabled(s, PutMsg2) && (s.phase.session, Msg2) !in s.slots
    ensures RunsOk(c, DoPutMsg2(s))
  {
    hide WritesOk, BudgetOk, PendingOf, RunOk, Distinct;
    var x, s' := s.phase.session, DoPutMsg2(s);
    AnswerGrows(c, s);
    forall y | y in s'.runs ensures RunOk(c, s', y) {
      if y != x { RunStays(c, s, s', y); } else { AnsweredRun(c, s); }
    }
    AnsweredHeard(c, s);
  }

  lemma AnsweredRun(c: Config, s: System)
    requires PhaseOk(c, s) && Enabled(s, PutMsg2) && (s.phase.session, Msg2) !in s.slots
    ensures s.phase.session in DoPutMsg2(s).runs && RunOk(c, DoPutMsg2(s), s.phase.session)
  {
    hide PendingOf;
  }

  lemma AnsweredHeard(c: Config, s: System)
    requires RunsOk(c, s) && Enabled(s, PutMsg2) && (s.phase.session, Msg2) !in s.slots
    ensures var s' := DoPutMsg2(s);
            && (forall x :: x in s'.heard ==> x in s'.runs && (x, ConfirmJoiner) in s'.slots)
            && (forall x :: (x, Msg2) in s'.wrote <==> x in s'.runs)
  {
    hide RunOk, Distinct;
  }

  /** Reading a confirmation adds its session to the wrong ones exactly when it is
      charged for. */
  lemma ReadConfirmKeeps(c: Config, s: System)
    requires Inv(c, s) && Enabled(s, ReadConfirm)
    ensures Inv(c, DoReadConfirm(s))
  {
    hide RunsOk;
    hide WritesOk;
    hide BudgetOk;
    hide Grows;
    var x, s' := s.phase.session, DoReadConfirm(s);
    HeardEffect(c, s);
    GrowthKeepsWrites(c, s, s');
    HeardRuns(c, s, s', x);
    HeardBudget(c, s, s', x);
    HeardPhase(c, s);
  }

  lemma HeardEffect(c: Config, s: System)
    requires PhaseOk(c, s) && Enabled(s, ReadConfirm)
    ensures var s', x := DoReadConfirm(s), s.phase.session;
            && s'.slots == s.slots && s'.served == s.served && s'.runs == s.runs && s'.wrote == s.wrote
            && s'.enrolled == s.enrolled && s'.heard == s.heard + {x} && Grows(s, s')
            && s'.attemptsLeft == (if IsWrong(c, s, x) then s.attemptsLeft - 1 else s.attemptsLeft)
  {
    hide PendingOf;
  }

  lemma HeardPhase(c: Config, s: System)
    requires PhaseOk(c, s) && Enabled(s, ReadConfirm)
    ensures PhaseOk(c, DoReadConfirm(s))
  {
    hide PendingOf;
  }

  lemma HeardRuns(c: Config, s: System, s': System, x: string)
    requires RunsOk(c, s) && Grows(s, s') && s'.served == s.served && s'.runs == s.runs && s'.wrote == s.wrote
    requires s'.heard == s.heard + {x} && x in s.runs && (x, ConfirmJoiner) in s.slots
    ensures RunsOk(c, s')
  {
    hide RunOk;
    forall y | y in s'.runs ensures RunOk(c, s', y) {
      RunStays(c, s, s', y);
    }
    forall y | y in s'.heard ensures y in s'.runs && (y, ConfirmJoiner) in s'.slots {
      assert y in s.runs && (y, ConfirmJoiner) in s.slots;
    }
  }

  lemma HeardBudget(c: Config, s: System, s': System, x: string)
    requires BudgetOk(c, s) && s'.slots == s.slots && s'.runs == s.runs && s'.heard == s.heard + {x} && x !in s.heard
    requires s'.attemptsLeft == if IsWrong(c, s, x) then s.attemptsLeft - 1 else s.attemptsLeft
    ensures BudgetOk(c, s')
  {
    hide PendingOf;
    assert forall y :: IsWrong(c, s', y) <==> IsWrong(c, s, y);
    hide IsWrong;
    if IsWrong(c, s, x) {
      assert Wrong(c, s') == Wrong(c, s) + {x};
      assert x !in Wrong(c, s);
    } else {
      assert Wrong(c, s') == Wrong(c, s);
    }
  }

  lemma PutConfirmKeeps(c: Config, s: System)
    requires Inv(c, s) && Enabled(s, PutConfirm)
    ensures Inv(c, DoPutConfirm(s))
  {
    hide RunsOk;
    hide WritesOk;
    hide BudgetOk;
    hide PhaseOk;
    var x, s' := s.phase.session, DoPutConfirm(s);
    if (x, ConfirmHost) in s.slots {
      DroppingKeeps(c, s, Polling);
    } else {
      WrittenKeepsBase(c, s, s');
      ConfirmPhase(c, s);
      ConfirmWrites(c, s);
    }
  }

  lemma WrittenKeepsBase(c: Config, s: System, s': System)
    requires RunsOk(c, s) && BudgetOk(c, s) && Grows(s, s') && s'.served == s.served && s'.runs == s.runs && s'.heard == s.heard
    requires s'.attemptsLeft == s.attemptsLeft
    requires forall x :: (x, Msg2) in s'.wrote <==> (x, Msg2) in s.wrote
    ensures RunsOk(c, s') && BudgetOk(c, s')
  {
    hide RunsOk;
    hide Grows;
    hide Wrong;
    WrittenKeepsRuns(c, s, s');
    WrongStays(c, s, s');
  }

  lemma ConfirmPhase(c: Config, s: System)
    requires PhaseOk(c, s) && Enabled(s, PutConfirm) && (s.phase.session, ConfirmHost) !in s.slots
    ensures PhaseOk(c, DoPutConfirm(s)) && Confirmed(c, DoPutConfirm(s), s.phase.session)
  {
    hide PendingOf;
    ProvedStays(c, s, DoPutConfirm(s), s.phase.session);
  }

  lemma ConfirmWrites(c: Config, s: System)
    requires Inv(c, s) && Enabled(s, PutConfirm) && (s.phase.session, ConfirmHost) !in s.slots
    requires Grows(s, DoPutConfirm(s)) && Confirmed(c, DoPutConfirm(s), s.phase.session)
    ensures WritesOk(c, DoPutConfirm(s))
  {
    hide RunsOk;
    hide BudgetOk;
    hide Confirmed;
    var x, s' := s.phase.session, DoPutConfirm(s);
    forall y | (y, ConfirmHost) in s'.wrote ensures Confirmed(c, s', y) {
      if y != x { ConfirmedStays(c, s, s', y); }
    }
    forall e | e in s'.enrolled ensures Confirmed(c, s', e.session) && IsNamed(c, s', e) {
      ConfirmedStays(c, s, s', e.session);
      NamedStays(c, s, s', e);
    }
  }

  lemma WrittenKeepsRuns(c: Config, s: System, s': System)
    requires RunsOk(c, s) && Grows(s, s') && s'.served == s.served && s'.runs == s.runs && s'.heard == s.heard
    requires forall x :: (x, Msg2) in s'.wrote <==> (x, Msg2) in s.wrote
    ensures RunsOk(c, s')
  {
    hide RunOk;
    forall x | x in s'.runs ensures RunOk(c, s', x) {
      RunStays(c, s, s', x);
    }
    forall x | x in s'.heard ensures (x, ConfirmJoiner) in s'.slots {
      assert (x, ConfirmJoiner) in s.slots;
    }
  }

  lemma ReadRequestKeeps(c: Config, s: System, outcome: Outcome)
    requires Inv(c, s) && Enabled(s, ReadRequest(outcome))
    ensures Inv(c, DoReadRequest(c, s, outcome))
  {
    hide RunsOk, WritesOk, BudgetOk, PhaseOk, Offer, NamedDevice;
    var device := NamedDevice(c, s);
    if device.Some? && !outcome.Refused? {
      OfferKeeps(c, s, device.value, outcome);
    } else {
      DroppingKeeps(c, s, Polling);
    }
  }

  lemma OfferKeeps(c: Config, s: System, device: Device, outcome: Outcome)
    requires Inv(c, s) && s.phase.AwaitsRequest? && (s.phase.session, Request) in s.slots
    requires NamedDevice(c, s) == Some(device) && !outcome.Refused?
    ensures Inv(c, Offer(c, s, device, outcome))
  {
    hide RunsOk, WritesOk, BudgetOk, PhaseOk, NamedDevice;
    var s' := Offer(c, s, device, outcome);
    WrittenKeepsBase(c, s, s');
    OfferPhase(c, s, device, outcome);
    OfferNames(c, s, device, outcome);
    EnrolmentWrites(c, s, s', s'.enrolled[|s.enrolled|]);
  }

  lemma OfferNames(c: Config, s: System, device: Device, outcome: Outcome)
    requires PhaseOk(c, s) && s.phase.AwaitsRequest? && (s.phase.session, Request) in s.slots
    requires NamedDevice(c, s) == Some(device) && !outcome.Refused?
    ensures var s' := Offer(c, s, device, outcome); IsNamed(c, s', s'.enrolled[|s.enrolled|])
  {
    hide PendingOf, NonceFor;
  }

  lemma OfferPhase(c: Config, s: System, device: Device, outcome: Outcome)
    requires PhaseOk(c, s) && s.phase.AwaitsRequest? && !outcome.Refused?
    ensures PhaseOk(c, Offer(c, s, device, outcome))
    ensures Confirmed(c, Offer(c, s, device, outcome), s.phase.session)
  {
    hide PendingOf, NonceFor;
    var x, s' := s.phase.session, Offer(c, s, device, outcome);
    ConfirmedStays(c, s, s', x);
    if s'.phase.HoldsAccept? {
      var e := Enrolment(x, device, Some(outcome.payload));
      assert s'.enrolled[|s.enrolled|] == e;
      assert IsSealed(c, s', x, e, s'.phase.sealed);
      assert IsAccept(c, s', x, device.peer, s'.phase.sealed);
    }
  }

  lemma EnrolmentWrites(c: Config, s: System, s': System, new_: Enrolment)
    requires WritesOk(c, s) && !s.phase.Joined? && Grows(s, s') && s'.wrote == s.wrote
    requires Confirmed(c, s', new_.session) && IsNamed(c, s', new_)
    requires forall e :: e in s'.enrolled ==> e == new_ || e in s.enrolled
    ensures WritesOk(c, s')
  {
    hide Confirmed;
    hide IsNamed;
    forall y | (y, ConfirmHost) in s'.wrote ensures Confirmed(c, s', y) {
      ConfirmedStays(c, s, s', y);
    }
    forall e | e in s'.enrolled ensures Confirmed(c, s', e.session) && IsNamed(c, s', e) {
      if e != new_ {
        ConfirmedStays(c, s, s', e.session);
        NamedStays(c, s, s', e);
      }
    }
  }

  lemma PutAcceptKeeps(c: Config, s: System)
    requires Inv(c, s) && Enabled(s, PutAccept)
    ensures Inv(c, DoPutAccept(s))
  {
    hide RunsOk;
    hide WritesOk;
    hide BudgetOk;
    hide PhaseOk;
    var x, s' := s.phase.session, DoPutAccept(s);
    if (x, Accept) in s.slots {
      DroppingKeeps(c, s, Polling);
    } else {
      WrittenKeepsBase(c, s, s');
      AcceptPhase(c, s);
      AcceptWrites(c, s, s', x);
    }
  }

  lemma AcceptPhase(c: Config, s: System)
    requires PhaseOk(c, s) && Enabled(s, PutAccept) && (s.phase.session, Accept) !in s.slots
    ensures PhaseOk(c, DoPutAccept(s)) && AcceptOk(c, DoPutAccept(s), s.phase.session)
  {
    hide PendingOf;
    hide NonceFor;
    hide IsProved;
    ConfirmedStays(c, s, DoPutAccept(s), s.phase.session);
  }

  lemma AcceptWrites(c: Config, s: System, s': System, x: string)
    requires WritesOk(c, s) && !s.phase.Joined? && Grows(s, s') && s'.enrolled == s.enrolled
    requires s'.wrote == s.wrote + {(x, Accept)} && AcceptOk(c, s', x)
    ensures WritesOk(c, s')
  {
    hide Confirmed;
    forall y | (y, ConfirmHost) in s'.wrote ensures Confirmed(c, s', y) {
      ConfirmedStays(c, s, s', y);
    }
    forall e | e in s'.enrolled ensures Confirmed(c, s', e.session) && IsNamed(c, s', e) {
      ConfirmedStays(c, s, s', e.session);
      NamedStays(c, s, s', e);
    }
  }

  lemma StepKeeps(c: Config, s: System, e: Event)
    requires Inv(c, s)
    ensures Inv(c, Step(c, s, e))
  {
    hide Inv;
    if Enabled(s, e) {
      match e {
        case Foreign(session, slot, body) => ForeignKeeps(c, s, session, slot, body);
        case Pick(session, seed) => PickKeeps(c, s, session, seed);
        case PutMsg2 => PutMsg2Keeps(c, s);
        case ReadConfirm => ReadConfirmKeeps(c, s);
        case PutConfirm => PutConfirmKeeps(c, s);
        case ReadRequest(outcome) => ReadRequestKeeps(c, s, outcome);
        case PutAccept => PutAcceptKeeps(c, s);
        case Abandon => DroppingKeeps(c, s, Polling);
        case GiveUp => DroppingKeeps(c, s, GaveUp);
      }
    }
  }

  lemma {:induction false} EveryRunKeeps(c: Config, events: seq<Event>)
    ensures Inv(c, After(c, events))
  {
    if events == [] {
      assert Wrong(c, ARMED) == {};
    } else {
      hide Inv;
      EveryRunKeeps(c, events[..|events| - 1]);
      StepKeeps(c, After(c, events[..|events| - 1]), events[|events| - 1]);
    }
  }

  lemma StepGrows(c: Config, s: System, e: Event)
    requires Inv(c, s)
    ensures Grows(s, Step(c, s, e))
  {
    hide RunsOk;
    hide WritesOk;
    hide BudgetOk;
    if Enabled(s, e) {
      match e {
        case PutMsg2 => AnswerGrows(c, s);
        case ReadConfirm => HeardEffect(c, s);
        case ReadRequest(outcome) => RequestGrows(c, s, outcome);
        case PutConfirm => hide PhaseOk;
        case PutAccept => hide PhaseOk;
        case _ => hide PhaseOk;
      }
    }
  }

  lemma AnswerGrows(c: Config, s: System)
    requires PhaseOk(c, s) && Enabled(s, PutMsg2)
    ensures Grows(s, DoPutMsg2(s))
  {
    hide PendingOf;
  }

  lemma RequestGrows(c: Config, s: System, outcome: Outcome)
    requires Enabled(s, ReadRequest(outcome))
    ensures Grows(s, DoReadRequest(c, s, outcome))
  {
    hide OpenNext;
    hide SealNext;
  }

  lemma {:induction false} RunGrows(c: Config, events: seq<Event>, more: seq<Event>)
    ensures Grows(After(c, events), After(c, events + more))
    decreases |more|
  {
    if more == [] {
      assert events + more == events;
    } else {
      var init, all := more[..|more| - 1], events + more;
      assert all[..|all| - 1] == events + init && all[|all| - 1] == more[|more| - 1];
      RunGrows(c, events, init);
      EveryRunKeeps(c, events + init);
      StepGrows(c, After(c, events + init), more[|more| - 1]);
      GrowsTrans(After(c, events), After(c, events + init), After(c, all));
    }
  }

  lemma GrowsTrans(s: System, s': System, s'': System)
    requires Grows(s, s') && Grows(s', s'')
    ensures Grows(s, s'')
  {}

  // ---------------------------------------------------------------- the theorems

  /** Attempts spent are exactly the wrong 32-byte confirmations the host read in
      sessions whose second message it wrote itself: at most three. */
  lemma AttemptsAreWrongGuesses(c: Config, events: seq<Event>)
    ensures var s := After(c, events);
            && MAX_ATTEMPTS - s.attemptsLeft == |Wrong(c, s)| <= 3
            && forall x :: x in Wrong(c, s) ==> (x, Msg2) in s.wrote && (x, Msg2) in s.slots && s.slots[(x, Msg2)] == s.runs[x].transcript.msg2
  {
    EveryRunKeeps(c, events);
  }

  /** A slot somebody else took costs nothing: a session whose second message is
      not the host's is never charged for, however the run goes on. */
  lemma SquattingIsFree(c: Config, events: seq<Event>, more: seq<Event>, x: string)
    requires (x, Msg2) in After(c, events).slots && (x, Msg2) !in After(c, events).wrote
    ensures x !in Wrong(c, After(c, events + more))
  {
    SquattedStays(c, events, more, x);
    EveryRunKeeps(c, events + more);
  }

  lemma {:induction false} SquattedStays(c: Config, events: seq<Event>, more: seq<Event>, x: string)
    requires (x, Msg2) in After(c, events).slots && (x, Msg2) !in After(c, events).wrote
    ensures (x, Msg2) in After(c, events + more).slots && (x, Msg2) !in After(c, events + more).wrote
    decreases |more|
  {
    if more == [] {
      assert events + more == events;
    } else {
      var init, all := more[..|more| - 1], events + more;
      assert all[..|all| - 1] == events + init && all[|all| - 1] == more[|more| - 1];
      SquattedStays(c, events, init, x);
      StepSquatted(c, After(c, events + init), more[|more| - 1], x);
    }
  }

  lemma StepSquatted(c: Config, s: System, e: Event, x: string)
    requires (x, Msg2) in s.slots && (x, Msg2) !in s.wrote
    ensures (x, Msg2) in Step(c, s, e).slots && (x, Msg2) !in Step(c, s, e).wrote
  {}

  /** Each session is served at most once. */
  lemma ServedOnce(c: Config, events: seq<Event>)
    ensures Distinct(After(c, events).served)
    ensures forall x :: (x, Msg2) in After(c, events).wrote ==> x in After(c, events).served
  {
    EveryRunKeeps(c, events);
  }

  /** The host reveals its confirmation and sends the vault only in a session whose
      joiner proved the code first; nothing it wrote was overwritten. */
  lemma ProofComesFirst(c: Config, events: seq<Event>, x: string)
    ensures var s := After(c, events);
            && ((x, ConfirmHost) in s.wrote ==> IsProved(c, s, x) && (x, ConfirmHost) in s.slots && s.slots[(x, ConfirmHost)] == Answer(c, s.runs[x]).ours)
            && ((x, Accept) in s.wrote ==> IsProved(c, s, x) && (x, ConfirmHost) in s.wrote && AcceptOk(c, s, x))
            && (forall e :: e in s.enrolled && e.session == x ==> IsProved(c, s, x) && (x, ConfirmHost) in s.wrote && IsNamed(c, s, e))
  {
    EveryRunKeeps(c, events);
  }

  /** A code admits one device: the accept is written exactly when hosting ends
      with that session joined. */
  lemma OneAccept(c: Config, events: seq<Event>, x: string)
    ensures (x, Accept) in After(c, events).wrote <==> After(c, events).phase.Joined? && After(c, events).phase.session == x
  {
    EveryRunKeeps(c, events);
  }

  /** Enrolment comes before the accept: the device of an offered accept is already
      enrolled, and its pairing completes exactly when the slot is still free.
      Otherwise it stays enrolled and the host goes on polling. */
  lemma AcceptSlotDecides(c: Config, events: seq<Event>)
    requires Enabled(After(c, events), PutAccept)
    ensures var s, s' := After(c, events), After(c, events + [PutAccept]);
            && (s'.phase == Joined(s.phase.session, s.phase.peer) <==> (s.phase.session, Accept) !in s.slots)
            && (s'.phase == Polling <==> (s.phase.session, Accept) in s.slots)
            && s'.enrolled == s.enrolled && exists e :: e in s.enrolled && e.session == s.phase.session && e.device.peer == s.phase.peer
  {
    EveryRunKeeps(c, events);
    assert (events + [PutAccept])[..|events|] == events;
    var s := After(c, events);
    assert IsAccept(c, s, s.phase.session, s.phase.peer, s.phase.sealed);
  }

  /** No session is taken up a second time, however the first attempt ended. */
  lemma PickedOnce(c: Config, events: seq<Event>, i: nat, j: nat, x: string)
    requires i < j < |events| && events[i].Pick? && events[i].session == x && events[j].Pick? && events[j].session == x
    requires Enabled(After(c, events[..i]), events[i])
    ensures !Enabled(After(c, events[..j]), events[j])
  {
    assert events[..i + 1][..i] == events[..i];
    var s := After(c, events[..i + 1]);
    assert s == DoPick(c, After(c, events[..i]), x, events[i].seed);
    assert s.served[|s.served| - 1] == x;
    assert events[..i + 1] + events[i + 1..j] == events[..j];
    RunGrows(c, events[..i + 1], events[i + 1..j]);
  }

  /** A host in the middle of a session has budget left. */
  predicate HasBudget(s: System) { s.phase.Polling? || s.phase.GaveUp? || s.attemptsLeft > 0 }

  lemma {:induction false} BudgetInSession(c: Config, events: seq<Event>)
    ensures HasBudget(After(c, events))
  {
    if events != [] {
      var init := events[..|events| - 1];
      BudgetInSession(c, init);
      EveryRunKeeps(c, init);
      StepHasBudget(c, After(c, init), events[|events| - 1]);
    }
  }

  lemma StepHasBudget(c: Config, s: System, e: Event)
    requires HasBudget(s)
    ensures HasBudget(Step(c, s, e))
  {
    hide PendingOf, OpenNext, NamedDevice;
  }

  /** Once the budget is spent the host writes nothing and enrols nobody, ever. */
  lemma {:induction false} SpentCodeIsDead(c: Config, events: seq<Event>, more: seq<Event>)
    requires After(c, events).attemptsLeft == 0
    ensures var s, s' := After(c, events), After(c, events + more);
            s'.attemptsLeft == 0 && s'.wrote == s.wrote && s'.enrolled == s.enrolled
    decreases |more|
  {
    if more == [] {
      assert events + more == events;
    } else {
      var init, all := more[..|more| - 1], events + more;
      assert all[..|all| - 1] == events + init && all[|all| - 1] == more[|more| - 1];
      SpentCodeIsDead(c, events, init);
      BudgetInSession(c, events + init);
      SpentStep(c, After(c, events + init), more[|more| - 1]);
    }
  }

  lemma SpentStep(c: Config, s: System, e: Event)
    requires s.attemptsLeft == 0 && HasBudget(s)
    ensures var s' := Step(c, s, e); s'.attemptsLeft == 0 && s'.wrote == s.wrote && s'.enrolled == s.enrolled
  {
    hide PendingOf;
  }
}
