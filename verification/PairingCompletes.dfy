/** An undisturbed pairing with the right code completes, from any state in which
    the host is still polling. */
module PairingCompletes {
  import opened Prelude
  import opened Sealing
  import opened Channel
  import opened Pake
  import opened Mailbox
  import opened PairingHost
  import opened PairingLaws
  import opened PairingJoin

  /** Both halves of SPAKE2 reach one key when code and identities are the same. */
  ghost predicate Agrees(s: Suite) {
    forall code, i, r, a, b ::
      var k := s.finishA(code, i, r, a, s.startB(code, i, r, b));
      k.Some? && k == s.finishB(code, i, r, b, s.startA(code, i, r, a))
  }

  lemma AgreeingSuiteExists()
    ensures exists s :: Agrees(s) && Ideal(s.aead)
  {
    IdealExists();
    var a :| Ideal(a);
    var zero: Bytes32 := [0, 0, 0, 0, 0, 0, 0, 0, 0, 0, 0, 0, 0, 0, 0, 0, 0, 0, 0, 0, 0, 0, 0, 0, 0, 0, 0, 0, 0, 0, 0, 0];
    var s := Suite((_, _, _, _) => [], (_, _, _, _, _) => Some([]), (_, _, _, _) => [], (_, _, _, _, _) => Some([]),
                   (_, _) => zero, (_, _) => zero, a);
    assert Agrees(s);
  }

  function SharedRun(c: Config, id: Bytes32, seedA: nat, seedB: nat): HostRun
    requires c.suite.finishB(c.code, id, c.hostKey, seedB, c.suite.startA(c.code, id, c.hostKey, seedA)).Some?
  {
    var msg1 := c.suite.startA(c.code, id, c.hostKey, seedA);
    HostRun(c.suite.finishB(c.code, id, c.hostKey, seedB, msg1).value,
            Transcript(id, c.hostKey, msg1, c.suite.startB(c.code, id, c.hostKey, seedB)))
  }

  predicate Untouched(s: System, x: string, slots: set<Slot>) {
    forall slot :: slot in slots ==> (x, slot) !in s.slots
  }

  /** Nothing outside session `x` is written. */
  ghost predicate OnlyTouches(s: System, s': System, x: string) {
    forall k: (string, Slot) :: k.0 != x ==> (k in s'.slots <==> k in s.slots)
  }

  function TicketOf(c: Config): Ticket { Ticket(c.code, c.hostKey) }

  /** The host has answered and waits for the joiner's confirmation. */
  ghost predicate Answered(c: Config, b: Both, x: string, id: Bytes32, seedA: nat, run: HostRun, attempts: nat) {
    && b.joiner == AwaitsMsg2(x, id, seedA, run.transcript.msg1)
    && b.host.phase == AwaitsConfirm(x, PendingOf(c.suite, run.spakeKey, run.transcript))
    && b.host.attemptsLeft == attempts > 0
    && (x, Msg2) in b.host.slots && b.host.slots[(x, Msg2)] == run.transcript.msg2
    && Untouched(b.host, x, {ConfirmJoiner, ConfirmHost, Request, Accept})
    && x in b.host.runs && b.host.runs[x] == run
  }

  /** Both have proved the code and the host waits for the request. */
  ghost predicate Proved(c: Config, b: Both, x: string, run: HostRun, attempts: nat) {
    && b.joiner == AwaitsHost(x, run)
    && b.host.phase == AwaitsRequest(x, Half(SendKey(SessionKeyOf(c.suite, run.spakeKey), Responder), 0),
                                     Half(ReceiveKey(SessionKeyOf(c.suite, run.spakeKey), Responder), 0))
    && b.host.attemptsLeft == attempts
    && (x, ConfirmHost) in b.host.slots && b.host.slots[(x, ConfirmHost)] == ConfirmMac(c.suite, run.spakeKey, Responder, run.transcript)
    && Untouched(b.host, x, {Request, Accept})
    && x in b.host.runs && b.host.runs[x] == run
  }

  /** The first message is there and the host holds its answer. */
  ghost predicate Picked(c: Config, b: Both, b': Both, x: string, id: Bytes32, seedA: nat, run: HostRun) {
    && b'.joiner == AwaitsMsg2(x, id, seedA, run.transcript.msg1)
    && b'.host.phase == HoldsMsg2(x, PendingOf(c.suite, run.spakeKey, run.transcript), run)
    && b'.host.slots == b.host.slots[(x, Msg1) := run.transcript.msg1]
    && b'.host.served == b.host.served + [x] && b'.host.enrolled == b.host.enrolled && b'.host.attemptsLeft == b.host.attemptsLeft
  }

  lemma Picking(c: Config, b: Both, x: string, id: Bytes32, seedA: nat, seedB: nat) returns (b': Both)
    requires Agrees(c.suite) && c.decode(x) == Some(id)
    requires b.joiner.Idle? && b.host.phase.Polling? && b.host.attemptsLeft > 0 && x !in b.host.served && (x, Msg1) !in b.host.slots
    ensures c.suite.finishB(c.code, id, c.hostKey, seedB, c.suite.startA(c.code, id, c.hostKey, seedA)).Some?
    ensures b' == Move(c, TicketOf(c), Move(c, TicketOf(c), b, Start(x, id, seedA)), AtHost(Pick(x, seedB)))
    ensures Picked(c, b, b', x, id, seedA, SharedRun(c, id, seedA, seedB))
  {
    hide ConfirmMac;
    hide SessionKeyOf;
    var t := TicketOf(c);
    var msg1 := c.suite.startA(c.code, id, c.hostKey, seedA);
    assert c.suite.finishA(c.code, id, c.hostKey, seedA, c.suite.startB(c.code, id, c.hostKey, seedB)) == c.suite.finishB(c.code, id, c.hostKey, seedB, msg1);
    hide Agrees;
    var b1 := Move(c, t, b, Start(x, id, seedA));
    assert b1.host.slots == b.host.slots[(x, Msg1) := msg1] && b1.host.phase.Polling?;
    b' := Move(c, t, b1, AtHost(Pick(x, seedB)));
  }

  lemma Opening(c: Config, b: Both, x: string, id: Bytes32, seedA: nat, seedB: nat) returns (b': Both)
    requires Agrees(c.suite) && c.decode(x) == Some(id)
    requires b.joiner.Idle? && b.host.phase.Polling? && b.host.attemptsLeft > 0 && x !in b.host.served
    requires Untouched(b.host, x, {Msg1, Msg2, ConfirmJoiner, ConfirmHost, Request, Accept})
    ensures c.suite.finishB(c.code, id, c.hostKey, seedB, c.suite.startA(c.code, id, c.hostKey, seedA)).Some?
    ensures b' == Move(c, TicketOf(c), Move(c, TicketOf(c), Move(c, TicketOf(c), b, Start(x, id, seedA)), AtHost(Pick(x, seedB))), AtHost(PutMsg2))
    ensures Answered(c, b', x, id, seedA, SharedRun(c, id, seedA, seedB), b.host.attemptsLeft)
    ensures b'.host.served == b.host.served + [x] && b'.host.enrolled == b.host.enrolled && OnlyTouches(b.host, b'.host, x)
  {
    hide PendingOf;
    hide Agrees;
    var b2 := Picking(c, b, x, id, seedA, seedB);
    hide SharedRun;
    b' := Move(c, TicketOf(c), b2, AtHost(PutMsg2));
  }

  lemma Proving(c: Config, b: Both, x: string, id: Bytes32, seedA: nat, seedB: nat, attempts: nat) returns (b': Both)
    requires Agrees(c.suite)
    requires c.suite.finishB(c.code, id, c.hostKey, seedB, c.suite.startA(c.code, id, c.hostKey, seedA)).Some?
    requires Answered(c, b, x, id, seedA, SharedRun(c, id, seedA, seedB), attempts)
    ensures b' == Move(c, TicketOf(c), Move(c, TicketOf(c), Move(c, TicketOf(c), b, Reply), AtHost(ReadConfirm)), AtHost(PutConfirm))
    ensures Proved(c, b', x, SharedRun(c, id, seedA, seedB), attempts)
    ensures b'.host.served == b.host.served && b'.host.enrolled == b.host.enrolled && OnlyTouches(b.host, b'.host, x)
  {
    hide ConfirmMac;
    hide SessionKeyOf;
    var t, run := TicketOf(c), SharedRun(c, id, seedA, seedB);
    assert c.suite.finishA(c.code, id, c.hostKey, seedA, run.transcript.msg2) == Some(run.spakeKey);
    var b1 := Move(c, t, b, Reply);
    assert b1.joiner == AwaitsHost(x, run);
    assert b1.host.slots == b.host.slots[(x, ConfirmJoiner) := ConfirmMac(c.suite, run.spakeKey, Initiator, run.transcript)];
    var b2 := Move(c, t, b1, AtHost(ReadConfirm));
    assert b2.host.phase == HoldsConfirm(x, SessionKeyOf(c.suite, run.spakeKey), ConfirmMac(c.suite, run.spakeKey, Responder, run.transcript));
    b' := Move(c, t, b2, AtHost(PutConfirm));
  }

  lemma Requesting(c: Config, b: Both, x: string, run: HostRun, attempts: nat, request: Bytes, device: Device, accept: Bytes) returns (b': Both)
    requires Ideal(c.suite.aead) && Proved(c, b, x, run, attempts) && c.parse(request) == Some(device)
    ensures b' == Move(c, TicketOf(c), Move(c, TicketOf(c), b, Check(request)), AtHost(ReadRequest(Prepared(accept))))
    ensures Offered(c, b', x, run, attempts, request, device, accept)
    ensures b'.host.served == b.host.served && OnlyTouches(b.host, b'.host, x)
    ensures b'.host.enrolled == b.host.enrolled + [Enrolment(x, device, Some(accept))]
  {
    hide ConfirmMac;
    hide SessionKeyOf;
    hide NonceFor;
    var t, k, a := TicketOf(c), SessionKeyOf(c.suite, run.spakeKey), c.suite.aead;
    var frame := a.seal(k.initiatorToResponder, NonceFor(0), request);
    assert a.open(k.initiatorToResponder, NonceFor(0), frame) == Some(request);
    hide Ideal;
    var b1 := Move(c, t, b, Check(request));
    assert b1.joiner == AwaitsAccept(x, run, request, Half(k.responderToInitiator, 0));
    assert b1.host.slots == b.host.slots[(x, Request) := frame] && b1.host.phase == b.host.phase;
    b' := Move(c, t, b1, AtHost(ReadRequest(Prepared(accept))));
    assert NamedDevice(c, b1.host) == Some(device);
    assert b'.host == Offer(c, b1.host, device, Prepared(accept));
    assert b'.host.slots == b1.host.slots;
  }

  /** The device is enrolled and the host is about to write the accept. */
  ghost predicate Offered(c: Config, b: Both, x: string, run: HostRun, attempts: nat, request: Bytes, device: Device, accept: Bytes) {
    var key := SessionKeyOf(c.suite, run.spakeKey).responderToInitiator;
    && b.joiner == AwaitsAccept(x, run, request, Half(key, 0))
    && b.host.phase == HoldsAccept(x, c.suite.aead.seal(key, NonceFor(0), accept), device.peer)
    && b.host.attemptsLeft == attempts && Untouched(b.host, x, {Accept})
  }

  lemma Accepting(c: Config, b: Both, x: string, run: HostRun, attempts: nat, request: Bytes, device: Device, accept: Bytes) returns (b': Both)
    requires Ideal(c.suite.aead) && Offered(c, b, x, run, attempts, request, device, accept)
    ensures b' == Move(c, TicketOf(c), Move(c, TicketOf(c), b, AtHost(PutAccept)), Finish)
    ensures b'.host.phase == Joined(x, device.peer) && b'.joiner == Admitted(x, run, request, accept) && b'.host.attemptsLeft == attempts
  {
    hide SessionKeyOf;
    hide NonceFor;
    var t := TicketOf(c);
    var key := SessionKeyOf(c.suite, run.spakeKey).responderToInitiator;
    assert c.suite.aead.open(key, NonceFor(0), c.suite.aead.seal(key, NonceFor(0), accept)) == Some(accept);
    hide Ideal;
    var b1 := Move(c, t, b, AtHost(PutAccept));
    assert b1.host.phase == Joined(x, device.peer) && b1.joiner == b.joiner;
    b' := Move(c, t, b1, Finish);
  }

  /** The steps of a pairing nobody interferes with. */
  function Schedule(x: string, id: Bytes32, seedA: nat, seedB: nat, request: Bytes, accept: Bytes): seq<JointEvent> {
    [Start(x, id, seedA), AtHost(Pick(x, seedB)), AtHost(PutMsg2),
     Reply, AtHost(ReadConfirm), AtHost(PutConfirm),
     Check(request), AtHost(ReadRequest(Prepared(accept))), AtHost(PutAccept), Finish]
  }

  lemma MovesAppend(c: Config, t: Ticket, b: Both, p: seq<JointEvent>, e: JointEvent)
    ensures Moves(c, t, b, p + [e]) == Move(c, t, Moves(c, t, b, p), e)
  {
    assert (p + [e])[..|p|] == p;
  }

  lemma {:induction false} MovesSplit(c: Config, t: Ticket, b: Both, p: seq<JointEvent>, q: seq<JointEvent>)
    ensures Moves(c, t, b, p + q) == Moves(c, t, Moves(c, t, b, p), q)
  {
    if q == [] {
      assert p + q == p;
    } else {
      hide Move;
      assert p + q == (p + q[..|q| - 1]) + [q[|q| - 1]];
      MovesAppend(c, t, b, p + q[..|q| - 1], q[|q| - 1]);
      MovesSplit(c, t, b, p, q[..|q| - 1]);
    }
  }

  lemma MovesThree(c: Config, t: Ticket, b: Both, e1: JointEvent, e2: JointEvent, e3: JointEvent)
    ensures Moves(c, t, b, [e1, e2, e3]) == Move(c, t, Move(c, t, Move(c, t, b, e1), e2), e3)
  {
    hide Move;
    assert [e1, e2, e3] == [] + [e1] + [e2] + [e3];
    MovesAppend(c, t, b, [], e1);
    MovesAppend(c, t, b, [] + [e1], e2);
    MovesAppend(c, t, b, [] + [e1] + [e2], e3);
  }

  /** With the right code and the right invite the host joins the device, the
      joiner holds the payload, and no attempt is spent. */
  lemma HonestPairingCompletes(c: Config, b: Both, x: string, id: Bytes32, seedA: nat, seedB: nat, request: Bytes, device: Device, accept: Bytes)
    requires Agrees(c.suite) && Ideal(c.suite.aead) && c.decode(x) == Some(id) && c.parse(request) == Some(device)
    requires b.joiner.Idle? && b.host.phase.Polling? && b.host.attemptsLeft > 0 && x !in b.host.served
    requires Untouched(b.host, x, {Msg1, Msg2, ConfirmJoiner, ConfirmHost, Request, Accept})
    ensures var b' := Moves(c, TicketOf(c), b, Schedule(x, id, seedA, seedB, request, accept));
            && b'.host.phase == Joined(x, device.peer) && b'.joiner.Admitted? && b'.joiner.session == x && b'.joiner.accept == accept
            && b'.host.attemptsLeft == b.host.attemptsLeft
  {
    hide Move;
    hide Answered;
    hide Proved;
    hide Offered;
    var t, es := TicketOf(c), Schedule(x, id, seedA, seedB, request, accept);
    var b3 := Opening(c, b, x, id, seedA, seedB);
    var b6 := Proving(c, b3, x, id, seedA, seedB, b.host.attemptsLeft);
    var b8 := Requesting(c, b6, x, SharedRun(c, id, seedA, seedB), b.host.attemptsLeft, request, device, accept);
    var b10 := Accepting(c, b8, x, SharedRun(c, id, seedA, seedB), b.host.attemptsLeft, request, device, accept);
    ScheduleMoves(c, t, b, es);
  }

  /** It does so after any run, as long as no more than two wrong guesses were read. */
  lemma TwoWrongGuessesAreForgiven(c: Config, t: Ticket, events: seq<JointEvent>, x: string, id: Bytes32, seedA: nat, seedB: nat,
                                   request: Bytes, device: Device, accept: Bytes)
    requires Agrees(c.suite) && Ideal(c.suite.aead) && c.decode(x) == Some(id) && c.parse(request) == Some(device)
    requires var b := Moves(c, t, BEGUN, events);
             && b.joiner.Idle? && b.host.phase.Polling? && |Wrong(c, b.host)| <= 2 && x !in b.host.served
             && Untouched(b.host, x, {Msg1, Msg2, ConfirmJoiner, ConfirmHost, Request, Accept})
    ensures var b := Moves(c, t, BEGUN, events);
            var b' := Moves(c, TicketOf(c), b, Schedule(x, id, seedA, seedB, request, accept));
            && b'.host.phase == Joined(x, device.peer) && b'.joiner.Admitted? && b'.joiner.accept == accept
            && b'.host.attemptsLeft == 3 - |Wrong(c, b.host)|
  {
    hide Moves, Schedule, Wrong;
    EveryPairingKeeps(c, t, events);
    HonestPairingCompletes(c, Moves(c, t, BEGUN, events), x, id, seedA, seedB, request, device, accept);
  }

  /** So the agreement results speak of runs that happen: a fresh host and a joiner
      reach a state with both confirmations and the accept written by the host. */
  lemma AgreementIsReached(c: Config, x: string, id: Bytes32, seedA: nat, seedB: nat, request: Bytes, device: Device, accept: Bytes)
    requires Agrees(c.suite) && Ideal(c.suite.aead) && c.decode(x) == Some(id) && c.parse(request) == Some(device)
    ensures var b := Moves(c, TicketOf(c), BEGUN, Schedule(x, id, seedA, seedB, request, accept));
            && b.joiner.Admitted? && b.joiner.session == x && IsProved(c, b.host, x)
            && (x, ConfirmHost) in b.host.wrote && (x, Accept) in b.host.wrote
  {
    hide Moves;
    hide Schedule;
    HonestPairingCompletes(c, BEGUN, x, id, seedA, seedB, request, device, accept);
    EveryPairingKeeps(c, TicketOf(c), Schedule(x, id, seedA, seedB, request, accept));
    var b := Moves(c, TicketOf(c), BEGUN, Schedule(x, id, seedA, seedB, request, accept));
    assert AcceptOk(c, b.host, x);
  }

  lemma ScheduleMoves(c: Config, t: Ticket, b: Both, es: seq<JointEvent>)
    requires |es| == 10
    ensures var b3 := Move(c, t, Move(c, t, Move(c, t, b, es[0]), es[1]), es[2]);
            var b6 := Move(c, t, Move(c, t, Move(c, t, b3, es[3]), es[4]), es[5]);
            Moves(c, t, b, es) == Move(c, t, Move(c, t, Move(c, t, Move(c, t, b6, es[6]), es[7]), es[8]), es[9])
  {
    hide Move;
    hide Moves;
    assert es == [es[0], es[1], es[2]] + [es[3], es[4], es[5]] + [es[6], es[7], es[8]] + [es[9]];
    MovesAppend(c, t, b, [es[0], es[1], es[2]] + [es[3], es[4], es[5]] + [es[6], es[7], es[8]], es[9]);
    MovesSplit(c, t, b, [es[0], es[1], es[2]] + [es[3], es[4], es[5]], [es[6], es[7], es[8]]);
    MovesSplit(c, t, b, [es[0], es[1], es[2]], [es[3], es[4], es[5]]);
    MovesThree(c, t, b, es[0], es[1], es[2]);
    MovesThree(c, t, Moves(c, t, b, [es[0], es[1], es[2]]), es[3], es[4], es[5]);
    MovesThree(c, t, Moves(c, t, Moves(c, t, b, [es[0], es[1], es[2]]), [es[3], es[4], es[5]]), es[6], es[7], es[8]);
  }
}
