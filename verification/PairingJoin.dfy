/** A joiner beside the host, both against an adversary that writes any slot, and
    what the two agree on. */
module PairingJoin {
  import opened Prelude
  import opened Sealing
  import opened Channel
  import opened Pake
  import opened Mailbox
  import opened PairingHost
  import opened PairingLaws

  /** What the joiner typed and what its invite says; the invite may be wrong. */
  datatype Ticket = Ticket(code: Bytes, hostKey: Bytes32)

  /** Where the joiner stands. Slots are never rewritten, so reading one and
      writing the answer is a single step. */
  datatype Joiner =
    | Idle
    | AwaitsMsg2(session: string, id: Bytes32, seed: nat, msg1: Bytes)
    | AwaitsHost(session: string, run: HostRun)
    | AwaitsAccept(session: string, run: HostRun, request: Bytes, opener: Half)
    | Admitted(session: string, run: HostRun, request: Bytes, accept: Bytes)
    | Bailed

  datatype Both = Both(host: System, joiner: Joiner)

  datatype JointEvent =
    | AtHost(event: Event)
    | Start(session: string, id: Bytes32, seed: nat)
    | Reply
    | Check(request: Bytes)
    | Finish

  /** The joiner's write: to the host it is like any other. */
  function Post(c: Config, b: Both, session: string, slot: Slot, body: Bytes, next: Joiner): Both {
    if (session, slot) in b.host.slots then b.(joiner := Bailed)
    else Both(Step(c, b.host, Foreign(session, slot, body)), next)
  }

  function DoStart(c: Config, t: Ticket, b: Both, session: string, id: Bytes32, seed: nat): Both {
    var msg1 := c.suite.startA(t.code, id, t.hostKey, seed);
    Post(c, b, session, Msg1, msg1, AwaitsMsg2(session, id, seed, msg1))
  }

  function DoReply(c: Config, t: Ticket, b: Both): Both
    requires b.joiner.AwaitsMsg2? && (b.joiner.session, Msg2) in b.host.slots
  {
    var j, msg2 := b.joiner, b.host.slots[(b.joiner.session, Msg2)];
    match c.suite.finishA(t.code, j.id, t.hostKey, j.seed, msg2)
    case None => b.(joiner := Bailed)
    case Some(key) =>
      var run := HostRun(key, Transcript(j.id, t.hostKey, j.msg1, msg2));
      Post(c, b, j.session, ConfirmJoiner, ConfirmMac(c.suite, key, Initiator, run.transcript), AwaitsHost(j.session, run))
  }

  function DoCheck(c: Config, b: Both, request: Bytes): Both
    requires b.joiner.AwaitsHost? && (b.joiner.session, ConfirmHost) in b.host.slots
  {
    var j, theirs := b.joiner, b.host.slots[(b.joiner.session, ConfirmHost)];
    if theirs != ConfirmMac(c.suite, j.run.spakeKey, Responder, j.run.transcript) then b.(joiner := Bailed)
    else
      var k := SessionKeyOf(c.suite, j.run.spakeKey);
      match SealNext(c.suite.aead, Half(SendKey(k, Initiator), 0), request)
      case None => b.(joiner := Bailed)
      case Some(frame) => Post(c, b, j.session, Request, frame, AwaitsAccept(j.session, j.run, request, Half(ReceiveKey(k, Initiator), 0)))
  }

  function DoFinish(c: Config, b: Both): Both
    requires b.joiner.AwaitsAccept? && (b.joiner.session, Accept) in b.host.slots
  {
    var j := b.joiner;
    match OpenNext(c.suite.aead, j.opener, b.host.slots[(j.session, Accept)])
    case Yielded(accept) => b.(joiner := Admitted(j.session, j.run, j.request, accept))
    case _ => b.(joiner := Bailed)
  }

  /** A joiner mints the name of its session from 32 bytes of its own. */
  predicate Possible(c: Config, b: Both, e: JointEvent) {
    match e
    case AtHost(_) => true
    case Start(session, id, _) => b.joiner.Idle? && c.decode(session) == Some(id)
    case Reply => b.joiner.AwaitsMsg2? && (b.joiner.session, Msg2) in b.host.slots
    case Check(_) => b.joiner.AwaitsHost? && (b.joiner.session, ConfirmHost) in b.host.slots
    case Finish => b.joiner.AwaitsAccept? && (b.joiner.session, Accept) in b.host.slots
  }

  function Move(c: Config, t: Ticket, b: Both, e: JointEvent): Both {
    if !Possible(c, b, e) then b
    else
      match e
      case AtHost(event) => b.(host := Step(c, b.host, event))
      case Start(session, id, seed) => DoStart(c, t, b, session, id, seed)
      case Reply => DoReply(c, t, b)
      case Check(request) => DoCheck(c, b, request)
      case Finish => DoFinish(c, b)
  }

  function Moves(c: Config, t: Ticket, b: Both, events: seq<JointEvent>): Both {
    if events == [] then b else Move(c, t, Moves(c, t, b, events[..|events| - 1]), events[|events| - 1])
  }

  const BEGUN := Both(ARMED, Idle)

  // ---------------------------------------------------------------- the invariant

  /** The joiner's record of its run is what stands in the slots. */
  ghost predicate RunStands(c: Config, t: Ticket, s: System, x: string, run: HostRun) {
    && c.decode(x) == Some(run.transcript.initiatorId) && run.transcript.responderId == t.hostKey
    && (x, Msg1) in s.slots && s.slots[(x, Msg1)] == run.transcript.msg1
    && (x, Msg2) in s.slots && s.slots[(x, Msg2)] == run.transcript.msg2
    && (x, ConfirmJoiner) in s.slots && s.slots[(x, ConfirmJoiner)] == ConfirmMac(c.suite, run.spakeKey, Initiator, run.transcript)
  }

  ghost predicate HostChecked(c: Config, s: System, x: string, run: HostRun) {
    (x, ConfirmHost) in s.slots && s.slots[(x, ConfirmHost)] == ConfirmMac(c.suite, run.spakeKey, Responder, run.transcript)
  }

  /** The request in the slot is the joiner's own. */
  ghost predicate RequestStands(c: Config, s: System, x: string, run: HostRun, request: Bytes) {
    && (x, Request) in s.slots
    && s.slots[(x, Request)] == c.suite.aead.seal(SendKey(SessionKeyOf(c.suite, run.spakeKey), Initiator), NonceFor(0), request)
  }

  ghost predicate JoinerOk(c: Config, t: Ticket, s: System, j: Joiner) {
    match j
    case AwaitsMsg2(x, id, _, msg1) => c.decode(x) == Some(id) && (x, Msg1) in s.slots && s.slots[(x, Msg1)] == msg1
    case AwaitsHost(x, run) => RunStands(c, t, s, x, run)
    case AwaitsAccept(x, run, request, opener) =>
      && RunStands(c, t, s, x, run) && HostChecked(c, s, x, run) && RequestStands(c, s, x, run, request)
      && opener == Half(ReceiveKey(SessionKeyOf(c.suite, run.spakeKey), Initiator), 0)
    case Admitted(x, run, request, accept) =>
      && RunStands(c, t, s, x, run) && HostChecked(c, s, x, run) && RequestStands(c, s, x, run, request) && (x, Accept) in s.slots
      && c.suite.aead.open(ReceiveKey(SessionKeyOf(c.suite, run.spakeKey), Initiator), NonceFor(0), s.slots[(x, Accept)]) == Some(accept)
    case _ => true
  }

  lemma JoinerStays(c: Config, t: Ticket, s: System, s': System, j: Joiner)
    requires JoinerOk(c, t, s, j) && Extends(s'.slots, s.slots)
    ensures JoinerOk(c, t, s', j)
  {
    hide ConfirmMac;
    hide SessionKeyOf;
    hide NonceFor;
  }

  lemma MoveKeeps(c: Config, t: Ticket, b: Both, e: JointEvent)
    requires Inv(c, b.host) && JoinerOk(c, t, b.host, b.joiner)
    ensures Inv(c, Move(c, t, b, e).host) && JoinerOk(c, t, Move(c, t, b, e).host, Move(c, t, b, e).joiner)
  {
    hide Inv;
    if Possible(c, b, e) {
      match e {
        case AtHost(event) => HostMoves(c, t, b, event);
        case Start(session, id, seed) =>
          StepKeeps(c, b.host, Foreign(session, Msg1, c.suite.startA(t.code, id, t.hostKey, seed)));
        case Reply => ReplyKeeps(c, t, b);
        case Check(request) => CheckKeeps(c, t, b, request);
        case Finish => FinishKeeps(c, t, b);
      }
    }
  }

  lemma HostMoves(c: Config, t: Ticket, b: Both, event: Event)
    requires Inv(c, b.host) && JoinerOk(c, t, b.host, b.joiner)
    ensures Inv(c, Step(c, b.host, event)) && JoinerOk(c, t, Step(c, b.host, event), b.joiner)
  {
    hide Inv;
    hide JoinerOk;
    hide Step;
    StepKeeps(c, b.host, event);
    StepGrows(c, b.host, event);
    JoinerStays(c, t, b.host, Step(c, b.host, event), b.joiner);
  }

  lemma ReplyKeeps(c: Config, t: Ticket, b: Both)
    requires Inv(c, b.host) && JoinerOk(c, t, b.host, b.joiner) && Possible(c, b, Reply)
    ensures Inv(c, DoReply(c, t, b).host) && JoinerOk(c, t, DoReply(c, t, b).host, DoReply(c, t, b).joiner)
  {
    hide Inv;
    hide ConfirmMac;
    var j, msg2 := b.joiner, b.host.slots[(b.joiner.session, Msg2)];
    var key := c.suite.finishA(t.code, j.id, t.hostKey, j.seed, msg2);
    if key.Some? {
      StepKeeps(c, b.host, Foreign(j.session, ConfirmJoiner, ConfirmMac(c.suite, key.value, Initiator, Transcript(j.id, t.hostKey, j.msg1, msg2))));
    }
  }

  lemma CheckKeeps(c: Config, t: Ticket, b: Both, request: Bytes)
    requires Inv(c, b.host) && JoinerOk(c, t, b.host, b.joiner) && Possible(c, b, Check(request))
    ensures Inv(c, DoCheck(c, b, request).host) && JoinerOk(c, t, DoCheck(c, b, request).host, DoCheck(c, b, request).joiner)
  {
    hide Inv;
    hide ConfirmMac;
    hide NonceFor;
    hide SessionKeyOf;
    var j := b.joiner;
    var frame := SealNext(c.suite.aead, Half(SendKey(SessionKeyOf(c.suite, j.run.spakeKey), Initiator), 0), request);
    if frame.Some? {
      StepKeeps(c, b.host, Foreign(j.session, Request, frame.value));
    }
  }

  lemma FinishKeeps(c: Config, t: Ticket, b: Both)
    requires JoinerOk(c, t, b.host, b.joiner) && Possible(c, b, Finish)
    ensures DoFinish(c, b).host == b.host && JoinerOk(c, t, b.host, DoFinish(c, b).joiner)
  {
    hide ConfirmMac;
    hide NonceFor;
    hide SessionKeyOf;
  }

  lemma {:induction false} EveryPairingKeeps(c: Config, t: Ticket, events: seq<JointEvent>)
    ensures var b := Moves(c, t, BEGUN, events); Inv(c, b.host) && JoinerOk(c, t, b.host, b.joiner)
  {
    if events == [] {
      EveryRunKeeps(c, []);
    } else {
      hide Inv;
      hide JoinerOk;
      hide Move;
      EveryPairingKeeps(c, t, events[..|events| - 1]);
      MoveKeeps(c, t, Moves(c, t, BEGUN, events[..|events| - 1]), events[|events| - 1]);
    }
  }

  // ---------------------------------------------------------------- agreement

  predicate Sized(run: HostRun) { |run.transcript.msg1| < TWO_TO_THE_64 }

  /** The two sides hold one run: one key, one session, one pair of messages. If
      not, their two confirmations for `role` collide. */
  ghost predicate OneRun(c: Config, role: Side, theirs: HostRun, mine: HostRun) {
    theirs == mine || Collides(c.suite, theirs.spakeKey, role, theirs.transcript, mine.spakeKey, role, mine.transcript)
  }

  lemma ConfirmationsAgree(c: Config, t: Ticket, s: System, x: string, role: Side, mine: HostRun)
    requires RunsOk(c, s) && x in s.runs && RunStands(c, t, s, x, mine) && Sized(mine)
    requires ConfirmMac(c.suite, s.runs[x].spakeKey, role, s.runs[x].transcript) == ConfirmMac(c.suite, mine.spakeKey, role, mine.transcript)
    ensures OneRun(c, role, s.runs[x], mine) && (s.runs[x] == mine ==> t.hostKey == c.hostKey)
  {
    hide ConfirmMac;
    hide Collides;
    var theirs := s.runs[x];
    assert RunOk(c, s, x);
    assert theirs.transcript.msg1 == mine.transcript.msg1;
    ConfirmBinds(c.suite, theirs.spakeKey, role, theirs.transcript, mine.spakeKey, role, mine.transcript);
  }

  /** When the confirmation the joiner checked is the host's, both ran one
      handshake, and the invite named the real host. */
  lemma JoinerAgreesWithHost(c: Config, t: Ticket, events: seq<JointEvent>)
    requires var b := Moves(c, t, BEGUN, events);
             && (b.joiner.AwaitsAccept? || b.joiner.Admitted?) && (b.joiner.session, ConfirmHost) in b.host.wrote
             && Sized(b.joiner.run)
    ensures var b := Moves(c, t, BEGUN, events);
            && b.joiner.session in b.host.runs && OneRun(c, Responder, b.host.runs[b.joiner.session], b.joiner.run)
            && (b.host.runs[b.joiner.session] == b.joiner.run ==> t.hostKey == c.hostKey)
  {
    hide Moves;
    hide ConfirmMac;
    hide NonceFor;
    hide SessionKeyOf;
    hide Collides;
    EveryPairingKeeps(c, t, events);
    var b := Moves(c, t, BEGUN, events);
    assert Confirmed(c, b.host, b.joiner.session);
    ConfirmationsAgree(c, t, b.host, b.joiner.session, Responder, b.joiner.run);
  }

  /** When the host takes a joiner's confirmation, the same. */
  lemma HostAgreesWithJoiner(c: Config, t: Ticket, events: seq<JointEvent>)
    requires var b := Moves(c, t, BEGUN, events);
             && (b.joiner.AwaitsHost? || b.joiner.AwaitsAccept? || b.joiner.Admitted?) && IsProved(c, b.host, b.joiner.session)
             && Sized(b.joiner.run)
    ensures var b := Moves(c, t, BEGUN, events);
            && OneRun(c, Initiator, b.host.runs[b.joiner.session], b.joiner.run)
            && (b.host.runs[b.joiner.session] == b.joiner.run ==> t.hostKey == c.hostKey)
  {
    hide Moves;
    hide ConfirmMac;
    hide NonceFor;
    hide SessionKeyOf;
    hide Collides;
    EveryPairingKeeps(c, t, events);
    var b := Moves(c, t, BEGUN, events);
    ConfirmationsAgree(c, t, b.host, b.joiner.session, Initiator, b.joiner.run);
  }

  /** A joiner that is admitted by the host's own accept holds exactly the payload
      the host prepared for the device the joiner itself named. */
  lemma AdmittedWithTheAccept(c: Config, t: Ticket, events: seq<JointEvent>)
    requires var b := Moves(c, t, BEGUN, events);
             && b.joiner.Admitted? && (b.joiner.session, Accept) in b.host.wrote
             && Sized(b.joiner.run) && Ideal(c.suite.aead)
    ensures var b := Moves(c, t, BEGUN, events);
            && b.host.phase.Joined? && b.host.phase.session == b.joiner.session && b.joiner.session in b.host.runs
            && OneRun(c, Responder, b.host.runs[b.joiner.session], b.joiner.run)
            && (b.host.runs[b.joiner.session] == b.joiner.run ==>
                  var device := c.parse(b.joiner.request);
                  && device.Some? && device.value.peer == b.host.phase.peer
                  && Enrolment(b.joiner.session, device.value, Some(b.joiner.accept)) in b.host.enrolled)
  {
    hide Moves;
    hide ConfirmMac;
    hide NonceFor;
    hide Collides;
    EveryPairingKeeps(c, t, events);
    JoinerAgreesWithHost(c, t, events);
    var b := Moves(c, t, BEGUN, events);
    var x := b.joiner.session;
    assert AcceptOk(c, b.host, x);
    if b.host.runs[x] == b.joiner.run {
      AcceptMatches(c, t, b, x);
    }
  }

  lemma AcceptMatches(c: Config, t: Ticket, b: Both, x: string)
    requires Ideal(c.suite.aead) && WritesOk(c, b.host) && b.joiner.Admitted? && b.joiner.session == x && JoinerOk(c, t, b.host, b.joiner)
    requires AcceptOk(c, b.host, x) && b.host.runs[x] == b.joiner.run
    ensures var device := c.parse(b.joiner.request);
            && device.Some? && device.value.peer == b.host.phase.peer
            && Enrolment(x, device.value, Some(b.joiner.accept)) in b.host.enrolled
  {
    hide ConfirmMac;
    hide NonceFor;
    var a, k := c.suite.aead, SessionKeyOf(c.suite, b.joiner.run.spakeKey);
    assert Answer(c, b.host.runs[x]).key == k;
    var body := b.host.slots[(x, Accept)];
    var e :| e in b.host.enrolled && e.session == x && e.device.peer == b.host.phase.peer && IsSealed(c, b.host, x, e, body);
    assert a.open(k.responderToInitiator, NonceFor(0), body) == e.accept;
    assert a.open(k.initiatorToResponder, NonceFor(0), b.host.slots[(x, Request)]) == Some(b.joiner.request);
    assert IsNamed(c, b.host, e);
    assert e == Enrolment(x, e.device, Some(b.joiner.accept));
  }
}
