/** How many devices one code enrols. */
module PairingRepeats {
  import opened Prelude
  import opened Sealing
  import opened Channel
  import opened Pake
  import opened Mailbox
  import opened PairingHost
  import opened PairingLaws
  import opened PairingJoin
  import opened PairingCompletes

  // ---------------------------------------------------------------- the exact count

  /** A step that leaves a device enrolled with no accept to come: the host lets go
      of one it was about to write, or none could be built. */
  predicate Forsakes(c: Config, s: System, e: Event) {
    || (s.phase.HoldsAccept? && Step(c, s, e).phase.Polling?)
    || (e == ReadRequest(Unprepared) && Enabled(s, e) && NamedDevice(c, s).Some?)
  }

  function Forsaken(c: Config, events: seq<Event>): nat {
    if events == [] then 0
    else
      var init, e := events[..|events| - 1], events[|events| - 1];
      Forsaken(c, init) + if Forsakes(c, After(c, init), e) then 1 else 0
  }

  predicate Offering(s: System) { s.phase.HoldsAccept? || s.phase.Joined? }

  /** In every run the enrolments are the devices left without an accept, and the one
      whose accept the host holds or has written. */
  lemma {:induction false} EnrolmentsAreCounted(c: Config, events: seq<Event>)
    ensures |After(c, events).enrolled| == Forsaken(c, events) + if Offering(After(c, events)) then 1 else 0
  {
    if events != [] {
      var init := events[..|events| - 1];
      EnrolmentsAreCounted(c, init);
      EveryRunKeeps(c, init);
      StepCounts(c, After(c, init), events[|events| - 1]);
    }
  }

  /** So a code enrols at most one device exactly when nothing is forsaken, or one
      device is and no accept is offered after it. */
  lemma OneEnrolmentIff(c: Config, events: seq<Event>)
    ensures |After(c, events).enrolled| <= 1 <==>
              Forsaken(c, events) == 0 || (Forsaken(c, events) == 1 && !Offering(After(c, events)))
  {
    EnrolmentsAreCounted(c, events);
  }

  lemma StepCounts(c: Config, s: System, e: Event)
    requires Inv(c, s)
    ensures var s' := Step(c, s, e);
            |s'.enrolled| + (if Offering(s) then 1 else 0) == |s.enrolled| + (if Offering(s') then 1 else 0) + if Forsakes(c, s, e) then 1 else 0
  {
    hide RunsOk, WritesOk, BudgetOk, NamedDevice, PendingOf, Confirmed, IsProved, IsAccept;
  }

  // ---------------------------------------------------------------- any number

  function Steps(c: Config, s: System, events: seq<Event>): System {
    if events == [] then s else Step(c, Steps(c, s, events[..|events| - 1]), events[|events| - 1])
  }

  lemma {:induction false} StepsJoin(c: Config, s: System, p: seq<Event>, q: seq<Event>)
    ensures Steps(c, s, p + q) == Steps(c, Steps(c, s, p), q)
  {
    if q == [] {
      assert p + q == p;
    } else {
      hide Step;
      assert (p + q)[..|p + q| - 1] == p + q[..|q| - 1];
      StepsJoin(c, s, p, q[..|q| - 1]);
    }
  }

  lemma {:induction false} AfterSteps(c: Config, p: seq<Event>, q: seq<Event>)
    ensures After(c, p + q) == Steps(c, After(c, p), q)
  {
    if q == [] {
      assert p + q == p;
    } else {
      hide Step;
      assert (p + q)[..|p + q| - 1] == p + q[..|q| - 1];
      AfterSteps(c, p, q[..|q| - 1]);
    }
  }

  lemma OneStep(c: Config, s: System, e: Event)
    ensures Steps(c, s, [e]) == Step(c, s, e)
  {
    hide Step;
    assert [e][..0] == [];
    assert Steps(c, s, []) == s;
  }

  /** To the host a joiner's write is foreign. */
  lemma PostTrace(c: Config, b: Both, session: string, slot: Slot, body: Bytes, next: Joiner) returns (events: seq<Event>)
    ensures Steps(c, b.host, events) == Post(c, b, session, slot, body, next).host
  {
    if (session, slot) in b.host.slots {
      events := [];
    } else {
      hide Step;
      events := [Foreign(session, slot, body)];
      OneStep(c, b.host, Foreign(session, slot, body));
    }
  }

  /** A joint move is a step of the host, a foreign write, or nothing to it. */
  lemma MoveTrace(c: Config, t: Ticket, b: Both, e: JointEvent) returns (events: seq<Event>)
    ensures Steps(c, b.host, events) == Move(c, t, b, e).host
  {
    hide Step, Post;
    events := [];
    assert Steps(c, b.host, []) == b.host;
    hide Steps;
    if Possible(c, b, e) {
      match e {
        case AtHost(event) =>
          events := [event];
          OneStep(c, b.host, event);
        case Start(session, id, seed) =>
          var msg1 := c.suite.startA(t.code, id, t.hostKey, seed);
          events := PostTrace(c, b, session, Msg1, msg1, AwaitsMsg2(session, id, seed, msg1));
        case Reply => events := ReplyTrace(c, t, b);
        case Check(request) => events := CheckTrace(c, b, request);
        case Finish =>
      }
    }
  }

  lemma ReplyTrace(c: Config, t: Ticket, b: Both) returns (events: seq<Event>)
    requires Possible(c, b, Reply)
    ensures Steps(c, b.host, events) == DoReply(c, t, b).host
  {
    hide Step, Post, ConfirmMac;
    var j, msg2 := b.joiner, b.host.slots[(b.joiner.session, Msg2)];
    var key := c.suite.finishA(t.code, j.id, t.hostKey, j.seed, msg2);
    events := [];
    if key.Some? {
      var run := HostRun(key.value, Transcript(j.id, t.hostKey, j.msg1, msg2));
      events := PostTrace(c, b, j.session, ConfirmJoiner, ConfirmMac(c.suite, key.value, Initiator, run.transcript), AwaitsHost(j.session, run));
    }
  }

  lemma CheckTrace(c: Config, b: Both, request: Bytes) returns (events: seq<Event>)
    requires Possible(c, b, Check(request))
    ensures Steps(c, b.host, events) == DoCheck(c, b, request).host
  {
    hide Step, Post, ConfirmMac, SessionKeyOf, NonceFor;
    var j, k := b.joiner, SessionKeyOf(c.suite, b.joiner.run.spakeKey);
    var frame := SealNext(c.suite.aead, Half(SendKey(k, Initiator), 0), request);
    events := [];
    if b.host.slots[(j.session, ConfirmHost)] == ConfirmMac(c.suite, j.run.spakeKey, Responder, j.run.transcript) && frame.Some? {
      events := PostTrace(c, b, j.session, Request, frame.value, AwaitsAccept(j.session, j.run, request, Half(ReceiveKey(k, Initiator), 0)));
    }
  }

  lemma {:induction false} MovesTrace(c: Config, t: Ticket, b: Both, moves: seq<JointEvent>) returns (events: seq<Event>)
    ensures Steps(c, b.host, events) == Moves(c, t, b, moves).host
  {
    if moves == [] {
      events := [];
    } else {
      hide Move;
      hide Step;
      var p := MovesTrace(c, t, b, moves[..|moves| - 1]);
      var q := MoveTrace(c, t, Moves(c, t, b, moves[..|moves| - 1]), moves[|moves| - 1]);
      StepsJoin(c, b.host, p, q);
      events := p + q;
    }
  }

  /** A session the host can still serve. */
  ghost predicate Open(c: Config, s: System, x: string) {
    && c.decode(x).Some? && x !in s.served
    && Untouched(s, x, {Msg1, Msg2, ConfirmJoiner, ConfirmHost, Request, Accept})
  }

  /** One more device enrolled in session `x`, and the host polling as before. */
  ghost predicate EnrolledOneMore(s: System, s': System, x: string, device: Device, accept: Bytes) {
    && s'.phase == Polling && s'.attemptsLeft == s.attemptsLeft && s'.served == s.served + [x]
    && s'.enrolled == s.enrolled + [Enrolment(x, device, Some(accept))] && OnlyTouches(s, s', x)
  }

  /** A pairing that is undisturbed until somebody takes the accept slot. */
  lemma TakenAccept(c: Config, s: System, x: string, request: Bytes, device: Device, accept: Bytes) returns (events: seq<Event>)
    requires Agrees(c.suite) && Ideal(c.suite.aead) && c.parse(request) == Some(device)
    requires s.phase.Polling? && s.attemptsLeft > 0 && Open(c, s, x)
    ensures EnrolledOneMore(s, Steps(c, s, events), x, device, accept)
  {
    hide Move;
    hide Moves;
    hide Answered;
    hide Proved;
    hide Ideal;
    hide Agrees;
    var t, b, id := TicketOf(c), Both(s, Idle), c.decode(x).value;
    var b3 := Opening(c, b, x, id, 0, 0);
    var b6 := Proving(c, b3, x, id, 0, 0, s.attemptsLeft);
    var b8 := Requesting(c, b6, x, SharedRun(c, id, 0, 0), s.attemptsLeft, request, device, accept);
    var p := ThreeTrace(c, t, b, Start(x, id, 0), AtHost(Pick(x, 0)), AtHost(PutMsg2));
    var q := ThreeTrace(c, t, b3, Reply, AtHost(ReadConfirm), AtHost(PutConfirm));
    var r := TwoTrace(c, t, b6, Check(request), AtHost(ReadRequest(Prepared(accept))));
    StepsJoin(c, s, p, q);
    StepsJoin(c, s, p + q, r);
    var last := LetGo(c, b8, x, SharedRun(c, id, 0, 0), s.attemptsLeft, request, device, accept);
    StepsJoin(c, s, p + q + r, last);
    events := p + q + r + last;
  }

  lemma ThreeTrace(c: Config, t: Ticket, b: Both, e1: JointEvent, e2: JointEvent, e3: JointEvent) returns (events: seq<Event>)
    ensures Steps(c, b.host, events) == Move(c, t, Move(c, t, Move(c, t, b, e1), e2), e3).host
  {
    hide Move;
    events := MovesTrace(c, t, b, [e1, e2, e3]);
    MovesThree(c, t, b, e1, e2, e3);
  }

  lemma TwoTrace(c: Config, t: Ticket, b: Both, e1: JointEvent, e2: JointEvent) returns (events: seq<Event>)
    ensures Steps(c, b.host, events) == Move(c, t, Move(c, t, b, e1), e2).host
  {
    hide Move;
    events := MovesTrace(c, t, b, [e1, e2]);
    assert [e1, e2] == [] + [e1] + [e2];
    MovesAppend(c, t, b, [], e1);
    MovesAppend(c, t, b, [] + [e1], e2);
  }

  lemma LetGo(c: Config, b: Both, x: string, run: HostRun, attempts: nat, request: Bytes, device: Device, accept: Bytes) returns (events: seq<Event>)
    requires Offered(c, b, x, run, attempts, request, device, accept)
    ensures var s, s' := b.host, Steps(c, b.host, events);
            && s'.phase == Polling && s'.attemptsLeft == s.attemptsLeft && s'.served == s.served
            && s'.enrolled == s.enrolled && OnlyTouches(s, s', x)
  {
    hide SessionKeyOf;
    hide NonceFor;
    var s, taken := b.host, Foreign(x, Accept, []);
    OneStep(c, s, taken);
    OneStep(c, Step(c, s, taken), PutAccept);
    StepsJoin(c, s, [taken], [PutAccept]);
    events := [taken] + [PutAccept];
  }

  /** One code enrols as many devices as there are sessions to offer it in, each
      named by its own request, with no attempt spent, while every accept slot is
      taken by somebody else first. */
  lemma {:induction false} OneCodeEnrolsMany(c: Config, xs: seq<string>, requests: seq<Bytes>, accept: Bytes) returns (events: seq<Event>)
    requires Agrees(c.suite) && Ideal(c.suite.aead) && Distinct(xs) && |xs| == |requests|
    requires forall i :: 0 <= i < |xs| ==> c.decode(xs[i]).Some? && c.parse(requests[i]).Some?
    ensures var s := After(c, events);
            && s.phase == Polling && s.attemptsLeft == MAX_ATTEMPTS && s.served == xs && |s.enrolled| == |xs|
            && (forall i :: 0 <= i < |xs| ==> s.enrolled[i] == Enrolment(xs[i], c.parse(requests[i]).value, Some(accept)))
            && (forall k :: k in s.slots ==> k.0 in xs)
  {
    if xs == [] {
      events := [];
    } else {
      hide Agrees;
      hide Ideal;
      hide Steps;
      var n := |xs| - 1;
      var p := OneCodeEnrolsMany(c, xs[..n], requests[..n], accept);
      hide After;
      var s := After(c, p);
      assert Open(c, s, xs[n]);
      var q := TakenAccept(c, s, xs[n], requests[n], c.parse(requests[n]).value, accept);
      AfterSteps(c, p, q);
      events := p + q;
      assert xs == xs[..n] + [xs[n]];
      var s' := After(c, events);
      forall k | k in s'.slots ensures k.0 in xs {
        if k.0 != xs[n] { assert k in s.slots; }
      }
    }
  }
}
