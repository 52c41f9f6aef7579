/** A host with a code showing, as a machine over the mailbox's slots, against an
    adversary that may write any slot of any session at any moment. */
module PairingHost {
  import opened Prelude
  import opened Channel
  import opened Pake
  import opened Mailbox

  /** The device a join request names. */
  datatype Device = Device(key: Bytes32, peer: u64)

  /** What is fixed for one hosting: the code, the host's key, how a session name
      reads as 32 bytes, if it does, and how a request reads as a device. */
  datatype Config = Config(suite: Suite, code: Bytes, hostKey: Bytes32, decode: string -> Option<Bytes32>, parse: Bytes -> Option<Device>)

  /** Where the host stands; it serves one session at a time. */
  datatype Phase =
    | Polling
    | HoldsMsg2(session: string, pending: Pending, run: HostRun)
    | AwaitsConfirm(session: string, pending: Pending)
    | HoldsConfirm(session: string, key: SessionKey, ours: Bytes32)
    | AwaitsRequest(session: string, sealer: Half, opener: Half)
    | HoldsAccept(session: string, sealed: Bytes, peer: u64)
    | Joined(session: string, peer: u64)
    | GaveUp

  /** A run of the handshake the host answered. */
  datatype HostRun = HostRun(spakeKey: Bytes, transcript: Transcript)

  /** A device enrolled in a session, and the payload it is to be sent, if one was
      built. */
  datatype Enrolment = Enrolment(session: string, device: Device, accept: Option<Bytes>)

  /** What the store made of a device: it turned it down, it enrolled it but no
      payload could be built, or it enrolled it and here is the payload. */
  datatype Outcome = Refused | Unprepared | Prepared(payload: Bytes)

  /** The mailbox and the host, and what the host has done so far: the runs whose
      second message it wrote, the sessions whose confirmation it read, the slots
      it wrote and the devices it enrolled. */
  datatype System = System(
    slots: Slots, phase: Phase, served: seq<string>, attemptsLeft: nat,
    runs: map<string, HostRun>, heard: set<string>, wrote: set<(string, Slot)>, enrolled: seq<Enrolment>)

  const ARMED := System(map[], Polling, [], MAX_ATTEMPTS, map[], {}, {}, [])

  /** A step of the host, or a write by anyone else. `Pick` carries the seed of the
      responder's half of SPAKE2, `ReadRequest` what the store made of the device. */
  datatype Event =
    | Foreign(session: string, slot: Slot, body: Bytes)
    | Pick(session: string, seed: nat)
    | PutMsg2
    | ReadConfirm
    | PutConfirm
    | ReadRequest(outcome: Outcome)
    | PutAccept
    | Abandon
    | GiveUp

  predicate Enabled(s: System, e: Event) {
    match e
    case Foreign(_, _, _) => true
    case Pick(session, _) => s.phase.Polling? && session !in s.served && (session, Msg1) in s.slots
    case PutMsg2 => s.phase.HoldsMsg2?
    case ReadConfirm => s.phase.AwaitsConfirm? && (s.phase.session, ConfirmJoiner) in s.slots
    case PutConfirm => s.phase.HoldsConfirm?
    case ReadRequest(_) => s.phase.AwaitsRequest? && (s.phase.session, Request) in s.slots
    case PutAccept => s.phase.HoldsAccept?
    case Abandon => !s.phase.Polling? && !s.phase.Joined? && !s.phase.GaveUp?
    case GiveUp => s.phase.Polling?
  }

  // ---------------------------------------------------------------- the steps

  function DoForeign(s: System, session: string, slot: Slot, body: Bytes): System {
    s.(slots := PutSlot(s.slots, session, slot, body))
  }

  function DoPick(c: Config, s: System, session: string, seed: nat): System
    requires Enabled(s, Pick(session, seed))
  {
    var s' := s.(served := s.served + [session]);
    match c.decode(session)
    case None => s'
    case Some(id) =>
      var msg1 := s.slots[(session, Msg1)];
      match ResponseTo(c.suite, c.code, c.hostKey, s.attemptsLeft, id, msg1, seed)
      case Err(_) => s'
      case Ok((pending, msg2)) =>
        var key := c.suite.finishB(c.code, id, c.hostKey, seed, msg1).value;
        s'.(phase := HoldsMsg2(session, pending, HostRun(key, Transcript(id, c.hostKey, msg1, msg2))))
  }

  /** A taken slot ends the session. */
  function WriteSlot(s: System, session: string, slot: Slot, body: Bytes, next: Phase): System {
    if PutOutcome(s.slots, session, slot).AlreadyTaken? then s.(phase := Polling)
    else s.(slots := PutSlot(s.slots, session, slot, body), wrote := s.wrote + {(session, slot)}, phase := next)
  }

  function DoPutMsg2(s: System): System
    requires Enabled(s, PutMsg2)
  {
    var x, run := s.phase.session, s.phase.run;
    var s' := WriteSlot(s, x, Msg2, run.transcript.msg2, AwaitsConfirm(x, s.phase.pending));
    if (x, Msg2) in s.slots then s' else s'.(runs := s.runs[x := run])
  }

  /** A confirmation that is not 32 bytes ends the session and costs nothing. */
  function DoReadConfirm(s: System): System
    requires Enabled(s, ReadConfirm)
  {
    var x, p, body := s.phase.session, s.phase.pending, s.slots[(s.phase.session, ConfirmJoiner)];
    var s' := s.(heard := s.heard + {x}, phase := Polling);
    if |body| != 32 then s'
    else
      var charged := s'.(attemptsLeft := Charged(s.attemptsLeft, p, body));
      match VerdictOn(s.attemptsLeft, p, body)
      case Err(_) => charged
      case Ok((key, ours)) => charged.(phase := HoldsConfirm(x, key, ours))
  }

  /** The device the request in the slot names, if it opens and reads as one. */
  function NamedDevice(c: Config, s: System): Option<Device>
    requires s.phase.AwaitsRequest? && (s.phase.session, Request) in s.slots
  {
    match OpenNext(c.suite.aead, s.phase.opener, s.slots[(s.phase.session, Request)])
    case Yielded(request) => c.parse(request)
    case _ => None
  }

  function DoReadRequest(c: Config, s: System, outcome: Outcome): System
    requires Enabled(s, ReadRequest(outcome))
  {
    match NamedDevice(c, s)
    case None => s.(phase := Polling)
    case Some(device) => if outcome.Refused? then s.(phase := Polling) else Offer(c, s, device, outcome)
  }

  /** The device is enrolled before the payload for it is built and sealed. */
  function Offer(c: Config, s: System, device: Device, outcome: Outcome): System
    requires s.phase.AwaitsRequest? && !outcome.Refused?
  {
    var x, accept := s.phase.session, if outcome.Prepared? then Some(outcome.payload) else None;
    var s' := s.(enrolled := s.enrolled + [Enrolment(x, device, accept)], phase := Polling);
    if outcome.Unprepared? then s'
    else
      match SealNext(c.suite.aead, s.phase.sealer, outcome.payload)
      case None => s'
      case Some(sealed) => s'.(phase := HoldsAccept(x, sealed, device.peer))
  }

  function DoPutConfirm(s: System): System
    requires Enabled(s, PutConfirm)
  {
    var x, k := s.phase.session, s.phase.key;
    WriteSlot(s, x, ConfirmHost, s.phase.ours, AwaitsRequest(x, Half(SendKey(k, Responder), 0), Half(ReceiveKey(k, Responder), 0)))
  }

  function DoPutAccept(s: System): System
    requires Enabled(s, PutAccept)
  {
    WriteSlot(s, s.phase.session, Accept, s.phase.sealed, Joined(s.phase.session, s.phase.peer))
  }

  /** An event that cannot happen changes nothing. */
  function Step(c: Config, s: System, e: Event): System {
    if !Enabled(s, e) then s
    else
      match e
      case Foreign(session, slot, body) => DoForeign(s, session, slot, body)
      case Pick(session, seed) => DoPick(c, s, session, seed)
      case PutMsg2 => DoPutMsg2(s)
      case ReadConfirm => DoReadConfirm(s)
      case PutConfirm => DoPutConfirm(s)
      case ReadRequest(outcome) => DoReadRequest(c, s, outcome)
      case PutAccept => DoPutAccept(s)
      case Abandon => s.(phase := Polling)
      case GiveUp => s.(phase := GaveUp)
  }

  function After(c: Config, events: seq<Event>): System {
    if events == [] then ARMED else Step(c, After(c, events[..|events| - 1]), events[|events| - 1])
  }
}
