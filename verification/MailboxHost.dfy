/** The host itself: the segments its session loop runs between two waits, over
    the responder it owns and the mailbox it shares. */
module Hosting {
  import opened Prelude
  import opened Channel
  import opened Pake
  import opened Mailbox
  import opened PairingHost
  import M = PairingHost

  class MailboxHost {
    const responder: ResponderState
    const mailbox: MemoryMailbox
    const decode: string -> Option<Bytes32>
    const parse: Bytes -> Option<Device>
    var served: seq<string>
    var phase: Phase
    ghost var runs: map<string, HostRun>
    ghost var heard: set<string>
    ghost var wrote: set<(string, Slot)>
    ghost var enrolled: seq<Enrolment>

    ghost function Setting(): Config {
      Config(responder.suite, responder.code, responder.responderId, decode, parse)
    }

    ghost function State(): System
      reads this, responder, mailbox
    {
      System(mailbox.slots, phase, served, responder.attemptsLeft, runs, heard, wrote, enrolled)
    }

    constructor (suite: Suite, code: Bytes, hostKey: Bytes32, decode: string -> Option<Bytes32>, parse: Bytes -> Option<Device>)
      ensures Setting() == Config(suite, code, hostKey, decode, parse) && State() == ARMED
      ensures fresh(responder) && fresh(mailbox)
    {
      responder := new ResponderState(suite, code, hostKey);
      mailbox := new MemoryMailbox();
      this.decode := decode;
      this.parse := parse;
      served, phase := [], Polling;
      runs, heard, wrote, enrolled := map[], {}, {}, [];
    }

    /** One turn of the accept loop over a listed session. */
    method Pick(session: string, seed: nat)
      modifies this
      ensures State() == Step(Setting(), old(State()), M.Pick(session, seed))
    {
      if !phase.Polling? || session in served {
        return;
      }
      var msg1 := mailbox.Get(session, Msg1);
      if msg1.None? {
        return;
      }
      served := served + [session];
      var id := decode(session);
      if id.None? {
        return;
      }
      var answer := responder.Respond(id.value, msg1.value, seed);
      if answer.Err? {
        return;
      }
      var (pending, msg2) := answer.value;
      var spakeKey := responder.suite.finishB(responder.code, id.value, responder.responderId, seed, msg1.value).value;
      phase := HoldsMsg2(session, pending, HostRun(spakeKey, Transcript(id.value, responder.responderId, msg1.value, msg2)));
    }

    /** Write a slot, or drop the session if somebody already has. */
    method Write(session: string, slot: Slot, body: Bytes, next: Phase)
      modifies this, mailbox
      ensures State() == WriteSlot(old(State()), session, slot, body, next)
    {
      var outcome := mailbox.Put(session, slot, body);
      match outcome {
        case Written =>
          wrote := wrote + {(session, slot)};
          phase := next;
        case AlreadyTaken =>
          phase := Polling;
      }
    }

    method PutMsg2()
      requires phase.HoldsMsg2?
      modifies this, mailbox
      ensures State() == Step(Setting(), old(State()), M.PutMsg2)
    {
      var x, run := phase.session, phase.run;
      Write(x, Msg2, run.transcript.msg2, AwaitsConfirm(x, phase.pending));
      if phase.AwaitsConfirm? {
        runs := runs[x := run];
      }
    }

    method ReadConfirm()
      requires phase.AwaitsConfirm?
      modifies this, responder
      ensures State() == Step(Setting(), old(State()), M.ReadConfirm)
    {
      var x, pending := phase.session, phase.pending;
      var body := mailbox.Get(x, ConfirmJoiner);
      if body.None? {
        return;
      }
      heard := heard + {x};
      phase := Polling;
      if |body.value| != 32 {
        return;
      }
      var verdict := responder.Verify(pending, body.value);
      if verdict.Ok? {
        phase := HoldsConfirm(x, verdict.value.0, verdict.value.1);
      }
    }

    method PutConfirm()
      requires phase.HoldsConfirm?
      modifies this, mailbox
      ensures State() == Step(Setting(), old(State()), M.PutConfirm)
    {
      var x, k := phase.session, phase.key;
      Write(x, ConfirmHost, phase.ours, AwaitsRequest(x, Half(k.responderToInitiator, 0), Half(k.initiatorToResponder, 0)));
    }

    /** Open the request, enrol the device it names and seal the payload for it.
        `outcome` is what the store made of that device. */
    method ReadRequest(outcome: Outcome)
      requires phase.AwaitsRequest?
      modifies this
      ensures State() == Step(Setting(), old(State()), M.ReadRequest(outcome))
    {
      var x, sealer, opener := phase.session, phase.sealer, phase.opener;
      var frame := mailbox.Get(x, Request);
      if frame.None? {
        return;
      }
      phase := Polling;
      var request := OpenNext(responder.suite.aead, opener, frame.value);
      if !request.Yielded? {
        return;
      }
      var device := parse(request.plain);
      if device.None? || outcome.Refused? {
        return;
      }
      if outcome.Unprepared? {
        enrolled := enrolled + [Enrolment(x, device.value, None)];
        return;
      }
      enrolled := enrolled + [Enrolment(x, device.value, Some(outcome.payload))];
      var sealed := SealNext(responder.suite.aead, sealer, outcome.payload);
      if sealed.Some? {
        phase := HoldsAccept(x, sealed.value, device.value.peer);
      }
    }

    method PutAccept()
      requires phase.HoldsAccept?
      modifies this, mailbox
      ensures State() == Step(Setting(), old(State()), M.PutAccept)
    {
      Write(phase.session, Accept, phase.sealed, Joined(phase.session, phase.peer));
    }
  }
}
