/** What the channels of a session keep over every run against an adversary that
    drops, replays, reorders, reflects and injects frames. */
module ChannelRuns {
  import opened Prelude
  import opened Sealing
  import opened Channel

  /** One device: both halves, what it sealed and what it was given. */
  datatype Endpoint = Endpoint(sealer: Half, opener: Half, sent: seq<Bytes>, got: seq<Bytes>)

  /** A sealing that was released to the network. */
  datatype Release = Release(key: Bytes32, nonce: Bytes, plain: Bytes)

  datatype Net = Net(initiator: Endpoint, responder: Endpoint, released: seq<Release>)

  datatype Event = SealBy(side: Side, plain: Bytes) | DeliverTo(side: Side, frame: Bytes)

  function At(n: Net, side: Side): Endpoint { if side.Initiator? then n.initiator else n.responder }

  function With(n: Net, side: Side, e: Endpoint): Net {
    if side.Initiator? then n.(initiator := e) else n.(responder := e)
  }

  function FreshEndpoint(k: SessionKey, side: Side): Endpoint {
    Endpoint(Half(SendKey(k, side), 0), Half(ReceiveKey(k, side), 0), [], [])
  }

  function Start(k: SessionKey): Net { Net(FreshEndpoint(k, Initiator), FreshEndpoint(k, Responder), []) }

  function Step(a: Aead, n: Net, e: Event): Net {
    match e
    case SealBy(side, plain) =>
      var me := At(n, side);
      if SealNext(a, me.sealer, plain).None? then n
      else
        With(n, side, me.(sealer := Advance(me.sealer), sent := me.sent + [plain]))
        .(released := n.released + [Release(me.sealer.key, NonceFor(me.sealer.counter), plain)])
    case DeliverTo(side, frame) =>
      var me := At(n, side);
      match OpenNext(a, me.opener, frame)
      case Yielded(plain) => With(n, side, me.(opener := Advance(me.opener), got := me.got + [plain]))
      case _ => n
  }

  function Run(a: Aead, k: SessionKey, events: seq<Event>): Net {
    if events == [] then Start(k) else Step(a, Run(a, k, events[..|events| - 1]), events[|events| - 1])
  }

  // ---------------------------------------------------------------- the adversary

  /** By accident of the cipher, a released frame opens under a session key and
      counter other than the ones it was sealed with. */
  ghost predicate Crossed(a: Aead, k: SessionKey, n: Net) {
    exists r, side, c: u64 :: r in n.released && OpensAskew(a, k, r, side, c)
  }

  ghost predicate OpensAskew(a: Aead, k: SessionKey, r: Release, side: Side, c: u64) {
    && a.open(SendKey(k, side), NonceFor(c), a.seal(r.key, r.nonce, r.plain)).Some?
    && (r.key != SendKey(k, side) || r.nonce != NonceFor(c))
  }

  /** What the adversary can put on the wire: any frame either side ever released,
      as often and in whatever direction it likes, or bytes that no session key
      authenticates. */
  ghost predicate CanDeliver(a: Aead, k: SessionKey, n: Net, frame: Bytes) {
    || (exists r :: r in n.released && frame == a.seal(r.key, r.nonce, r.plain))
    || (forall side, c: u64 :: a.open(SendKey(k, side), NonceFor(c), frame).None?)
  }

  ghost predicate Feasible(a: Aead, k: SessionKey, events: seq<Event>) {
    events == [] ||
    (var before, e := events[..|events| - 1], events[|events| - 1];
     Feasible(a, k, before) && (e.DeliverTo? ==> CanDeliver(a, k, Run(a, k, before), e.frame)))
  }

  // ---------------------------------------------------------------- the invariant

  /** What one endpoint keeps, facing what the other has sent. */
  ghost predicate EndpointOk(k: SessionKey, side: Side, me: Endpoint, peer: Endpoint) {
    && me.sealer.key == SendKey(k, side) && me.sealer.counter == |me.sent|
    && me.opener.key == ReceiveKey(k, side) && me.opener.counter == |me.got|
    && me.got <= peer.sent
  }

  /** A release is the i-th message of one side, under that side's key. */
  ghost predicate Traced(k: SessionKey, n: Net, r: Release, side: Side, i: nat) {
    i < |At(n, side).sent| <= LAST_COUNTER && r == Release(SendKey(k, side), NonceFor(i), At(n, side).sent[i])
  }

  ghost predicate Inv(k: SessionKey, n: Net) {
    && |n.initiator.sent| <= LAST_COUNTER && |n.responder.sent| <= LAST_COUNTER
    && EndpointOk(k, Initiator, n.initiator, n.responder)
    && EndpointOk(k, Responder, n.responder, n.initiator)
    && forall r :: r in n.released ==> exists side, i: nat :: Traced(k, n, r, side, i)
  }

  ghost predicate NoReuse(rs: seq<Release>) {
    forall i, j :: 0 <= i < j < |rs| ==> rs[i].key != rs[j].key || rs[i].nonce != rs[j].nonce
  }

  /** What opens under a side's key at a counter was that side's message there. */
  lemma OpensOnlySent(a: Aead, k: SessionKey, n: Net, from: Side, c: u64, frame: Bytes)
    requires Ideal(a) && !Crossed(a, k, n) && Inv(k, n) && CanDeliver(a, k, n, frame)
    requires k.initiatorToResponder != k.responderToInitiator
    requires a.open(SendKey(k, from), NonceFor(c), frame).Some?
    ensures c < |At(n, from).sent| && a.open(SendKey(k, from), NonceFor(c), frame) == Some(At(n, from).sent[c])
  {
    hide NonceFor;
    var r :| r in n.released && frame == a.seal(r.key, r.nonce, r.plain);
    assert !OpensAskew(a, k, r, from, c);
    assert a.open(r.key, r.nonce, frame) == Some(r.plain);
    hide Ideal;
    var side, i: nat :| Traced(k, n, r, side, i);
    NonceInjective(i, c);
  }

  /** A frame the opener accepts is the next one its peer sealed. */
  lemma OpensOnlyNext(a: Aead, k: SessionKey, n: Net, side: Side, frame: Bytes)
    requires Ideal(a) && !Crossed(a, k, n) && Inv(k, n) && CanDeliver(a, k, n, frame)
    requires k.initiatorToResponder != k.responderToInitiator
    requires OpenNext(a, At(n, side).opener, frame).Yielded?
    ensures |At(n, side).got| < |At(n, Other(side)).sent|
    ensures OpenNext(a, At(n, side).opener, frame).plain == At(n, Other(side)).sent[|At(n, side).got|]
  {
    hide NonceFor, Ideal, Crossed, CanDeliver;
    OpensOnlySent(a, k, n, Other(side), At(n, side).opener.counter, frame);
  }

  lemma SealKeeps(a: Aead, k: SessionKey, n: Net, side: Side, plain: Bytes)
    requires Inv(k, n)
    ensures Inv(k, Step(a, n, SealBy(side, plain)))
  {
    hide NonceFor;
    var n' := Step(a, n, SealBy(side, plain));
    var me := At(n, side);
    if SealNext(a, me.sealer, plain).Some? {
      forall r | r in n'.released ensures exists from, i: nat :: Traced(k, n', r, from, i) {
        if r in n.released {
          var from, i: nat :| Traced(k, n, r, from, i);
          assert Traced(k, n', r, from, i);
        } else {
          assert r == n'.released[|n.released|];
          assert Traced(k, n', r, side, |me.sent|);
        }
      }
    }
  }

  lemma DeliverKeeps(a: Aead, k: SessionKey, n: Net, side: Side, frame: Bytes)
    requires Ideal(a) && !Crossed(a, k, n) && Inv(k, n) && CanDeliver(a, k, n, frame)
    requires k.initiatorToResponder != k.responderToInitiator
    ensures Inv(k, Step(a, n, DeliverTo(side, frame)))
  {
    hide NonceFor, Ideal, Crossed, CanDeliver;
    var n' := Step(a, n, DeliverTo(side, frame));
    if OpenNext(a, At(n, side).opener, frame).Yielded? {
      OpensOnlyNext(a, k, n, side, frame);
      forall r | r in n'.released ensures exists from, i: nat :: Traced(k, n', r, from, i) {
        var from, i: nat :| Traced(k, n, r, from, i);
        assert Traced(k, n', r, from, i);
      }
    }
  }

  /** What is released stays released, so an accident is never undone. */
  lemma CrossedStays(a: Aead, k: SessionKey, n: Net, e: Event)
    requires Crossed(a, k, n)
    ensures Crossed(a, k, Step(a, n, e))
  {
    hide OpensAskew;
    var r, side, c: u64 :| r in n.released && OpensAskew(a, k, r, side, c);
    assert r in Step(a, n, e).released;
  }

  lemma {:induction false} RunKeeps(a: Aead, k: SessionKey, events: seq<Event>)
    requires Ideal(a) && Feasible(a, k, events)
    requires k.initiatorToResponder != k.responderToInitiator
    ensures Inv(k, Run(a, k, events)) || Crossed(a, k, Run(a, k, events))
  {
    if events != [] {
      var before, e := events[..|events| - 1], events[|events| - 1];
      RunKeeps(a, k, before);
      hide Ideal, Inv, Crossed, CanDeliver, Step;
      var n := Run(a, k, before);
      if Crossed(a, k, n) {
        CrossedStays(a, k, n, e);
      } else {
        match e {
          case SealBy(side, plain) => SealKeeps(a, k, n, side, plain);
          case DeliverTo(side, frame) => DeliverKeeps(a, k, n, side, frame);
        }
      }
    }
  }

  /** Whatever the adversary does, each side has received a prefix, in order, of
      what the other sealed; if not, a frame that was released opens under a key
      and counter that are not its own. */
  lemma ReceivedIsPrefix(a: Aead, k: SessionKey, events: seq<Event>, side: Side)
    requires Ideal(a) && Feasible(a, k, events)
    requires k.initiatorToResponder != k.responderToInitiator
    ensures At(Run(a, k, events), side).got <= At(Run(a, k, events), Other(side)).sent || Crossed(a, k, Run(a, k, events))
  {
    hide Crossed;
    RunKeeps(a, k, events);
  }

  /** Nothing the adversary delivered puts the channel out of step: the next
      message in order still opens, and to what was sealed. */
  lemma NeverDesynchronised(a: Aead, k: SessionKey, events: seq<Event>, side: Side)
    requires Ideal(a) && Feasible(a, k, events)
    requires k.initiatorToResponder != k.responderToInitiator
    requires |At(Run(a, k, events), side).got| < |At(Run(a, k, events), Other(side)).sent|
    ensures var n := Run(a, k, events);
            var c := |At(n, side).got|;
            var next := At(n, Other(side)).sent[c];
            || Crossed(a, k, n)
            || (c < LAST_COUNTER && OpenNext(a, At(n, side).opener, a.seal(SendKey(k, Other(side)), NonceFor(c), next)) == Yielded(next))
  {
    hide Crossed;
    RunKeeps(a, k, events);
  }

  /** What sealing alone keeps: each release is a message of one side, under that
      side's key and the number of messages before it. */
  ghost predicate SealersOk(k: SessionKey, n: Net) {
    && (forall side :: At(n, side).sealer.key == SendKey(k, side))
    && (forall r :: r in n.released ==> exists side, c: u64 :: IssuedAt(k, n, r, side, c))
  }

  ghost predicate IssuedAt(k: SessionKey, n: Net, r: Release, side: Side, c: u64) {
    c < At(n, side).sealer.counter && r.key == SendKey(k, side) && r.nonce == NonceFor(c)
  }

  lemma {:induction false} SealersKeep(a: Aead, k: SessionKey, events: seq<Event>)
    ensures SealersOk(k, Run(a, k, events))
  {
    if events != [] {
      SealersKeep(a, k, events[..|events| - 1]);
      SealersStep(a, k, Run(a, k, events[..|events| - 1]), events[|events| - 1]);
    }
  }

  lemma SealersStep(a: Aead, k: SessionKey, n: Net, e: Event)
    requires SealersOk(k, n)
    ensures SealersOk(k, Step(a, n, e))
  {
    hide NonceFor;
    var n' := Step(a, n, e);
    forall r | r in n'.released ensures exists side, c: u64 :: IssuedAt(k, n', r, side, c) {
      if r in n.released {
        var side, c: u64 :| IssuedAt(k, n, r, side, c);
        assert IssuedAt(k, n', r, side, c);
      } else {
        assert r == n'.released[|n.released|];
        assert IssuedAt(k, n', r, e.side, At(n, e.side).sealer.counter);
      }
    }
  }

  /** No nonce is ever used twice under one key, whatever is sealed, whatever is
      delivered and whatever the cipher. */
  lemma {:induction false} NoNonceReuse(a: Aead, k: SessionKey, events: seq<Event>)
    requires k.initiatorToResponder != k.responderToInitiator
    ensures NoReuse(Run(a, k, events).released)
  {
    if events != [] {
      var before, e := events[..|events| - 1], events[|events| - 1];
      NoNonceReuse(a, k, before);
      SealersKeep(a, k, before);
      var n := Run(a, k, before);
      if e.SealBy? {
        forall i | 0 <= i < |n.released|
          ensures n.released[i].key != At(n, e.side).sealer.key || n.released[i].nonce != NonceFor(At(n, e.side).sealer.counter)
        {
          FreshNonce(k, n, n.released[i], e.side);
        }
      }
    }
  }

  lemma FreshNonce(k: SessionKey, n: Net, r: Release, side: Side)
    requires SealersOk(k, n) && r in n.released
    requires k.initiatorToResponder != k.responderToInitiator
    ensures r.key != At(n, side).sealer.key || r.nonce != NonceFor(At(n, side).sealer.counter)
  {
    hide NonceFor;
    var from, c: u64 :| IssuedAt(k, n, r, from, c);
    if r.nonce == NonceFor(At(n, side).sealer.counter) {
      NonceInjective(c, At(n, side).sealer.counter);
    }
  }

  /** The two directions need different keys: with one key a side's first message,
      sent back to it, opens as if the peer had sent it. */
  lemma OneKeyReflects(a: Aead, k: SessionKey, plain: Bytes)
    requires Ideal(a) && k.initiatorToResponder == k.responderToInitiator
    ensures var events := [SealBy(Initiator, plain), DeliverTo(Initiator, a.seal(k.initiatorToResponder, NonceFor(0), plain))];
            && Feasible(a, k, events)
            && Run(a, k, events).initiator.got == [plain] && Run(a, k, events).responder.sent == []
  {
    hide NonceFor;
    var key, nonce := k.initiatorToResponder, NonceFor(0);
    var frame := a.seal(key, nonce, plain);
    var e0, e1 := SealBy(Initiator, plain), DeliverTo(Initiator, frame);
    assert [e0, e1][..1] == [e0] && [e0][..0] == [];
    assert Run(a, k, [e0]) == Step(a, Run(a, k, []), e0);
    assert Run(a, k, [e0, e1]) == Step(a, Run(a, k, [e0]), e1);
    var n1 := Run(a, k, [e0]);
    assert n1.initiator.opener == Half(key, 0);
    assert n1.released == [Release(key, nonce, plain)];
    assert n1.released[0] in n1.released;
    assert CanDeliver(a, k, n1, frame);
    assert Feasible(a, k, [e0]);
    assert a.open(key, nonce, frame) == Some(plain);
    assert n1.initiator.got == [] && [] + [plain] == [plain];
  }

  // ---------------------------------------------------------------- nothing is held back

  /** The messages a side was asked to seal. */
  ghost function Asked(events: seq<Event>, side: Side): seq<Bytes> {
    if events == [] then []
    else
      var e := events[|events| - 1];
      Asked(events[..|events| - 1], side) + if e.SealBy? && e.side == side then [e.plain] else []
  }

  /** Whatever is delivered in between, a side sends what it is asked to, in order, until
      its counter has no next value. */
  lemma {:induction false} AllIsSent(a: Aead, k: SessionKey, events: seq<Event>, side: Side)
    ensures var asked, me := Asked(events, side), At(Run(a, k, events), side);
            && me.sent == (if |asked| < TWO_TO_THE_64 then asked else asked[..TWO_TO_THE_64 - 1])
            && me.sealer == Half(SendKey(k, side), |me.sent|)
  {
    if events != [] {
      hide SealNext, OpenNext, NonceFor;
      var init, e := events[..|events| - 1], events[|events| - 1];
      AllIsSent(a, k, init, side);
      SealedOnce(a, Run(a, k, init), e, side);
      var asked := Asked(init, side);
      if |asked| >= TWO_TO_THE_64 - 1 && e.SealBy? && e.side == side {
        assert (asked + [e.plain])[..TWO_TO_THE_64 - 1] == asked[..TWO_TO_THE_64 - 1];
        assert asked == asked[..|asked|];
      }
    }
  }

  lemma SealedOnce(a: Aead, n: Net, e: Event, side: Side)
    ensures var me, me' := At(n, side), At(Step(a, n, e), side);
            if e.SealBy? && e.side == side && me.sealer.counter < TWO_TO_THE_64 - 1
            then me'.sent == me.sent + [e.plain] && me'.sealer == Half(me.sealer.key, me.sealer.counter + 1)
            else me'.sent == me.sent && me'.sealer == me.sealer
  {
    hide NonceFor;
  }
}
