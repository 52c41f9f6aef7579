/** The two one-way channels a completed code handshake leaves behind. */
module Channel {
  import opened Prelude
  import opened Sealing

  datatype Side = Initiator | Responder

  function Other(side: Side): Side { if side.Initiator? then Responder else Initiator }

  datatype SessionKey = SessionKey(initiatorToResponder: Bytes32, responderToInitiator: Bytes32)

  /** One end of one direction: its key and how many messages have passed. */
  datatype Half = Half(key: Bytes32, counter: u64)

  const LAST_COUNTER: int := TWO_TO_THE_64 - 1

  function SendKey(k: SessionKey, side: Side): Bytes32 {
    if side.Initiator? then k.initiatorToResponder else k.responderToInitiator
  }

  function ReceiveKey(k: SessionKey, side: Side): Bytes32 {
    if side.Initiator? then k.responderToInitiator else k.initiatorToResponder
  }

  /** The counter in the low eight bytes, then four zero bytes. */
  function NonceFor(counter: u64): (nonce: Bytes)
    ensures |nonce| == 12
  {
    U64Le(counter) + [0, 0, 0, 0]
  }

  lemma NonceInjective(m: u64, n: u64)
    requires NonceFor(m) == NonceFor(n)
    ensures m == n
  {
    hide U64Le;
    SplitEqual(U64Le(m), [0, 0, 0, 0], U64Le(n), [0, 0, 0, 0]);
    U64LeInjective(m, n);
  }

  lemma NonceLayout(counter: u64)
    ensures FromLittleEndian(NonceFor(counter)[..8]) == counter && NonceFor(counter)[8..] == [0, 0, 0, 0]
  {
    hide U64Le;
    U64LeReads(counter);
    assert NonceFor(counter)[..8] == U64Le(counter);
  }

  datatype OpenResult = Yielded(plain: Bytes) | Undecryptable | Aborted

  /** The counter overflow aborts before anything is released. */
  function SealNext(a: Aead, h: Half, plain: Bytes): Option<Bytes> {
    if h.counter == LAST_COUNTER then None else Some(a.seal(h.key, NonceFor(h.counter), plain))
  }

  function OpenNext(a: Aead, h: Half, frame: Bytes): OpenResult {
    match a.open(h.key, NonceFor(h.counter), frame)
    case None => Undecryptable
    case Some(p) => if h.counter == LAST_COUNTER then Aborted else Yielded(p)
  }

  function Advance(h: Half): Half
    requires h.counter < LAST_COUNTER
  {
    h.(counter := h.counter + 1)
  }

  class Sealer {
    const aead: Aead
    const key: Bytes32
    var counter: u64

    ghost function State(): Half
      reads this
    {
      Half(key, counter)
    }

    constructor (aead: Aead, key: Bytes32)
      ensures this.aead == aead && State() == Half(key, 0)
    {
      this.aead := aead;
      this.key := key;
      counter := 0;
    }

    method Seal(plain: Bytes) returns (frame: Option<Bytes>)
      modifies this
      ensures frame == SealNext(aead, old(State()), plain)
      ensures State() == if frame.Some? then Advance(old(State())) else old(State())
    {
      var sealed := aead.seal(key, NonceFor(counter), plain);
      if counter == LAST_COUNTER {
        return None;
      }
      counter := counter + 1;
      return Some(sealed);
    }
  }

  class Opener {
    const aead: Aead
    const key: Bytes32
    var counter: u64

    ghost function State(): Half
      reads this
    {
      Half(key, counter)
    }

    constructor (aead: Aead, key: Bytes32)
      ensures this.aead == aead && State() == Half(key, 0)
    {
      this.aead := aead;
      this.key := key;
      counter := 0;
    }

    method Open(frame: Bytes) returns (r: OpenResult)
      modifies this
      ensures r == OpenNext(aead, old(State()), frame)
      ensures State() == if r.Yielded? then Advance(old(State())) else old(State())
    {
      var plain := aead.open(key, NonceFor(counter), frame);
      if plain.None? {
        return Undecryptable;
      }
      if counter == LAST_COUNTER {
        return Aborted;
      }
      counter := counter + 1;
      return Yielded(plain.value);
    }
  }

  /** Splitting gives one side a sealer and an opener. */
  method Split(a: Aead, k: SessionKey, side: Side) returns (sealer: Sealer, opener: Opener)
    ensures fresh(sealer) && fresh(opener) && sealer.aead == a && opener.aead == a
    ensures sealer.State() == Half(SendKey(k, side), 0) && opener.State() == Half(ReceiveKey(k, side), 0)
  {
    var send, receive;
    match side {
      case Initiator => send, receive := k.initiatorToResponder, k.responderToInitiator;
      case Responder => send, receive := k.responderToInitiator, k.initiatorToResponder;
    }
    sealer := new Sealer(a, send);
    opener := new Opener(a, receive);
  }
}
