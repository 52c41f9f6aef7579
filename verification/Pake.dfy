/** The code handshake: transcripts, confirmations and the attempt budget. */
module Pake {
  import opened Prelude
  import opened Sealing
  import opened Channel

  /** The primitives: both halves of SPAKE2, each with its own random seed, key
      derivation under a context, a keyed hash and the channel cipher. */
  datatype Suite = Suite(
    startA: (Bytes, Bytes32, Bytes32, nat) -> Bytes,
    finishA: (Bytes, Bytes32, Bytes32, nat, Bytes) -> Option<Bytes>,
    startB: (Bytes, Bytes32, Bytes32, nat) -> Bytes,
    finishB: (Bytes, Bytes32, Bytes32, nat, Bytes) -> Option<Bytes>,
    derive: (string, Bytes) -> Bytes32,
    mac: (Bytes32, Bytes) -> Bytes32,
    aead: Aead)

  const MAX_ATTEMPTS: nat := 3

  const CONFIRM_CONTEXT := "roam.pake.v1 key confirmation"
  const SEAL_I2R_CONTEXT := "roam.pake.v1 payload seal initiator-to-responder"
  const SEAL_R2I_CONTEXT := "roam.pake.v1 payload seal responder-to-initiator"

  function RoleByte(role: Side): byte { if role.Initiator? then 1 else 2 }

  /** What one run of the handshake was about, as one side saw it. */
  datatype Transcript = Transcript(initiatorId: Bytes32, responderId: Bytes32, msg1: Bytes, msg2: Bytes)

  function TranscriptBytes(role: Side, t: Transcript): Bytes {
    [RoleByte(role)] + (t.initiatorId + (t.responderId + (U64Le(|t.msg1|) + (t.msg1 + (U64Le(|t.msg2|) + t.msg2)))))
  }

  function ConfirmMac(s: Suite, spakeKey: Bytes, role: Side, t: Transcript): Bytes32 {
    s.mac(s.derive(CONFIRM_CONTEXT, spakeKey), TranscriptBytes(role, t))
  }

  function SessionKeyOf(s: Suite, spakeKey: Bytes): SessionKey {
    SessionKey(s.derive(SEAL_I2R_CONTEXT, spakeKey), s.derive(SEAL_R2I_CONTEXT, spakeKey))
  }

  lemma TranscriptInjective(role: Side, t: Transcript, role': Side, t': Transcript)
    requires |t.msg1| < TWO_TO_THE_64 && |t'.msg1| < TWO_TO_THE_64
    requires TranscriptBytes(role, t) == TranscriptBytes(role', t')
    ensures role == role' && t == t'
  {
    hide U64Le;
    var x, x' := U64Le(|t.msg2|) + t.msg2, U64Le(|t'.msg2|) + t'.msg2;
    var y, y' := U64Le(|t.msg1|) + (t.msg1 + x), U64Le(|t'.msg1|) + (t'.msg1 + x');
    SplitEqual([RoleByte(role)], t.initiatorId + (t.responderId + y), [RoleByte(role')], t'.initiatorId + (t'.responderId + y'));
    assert [RoleByte(role)][0] == [RoleByte(role')][0];
    SplitEqual(t.initiatorId, t.responderId + y, t'.initiatorId, t'.responderId + y');
    SplitEqual(t.responderId, y, t'.responderId, y');
    SplitEqual(U64Le(|t.msg1|), t.msg1 + x, U64Le(|t'.msg1|), t'.msg1 + x');
    U64LeInjective(|t.msg1|, |t'.msg1|);
    SplitEqual(t.msg1, x, t'.msg1, x');
    SplitEqual(U64Le(|t.msg2|), t.msg2, U64Le(|t'.msg2|), t'.msg2);
  }

  /** Where each part of the confirmed transcript stands. */
  lemma TranscriptLayout(role: Side, t: Transcript)
    requires |t.msg1| < TWO_TO_THE_64 && |t.msg2| < TWO_TO_THE_64
    ensures var b, n := TranscriptBytes(role, t), 73 + |t.msg1|;
            && |b| == n + 8 + |t.msg2| && b[0] == (if role.Initiator? then 1 else 2)
            && b[1..33] == t.initiatorId && b[33..65] == t.responderId
            && FromLittleEndian(b[65..73]) == |t.msg1| && b[73..n] == t.msg1
            && FromLittleEndian(b[n..n + 8]) == |t.msg2| && b[n + 8..] == t.msg2
  {
    hide U64Le;
    var b, n, x := TranscriptBytes(role, t), 73 + |t.msg1|, U64Le(|t.msg2|) + t.msg2;
    var y := U64Le(|t.msg1|) + (t.msg1 + x);
    Field(b, 1, t.initiatorId, t.responderId + y);
    Field(b, 33, t.responderId, y);
    Field(b, 65, U64Le(|t.msg1|), t.msg1 + x);
    Field(b, 73, t.msg1, x);
    Field(b, n, U64Le(|t.msg2|), t.msg2);
    U64LeReads(|t.msg1|);
    U64LeReads(|t.msg2|);
  }

  /** What one side seals with is what the other opens with, derived in the context that
      names the direction. The two directions differ, or the derivation takes both
      contexts to one value for this key. */
  lemma SessionKeysDiffer(s: Suite, spakeKey: Bytes)
    ensures SEAL_I2R_CONTEXT != SEAL_R2I_CONTEXT && CONFIRM_CONTEXT != SEAL_I2R_CONTEXT && CONFIRM_CONTEXT != SEAL_R2I_CONTEXT
    ensures var k := SessionKeyOf(s, spakeKey);
            && SendKey(k, Initiator) == ReceiveKey(k, Responder) == s.derive("roam.pake.v1 payload seal initiator-to-responder", spakeKey)
            && SendKey(k, Responder) == ReceiveKey(k, Initiator) == s.derive("roam.pake.v1 payload seal responder-to-initiator", spakeKey)
            && (k.initiatorToResponder != k.responderToInitiator || ContextsCollide(s, spakeKey))
  {
    assert SEAL_I2R_CONTEXT[26] != SEAL_R2I_CONTEXT[26];
  }

  ghost predicate ContextsCollide(s: Suite, spakeKey: Bytes) {
    s.derive("roam.pake.v1 payload seal initiator-to-responder", spakeKey) == s.derive("roam.pake.v1 payload seal responder-to-initiator", spakeKey)
  }

  /** These two confirmations are equal by accident: their different keys derive
      alike, or the keyed hash takes two different inputs to one value. */
  ghost predicate Collides(s: Suite, key: Bytes, role: Side, t: Transcript, key': Bytes, role': Side, t': Transcript) {
    var k, k' := s.derive(CONFIRM_CONTEXT, key), s.derive(CONFIRM_CONTEXT, key');
    var m, m' := TranscriptBytes(role, t), TranscriptBytes(role', t');
    (key != key' && k == k') || ((k != k' || m != m') && s.mac(k, m) == s.mac(k', m'))
  }

  /** One confirmation value stands for one key, one role and one transcript. */
  lemma ConfirmBinds(s: Suite, key: Bytes, role: Side, t: Transcript, key': Bytes, role': Side, t': Transcript)
    requires |t.msg1| < TWO_TO_THE_64 && |t'.msg1| < TWO_TO_THE_64
    requires ConfirmMac(s, key, role, t) == ConfirmMac(s, key', role', t')
    ensures (key == key' && role == role' && t == t') || Collides(s, key, role, t, key', role', t')
  {
    hide TranscriptBytes;
    if TranscriptBytes(role, t) == TranscriptBytes(role', t') {
      TranscriptInjective(role, t, role', t');
    }
  }

  /** What one side confirms is never what the other does, unless the hash collides. */
  lemma RolesConfirmApart(s: Suite, key: Bytes, t: Transcript)
    requires |t.msg1| < TWO_TO_THE_64 && ConfirmMac(s, key, Initiator, t) == ConfirmMac(s, key, Responder, t)
    ensures Collides(s, key, Initiator, t, key, Responder, t)
  {
    ConfirmBinds(s, key, Initiator, t, key, Responder, t);
  }

  // ---------------------------------------------------------------- the responder

  datatype PakeError = BadCode | MalformedMessage | NoAttemptsLeft

  datatype Res<+T> = Ok(value: T) | Err(error: PakeError)

  /** A run the responder has answered: what it must hear, what it would say and
      the keys that follow. */
  datatype Pending = Pending(expected: Bytes32, ours: Bytes32, key: SessionKey)

  function PendingOf(s: Suite, spakeKey: Bytes, t: Transcript): Pending {
    Pending(ConfirmMac(s, spakeKey, Initiator, t), ConfirmMac(s, spakeKey, Responder, t), SessionKeyOf(s, spakeKey))
  }

  function ResponseTo(s: Suite, code: Bytes, responderId: Bytes32, attemptsLeft: nat, initiatorId: Bytes32, msg1: Bytes, seed: nat): Res<(Pending, Bytes)> {
    if attemptsLeft == 0 then Err(NoAttemptsLeft)
    else
      var msg2 := s.startB(code, initiatorId, responderId, seed);
      match s.finishB(code, initiatorId, responderId, seed, msg1)
      case None => Err(MalformedMessage)
      case Some(k) => Ok((PendingOf(s, k, Transcript(initiatorId, responderId, msg1, msg2)), msg2))
  }

  function VerdictOn(attemptsLeft: nat, p: Pending, confirm: Bytes32): Res<(SessionKey, Bytes32)> {
    if attemptsLeft == 0 then Err(NoAttemptsLeft)
    else if p.expected != confirm then Err(BadCode)
    else Ok((p.key, p.ours))
  }

  /** Only a wrong confirmation costs an attempt. */
  function Charged(attemptsLeft: nat, p: Pending, confirm: Bytes32): nat {
    if attemptsLeft > 0 && p.expected != confirm then attemptsLeft - 1 else attemptsLeft
  }

  // ---------------------------------------------------------------- one code, any guesses

  ghost predicate IsWrong(guess: (Pending, Bytes32)) { guess.1 != guess.0.expected }

  ghost function WrongGuesses(guesses: seq<(Pending, Bytes32)>): nat {
    if guesses == [] then 0
    else WrongGuesses(guesses[..|guesses| - 1]) + if IsWrong(guesses[|guesses| - 1]) then 1 else 0
  }

  ghost function BudgetAfter(guesses: seq<(Pending, Bytes32)>): nat {
    if guesses == [] then MAX_ATTEMPTS
    else Charged(BudgetAfter(guesses[..|guesses| - 1]), guesses[|guesses| - 1].0, guesses[|guesses| - 1].1)
  }

  lemma {:induction false} BudgetCounts(guesses: seq<(Pending, Bytes32)>)
    ensures BudgetAfter(guesses) == if WrongGuesses(guesses) < 3 then 3 - WrongGuesses(guesses) else 0
  {
    if guesses != [] { BudgetCounts(guesses[..|guesses| - 1]); }
  }

  /** After any guesses at a code, over any runs of the exchange, the next one is
      accepted iff it is right and fewer than three were wrong. It then yields the
      session key and our own confirmation; a spent code says so to every guess. */
  lemma AcceptedIff(guesses: seq<(Pending, Bytes32)>, p: Pending, confirm: Bytes32)
    ensures var r := VerdictOn(BudgetAfter(guesses), p, confirm);
            && (r == Ok((p.key, p.ours)) <==> WrongGuesses(guesses) < 3 && confirm == p.expected)
            && (r == Err(BadCode) <==> WrongGuesses(guesses) < 3 && confirm != p.expected)
            && (r == Err(NoAttemptsLeft) <==> WrongGuesses(guesses) >= 3)
  {
    BudgetCounts(guesses);
  }

  class ResponderState {
    const suite: Suite
    const code: Bytes
    const responderId: Bytes32
    var attemptsLeft: nat

    constructor (suite: Suite, code: Bytes, responderId: Bytes32)
      ensures this.suite == suite && this.code == code && this.responderId == responderId && attemptsLeft == MAX_ATTEMPTS
    {
      this.suite := suite;
      this.code := code;
      this.responderId := responderId;
      attemptsLeft := MAX_ATTEMPTS;
    }

    method Respond(initiatorId: Bytes32, msg1: Bytes, seed: nat) returns (r: Res<(Pending, Bytes)>)
      ensures r == ResponseTo(suite, code, responderId, attemptsLeft, initiatorId, msg1, seed)
    {
      if attemptsLeft == 0 {
        return Err(NoAttemptsLeft);
      }
      var msg2 := suite.startB(code, initiatorId, responderId, seed);
      var spakeKey := suite.finishB(code, initiatorId, responderId, seed, msg1);
      if spakeKey.None? {
        return Err(MalformedMessage);
      }
      var t := Transcript(initiatorId, responderId, msg1, msg2);
      var expected := ConfirmMac(suite, spakeKey.value, Side.Initiator, t);
      var ours := ConfirmMac(suite, spakeKey.value, Side.Responder, t);
      return Ok((Pending(expected, ours, SessionKeyOf(suite, spakeKey.value)), msg2));
    }

    method Verify(pending: Pending, confirm: Bytes32) returns (r: Res<(SessionKey, Bytes32)>)
      modifies this
      ensures r == VerdictOn(old(attemptsLeft), pending, confirm)
      ensures attemptsLeft == Charged(old(attemptsLeft), pending, confirm)
    {
      if attemptsLeft == 0 {
        return Err(NoAttemptsLeft);
      }
      if pending.expected != confirm {
        attemptsLeft := attemptsLeft - 1;
        return Err(BadCode);
      }
      return Ok((pending.key, pending.ours));
    }
  }
}
