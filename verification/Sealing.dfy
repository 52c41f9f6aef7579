/** Sealing under the head epoch, and classifying and opening stored ciphertext. */
module Sealing {
  import opened Prelude
  import opened KeyLog
  import opened Keychain
  import opened KeychainLaws

  /** An authenticated cipher: sealing, and opening with a tag check. */
  datatype Aead = Aead(seal: (Bytes32, Bytes, Bytes) -> Bytes, open: (Bytes32, Bytes, Bytes) -> Option<Bytes>)

  /** Opening undoes sealing and accepts nothing else. */
  ghost predicate Ideal(a: Aead) {
    && (forall k, n, p :: a.open(k, n, a.seal(k, n, p)) == Some(p))
    && (forall k, n, c :: a.open(k, n, c).Some? ==> a.seal(k, n, a.open(k, n, c).value) == c)
  }

  /** The ideal is satisfiable: a cipher that writes key and nonce in front. */
  lemma IdealExists()
    ensures exists a :: Ideal(a)
  {
    var a := Aead((k: Bytes32, n: Bytes, p: Bytes) => k + n + p,
                  (k: Bytes32, n: Bytes, c: Bytes) => if k + n <= c then Some(c[|k + n|..]) else None);
    forall k: Bytes32, n: Bytes, p: Bytes ensures a.open(k, n, a.seal(k, n, p)) == Some(p) {
      assert (k + n + p)[|k + n|..] == p;
    }
    forall k: Bytes32, n: Bytes, c: Bytes | a.open(k, n, c).Some? ensures a.seal(k, n, a.open(k, n, c).value) == c {
      assert c == c[..|k + n|] + c[|k + n|..];
    }
    assert Ideal(a);
  }

  datatype Opened = Plain(text: Bytes) | Short | Failed

  /** `epoch id (32) || nonce (24) || ciphertext`. */
  function SealEpoch(a: Aead, key: Bytes32, id: Bytes32, nonce: Bytes, plain: Bytes): Bytes {
    id + nonce + a.seal(key, nonce, plain)
  }

  /** Open `nonce (24) || ciphertext`. */
  function OpenEpoch(a: Aead, key: Bytes32, body: Bytes): Opened {
    if |body| < 24 then Short
    else
      match a.open(key, body[..24], body[24..])
      case None => Failed
      case Some(p) => Plain(p)
  }

  /** Legacy seal, untagged, under the vault's epoch-0 key. */
  function SealLegacy(a: Aead, epoch0Key: Bytes32, nonce: Bytes, plain: Bytes): Bytes {
    nonce + a.seal(epoch0Key, nonce, plain)
  }

  function EpochKey(kc: Keychain, id: Bytes32): Option<Bytes32> {
    if id in kc.epochs then kc.epochs[id].key else None
  }

  function SealUnderHead(a: Aead, kc: Keychain, epoch0Key: Bytes32, nonce: Bytes, plain: Bytes): Option<Bytes> {
    match EpochKey(kc, kc.head)
    case Some(k) => if kc.head != EPOCH0 then Some(SealEpoch(a, k, kc.head, nonce, plain)) else Some(SealLegacy(a, epoch0Key, nonce, plain))
    case None => if kc.head == EPOCH0 then Some(SealLegacy(a, epoch0Key, nonce, plain)) else None
  }

  datatype ReadPlan = ReadPlan(epoch: Bytes32, key: Option<Bytes32>, bodyOffset: nat)

  /** Tagged exactly when the first 32 bytes are a known epoch id other than genesis. */
  predicate Tagged(kc: Keychain, payload: Bytes) {
    |payload| >= 32 && payload[..32] != EPOCH0 && payload[..32] in kc.epochs
  }

  function Classify(kc: Keychain, payload: Bytes): (plan: ReadPlan)
    ensures plan.bodyOffset <= |payload|
  {
    if Tagged(kc, payload) then ReadPlan(payload[..32], kc.epochs[payload[..32]].key, 32)
    else ReadPlan(EPOCH0, EpochKey(kc, EPOCH0), 0)
  }

  function OpenClassified(a: Aead, kc: Keychain, payload: Bytes): Option<Bytes> {
    var plan := Classify(kc, payload);
    match plan.key
    case None => None
    case Some(k) =>
      match OpenEpoch(a, k, payload[plan.bodyOffset..])
      case Plain(p) => Some(p)
      case Short => None
      case Failed => None
  }

  // ---------------------------------------------------------------- never below the head

  /** Once the head is not genesis nothing is sealed under epoch 0: a write carries
      the head's id and is sealed under the head's key, and without that key there
      is no write. */
  lemma SealsOnlyUnderHead(a: Aead, kc: Keychain, epoch0Key: Bytes32, nonce: Bytes, plain: Bytes)
    requires kc.head != EPOCH0
    ensures var r := SealUnderHead(a, kc, epoch0Key, nonce, plain);
            && (r.Some? <==> EpochKey(kc, kc.head).Some?)
            && (r.Some? ==> |r.value| >= 32 && r.value[..32] == kc.head
                            && r.value[32..] == nonce + a.seal(EpochKey(kc, kc.head).value, nonce, plain))
  {
    var k := EpochKey(kc, kc.head);
    if k.Some? {
      var payload := SealEpoch(a, k.value, kc.head, nonce, plain);
      assert payload == kc.head + (nonce + a.seal(k.value, nonce, plain));
    }
  }

  /** At genesis a write is the untagged legacy form, with or without a held key. */
  lemma SealsLegacyAtGenesis(a: Aead, kc: Keychain, epoch0Key: Bytes32, nonce: Bytes, plain: Bytes)
    requires kc.head == EPOCH0
    ensures SealUnderHead(a, kc, epoch0Key, nonce, plain) == Some(nonce + a.seal(epoch0Key, nonce, plain))
  {}

  // ---------------------------------------------------------------- what opens

  /** `body` is a nonce and a sealing of `p` under it. */
  ghost predicate IsSealing(a: Aead, key: Bytes32, body: Bytes, p: Bytes) {
    |body| >= 24 && body[24..] == a.seal(key, body[..24], p)
  }

  lemma OpenEpochIff(a: Aead, key: Bytes32, body: Bytes, p: Bytes)
    requires Ideal(a)
    ensures OpenEpoch(a, key, body) == Plain(p) <==> IsSealing(a, key, body, p)
    ensures OpenEpoch(a, key, body) == Short <==> |body| < 24
  {
    if |body| >= 24 {
      var nonce, c := body[..24], body[24..];
      if c == a.seal(key, nonce, p) { assert a.open(key, nonce, c) == Some(p); }
      if a.open(key, nonce, c) == Some(p) { assert a.seal(key, nonce, p) == c; }
    }
  }

  /** A stored payload opens to a text exactly when it is that text sealed under the
      key of the known epoch it is tagged with, or, bearing no known tag, under the
      genesis key. */
  lemma OpensIff(a: Aead, kc: Keychain, payload: Bytes, p: Bytes)
    requires Ideal(a)
    ensures OpenClassified(a, kc, payload) == Some(p) <==>
              if |payload| >= 32 && payload[..32] != EPOCH0 && payload[..32] in kc.epochs
              then kc.epochs[payload[..32]].key.Some? && IsSealing(a, kc.epochs[payload[..32]].key.value, payload[32..], p)
              else EPOCH0 in kc.epochs && kc.epochs[EPOCH0].key.Some? && IsSealing(a, kc.epochs[EPOCH0].key.value, payload, p)
  {
    var plan := Classify(kc, payload);
    if plan.key.Some? { OpenEpochIff(a, plan.key.value, payload[plan.bodyOffset..], p); }
    assert payload[0..] == payload;
  }

  // ---------------------------------------------------------------- across devices

  /** A tagged payload that also happens to be a legacy ciphertext under epoch 0,
      read with the first 24 bytes of its epoch id as the nonce. */
  ghost predicate LegacyTwin(a: Aead, epoch0Key: Bytes32, payload: Bytes, q: Bytes) {
    |payload| >= 24 && payload[24..] == a.seal(epoch0Key, payload[..24], q)
  }

  ghost function ChainOf(hash: Hash, me: Member, epoch0Key: Bytes32, log: seq<KeyLogEntry>, head: Bytes32): Keychain {
    Keychain(Built(hash, me, epoch0Key, log), head)
  }

  lemma OpensBody(a: Aead, key: Bytes32, nonce: Bytes, plain: Bytes)
    requires Ideal(a) && |nonce| == 24
    ensures OpenEpoch(a, key, nonce + a.seal(key, nonce, plain)) == Plain(plain)
  {
    var body := nonce + a.seal(key, nonce, plain);
    assert body[..24] == nonce && body[24..] == a.seal(key, nonce, plain);
  }

  /** A payload sealed under a rotated head by one device, read by another of the
      same vault with its own log. A reader with a key for that epoch recovers the
      plaintext (or the two keys exhibit a hash collision). A reader that knows
      the epoch but not its key gets nothing. A reader that has never heard of the
      epoch gets nothing, unless the payload is a legacy ciphertext as well. */
  lemma SealThenOpen(a: Aead, hash: Hash, w: Member, r: Member, epoch0Key: Bytes32,
                     logW: seq<KeyLogEntry>, logR: seq<KeyLogEntry>, headW: Bytes32, headR: Bytes32, nonce: Bytes, plain: Bytes)
    requires Ideal(a) && |nonce| == 24 && headW != EPOCH0
    requires EpochKey(ChainOf(hash, w, epoch0Key, logW, headW), headW).Some?
    ensures var kcW, kcR := ChainOf(hash, w, epoch0Key, logW, headW), ChainOf(hash, r, epoch0Key, logR, headR);
            var sealed := SealUnderHead(a, kcW, epoch0Key, nonce, plain);
            && sealed.Some?
            && var got := OpenClassified(a, kcR, sealed.value);
               if headW !in kcR.epochs then got.None? || LegacyTwin(a, epoch0Key, sealed.value, got.value)
               else if EpochKey(kcR, headW).None? then got.None?
               else
                 var n, m := kcW.epochs[headW], kcR.epochs[headW];
                 got == Some(plain)
                 || Collision(hash, Preimage(n.parents, n.mintedBy, n.nonce, n.key.value), Preimage(m.parents, m.mintedBy, m.nonce, m.key.value))
  {
    var kcW, kcR := ChainOf(hash, w, epoch0Key, logW, headW), ChainOf(hash, r, epoch0Key, logR, headR);
    var kw := EpochKey(kcW, headW).value;
    var payload := SealUnderHead(a, kcW, epoch0Key, nonce, plain).value;
    SealsOnlyUnderHead(a, kcW, epoch0Key, nonce, plain);
    if headW in kcR.epochs {
      assert Tagged(kcR, payload);
      if EpochKey(kcR, headW).Some? {
        KeysAgree(hash, w, r, epoch0Key, epoch0Key, logW, logR, headW);
        OpensBody(a, kw, nonce, plain);
      }
    } else {
      GenesisStands(hash, r, epoch0Key, logR);
      assert payload[0..] == payload;
    }
  }

  /** A payload sealed while the head is still genesis is recovered by every device
      of the vault, as long as its first 32 bytes are not an epoch id the reader
      knows. */
  lemma LegacySealThenOpen(a: Aead, hash: Hash, w: Member, r: Member, epoch0Key: Bytes32,
                           logW: seq<KeyLogEntry>, logR: seq<KeyLogEntry>, headR: Bytes32, nonce: Bytes, plain: Bytes)
    requires Ideal(a) && |nonce| == 24
    ensures var kcW, kcR := ChainOf(hash, w, epoch0Key, logW, EPOCH0), ChainOf(hash, r, epoch0Key, logR, headR);
            var sealed := SealUnderHead(a, kcW, epoch0Key, nonce, plain);
            && sealed.Some?
            && (!Tagged(kcR, sealed.value) ==> OpenClassified(a, kcR, sealed.value) == Some(plain))
  {
    GenesisStands(hash, w, epoch0Key, logW);
    GenesisStands(hash, r, epoch0Key, logR);
    var payload := SealLegacy(a, epoch0Key, nonce, plain);
    OpensBody(a, epoch0Key, nonce, plain);
    assert payload[0..] == payload;
  }
}
