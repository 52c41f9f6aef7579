/** Laws of the keychain fold, across logs and across devices. */
module KeychainLaws {
  import opened Prelude
  import opened KeyLog
  import opened Keychain

  // ---------------------------------------------------------------- monotonicity

  lemma {:induction false} FirstRotatePrefix(log: seq<KeyLogEntry>, more: seq<KeyLogEntry>, id: Bytes32)
    requires FirstRotate(log, id).Some?
    ensures FirstRotate(log + more, id) == FirstRotate(log, id)
  {
    if more == [] {
      assert log + more == log;
    } else {
      FirstRotatePrefix(log, more[..|more| - 1], id);
      assert (log + more)[..|log + more| - 1] == log + more[..|more| - 1];
    }
  }

  lemma {:induction false} FirstKeyPrefix(hash: Hash, me: Member, node: EpochNode, id: Bytes32, log: seq<KeyLogEntry>, more: seq<KeyLogEntry>)
    requires FirstKey(hash, me, node, id, log).Some?
    ensures FirstKey(hash, me, node, id, log + more) == FirstKey(hash, me, node, id, log)
  {
    if more == [] {
      assert log + more == log;
    } else {
      FirstKeyPrefix(hash, me, node, id, log, more[..|more| - 1]);
      assert (log + more)[..|log + more| - 1] == log + more[..|more| - 1];
    }
  }

  /** Appending to the log never loses an epoch, a key or a recipient, and never
      changes an announcement or an installed key. */
  lemma FoldIsMonotone(hash: Hash, me: Member, epoch0Key: Bytes32, log: seq<KeyLogEntry>, more: seq<KeyLogEntry>, id: Bytes32)
    requires id in Built(hash, me, epoch0Key, log)
    ensures id in Built(hash, me, epoch0Key, log + more)
    ensures var n, n' := Built(hash, me, epoch0Key, log)[id], Built(hash, me, epoch0Key, log + more)[id];
            && n'.parents == n.parents && n'.mintedBy == n.mintedBy && n'.nonce == n.nonce
            && (n.key.Some? ==> n'.key == n.key)
            && n.wrappedTo <= n'.wrappedTo && (n.wrappedPaper ==> n'.wrappedPaper)
  {
    var all := log + more;
    BuiltAt(hash, me, epoch0Key, log, id);
    BuiltAt(hash, me, epoch0Key, all, id);
    if id != EPOCH0 {
      FirstRotatePrefix(log, more, id);
      FirstRotateFinds(all, id);
    }
    var node := AnnouncedNode(epoch0Key, log, id);
    ReceiveAllMeans(hash, me, node, id, log);
    ReceiveAllMeans(hash, me, node, id, all);
    if FirstKey(hash, me, node, id, log).Some? { FirstKeyPrefix(hash, me, node, id, log, more); }
    forall r | WrapsTo(log, id, r) ensures WrapsTo(all, id, r) {
      var e :| e in log && e.body.Wrap? && e.epochId == id && e.body.recipient == r;
      assert e in all;
    }
  }

  // ---------------------------------------------------------------- keys commit

  lemma {:induction false} FirstKeyCommits(hash: Hash, me: Member, node: EpochNode, id: Bytes32, log: seq<KeyLogEntry>)
    ensures FirstKey(hash, me, node, id, log).Some? ==>
              Commits(hash, node, id, FirstKey(hash, me, node, id, log).value) && WrapsTo(log, id, Device(me.peer))
  {
    if log != [] {
      FirstKeyCommits(hash, me, node, id, log[..|log| - 1]);
      assert log == log[..|log| - 1] + [log[|log| - 1]];
      WrapsToGrows(log[..|log| - 1], log[|log| - 1], id, Device(me.peer));
    }
  }

  lemma {:induction false} FirstKeyExists(hash: Hash, me: Member, node: EpochNode, id: Bytes32, log: seq<KeyLogEntry>, e: KeyLogEntry)
    requires e in log && e.epochId == id && Delivered(hash, me, node, e).Some?
    ensures FirstKey(hash, me, node, id, log).Some?
  {
    if e != log[|log| - 1] {
      FirstKeyExists(hash, me, node, id, log[..|log| - 1], e);
    }
  }

  lemma {:induction false} FirstKeyComesFrom(hash: Hash, me: Member, node: EpochNode, id: Bytes32, log: seq<KeyLogEntry>) returns (e: KeyLogEntry)
    requires FirstKey(hash, me, node, id, log).Some?
    ensures e in log && e.epochId == id && Delivered(hash, me, node, e) == FirstKey(hash, me, node, id, log)
  {
    if FirstKey(hash, me, node, id, log[..|log| - 1]).Some? {
      e := FirstKeyComesFrom(hash, me, node, id, log[..|log| - 1]);
    } else {
      e := log[|log| - 1];
    }
  }

  /** A held key reproduces its epoch's id from that epoch's announcement, and was
      delivered by a wrap addressed to this device. */
  lemma HeldKeysCommit(hash: Hash, me: Member, epoch0Key: Bytes32, log: seq<KeyLogEntry>, id: Bytes32)
    requires id in Built(hash, me, epoch0Key, log) && id != EPOCH0
    ensures var n := Built(hash, me, epoch0Key, log)[id];
            n.key.Some? ==> Commits(hash, n, id, n.key.value) && me.peer in n.wrappedTo
  {
    BuiltAt(hash, me, epoch0Key, log, id);
    var node := AnnouncedNode(epoch0Key, log, id);
    ReceiveAllMeans(hash, me, node, id, log);
    FirstKeyCommits(hash, me, node, id, log);
  }

  /** No log moves genesis: it is the one epoch with the all-zero id, it has no
      parents, and its key is always the one this device was given. */
  lemma GenesisStands(hash: Hash, me: Member, epoch0Key: Bytes32, log: seq<KeyLogEntry>)
    ensures |EPOCH0| == 32 && forall i :: 0 <= i < 32 ==> EPOCH0[i] == 0
    ensures var m := Built(hash, me, epoch0Key, log);
            && EPOCH0 in m && m[EPOCH0].key == Some(epoch0Key)
            && m[EPOCH0].parents == [] && m[EPOCH0].mintedBy == 0 && m[EPOCH0].nonce == EPOCH0
  {
    BuiltAt(hash, me, epoch0Key, log, EPOCH0);
    ReceiveAllMeans(hash, me, Genesis(epoch0Key), EPOCH0, log);
  }

  ghost predicate Collision(hash: Hash, x: Bytes, y: Bytes) { x != y && hash(x) == hash(y) }

  /** Key agreement. Two devices that hold a key for one epoch, from any two logs,
      hold the same key and agree on its announcement; if not, their two preimages
      are a collision of the hash. */
  lemma KeysAgree(hash: Hash, a: Member, b: Member, a0: Bytes32, b0: Bytes32, logA: seq<KeyLogEntry>, logB: seq<KeyLogEntry>, id: Bytes32)
    requires id != EPOCH0
    requires id in Built(hash, a, a0, logA) && Built(hash, a, a0, logA)[id].key.Some?
    requires id in Built(hash, b, b0, logB) && Built(hash, b, b0, logB)[id].key.Some?
    ensures var n, m := Built(hash, a, a0, logA)[id], Built(hash, b, b0, logB)[id];
            || (n.key == m.key && n.parents == m.parents && n.mintedBy == m.mintedBy && n.nonce == m.nonce)
            || Collision(hash, Preimage(n.parents, n.mintedBy, n.nonce, n.key.value), Preimage(m.parents, m.mintedBy, m.nonce, m.key.value))
  {
    HeldKeysCommit(hash, a, a0, logA, id);
    HeldKeysCommit(hash, b, b0, logB, id);
    var n, m := Built(hash, a, a0, logA)[id], Built(hash, b, b0, logB)[id];
    if Preimage(n.parents, n.mintedBy, n.nonce, n.key.value) == Preimage(m.parents, m.mintedBy, m.nonce, m.key.value) {
      PreimageInjective(n.parents, n.mintedBy, n.nonce, n.key.value, m.parents, m.mintedBy, m.nonce, m.key.value);
    }
  }

  ghost predicate IsFirstRotate(log: seq<KeyLogEntry>, i: nat, id: Bytes32) {
    && i < |log| && log[i].body.Rotate? && log[i].epochId == id
    && forall j :: 0 <= j < i ==> !(log[j].body.Rotate? && log[j].epochId == id)
  }

  /** A wrap of `k` for epoch `id`, addressed to `me`, where `k` with the rotation `r`
      hashes to the id. */
  ghost predicate Brings(hash: Hash, me: Member, r: KeyLogEntry, e: KeyLogEntry, id: Bytes32, k: Bytes32)
    requires r.body.Rotate?
  {
    && e.body.Wrap? && e.epochId == id && e.body.recipient == Device(me.peer)
    && me.unwrap(e.body.blob) == Some(k) && hash(Preimage(r.body.parents, r.author, r.body.nonce, k)) == id
  }

  lemma {:induction false} FirstRotateIs(log: seq<KeyLogEntry>, i: nat, id: Bytes32)
    requires IsFirstRotate(log, i, id)
    ensures FirstRotate(log, id) == Some(log[i])
  {
    var init := log[..|log| - 1];
    if i < |init| { FirstRotateIs(init, i, id); }
  }

  /** An epoch in terms of the log: announced by its first rotation, wrapped to those
      some wrap names, and with a key exactly when some wrap brings one. */
  lemma EpochMeans(hash: Hash, me: Member, epoch0Key: Bytes32, log: seq<KeyLogEntry>, i: nat, id: Bytes32)
    requires id != EPOCH0 && IsFirstRotate(log, i, id)
    ensures id in Built(hash, me, epoch0Key, log)
    ensures var n := Built(hash, me, epoch0Key, log)[id];
            && n.parents == log[i].body.parents && n.mintedBy == log[i].author && n.nonce == log[i].body.nonce
            && (forall p :: p in n.wrappedTo <==> WrapsTo(log, id, Device(p))) && (n.wrappedPaper <==> WrapsTo(log, id, Paper))
            && (n.key.Some? ==> exists e :: e in log && Brings(hash, me, log[i], e, id, n.key.value))
            && (n.key.None? ==> forall e, k :: e in log ==> !Brings(hash, me, log[i], e, id, k))
  {
    FirstRotateIs(log, i, id);
    BuiltAt(hash, me, epoch0Key, log, id);
    assert log[i] in log;
    var node := NodeOf(log[i]);
    ReceiveAllMeans(hash, me, node, id, log);
    if FirstKey(hash, me, node, id, log).Some? {
      var e := FirstKeyComesFrom(hash, me, node, id, log);
      assert Brings(hash, me, log[i], e, id, FirstKey(hash, me, node, id, log).value);
    }
    forall e, k | e in log && Brings(hash, me, log[i], e, id, k) ensures FirstKey(hash, me, node, id, log).Some? {
      FirstKeyExists(hash, me, node, id, log, e);
    }
  }

  /** No phantom epochs: whatever wraps a log holds, an epoch is genesis or was
      announced by a rotation. */
  lemma NoPhantomEpochs(hash: Hash, me: Member, epoch0Key: Bytes32, log: seq<KeyLogEntry>, id: Bytes32)
    ensures id in Built(hash, me, epoch0Key, log) <==> id == EPOCH0 || exists e :: e in log && e.body.Rotate? && e.epochId == id
  {
    BuiltAt(hash, me, epoch0Key, log, id);
  }

  // ---------------------------------------------------------------- order and duplicates

  ghost predicate SameEntries(a: seq<KeyLogEntry>, b: seq<KeyLogEntry>) { forall e :: e in a <==> e in b }

  ghost predicate Agree(d: KeyLogEntry, e: KeyLogEntry) {
    d.body.Rotate? && e.body.Rotate? && d.epochId == e.epochId && d.epochId != EPOCH0 ==>
      d.author == e.author && d.body.parents == e.body.parents && d.body.nonce == e.body.nonce
  }

  /** Rotations that announce one epoch announce the same thing. */
  ghost predicate Consistent(log: seq<KeyLogEntry>) {
    forall d, e :: d in log && e in log ==> Agree(d, e)
  }

  /** Two wraps for the epoch `r` announces that deliver different keys to this
      device, each reproducing the id. */
  ghost predicate KeyClash(hash: Hash, me: Member, r: KeyLogEntry, d: KeyLogEntry, e: KeyLogEntry) {
    && r.body.Rotate? && r.epochId != EPOCH0 && d.epochId == r.epochId && e.epochId == r.epochId
    && Delivered(hash, me, NodeOf(r), d).Some? && Delivered(hash, me, NodeOf(r), e).Some?
    && Delivered(hash, me, NodeOf(r), d) != Delivered(hash, me, NodeOf(r), e)
  }

  /** No epoch of the log is delivered under two keys. */
  ghost predicate OneKeyEach(hash: Hash, me: Member, log: seq<KeyLogEntry>) {
    forall r, d, e :: r in log && d in log && e in log ==> !KeyClash(hash, me, r, d, e)
  }

  /** Two such keys would be a collision of the hash. */
  lemma ClashIsCollision(hash: Hash, me: Member, r: KeyLogEntry, d: KeyLogEntry, e: KeyLogEntry)
    requires KeyClash(hash, me, r, d, e)
    ensures var k, k' := Delivered(hash, me, NodeOf(r), d).value, Delivered(hash, me, NodeOf(r), e).value;
            Collision(hash, Preimage(r.body.parents, r.author, r.body.nonce, k), Preimage(r.body.parents, r.author, r.body.nonce, k'))
  {
    var k, k' := Delivered(hash, me, NodeOf(r), d).value, Delivered(hash, me, NodeOf(r), e).value;
    if Preimage(r.body.parents, r.author, r.body.nonce, k) == Preimage(r.body.parents, r.author, r.body.nonce, k') {
      PreimageInjective(r.body.parents, r.author, r.body.nonce, k, r.body.parents, r.author, r.body.nonce, k');
    }
  }

  lemma SameNode(epoch0Key: Bytes32, a: seq<KeyLogEntry>, b: seq<KeyLogEntry>, id: Bytes32)
    requires SameEntries(a, b) && Consistent(a) && (id == EPOCH0 || Rotates(a, id))
    ensures (id == EPOCH0 || (FirstRotate(a, id).Some? && FirstRotate(b, id).Some?))
    ensures AnnouncedNode(epoch0Key, a, id) == AnnouncedNode(epoch0Key, b, id)
  {
    FirstRotateFinds(a, id);
    FirstRotateFinds(b, id);
    if id != EPOCH0 {
      var e :| e in a && e.body.Rotate? && e.epochId == id;
      assert e in b && Rotates(b, id);
      assert Agree(FirstRotate(a, id).value, FirstRotate(b, id).value);
    }
  }

  lemma SameKey(hash: Hash, me: Member, r: KeyLogEntry, a: seq<KeyLogEntry>, b: seq<KeyLogEntry>)
    requires SameEntries(a, b) && OneKeyEach(hash, me, a) && r in a && r.body.Rotate? && r.epochId != EPOCH0
    ensures FirstKey(hash, me, NodeOf(r), r.epochId, a) == FirstKey(hash, me, NodeOf(r), r.epochId, b)
  {
    hide FirstKey;
    var node, id := NodeOf(r), r.epochId;
    if FirstKey(hash, me, node, id, a).Some? {
      var d := FirstKeyComesFrom(hash, me, node, id, a);
      FirstKeyExists(hash, me, node, id, b, d);
      var e := FirstKeyComesFrom(hash, me, node, id, b);
      assert !KeyClash(hash, me, r, d, e);
    } else if FirstKey(hash, me, node, id, b).Some? {
      var e := FirstKeyComesFrom(hash, me, node, id, b);
      FirstKeyExists(hash, me, node, id, a, e);
    }
  }

  lemma SameRecipients(a: seq<KeyLogEntry>, b: seq<KeyLogEntry>, id: Bytes32, r: Recipient)
    requires SameEntries(a, b)
    ensures WrapsTo(a, id, r) <==> WrapsTo(b, id, r)
  {}

  /** Epochs, parents and recipients never depend on order; keys do not while each
      epoch is delivered under one. */
  lemma SameAt(hash: Hash, me: Member, epoch0Key: Bytes32, a: seq<KeyLogEntry>, b: seq<KeyLogEntry>, id: Bytes32)
    requires SameEntries(a, b) && Consistent(a) && OneKeyEach(hash, me, a)
    ensures id in Built(hash, me, epoch0Key, a) <==> id in Built(hash, me, epoch0Key, b)
    ensures id in Built(hash, me, epoch0Key, a) ==> Built(hash, me, epoch0Key, a)[id] == Built(hash, me, epoch0Key, b)[id]
  {
    BuiltAt(hash, me, epoch0Key, a, id);
    BuiltAt(hash, me, epoch0Key, b, id);
    assert Rotates(a, id) <==> Rotates(b, id);
    if id in Built(hash, me, epoch0Key, a) {
      SameNode(epoch0Key, a, b, id);
      var node := AnnouncedNode(epoch0Key, a, id);
      if id != EPOCH0 { SameKey(hash, me, FirstRotate(a, id).value, a, b); }
      ReceiveAllMeans(hash, me, node, id, a);
      ReceiveAllMeans(hash, me, node, id, b);
      forall r ensures WrapsTo(a, id, r) <==> WrapsTo(b, id, r) { SameRecipients(a, b, id, r); }
      assert Built(hash, me, epoch0Key, a)[id].wrappedTo == Built(hash, me, epoch0Key, b)[id].wrappedTo;
    }
  }

  lemma OrderDoesNotMatter(hash: Hash, me: Member, epoch0Key: Bytes32, a: seq<KeyLogEntry>, b: seq<KeyLogEntry>)
    requires SameEntries(a, b) && Consistent(a) && OneKeyEach(hash, me, a)
    ensures Built(hash, me, epoch0Key, a) == Built(hash, me, epoch0Key, b)
  {
    forall id ensures id in Built(hash, me, epoch0Key, a) <==> id in Built(hash, me, epoch0Key, b) { SameAt(hash, me, epoch0Key, a, b, id); }
    forall id | id in Built(hash, me, epoch0Key, a) ensures Built(hash, me, epoch0Key, a)[id] == Built(hash, me, epoch0Key, b)[id] {
      SameAt(hash, me, epoch0Key, a, b, id);
    }
  }

  lemma FirstEntryWins(hash: Hash, me: Member, epoch0Key: Bytes32, e: KeyLogEntry, log: seq<KeyLogEntry>)
    requires e.body.Rotate? && e.epochId != EPOCH0
    ensures e.epochId in Built(hash, me, epoch0Key, [e] + log)
    ensures var n := Built(hash, me, epoch0Key, [e] + log)[e.epochId];
            n.parents == e.body.parents && n.mintedBy == e.author && n.nonce == e.body.nonce
  {
    assert [e][..0] == [];
    assert FirstRotate([e][..0], e.epochId).None?;
    assert FirstRotate([e], e.epochId) == Some(e);
    FirstRotatePrefix([e], log, e.epochId);
    FirstRotateFinds([e] + log, e.epochId);
    BuiltAt(hash, me, epoch0Key, [e] + log, e.epochId);
    ReceiveAllMeans(hash, me, NodeOf(e), e.epochId, [e] + log);
  }

  lemma FirstKeyWins(hash: Hash, me: Member, epoch0Key: Bytes32, r: KeyLogEntry, d: KeyLogEntry, log: seq<KeyLogEntry>)
    requires r.body.Rotate? && r.epochId != EPOCH0 && d.epochId == r.epochId && Delivered(hash, me, NodeOf(r), d).Some?
    ensures r.epochId in Built(hash, me, epoch0Key, [r, d] + log)
    ensures Built(hash, me, epoch0Key, [r, d] + log)[r.epochId].key == Delivered(hash, me, NodeOf(r), d)
  {
    var id, node := r.epochId, NodeOf(r);
    assert [r, d][..1] == [r] && [r][..0] == [];
    assert FirstRotate([r], id) == Some(r);
    assert FirstKey(hash, me, node, id, [r]).None?;
    assert FirstKey(hash, me, node, id, [r, d]) == Delivered(hash, me, node, d);
    FirstRotatePrefix([r], [d] + log, id);
    assert [r] + ([d] + log) == [r, d] + log;
    FirstKeyPrefix(hash, me, node, id, [r, d], log);
    FirstRotateFinds([r, d] + log, id);
    BuiltAt(hash, me, epoch0Key, [r, d] + log, id);
    ReceiveAllMeans(hash, me, node, id, [r, d] + log);
  }

  ghost predicate Insensitive(hash: Hash, me: Member, epoch0Key: Bytes32, log: seq<KeyLogEntry>) {
    forall a, b :: SameEntries(a, log) && SameEntries(b, log) ==> Built(hash, me, epoch0Key, a) == Built(hash, me, epoch0Key, b)
  }

  /** The fold depends on the set of entries alone, not on their order or
      repetition, exactly when rotations of one epoch agree and no epoch is
      delivered under two keys. */
  lemma OrderInsensitiveIff(hash: Hash, me: Member, epoch0Key: Bytes32, log: seq<KeyLogEntry>)
    ensures Insensitive(hash, me, epoch0Key, log) <==> Consistent(log) && OneKeyEach(hash, me, log)
  {
    if !Consistent(log) {
      DisagreementShows(hash, me, epoch0Key, log);
    } else if !OneKeyEach(hash, me, log) {
      ClashShows(hash, me, epoch0Key, log);
    } else {
      forall a, b | SameEntries(a, log) && SameEntries(b, log)
        ensures Built(hash, me, epoch0Key, a) == Built(hash, me, epoch0Key, b)
      {
        OrderDoesNotMatter(hash, me, epoch0Key, log, a);
        OrderDoesNotMatter(hash, me, epoch0Key, log, b);
      }
    }
  }

  lemma DisagreementShows(hash: Hash, me: Member, epoch0Key: Bytes32, log: seq<KeyLogEntry>)
    requires !Consistent(log)
    ensures !Insensitive(hash, me, epoch0Key, log)
  {
    hide Built;
    var d, e :| d in log && e in log && !Agree(d, e);
    FirstEntryWins(hash, me, epoch0Key, d, log);
    FirstEntryWins(hash, me, epoch0Key, e, log);
    assert SameEntries([d] + log, log) && SameEntries([e] + log, log);
    assert Built(hash, me, epoch0Key, [d] + log) != Built(hash, me, epoch0Key, [e] + log);
  }

  lemma ClashShows(hash: Hash, me: Member, epoch0Key: Bytes32, log: seq<KeyLogEntry>)
    requires !OneKeyEach(hash, me, log)
    ensures !Insensitive(hash, me, epoch0Key, log)
  {
    hide Built, Delivered;
    var r, d, e :| r in log && d in log && e in log && KeyClash(hash, me, r, d, e);
    FirstKeyWins(hash, me, epoch0Key, r, d, log);
    FirstKeyWins(hash, me, epoch0Key, r, e, log);
    assert SameEntries([r, d] + log, log) && SameEntries([r, e] + log, log);
    assert Built(hash, me, epoch0Key, [r, d] + log) != Built(hash, me, epoch0Key, [r, e] + log);
  }

  /** A nonce, and an id, unlike genesis. */
  const ONES: Bytes32 := [1, 1, 1, 1, 1, 1, 1, 1, 1, 1, 1, 1, 1, 1, 1, 1, 1, 1, 1, 1, 1, 1, 1, 1, 1, 1, 1, 1, 1, 1, 1, 1]

  /** Two members announce one id with different nonces. */
  function Claim(nonce: Bytes32): KeyLogEntry { KeyLogEntry(0, 7, ONES, Rotate([], nonce)) }

  /** The same two entries in the two orders build different epochs, on every device. */
  lemma RotationOrderMatters(hash: Hash, me: Member, epoch0Key: Bytes32)
    ensures Built(hash, me, epoch0Key, [Claim(EPOCH0), Claim(ONES)]) != Built(hash, me, epoch0Key, [Claim(ONES), Claim(EPOCH0)])
  {
    assert ONES[0] != EPOCH0[0];
    var d, e := Claim(EPOCH0), Claim(ONES);
    assert [d] + [e] == [d, e] && [e] + [d] == [e, d];
    FirstEntryWins(hash, me, epoch0Key, d, [e]);
    FirstEntryWins(hash, me, epoch0Key, e, [d]);
  }
}
