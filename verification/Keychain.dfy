/** The epoch keychain: a two-pass fold of the key log into a DAG of epochs, each
    with the key its id commits to. */
module Keychain {
  import opened Prelude
  import opened KeyLog

  /** The genesis epoch's id; its ciphertext is written untagged. */
  const EPOCH0: Bytes32 :=
    [0, 0, 0, 0, 0, 0, 0, 0, 0, 0, 0, 0, 0, 0, 0, 0, 0, 0, 0, 0, 0, 0, 0, 0, 0, 0, 0, 0, 0, 0, 0, 0]

  datatype EpochNode = EpochNode(
    parents: seq<Bytes32>,
    mintedBy: u64,
    nonce: Bytes32,
    key: Option<Bytes32>,   // None: announced, but not deliverable here yet
    wrappedTo: set<u64>,
    wrappedPaper: bool)

  type Epochs = map<Bytes32, EpochNode>

  datatype Keychain = Keychain(epochs: Epochs, head: Bytes32)

  /** Any hash with 32-byte digests. Nothing here assumes it has no collisions:
      where that matters a result says so, or exhibits the collision. */
  type Hash = Bytes -> Bytes32

  /** This device: its peer id and what its unwrap secret opens. */
  datatype Member = Member(peer: u64, unwrap: Bytes -> Option<Bytes32>)

  // ---------------------------------------------------------------- epoch ids

  function Flatten(ps: seq<Bytes32>): Bytes {
    if ps == [] then [] else Flatten(ps[..|ps| - 1]) + ps[|ps| - 1]
  }

  /** What an epoch id is the hash of: parents, minter, nonce and key, end to end. */
  function Preimage(parents: seq<Bytes32>, mintedBy: u64, nonce: Bytes32, key: Bytes32): Bytes {
    Flatten(parents) + U64Le(mintedBy) + nonce + key
  }

  method ComputeEpochId(hash: Hash, parents: seq<Bytes32>, mintedBy: u64, nonce: Bytes32, key: Bytes32) returns (id: Bytes32)
    ensures id == hash(Preimage(parents, mintedBy, nonce, key))
  {
    var input: Bytes := [];
    for i := 0 to |parents|
      invariant input == Flatten(parents[..i])
    {
      assert parents[..i + 1][..i] == parents[..i];
      input := input + parents[i];
    }
    assert parents[..|parents|] == parents;
    input := input + U64Le(mintedBy);
    input := input + nonce;
    input := input + key;
    id := hash(input);
  }

  lemma {:induction false} FlattenInjective(ps: seq<Bytes32>, qs: seq<Bytes32>)
    requires Flatten(ps) == Flatten(qs)
    ensures ps == qs
  {
    FlattenLength(ps);
    FlattenLength(qs);
    if ps != [] {
      SplitEqualTail(Flatten(ps[..|ps| - 1]), ps[|ps| - 1], Flatten(qs[..|qs| - 1]), qs[|qs| - 1]);
      FlattenInjective(ps[..|ps| - 1], qs[..|qs| - 1]);
      assert ps == ps[..|ps| - 1] + [ps[|ps| - 1]] && qs == qs[..|qs| - 1] + [qs[|qs| - 1]];
    }
  }

  lemma {:induction false} FlattenLength(ps: seq<Bytes32>)
    ensures |Flatten(ps)| == 32 * |ps|
  {
    if ps != [] {
      FlattenLength(ps[..|ps| - 1]);
    }
  }

  /** The preimage has no length prefixes, and needs none: everything after the
      parents has a fixed width. */
  lemma PreimageInjective(ps: seq<Bytes32>, m: u64, n: Bytes32, k: Bytes32, ps': seq<Bytes32>, m': u64, n': Bytes32, k': Bytes32)
    requires Preimage(ps, m, n, k) == Preimage(ps', m', n', k')
    ensures ps == ps' && m == m' && n == n' && k == k'
  {
    SplitEqualTail(Flatten(ps) + U64Le(m) + n, k, Flatten(ps') + U64Le(m') + n', k');
    SplitEqualTail(Flatten(ps) + U64Le(m), n, Flatten(ps') + U64Le(m'), n');
    SplitEqualTail(Flatten(ps), U64Le(m), Flatten(ps'), U64Le(m'));
    U64LeInjective(m, m');
    FlattenInjective(ps, ps');
  }

  // ---------------------------------------------------------------- the fold

  /** Where each part of the preimage stands. */
  lemma PreimageLayout(parents: seq<Bytes32>, mintedBy: u64, nonce: Bytes32, key: Bytes32)
    ensures var b, n := Preimage(parents, mintedBy, nonce, key), 32 * |parents|;
            |b| == n + 72 && b[..n] == Flatten(parents) && FromLittleEndian(b[n..n + 8]) == mintedBy && b[n + 8..n + 40] == nonce && b[n + 40..] == key
  {
    var b, f := Preimage(parents, mintedBy, nonce, key), Flatten(parents);
    hide U64Le, Flatten;
    FlattenLength(parents);
    Regroup(f, U64Le(mintedBy), nonce);
    Regroup(f, U64Le(mintedBy) + nonce, key);
    Regroup(U64Le(mintedBy), nonce, key);
    Field(b, 0, f, U64Le(mintedBy) + (nonce + key));
    Field(b, |f|, U64Le(mintedBy), nonce + key);
    Field(b, |f| + 8, nonce, key);
    U64LeReads(mintedBy);
    assert b[..|f|] == b[0..|f|];
  }

  function Genesis(epoch0Key: Bytes32): EpochNode { EpochNode([], 0, EPOCH0, Some(epoch0Key), {}, false) }

  function Announce(m: Epochs, e: KeyLogEntry): Epochs {
    if e.body.Rotate? && e.epochId !in m
    then m[e.epochId := EpochNode(e.body.parents, e.author, e.body.nonce, None, {}, false)]
    else m
  }

  /** First pass: rotations announce epochs; the first announcement of an id wins. */
  ghost function Announced(epoch0Key: Bytes32, log: seq<KeyLogEntry>): Epochs {
    if log == [] then map[EPOCH0 := Genesis(epoch0Key)]
    else Announce(Announced(epoch0Key, log[..|log| - 1]), log[|log| - 1])
  }

  predicate Commits(hash: Hash, node: EpochNode, id: Bytes32, k: Bytes32) {
    hash(Preimage(node.parents, node.mintedBy, node.nonce, k)) == id
  }

  /** The key a wrap delivers to this device, if it is addressed here, opens, and
      reproduces the id. */
  function Delivered(hash: Hash, me: Member, node: EpochNode, e: KeyLogEntry): Option<Bytes32> {
    if e.body.Wrap? && e.body.recipient == Device(me.peer) then
      match me.unwrap(e.body.blob)
      case None => None
      case Some(k) => if Commits(hash, node, e.epochId, k) then Some(k) else None
    else None
  }

  function Receive(hash: Hash, me: Member, node: EpochNode, e: KeyLogEntry): EpochNode
    requires e.body.Wrap?
  {
    match e.body.recipient
    case Paper => node.(wrappedPaper := true)
    case Device(p) =>
      node.(wrappedTo := node.wrappedTo + {p}, key := if node.key.Some? then node.key else Delivered(hash, me, node, e))
  }

  function Deliver(hash: Hash, me: Member, m: Epochs, e: KeyLogEntry): Epochs {
    if e.body.Wrap? && e.epochId in m then m[e.epochId := Receive(hash, me, m[e.epochId], e)] else m
  }

  /** Second pass: wraps record recipients and install our keys. */
  ghost function Attached(hash: Hash, me: Member, nodes: Epochs, log: seq<KeyLogEntry>): Epochs {
    if log == [] then nodes else Deliver(hash, me, Attached(hash, me, nodes, log[..|log| - 1]), log[|log| - 1])
  }

  ghost function Built(hash: Hash, me: Member, epoch0Key: Bytes32, log: seq<KeyLogEntry>): Epochs {
    Attached(hash, me, Announced(epoch0Key, log), log)
  }

  // ---------------------------------------------------------------- what the fold yields, id by id

  ghost predicate Rotates(log: seq<KeyLogEntry>, id: Bytes32) {
    exists e :: e in log && e.body.Rotate? && e.epochId == id
  }

  ghost function FirstRotate(log: seq<KeyLogEntry>, id: Bytes32): (r: Option<KeyLogEntry>)
    ensures r.Some? ==> r.value in log && r.value.body.Rotate? && r.value.epochId == id
  {
    if log == [] then None else
      match FirstRotate(log[..|log| - 1], id)
      case Some(e) => Some(e)
      case None => if log[|log| - 1].body.Rotate? && log[|log| - 1].epochId == id then Some(log[|log| - 1]) else None
  }

  lemma {:induction false} FirstRotateFinds(log: seq<KeyLogEntry>, id: Bytes32)
    ensures FirstRotate(log, id).Some? <==> Rotates(log, id)
  {
    if log != [] {
      var init, last := log[..|log| - 1], log[|log| - 1];
      FirstRotateFinds(init, id);
      assert log == init + [last];
      assert forall e :: e in log <==> e in init || e == last;
      if Rotates(init, id) { assert Rotates(log, id); }
      if last.body.Rotate? && last.epochId == id { assert last in log; }
    }
  }

  ghost function NodeOf(e: KeyLogEntry): EpochNode
    requires e.body.Rotate?
  {
    EpochNode(e.body.parents, e.author, e.body.nonce, None, {}, false)
  }

  ghost function AnnouncedNode(epoch0Key: Bytes32, log: seq<KeyLogEntry>, id: Bytes32): EpochNode
    requires id == EPOCH0 || FirstRotate(log, id).Some?
  {
    if id == EPOCH0 then Genesis(epoch0Key) else NodeOf(FirstRotate(log, id).value)
  }

  lemma {:induction false} AnnouncedAt(epoch0Key: Bytes32, log: seq<KeyLogEntry>, id: Bytes32)
    ensures id in Announced(epoch0Key, log) <==> id == EPOCH0 || FirstRotate(log, id).Some?
    ensures id in Announced(epoch0Key, log) ==> Announced(epoch0Key, log)[id] == AnnouncedNode(epoch0Key, log, id)
  {
    if log != [] {
      AnnouncedAt(epoch0Key, log[..|log| - 1], id);
    }
  }

  /** One node through the second pass: only wraps under its own id reach it. */
  ghost function ReceiveAll(hash: Hash, me: Member, node: EpochNode, id: Bytes32, log: seq<KeyLogEntry>): EpochNode {
    if log == [] then node else
      var n, e := ReceiveAll(hash, me, node, id, log[..|log| - 1]), log[|log| - 1];
      if e.body.Wrap? && e.epochId == id then Receive(hash, me, n, e) else n
  }

  lemma {:induction false} AttachedAt(hash: Hash, me: Member, nodes: Epochs, log: seq<KeyLogEntry>, id: Bytes32)
    ensures id in Attached(hash, me, nodes, log) <==> id in nodes
    ensures id in nodes ==> Attached(hash, me, nodes, log)[id] == ReceiveAll(hash, me, nodes[id], id, log)
  {
    if log != [] {
      AttachedAt(hash, me, nodes, log[..|log| - 1], id);
    }
  }

  /** The key the wraps deliver: the first that commits. */
  ghost function FirstKey(hash: Hash, me: Member, node: EpochNode, id: Bytes32, log: seq<KeyLogEntry>): Option<Bytes32> {
    if log == [] then None else
      match FirstKey(hash, me, node, id, log[..|log| - 1])
      case Some(k) => Some(k)
      case None => if log[|log| - 1].epochId == id then Delivered(hash, me, node, log[|log| - 1]) else None
  }

  ghost predicate WrapsTo(log: seq<KeyLogEntry>, id: Bytes32, r: Recipient) {
    exists e :: e in log && e.body.Wrap? && e.epochId == id && e.body.recipient == r
  }

  lemma {:induction false} ReceivedKey(hash: Hash, me: Member, node: EpochNode, id: Bytes32, log: seq<KeyLogEntry>)
    ensures var n := ReceiveAll(hash, me, node, id, log);
            && n.parents == node.parents && n.mintedBy == node.mintedBy && n.nonce == node.nonce
            && n.key == (if node.key.Some? then node.key else FirstKey(hash, me, node, id, log))
  {
    if log != [] {
      hide Preimage;
      ReceivedKey(hash, me, node, id, log[..|log| - 1]);
    }
  }

  lemma {:induction false} ReceivedBy(hash: Hash, me: Member, node: EpochNode, id: Bytes32, log: seq<KeyLogEntry>, p: u64)
    ensures var n := ReceiveAll(hash, me, node, id, log);
            && (p in n.wrappedTo <==> p in node.wrappedTo || WrapsTo(log, id, Device(p)))
            && (n.wrappedPaper <==> node.wrappedPaper || WrapsTo(log, id, Paper))
  {
    if log != [] {
      hide Delivered, WrapsTo;
      var init, last := log[..|log| - 1], log[|log| - 1];
      ReceivedBy(hash, me, node, id, init, p);
      assert log == init + [last];
      WrapsToGrows(init, last, id, Device(p));
      WrapsToGrows(init, last, id, Paper);
    } else {
      assert !WrapsTo(log, id, Device(p)) && !WrapsTo(log, id, Paper);
    }
  }

  /** The node in closed form: its announcement, every recipient wrapped to, and
      the first key that commits. */
  lemma {:induction false} ReceiveAllMeans(hash: Hash, me: Member, node: EpochNode, id: Bytes32, log: seq<KeyLogEntry>)
    ensures var n := ReceiveAll(hash, me, node, id, log);
            && n.parents == node.parents && n.mintedBy == node.mintedBy && n.nonce == node.nonce
            && n.key == (if node.key.Some? then node.key else FirstKey(hash, me, node, id, log))
            && (forall p :: p in n.wrappedTo <==> p in node.wrappedTo || WrapsTo(log, id, Device(p)))
            && (n.wrappedPaper <==> node.wrappedPaper || WrapsTo(log, id, Paper))
  {
    hide ReceiveAll, FirstKey, WrapsTo;
    ReceivedKey(hash, me, node, id, log);
    ReceivedBy(hash, me, node, id, log, me.peer);
    forall p: u64 ensures p in ReceiveAll(hash, me, node, id, log).wrappedTo <==> p in node.wrappedTo || WrapsTo(log, id, Device(p)) {
      ReceivedBy(hash, me, node, id, log, p);
    }
  }

  lemma WrapsToGrows(init: seq<KeyLogEntry>, last: KeyLogEntry, id: Bytes32, r: Recipient)
    ensures WrapsTo(init + [last], id, r) <==> WrapsTo(init, id, r) || (last.body.Wrap? && last.epochId == id && last.body.recipient == r)
  {
    if e :| e in init && e.body.Wrap? && e.epochId == id && e.body.recipient == r { assert e in init + [last]; }
    if last.body.Wrap? && last.epochId == id && last.body.recipient == r { assert last in init + [last]; }
  }

  lemma {:induction false} BuiltAt(hash: Hash, me: Member, epoch0Key: Bytes32, log: seq<KeyLogEntry>, id: Bytes32)
    ensures id in Built(hash, me, epoch0Key, log) <==> id == EPOCH0 || Rotates(log, id)
    ensures id in Built(hash, me, epoch0Key, log) ==>
              && (id == EPOCH0 || FirstRotate(log, id).Some?)
              && Built(hash, me, epoch0Key, log)[id] == ReceiveAll(hash, me, AnnouncedNode(epoch0Key, log, id), id, log)
  {
    AnnouncedAt(epoch0Key, log, id);
    AttachedAt(hash, me, Announced(epoch0Key, log), log, id);
    FirstRotateFinds(log, id);
  }
}
