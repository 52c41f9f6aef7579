/** The epoch DAG: building it, its leaves, and the write head. */
module EpochDag {
  import opened Prelude
  import opened ByteOrder
  import opened KeyLog
  import opened Keychain
  import opened KeychainLaws

  ghost predicate IsLeast(s: set<Bytes32>, x: Bytes32) {
    x in s && forall y :: y in s && y != x ==> Less(x, y)
  }

  lemma LeastIsUnique(s: set<Bytes32>, x: Bytes32, y: Bytes32)
    requires IsLeast(s, x) && IsLeast(s, y)
    ensures x == y
  {
    LessTotal(x, y);
  }

  method Least(s: set<Bytes32>) returns (x: Bytes32)
    requires s != {}
    ensures IsLeast(s, x)
  {
    x :| x in s;
    var todo := s - {x};
    while todo != {}
      invariant todo <= s && x !in todo && IsLeast(s - todo, x)
      decreases |todo|
    {
      var y :| y in todo;
      todo := todo - {y};
      LessTotal(x, y);
      if Less(y, x) {
        forall z | z in s - todo && z != y ensures Less(y, z) {
          if z != x { LessTrans(y, x, z); }
        }
        x := y;
      }
    }
    assert s - todo == s;
  }

  /** At the first byte where the two differ, `a` has the smaller one. */
  ghost predicate SmallerFirst(a: Bytes32, b: Bytes32) {
    exists i :: 0 <= i < 32 && a[..i] == b[..i] && a[i] < b[i]
  }

  lemma LessIsSmallerFirst(a: Bytes32, b: Bytes32)
    ensures Less(a, b) <==> SmallerFirst(a, b)
  {
    LessIff(a, b);
    if i: nat :| ComesFirst(a, b, i) { assert i < 32 && a[..i] == b[..i] && a[i] < b[i]; }
    if i :| 0 <= i < 32 && a[..i] == b[..i] && a[i] < b[i] { assert ComesFirst(a, b, i); }
  }

  ghost predicate Ascending(q: seq<Bytes32>) { forall i, j :: 0 <= i < j < |q| ==> Less(q[i], q[j]) }

  /** The keys of an ordered map, in order. */
  method InOrder(s: set<Bytes32>) returns (q: seq<Bytes32>)
    ensures Ascending(q) && forall x :: x in q <==> x in s
  {
    q := [];
    var todo := s;
    while todo != {}
      invariant todo <= s && Ascending(q) && (forall x :: x in q <==> x in s - todo)
      invariant forall x, y :: x in q && y in todo ==> Less(x, y)
      decreases |todo|
    {
      var x := Least(todo);
      todo := todo - {x};
      q := q + [x];
    }
  }

  lemma ComesOnce(q: seq<Bytes32>, i: nat)
    requires Ascending(q) && i < |q|
    ensures q[i] !in q[..i]
  {
    LessTotal(q[i], q[i]);
  }

  // ---------------------------------------------------------------- leaves and head

  ghost predicate IsParent(m: Epochs, id: Bytes32) {
    exists x :: x in m && id in m[x].parents
  }

  ghost predicate Leaf(m: Epochs, id: Bytes32) { id in m && !IsParent(m, id) }

  ghost function Leaves(m: Epochs): set<Bytes32> { set id | id in m && Leaf(m, id) }

  /** The write head: the least leaf, or genesis when a cycle leaves none. */
  ghost predicate IsHead(m: Epochs, h: Bytes32) {
    if Leaves(m) == {} then h == EPOCH0 else IsLeast(Leaves(m), h)
  }

  /** The leaves in order, or genesis alone when a cycle leaves none. */
  ghost predicate AreDagHeads(m: Epochs, q: seq<Bytes32>) {
    if Leaves(m) == {} then q == [EPOCH0] else Ascending(q) && forall x :: x in q <==> x in Leaves(m)
  }

  method Parents(m: Epochs) returns (ps: set<Bytes32>)
    ensures forall id :: id in ps <==> IsParent(m, id)
  {
    ps := {};
    var todo := m.Keys;
    while todo != {}
      invariant todo <= m.Keys
      invariant forall id :: id in ps <==> exists x :: x in m.Keys - todo && id in m[x].parents
      decreases |todo|
    {
      var x :| x in todo;
      todo := todo - {x};
      ps := ps + (set p | p in m[x].parents);
    }
    assert m.Keys - todo == m.Keys;
  }

  method SelectHead(m: Epochs) returns (h: Bytes32)
    ensures IsHead(m, h)
    ensures forall x :: x in Leaves(m) && x != h ==> SmallerFirst(h, x)
  {
    hide Less;
    var isParent := Parents(m);
    var leaves := set id | id in m && id !in isParent;
    assert leaves == Leaves(m);
    if leaves == {} {
      return EPOCH0;
    }
    h := Least(leaves);
    forall x | x in Leaves(m) && x != h ensures SmallerFirst(h, x) {
      LessIsSmallerFirst(h, x);
    }
  }

  method DagHeads(m: Epochs) returns (heads: seq<Bytes32>)
    ensures AreDagHeads(m, heads)
    ensures forall i, j :: 0 <= i < j < |heads| ==> SmallerFirst(heads[i], heads[j])
  {
    var isParent := Parents(m);
    var keys := InOrder(m.Keys);
    heads := [];
    for i := 0 to |keys|
      invariant Ascending(heads) && forall x :: x in heads <==> x in keys[..i] && x !in isParent
      invariant forall x :: x in heads ==> x in keys[..i]
    {
      assert keys[..i + 1] == keys[..i] + [keys[i]];
      if keys[i] !in isParent {
        forall j | 0 <= j < |heads| ensures Less(heads[j], keys[i]) {
          assert heads[j] in keys[..i];
          var l :| 0 <= l < i && keys[..i][l] == heads[j];
          assert Less(keys[l], keys[i]);
        }
        heads := heads + [keys[i]];
      }
    }
    assert keys[..|keys|] == keys;
    assert forall x :: x in heads <==> x in Leaves(m);
    if heads == [] {
      assert Leaves(m) == {};
      heads := [EPOCH0];
    } else {
      assert heads[0] in Leaves(m);
      forall i, j | 0 <= i < j < |heads| ensures SmallerFirst(heads[i], heads[j]) {
        LessIsSmallerFirst(heads[i], heads[j]);
      }
    }
  }

  /** The head is the first of the DAG heads. */
  lemma HeadIsFirst(m: Epochs, h: Bytes32, q: seq<Bytes32>)
    requires IsHead(m, h) && AreDagHeads(m, q)
    ensures q != [] && q[0] == h
  {
    if Leaves(m) != {} {
      assert h in q;
      var i :| 0 <= i < |q| && q[i] == h;
      if i > 0 {
        assert Less(q[0], h) && q[0] in Leaves(m);
        LessTotal(q[0], h);
      }
    }
  }

  // ---------------------------------------------------------------- building

  /** First pass: genesis, and the first rotation of each id. */
  method Announce(epoch0Key: Bytes32, log: seq<KeyLogEntry>) returns (epochs: Epochs)
    ensures epochs == Announced(epoch0Key, log)
  {
    epochs := map[EPOCH0 := Genesis(epoch0Key)];
    assert log[..0] == [];
    for i := 0 to |log|
      invariant epochs == Announced(epoch0Key, log[..i])
    {
      assert log[..i + 1][..i] == log[..i];
      var e := log[i];
      if e.body.Rotate? && e.epochId !in epochs {
        epochs := epochs[e.epochId := EpochNode(e.body.parents, e.author, e.body.nonce, None, {}, false)];
      }
    }
    assert log[..|log|] == log;
  }

  /** Second pass: who each known epoch is wrapped to, and the keys that are ours. */
  method Attach(hash: Hash, me: Member, nodes: Epochs, log: seq<KeyLogEntry>) returns (epochs: Epochs)
    ensures epochs == Attached(hash, me, nodes, log)
  {
    hide Preimage;
    epochs := nodes;
    assert log[..0] == [];
    for i := 0 to |log|
      invariant epochs == Attached(hash, me, nodes, log[..i])
    {
      assert log[..i + 1][..i] == log[..i];
      var e := log[i];
      if e.body.Wrap? && e.epochId in epochs {
        var node := epochs[e.epochId];
        match e.body.recipient {
          case Paper =>
            node := node.(wrappedPaper := true);
          case Device(p) =>
            node := node.(wrappedTo := node.wrappedTo + {p});
            if p == me.peer && node.key.None? {
              var found := me.unwrap(e.body.blob);
              if found.Some? {
                var id := ComputeEpochId(hash, node.parents, node.mintedBy, node.nonce, found.value);
                if id == e.epochId {
                  node := node.(key := found);
                }
              }
            }
        }
        epochs := epochs[e.epochId := node];
      }
    }
    assert log[..|log|] == log;
  }

  /** Fold a log into a keychain: genesis, then rotations, then wraps. */
  method Build(hash: Hash, me: Member, epoch0Key: Bytes32, log: seq<KeyLogEntry>) returns (kc: Keychain)
    ensures kc.epochs == Built(hash, me, epoch0Key, log) && IsHead(kc.epochs, kc.head)
  {
    hide Announced;
    hide Attached;
    var nodes := Announce(epoch0Key, log);
    var epochs := Attach(hash, me, nodes, log);
    var head := SelectHead(epochs);
    kc := Keychain(epochs, head);
  }

  // ---------------------------------------------------------------- rotation

  /** `m'` is `m` with one more epoch, parented on all of `m`'s DAG heads. */
  ghost predicate Extends(m: Epochs, m': Epochs, id: Bytes32) {
    && (forall x :: x in m' <==> x in m || x == id)
    && (forall x :: x in m ==> m'[x].parents == m[x].parents)
    && id !in m && !IsParent(m, id) && EPOCH0 in m && AreDagHeads(m, m'[id].parents)
  }

  lemma OldLeavesAreParents(m: Epochs, m': Epochs, id: Bytes32, x: Bytes32)
    requires Extends(m, m', id) && x in m
    ensures IsParent(m', x)
  {
    if IsParent(m, x) {
      var y :| y in m && x in m[y].parents;
      assert y in m' && x in m'[y].parents;
    } else {
      assert x in Leaves(m);
      assert id in m' && x in m'[id].parents;
    }
  }

  lemma NewIdIsLeaf(m: Epochs, m': Epochs, id: Bytes32)
    requires Extends(m, m', id)
    ensures Leaf(m', id)
  {
    forall y | y in m' ensures id !in m'[y].parents {
      if y == id {
        assert forall x :: x in m'[id].parents ==> x in m;
      } else {
        assert y in m;
      }
    }
  }

  lemma OnlyLeaf(m: Epochs, m': Epochs, id: Bytes32)
    requires Extends(m, m', id)
    ensures Leaves(m') == {id} && IsHead(m', id)
  {
    forall x | x in m' && x != id ensures !Leaf(m', x) { OldLeavesAreParents(m, m', id, x); }
    NewIdIsLeaf(m, m', id);
  }

  /** A rotation under a fresh id, parented on all DAG heads, becomes the only leaf
      and so the head, whatever shape the DAG had. */
  lemma RotationBecomesHead(hash: Hash, me: Member, epoch0Key: Bytes32, log: seq<KeyLogEntry>, e: KeyLogEntry)
    requires e.body.Rotate?
    requires var m := Built(hash, me, epoch0Key, log);
             AreDagHeads(m, e.body.parents) && e.epochId !in m && !IsParent(m, e.epochId)
    ensures var m' := Built(hash, me, epoch0Key, log + [e]);
            Leaves(m') == {e.epochId} && IsHead(m', e.epochId)
  {
    RotationAdds(hash, me, epoch0Key, log, e);
    BuiltAt(hash, me, epoch0Key, log, EPOCH0);
    OnlyLeaf(Built(hash, me, epoch0Key, log), Built(hash, me, epoch0Key, log + [e]), e.epochId);
  }

  lemma RotationAdds(hash: Hash, me: Member, epoch0Key: Bytes32, log: seq<KeyLogEntry>, e: KeyLogEntry)
    requires e.body.Rotate? && e.epochId !in Built(hash, me, epoch0Key, log)
    ensures var m, m' := Built(hash, me, epoch0Key, log), Built(hash, me, epoch0Key, log + [e]);
            && (forall x :: x in m' <==> x in m || x == e.epochId)
            && (forall x :: x in m ==> m'[x].parents == m[x].parents)
            && m'[e.epochId].parents == e.body.parents
  {
    var m, m', all := Built(hash, me, epoch0Key, log), Built(hash, me, epoch0Key, log + [e]), log + [e];
    forall x ensures x in m' <==> x in m || x == e.epochId {
      BuiltAt(hash, me, epoch0Key, log, x);
      BuiltAt(hash, me, epoch0Key, all, x);
      if Rotates(all, x) {
        var d :| d in all && d.body.Rotate? && d.epochId == x;
        assert d in log || d == e;
      }
      if x == e.epochId { assert e in all; }
      if Rotates(log, x) {
        var d :| d in log && d.body.Rotate? && d.epochId == x;
        assert d in all;
      }
    }
    forall x | x in m ensures m'[x].parents == m[x].parents { FoldIsMonotone(hash, me, epoch0Key, log, [e], x); }
    BuiltAt(hash, me, epoch0Key, log, e.epochId);
    BuiltAt(hash, me, epoch0Key, all, e.epochId);
    FirstRotateFinds(log, e.epochId);
    assert all[..|all| - 1] == log && all[|all| - 1] == e;
    assert FirstRotate(all, e.epochId) == Some(e);
    ReceiveAllMeans(hash, me, NodeOf(e), e.epochId, all);
  }

  // ---------------------------------------------------------------- one head for all

  lemma SameParentsSameHead(m: Epochs, m': Epochs, head: Bytes32)
    requires m.Keys == m'.Keys && IsHead(m, head)
    requires forall id :: id in m ==> m'[id].parents == m[id].parents
    ensures IsHead(m', head)
  {
    forall id ensures IsParent(m', id) <==> IsParent(m, id) {
      if x :| x in m && id in m[x].parents { assert x in m' && id in m'[x].parents; }
      if x :| x in m' && id in m'[x].parents { assert x in m && id in m[x].parents; }
    }
    assert Leaves(m') == Leaves(m);
  }

  lemma HeadIsUnique(m: Epochs, h: Bytes32, h': Bytes32)
    requires IsHead(m, h) && IsHead(m, h')
    ensures h == h'
  {
    if Leaves(m) != {} { LeastIsUnique(Leaves(m), h, h'); }
  }

  lemma SameParentsAt(hash: Hash, a: Member, b: Member, a0: Bytes32, b0: Bytes32, logA: seq<KeyLogEntry>, logB: seq<KeyLogEntry>, id: Bytes32)
    requires SameEntries(logA, logB) && Consistent(logA)
    ensures id in Built(hash, a, a0, logA) <==> id in Built(hash, b, b0, logB)
    ensures id in Built(hash, a, a0, logA) ==> Built(hash, a, a0, logA)[id].parents == Built(hash, b, b0, logB)[id].parents
  {
    BuiltAt(hash, a, a0, logA, id);
    BuiltAt(hash, b, b0, logB, id);
    assert Rotates(logA, id) <==> Rotates(logB, id);
    if id in Built(hash, a, a0, logA) {
      SameNode(a0, logA, logB, id);
      ReceiveAllMeans(hash, a, AnnouncedNode(a0, logA, id), id, logA);
      ReceiveAllMeans(hash, b, AnnouncedNode(b0, logB, id), id, logB);
    }
  }

  /** Any two devices whose logs hold the same entries, in whatever order, write
      under one head, whichever keys they hold. */
  lemma SameEntriesSameHead(hash: Hash, a: Member, b: Member, a0: Bytes32, b0: Bytes32, logA: seq<KeyLogEntry>, logB: seq<KeyLogEntry>,
                            headA: Bytes32, headB: Bytes32)
    requires SameEntries(logA, logB) && Consistent(logA)
    requires IsHead(Built(hash, a, a0, logA), headA) && IsHead(Built(hash, b, b0, logB), headB)
    ensures headA == headB
  {
    var m, m' := Built(hash, a, a0, logA), Built(hash, b, b0, logB);
    forall id ensures id in m <==> id in m' { SameParentsAt(hash, a, b, a0, b0, logA, logB, id); }
    forall id | id in m ensures m'[id].parents == m[id].parents { SameParentsAt(hash, a, b, a0, b0, logA, logB, id); }
    SameParentsSameHead(m, m', headA);
    HeadIsUnique(m', headA, headB);
  }
}
