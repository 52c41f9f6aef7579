/** Wrap back-fill: which keys this device should still deliver, and to whom. */
module Backfill {
  import opened Prelude
  import opened KeyLog
  import opened Keychain
  import opened KeychainLaws
  import opened EpochDag

  datatype PeerRecord = PeerRecord(peerId: u64, active: bool)

  /** One wrap to publish. */
  datatype Target = Target(epoch: Bytes32, key: Bytes32, peer: u64)

  ghost predicate Current(roster: seq<PeerRecord>, p: u64) { PeerRecord(p, true) in roster }

  ghost predicate EachPeerOnce(roster: seq<PeerRecord>) {
    forall i, j :: 0 <= i < j < |roster| ==> roster[i].peerId != roster[j].peerId
  }

  /** An epoch past genesis that this device can open, and a current member nobody
      has wrapped it to. */
  ghost predicate IsTarget(m: Epochs, roster: seq<PeerRecord>, t: Target) {
    && t.epoch in m && t.epoch != EPOCH0 && m[t.epoch].key == Some(t.key)
    && Current(roster, t.peer) && t.peer !in m[t.epoch].wrappedTo
  }

  /** One epoch's share of the targets. */
  method EpochTargets(epoch: Bytes32, key: Bytes32, wrappedTo: set<u64>, roster: seq<PeerRecord>) returns (out: seq<Target>)
    ensures forall t :: t in out <==> t.epoch == epoch && t.key == key && Current(roster, t.peer) && t.peer !in wrappedTo
    ensures EachPeerOnce(roster) ==> Distinct(out)
  {
    out := [];
    for j := 0 to |roster|
      invariant forall t :: t in out <==> t.epoch == epoch && t.key == key && Current(roster[..j], t.peer) && t.peer !in wrappedTo
      invariant EachPeerOnce(roster) ==> Distinct(out)
    {
      assert roster[..j + 1] == roster[..j] + [roster[j]];
      if roster[j].active && roster[j].peerId !in wrappedTo {
        var t := Target(epoch, key, roster[j].peerId);
        assert EachPeerOnce(roster) ==> t !in out;
        out := out + [t];
      }
    }
    assert roster[..|roster|] == roster;
  }

  method BackfillTargets(m: Epochs, roster: seq<PeerRecord>) returns (out: seq<Target>)
    ensures forall t :: t in out <==> IsTarget(m, roster, t)
    ensures EachPeerOnce(roster) ==> Distinct(out)
  {
    out := [];
    var keys := InOrder(m.Keys);
    for i := 0 to |keys|
      invariant forall t :: t in out <==> IsTarget(m, roster, t) && t.epoch in keys[..i]
      invariant EachPeerOnce(roster) ==> Distinct(out)
    {
      assert keys[..i + 1] == keys[..i] + [keys[i]];
      var epoch := keys[i];
      if epoch == EPOCH0 || m[epoch].key.None? {
        continue;
      }
      var more := EpochTargets(epoch, m[epoch].key.value, m[epoch].wrappedTo, roster);
      ComesOnce(keys, i);
      assert forall t :: t in out ==> t !in more;
      out := out + more;
    }
    assert keys[..|keys|] == keys;
  }

  /** The log after publishing one wrap per target. */
  ghost predicate Publishes(wraps: seq<KeyLogEntry>, out: seq<Target>) {
    && |wraps| == |out|
    && forall i :: 0 <= i < |out| ==> wraps[i].epochId == out[i].epoch && wraps[i].body.Wrap? && wraps[i].body.recipient == Device(out[i].peer)
  }

  /** A wrap addressed to somebody else leaves our key alone. */
  lemma {:induction false} ForeignWrapsKeepKey(hash: Hash, me: Member, node: EpochNode, id: Bytes32, log: seq<KeyLogEntry>, wraps: seq<KeyLogEntry>)
    requires forall e :: e in wraps ==> e.body.Wrap? && (e.epochId == id ==> e.body.recipient != Device(me.peer))
    ensures FirstKey(hash, me, node, id, log + wraps) == FirstKey(hash, me, node, id, log)
  {
    if wraps == [] {
      assert log + wraps == log;
    } else {
      var init := wraps[..|wraps| - 1];
      ForeignWrapsKeepKey(hash, me, node, id, log, init);
      assert (log + wraps)[..|log + wraps| - 1] == log + init;
      assert wraps[|wraps| - 1] in wraps;
    }
  }

  lemma {:induction false} WrapsAnnounceNothing(log: seq<KeyLogEntry>, wraps: seq<KeyLogEntry>, id: Bytes32)
    requires forall e :: e in wraps ==> e.body.Wrap?
    ensures FirstRotate(log + wraps, id) == FirstRotate(log, id)
  {
    if wraps == [] {
      assert log + wraps == log;
    } else {
      WrapsAnnounceNothing(log, wraps[..|wraps| - 1], id);
      assert (log + wraps)[..|log + wraps| - 1] == log + wraps[..|wraps| - 1];
      assert wraps[|wraps| - 1] in wraps;
    }
  }

  /** The targets in terms of the log and the roster: the epochs past genesis whose key
      this device holds, for the active members no wrap is addressed to. */
  lemma TargetIff(hash: Hash, me: Member, epoch0Key: Bytes32, log: seq<KeyLogEntry>, roster: seq<PeerRecord>, t: Target)
    requires t.epoch in Built(hash, me, epoch0Key, log)
    ensures IsTarget(Built(hash, me, epoch0Key, log), roster, t) <==>
            && t.epoch != EPOCH0 && Built(hash, me, epoch0Key, log)[t.epoch].key == Some(t.key)
            && (exists i :: 0 <= i < |roster| && roster[i].peerId == t.peer && roster[i].active)
            && !(exists e :: e in log && e.body.Wrap? && e.epochId == t.epoch && e.body.recipient == Device(t.peer))
  {
    BuiltAt(hash, me, epoch0Key, log, t.epoch);
    ReceiveAllMeans(hash, me, AnnouncedNode(epoch0Key, log, t.epoch), t.epoch, log);
  }

  /** In a roster that lists each peer once, a revoked one gets no wrap. */
  lemma NeverRevoked(m: Epochs, roster: seq<PeerRecord>, t: Target)
    requires IsTarget(m, roster, t) && EachPeerOnce(roster)
    ensures forall r :: r in roster && r.peerId == t.peer ==> r.active
  {}

  /** A device is never its own back-fill target: it holds a key only because a
      wrap to it was recorded. */
  lemma NeverSelf(hash: Hash, me: Member, epoch0Key: Bytes32, log: seq<KeyLogEntry>, roster: seq<PeerRecord>, t: Target)
    requires IsTarget(Built(hash, me, epoch0Key, log), roster, t)
    ensures t.peer != me.peer
  {
    HeldKeysCommit(hash, me, epoch0Key, log, t.epoch);
  }

  lemma PublishedAt(hash: Hash, me: Member, epoch0Key: Bytes32, log: seq<KeyLogEntry>, roster: seq<PeerRecord>,
                    out: seq<Target>, wraps: seq<KeyLogEntry>, id: Bytes32)
    requires forall t :: t in out <==> IsTarget(Built(hash, me, epoch0Key, log), roster, t)
    requires Publishes(wraps, out)
    ensures var m, m' := Built(hash, me, epoch0Key, log), Built(hash, me, epoch0Key, log + wraps);
            && (id in m' <==> id in m)
            && (id in m ==> m'[id].key == m[id].key && m'[id].parents == m[id].parents)
            && (id in m ==> forall p :: p in m'[id].wrappedTo <==> p in m[id].wrappedTo || WrapsTo(wraps, id, Device(p)))
  {
    var m, all := Built(hash, me, epoch0Key, log), log + wraps;
    BuiltAt(hash, me, epoch0Key, log, id);
    BuiltAt(hash, me, epoch0Key, all, id);
    forall e | e in wraps ensures e.body.Wrap? && e.body.recipient != Device(me.peer) {
      var i :| 0 <= i < |wraps| && wraps[i] == e;
      assert out[i] in out;
      NeverSelf(hash, me, epoch0Key, log, roster, out[i]);
    }
    WrapsAnnounceNothing(log, wraps, id);
    FirstRotateFinds(log, id);
    FirstRotateFinds(all, id);
    if id in m {
      var node := AnnouncedNode(epoch0Key, log, id);
      ReceiveAllMeans(hash, me, node, id, log);
      ReceiveAllMeans(hash, me, node, id, all);
      ForeignWrapsKeepKey(hash, me, node, id, log, wraps);
      forall p ensures WrapsTo(all, id, Device(p)) <==> WrapsTo(log, id, Device(p)) || WrapsTo(wraps, id, Device(p)) {
        WrapsToConcat(log, wraps, id, Device(p));
      }
    }
  }

  lemma WrapsToConcat(a: seq<KeyLogEntry>, b: seq<KeyLogEntry>, id: Bytes32, r: Recipient)
    ensures WrapsTo(a + b, id, r) <==> WrapsTo(a, id, r) || WrapsTo(b, id, r)
  {
    if e :| e in a && e.body.Wrap? && e.epochId == id && e.body.recipient == r { assert e in a + b; }
    if e :| e in b && e.body.Wrap? && e.epochId == id && e.body.recipient == r { assert e in a + b; }
  }

  /** Publishing every target once leaves nothing to back-fill, and changes neither
      the epochs, nor their keys, nor the head. */
  lemma BackfillIsComplete(hash: Hash, me: Member, epoch0Key: Bytes32, log: seq<KeyLogEntry>, roster: seq<PeerRecord>,
                           out: seq<Target>, wraps: seq<KeyLogEntry>, head: Bytes32)
    requires forall t :: t in out <==> IsTarget(Built(hash, me, epoch0Key, log), roster, t)
    requires Publishes(wraps, out) && IsHead(Built(hash, me, epoch0Key, log), head)
    ensures var m, m' := Built(hash, me, epoch0Key, log), Built(hash, me, epoch0Key, log + wraps);
            && (forall t :: !IsTarget(m', roster, t))
            && m'.Keys == m.Keys && (forall id :: id in m ==> m'[id].key == m[id].key)
            && IsHead(m', head)
  {
    var m, m' := Built(hash, me, epoch0Key, log), Built(hash, me, epoch0Key, log + wraps);
    forall id ensures id in m' <==> id in m { PublishedAt(hash, me, epoch0Key, log, roster, out, wraps, id); }
    forall id | id in m ensures m'[id].key == m[id].key && m'[id].parents == m[id].parents {
      PublishedAt(hash, me, epoch0Key, log, roster, out, wraps, id);
    }
    forall t ensures !IsTarget(m', roster, t) {
      PublishedAt(hash, me, epoch0Key, log, roster, out, wraps, t.epoch);
      if IsTarget(m, roster, t) {
        var i :| 0 <= i < |out| && out[i] == t;
        assert wraps[i] in wraps;
        assert WrapsTo(wraps, t.epoch, Device(t.peer));
      }
    }
    SameParentsSameHead(m, m', head);
  }

  /** And it delivers: a device that can open the wrap published for it holds the
      target's key once it has the log, or the two keys' preimages collide. */
  lemma BackfillDelivers(hash: Hash, me: Member, them: Member, epoch0Key: Bytes32, theirKey0: Bytes32, log: seq<KeyLogEntry>,
                         roster: seq<PeerRecord>, out: seq<Target>, wraps: seq<KeyLogEntry>, i: nat)
    requires forall t :: t in out <==> IsTarget(Built(hash, me, epoch0Key, log), roster, t)
    requires Publishes(wraps, out) && i < |out|
    requires them.peer == out[i].peer && them.unwrap(wraps[i].body.blob) == Some(out[i].key)
    ensures var m, theirs, id := Built(hash, me, epoch0Key, log), Built(hash, them, theirKey0, log + wraps), out[i].epoch;
            && id in m && id in theirs && theirs[id].key.Some? && m[id].key == Some(out[i].key)
            && var n, n' := m[id], theirs[id];
               n'.key == n.key || Collision(hash, Preimage(n.parents, n.mintedBy, n.nonce, n.key.value), Preimage(n'.parents, n'.mintedBy, n'.nonce, n'.key.value))
  {
    var t, id := out[i], out[i].epoch;
    assert t in out;
    WrapArrives(hash, me, them, epoch0Key, theirKey0, log, wraps, i, t);
    KeysAgree(hash, me, them, epoch0Key, theirKey0, log, log + wraps, id);
  }

  lemma WrapArrives(hash: Hash, me: Member, them: Member, epoch0Key: Bytes32, theirKey0: Bytes32, log: seq<KeyLogEntry>,
                    wraps: seq<KeyLogEntry>, i: nat, t: Target)
    requires var m := Built(hash, me, epoch0Key, log); t.epoch in m && t.epoch != EPOCH0 && m[t.epoch].key == Some(t.key)
    requires (forall e :: e in wraps ==> e.body.Wrap?) && i < |wraps| && wraps[i].epochId == t.epoch
    requires wraps[i].body.recipient == Device(them.peer) && them.unwrap(wraps[i].body.blob) == Some(t.key)
    ensures var theirs := Built(hash, them, theirKey0, log + wraps); t.epoch in theirs && theirs[t.epoch].key.Some?
  {
    var id, all := t.epoch, log + wraps;
    BuiltAt(hash, me, epoch0Key, log, id);
    BuiltAt(hash, them, theirKey0, all, id);
    WrapsAnnounceNothing(log, wraps, id);
    FirstRotateFinds(log, id);
    FirstRotateFinds(all, id);
    var node := AnnouncedNode(epoch0Key, log, id);
    HeldKeysCommit(hash, me, epoch0Key, log, id);
    ReceiveAllMeans(hash, me, node, id, log);
    ReceiveAllMeans(hash, them, node, id, all);
    assert wraps[i] in all && Delivered(hash, them, node, wraps[i]) == Some(t.key);
    FirstKeyExists(hash, them, node, id, all, wraps[i]);
  }
}
