/** What holds of the blob store over every run of its operations. */
module BlobLaws {
  import opened Prelude
  import opened BlobDisk

  datatype Op =
    | PutOp(bytes: Bytes)
    | RemoveOp(name: string)
    | ChunkOp(name: string, chunk: Chunk)
    | FinalizeOp(name: string)
    | DiscardOp(name: string)

  function Step(hash: Hasher, d: Disk, op: Op): Disk {
    match op
    case PutOp(bytes) => Put(hash, d, bytes)
    case RemoveOp(name) => Remove(d, name)
    case ChunkOp(name, c) => WriteChunk(d, name, c)
    case FinalizeOp(name) => Finalize(hash, d, name)
    case DiscardOp(name) => Discard(d, name)
  }

  /** A run of a store that starts empty. */
  function Run(hash: Hasher, ops: seq<Op>): Disk {
    if ops == [] then EMPTY_DISK else Step(hash, Run(hash, ops[..|ops| - 1]), ops[|ops| - 1])
  }

  // ---------------------------------------------------------------- names

  /** Every stored blob hashes to its name. */
  ghost predicate Named(hash: Hasher, d: Disk) {
    forall name :: name in d.files ==> hash(d.files[name]) == name
  }

  lemma {:induction false} EveryBlobHashesToItsName(hash: Hasher, ops: seq<Op>)
    ensures Named(hash, Run(hash, ops))
  {
    if ops != [] {
      EveryBlobHashesToItsName(hash, ops[..|ops| - 1]);
    }
  }

  /** After any run, what was put is what is got, or two byte strings collide. A
      read never returns bytes of another name, whatever is on disk. */
  lemma PutThenGet(hash: Hasher, ops: seq<Op>, bytes: Bytes)
    ensures var d := Run(hash, ops + [PutOp(bytes)]);
            && Get(hash, d, hash(bytes)).Ok? && Get(hash, d, hash(bytes)).value.Some?
            && var got := Get(hash, d, hash(bytes)).value.value;
               got == bytes || Collision(hash, got, bytes)
  {
    EveryBlobHashesToItsName(hash, ops + [PutOp(bytes)]);
    assert (ops + [PutOp(bytes)])[..|ops|] == ops;
  }

  lemma GetIsSound(hash: Hasher, d: Disk, name: string)
    ensures Get(hash, d, name).Ok? && Get(hash, d, name).value.Some? ==> hash(Get(hash, d, name).value.value) == name
    ensures Named(hash, d) && name in d.files ==> Get(hash, d, name) == Ok(Some(d.files[name]))
    ensures Get(hash, d, name).Err? <==> !IsValidHash(name) || (name in d.files && hash(d.files[name]) != name)
  {
    if Named(hash, d) && name in d.files {
      assert hash(d.files[name]) == name;
    }
  }

  // ---------------------------------------------------------------- assembly

  predicate Covers(c: Chunk, i: nat) { c.offset <= i < End(c) }

  /** The first chunk that lies within the length it announces fixes the length. */
  ghost predicate Pins(cs: seq<Chunk>, j: nat) {
    j < |cs| && Fits(cs[j]) && forall k :: 0 <= k < j ==> !Fits(cs[k])
  }

  /** Chunks that lie within the pinned length are the accepted ones. */
  predicate Accepted(c: Chunk, pinned: nat) { Fits(c) && c.total == pinned }

  predicate Writes(c: Chunk, pinned: nat, i: nat) { Accepted(c, pinned) && Covers(c, i) }

  ghost predicate Reached(cs: seq<Chunk>, pinned: nat, i: nat) {
    exists j :: 0 <= j < |cs| && Writes(cs[j], pinned, i)
  }

  /** `x` is what position `i` holds: the byte of the last accepted chunk there,
      zero where there is none. */
  ghost predicate Holds(cs: seq<Chunk>, pinned: nat, i: nat, x: byte) {
    if Reached(cs, pinned, i) then
      exists j :: 0 <= j < |cs| && Writes(cs[j], pinned, i) && cs[j].bytes[i - cs[j].offset] == x &&
                  forall k :: j < k < |cs| ==> !Writes(cs[k], pinned, i)
    else x == 0
  }

  /** What a history of chunks leaves behind. */
  ghost predicate Assembled(cs: seq<Chunk>, part: Option<Bytes>) {
    match part
    case None => forall j :: 0 <= j < |cs| ==> !Fits(cs[j])
    case Some(p) =>
      && (exists j: nat :: Pins(cs, j) && cs[j].total == |p|)
      && forall i :: 0 <= i < |p| ==> Holds(cs, |p|, i, p[i])
  }

  /** The chunks offered for `name` since it was last finalized or discarded. */
  function Pending(ops: seq<Op>, name: string): seq<Chunk> {
    if ops == [] then []
    else
      var before, op := Pending(ops[..|ops| - 1], name), ops[|ops| - 1];
      match op
      case ChunkOp(n, c) => if n == name then before + [c] else before
      case FinalizeOp(n) => if n == name then [] else before
      case DiscardOp(n) => if n == name then [] else before
      case _ => before
  }

  lemma HoldsStays(cs: seq<Chunk>, c: Chunk, pinned: nat, i: nat, x: byte)
    requires Holds(cs, pinned, i, x) && !Writes(c, pinned, i)
    ensures Holds(cs + [c], pinned, i, x)
  {
    var all := cs + [c];
    if Reached(cs, pinned, i) {
      var j :| 0 <= j < |cs| && Writes(cs[j], pinned, i) && cs[j].bytes[i - cs[j].offset] == x &&
               forall k :: j < k < |cs| ==> !Writes(cs[k], pinned, i);
      assert all[j] == cs[j];
    } else {
      forall j | 0 <= j < |all| ensures !Writes(all[j], pinned, i) {
        if j < |cs| { assert all[j] == cs[j]; }
      }
    }
  }

  lemma HoldsNew(cs: seq<Chunk>, c: Chunk, pinned: nat, i: nat)
    requires Writes(c, pinned, i)
    ensures Holds(cs + [c], pinned, i, c.bytes[i - c.offset])
  {
    assert (cs + [c])[|cs|] == c;
  }

  lemma PinsStays(cs: seq<Chunk>, c: Chunk, j: nat)
    requires Pins(cs, j)
    ensures Pins(cs + [c], j) && (cs + [c])[j] == cs[j]
  {
    forall k | 0 <= k < j ensures !Fits((cs + [c])[k]) {
      assert (cs + [c])[k] == cs[k];
    }
  }

  /** A chunk that is refused leaves the part as it was. */
  lemma RefusedChunk(cs: seq<Chunk>, c: Chunk, part: Option<Bytes>)
    requires Assembled(cs, part)
    requires !Fits(c) || (part.Some? && |part.value| != c.total)
    ensures Assembled(cs + [c], part)
  {
    match part {
      case None =>
      case Some(p) =>
        var j: nat :| Pins(cs, j) && cs[j].total == |p|;
        PinsStays(cs, c, j);
        forall i | 0 <= i < |p| ensures Holds(cs + [c], |p|, i, p[i]) {
          HoldsStays(cs, c, |p|, i, p[i]);
        }
    }
  }

  /** A chunk that is accepted is written over what was there. */
  lemma AcceptedChunk(cs: seq<Chunk>, c: Chunk, part: Option<Bytes>)
    requires Assembled(cs, part)
    requires Fits(c) && (part.Some? ==> |part.value| == c.total)
    ensures Assembled(cs + [c], Some(Written(part, c)))
  {
    hide Written;
    hide Holds;
    var q := Written(part, c);
    WrittenLength(part, c);
    if part.Some? {
      var j: nat :| Pins(cs, j) && cs[j].total == |part.value|;
      PinsStays(cs, c, j);
    } else {
      assert Pins(cs + [c], |cs|);
    }
    forall i | 0 <= i < |q| ensures Holds(cs + [c], |q|, i, q[i]) {
      WrittenHolds(cs, c, part, i);
    }
  }

  lemma WrittenLength(part: Option<Bytes>, c: Chunk)
    requires Fits(c) && (part.Some? ==> |part.value| == c.total)
    ensures |Written(part, c)| == c.total
  {}

  lemma WrittenAt(part: Option<Bytes>, c: Chunk, i: nat)
    requires Fits(c) && (part.Some? ==> |part.value| == c.total) && i < c.total
    ensures |Written(part, c)| == c.total
    ensures Covers(c, i) ==> Written(part, c)[i] == c.bytes[i - c.offset]
    ensures !Covers(c, i) ==> Written(part, c)[i] == if part.Some? then part.value[i] else 0
  {}

  lemma WrittenHolds(cs: seq<Chunk>, c: Chunk, part: Option<Bytes>, i: nat)
    requires Assembled(cs, part)
    requires Fits(c) && (part.Some? ==> |part.value| == c.total) && i < c.total
    ensures |Written(part, c)| == c.total && Holds(cs + [c], c.total, i, Written(part, c)[i])
  {
    hide Written;
    WrittenAt(part, c, i);
    if Covers(c, i) {
      HoldsNew(cs, c, c.total, i);
    } else {
      hide Holds;
      if part.None? { NothingHolds(cs, c.total, i); }
      HoldsStays(cs, c, c.total, i, Written(part, c)[i]);
    }
  }

  lemma NothingHolds(cs: seq<Chunk>, pinned: nat, i: nat)
    requires Assembled(cs, None)
    ensures Holds(cs, pinned, i, 0)
  {}

  /** After any run the part of a name holds, at each position, the last byte that
      was accepted for it since the transfer began, within the first length that
      was announced; there is a part exactly when some chunk was accepted. */
  lemma {:induction false} EveryRunAssembles(hash: Hasher, ops: seq<Op>, name: string)
    requires IsValidHash(name)
    ensures Assembled(Pending(ops, name), PartOf(Run(hash, ops), name))
  {
    if ops != [] {
      var before, op := ops[..|ops| - 1], ops[|ops| - 1];
      EveryRunAssembles(hash, before, name);
      StepAssembles(hash, Run(hash, before), op, Pending(before, name), name);
    }
  }

  lemma StepAssembles(hash: Hasher, d: Disk, op: Op, cs: seq<Chunk>, name: string)
    requires IsValidHash(name) && Assembled(cs, PartOf(d, name))
    ensures (op.ChunkOp? && op.name == name) ==> Assembled(cs + [op.chunk], PartOf(Step(hash, d, op), name))
    ensures (op.FinalizeOp? || op.DiscardOp?) && op.name == name ==> Assembled([], PartOf(Step(hash, d, op), name))
    ensures !((op.ChunkOp? || op.FinalizeOp? || op.DiscardOp?) && op.name == name) ==> PartOf(Step(hash, d, op), name) == PartOf(d, name)
  {
    if op.ChunkOp? && op.name == name {
      ChunkAssembles(d, op.chunk, cs, name);
    }
  }

  lemma ChunkAssembles(d: Disk, c: Chunk, cs: seq<Chunk>, name: string)
    requires IsValidHash(name) && Assembled(cs, PartOf(d, name))
    ensures Assembled(cs + [c], PartOf(WriteChunk(d, name, c), name))
  {
    hide Assembled;
    hide Written;
    if ChunkError(d, name, c).Some? {
      RefusedChunk(cs, c, PartOf(d, name));
    } else {
      AcceptedChunk(cs, c, PartOf(d, name));
    }
  }

  /** A history assembles to one thing only. */
  lemma AssembledIsUnique(cs: seq<Chunk>, p: Bytes, q: Bytes)
    requires Assembled(cs, Some(p)) && Assembled(cs, Some(q))
    ensures p == q
  {
    var j: nat :| Pins(cs, j) && cs[j].total == |p|;
    var k: nat :| Pins(cs, k) && cs[k].total == |q|;
    assert j == k;
    forall i | 0 <= i < |p| ensures p[i] == q[i] {
      HoldsOne(cs, |p|, i, p[i], q[i]);
    }
  }

  lemma HoldsOne(cs: seq<Chunk>, pinned: nat, i: nat, x: byte, y: byte)
    requires Holds(cs, pinned, i, x) && Holds(cs, pinned, i, y)
    ensures x == y
  {
    if Reached(cs, pinned, i) {
      var j :| 0 <= j < |cs| && Writes(cs[j], pinned, i) && cs[j].bytes[i - cs[j].offset] == x &&
               forall k :: j < k < |cs| ==> !Writes(cs[k], pinned, i);
      var k :| 0 <= k < |cs| && Writes(cs[k], pinned, i) && cs[k].bytes[i - cs[k].offset] == y &&
               forall l :: k < l < |cs| ==> !Writes(cs[l], pinned, i);
      assert j == k;
    }
  }

  /** Finalizing stores a blob exactly when the history assembles to bytes with
      that hash, and then stores those bytes; otherwise no finished blob changes.
      Either way the transfer is over. */
  lemma FinalizeIff(hash: Hasher, ops: seq<Op>, blob: Bytes)
    ensures var d, name := Run(hash, ops), hash(blob);
            var d' := Finalize(hash, d, name);
            && (FinalizeResult(hash, d, name) == Ok(true) && name in d'.files && d'.files[name] == blob && PartOf(d, name) == Some(blob)
                <==> Assembled(Pending(ops, name), Some(blob)))
            && (FinalizeResult(hash, d, name) == Ok(true) ==> name in d'.files && (d'.files[name] == blob || Collision(hash, d'.files[name], blob)))
            && (FinalizeResult(hash, d, name) == Ok(false) ==> d'.files == d.files)
            && PartOf(d', name) == None
  {
    var d, name := Run(hash, ops), hash(blob);
    EveryRunAssembles(hash, ops, name);
    if Assembled(Pending(ops, name), Some(blob)) {
      SomeAssembles(Pending(ops, name), PartOf(d, name), blob);
    }
  }

  lemma SomeAssembles(cs: seq<Chunk>, part: Option<Bytes>, blob: Bytes)
    requires Assembled(cs, part) && Assembled(cs, Some(blob))
    ensures part == Some(blob)
  {
    if part.Some? { AssembledIsUnique(cs, part.value, blob); }
  }

  /** A chunk that carries what the blob has in its range. */
  predicate Honest(c: Chunk, blob: Bytes) {
    c.total == |blob| && End(c) <= |blob| && c.bytes == blob[c.offset..End(c)]
  }

  /** Chunks that cover a blob once its length is pinned, in any order, repeated and
      overlapping, with malformed ones and ones of another length in between,
      assemble to exactly that blob. */
  lemma CoveringChunksAssemble(cs: seq<Chunk>, blob: Bytes, j: nat)
    requires Pins(cs, j) && cs[j].total == |blob|
    requires forall i :: 0 <= i < |cs| && Accepted(cs[i], |blob|) ==> Honest(cs[i], blob)
    requires forall i :: 0 <= i < |blob| ==> Reached(cs, |blob|, i)
    ensures Assembled(cs, Some(blob))
  {
    forall i | 0 <= i < |blob| ensures Holds(cs, |blob|, i, blob[i]) {
      var l := LastWriter(cs, |blob|, i);
      assert cs[l].bytes[i - cs[l].offset] == blob[i];
    }
  }

  /** So finalizing such a transfer stores the blob, whatever else the run did. */
  lemma CoveringChunksFinalize(hash: Hasher, ops: seq<Op>, blob: Bytes, j: nat)
    requires var cs := Pending(ops, hash(blob));
             && Pins(cs, j) && cs[j].total == |blob|
             && (forall i :: 0 <= i < |cs| && Accepted(cs[i], |blob|) ==> Honest(cs[i], blob))
             && (forall i :: 0 <= i < |blob| ==> Reached(cs, |blob|, i))
    ensures FinalizeResult(hash, Run(hash, ops), hash(blob)) == Ok(true)
    ensures Get(hash, Run(hash, ops + [FinalizeOp(hash(blob))]), hash(blob)) == Ok(Some(blob))
  {
    CoveringChunksAssemble(Pending(ops, hash(blob)), blob, j);
    FinalizeIff(hash, ops, blob);
    assert (ops + [FinalizeOp(hash(blob))])[..|ops|] == ops;
  }

  lemma {:induction false} LastWriter(cs: seq<Chunk>, pinned: nat, i: nat) returns (j: nat)
    requires Reached(cs, pinned, i)
    ensures j < |cs| && Writes(cs[j], pinned, i) && forall k :: j < k < |cs| ==> !Writes(cs[k], pinned, i)
  {
    j := |cs| - 1;
    while !Writes(cs[j], pinned, i)
      invariant j < |cs| && forall k :: j < k < |cs| ==> !Writes(cs[k], pinned, i)
      decreases j
    {
      j := j - 1;
    }
  }
}
