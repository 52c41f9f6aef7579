/** What the blob store holds after any run, read off the history of its operations. */
module BlobHistory {
  import opened Prelude
  import opened BlobDisk
  import opened BlobLaws

  /** The i-th operation offers `b` under `name`: it puts it, or finalizes a transfer
      whose chunks assemble to it. */
  ghost predicate Stores(hash: Hasher, ops: seq<Op>, i: nat, name: string, b: Bytes) {
    && i < |ops| && hash(b) == name
    && match ops[i]
       case PutOp(x) => x == b
       case FinalizeOp(n) => n == name && Assembled(Pending(ops[..i], name), Some(b))
       case _ => false
  }

  /** `name` is removed somewhere in `ops[i + 1..j]`. */
  ghost predicate RemovedBetween(ops: seq<Op>, i: nat, j: nat, name: string) {
    exists r :: i < r < j <= |ops| && ops[r] == RemoveOp(name)
  }

  /** The i-th operation is the one that decides what `name` holds: it is not followed
      by a removal or by another transfer of the name, and if it is a put, nothing was
      held before it. */
  ghost predicate Decides(hash: Hasher, ops: seq<Op>, i: nat, name: string, b: Bytes) {
    && Stores(hash, ops, i, name, b) && !RemovedBetween(ops, i, |ops|, name)
    && (forall j: nat, c :: i < j && Stores(hash, ops, j, name, c) ==> ops[j].PutOp?)
    && (ops[i].PutOp? ==> forall j: nat, c :: j < i && Stores(hash, ops, j, name, c) ==> RemovedBetween(ops, j, i, name))
  }

  /** Everything ever offered under `name` was removed later. */
  ghost predicate AllRemoved(hash: Hasher, ops: seq<Op>, name: string) {
    forall j: nat, c :: Stores(hash, ops, j, name, c) ==> RemovedBetween(ops, j, |ops|, name)
  }

  // ---------------------------------------------------------------- one more operation

  lemma StoresStays(hash: Hasher, ops: seq<Op>, op: Op, i: nat, name: string, b: Bytes)
    requires i < |ops|
    ensures Stores(hash, ops + [op], i, name, b) <==> Stores(hash, ops, i, name, b)
  {
    assert (ops + [op])[..i] == ops[..i];
  }

  lemma RemovedStays(ops: seq<Op>, op: Op, i: nat, j: nat, name: string)
    requires j <= |ops|
    ensures RemovedBetween(ops + [op], i, j, name) <==> RemovedBetween(ops, i, j, name)
  {
    if r :| i < r < j && ops[r] == RemoveOp(name) { assert (ops + [op])[r] == RemoveOp(name); }
    if r :| i < r < j && (ops + [op])[r] == RemoveOp(name) { assert ops[r] == RemoveOp(name); }
  }

  lemma RemovedNext(ops: seq<Op>, op: Op, i: nat, name: string)
    requires i < |ops|
    ensures RemovedBetween(ops + [op], i, |ops| + 1, name) <==> RemovedBetween(ops, i, |ops|, name) || op == RemoveOp(name)
  {
    RemovedStays(ops, op, i, |ops|, name);
    if op == RemoveOp(name) { assert (ops + [op])[|ops|] == op; }
  }

  /** What the last operation offers is what it leaves on disk. */
  lemma LastStoresIff(hash: Hasher, ops: seq<Op>, op: Op, name: string, b: Bytes)
    requires IsValidHash(name)
    ensures var d := Run(hash, ops);
            Stores(hash, ops + [op], |ops|, name, b) <==>
              (op == PutOp(b) && hash(b) == name) || (op == FinalizeOp(name) && PartOf(d, name) == Some(b) && hash(b) == name)
  {
    assert (ops + [op])[..|ops|] == ops;
    EveryRunAssembles(hash, ops, name);
    if op == FinalizeOp(name) && Assembled(Pending(ops, name), Some(b)) {
      SomeAssembles(Pending(ops, name), PartOf(Run(hash, ops), name), b);
    }
  }

  lemma AbsentStays(hash: Hasher, ops: seq<Op>, op: Op, name: string)
    requires AllRemoved(hash, ops, name)
    requires forall c :: !Stores(hash, ops + [op], |ops|, name, c)
    ensures AllRemoved(hash, ops + [op], name)
  {
    forall j: nat, c | Stores(hash, ops + [op], j, name, c) ensures RemovedBetween(ops + [op], j, |ops| + 1, name) {
      StoresStays(hash, ops, op, j, name, c);
      RemovedNext(ops, op, j, name);
    }
  }

  /** What an operation offers decides, unless it is a put onto something held. */
  lemma NewDecides(hash: Hasher, ops: seq<Op>, op: Op, name: string, b: Bytes)
    requires Stores(hash, ops + [op], |ops|, name, b) && (op.PutOp? ==> AllRemoved(hash, ops, name))
    ensures Decides(hash, ops + [op], |ops|, name, b)
  {
    var all := ops + [op];
    if op.PutOp? {
      forall j: nat, c | j < |ops| && Stores(hash, all, j, name, c) ensures RemovedBetween(all, j, |ops|, name) {
        StoresStays(hash, ops, op, j, name, c);
        RemovedStays(ops, op, j, |ops|, name);
      }
    }
  }

  lemma OldDecides(hash: Hasher, ops: seq<Op>, op: Op, i: nat, name: string, b: Bytes)
    requires Decides(hash, ops, i, name, b) && op != RemoveOp(name)
    requires op.PutOp? || forall c :: !Stores(hash, ops + [op], |ops|, name, c)
    ensures Decides(hash, ops + [op], i, name, b)
  {
    var all := ops + [op];
    StoresStays(hash, ops, op, i, name, b);
    RemovedNext(ops, op, i, name);
    forall j: nat, c | i < j && Stores(hash, all, j, name, c) ensures all[j].PutOp? {
      if j < |ops| { StoresStays(hash, ops, op, j, name, c); }
    }
    if all[i].PutOp? {
      forall j: nat, c | j < i && Stores(hash, all, j, name, c) ensures RemovedBetween(all, j, i, name) {
        StoresStays(hash, ops, op, j, name, c);
        RemovedStays(ops, op, j, i, name);
      }
    }
  }

  lemma RemoveEmpties(hash: Hasher, ops: seq<Op>, name: string)
    ensures AllRemoved(hash, ops + [RemoveOp(name)], name)
  {
    var all := ops + [RemoveOp(name)];
    forall j: nat, c | Stores(hash, all, j, name, c) ensures RemovedBetween(all, j, |all|, name) {
      assert all[|ops|] == RemoveOp(name);
    }
  }

  // ---------------------------------------------------------------- every run

  ghost predicate Explained(hash: Hasher, ops: seq<Op>, files: map<string, Bytes>, name: string) {
    if name in files then exists i: nat :: Decides(hash, ops, i, name, files[name]) else AllRemoved(hash, ops, name)
  }

  lemma {:induction false} RunIsExplained(hash: Hasher, ops: seq<Op>, name: string)
    requires IsValidHash(name)
    ensures Explained(hash, ops, Run(hash, ops).files, name)
  {
    if ops != [] {
      var init, op := ops[..|ops| - 1], ops[|ops| - 1];
      assert ops == init + [op];
      RunIsExplained(hash, init, name);
      StepIsExplained(hash, init, op, name);
    }
  }

  /** What the last operation offers under `name`, if anything. */
  ghost function Offered(hash: Hasher, d: Disk, op: Op, name: string): Option<Bytes> {
    match op
    case PutOp(b) => if hash(b) == name then Some(b) else None
    case FinalizeOp(n) => if n == name && name in d.parts && hash(d.parts[name]) == name then Some(d.parts[name]) else None
    case _ => None
  }

  /** One operation on the finished blob of one name. */
  lemma FileAfter(hash: Hasher, d: Disk, op: Op, name: string)
    requires IsValidHash(name)
    ensures var files, files', new_ := d.files, Step(hash, d, op).files, Offered(hash, d, op, name);
            && (op == RemoveOp(name) ==> name !in files')
            && (op != RemoveOp(name) && (new_.None? || (op.PutOp? && name in files)) ==>
                  (name in files' <==> name in files) && (name in files ==> files'[name] == files[name]))
            && (new_.Some? && !(op.PutOp? && name in files) ==> name in files' && files'[name] == new_.value)
  {
    hide IsValidHash, Written, ChunkError;
  }

  lemma StepIsExplained(hash: Hasher, ops: seq<Op>, op: Op, name: string)
    requires IsValidHash(name) && Explained(hash, ops, Run(hash, ops).files, name)
    ensures Explained(hash, ops + [op], Run(hash, ops + [op]).files, name)
  {
    var d := Run(hash, ops);
    assert (ops + [op])[..|ops|] == ops;
    assert Run(hash, ops + [op]) == Step(hash, d, op);
    var new_ := Offered(hash, d, op, name);
    forall c ensures Stores(hash, ops + [op], |ops|, name, c) <==> new_ == Some(c) { LastStoresIff(hash, ops, op, name, c); }
    FileAfter(hash, d, op, name);
    hide Step, Run, Stores, Decides, AllRemoved, Offered;
    if op == RemoveOp(name) {
      RemoveEmpties(hash, ops, name);
    } else if new_.Some? && !(op.PutOp? && name in d.files) {
      NewDecides(hash, ops, op, name, new_.value);
    } else if name in d.files {
      var i: nat :| Decides(hash, ops, i, name, d.files[name]);
      OldDecides(hash, ops, op, i, name, d.files[name]);
    } else {
      AbsentStays(hash, ops, op, name);
    }
  }

  lemma DecidesOnce(hash: Hasher, ops: seq<Op>, i: nat, b: Bytes, j: nat, c: Bytes, name: string)
    requires Decides(hash, ops, i, name, b) && Decides(hash, ops, j, name, c) && i <= j
    ensures i == j && b == c
  {
    if i == j && ops[i].FinalizeOp? {
      AssembledIsUnique(Pending(ops[..i], name), b, c);
    }
  }

  /** After any run a name is in the store exactly when some operation decides for it,
      and then holds what that operation offered: the latest transfer since it was
      last removed, or else the first put. */
  lemma FilesAreTheirHistory(hash: Hasher, ops: seq<Op>, name: string)
    ensures name in Run(hash, ops).files <==> exists i: nat, b :: Decides(hash, ops, i, name, b)
    ensures forall i: nat, b :: Decides(hash, ops, i, name, b) ==> name in Run(hash, ops).files && Run(hash, ops).files[name] == b
  {
    var files := Run(hash, ops).files;
    EveryBlobHashesToItsName(hash, ops);
    if IsValidHash(name) {
      RunIsExplained(hash, ops, name);
      hide Run;
      forall i: nat, b | Decides(hash, ops, i, name, b) ensures name in files && files[name] == b {
        if name in files {
          var j: nat :| Decides(hash, ops, j, name, files[name]);
          if i <= j { DecidesOnce(hash, ops, i, b, j, files[name], name); } else { DecidesOnce(hash, ops, j, files[name], i, b, name); }
        }
      }
    } else {
      forall i: nat, b ensures !Decides(hash, ops, i, name, b) {
        assert hash(b) != name;
      }
    }
  }

  /** No operation touches what is stored or being received under another name. */
  lemma OtherNamesStay(hash: Hasher, d: Disk, op: Op, name: string)
    requires match op { case PutOp(b) => hash(b) != name case RemoveOp(n) => n != name case ChunkOp(n, _) => n != name
                        case FinalizeOp(n) => n != name case DiscardOp(n) => n != name }
    ensures var d' := Step(hash, d, op);
            && (name in d'.files <==> name in d.files) && (name in d.files ==> d'.files[name] == d.files[name])
            && PartOf(d', name) == PartOf(d, name)
  {}

  // ---------------------------------------------------------------- names and refusals

  /** A valid name is 64 characters of one alphabet, so it is a single path component
      with neither separator nor dot. */
  lemma ValidNamesAreHex(name: string)
    ensures IsValidHash(name) <==> |name| == 64 && forall c :: c in name ==> c in "0123456789abcdef"
    ensures IsValidHash(name) ==> '/' !in name && '\\' !in name && '.' !in name
  {
    forall c: char ensures IsHexDigit(c) <==> c in "0123456789abcdef" {
      HexDigits(c);
    }
  }

  lemma HexDigits(c: char)
    ensures IsHexDigit(c) <==> c in "0123456789abcdef"
  {
    var digits := "0123456789abcdef";
    assert digits[0] == '0' && digits[1] == '1' && digits[2] == '2' && digits[3] == '3' && digits[4] == '4' && digits[5] == '5';
    assert digits[6] == '6' && digits[7] == '7' && digits[8] == '8' && digits[9] == '9' && digits[10] == 'a' && digits[11] == 'b';
    assert digits[12] == 'c' && digits[13] == 'd' && digits[14] == 'e' && digits[15] == 'f';
  }

  /** Which refusal a chunk meets. */
  lemma ChunkRefusedIff(d: Disk, name: string, c: Chunk)
    ensures var e, end := ChunkError(d, name, c), c.offset + |c.bytes|;
            && (e == Some(InvalidHash) <==> !IsValidHash(name))
            && (e == Some(OffsetOverflow) <==> IsValidHash(name) && end >= TWO_TO_THE_64)
            && (e == Some(PastEnd) <==> IsValidHash(name) && c.total < end < TWO_TO_THE_64)
            && (e == Some(LengthDisagrees) <==> IsValidHash(name) && end <= c.total && name in d.parts && |d.parts[name]| != c.total)
            && (e.None? <==> IsValidHash(name) && end <= c.total && (name in d.parts ==> |d.parts[name]| == c.total))
            && (e.Some? ==> WriteChunk(d, name, c) == d)
  {}
}
