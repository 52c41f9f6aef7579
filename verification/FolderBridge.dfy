/** The folder bridge as it runs: one object holding a device's files, metadata
    and store, whose methods update them in place. Each method is proved against
    the value-level operation of the same name in module `Vault`. */
module FolderBridge {
  import opened Prelude
  import opened ChangeScript
  import opened Conflicts
  import opened Rebase
  import opened TextDiff
  import opened FileSet
  import V = Vault

  class FolderBridge {
    // disk, outside the store
    var disk: map<Key, Content>
    var sidecars: map<Key, string>
    var markers: set<Key>
    // the store
    var entries: map<Key, FileEntry>
    var texts: map<Key, string>
    var blobs: set<Content>
    var revision: nat
    var mayWrite: bool

    const differ: Differ
    const maxChars: nat
    const threshold: Option<nat>

    constructor (d: Differ, bound: nat, single: Option<nat>, vault: map<Key, Content>, writer: bool)
      ensures differ == d && maxChars == bound && threshold == single
      ensures State() == V.Vault(vault, map[], {}, map[], map[], {}, 0, writer)
    {
      differ, maxChars, threshold := d, bound, single;
      disk, sidecars, markers, entries, texts, blobs, revision, mayWrite := vault, map[], {}, map[], map[], {}, 0, writer;
    }

    /** The vault value this object holds. */
    ghost function State(): V.Vault
      reads this
    {
      V.Vault(disk, sidecars, markers, entries, texts, blobs, revision, mayWrite)
    }

    ghost function Cfg(): V.Config { V.Config(differ, maxChars, threshold) }

    function TextOf(k: Key): string
      reads this
    {
      if k in texts then texts[k] else ""
    }

    method SetEntry(k: Key, e: FileEntry)
      modifies this`entries, this`revision
      ensures State() == V.SetEntry(old(State()), k, e)
    {
      entries := entries[k := e];
      revision := revision + 1;
    }

    /** Apply one operation to a text container, as the storage layer does. */
    method EditText(k: Key, op: TextOp)
      requires ApplyOp(TextOf(k), op).Some?
      modifies this`texts
      ensures texts == old(texts)[k := ApplyOp(old(TextOf(k)), op).value]
    {
      var t := TextOf(k);
      match op {
        case InsertOp(pos, s) => texts := texts[k := t[..pos] + s + t[pos..]];
        case DeleteOp(pos, len) => texts := texts[k := t[..pos] + t[pos + len..]];
      }
    }

    /** Apply operations in order, stopping at the first that fails. A failing
        operation may or may not have reached the in-memory container. Touching a
        container attaches it, so an absent one becomes empty. */
    method ApplyAll(k: Key, ops: seq<TextOp>, failAt: Option<nat>, reached: bool) returns (applied: nat, failed: bool, actual: string)
      requires ApplyOps(TextOf(k), ops).Some?
      modifies this`texts
      ensures failed <==> failAt.Some? && failAt.value < |ops|
      ensures applied == if !failed then |ops| else failAt.value + if reached then 1 else 0
      ensures ApplyOps(old(TextOf(k)), ops[..applied]) == Some(actual)
      ensures texts == old(texts)[k := actual]
    {
      ghost var start := TextOf(k);
      NoOps(start, ops);
      hide ApplyOps, ApplyOp;
      applied, failed := 0, false;
      texts := texts[k := TextOf(k)];
      while applied < |ops|
        invariant applied <= |ops| && !failed && k in texts && (failAt.Some? ==> applied <= failAt.value)
        invariant ApplyOps(start, ops[..applied]) == Some(texts[k])
        invariant texts == old(texts)[k := texts[k]]
        decreases |ops| - applied
      {
        PrefixApplies(start, ops, applied);
        failed := failAt == Some(applied);
        if failed && !reached {
          return applied, true, texts[k];
        }
        EditText(k, ops[applied]);
        applied := applied + 1;
        if failed {
          return applied, true, texts[k];
        }
      }
      actual := texts[k];
    }

    /** The text the container must end with: the file's, or the rebase of the
        local delta when the container moved since the last sync. */
    method ExpectedText(baseline: string, fileText: string, remoteText: string) returns (expected: string, conflicts: seq<Conflict>)
      ensures expected == V.Expected(Cfg(), baseline, fileText, remoteText)
    {
      if remoteText == baseline {
        return fileText, [];
      }
      var local, remote := differ(baseline, fileText), differ(baseline, remoteText);
      assert Explains(local, baseline, fileText) && Explains(remote, baseline, remoteText);
      hide Merged, ExactConflicts;
      expected, conflicts := MergeLocalOntoRemote(baseline, remoteText, local, remote);
    }

    /** Import a text file: rebase the local delta onto the container, apply the
        operations, then record or heal the sidecar. */
    method ImportText(k: Key, fileText: string, failAt: Option<nat>, reached: bool)
      returns (err: Option<V.Error>, conflicts: seq<Conflict>, ghost actual: string)
      modifies this`texts, this`sidecars, this`entries, this`revision
      ensures err.None? ==> State() == V.ImportText(Cfg(), old(State()), k, fileText)
      ensures err.Some? ==> failAt.Some? && err.value == V.StorageFailure
      ensures err.Some? ==> State() == V.ImportFailed(old(State()), k, actual).v
    {
      hide V.Expected, ApplyOps, Tidy, Added, AddedBy, Dropped, DroppedBy;
      var remoteText := TextOf(k);
      var baseline := if k in sidecars then sidecars[k] else remoteText;
      var expected;
      expected, conflicts := ExpectedText(baseline, fileText, remoteText);
      assert expected == V.Target(Cfg(), State(), k, fileText);
      var ops := DiffToOps(differ, maxChars, remoteText, expected);
      if ops == [] {
        return None, [], "";
      }
      var applied, failed, got := ApplyAll(k, ops, failAt, reached);
      revision := revision + 1;
      actual := got;
      if failed {
        sidecars := sidecars[k := got];
        return Some(V.StorageFailure), [], got;
      }
      assert ops[..applied] == ops;
      sidecars := sidecars[k := fileText];
      SetEntry(k, LiveText(fileText));
      err := None;
    }

    /** Store a binary's bytes and record a blob entry, releasing superseded bytes
        in single-version mode. */
    method ImportBlob(k: Key, c: Content) returns (err: Option<V.Error>)
      modifies this`blobs, this`entries, this`revision
      ensures var r := V.ImportBlob(Cfg(), old(State()), k, c); State() == r.v && err == V.ErrorOf(r)
      ensures err.Some? ==> err.value == V.InvalidHash
    {
      var prior := if k in entries then Some(entries[k].contentHash) else None;
      blobs := blobs + {c};
      if k in entries && entries[k].status.Tombstoned? && entries[k].kind.Blob? && entries[k].contentHash == DigestOf(c) {
        return None;
      }
      if k in entries && entries[k] == LiveBlob(c) {
        return None;
      }
      SetEntry(k, LiveBlob(c));
      if threshold.Some? && V.Size(c) > threshold.value && prior.Some? && prior.value != DigestOf(c) {
        if !(exists j :: j in entries && entries[j].contentHash == prior.value) {
          match prior.value {
            case Malformed(_) => return Some(V.InvalidHash);
            case Unmatched(_) =>
            case DigestOf(old_) => blobs := blobs - {old_};
          }
        }
      }
      err := None;
    }

    /** Reconcile one file into the store, as text or blob by its content. */
    method ImportFile(k: Key, failAt: Option<nat>, reached: bool) returns (err: Option<V.Error>, ghost actual: string)
      modifies this`blobs, this`entries, this`revision, this`texts, this`sidecars, this`markers
      ensures err == Some(V.StorageFailure) ==>
                failAt.Some? && k in old(disk) && old(disk)[k].Utf8? && State() == V.ImportFailed(old(State()), k, actual).v
      ensures err != Some(V.StorageFailure) ==>
                var r := V.ImportFile(Cfg(), old(State()), k);
                State() == r.v && err == V.ErrorOf(r)
    {
      hide V.Expected;
      actual := "";
      if !mayWrite {
        return Some(V.ReadOnly), "";
      }
      if exists j :: j in entries && CaseClash(j, k) && entries[j].status.Live? {
        return Some(V.CaseCollision), "";
      }
      if k !in disk {
        return Some(V.NoSuchFile), "";
      }
      match disk[k] {
        case Utf8(fileText) =>
          var conflicts;
          err, conflicts, actual := ImportText(k, fileText, failAt, reached);
        case Binary(_) =>
          err := ImportBlob(k, disk[k]);
          if err.None? {
            markers := markers + {k};
          }
      }
    }

    /** Write the container's text to disk, refusing to overwrite unsynced edits. */
    method ProjectFile(k: Key) returns (err: Option<V.Error>)
      modifies this`disk, this`sidecars
      ensures var r := V.ProjectFile(old(State()), k); State() == r.v && err == V.ErrorOf(r)
      ensures err.Some? ==> err.value == V.DirtyFile
    {
      var text := TextOf(k);
      if k in disk && disk[k] == Utf8(text) && k in sidecars && sidecars[k] == text {
        return None;
      }
      if k in disk && disk[k].Utf8? && disk[k].text != text {
        var editedSinceSync := if k in sidecars then disk[k].text != sidecars[k] else true;
        if editedSinceSync {
          return Some(V.DirtyFile);
        }
      }
      disk := disk[k := Utf8(text)];
      sidecars := sidecars[k := text];
      err := None;
    }

    /** Write a blob's bytes to disk if they are here and the file is not. */
    method ProjectBlob(k: Key, h: Digest) returns (err: Option<V.Error>)
      modifies this`disk, this`markers
      ensures var r := V.ProjectBlob(old(State()), k, h); State() == r.v && err == V.ErrorOf(r)
      ensures err.Some? ==> err.value == V.InvalidHash
    {
      err := None;
      match h {
        case Malformed(_) => err := Some(V.InvalidHash);
        case Unmatched(_) =>
        case DigestOf(c) =>
          if c in blobs && k !in disk {
            disk := disk[k := c];
            markers := markers + {k};
          }
      }
    }

    method WriteTombstone(k: Key, kind: EntryKind, h: Digest)
      modifies this`entries, this`revision
      ensures State() == V.WriteTombstone(old(State()), k, kind, h)
    {
      SetEntry(k, FileEntry(kind, Tombstoned, h, None, None));
      SetEntry(k, FileEntry(kind, Tombstoned, h, None, Some(revision)));
    }

    /** Tombstone a file and remove it from disk; its container stays. */
    method DeleteFile(k: Key) returns (err: Option<V.Error>)
      modifies this`entries, this`revision, this`disk, this`sidecars, this`markers
      ensures var r := V.DeleteFile(old(State()), k); State() == r.v && err == V.ErrorOf(r)
      ensures err.Some? ==> err.value == V.ReadOnly
    {
      if !mayWrite {
        return Some(V.ReadOnly);
      }
      if k in entries && entries[k].kind.Blob? {
        WriteTombstone(k, Blob, entries[k].contentHash);
        markers := markers - {k};
      } else {
        WriteTombstone(k, Text, TextHash(if k in sidecars then sidecars[k] else TextOf(k)));
      }
      disk := disk - {k};
      sidecars := sidecars - {k};
      err := None;
    }

    /** Flip an entry back to live and bring its content back to disk. */
    method Resurrect(k: Key) returns (err: Option<V.Error>)
      modifies this`entries, this`revision, this`disk, this`sidecars, this`markers
      ensures var r := V.Resurrect(old(State()), k); State() == r.v && err == V.ErrorOf(r)
    {
      if !mayWrite {
        return Some(V.ReadOnly);
      }
      if k !in entries {
        return Some(V.NotFound);
      }
      var live := entries[k].ToLive();
      SetEntry(k, live);
      match live.kind {
        case Blob => err := ProjectBlob(k, live.contentHash);
        case Text => err := ProjectFile(k);
      }
    }

    /** Seed the new container, record both entries, write the new file, and only
        then remove the old one. */
    method MoveContent(from: Key, to: Key) returns (err: Option<V.Error>)
      modifies this
      ensures var r := V.MoveContent(old(State()), from, to); State() == r.v && err == V.ErrorOf(r)
    {
      hide V.ProjectFile;
      var text := TextOf(from);
      if text != "" {
        texts := texts[to := text + TextOf(to)];
        revision := revision + 1;
      }
      SetEntry(to, FileEntry(Text, Live, TextHash(text), Some(from), None));
      WriteTombstone(from, Text, TextHash(text));
      err := ProjectFile(to);
      if err.None? {
        disk := disk - {from};
        sidecars := sidecars - {from};
      }
    }

    /** Rename a file, flushing its pending disk edits first. */
    method RenameFile(from: Key, to: Key) returns (err: Option<V.Error>)
      modifies this
      ensures var r := V.RenameFile(Cfg(), old(State()), from, to); State() == r.v && err == V.ErrorOf(r)
    {
      hide V.ImportFile, V.MoveContent;
      if !mayWrite {
        return Some(V.ReadOnly);
      }
      if from == to {
        return None;
      }
      if from in disk {
        ghost var actual;
        err, actual := ImportFile(from, None, false);
        if err.Some? {
          return;
        }
      }
      err := MoveContent(from, to);
    }

    // ---------------------------------------------------------------- the scan, one key at a time

    method HealEntry(k: Key)
      modifies this`entries, this`revision
      ensures State() == V.Heal(old(State()), k).v
    {
      if k !in entries && k in sidecars {
        SetEntry(k, LiveText(TextOf(k)));
      }
    }

    method DetectDelete(present: set<Key>, k: Key)
      modifies this`entries, this`revision, this`markers, this`sidecars
      ensures State() == V.DetectDelete(present, old(State()), k).v
    {
      if k !in entries || !entries[k].status.Live? || k in present {
        return;
      }
      if entries[k].kind.Blob? {
        if k in markers {
          WriteTombstone(k, Blob, entries[k].contentHash);
          markers := markers - {k};
        }
      } else if k in sidecars {
        WriteTombstone(k, Text, TextHash(sidecars[k]));
        sidecars := sidecars - {k};
      }
    }

    method ApplyTombstone(present: set<Key>, k: Key) returns (err: Option<V.Error>)
      requires k in entries && entries[k].status.Tombstoned?
      modifies this
      ensures var r := V.Reconcile(present, old(State()), k); State() == r.v && err == V.ErrorOf(r)
    {
      hide V.ProjectFile;
      err := None;
      if entries[k].kind.Blob? {
        if k in present {
          disk := disk - {k};
        }
        markers := markers - {k};
        sidecars := sidecars - {k};
      } else if k !in present {
        sidecars := sidecars - {k};
      } else if TextHash(TextOf(k)) == entries[k].contentHash {
        disk := disk - {k};
        sidecars := sidecars - {k};
      } else {
        SetEntry(k, FileEntry(Text, Live, TextHash(TextOf(k)), None, None));
        err := ProjectFile(k);
        assert V.ProjectFile(V.SetEntry(old(State()), k, LiveText(old(TextOf(k)))), k).Err? ==> err == Some(V.DirtyFile);
        ProjectionOnlyFailsDirty(V.SetEntry(old(State()), k, LiveText(old(TextOf(k)))), k);
        if err == Some(V.DirtyFile) {
          err := None;
        }
      }
    }

    method ApplyLive(present: set<Key>, k: Key) returns (err: Option<V.Error>)
      requires k in entries && entries[k].status.Live?
      modifies this
      ensures var r := V.Reconcile(present, old(State()), k); State() == r.v && err == V.ErrorOf(r)
    {
      hide V.ProjectFile, V.ProjectBlob;
      err := None;
      if entries[k].kind.Blob? {
        err := ProjectBlob(k, entries[k].contentHash);
      } else if k !in present && k !in sidecars {
        err := ProjectFile(k);
      } else if k in present {
        ProjectionOnlyFailsDirty(State(), k);
        err := ProjectFile(k);
        if err == Some(V.DirtyFile) {
          err := None;
        }
      }
    }

    method Reconcile(present: set<Key>, k: Key) returns (err: Option<V.Error>)
      modifies this
      ensures var r := V.Reconcile(present, old(State()), k); State() == r.v && err == V.ErrorOf(r)
    {
      if k !in entries {
        err := None;
      } else if entries[k].status.Live? {
        err := ApplyLive(present, k);
      } else {
        err := ApplyTombstone(present, k);
      }
    }

    // ---------------------------------------------------------------- the scan's loops

    method ImportAll(files: seq<Key>) returns (err: Option<V.Error>)
      modifies this
      ensures var r := V.Run(V.Importing(Cfg()), old(State()), files); State() == r.v && err == V.ErrorOf(r)
      ensures disk == old(disk)
    {
      hide V.ImportFile;
      ghost var f, v := V.Importing(Cfg()), State();
      err := None;
      V.RunNone(f, v, files);
      for i := 0 to |files|
        invariant V.Run(f, v, files[..i]) == V.Ok(State()) && err.None? && disk == old(disk)
      {
        V.RunNext(f, v, files, i);
        ghost var actual;
        err, actual := ImportFile(files[i], None, false);
        if err.Some? {
          return;
        }
      }
      assert files[..|files|] == files;
    }

    method HealAll(keys: seq<Key>)
      modifies this`entries, this`revision
      ensures V.Run(V.Healing(), old(State()), keys) == V.Ok(State())
    {
      hide V.Heal;
      ghost var f, v := V.Healing(), State();
      V.RunNone(f, v, keys);
      for i := 0 to |keys|
        invariant V.Run(f, v, keys[..i]) == V.Ok(State())
      {
        V.RunNext(f, v, keys, i);
        V.HealIsOk(State(), keys[i]);
        HealEntry(keys[i]);
      }
      assert keys[..|keys|] == keys;
    }

    method DetectAll(present: set<Key>, keys: seq<Key>)
      modifies this`entries, this`revision, this`markers, this`sidecars
      ensures V.Run(V.Detecting(present), old(State()), keys) == V.Ok(State())
    {
      hide V.DetectDelete;
      ghost var f, v := V.Detecting(present), State();
      V.RunNone(f, v, keys);
      for i := 0 to |keys|
        invariant V.Run(f, v, keys[..i]) == V.Ok(State())
      {
        V.RunNext(f, v, keys, i);
        V.DetectIsOk(present, State(), keys[i]);
        DetectDelete(present, keys[i]);
      }
      assert keys[..|keys|] == keys;
    }

    method ReconcileAll(present: set<Key>, keys: seq<Key>) returns (err: Option<V.Error>)
      modifies this
      ensures var r := V.Run(V.Reconciling(present), old(State()), keys); State() == r.v && err == V.ErrorOf(r)
    {
      hide V.Reconcile;
      ghost var f, v := V.Reconciling(present), State();
      err := None;
      V.RunNone(f, v, keys);
      for i := 0 to |keys|
        invariant V.Run(f, v, keys[..i]) == V.Ok(State()) && err.None?
      {
        V.RunNext(f, v, keys, i);
        err := Reconcile(present, keys[i]);
        if err.Some? {
          return;
        }
      }
      assert keys[..|keys|] == keys;
    }

    method RevertAll(files: seq<Key>)
      modifies this`disk, this`sidecars
      ensures V.Run(V.Reverting(), old(State()), files) == V.Ok(State())
    {
      hide V.Revert;
      ghost var f, v := V.Reverting(), State();
      V.RunNone(f, v, files);
      for i := 0 to |files|
        invariant V.Run(f, v, files[..i]) == V.Ok(State())
      {
        V.RunNext(f, v, files, i);
        V.RevertIsOk(State(), files[i]);
        RevertFile(files[i]);
      }
      assert files[..|files|] == files;
    }

    /** Project past the guard that protects unsynced edits; a binary is left alone. */
    method RevertFile(k: Key)
      modifies this`disk, this`sidecars
      ensures V.Revert(old(State()), k) == V.Ok(State())
    {
      if k in disk && disk[k].Utf8? {
        var text := TextOf(k);
        if disk[k].text == text && k in sidecars && sidecars[k] == text {
          return;
        }
        disk := disk[k := Utf8(text)];
        sidecars := sidecars[k := text];
      }
    }

    /** Reconcile the whole folder. A writer imports every file, gives entry-less files
        their entries, tombstones files deleted here, then applies the entries to disk;
        a reader puts its texts back and applies the entries. */
    method Scan() returns (err: Option<V.Error>, ghost o: V.Orders)
      modifies this
      ensures old(mayWrite) ==>
                V.Covers(Cfg(), old(State()), o) && var r := V.Scan(Cfg(), old(State()), o); State() == r.v && err == V.ErrorOf(r)
      ensures !old(mayWrite) ==>
                V.ReaderCovers(old(State()), o) && var r := V.ReaderScan(old(State()), o); State() == r.v && err == V.ErrorOf(r)
    {
      hide V.Scan, V.ReaderScan, V.Covers, V.ReaderCovers;
      if mayWrite {
        err, o := ScanAsWriter();
      } else {
        err, o := ScanAsReader();
      }
    }

    method ScanAsReader() returns (err: Option<V.Error>, ghost o: V.Orders)
      modifies this
      ensures V.ReaderCovers(old(State()), o)
      ensures var r := V.ReaderScan(old(State()), o); State() == r.v && err == V.ErrorOf(r)
    {
      hide V.Run, V.Lists;
      var present := disk.Keys;
      var files := List(present);
      RevertAll(files);
      var applied := List(entries.Keys);
      o := V.Orders(files, [], [], applied);
      err := ReconcileAll(present, applied);
    }

    method ScanAsWriter() returns (err: Option<V.Error>, ghost o: V.Orders)
      requires mayWrite
      modifies this
      ensures V.Covers(Cfg(), old(State()), o)
      ensures var r := V.Scan(Cfg(), old(State()), o); State() == r.v && err == V.ErrorOf(r)
    {
      hide V.Run, V.Lists;
      var present := disk.Keys;
      var files := List(present);
      o := V.Orders(files, files, [], []);
      err := ImportAll(files);
      if err.Some? {
        return;
      }
      var healed := List(present);
      HealAll(healed);
      var checked := List(entries.Keys);
      DetectAll(present, checked);
      var applied := List(entries.Keys);
      o := V.Orders(files, healed, checked, applied);
      err := ReconcileAll(present, applied);
    }
  }

  lemma ProjectionOnlyFailsDirty(v: V.Vault, k: Key)
    ensures V.ProjectFile(v, k).Err? ==> V.ProjectFile(v, k).error == V.DirtyFile
  {}

  /** Some listing of a set of keys. */
  method List(s: set<Key>) returns (q: seq<Key>)
    ensures V.Lists(q, s)
  {
    q := [];
    var todo := s;
    while todo != {}
      invariant todo <= s && V.Lists(q, s - todo)
      decreases |todo|
    {
      var k :| k in todo;
      todo := todo - {k};
      q := q + [k];
    }
  }

  lemma NoOps(text: string, ops: seq<TextOp>)
    ensures ApplyOps(text, ops[..0]) == Some(text)
  {}

  lemma {:induction false} PrefixApplies(text: string, ops: seq<TextOp>, i: nat)
    requires i < |ops| && ApplyOps(text, ops).Some?
    ensures ApplyOps(text, ops[..i]).Some? && ApplyOp(ApplyOps(text, ops[..i]).value, ops[i]).Some?
    ensures ApplyOps(text, ops[..i + 1]) == ApplyOp(ApplyOps(text, ops[..i]).value, ops[i])
  {
    assert ops[..i + 1] == ops[..i] + [ops[i]];
    ApplyOneMore(text, ops[..i], ops[i]);
    if i + 1 < |ops| {
      PrefixApplies(text, ops[..|ops| - 1], i);
      assert ops[..|ops| - 1][..i] == ops[..i] && ops[..|ops| - 1][..i + 1] == ops[..i + 1];
    } else {
      assert ops[..i + 1] == ops;
    }
  }
}
