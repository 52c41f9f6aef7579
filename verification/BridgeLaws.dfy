/** What each single operation of the bridge does to the key it is for, that it does
    nothing to any other, and which errors it reports when. */
module BridgeLaws {
  import opened Prelude
  import opened ChangeScript
  import opened MergeLaws
  import opened FileSet
  import opened Vault
  import opened ScanViews
  import opened ScanLaws

  /** Nothing but what is stored under `k` and the count of writes moved. */
  ghost predicate OnlyAt(v: Vault, w: Vault, k: Key) {
    (forall j :: j != k ==> At(w, j) == At(v, j)) && w.blobs == v.blobs && w.mayWrite == v.mayWrite
  }

  // ---------------------------------------------------------------- tombstones

  /** A tombstone records its kind and content and the revision that includes it but
      not the write that adds the record. */
  lemma TombstoneMeans(v: Vault, k: Key, kind: EntryKind, h: Digest)
    ensures var w := WriteTombstone(v, k, kind, h);
            && k in w.entries && w.entries[k].IsTombstone(kind, h)
            && v.revision < w.entries[k].tombstonedAt.value < w.revision
            && At(w, k) == At(v, k).(entry := Some(w.entries[k])) && OnlyAt(v, w, k)
  {
    forall j ensures At(WriteTombstone(v, k, kind, h), j) == if j == k then At(v, k).(entry := At(WriteTombstone(v, k, kind, h), k).entry) else At(v, j) {
      TombstoneAt(v, k, kind, h, j);
    }
  }

  // ---------------------------------------------------------------- import

  /** Some live entry's key differs from `k` only in case. */
  ghost predicate Crowded(v: Vault, k: Key) {
    exists j :: j in v.entries && v.entries[j].status.Live? && Respelled(j, k)
  }

  ghost predicate Respelled(j: Key, k: Key) {
    j != k && |j| == |k| && forall i :: 0 <= i < |j| ==> SameLetter(j[i], k[i])
  }

  lemma CrowdedIff(v: Vault, k: Key)
    ensures LiveClash(v, k) <==> Crowded(v, k)
  {
    forall j ensures CaseClash(j, k) <==> Respelled(j, k) { CaseClashIff(j, k); }
  }

  /** An import refuses a reader, then a key that only case tells from a live one,
      then a missing file, and a refusal changes nothing. */
  lemma ImportRefusesIff(cfg: Config, v: Vault, k: Key)
    ensures var e := ErrorOf(ImportFile(cfg, v, k));
            && (e == Some(ReadOnly) <==> !v.mayWrite)
            && (e == Some(CaseCollision) <==> v.mayWrite && Crowded(v, k))
            && (e == Some(NoSuchFile) <==> v.mayWrite && !Crowded(v, k) && k !in v.disk)
            && (e in {Some(ReadOnly), Some(CaseCollision), Some(NoSuchFile)} ==> ImportFile(cfg, v, k).v == v)
            && (e.Some? ==> e.value in {ReadOnly, CaseCollision, NoSuchFile, InvalidHash})
  {
    hide Expected;
    CrowdedIff(v, k);
  }

  /** No two live entries are told apart by case alone. */
  ghost predicate CaseDistinct(v: Vault) {
    forall j, k :: j in v.entries && k in v.entries && v.entries[j].status.Live? && v.entries[k].status.Live? ==> !Respelled(j, k)
  }

  lemma RespelledBack(j: Key, k: Key)
    ensures Respelled(j, k) <==> Respelled(k, j)
  {}

  /** Importing never makes two such entries. */
  lemma ImportKeepsCaseDistinct(cfg: Config, v: Vault, k: Key)
    requires CaseDistinct(v)
    ensures CaseDistinct(ImportFile(cfg, v, k).v)
  {
    hide Expected, Respelled;
    var w := ImportFile(cfg, v, k).v;
    CrowdedIff(v, k);
    assert forall j :: j in w.entries && j != k ==> j in v.entries && w.entries[j] == v.entries[j];
    forall j ensures Respelled(j, k) <==> Respelled(k, j) { RespelledBack(j, k); }
    assert !Respelled(k, k) by { NotRespelled(k); }
  }

  lemma NotRespelled(k: Key)
    ensures !Respelled(k, k)
  {}

  /** A text import brings the container to that text, records the file's text as
      synced, and makes the entry live with it; with nothing to apply it does
      nothing. */
  lemma ImportTextMeans(cfg: Config, v: Vault, k: Key, l: string)
    requires v.mayWrite && !Crowded(v, k) && k in v.disk && v.disk[k] == Utf8(l)
    ensures var r, t := ImportFile(cfg, v, k), Target(cfg, v, k, l);
            && r.Ok? && OnlyAt(v, r.v, k)
            && (if t == v.TextOf(k) && |t| <= cfg.maxChars then r.v == v
                else At(r.v, k) == At(v, k).(text := t, sidecar := Some(l), entry := Some(FileEntry(Text, Live, DigestOf(Utf8(l)), None, None)))
                     && r.v.revision > v.revision)
  {
    hide Expected;
    CrowdedIff(v, k);
    forall j ensures At(ImportFile(cfg, v, k).v, j) == if j == k then ImportView(cfg, At(v, k)) else At(v, j) {
      ImportAt(cfg, v, k, j);
    }
    assert Aim(cfg, At(v, k), l) == Target(cfg, v, k, l);
  }

  /** What an import aims for: with no edit elsewhere since the last sync the file's
      text, with no edit here the container's, and where both wrote into nothing the
      container's text before the file's. */
  lemma TargetLaws(cfg: Config, v: Vault, k: Key, l: string)
    ensures v.TextOf(k) == Baseline(v, k) ==> Target(cfg, v, k, l) == l
    ensures l == Baseline(v, k) ==> Target(cfg, v, k, l) == v.TextOf(k)
    ensures Baseline(v, k) == "" && v.TextOf(k) != "" ==> Target(cfg, v, k, l) == v.TextOf(k) + l
  {
    var a, r := Baseline(v, k), v.TextOf(k);
    if r != a {
      var local, remote := cfg.differ(a, l), cfg.differ(a, r);
      assert Explains(local, a, l) && Explains(remote, a, r);
      if l == a { MergeOfUneditedLocal(local, remote); }
      if a == "" { MergeOfInserts(local, remote); }
    }
  }

  /** In single-version mode, and only there, a big binary takes the place of what its
      key named before, unless some other entry still names it. */
  ghost predicate Superseded(cfg: Config, v: Vault, k: Key, c: Content, old_: Content) {
    && cfg.threshold.Some? && Size(c) > cfg.threshold.value && old_ != c
    && k in v.entries && v.entries[k].contentHash == DigestOf(old_)
    && forall j :: j in v.entries && j != k ==> v.entries[j].contentHash != DigestOf(old_)
  }

  /** A binary import stores the bytes, marks the file as present and makes the entry
      live, except that a tombstone of the same bytes stands; a blob leaves the store
      exactly when it is superseded. */
  lemma ImportBinaryMeans(cfg: Config, v: Vault, k: Key, c: Content)
    requires k in v.disk && v.disk[k] == c && c.Binary? && ImportFile(cfg, v, k).Ok?
    ensures var w := ImportFile(cfg, v, k).v;
            && (forall j :: j != k ==> At(w, j) == At(v, j)) && w.mayWrite == v.mayWrite
            && At(w, k).disk == Some(c) && At(w, k).marker && At(w, k).sidecar == At(v, k).sidecar && At(w, k).text == v.TextOf(k)
            && At(w, k).entry == Some(if SameTombstone(At(v, k), c) then v.entries[k] else LiveBlob(c))
            && (forall d :: d in w.blobs <==> d == c || (d in v.blobs && !Superseded(cfg, v, k, c, d)))
  {
    forall j ensures At(ImportFile(cfg, v, k).v, j) == if j == k then ImportView(cfg, At(v, k)) else At(v, j) {
      ImportAt(cfg, v, k, j);
    }
    BlobsAfterImport(cfg, v, k, c);
  }

  lemma BlobsAfterImport(cfg: Config, v: Vault, k: Key, c: Content)
    requires c.Binary? && ImportBlob(cfg, v, k, c).Ok?
    ensures forall d :: d in ImportBlob(cfg, v, k, c).v.blobs <==> d == c || (d in v.blobs && !Superseded(cfg, v, k, c, d))
  {
    var set_ := SetEntry(v.(blobs := v.blobs + {c}), k, LiveBlob(c));
    forall d: Content | d != c ensures HashReferenced(set_, DigestOf(d)) <==> exists j :: j in v.entries && j != k && v.entries[j].contentHash == DigestOf(d) {
      if j :| j in set_.entries && set_.entries[j].contentHash == DigestOf(d) { assert j in v.entries && j != k; }
      if j :| j in v.entries && j != k && v.entries[j].contentHash == DigestOf(d) { assert j in set_.entries && set_.entries[j].contentHash == DigestOf(d); }
    }
  }

  /** A failed import moves only its own container and sidecar. */
  lemma FailedImportMeans(v: Vault, k: Key, actual: string)
    ensures var r := ImportFailed(v, k, actual);
            && At(r.v, k) == At(v, k).(text := actual, sidecar := Some(actual)) && OnlyAt(v, r.v, k)
            && ErrorOf(r) == Some(StorageFailure) && r.v.revision > v.revision
  {}

  // ---------------------------------------------------------------- projection

  /** A projection never overwrites an edit that is not synced: a text file that is
      neither the container's text nor the last synced one. In every other case file,
      sidecar and container agree afterwards. */
  lemma ProjectFileIff(v: Vault, k: Key)
    ensures var r := ProjectFile(v, k);
            var unsynced := k in v.disk && v.disk[k].Utf8? && v.disk[k] != Utf8(v.TextOf(k)) && !(k in v.sidecars && v.disk[k] == Utf8(v.sidecars[k]));
            && (ErrorOf(r) == (if unsynced then Some(DirtyFile) else None))
            && (unsynced ==> r.v == v)
            && (!unsynced ==> At(r.v, k) == At(v, k).(disk := Some(Utf8(v.TextOf(k))), sidecar := Some(v.TextOf(k))))
            && OnlyAt(v, r.v, k) && r.v.revision == v.revision
  {
    forall j ensures At(ProjectFile(v, k).v, j) == if j == k then ProjectView(At(v, k)) else At(v, j) {
      ProjectAt(v, k, j);
    }
  }

  /** A blob is written exactly when its bytes are here and no file is; only a hash
      that is none is an error. */
  lemma ProjectBlobIff(v: Vault, k: Key, h: Digest)
    ensures var r := ProjectBlob(v, k, h);
            && ErrorOf(r) == (if h.Malformed? then Some(InvalidHash) else None)
            && (if h.DigestOf? && h.content in v.blobs && k !in v.disk
                then At(r.v, k) == At(v, k).(disk := Some(h.content), marker := true) && r.v.revision == v.revision else r.v == v)
            && OnlyAt(v, r.v, k)
  {}

  // ---------------------------------------------------------------- delete and resurrect

  /** What a deletion of `k` records: a blob its own hash, a text what was last
      synced, and its container's text when nothing was. */
  ghost function Recorded(v: Vault, k: Key): (EntryKind, Digest) {
    if k in v.entries && v.entries[k].kind.Blob? then (Blob, v.entries[k].contentHash)
    else if k in v.sidecars then (Text, DigestOf(Utf8(v.sidecars[k])))
    else (Text, DigestOf(Utf8(v.TextOf(k))))
  }

  /** A delete tombstones one key, takes its file and sidecar and a blob's marker, and
      leaves its container, every blob and every other key alone. */
  lemma DeleteMeans(v: Vault, k: Key)
    requires v.mayWrite
    ensures var r := DeleteFile(v, k);
            && r.Ok? && OnlyAt(v, r.v, k)
            && k in r.v.entries && r.v.entries[k].IsTombstone(Recorded(v, k).0, Recorded(v, k).1)
            && k !in r.v.disk && k !in r.v.sidecars && r.v.texts == v.texts
            && (k in r.v.markers <==> k in v.markers && Recorded(v, k).0.Text?)
  {
    var isBlob := k in v.entries && v.entries[k].kind.Blob?;
    var kind, h := Recorded(v, k).0, Recorded(v, k).1;
    var w := WriteTombstone(v, k, kind, h);
    TombstoneMeans(v, k, kind, h);
    var w' := if isBlob then DropMarker(w, k) else w;
    forall j ensures j != k ==> At(DropSidecar(DropFile(w', k), k), j) == At(v, j) {
      DropMarkerAt(w, k, j);
      DropFileAt(w', k, j);
      DropSidecarAt(DropFile(w', k), k, j);
    }
  }

  lemma ReaderDeletesNothing(v: Vault, k: Key)
    requires !v.mayWrite
    ensures DeleteFile(v, k) == Err(v, ReadOnly) && Resurrect(v, k) == Err(v, ReadOnly)
  {}

  /** Resurrecting makes the entry live again with the content it named: a text's
      container, or a blob whose bytes are here, is back on disk. */
  lemma ResurrectMeans(v: Vault, k: Key)
    requires v.mayWrite && k in v.entries && Resurrect(v, k).Ok?
    ensures var w, e := Resurrect(v, k).v, v.entries[k];
            && OnlyAt(v, w, k)
            && At(w, k).entry == Some(FileEntry(e.kind, Live, e.contentHash, e.renamedFrom, None)) && At(w, k).text == v.TextOf(k)
            && (e.kind.Text? ==> Settled(At(w, k)))
            && (e.kind.Blob? && e.contentHash.DigestOf? && e.contentHash.content in v.blobs && k !in v.disk ==>
                  At(w, k).disk == Some(e.contentHash.content) && At(w, k).marker)
            && (k in v.disk && e.kind.Blob? ==> At(w, k).disk == At(v, k).disk)
  {
    var e := v.entries[k];
    var set_ := SetEntry(v, k, e.ToLive());
    forall j ensures At(set_, j) == if j == k then At(v, k).(entry := Some(e.ToLive())) else At(v, j) { SetEntryAt(v, k, e.ToLive(), j); }
    if e.kind.Blob? { ProjectBlobIff(set_, k, e.contentHash); } else { ProjectFileIff(set_, k); }
  }

  lemma ResurrectRefusesIff(v: Vault, k: Key)
    requires v.mayWrite
    ensures ErrorOf(Resurrect(v, k)) == Some(NotFound) <==> k !in v.entries
    ensures k !in v.entries ==> Resurrect(v, k).v == v
  {
    if k in v.entries {
      var set_ := SetEntry(v, k, v.entries[k].ToLive());
      ProjectBlobIff(set_, k, v.entries[k].contentHash);
      ProjectFileIff(set_, k);
    }
  }

  // ---------------------------------------------------------------- rename

  /** The entry a rename gives the new key. */
  function RenamedEntry(t: string, from: Key): FileEntry { FileEntry(Text, Live, DigestOf(Utf8(t)), Some(from), None) }

  /** The new key as seeded: the old container's text put in front of what is there. */
  function SeededView(s: View, t: string, from: Key): View { s.(text := t + s.text, entry := Some(RenamedEntry(t, from))) }

  /** Only the two keys of a rename are touched. */
  ghost predicate OnlyAtBoth(v: Vault, w: Vault, from: Key, to: Key) {
    (forall j :: j != from && j != to ==> At(w, j) == At(v, j)) && w.blobs == v.blobs && w.mayWrite == v.mayWrite
  }

  /** The middle of a rename: both entries are written, no file is touched. */
  ghost function Reentered(v: Vault, from: Key, to: Key): Vault {
    var t := v.TextOf(from);
    var seeded := if t == "" then v else v.(texts := v.texts[to := t + v.TextOf(to)], revision := v.revision + 1);
    WriteTombstone(SetEntry(seeded, to, RenamedEntry(t, from)), from, Text, TextHash(t))
  }

  lemma ReenteredAt(v: Vault, from: Key, to: Key, j: Key)
    requires from != to
    ensures var w, t := Reentered(v, from, to), v.TextOf(from);
            && (j == to ==> At(w, to) == SeededView(At(v, to), t, from))
            && (j == from ==> At(w, from) == At(v, from).(entry := At(w, from).entry))
            && (j == from ==> At(w, from).entry.Some? && At(w, from).entry.value.IsTombstone(Text, TextHash(t)))
            && (j != from && j != to ==> At(w, j) == At(v, j))
            && w.blobs == v.blobs && w.mayWrite == v.mayWrite && w.disk == v.disk
  {
    var t := v.TextOf(from);
    var seeded := if t == "" then v else v.(texts := v.texts[to := t + v.TextOf(to)], revision := v.revision + 1);
    assert t == "" ==> t + v.TextOf(to) == v.TextOf(to);
    assert At(seeded, j) == if j == to then At(v, to).(text := t + v.TextOf(to)) else At(v, j);
    SetEntryAt(seeded, to, RenamedEntry(t, from), j);
    TombstoneAt(SetEntry(seeded, to, RenamedEntry(t, from)), from, Text, TextHash(t), j);
  }

  /** Moving the content of one key to another: the new key is projected from its
      seeded container unless it holds an unsynced edit, and only then the old file
      and sidecar go. The old key is a tombstone of the text that moved. */
  lemma MoveMeans(v: Vault, from: Key, to: Key)
    requires from != to
    ensures var r, t := MoveContent(v, from, to), v.TextOf(from);
            var s := SeededView(At(v, to), t, from);
            && ErrorOf(r) == (if DirtyView(s) then Some(DirtyFile) else None)
            && At(r.v, to) == (if DirtyView(s) then s else s.(disk := Some(Utf8(s.text)), sidecar := Some(s.text)))
            && At(r.v, from).text == t && At(r.v, from).marker == At(v, from).marker
            && At(r.v, from).entry.Some? && At(r.v, from).entry.value.IsTombstone(Text, TextHash(t))
            && At(r.v, from).disk == (if r.Ok? then None else At(v, from).disk)
            && At(r.v, from).sidecar == (if r.Ok? then None else At(v, from).sidecar)
            && OnlyAtBoth(v, r.v, from, to)
  {
    hide MoveContent;
    MovedFrom(v, from, to);
    MovedTo(v, from, to);
    forall j | j != from && j != to ensures At(MoveContent(v, from, to).v, j) == At(v, j) { MovedAt(v, from, to, j); }
    MovedStore(v, from, to);
  }

  lemma MovedFrom(v: Vault, from: Key, to: Key)
    requires from != to
    ensures var r, t := MoveContent(v, from, to), v.TextOf(from);
            && At(r.v, from).text == t && At(r.v, from).marker == At(v, from).marker
            && At(r.v, from).entry.Some? && At(r.v, from).entry.value.IsTombstone(Text, TextHash(t))
            && At(r.v, from).disk == (if r.Ok? then None else At(v, from).disk)
            && At(r.v, from).sidecar == (if r.Ok? then None else At(v, from).sidecar)
  {
    hide MoveContent, Reentered;
    MovedAt(v, from, to, from);
    ReenteredAt(v, from, to, from);
  }

  lemma MovedTo(v: Vault, from: Key, to: Key)
    requires from != to
    ensures var r, s := MoveContent(v, from, to), SeededView(At(v, to), v.TextOf(from), from);
            && ErrorOf(r) == (if DirtyView(s) then Some(DirtyFile) else None)
            && At(r.v, to) == (if DirtyView(s) then s else s.(disk := Some(Utf8(s.text)), sidecar := Some(s.text)))
  {
    var w := Reentered(v, from, to);
    assert ErrorOf(MoveContent(v, from, to)) == ErrorOf(ProjectFile(w, to));
    hide MoveContent, Reentered, ProjectFile;
    MovedAt(v, from, to, to);
    ReenteredAt(v, from, to, to);
    ProjectFails(w, to);
  }

  lemma MovedStore(v: Vault, from: Key, to: Key)
    ensures MoveContent(v, from, to).v.blobs == v.blobs && MoveContent(v, from, to).v.mayWrite == v.mayWrite
  {}

  lemma ProjectFails(v: Vault, k: Key)
    ensures ErrorOf(ProjectFile(v, k)) == if DirtyView(At(v, k)) then Some(DirtyFile) else None
  {}

  lemma MovedAt(v: Vault, from: Key, to: Key, j: Key)
    requires from != to
    ensures var w := Reentered(v, from, to);
            var r := MoveContent(v, from, to);
            && (j == to ==> At(r.v, to) == ProjectView(At(w, to)))
            && (j == from ==> At(r.v, from) == if r.Ok? then At(w, from).(disk := None, sidecar := None) else At(w, from))
            && (j != from && j != to ==> At(r.v, j) == At(v, j))
  {
    var w := Reentered(v, from, to);
    var x := ProjectFile(w, to).v;
    assert MoveContent(v, from, to) == match ProjectFile(w, to) { case Err(y, e) => Err(y, e) case Ok(y) => Ok(DropSidecar(DropFile(y, from), from)) };
    hide MoveContent, Reentered, ProjectFile;
    ReenteredAt(v, from, to, j);
    ProjectAt(w, to, j);
    DropFileAt(x, from, j);
    DropSidecarAt(DropFile(x, from), from, j);
  }

  /** Renaming a text to a fresh key: the new file, sidecar and container all hold the
      text the old file's import aims for and the new entry is live, names that text
      and where it came from; the old key has neither file nor sidecar and is a
      tombstone of that text; nothing else moves. */
  lemma RenameMovesText(cfg: Config, v: Vault, from: Key, to: Key, l: string)
    requires v.mayWrite && from != to && !Crowded(v, from) && from in v.disk && v.disk[from] == Utf8(l)
    requires to !in v.disk && v.TextOf(to) == ""
    ensures var r, t := RenameFile(cfg, v, from, to), Target(cfg, v, from, l);
            && r.Ok?
            && At(r.v, to) == View(Some(Utf8(t)), Some(t), to in v.markers, Some(RenamedEntry(t, from)), t)
            && At(r.v, from).disk.None? && At(r.v, from).sidecar.None? && At(r.v, from).text == t
            && At(r.v, from).entry.Some? && At(r.v, from).entry.value.IsTombstone(Text, DigestOf(Utf8(t)))
            && OnlyAtBoth(v, r.v, from, to)
  {
    hide Expected, MoveContent, ImportFile;
    ImportTextMeans(cfg, v, from, l);
    var w, t := ImportFile(cfg, v, from).v, Target(cfg, v, from, l);
    assert At(w, from).text == t;
    assert At(w, to) == At(v, to);
    MoveMeans(w, from, to);
    assert t + "" == t;
  }

  /** Whatever goes wrong, the old file is still there. */
  lemma FailedRenameKeepsFile(cfg: Config, v: Vault, from: Key, to: Key)
    requires RenameFile(cfg, v, from, to).Err?
    ensures At(RenameFile(cfg, v, from, to).v, from).disk == At(v, from).disk
  {
    hide Expected, MoveContent, ImportFile;
    if v.mayWrite && from != to {
      ImportKeepsDisk(cfg, v, from);
      var w := if from in v.disk then ImportFile(cfg, v, from).v else v;
      MoveMeans(w, from, to);
    }
  }

  lemma ImportKeepsDisk(cfg: Config, v: Vault, k: Key)
    ensures ImportFile(cfg, v, k).v.disk == v.disk
  {
    hide Expected;
  }

  /** When a rename is refused. */
  lemma RenameRefusesIff(cfg: Config, v: Vault, from: Key, to: Key)
    ensures RenameFile(cfg, v, from, to) == Err(v, ReadOnly) <==> !v.mayWrite
    ensures v.mayWrite && from == to ==> RenameFile(cfg, v, from, to) == Ok(v)
    ensures v.mayWrite && from != to && from in v.disk && Crowded(v, from) ==> RenameFile(cfg, v, from, to) == Err(v, CaseCollision)
  {
    hide Expected, MoveContent, ImportFile;
    ImportRefusesIff(cfg, v, from);
    if v.mayWrite && from != to {
      var w := if from in v.disk then ImportFile(cfg, v, from).v else v;
      MoveMeans(w, from, to);
    }
  }

  /** A rename always writes text: the bytes of a binary are on disk under neither key
      afterwards. */
  lemma RenameDropsBinary(cfg: Config, v: Vault, from: Key, to: Key)
    requires from != to && from in v.disk && v.disk[from].Binary? && RenameFile(cfg, v, from, to).Ok?
    ensures var w := RenameFile(cfg, v, from, to).v;
            && At(w, from).disk.None?
            && At(w, to).disk == Some(Utf8(v.TextOf(from) + v.TextOf(to)))
  {
    hide Expected, MoveContent, ImportFile;
    var w := ImportFile(cfg, v, from).v;
    ImportAt(cfg, v, from, from);
    ImportAt(cfg, v, from, to);
    assert At(w, from).text == v.TextOf(from);
    MoveMeans(w, from, to);
  }
}
