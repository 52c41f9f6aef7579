/** The scan, key by key: every step touches one key at a time, so what a whole
    scan does to a key is a function of that key's own state. */
module ScanViews {
  import opened Prelude
  import opened FileSet
  import opened Vault

  /** Everything a vault holds about one key. */
  datatype View = View(disk: Option<Content>, sidecar: Option<string>, marker: bool, entry: Option<FileEntry>, text: string)

  function Get<T>(m: map<Key, T>, k: Key): Option<T> { if k in m then Some(m[k]) else None }

  function At(v: Vault, k: Key): View {
    View(Get(v.disk, k), Get(v.sidecars, k), k in v.markers, Get(v.entries, k), v.TextOf(k))
  }

  // ---------------------------------------------------------------- one key through each step

  /** The text an import of `l` aims for, from one key's state. */
  ghost function Aim(cfg: Config, s: View, l: string): string {
    Expected(cfg, if s.sidecar.Some? then s.sidecar.value else s.text, l, s.text)
  }

  ghost predicate ImportHasOps(cfg: Config, s: View, l: string) { HasOps(cfg, s.text, Aim(cfg, s, l)) }

  ghost function ImportView(cfg: Config, s: View): View {
    match s.disk
    case None => s
    case Some(Utf8(l)) =>
      if !ImportHasOps(cfg, s, l) then s
      else s.(text := Aim(cfg, s, l), sidecar := Some(l), entry := Some(LiveText(l)))
    case Some(Binary(b)) =>
      if s.entry.Some? && s.entry.value.status.Tombstoned? && s.entry.value.kind.Blob? && s.entry.value.contentHash == DigestOf(Binary(b))
      then s.(marker := true)
      else s.(marker := true, entry := Some(LiveBlob(Binary(b))))
  }

  function HealView(s: View): View {
    if s.disk.Some? && s.entry.None? && s.sidecar.Some? then s.(entry := Some(LiveText(s.text))) else s
  }

  /** `at` is the revision the tombstone records. */
  function DetectView(s: View, at: nat): View {
    if s.entry.None? || !s.entry.value.status.Live? || s.disk.Some? then s
    else if s.entry.value.kind.Blob? then
      if s.marker then s.(marker := false, entry := Some(FileEntry(Blob, Tombstoned, s.entry.value.contentHash, None, Some(at)))) else s
    else
      if s.sidecar.Some?
      then s.(sidecar := None, entry := Some(FileEntry(Text, Tombstoned, TextHash(s.sidecar.value), None, Some(at))))
      else s
  }

  predicate DirtyView(s: View) {
    && s.disk.Some? && s.disk.value.Utf8? && s.disk.value.text != s.text
    && (s.sidecar.Some? ==> s.disk.value.text != s.sidecar.value)
  }

  function ProjectView(s: View): View {
    if DirtyView(s) then s else s.(disk := Some(Utf8(s.text)), sidecar := Some(s.text))
  }

  function ReconcileView(s: View, blobs: set<Content>): View {
    if s.entry.None? then s
    else
      var e := s.entry.value;
      if e.status.Live? then
        if e.kind.Blob? then
          if e.contentHash.DigestOf? && e.contentHash.content in blobs && s.disk.None?
          then s.(disk := Some(e.contentHash.content), marker := true) else s
        else if s.disk.Some? || s.sidecar.None? then ProjectView(s) else s
      else if e.kind.Blob? then s.(disk := None, marker := false, sidecar := None)
      else if s.disk.None? then s.(sidecar := None)
      else if TextHash(s.text) == e.contentHash then s.(disk := None, sidecar := None)
      else ProjectView(s.(entry := Some(LiveText(s.text))))
  }

  /** One key through a whole scan; `blobs` is the blob store after the imports. */
  ghost function ScanView(cfg: Config, s: View, blobs: set<Content>, at: nat): View {
    ReconcileView(DetectView(HealView(ImportView(cfg, s)), at), blobs)
  }

  // ---------------------------------------------------------------- steps are local

  /** A step that changes nothing about any other key. */
  ghost predicate Local(f: (Vault, Key) -> Res) {
    forall v, k, j :: j != k ==> At(f(v, k).v, j) == At(v, j)
  }

  /** A step that leaves blobs and write permission alone. */
  ghost predicate KeepsBlobs(f: (Vault, Key) -> Res) {
    forall v, k :: f(v, k).v.blobs == v.blobs
  }

  ghost predicate KeepsRole(f: (Vault, Key) -> Res) {
    forall v, k :: f(v, k).v.mayWrite == v.mayWrite
  }

  lemma {:induction false} RunElsewhere(f: (Vault, Key) -> Res, v: Vault, q: seq<Key>, k: Key)
    requires Local(f) && k !in q
    ensures At(Run(f, v, q).v, k) == At(v, k)
  {
    if q != [] {
      RunElsewhere(f, v, q[..|q| - 1], k);
    }
  }

  lemma {:induction false} RunKeeps(f: (Vault, Key) -> Res, v: Vault, q: seq<Key>)
    ensures KeepsBlobs(f) ==> Run(f, v, q).v.blobs == v.blobs
    ensures KeepsRole(f) ==> Run(f, v, q).v.mayWrite == v.mayWrite
  {
    if q != [] {
      RunKeeps(f, v, q[..|q| - 1]);
    }
  }

  /** A successful run of a local step visits each listed key once, at a moment
      when that key still reads as it did at the start. */
  lemma {:induction false} RunVisits(f: (Vault, Key) -> Res, v: Vault, q: seq<Key>, k: Key) returns (w: Vault)
    requires Local(f) && Distinct(q) && k in q && Run(f, v, q).Ok?
    ensures At(w, k) == At(v, k) && f(w, k).Ok? && At(Run(f, v, q).v, k) == At(f(w, k).v, k)
    ensures KeepsBlobs(f) ==> w.blobs == v.blobs
    ensures KeepsRole(f) ==> w.mayWrite == v.mayWrite
  {
    var init, last := q[..|q| - 1], q[|q| - 1];
    if last == k {
      w := Run(f, v, init).v;
      RunElsewhere(f, v, init, k);
      RunKeeps(f, v, init);
    } else {
      w := RunVisits(f, v, init, k);
    }
  }

  // ---------------------------------------------------------------- each step, seen from any key

  lemma SetEntryAt(v: Vault, k: Key, e: FileEntry, j: Key)
    ensures At(SetEntry(v, k, e), j) == if j == k then At(v, k).(entry := Some(e)) else At(v, j)
  {}

  lemma ImportTextAt(cfg: Config, v: Vault, k: Key, l: string, j: Key)
    requires k in v.disk && v.disk[k] == Utf8(l)
    ensures At(ImportText(cfg, v, k, l), j) == if j == k then ImportView(cfg, At(v, k)) else At(v, j)
    ensures ImportText(cfg, v, k, l).blobs == v.blobs && ImportText(cfg, v, k, l).mayWrite == v.mayWrite
  {
    hide Expected;
    var e := Target(cfg, v, k, l);
    assert e == Aim(cfg, At(v, k), l);
    var w := v.(texts := v.texts[k := e], sidecars := v.sidecars[k := l], revision := v.revision + 1);
    assert At(w, j) == if j == k then At(v, k).(text := e, sidecar := Some(l)) else At(v, j);
    SetEntryAt(w, k, LiveText(l), j);
  }

  /** What a blob import leaves at each key, before the marker is written. */
  lemma ImportBlobAt(cfg: Config, v: Vault, k: Key, c: Content, j: Key)
    requires k in v.disk && v.disk[k] == c && c.Binary?
    ensures var w := ImportBlob(cfg, v, k, c).v;
            && At(w, j) == (if j == k then ImportView(cfg, At(v, k)).(marker := k in v.markers) else At(v, j))
            && w.mayWrite == v.mayWrite
  {
    var stored := v.(blobs := v.blobs + {c});
    assert At(stored, j) == At(v, j);
    SetEntryAt(stored, k, LiveBlob(c), j);
  }

  lemma ImportAt(cfg: Config, v: Vault, k: Key, j: Key)
    ensures var r := ImportFile(cfg, v, k);
            && (j != k ==> At(r.v, j) == At(v, j))
            && (j == k && r.Ok? ==> At(r.v, k) == ImportView(cfg, At(v, k)))
            && r.v.mayWrite == v.mayWrite
  {
    if v.mayWrite && !LiveClash(v, k) && k in v.disk {
      if v.disk[k].Utf8? {
        ImportTextAt(cfg, v, k, v.disk[k].text, j);
      } else {
        ImportBlobAt(cfg, v, k, v.disk[k], j);
      }
    }
  }

  lemma ImportIsLocal(cfg: Config)
    ensures Local(Importing(cfg)) && KeepsRole(Importing(cfg))
  {
    forall v, k, j ensures At(Importing(cfg)(v, k).v, j) == At(v, j) || j == k {
      ImportAt(cfg, v, k, j);
    }
    forall v, k ensures Importing(cfg)(v, k).v.mayWrite == v.mayWrite {
      ImportAt(cfg, v, k, k);
    }
  }

  lemma HealAt(v: Vault, k: Key, j: Key)
    ensures At(Heal(v, k).v, j) == if j == k && k in v.disk then HealView(At(v, k)) else if j == k then At(Heal(v, k).v, k) else At(v, j)
  {}

  lemma HealIsLocal()
    ensures Local(Healing()) && KeepsRole(Healing()) && KeepsBlobs(Healing())
  {
    forall v, k, j ensures At(Healing()(v, k).v, j) == At(v, j) || j == k {
      HealAt(v, k, j);
    }
  }

  lemma DropSidecarAt(v: Vault, k: Key, j: Key)
    ensures At(DropSidecar(v, k), j) == if j == k then At(v, k).(sidecar := None) else At(v, j)
  {}

  lemma DropMarkerAt(v: Vault, k: Key, j: Key)
    ensures At(DropMarker(v, k), j) == if j == k then At(v, k).(marker := false) else At(v, j)
  {}

  lemma DropFileAt(v: Vault, k: Key, j: Key)
    ensures At(DropFile(v, k), j) == if j == k then At(v, k).(disk := None) else At(v, j)
  {}

  lemma TombstoneAt(v: Vault, k: Key, kind: EntryKind, h: Digest, j: Key)
    ensures At(WriteTombstone(v, k, kind, h), j)
         == if j == k then At(v, k).(entry := Some(FileEntry(kind, Tombstoned, h, None, Some(v.revision + 1)))) else At(v, j)
  {}

  lemma DetectAt(present: set<Key>, v: Vault, k: Key, j: Key)
    requires j == k ==> (k in present <==> k in v.disk)
    ensures At(DetectDelete(present, v, k).v, j) == if j == k then DetectView(At(v, k), v.revision + 1) else At(v, j)
  {
    if k in v.entries && v.entries[k].status.Live? && k !in present {
      var h := if v.entries[k].kind.Blob? then v.entries[k].contentHash else LastSynced(v, k);
      var w := WriteTombstone(v, k, v.entries[k].kind, h);
      TombstoneAt(v, k, v.entries[k].kind, h, j);
      DropSidecarAt(w, k, j);
      DropMarkerAt(w, k, j);
    }
  }

  lemma DetectIsLocal(present: set<Key>)
    ensures Local(Detecting(present)) && KeepsRole(Detecting(present)) && KeepsBlobs(Detecting(present))
  {
    forall v, k, j | j != k ensures At(Detecting(present)(v, k).v, j) == At(v, j) {
      DetectAt(present, v, k, j);
    }
    forall v, k ensures Detecting(present)(v, k).v.blobs == v.blobs && Detecting(present)(v, k).v.mayWrite == v.mayWrite {}
  }

  lemma ProjectAt(v: Vault, k: Key, j: Key)
    ensures At(ProjectFile(v, k).v, j) == if j == k then ProjectView(At(v, k)) else At(v, j)
    ensures ProjectFile(v, k).Err? ==> ProjectFile(v, k).error.DirtyFile?
    ensures ProjectFile(v, k).v.blobs == v.blobs && ProjectFile(v, k).v.mayWrite == v.mayWrite
  {
    assert Dirty(v, k) <==> DirtyView(At(v, k));
  }

  /** Step 3 on an entry that is live. */
  lemma ReconcileLiveAt(present: set<Key>, v: Vault, k: Key, j: Key)
    requires k in v.entries && v.entries[k].status.Live?
    requires j == k ==> (k in present <==> k in v.disk) && Reconcile(present, v, k).Ok?
    ensures At(Reconcile(present, v, k).v, j) == if j == k then ReconcileView(At(v, k), v.blobs) else At(v, j)
  {
    if v.entries[k].kind.Text? {
      ProjectAt(v, k, j);
    }
  }

  lemma BlobTombstoneAt(present: set<Key>, v: Vault, k: Key, j: Key)
    ensures var w := if k in present then DropFile(v, k) else v;
            At(DropSidecar(DropMarker(w, k), k), j)
              == if j == k then At(v, k).(disk := if k in present then None else At(v, k).disk, marker := false, sidecar := None) else At(v, j)
  {
    var w := if k in present then DropFile(v, k) else v;
    DropFileAt(v, k, j);
    DropMarkerAt(w, k, j);
    DropSidecarAt(DropMarker(w, k), k, j);
  }

  /** Step 3 on a tombstone. */
  lemma ReconcileTombstoneAt(present: set<Key>, v: Vault, k: Key, j: Key)
    requires k in v.entries && v.entries[k].status.Tombstoned?
    requires j == k ==> (k in present <==> k in v.disk) && Reconcile(present, v, k).Ok?
    ensures At(Reconcile(present, v, k).v, j) == if j == k then ReconcileView(At(v, k), v.blobs) else At(v, j)
  {
    if v.entries[k].kind.Blob? {
      BlobTombstoneAt(present, v, k, j);
    } else if k !in present {
      DropSidecarAt(v, k, j);
    } else if TextHash(v.TextOf(k)) == v.entries[k].contentHash {
      DropFileAt(v, k, j);
      DropSidecarAt(DropFile(v, k), k, j);
    } else {
      SetEntryAt(v, k, LiveText(v.TextOf(k)), j);
      SetEntryAt(v, k, LiveText(v.TextOf(k)), k);
      ProjectAt(SetEntry(v, k, LiveText(v.TextOf(k))), k, j);
    }
  }

  lemma ReconcileAt(present: set<Key>, v: Vault, k: Key, j: Key)
    requires j == k ==> (k in present <==> k in v.disk) && Reconcile(present, v, k).Ok?
    ensures At(Reconcile(present, v, k).v, j) == if j == k then ReconcileView(At(v, k), v.blobs) else At(v, j)
  {
    if k in v.entries {
      if v.entries[k].status.Live? { ReconcileLiveAt(present, v, k, j); } else { ReconcileTombstoneAt(present, v, k, j); }
    }
  }

  lemma ReconcileIsLocal(present: set<Key>)
    ensures Local(Reconciling(present)) && KeepsRole(Reconciling(present)) && KeepsBlobs(Reconciling(present))
  {
    forall v, k, j | j != k ensures At(Reconciling(present)(v, k).v, j) == At(v, j) {
      ReconcileAt(present, v, k, j);
    }
    forall v, k ensures Reconciling(present)(v, k).v.blobs == v.blobs && Reconciling(present)(v, k).v.mayWrite == v.mayWrite {}
  }
}
