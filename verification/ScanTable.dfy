/** What a whole scan makes of a key, situation by situation, and that it notices a
    file deleted behind its back. */
module ScanTable {
  import opened Prelude
  import opened Rebase
  import opened FileSet
  import opened Vault
  import opened ScanViews
  import opened ScanLaws
  import opened ScanRest

  /** A text file that is neither what the container holds nor what was last synced. */
  predicate Unsynced(s: View, l: string) { l != s.text && s.sidecar != Some(l) }

  /** The key with its file and sidecar brought to the container's text, unless that
      would overwrite an unsynced edit. */
  function Projected(s: View, l: string): View {
    if Unsynced(s, l) then s else s.(disk := Some(Utf8(s.text)), sidecar := Some(s.text))
  }

  function Gone(s: View): View { s.(disk := None, sidecar := None) }

  /** A text file is here. An import with something to apply settles it on the merge.
      Otherwise its entry decides: none is made good if the file was ever synced, a
      live text is projected, a blob entry is left alone, a tombstone takes the file
      unless the container moved on from what it records. */
  ghost predicate TextOutcome(cfg: Config, s: View, l: string, t: View) {
    var aim := Aim(cfg, s, l);
    if aim != s.text || |s.text| > cfg.maxChars then
      t == View(Some(Utf8(aim)), Some(aim), s.marker, Some(LiveText(l)), aim)
    else
      match s.entry
      case None => t == if s.sidecar.None? then s else Projected(s.(entry := Some(LiveText(s.text))), l)
      case Some(e) =>
        if e.status.Live? then t == if e.kind.Text? then Projected(s, l) else s
        else if e.kind.Blob? then t == Gone(s).(marker := false)
        else if e.contentHash == TextHash(s.text) then t == Gone(s)
        else t == Projected(s.(entry := Some(LiveText(s.text))), l)
  }

  /** A binary is here. It goes if a tombstone names its very bytes; otherwise it is
      recorded. */
  predicate BinaryOutcome(s: View, c: Content, t: View) {
    if s.entry.Some? && s.entry.value.status.Tombstoned? && s.entry.value.kind.Blob? && s.entry.value.contentHash == DigestOf(c)
    then t == Gone(s).(marker := false)
    else t == s.(marker := true, entry := Some(LiveBlob(c)))
  }

  /** No file is here. A live entry this device had the file of is a deletion; one it
      never had is brought to disk, a blob once its bytes are held. */
  ghost predicate AbsentOutcome(s: View, held: set<Content>, t: View) {
    match s.entry
    case None => t == s
    case Some(e) =>
      if e.status.Tombstoned? then t == s.(sidecar := None, marker := s.marker && e.kind.Text?)
      else if e.kind.Text? then
        match s.sidecar
        case Some(base) => t == s.(sidecar := None, entry := t.entry) && t.entry.Some? && t.entry.value.IsTombstone(Text, TextHash(base))
        case None => t == s.(disk := Some(Utf8(s.text)), sidecar := Some(s.text))
      else if s.marker then
        t == s.(sidecar := None, marker := false, entry := t.entry) && t.entry.Some? && t.entry.value.IsTombstone(Blob, e.contentHash)
      else if e.contentHash.DigestOf? && e.contentHash.content in held then
        t == s.(disk := Some(e.contentHash.content), marker := true)
      else t == s
  }

  ghost predicate Outcome(cfg: Config, s: View, held: set<Content>, t: View) {
    match s.disk
    case Some(Utf8(l)) => TextOutcome(cfg, s, l, t)
    case Some(Binary(b)) => BinaryOutcome(s, Binary(b), t)
    case None => AbsentOutcome(s, held, t)
  }

  lemma TextViewOutcome(cfg: Config, s: View, l: string, blobs: set<Content>, at: nat)
    requires s.disk == Some(Utf8(l))
    ensures TextOutcome(cfg, s, l, ScanView(cfg, s, blobs, at))
  {
    hide ScanView, Merged;
    if ImportHasOps(cfg, s, l) { ImportedSettles(cfg, s, l, blobs, at); } else { QuietTextScan(cfg, s, l, blobs, at); }
  }

  lemma OtherViewOutcome(cfg: Config, s: View, blobs: set<Content>, at: nat)
    requires s.disk.None? || s.disk.value.Binary?
    ensures Outcome(cfg, s, blobs, ScanView(cfg, s, blobs, at))
  {}

  lemma ViewOutcome(cfg: Config, s: View, blobs: set<Content>, at: nat)
    ensures Outcome(cfg, s, blobs, ScanView(cfg, s, blobs, at))
  {
    hide ScanView, Merged;
    if s.disk.Some? && s.disk.value.Utf8? {
      TextViewOutcome(cfg, s, s.disk.value.text, blobs, at);
    } else {
      OtherViewOutcome(cfg, s, blobs, at);
    }
  }

  /** The blobs a scan consults are those that are held or on disk at its start. */
  lemma ForeseenOutcome(cfg: Config, v: Vault, o: Orders, k: Key, at: nat)
    requires Covers(cfg, v, o) && Step1(cfg, v, o).Ok?
    ensures Outcome(cfg, At(v, k), Foreseen(v), ScanView(cfg, At(v, k), Step1(cfg, v, o).v.blobs, at))
  {
    hide ScanView, Merged;
    ViewOutcome(cfg, At(v, k), Step1(cfg, v, o).v.blobs, at);
    if k !in v.disk && k in v.entries && v.entries[k].contentHash.DigestOf? {
      var c := v.entries[k].contentHash.content;
      NamedBlobAfterImports(cfg, v, o.files, k, c);
      assert c in Step1(cfg, v, o).v.blobs <==> c in Foreseen(v);
    }
  }

  /** A successful scan brings every key to its outcome, whatever the others are. */
  lemma ScanBringsOutcome(cfg: Config, v: Vault, o: Orders, k: Key)
    requires Covers(cfg, v, o) && Scan(cfg, v, o).Ok?
    ensures Outcome(cfg, At(v, k), Foreseen(v), At(Scan(cfg, v, o).v, k))
  {
    hide ScanView, Outcome, At;
    var at := ScanAt(cfg, v, o, k);
    ForeseenOutcome(cfg, v, o, k, at);
  }

  // ---------------------------------------------------------------- the blob store

  lemma {:induction false} ImportsStore(cfg: Config, v: Vault, q: seq<Key>)
    requires cfg.threshold.None? && Run(Importing(cfg), v, q).Ok?
    ensures var w := Run(Importing(cfg), v, q).v;
            && w.disk == v.disk
            && forall c :: c in w.blobs <==> c in v.blobs || exists k :: k in q && k in v.disk && v.disk[k] == c && c.Binary?
  {
    if q != [] {
      var init, last := q[..|q| - 1], q[|q| - 1];
      ImportsStore(cfg, v, init);
      ImportStores(cfg, Run(Importing(cfg), v, init).v, last);
      hide ImportFile;
      assert forall k :: k in q <==> k in init || k == last;
    }
  }

  lemma ImportStores(cfg: Config, v: Vault, k: Key)
    requires cfg.threshold.None? && ImportFile(cfg, v, k).Ok?
    ensures k in v.disk && ImportFile(cfg, v, k).v.disk == v.disk
    ensures ImportFile(cfg, v, k).v.blobs == v.blobs + if v.disk[k].Binary? then {v.disk[k]} else {}
  {
    hide Expected;
  }

  /** Outside single-version mode a scan adds the binaries on disk to the blob store
      and drops nothing. */
  lemma ScanStoresBinaries(cfg: Config, v: Vault, o: Orders)
    requires cfg.threshold.None? && Covers(cfg, v, o) && Scan(cfg, v, o).Ok?
    ensures Scan(cfg, v, o).v.blobs == Foreseen(v)
  {
    ImportsStore(cfg, v, o.files);
    var at := ScanAt(cfg, v, o, "");
  }

  // ---------------------------------------------------------------- deletions

  ghost function Without(v: Vault, k: Key): Vault { v.(disk := v.disk - {k}) }

  ghost predicate HasEvidence(t: View) {
    && (t.disk.Some? && t.disk.value.Binary? ==> t.marker && t.entry.Some?)
    && (t.disk.Some? && IsLiveText(t) ==> t.sidecar.Some?)
  }

  lemma OutcomeHasEvidence(cfg: Config, s: View, held: set<Content>, t: View)
    requires Outcome(cfg, s, held, t)
    ensures HasEvidence(t)
  {
    hide Merged;
    if s.disk.Some? && s.disk.value.Utf8? && s.sidecar.None? {
      assert Aim(cfg, s, s.disk.value.text) == s.disk.value.text;
    }
    hide Aim;
  }

  /** After a scan every live text on disk has a sidecar and every binary a marker and
      an entry. */
  lemma ScanLeavesEvidence(cfg: Config, v: Vault, o: Orders, k: Key)
    requires Covers(cfg, v, o) && Scan(cfg, v, o).Ok?
    ensures HasEvidence(At(Scan(cfg, v, o).v, k))
  {
    hide Outcome, HasEvidence, Scan, Covers, At;
    ScanBringsOutcome(cfg, v, o, k);
    OutcomeHasEvidence(cfg, At(v, k), Foreseen(v), At(Scan(cfg, v, o).v, k));
  }

  /** A file that is deleted from the folder after a scan is tombstoned by the next
      one: a text with what was last synced, a binary with its own hash. */
  lemma DeletionIsNoticed(cfg: Config, v: Vault, o: Orders, o2: Orders, k: Key)
    requires Covers(cfg, v, o) && Scan(cfg, v, o).Ok?
    requires var w := Scan(cfg, v, o).v;
             && k in w.disk && k in w.entries && w.entries[k].status.Live? && (w.entries[k].kind.Text? || w.disk[k].Binary?)
             && Covers(cfg, Without(w, k), o2) && Scan(cfg, Without(w, k), o2).Ok?
    ensures var w := Scan(cfg, v, o).v;
            var t := At(Scan(cfg, Without(w, k), o2).v, k);
            && t.disk.None? && t.sidecar.None? && t.entry.Some?
            && (w.entries[k].kind.Text? ==> k in w.sidecars && t.entry.value.IsTombstone(Text, TextHash(w.sidecars[k])))
            && (w.entries[k].kind.Blob? ==> !t.marker && t.entry.value.IsTombstone(Blob, w.entries[k].contentHash))
  {
    hide Scan, Covers;
    var w := Scan(cfg, v, o).v;
    ScanLeavesEvidence(cfg, v, o, k);
    assert At(Without(w, k), k) == At(w, k).(disk := None);
    ScanBringsOutcome(cfg, Without(w, k), o2, k);
  }
}
