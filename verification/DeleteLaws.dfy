/** Deletes against concurrent edits, and recovery from a failed import. */
module DeleteLaws {
  import opened Prelude
  import opened Rebase
  import opened FileSet
  import opened Vault
  import opened ScanViews
  import opened ScanLaws

  // ---------------------------------------------------------------- what a delete records

  /** An explicit delete of a text file records the text this device last synced,
      whatever the container has since become. */
  lemma DeleteRecordsLastSync(v: Vault, k: Key)
    requires v.mayWrite && k in v.sidecars && (k in v.entries ==> v.entries[k].kind.Text?)
    ensures DeleteFile(v, k).Ok?
    ensures var s := At(DeleteFile(v, k).v, k);
            && s.entry.Some? && s.entry.value.IsTombstone(Text, TextHash(v.sidecars[k]))
            && s.disk.None? && s.sidecar.None? && s.text == v.TextOf(k)
  {
    TombstoneAt(v, k, Text, LastSynced(v, k), k);
    var w := WriteTombstone(v, k, Text, LastSynced(v, k));
    DropFileAt(w, k, k);
    DropSidecarAt(DropFile(w, k), k, k);
  }

  /** So does a scan that finds the file gone. */
  lemma ScanRecordsLastSync(cfg: Config, v: Vault, o: Orders, k: Key)
    requires Covers(cfg, v, o) && Scan(cfg, v, o).Ok?
    requires k !in v.disk && k in v.sidecars && k in v.entries && v.entries[k].status.Live? && v.entries[k].kind.Text?
    ensures var s := At(Scan(cfg, v, o).v, k);
            && s.entry.Some? && s.entry.value.IsTombstone(Text, TextHash(v.sidecars[k]))
            && s.disk.None? && s.sidecar.None? && s.text == v.TextOf(k)
  {
    var at := ScanAt(cfg, v, o, k);
  }

  // ---------------------------------------------------------------- delete versus edit

  ghost predicate KeptLive(s: View) {
    s.disk.Some? && s.disk.value.Utf8? && IsLiveText(s)
  }

  lemma TombstoneMeetsText(cfg: Config, s: View, l: string, e: FileEntry, blobs: set<Content>, at: nat)
    requires s.disk == Some(Utf8(l)) && s.entry == Some(e) && e.status.Tombstoned? && e.kind.Text?
    ensures var t := ScanView(cfg, s, blobs, at);
            if ImportHasOps(cfg, s, l) || TextHash(s.text) != e.contentHash then KeptLive(t)
            else t.disk.None? && t.sidecar.None? && t.entry == s.entry && t.text == s.text
  {
    hide ScanView, Merged;
    if ImportHasOps(cfg, s, l) { ImportedSettles(cfg, s, l, blobs, at); } else { QuietTextScan(cfg, s, l, blobs, at); }
  }

  /** A scan that meets a text tombstone while the file is still here keeps it as a
      live entry exactly when the file has an edit to contribute or the container is
      not the text the tombstone records; otherwise file and sidecar go. */
  lemma TombstoneMeetsScan(cfg: Config, v: Vault, o: Orders, k: Key, l: string)
    requires Covers(cfg, v, o) && Scan(cfg, v, o).Ok? && k in v.disk && v.disk[k] == Utf8(l)
    requires k in v.entries && v.entries[k].status.Tombstoned? && v.entries[k].kind.Text?
    ensures var t := At(Scan(cfg, v, o).v, k);
            if ImportHasOps(cfg, At(v, k), l) || TextHash(v.TextOf(k)) != v.entries[k].contentHash then KeptLive(t)
            else t.disk.None? && t.sidecar.None? && t.entry == Some(v.entries[k])
  {
    hide Merged, ScanView;
    var at := ScanAt(cfg, v, o, k);
    TombstoneMeetsText(cfg, At(v, k), l, v.entries[k], Step1(cfg, v, o).v.blobs, at);
  }

  /** A device after it learns of an entry from another. */
  ghost function Told(v: Vault, k: Key, e: FileEntry): Vault { v.(entries := v.entries[k := e]) }

  /** Two devices: what the second makes of a deletion that records `base`. */
  ghost predicate Decides(cfg: Config, other: Vault, k: Key, l: string, base: string, e: FileEntry, t: View) {
    if ImportHasOps(cfg, At(other, k), l) || other.TextOf(k) != base then KeptLive(t)
    else t.disk.None? && t.sidecar.None? && t.entry == Some(e)
  }

  lemma ToldDecides(cfg: Config, other: Vault, o: Orders, k: Key, l: string, base: string, e: FileEntry)
    requires k in other.disk && other.disk[k] == Utf8(l) && e.IsTombstone(Text, TextHash(base))
    requires Covers(cfg, Told(other, k, e), o) && Scan(cfg, Told(other, k, e), o).Ok?
    ensures Decides(cfg, other, k, l, base, e, At(Scan(cfg, Told(other, k, e), o).v, k))
  {
    hide Merged, Scan, Covers;
    var told := Told(other, k, e);
    assert At(told, k) == At(other, k).(entry := Some(e));
    assert Aim(cfg, At(told, k), l) == Aim(cfg, At(other, k), l);
    TombstoneMeetsScan(cfg, told, o, k, l);
  }

  /** Two devices. The first deletes a file; the second, which still has it, learns of
      the tombstone and scans. The file survives as a live entry exactly when the
      second device has an edit to contribute or its container already moved off the
      text the first last synced; otherwise file and sidecar go and the tombstone
      stands. */
  lemma DeleteVersusEdit(cfg: Config, deleter: Vault, other: Vault, o: Orders, k: Key, l: string)
    requires deleter.mayWrite && k in deleter.sidecars && (k in deleter.entries ==> deleter.entries[k].kind.Text?)
    requires k in other.disk && other.disk[k] == Utf8(l)
    requires var e := At(DeleteFile(deleter, k).v, k).entry;
             e.Some? && Covers(cfg, Told(other, k, e.value), o) && Scan(cfg, Told(other, k, e.value), o).Ok?
    ensures var e := At(DeleteFile(deleter, k).v, k).entry.value;
            Decides(cfg, other, k, l, deleter.sidecars[k], e, At(Scan(cfg, Told(other, k, e), o).v, k))
  {
    hide Scan, Covers, DeleteFile, Decides;
    DeleteRecordsLastSync(deleter, k);
    ToldDecides(cfg, other, o, k, l, deleter.sidecars[k], At(DeleteFile(deleter, k).v, k).entry.value);
  }

  /** The same when the first device's scan finds the file gone. */
  lemma ScanDeleteVersusEdit(cfg: Config, deleter: Vault, od: Orders, other: Vault, o: Orders, k: Key, l: string)
    requires Covers(cfg, deleter, od) && Scan(cfg, deleter, od).Ok?
    requires k !in deleter.disk && k in deleter.sidecars && k in deleter.entries
    requires deleter.entries[k].status.Live? && deleter.entries[k].kind.Text?
    requires k in other.disk && other.disk[k] == Utf8(l)
    requires var e := At(Scan(cfg, deleter, od).v, k).entry;
             e.Some? && Covers(cfg, Told(other, k, e.value), o) && Scan(cfg, Told(other, k, e.value), o).Ok?
    ensures var e := At(Scan(cfg, deleter, od).v, k).entry.value;
            Decides(cfg, other, k, l, deleter.sidecars[k], e, At(Scan(cfg, Told(other, k, e), o).v, k))
  {
    hide Scan, Covers, Decides;
    ScanRecordsLastSync(cfg, deleter, od, k);
    ToldDecides(cfg, other, o, k, l, deleter.sidecars[k], At(Scan(cfg, deleter, od).v, k).entry.value);
  }

  /** The same for binaries: the file stays exactly when its bytes differ from the
      ones the tombstone names. */
  lemma BlobDeleteVersusEdit(cfg: Config, v: Vault, o: Orders, k: Key, c: Content)
    requires Covers(cfg, v, o) && Scan(cfg, v, o).Ok?
    requires k in v.disk && v.disk[k] == c && c.Binary?
    requires k in v.entries && v.entries[k].status.Tombstoned? && v.entries[k].kind.Blob?
    ensures var t := At(Scan(cfg, v, o).v, k);
            if v.entries[k].contentHash != DigestOf(c)
            then t.disk == Some(c) && t.entry == Some(LiveBlob(c)) && t.marker
            else t.disk.None? && !t.marker && t.entry == Some(v.entries[k])
  {
    hide Merged;
    var at := ScanAt(cfg, v, o, k);
  }

  // ---------------------------------------------------------------- healing

  /** However far a failed import got, retrying it with no further failure brings
      container, sidecar and disk together. */
  lemma RetryConverges(cfg: Config, v: Vault, k: Key, l: string, actual: string)
    requires v.mayWrite && !LiveClash(v, k) && k in v.disk && v.disk[k] == Utf8(l)
    ensures var healed := ImportFailed(v, k, actual).v;
            && At(healed, k).sidecar == Some(actual) && At(healed, k).text == actual
            && ImportFile(cfg, healed, k).Ok?
            && Settled(At(ImportFile(cfg, healed, k).v, k)) && At(ImportFile(cfg, healed, k).v, k).text == l
  {
    hide Merged;
    var healed := ImportFailed(v, k, actual).v;
    assert healed.entries == v.entries && !LiveClash(healed, k);
    ImportAt(cfg, healed, k, k);
    assert Aim(cfg, At(healed, k), l) == l;
  }
}
