/** What a scan does on a device that may not write: when it succeeds, what it makes of
    every key, when it authors something after all, and when scanning again is idle. */
module ReaderScans {
  import opened Prelude
  import opened FileSet
  import opened Vault
  import opened ScanViews
  import opened ScanLaws
  import opened ScanOutcome
  import opened ScanTable

  // ---------------------------------------------------------------- key by key

  function RevertView(s: View): View {
    if s.disk.Some? && s.disk.value.Utf8? then s.(disk := Some(Utf8(s.text)), sidecar := Some(s.text)) else s
  }

  lemma RevertAt(v: Vault, k: Key, j: Key)
    ensures At(Revert(v, k).v, j) == if j == k then RevertView(At(v, k)) else At(v, j)
  {}

  lemma RevertIsLocal()
    ensures Local(Reverting())
  {
    forall v, k, j | j != k ensures At(Reverting()(v, k).v, j) == At(v, j) { RevertAt(v, k, j); }
  }

  /** The first pass authors nothing. */
  lemma {:induction false} RevertsKeep(v: Vault, q: seq<Key>)
    ensures var r := Run(Reverting(), v, q);
            && r.Ok? && r.v.entries == v.entries && r.v.texts == v.texts && r.v.blobs == v.blobs
            && r.v.revision == v.revision && r.v.mayWrite == v.mayWrite
  {
    if q != [] { RevertsKeep(v, q[..|q| - 1]); }
  }

  lemma RevertsAt(v: Vault, q: seq<Key>, k: Key)
    requires Lists(q, v.disk.Keys)
    ensures At(Run(Reverting(), v, q).v, k) == RevertView(At(v, k)) && (k in Run(Reverting(), v, q).v.disk <==> k in v.disk)
  {
    RevertIsLocal();
    RevertsKeep(v, q);
    if k in v.disk {
      var w := RunVisits(Reverting(), v, q, k);
      RevertAt(w, k, k);
    } else {
      RunElsewhere(Reverting(), v, q, k);
    }
    var w := Run(Reverting(), v, q).v;
    assert At(w, k).disk.Some? <==> At(v, k).disk.Some?;
  }

  lemma ReaderScanAt(v: Vault, o: Orders, k: Key)
    requires ReaderCovers(v, o) && ReaderScan(v, o).Ok?
    ensures At(ReaderScan(v, o).v, k) == ReconcileView(RevertView(At(v, k)), v.blobs)
    ensures ReaderScan(v, o).v.blobs == v.blobs
  {
    hide ReconcileView, RevertView;
    RevertsKeep(v, o.files);
    RevertsAt(v, o.files, k);
    ReconcileRunAt(v.disk.Keys, Run(Reverting(), v, o.files).v, o.applied, k);
  }

  /** A reader's scan fails exactly when a live blob entry's hash is no digest. */
  lemma ReaderScanSucceedsIff(v: Vault, o: Orders)
    requires ReaderCovers(v, o)
    ensures ReaderScan(v, o).Ok? <==> forall k :: !IsBad(At(v, k))
  {
    hide IsBad, RevertView;
    RevertsKeep(v, o.files);
    var w := Run(Reverting(), v, o.files).v;
    forall k ensures (IsBad(At(w, k)) <==> IsBad(At(v, k))) && (k in v.disk <==> k in w.disk) {
      RevertsAt(v, o.files, k);
      BadByEntry(At(w, k), At(v, k));
    }
    ReconcilesSucceedIff(v.disk.Keys, w, o.applied);
    forall k | IsBad(At(v, k)) ensures k in o.applied { BadIsListed(v, k); }
  }

  lemma BadByEntry(s: View, t: View)
    requires s.entry == t.entry
    ensures IsBad(s) <==> IsBad(t)
  {}

  // ---------------------------------------------------------------- the table

  /** The container's text, on disk and as last synced. */
  function Shown(s: View): View { s.(disk := Some(Utf8(s.text)), sidecar := Some(s.text)) }

  /** A tombstoned text whose container moved on from what the tombstone records. */
  predicate Overturned(s: View) {
    && s.disk.Some? && s.entry.Some? && s.entry.value.status.Tombstoned? && s.entry.value.kind.Text?
    && s.entry.value.contentHash != TextHash(s.text)
  }

  /** A text file always ends as its container's text, unless a tombstone takes it. A
      binary gives way only to a text entry or a tombstone. A file that is absent is
      brought back only if it was never here. */
  ghost predicate ReaderOutcome(s: View, held: set<Content>, t: View) {
    match s.entry
    case None => t == if s.disk.Some? && s.disk.value.Utf8? then Shown(s) else s
    case Some(e) =>
      if Overturned(s) then t == Shown(s).(entry := Some(LiveText(s.text)))
      else if e.status.Tombstoned? then t == Gone(s).(marker := s.marker && e.kind.Text?)
      else if e.kind.Text? then t == if s.disk.Some? || s.sidecar.None? then Shown(s) else s
      else if s.disk.Some? then t == if s.disk.value.Utf8? then Shown(s) else s
      else if e.contentHash.DigestOf? && e.contentHash.content in held then t == s.(disk := Some(e.contentHash.content), marker := true)
      else t == s
  }

  lemma ReaderViewOutcome(s: View, held: set<Content>)
    ensures ReaderOutcome(s, held, ReconcileView(RevertView(s), held))
  {}

  /** A reader's scan brings every key to its outcome. */
  lemma ReaderScanBringsOutcome(v: Vault, o: Orders, k: Key)
    requires ReaderCovers(v, o) && ReaderScan(v, o).Ok?
    ensures ReaderOutcome(At(v, k), v.blobs, At(ReaderScan(v, o).v, k))
  {
    hide ReconcileView, RevertView, ReaderOutcome, At;
    ReaderScanAt(v, o, k);
    ReaderViewOutcome(At(v, k), v.blobs);
  }

  /** A live text is on disk after a reader's scan, whatever was edited there, exactly
      when its file is present or was never here. */
  lemma ReaderShowsIff(v: Vault, o: Orders, k: Key)
    requires ReaderCovers(v, o) && ReaderScan(v, o).Ok? && IsLiveText(At(v, k))
    ensures var w := ReaderScan(v, o).v;
            k in w.disk && w.disk[k] == Utf8(v.TextOf(k)) <==> k in v.disk || k !in v.sidecars
  {
    hide ReaderScan, ReaderCovers;
    ReaderScanBringsOutcome(v, o, k);
  }

  // ---------------------------------------------------------------- what a reader authors

  lemma QuietApply(present: set<Key>, v: Vault, k: Key)
    requires (k in present <==> k in v.disk) && !Overturned(At(v, k))
    ensures Reconcile(present, v, k).v.revision == v.revision
  {}

  lemma {:induction false} QuietApplies(present: set<Key>, v: Vault, q: seq<Key>)
    requires Distinct(q) && forall k :: k in q ==> (k in present <==> k in v.disk) && !Overturned(At(v, k))
    ensures Run(Reconciling(present), v, q).v.revision == v.revision
  {
    if q != [] {
      hide Reconcile, Overturned;
      var init, last := q[..|q| - 1], q[|q| - 1];
      assert q == init + [last];
      QuietApplies(present, v, init);
      ReconcileIsLocal(present);
      RunElsewhere(Reconciling(present), v, init, last);
      var w := Run(Reconciling(present), v, init).v;
      SameDisk(v, w, last);
      QuietApply(present, w, last);
    }
  }

  lemma ApplyKeepsTexts(present: set<Key>, v: Vault, k: Key)
    ensures Reconcile(present, v, k).v.texts == v.texts
  {}

  lemma {:induction false} AppliesKeepTexts(present: set<Key>, v: Vault, q: seq<Key>)
    ensures Run(Reconciling(present), v, q).v.texts == v.texts
  {
    if q != [] {
      hide Reconcile;
      var init := q[..|q| - 1];
      AppliesKeepTexts(present, v, init);
      ApplyKeepsTexts(present, Run(Reconciling(present), v, init).v, q[|q| - 1]);
    }
  }

  lemma EntriesStay(v: Vault, o: Orders)
    requires ReaderCovers(v, o) && ReaderScan(v, o).Ok?
    ensures ReaderScan(v, o).v.entries == v.entries <==> forall k :: !Overturned(At(v, k))
  {
    var w := ReaderScan(v, o).v;
    forall k ensures Get(w.entries, k) == Get(v.entries, k) <==> !Overturned(At(v, k)) {
      hide ReaderScan, ReaderCovers;
      ReaderScanBringsOutcome(v, o, k);
    }
    hide ReaderScan, ReaderCovers, Overturned, At;
    SameMap(w.entries, v.entries);
  }

  lemma SameMap<T>(m: map<Key, T>, n: map<Key, T>)
    ensures m == n <==> forall k :: Get(m, k) == Get(n, k)
  {
    if forall k :: Get(m, k) == Get(n, k) {
      assert forall k :: (k in m <==> Get(m, k).Some?) && (k in n <==> Get(n, k).Some?);
    }
  }

  /** A reader's scan never touches a container or the blob store. It leaves the shared
      entries alone, and authors nothing, exactly when no tombstone of a present file is
      overturned. */
  lemma ReaderAuthorsNothingIff(v: Vault, o: Orders)
    requires ReaderCovers(v, o) && ReaderScan(v, o).Ok?
    ensures var w := ReaderScan(v, o).v;
            && w.texts == v.texts && w.blobs == v.blobs
            && (w.entries == v.entries && w.revision == v.revision <==> forall k :: !Overturned(At(v, k)))
  {
    EntriesStay(v, o);
    RevertsKeep(v, o.files);
    var w := Run(Reverting(), v, o.files).v;
    AppliesKeepTexts(v.disk.Keys, w, o.applied);
    ReaderScanAt(v, o, "");
    if forall k :: !Overturned(At(v, k)) {
      forall k ensures !Overturned(At(w, k)) && (k in v.disk <==> k in w.disk) { RevertsAt(v, o.files, k); }
      hide Overturned, At;
      QuietApplies(v.disk.Keys, w, o.applied);
    }
  }

  /** A reader's scan can author an entry: the file "f" is tombstoned at "a" while the
      container has moved to "b". */
  lemma ReaderCanAuthor()
    ensures exists v: Vault, o :: !v.mayWrite && ReaderCovers(v, o) && ReaderScan(v, o).Ok? && ReaderScan(v, o).v.entries != v.entries
  {
    var e := FileEntry(Text, Tombstoned, TextHash("a"), None, Some(1));
    var v := Vault(map["f" := Utf8("a")], map["f" := "a"], {}, map["f" := e], map["f" := "b"], {}, 2, false);
    var o := Orders(["f"], [], [], ["f"]);
    assert ReaderCovers(v, o);
    ReaderScanSucceedsIff(v, o);
    EntriesStay(v, o);
    assert Overturned(At(v, "f"));
  }

  // ---------------------------------------------------------------- scanning again

  /** A blob entry that reaches the disk as text, which the next scan reverts. */
  predicate Restless(s: View, held: set<Content>) {
    && s.disk.None? && s.entry.Some? && s.entry.value.status.Live? && s.entry.value.kind.Blob?
    && s.entry.value.contentHash.DigestOf? && s.entry.value.contentHash.content in held
    && s.entry.value.contentHash.content.Utf8?
    && !(s.entry.value.contentHash.content.text == s.text && s.sidecar == Some(s.text))
  }

  lemma RestsIff(s: View, held: set<Content>, t: View, u: View)
    requires ReaderOutcome(s, held, t) && ReaderOutcome(t, held, u)
    ensures u == t <==> !Restless(s, held)
    ensures !Overturned(t) && (IsBad(t) ==> IsBad(s))
  {}

  lemma ReaderStays(v: Vault, o: Orders)
    ensures ReaderScan(v, o).v.mayWrite == v.mayWrite
  {
    RevertsKeep(v, o.files);
    ReconcileIsLocal(v.disk.Keys);
    RunKeeps(Reconciling(v.disk.Keys), Run(Reverting(), v, o.files).v, o.applied);
  }

  /** Two vaults that agree on every key, and on what no key holds, are one. */
  lemma SameKeysSameVault(v: Vault, w: Vault)
    requires forall k :: At(v, k) == At(w, k)
    requires v.texts == w.texts && v.blobs == w.blobs && v.revision == w.revision && v.mayWrite == w.mayWrite
    ensures v == w
  {
    assert forall k :: Get(v.disk, k) == At(v, k).disk && Get(w.disk, k) == At(w, k).disk;
    assert forall k :: Get(v.sidecars, k) == At(v, k).sidecar && Get(w.sidecars, k) == At(w, k).sidecar;
    assert forall k :: Get(v.entries, k) == At(v, k).entry && Get(w.entries, k) == At(w, k).entry;
    assert forall k :: (k in v.markers <==> At(v, k).marker) && (k in w.markers <==> At(w, k).marker);
    SameMap(v.disk, w.disk);
    SameMap(v.sidecars, w.sidecars);
    SameMap(v.entries, w.entries);
    assert v.markers == w.markers;
  }

  /** A second reader's scan succeeds, authors nothing and leaves everything as it is,
      exactly when no blob entry reached the disk as text the first time. */
  lemma ReaderIsIdempotentIff(v: Vault, o: Orders, o2: Orders)
    requires ReaderCovers(v, o) && ReaderScan(v, o).Ok? && ReaderCovers(ReaderScan(v, o).v, o2)
    ensures ReaderScan(ReaderScan(v, o).v, o2) == Ok(ReaderScan(v, o).v) <==> forall k :: !Restless(At(v, k), v.blobs)
  {
    hide ReaderScan, ReaderCovers, ReaderOutcome, Restless, Overturned, IsBad, At;
    var w := ReaderScan(v, o).v;
    ReaderScanSucceedsIff(v, o);
    ReaderScanAt(v, o, "");
    forall k ensures !Overturned(At(w, k)) && !IsBad(At(w, k)) {
      ReaderScanBringsOutcome(v, o, k);
      ReaderViewOutcome(At(w, k), v.blobs);
      RestsIff(At(v, k), v.blobs, At(w, k), ReconcileView(RevertView(At(w, k)), v.blobs));
    }
    ReaderScanSucceedsIff(w, o2);
    var x := ReaderScan(w, o2).v;
    ReaderAuthorsNothingIff(w, o2);
    ReaderStays(w, o2);
    forall k ensures At(x, k) == At(w, k) <==> !Restless(At(v, k), v.blobs) {
      ReaderScanBringsOutcome(v, o, k);
      ReaderScanBringsOutcome(w, o2, k);
      RestsIff(At(v, k), v.blobs, At(w, k), At(x, k));
    }
    if forall k :: !Restless(At(v, k), v.blobs) { SameKeysSameVault(x, w); }
  }
}
