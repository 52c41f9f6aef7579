/** When a second scan does nothing: the exact condition, and its proof. */
module ScanRest {
  import opened Prelude
  import opened Rebase
  import opened FileSet
  import opened Vault
  import opened ScanViews
  import opened ScanLaws

  // ---------------------------------------------------------------- revisions only grow

  ghost predicate Advances(f: (Vault, Key) -> Res) {
    forall v: Vault, k: Key :: v.revision <= f(v, k).v.revision
  }

  lemma {:induction false} RunAdvances(f: (Vault, Key) -> Res, v: Vault, q: seq<Key>)
    requires Advances(f)
    ensures v.revision <= Run(f, v, q).v.revision
  {
    if q != [] {
      RunAdvances(f, v, q[..|q| - 1]);
      assert Run(f, v, q[..|q| - 1]).v.revision <= f(Run(f, v, q[..|q| - 1]).v, q[|q| - 1]).v.revision;
    }
  }

  lemma StepsAdvance(cfg: Config, present: set<Key>)
    ensures Advances(Importing(cfg)) && Advances(Healing()) && Advances(Detecting(present)) && Advances(Reconciling(present))
  {
    forall v: Vault, k: Key ensures v.revision <= Importing(cfg)(v, k).v.revision { ImportAdvances(cfg, v, k); }
    forall v: Vault, k: Key ensures v.revision <= Reconciling(present)(v, k).v.revision {}
  }

  lemma ImportAdvances(cfg: Config, v: Vault, k: Key)
    ensures v.revision <= ImportFile(cfg, v, k).v.revision
    ensures ImportFile(cfg, v, k).Ok? && Noisy(cfg, At(v, k)) ==> v.revision < ImportFile(cfg, v, k).v.revision
  {
    hide Merged;
  }

  /** A run that meets a noisy key authors something. */
  lemma {:induction false} NoiseIsHeard(cfg: Config, v: Vault, q: seq<Key>, k: Key)
    requires Distinct(q) && k in q && Noisy(cfg, At(v, k)) && Run(Importing(cfg), v, q).Ok?
    ensures v.revision < Run(Importing(cfg), v, q).v.revision
  {
    var init, last := q[..|q| - 1], q[|q| - 1];
    var w := Run(Importing(cfg), v, init).v;
    ImportAdvances(cfg, w, last);
    if last == k {
      ImportIsLocal(cfg);
      RunElsewhere(Importing(cfg), v, init, k);
      StepsAdvance(cfg, {});
      RunAdvances(Importing(cfg), v, init);
    } else {
      NoiseIsHeard(cfg, v, init, k);
    }
  }

  lemma LaterStepsAdvance(cfg: Config, v: Vault, o: Orders)
    requires Scan(cfg, v, o).Ok?
    ensures Step1(cfg, v, o).Ok? && Step1(cfg, v, o).v.revision <= Scan(cfg, v, o).v.revision
  {
    StepsAdvance(cfg, v.disk.Keys);
    RunAdvances(Healing(), Step1(cfg, v, o).v, o.healed);
    RunAdvances(Detecting(v.disk.Keys), Step1b(cfg, v, o).v, o.checked);
    RunAdvances(Reconciling(v.disk.Keys), Step2(cfg, v, o).v, o.applied);
  }

  // ---------------------------------------------------------------- blobs on disk stay in the store

  /** `w` records and stores the binary that `v` has on disk at `k`. */
  ghost predicate Held(v: Vault, w: Vault, k: Key) {
    k in v.disk && v.disk[k].Binary? ==>
      v.disk[k] in w.blobs && k in w.entries && w.entries[k].contentHash == DigestOf(v.disk[k])
  }

  lemma ImportHolds(cfg: Config, v: Vault, k: Key)
    requires ImportFile(cfg, v, k).Ok?
    ensures Held(v, ImportFile(cfg, v, k).v, k)
  {}

  /** Releasing superseded bytes never takes bytes another entry names. */
  lemma ImportKeepsHeld(cfg: Config, v: Vault, w: Vault, j: Key, k: Key)
    requires j != k && Held(v, w, k)
    ensures Held(v, ImportFile(cfg, w, j).v, k)
  {
    ImportAt(cfg, w, j, k);
    var x := ImportFile(cfg, w, j).v;
    if k in v.disk && v.disk[k].Binary? {
      assert At(x, k).entry == At(w, k).entry;
      if w.mayWrite && !LiveClash(w, j) && j in w.disk && w.disk[j].Binary? {
        var stored := w.(blobs := w.blobs + {w.disk[j]});
        var set_ := SetEntry(stored, j, LiveBlob(w.disk[j]));
        assert k in set_.entries && set_.entries[k].contentHash == DigestOf(v.disk[k]);
        assert HashReferenced(set_, DigestOf(v.disk[k]));
      }
    }
  }

  lemma {:induction false} RunHolds(cfg: Config, v: Vault, q: seq<Key>, k: Key)
    requires Distinct(q) && k in q && Run(Importing(cfg), v, q).Ok?
    ensures Held(v, Run(Importing(cfg), v, q).v, k)
  {
    hide ImportFile;
    var init, last := q[..|q| - 1], q[|q| - 1];
    var w := Run(Importing(cfg), v, init).v;
    if last == k {
      ImportIsLocal(cfg);
      RunElsewhere(Importing(cfg), v, init, k);
      ImportHolds(cfg, w, k);
      assert At(w, k).disk == At(v, k).disk;
    } else {
      RunHolds(cfg, v, init, k);
      ImportKeepsHeld(cfg, v, w, last, k);
    }
  }

  lemma BinaryCameFrom(cfg: Config, s: View, blobs: set<Content>, at: nat)
    ensures var t := ScanView(cfg, s, blobs, at);
            t.disk.Some? && t.disk.value.Binary? ==> t.disk == s.disk || t.disk.value in blobs
  {
    hide Merged;
  }

  lemma BlobsHeld(cfg: Config, v: Vault, o: Orders, k: Key)
    requires Covers(cfg, v, o) && Scan(cfg, v, o).Ok?
    ensures var w := Scan(cfg, v, o).v; k in w.disk && w.disk[k].Binary? ==> w.disk[k] in w.blobs
  {
    var at := ScanAt(cfg, v, o, k);
    var w := Scan(cfg, v, o).v;
    if k in w.disk && w.disk[k].Binary? {
      BinaryCameFrom(cfg, At(v, k), Step1(cfg, v, o).v.blobs, at);
      if At(w, k).disk == At(v, k).disk {
        RunHolds(cfg, v, o.files, k);
      }
    }
  }

  // ---------------------------------------------------------------- no case-only clashes

  ghost predicate NoCaseClash(v: Vault) {
    forall j, k :: j in v.disk.Keys + v.entries.Keys && k in v.disk.Keys + v.entries.Keys ==> !CaseClash(j, k)
  }

  lemma ScanAddsNoKeys(cfg: Config, s: View, blobs: set<Content>, at: nat)
    ensures var t := ScanView(cfg, s, blobs, at);
            t.disk.Some? || t.entry.Some? ==> s.disk.Some? || s.entry.Some?
  {
    hide Merged;
  }

  lemma ScanKeepsNoClash(cfg: Config, v: Vault, o: Orders)
    requires Covers(cfg, v, o) && Scan(cfg, v, o).Ok? && NoCaseClash(v)
    ensures NoCaseClash(Scan(cfg, v, o).v)
  {
    var w := Scan(cfg, v, o).v;
    forall k | k in w.disk.Keys + w.entries.Keys ensures k in v.disk.Keys + v.entries.Keys {
      var at := ScanAt(cfg, v, o, k);
      ScanAddsNoKeys(cfg, At(v, k), Step1(cfg, v, o).v.blobs, at);
      assert At(w, k).disk.Some? || At(w, k).entry.Some?;
    }
  }

  lemma ScanKeepsRole(cfg: Config, v: Vault, o: Orders)
    requires Scan(cfg, v, o).Ok?
    ensures Scan(cfg, v, o).v.mayWrite == v.mayWrite
  {
    ImportIsLocal(cfg);
    HealIsLocal();
    DetectIsLocal(v.disk.Keys);
    ReconcileIsLocal(v.disk.Keys);
    RunKeeps(Importing(cfg), v, o.files);
    RunKeeps(Healing(), Step1(cfg, v, o).v, o.healed);
    RunKeeps(Detecting(v.disk.Keys), Step1b(cfg, v, o).v, o.checked);
    RunKeeps(Reconciling(v.disk.Keys), Step2(cfg, v, o).v, o.applied);
  }

  // ---------------------------------------------------------------- at rest, every step is the identity

  lemma {:induction false} RunStays(f: (Vault, Key) -> Res, v: Vault, q: seq<Key>)
    requires forall k :: k in q ==> f(v, k) == Ok(v)
    ensures Run(f, v, q) == Ok(v)
  {
    if q != [] {
      RunStays(f, v, q[..|q| - 1]);
    }
  }

  lemma ImportRests(cfg: Config, v: Vault, k: Key)
    requires v.mayWrite && NoCaseClash(v) && k in v.disk && AtRest(cfg, At(v, k), v.blobs)
    requires v.disk[k].Binary? ==> v.disk[k] in v.blobs
    ensures ImportFile(cfg, v, k) == Ok(v)
  {
    hide Merged;
    assert !LiveClash(v, k);
    if v.disk[k].Binary? {
      assert v.blobs + {v.disk[k]} == v.blobs && v.markers + {k} == v.markers;
    } else {
      assert Target(cfg, v, k, v.disk[k].text) == Aim(cfg, At(v, k), v.disk[k].text);
    }
  }

  lemma HealRests(cfg: Config, v: Vault, k: Key)
    requires k in v.disk && AtRest(cfg, At(v, k), v.blobs)
    ensures Heal(v, k) == Ok(v)
  {
    assert At(v, k).disk.Some?;
  }

  lemma DetectRests(cfg: Config, v: Vault, k: Key)
    requires AtRest(cfg, At(v, k), v.blobs)
    ensures DetectDelete(v.disk.Keys, v, k) == Ok(v)
  {
    hide Merged;
    var s := At(v, k);
    if k in v.entries && v.entries[k].status.Live? && k !in v.disk {
      assert s.entry == Some(v.entries[k]) && s.disk.None?;
    }
  }

  lemma ReconcileRests(cfg: Config, v: Vault, k: Key)
    requires AtRest(cfg, At(v, k), v.blobs)
    requires k in v.entries && v.entries[k].status.Live? && v.entries[k].kind.Blob? ==> !v.entries[k].contentHash.Malformed?
    ensures Reconcile(v.disk.Keys, v, k) == Ok(v)
  {
    hide Merged;
    var s := At(v, k);
    if k in v.entries {
      assert s.entry == Some(v.entries[k]);
      if v.entries[k].status.Live? {
        assert Dirty(v, k) <==> DirtyView(s);
      } else {
        assert k !in v.disk && k !in v.sidecars;
        assert v.sidecars - {k} == v.sidecars;
        if v.entries[k].kind.Blob? { assert v.markers - {k} == v.markers; }
      }
    }
  }

  /** A blob reference that is no digest stops the scan, so none is left live. */
  lemma NoMalformedLeft(cfg: Config, v: Vault, o: Orders, k: Key)
    requires Covers(cfg, v, o) && Scan(cfg, v, o).Ok?
    ensures var w := Scan(cfg, v, o).v;
            k in w.entries && w.entries[k].status.Live? && w.entries[k].kind.Blob? ==> !w.entries[k].contentHash.Malformed?
  {
    var w, v2, present := Scan(cfg, v, o).v, Step2(cfg, v, o).v, v.disk.Keys;
    ReconcileIsLocal(present);
    if k in v2.entries {
      var x := RunVisits(Reconciling(present), v2, o.applied, k);
      assert At(w, k).entry == At(Reconcile(present, x, k).v, k).entry;
      ReconcileKeepsBlobEntry(present, x, k);
    } else {
      RunElsewhere(Reconciling(present), v2, o.applied, k);
      assert At(w, k).entry.None?;
    }
  }

  lemma ReconcileKeepsBlobEntry(present: set<Key>, v: Vault, k: Key)
    requires k in v.entries && Reconcile(present, v, k).Ok?
    ensures var e := At(Reconcile(present, v, k).v, k).entry;
            e.Some? && (e.value.status.Live? && e.value.kind.Blob? ==> !e.value.contentHash.Malformed?)
  {}

  // ---------------------------------------------------------------- blobs the first scan will hold

  /** The blobs held now, and the binaries on disk. */
  ghost function Foreseen(v: Vault): set<Content> {
    v.blobs + set k | k in v.disk && v.disk[k].Binary? :: v.disk[k]
  }

  /** Importing one file neither adds nor releases a blob some other key names,
      unless it is that file's own. */
  lemma ImportKeepsNamed(cfg: Config, v: Vault, j: Key, k: Key, c: Content)
    requires j != k && k in v.entries && v.entries[k].contentHash == DigestOf(c) && ImportFile(cfg, v, j).Ok?
    ensures var w := ImportFile(cfg, v, j).v;
            && j in v.disk && w.disk == v.disk && k in w.entries && w.entries[k] == v.entries[k]
            && (c in w.blobs <==> c in v.blobs || (c.Binary? && v.disk[j] == c))
  {
    hide Expected;
    if v.disk[j].Binary? {
      var set_ := SetEntry(v.(blobs := v.blobs + {v.disk[j]}), j, LiveBlob(v.disk[j]));
      assert k in set_.entries && set_.entries[k].contentHash == DigestOf(c);
      assert HashReferenced(set_, DigestOf(c));
    }
  }

  /** A blob named by a key that is not on disk is held after the imports exactly
      when it is held before them or is a binary on disk, in every mode. */
  lemma {:induction false} NamedBlobAfterImports(cfg: Config, v: Vault, q: seq<Key>, k: Key, c: Content)
    requires k !in q && k in v.entries && v.entries[k].contentHash == DigestOf(c) && Run(Importing(cfg), v, q).Ok?
    ensures var w := Run(Importing(cfg), v, q).v;
            && w.disk == v.disk && k in w.entries && w.entries[k] == v.entries[k]
            && (c in w.blobs <==> c in v.blobs || exists j :: j in q && j in v.disk && v.disk[j] == c && c.Binary?)
  {
    if q != [] {
      var init, last := q[..|q| - 1], q[|q| - 1];
      NamedBlobAfterImports(cfg, v, init, k, c);
      hide ImportFile;
      ImportKeepsNamed(cfg, Run(Importing(cfg), v, init).v, last, k, c);
      assert forall j :: j in q <==> j in init || j == last;
    }
  }

  /** What a scan needs of the blob store can be read off before it starts. */
  lemma StableForeseen(cfg: Config, v: Vault, o: Orders, k: Key)
    requires Covers(cfg, v, o) && Scan(cfg, v, o).Ok?
    ensures Stable(cfg, At(v, k), Step1(cfg, v, o).v.blobs) <==> Stable(cfg, At(v, k), Foreseen(v))
  {
    hide Merged;
    if k !in v.disk && k in v.entries && v.entries[k].contentHash.DigestOf? {
      var c := v.entries[k].contentHash.content;
      NamedBlobAfterImports(cfg, v, o.files, k, c);
      assert c in Step1(cfg, v, o).v.blobs <==> c in Foreseen(v);
    }
  }

  lemma SecondScanRests(cfg: Config, v: Vault, o: Orders, o2: Orders)
    requires v.mayWrite && NoCaseClash(v) && Covers(cfg, v, o) && Scan(cfg, v, o).Ok?
    requires Covers(cfg, Scan(cfg, v, o).v, o2)
    requires forall k :: Stable(cfg, At(v, k), Foreseen(v))
    ensures Scan(cfg, Scan(cfg, v, o).v, o2) == Ok(Scan(cfg, v, o).v)
  {
    var w := Scan(cfg, v, o).v;
    ScanKeepsNoClash(cfg, v, o);
    ScanKeepsRole(cfg, v, o);
    forall k ensures AtRest(cfg, At(w, k), w.blobs) {
      StableForeseen(cfg, v, o, k);
      var at := ScanAt(cfg, v, o, k);
      ScanRests(cfg, At(v, k), Step1(cfg, v, o).v.blobs, at);
    }
    forall k | k in o2.files ensures Importing(cfg)(w, k) == Ok(w) {
      BlobsHeld(cfg, v, o, k);
      ImportRests(cfg, w, k);
    }
    RunStays(Importing(cfg), w, o2.files);
    forall k | k in o2.healed ensures Healing()(w, k) == Ok(w) { HealRests(cfg, w, k); }
    RunStays(Healing(), w, o2.healed);
    forall k ensures Detecting(w.disk.Keys)(w, k) == Ok(w) { DetectRests(cfg, w, k); }
    RunStays(Detecting(w.disk.Keys), w, o2.checked);
    forall k ensures Reconciling(w.disk.Keys)(w, k) == Ok(w) {
      NoMalformedLeft(cfg, v, o, k);
      ReconcileRests(cfg, w, k);
    }
    RunStays(Reconciling(w.disk.Keys), w, o2.applied);
  }

  lemma SecondScanStirs(cfg: Config, v: Vault, o: Orders, o2: Orders, k: Key)
    requires Covers(cfg, v, o) && Scan(cfg, v, o).Ok?
    requires Covers(cfg, Scan(cfg, v, o).v, o2)
    requires !Stable(cfg, At(v, k), Foreseen(v))
    ensures Scan(cfg, Scan(cfg, v, o).v, o2) != Ok(Scan(cfg, v, o).v)
  {
    var w := Scan(cfg, v, o).v;
    StableForeseen(cfg, v, o, k);
    var at := ScanAt(cfg, v, o, k);
    ScanRests(cfg, At(v, k), Step1(cfg, v, o).v.blobs, at);
    if Scan(cfg, w, o2).Ok? {
      assert Noisy(cfg, At(w, k)) && k in w.disk;
      LaterStepsAdvance(cfg, w, o2);
      NoiseIsHeard(cfg, w, o2.files, k);
    }
  }

  /** After a scan that succeeds, a second one changes nothing exactly when every
      key is stable; otherwise it authors at least one more write. */
  lemma SecondScanIff(cfg: Config, v: Vault, o: Orders, o2: Orders)
    requires v.mayWrite && NoCaseClash(v) && Covers(cfg, v, o) && Scan(cfg, v, o).Ok?
    requires Covers(cfg, Scan(cfg, v, o).v, o2)
    ensures Scan(cfg, Scan(cfg, v, o).v, o2) == Ok(Scan(cfg, v, o).v)
       <==> forall k :: Stable(cfg, At(v, k), Foreseen(v))
  {
    if k :| !Stable(cfg, At(v, k), Foreseen(v)) {
      SecondScanStirs(cfg, v, o, o2, k);
    } else {
      SecondScanRests(cfg, v, o, o2);
    }
  }
}
