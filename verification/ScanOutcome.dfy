/** When a scan succeeds, when it is idempotent, and how many scans suffice, in terms
    of the vault before the first. */
module ScanOutcome {
  import opened Prelude
  import opened Rebase
  import opened FileSet
  import opened Vault
  import opened ScanViews
  import opened ScanLaws
  import opened ScanRest

  ghost predicate NoMalformed(v: Vault) {
    forall k :: k in v.entries ==> !v.entries[k].contentHash.Malformed?
  }

  /** A live blob entry whose hash is no digest. */
  predicate IsBad(s: View) {
    s.entry.Some? && s.entry.value.status.Live? && s.entry.value.kind.Blob? && s.entry.value.contentHash.Malformed?
  }

  /** Such an entry that no step before the last one replaces: its file is absent and
      was never here, or is a text with nothing to import. */
  ghost predicate Poisoned(cfg: Config, s: View) {
    IsBad(s) &&
    match s.disk
    case None => !s.marker
    case Some(Utf8(l)) => !ImportHasOps(cfg, s, l)
    case Some(Binary(_)) => false
  }

  /** Importing a binary in single-version mode may fail on a malformed hash; nothing
      else in the imports depends on one. */
  ghost predicate Importable(cfg: Config, v: Vault) {
    v.mayWrite && NoCaseClash(v) && (cfg.threshold.None? || NoMalformed(v))
  }

  // ---------------------------------------------------------------- the imports

  lemma ImportIsOk(cfg: Config, v: Vault, k: Key)
    requires Importable(cfg, v) && k in v.disk
    ensures ImportFile(cfg, v, k).Ok?
  {
    hide Expected;
    assert !LiveClash(v, k);
  }

  /** An import touches one entry, and any hash it writes is a digest. */
  lemma ImportTouches(cfg: Config, v: Vault, k: Key)
    requires ImportFile(cfg, v, k).Ok?
    ensures var w := ImportFile(cfg, v, k).v;
            && w.disk == v.disk && w.mayWrite == v.mayWrite
            && (forall j :: j in w.entries && j != k ==> j in v.entries && w.entries[j] == v.entries[j])
            && (k in w.entries ==> w.entries[k].contentHash.DigestOf? || (k in v.entries && w.entries[k] == v.entries[k]))
  {
    hide Expected, Releases;
  }

  lemma ImportSucceeds(cfg: Config, v: Vault, k: Key)
    requires Importable(cfg, v) && k in v.disk
    ensures var r := ImportFile(cfg, v, k); r.Ok? && Importable(cfg, r.v) && r.v.disk == v.disk
    ensures NoMalformed(v) ==> NoMalformed(ImportFile(cfg, v, k).v)
  {
    ImportIsOk(cfg, v, k);
    ImportTouches(cfg, v, k);
    hide ImportFile;
    var w := ImportFile(cfg, v, k).v;
    assert forall j :: j in w.disk.Keys + w.entries.Keys ==> j in v.disk.Keys + v.entries.Keys;
  }

  lemma {:induction false} ImportsSucceed(cfg: Config, v: Vault, q: seq<Key>)
    requires Importable(cfg, v) && forall k :: k in q ==> k in v.disk
    ensures var r := Run(Importing(cfg), v, q); r.Ok? && Importable(cfg, r.v) && r.v.disk == v.disk
    ensures NoMalformed(v) ==> NoMalformed(Run(Importing(cfg), v, q).v)
  {
    if q != [] {
      hide ImportFile, Importable, NoMalformed;
      var init, last := q[..|q| - 1], q[|q| - 1];
      assert forall k :: k in init ==> k in q;
      ImportsSucceed(cfg, v, init);
      ImportSucceeds(cfg, Run(Importing(cfg), v, init).v, last);
    }
  }

  lemma {:induction false} HealsSucceed(v: Vault, q: seq<Key>)
    ensures Run(Healing(), v, q).Ok?
  {
    if q != [] { HealsSucceed(v, q[..|q| - 1]); }
  }

  lemma {:induction false} DetectsSucceed(present: set<Key>, v: Vault, q: seq<Key>)
    ensures Run(Detecting(present), v, q).Ok?
  {
    if q != [] {
      hide DetectDelete;
      var init := q[..|q| - 1];
      DetectsSucceed(present, v, init);
      DetectIsOk(present, Run(Detecting(present), v, init).v, q[|q| - 1]);
    }
  }

  lemma FirstStepsSucceed(cfg: Config, v: Vault, o: Orders)
    requires Importable(cfg, v) && Covers(cfg, v, o)
    ensures Step1(cfg, v, o).Ok? && Step2(cfg, v, o).Ok?
  {
    ImportsSucceed(cfg, v, o.files);
    HealsSucceed(Step1(cfg, v, o).v, o.healed);
    DetectsSucceed(v.disk.Keys, Step1b(cfg, v, o).v, o.checked);
  }

  // ---------------------------------------------------------------- the last step

  lemma ReconcileFailsIff(present: set<Key>, v: Vault, k: Key)
    requires k in present <==> k in v.disk
    ensures Reconcile(present, v, k).Err? <==> IsBad(At(v, k))
  {}

  lemma {:induction false} ReconcilesSucceedIff(present: set<Key>, v: Vault, q: seq<Key>)
    requires Distinct(q) && forall k :: k in q ==> (k in present <==> k in v.disk)
    ensures Run(Reconciling(present), v, q).Ok? <==> forall k :: k in q ==> !IsBad(At(v, k))
  {
    if q != [] {
      hide Reconcile, IsBad;
      var init, last := q[..|q| - 1], q[|q| - 1];
      assert forall k :: k in q <==> k in init || k == last;
      ReconcilesSucceedIff(present, v, init);
      var r := Run(Reconciling(present), v, init);
      if r.Ok? {
        ReconcileIsLocal(present);
        RunElsewhere(Reconciling(present), v, init, last);
        SameDisk(v, r.v, last);
        ReconcileFailsIff(present, r.v, last);
      }
    }
  }

  lemma BadIffPoisoned(cfg: Config, s: View, at: nat)
    ensures IsBad(DetectView(HealView(ImportView(cfg, s)), at)) <==> Poisoned(cfg, s)
  {
    hide Merged;
  }

  /** A writer's scan succeeds exactly when no key is poisoned; one that is makes
      every scan fail. */
  lemma ScanSucceedsIff(cfg: Config, v: Vault, o: Orders)
    requires Importable(cfg, v) && Covers(cfg, v, o)
    ensures Scan(cfg, v, o).Ok? <==> forall k :: !Poisoned(cfg, At(v, k))
  {
    hide Poisoned, IsBad;
    FirstStepsSucceed(cfg, v, o);
    var w := Step2(cfg, v, o).v;
    forall k ensures (k in v.disk <==> k in w.disk) && (IsBad(At(w, k)) <==> Poisoned(cfg, At(v, k))) {
      var at := BeforeStep3(cfg, v, o, k);
      BadIffPoisoned(cfg, At(v, k), at);
    }
    ReconcilesSucceedIff(v.disk.Keys, w, o.applied);
    forall k | IsBad(At(w, k)) ensures k in o.applied {
      BadIsListed(w, k);
    }
  }

  lemma BadIsListed(v: Vault, k: Key)
    requires IsBad(At(v, k))
    ensures k in v.entries
  {}

  // ---------------------------------------------------------------- idempotence

  /** Scanning twice is scanning once, exactly when no key is poisoned and every key
      is stable. */
  lemma ScanIsIdempotentIff(cfg: Config, v: Vault, o: Orders, o2: Orders)
    requires Importable(cfg, v) && Covers(cfg, v, o) && Covers(cfg, Scan(cfg, v, o).v, o2)
    ensures Scan(cfg, v, o).Ok? && Scan(cfg, Scan(cfg, v, o).v, o2) == Ok(Scan(cfg, v, o).v)
       <==> forall k :: !Poisoned(cfg, At(v, k)) && Stable(cfg, At(v, k), Foreseen(v))
  {
    hide Poisoned, Stable;
    ScanSucceedsIff(cfg, v, o);
    if Scan(cfg, v, o).Ok? {
      SecondScanIff(cfg, v, o, o2);
    }
  }

  /** A vault whose texts, and the merges an import would make of them, are within
      the diff bound, whose hashes are digests, and whose live blob entries without a
      file name binaries and nothing else. */
  ghost predicate Ordinary(cfg: Config, v: Vault) {
    && NoMalformed(v)
    && (forall k :: k in v.disk && v.disk[k].Utf8? ==> |Target(cfg, v, k, v.disk[k].text)| <= cfg.maxChars)
    && (forall k :: k in v.texts ==> |v.texts[k]| <= cfg.maxChars)
    && (forall k :: k in v.entries && v.entries[k].status.Live? && v.entries[k].kind.Blob? && k !in v.disk ==>
          exists b :: v.entries[k] == LiveBlob(Binary(b)))
  }

  /** An ordinary vault is scanned once and for all, in every mode. */
  lemma OrdinaryScanIsIdempotent(cfg: Config, v: Vault, o: Orders, o2: Orders)
    requires v.mayWrite && NoCaseClash(v) && Ordinary(cfg, v)
    requires Covers(cfg, v, o) && Covers(cfg, Scan(cfg, v, o).v, o2)
    ensures Scan(cfg, v, o).Ok? && Scan(cfg, Scan(cfg, v, o).v, o2) == Ok(Scan(cfg, v, o).v)
  {
    hide Scan, Covers;
    forall k ensures !Poisoned(cfg, At(v, k)) && Stable(cfg, At(v, k), Foreseen(v)) {
      OrdinaryIsStable(cfg, v, k);
    }
    ScanIsIdempotentIff(cfg, v, o, o2);
  }

  lemma OrdinaryIsStable(cfg: Config, v: Vault, k: Key)
    requires Ordinary(cfg, v)
    ensures !Poisoned(cfg, At(v, k)) && Stable(cfg, At(v, k), Foreseen(v))
  {
    hide Expected;
    if k in v.disk && v.disk[k].Utf8? {
      assert Aim(cfg, At(v, k), v.disk[k].text) == Target(cfg, v, k, v.disk[k].text);
    }
  }

  // ---------------------------------------------------------------- two scans suffice

  /** Every text a scan may make of this key is within the diff bound. */
  ghost predicate Bounded(cfg: Config, s: View) {
    match s.disk
    case Some(Utf8(l)) => |Aim(cfg, s, l)| <= cfg.maxChars
    case Some(Binary(_)) => true
    case None =>
      && |s.text| <= cfg.maxChars
      && (s.entry.Some? && s.entry.value.contentHash.DigestOf? && s.entry.value.contentHash.content.Utf8? ==>
            |Aim(cfg, s, s.entry.value.contentHash.content.text)| <= cfg.maxChars)
  }

  lemma BoundedTextSettles(cfg: Config, s: View, l: string, blobs: set<Content>, at: nat)
    requires s.disk == Some(Utf8(l)) && Bounded(cfg, s)
    ensures Stable(cfg, ScanView(cfg, s, blobs, at), blobs)
  {
    hide ScanView, Merged;
    var t := ScanView(cfg, s, blobs, at);
    TextRests(cfg, s, blobs, at);
    assert AtRest(cfg, t, blobs);
    RestIsStable(cfg, t, blobs);
  }

  lemma RestIsStable(cfg: Config, s: View, blobs: set<Content>)
    requires AtRest(cfg, s, blobs)
    ensures Stable(cfg, s, blobs)
  {
    hide Aim;
  }

  lemma BoundedSettles(cfg: Config, s: View, blobs: set<Content>, at: nat)
    requires Bounded(cfg, s)
    ensures Stable(cfg, ScanView(cfg, s, blobs, at), blobs)
  {
    match s.disk {
      case Some(Utf8(l)) => BoundedTextSettles(cfg, s, l, blobs, at);
      case Some(Binary(_)) =>
        BinaryRests(cfg, s, blobs, at);
        RestIsStable(cfg, ScanView(cfg, s, blobs, at), blobs);
      case None => hide Merged;
    }
  }

  lemma NothingNewForeseen(cfg: Config, v: Vault, o: Orders)
    requires Covers(cfg, v, o) && Scan(cfg, v, o).Ok?
    ensures Foreseen(Scan(cfg, v, o).v) == Scan(cfg, v, o).v.blobs
  {
    var w := Scan(cfg, v, o).v;
    forall k | k in w.disk && w.disk[k].Binary? ensures w.disk[k] in w.blobs {
      BlobsHeld(cfg, v, o, k);
    }
  }

  lemma ScanKeepsFormed(cfg: Config, v: Vault, o: Orders)
    requires Covers(cfg, v, o) && Scan(cfg, v, o).Ok? && NoMalformed(v)
    ensures NoMalformed(Scan(cfg, v, o).v)
  {
    var w := Scan(cfg, v, o).v;
    forall k | k in w.entries ensures !w.entries[k].contentHash.Malformed? {
      var at := ScanAt(cfg, v, o, k);
      FormedStays(cfg, At(v, k), Step1(cfg, v, o).v.blobs, at);
      assert At(w, k).entry == Some(w.entries[k]);
    }
  }

  lemma FormedStays(cfg: Config, s: View, blobs: set<Content>, at: nat)
    requires s.entry.Some? ==> !s.entry.value.contentHash.Malformed?
    ensures var t := ScanView(cfg, s, blobs, at); t.entry.Some? ==> !t.entry.value.contentHash.Malformed?
  {
    hide Merged;
  }

  lemma ScanKeepsImportable(cfg: Config, v: Vault, o: Orders)
    requires Importable(cfg, v) && Covers(cfg, v, o) && Scan(cfg, v, o).Ok?
    ensures Importable(cfg, Scan(cfg, v, o).v)
  {
    ScanKeepsRole(cfg, v, o);
    ScanKeepsNoClash(cfg, v, o);
    if NoMalformed(v) { ScanKeepsFormed(cfg, v, o); }
  }

  lemma NoPoisonLeft(cfg: Config, v: Vault, o: Orders, k: Key)
    requires Covers(cfg, v, o) && Scan(cfg, v, o).Ok?
    ensures !Poisoned(cfg, At(Scan(cfg, v, o).v, k))
  {
    NoMalformedLeft(cfg, v, o, k);
  }

  /** Within the diff bound two scans always suffice: a first scan that succeeds is
      followed by a second that does, and a third changes nothing. */
  lemma TwoScansSuffice(cfg: Config, v: Vault, o: Orders, o2: Orders, o3: Orders)
    requires Importable(cfg, v) && Covers(cfg, v, o) && Scan(cfg, v, o).Ok?
    requires Covers(cfg, Scan(cfg, v, o).v, o2) && Covers(cfg, Scan(cfg, Scan(cfg, v, o).v, o2).v, o3)
    requires forall k :: Bounded(cfg, At(v, k))
    ensures var second := Scan(cfg, Scan(cfg, v, o).v, o2);
            second.Ok? && Scan(cfg, second.v, o3) == Ok(second.v)
  {
    hide Importable, Poisoned, Stable, Bounded;
    var w := Scan(cfg, v, o).v;
    ScanKeepsImportable(cfg, v, o);
    NothingNewForeseen(cfg, v, o);
    forall k ensures !Poisoned(cfg, At(w, k)) && Stable(cfg, At(w, k), Foreseen(w)) {
      NoPoisonLeft(cfg, v, o, k);
      var at := ScanAt(cfg, v, o, k);
      BoundedSettles(cfg, At(v, k), w.blobs, at);
    }
    hide Scan, Covers;
    ScanIsIdempotentIff(cfg, w, o2, o3);
  }
}
