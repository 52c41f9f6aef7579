/** What a full writer scan guarantees, for every starting state and every order
    in which files and entries are visited. */
module ScanLaws {
  import opened Prelude
  import opened Rebase
  import opened FileSet
  import opened Vault
  import opened ScanViews

  // ---------------------------------------------------------------- key by key

  lemma ImportRunAt(cfg: Config, v: Vault, q: seq<Key>, k: Key)
    requires Lists(q, v.disk.Keys) && Run(Importing(cfg), v, q).Ok?
    ensures At(Run(Importing(cfg), v, q).v, k) == ImportView(cfg, At(v, k))
  {
    ImportIsLocal(cfg);
    if k in v.disk {
      var w := RunVisits(Importing(cfg), v, q, k);
      ImportAt(cfg, w, k, k);
    } else {
      RunElsewhere(Importing(cfg), v, q, k);
    }
  }

  lemma HealRunAt(v: Vault, q: seq<Key>, k: Key)
    requires Distinct(q) && (k in q <==> k in v.disk) && Run(Healing(), v, q).Ok?
    ensures At(Run(Healing(), v, q).v, k) == HealView(At(v, k)) && Run(Healing(), v, q).v.blobs == v.blobs
  {
    HealIsLocal();
    RunKeeps(Healing(), v, q);
    if k in q {
      var w := RunVisits(Healing(), v, q, k);
      assert At(w, k).disk == At(v, k).disk;
      HealAt(w, k, k);
    } else {
      RunElsewhere(Healing(), v, q, k);
    }
  }

  lemma DetectRunAt(present: set<Key>, v: Vault, q: seq<Key>, k: Key) returns (at: nat)
    requires Lists(q, v.entries.Keys) && (k in present <==> k in v.disk) && Run(Detecting(present), v, q).Ok?
    ensures At(Run(Detecting(present), v, q).v, k) == DetectView(At(v, k), at) && Run(Detecting(present), v, q).v.blobs == v.blobs
  {
    DetectIsLocal(present);
    RunKeeps(Detecting(present), v, q);
    at := 0;
    if k in v.entries {
      var w := RunVisits(Detecting(present), v, q, k);
      assert At(w, k).disk == At(v, k).disk;
      DetectAt(present, w, k, k);
      at := w.revision + 1;
    } else {
      RunElsewhere(Detecting(present), v, q, k);
    }
  }

  lemma ReconcileRunAt(present: set<Key>, v: Vault, q: seq<Key>, k: Key)
    requires Lists(q, v.entries.Keys) && (k in present <==> k in v.disk) && Run(Reconciling(present), v, q).Ok?
    ensures At(Run(Reconciling(present), v, q).v, k) == ReconcileView(At(v, k), v.blobs)
    ensures Run(Reconciling(present), v, q).v.blobs == v.blobs
  {
    ReconcileIsLocal(present);
    RunKeeps(Reconciling(present), v, q);
    if k in v.entries {
      var w := RunVisits(Reconciling(present), v, q, k);
      assert At(w, k).disk == At(v, k).disk;
      ReconcileAt(present, w, k, k);
    } else {
      RunElsewhere(Reconciling(present), v, q, k);
    }
  }

  /** Nothing before step 3 touches files. */
  lemma DiskUntilStep3(cfg: Config, s: View, at: nat)
    ensures ImportView(cfg, s).disk == s.disk
    ensures HealView(s).disk == s.disk
    ensures DetectView(s, at).disk == s.disk
  {}

  lemma SameDisk(v: Vault, w: Vault, k: Key)
    requires At(v, k).disk == At(w, k).disk
    ensures k in v.disk <==> k in w.disk
  {}

  /** What the first three passes leave at a key. */
  lemma BeforeStep3(cfg: Config, v: Vault, o: Orders, k: Key) returns (at: nat)
    requires Covers(cfg, v, o) && Step2(cfg, v, o).Ok?
    ensures At(Step2(cfg, v, o).v, k) == DetectView(HealView(ImportView(cfg, At(v, k))), at)
    ensures Step2(cfg, v, o).v.blobs == Step1(cfg, v, o).v.blobs && (k in v.disk <==> k in Step2(cfg, v, o).v.disk)
  {
    var v1, v1b, v2 := Step1(cfg, v, o).v, Step1b(cfg, v, o).v, Step2(cfg, v, o).v;
    ImportRunAt(cfg, v, o.files, k);
    DiskUntilStep3(cfg, At(v, k), 0);
    SameDisk(v, v1, k);
    HealRunAt(v1, o.healed, k);
    DiskUntilStep3(cfg, At(v1, k), 0);
    SameDisk(v, v1b, k);
    at := DetectRunAt(v.disk.Keys, v1b, o.checked, k);
    DiskUntilStep3(cfg, At(v1b, k), at);
    SameDisk(v, v2, k);
  }

  /** A successful scan takes each key from its own old state to its own new one;
      the only thing keys share is the blob store after the imports. */
  lemma ScanAt(cfg: Config, v: Vault, o: Orders, k: Key) returns (at: nat)
    requires Covers(cfg, v, o) && Scan(cfg, v, o).Ok?
    ensures At(Scan(cfg, v, o).v, k) == ScanView(cfg, At(v, k), Step1(cfg, v, o).v.blobs, at)
    ensures Scan(cfg, v, o).v.blobs == Step1(cfg, v, o).v.blobs
  {
    at := BeforeStep3(cfg, v, o, k);
    ReconcileRunAt(v.disk.Keys, Step2(cfg, v, o).v, o.applied, k);
  }

  // ---------------------------------------------------------------- convergence

  /** The one way a scan leaves a live text file unreconciled: the disk was edited
      since the last sync, the container moved too, and the merge of the two is
      what the container already holds. */
  ghost predicate Stuck(cfg: Config, s: View) {
    && s.disk.Some? && s.disk.value.Utf8? && s.sidecar.Some?
    && s.sidecar.value != s.text && s.disk.value.text != s.sidecar.value && s.disk.value.text != s.text
    && Aim(cfg, s, s.disk.value.text) == s.text && |s.text| <= cfg.maxChars
  }

  predicate Settled(s: View) { s.disk == Some(Utf8(s.text)) && s.sidecar == Some(s.text) }

  predicate IsLiveText(s: View) { s.entry.Some? && s.entry.value.status.Live? && s.entry.value.kind.Text? }

  lemma TextConverges(cfg: Config, s: View, blobs: set<Content>, at: nat)
    requires s.disk.Some? && s.disk.value.Utf8? && IsLiveText(ScanView(cfg, s, blobs, at))
    ensures var t := ScanView(cfg, s, blobs, at);
            if Stuck(cfg, s) then t.disk == s.disk && t.sidecar == s.sidecar && t.text == s.text else Settled(t)
  {
    hide ScanView, Merged;
    var l := s.disk.value.text;
    if ImportHasOps(cfg, s, l) { ImportedSettles(cfg, s, l, blobs, at); } else { QuietTextScan(cfg, s, l, blobs, at); }
  }

  lemma OtherConverges(cfg: Config, s: View, blobs: set<Content>, at: nat)
    requires s.disk.None? || s.disk.value.Binary?
    requires IsLiveText(ScanView(cfg, s, blobs, at))
    ensures Settled(ScanView(cfg, s, blobs, at))
  {}

  /** After a successful scan every live text key has its file, its container and
      its sidecar in agreement, except exactly the stuck ones, where all three are
      left as they were. */
  lemma ScanConverges(cfg: Config, v: Vault, o: Orders, k: Key)
    requires Covers(cfg, v, o) && Scan(cfg, v, o).Ok?
    requires IsLiveText(At(Scan(cfg, v, o).v, k))
    ensures var w := Scan(cfg, v, o).v;
            && (Settled(At(w, k)) <==> !Stuck(cfg, At(v, k)))
            && (Stuck(cfg, At(v, k)) ==> At(w, k).disk == At(v, k).disk && At(w, k).sidecar == At(v, k).sidecar && At(w, k).text == At(v, k).text)
  {
    var at := ScanAt(cfg, v, o, k);
    var s, blobs := At(v, k), Step1(cfg, v, o).v.blobs;
    if s.disk.Some? && s.disk.value.Utf8? { TextConverges(cfg, s, blobs, at); } else { OtherConverges(cfg, s, blobs, at); }
  }

  // ---------------------------------------------------------------- idempotence

  /** A key that a scan brings to rest. What fails it is a text above the diff
      bound, and a blob entry that will be written to disk but not read back as
      itself: one whose payload is text, or that carries rename or tombstone data. */
  ghost predicate Stable(cfg: Config, s: View, blobs: set<Content>) {
    match s.disk
    case Some(Utf8(l)) => ImportHasOps(cfg, s, l) ==> |Aim(cfg, s, l)| <= cfg.maxChars
    case Some(Binary(_)) => true
    case None =>
      s.entry.Some? && s.entry.value.status.Live? ==>
        var e := s.entry.value;
        if e.kind.Text? then s.sidecar.None? ==> |s.text| <= cfg.maxChars
        else !s.marker && e.contentHash.DigestOf? && e.contentHash.content in blobs ==>
          if e.contentHash.content.Binary? then e == LiveBlob(e.contentHash.content)
          else !ImportHasOps(cfg, s, e.contentHash.content.text)
  }

  /** Importing this key would author something. */
  ghost predicate Noisy(cfg: Config, s: View) {
    match s.disk
    case None => false
    case Some(Utf8(l)) => ImportHasOps(cfg, s, l)
    case Some(Binary(b)) => s.entry != Some(LiveBlob(Binary(b))) && !SameTombstone(s, Binary(b))
  }

  predicate SameTombstone(s: View, c: Content) {
    s.entry.Some? && s.entry.value.status.Tombstoned? && s.entry.value.kind.Blob? && s.entry.value.contentHash == DigestOf(c)
  }

  /** Nothing for any step to do. */
  ghost predicate AtRest(cfg: Config, s: View, blobs: set<Content>) {
    && !Noisy(cfg, s)
    && (s.disk.Some? && s.disk.value.Binary? ==> s.marker)
    && (s.disk.Some? && s.sidecar.Some? ==> s.entry.Some?)
    && (s.entry.Some? ==> var e := s.entry.value;
         if e.status.Live? then
           if e.kind.Blob? then
             (s.disk.None? ==> !s.marker && !(e.contentHash.DigestOf? && e.contentHash.content in blobs))
           else s.disk.Some? && (Settled(s) || DirtyView(s))
         else s.disk.None? && s.sidecar.None? && (e.kind.Blob? ==> !s.marker))
  }

  lemma SettledIsQuiet(cfg: Config, s: View)
    requires Settled(s)
    ensures ImportHasOps(cfg, s, s.text) <==> |s.text| > cfg.maxChars
  {}

  /** An import that applied operations ends with disk, sidecar and container equal. */
  lemma ImportedSettles(cfg: Config, s: View, l: string, blobs: set<Content>, at: nat)
    requires s.disk == Some(Utf8(l)) && ImportHasOps(cfg, s, l)
    ensures var t := Aim(cfg, s, l);
            ScanView(cfg, s, blobs, at) == s.(disk := Some(Utf8(t)), sidecar := Some(t), text := t, entry := Some(LiveText(l)))
  {
    assert ImportView(cfg, s) == s.(text := Aim(cfg, s, l), sidecar := Some(l), entry := Some(LiveText(l)));
  }

  /** A text file whose import is a no-op goes to step 3 as it is. */
  lemma QuietTextScan(cfg: Config, s: View, l: string, blobs: set<Content>, at: nat)
    requires s.disk == Some(Utf8(l)) && !ImportHasOps(cfg, s, l)
    ensures ScanView(cfg, s, blobs, at) == ReconcileView(HealView(s), blobs)
    ensures s.sidecar.None? || s.sidecar.value == s.text ==> l == s.text
    ensures |s.text| <= cfg.maxChars
  {}

  /** A file left alone keeps importing to nothing; a settled one does too. */
  lemma QuietStaysQuiet(cfg: Config, s: View, l: string, t: View)
    requires s.disk == Some(Utf8(l)) && !ImportHasOps(cfg, s, l)
    requires t.text == s.text && ((t.disk == s.disk && t.sidecar == s.sidecar) || Settled(t) || t.disk.None?)
    ensures !Noisy(cfg, t)
  {
    hide Merged;
  }

  /** An imported text rests exactly when it is within the diff bound. */
  lemma ImportedRests(cfg: Config, s: View, l: string, blobs: set<Content>, at: nat)
    requires s.disk == Some(Utf8(l)) && ImportHasOps(cfg, s, l)
    ensures if |Aim(cfg, s, l)| <= cfg.maxChars then AtRest(cfg, ScanView(cfg, s, blobs, at), blobs)
            else Noisy(cfg, ScanView(cfg, s, blobs, at))
  {
    hide ScanView, Merged, Aim;
    ImportedSettles(cfg, s, l, blobs, at);
    SettledIsQuiet(cfg, ScanView(cfg, s, blobs, at));
  }

  /** A text with nothing to import rests. */
  lemma QuietRests(cfg: Config, s: View, l: string, blobs: set<Content>, at: nat)
    requires s.disk == Some(Utf8(l)) && !ImportHasOps(cfg, s, l)
    ensures AtRest(cfg, ScanView(cfg, s, blobs, at), blobs)
  {
    hide ScanView, Merged, ImportHasOps, Noisy;
    QuietTextScan(cfg, s, l, blobs, at);
    QuietStaysQuiet(cfg, s, l, ScanView(cfg, s, blobs, at));
  }

  lemma TextRests(cfg: Config, s: View, blobs: set<Content>, at: nat)
    requires s.disk.Some? && s.disk.value.Utf8?
    ensures if Stable(cfg, s, blobs) then AtRest(cfg, ScanView(cfg, s, blobs, at), blobs)
            else Noisy(cfg, ScanView(cfg, s, blobs, at))
  {
    hide ScanView, Merged, ImportHasOps, AtRest, Noisy;
    var l := s.disk.value.text;
    if ImportHasOps(cfg, s, l) { ImportedRests(cfg, s, l, blobs, at); } else { QuietRests(cfg, s, l, blobs, at); }
  }

  lemma BinaryRests(cfg: Config, s: View, blobs: set<Content>, at: nat)
    requires s.disk.Some? && s.disk.value.Binary?
    ensures AtRest(cfg, ScanView(cfg, s, blobs, at), blobs)
  {}

  lemma AbsentRests(cfg: Config, s: View, blobs: set<Content>, at: nat)
    requires s.disk.None?
    ensures if Stable(cfg, s, blobs) then AtRest(cfg, ScanView(cfg, s, blobs, at), blobs)
            else Noisy(cfg, ScanView(cfg, s, blobs, at))
  {
    var t := ScanView(cfg, s, blobs, at);
    if Settled(t) { SettledIsQuiet(cfg, t); }
  }

  lemma ScanRests(cfg: Config, s: View, blobs: set<Content>, at: nat)
    ensures if Stable(cfg, s, blobs) then AtRest(cfg, ScanView(cfg, s, blobs, at), blobs)
            else Noisy(cfg, ScanView(cfg, s, blobs, at))
  {
    match s.disk {
      case Some(Utf8(_)) => TextRests(cfg, s, blobs, at);
      case Some(Binary(_)) => BinaryRests(cfg, s, blobs, at);
      case None => AbsentRests(cfg, s, blobs, at);
    }
  }
}
