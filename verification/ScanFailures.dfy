/** What a scan that fails leaves behind: all it did before the failure stands, and
    nothing after it was touched. */
module ScanFailures {
  import opened Prelude
  import opened FileSet
  import opened Vault
  import opened ScanViews
  import opened ScanLaws
  import opened ScanRest
  import opened ScanOutcome
  import opened ScanTable
  import BridgeLaws

  /** A failing pass fails at one key, with the keys before it done. */
  lemma {:induction false} RunStops(f: (Vault, Key) -> Res, v: Vault, q: seq<Key>) returns (i: nat)
    requires Run(f, v, q).Err?
    ensures i < |q| && Run(f, v, q[..i]).Ok? && f(Run(f, v, q[..i]).v, q[i]) == Run(f, v, q)
  {
    var init := q[..|q| - 1];
    if Run(f, v, init).Ok? {
      i := |q| - 1;
    } else {
      i := RunStops(f, v, init);
      assert init[..i] == q[..i];
    }
  }

  /** Around the key a local pass fails at: the keys before it are as the pass makes
      them, the keys after it as they were. */
  lemma StoppedElsewhere(f: (Vault, Key) -> Res, v: Vault, q: seq<Key>, i: nat, k: Key)
    requires Local(f) && Distinct(q) && i < |q| && f(Run(f, v, q[..i]).v, q[i]) == Run(f, v, q) && k != q[i]
    ensures At(Run(f, v, q).v, k) == At(Run(f, v, q[..i]).v, k)
    ensures k !in q[..i] ==> At(Run(f, v, q).v, k) == At(v, k)
  {
    if k !in q[..i] { RunElsewhere(f, v, q[..i], k); }
  }

  /** Each key once the imports have failed at `q[i]`. */
  lemma FailedImportsAt(cfg: Config, v: Vault, q: seq<Key>, i: nat, k: Key)
    requires Distinct(q) && i < |q| && Run(Importing(cfg), v, q[..i]).Ok?
    requires Importing(cfg)(Run(Importing(cfg), v, q[..i]).v, q[i]) == Run(Importing(cfg), v, q)
    ensures var t := At(Run(Importing(cfg), v, q).v, k);
            && t.disk == At(v, k).disk
            && (k in q[..i] ==> t == ImportView(cfg, At(v, k)))
            && (k !in q[..i] && k != q[i] ==> t == At(v, k))
  {
    hide ImportFile, ImportView;
    ImportIsLocal(cfg);
    if k in q[..i] {
      StoppedElsewhere(Importing(cfg), v, q, i, k);
      var w := RunVisits(Importing(cfg), v, q[..i], k);
      ImportAt(cfg, w, k, k);
      DiskUntilStep3(cfg, At(v, k), 0);
    } else if k == q[i] {
      RunElsewhere(Importing(cfg), v, q[..i], k);
      BridgeLaws.ImportKeepsDisk(cfg, Run(Importing(cfg), v, q[..i]).v, k);
    } else {
      StoppedElsewhere(Importing(cfg), v, q, i, k);
    }
  }

  /** A scan whose imports fail stops at one file: the files listed before it are
      imported, every other key is as it was, and nothing on disk has moved. */
  lemma FailedImportsStand(cfg: Config, v: Vault, o: Orders) returns (i: nat)
    requires Covers(cfg, v, o) && Step1(cfg, v, o).Err?
    ensures Scan(cfg, v, o) == Step1(cfg, v, o) && i < |o.files|
    ensures forall k :: k in o.files[..i] ==> At(Scan(cfg, v, o).v, k) == ImportView(cfg, At(v, k))
    ensures forall k :: k !in o.files[..i] && k != o.files[i] ==> At(Scan(cfg, v, o).v, k) == At(v, k)
    ensures forall k :: At(Scan(cfg, v, o).v, k).disk == At(v, k).disk
  {
    hide ImportView, At, ImportFile;
    i := RunStops(Importing(cfg), v, o.files);
    forall k ensures var t := At(Run(Importing(cfg), v, o.files).v, k);
                     && t.disk == At(v, k).disk
                     && (k in o.files[..i] ==> t == ImportView(cfg, At(v, k)))
                     && (k !in o.files[..i] && k != o.files[i] ==> t == At(v, k)) {
      FailedImportsAt(cfg, v, o.files, i, k);
    }
  }

  /** The last pass over `o.applied` has failed at its `i`th key. */
  ghost predicate FailsAt(cfg: Config, v: Vault, o: Orders, i: nat) {
    && Covers(cfg, v, o) && Step2(cfg, v, o).Ok? && Scan(cfg, v, o).Err? && i < |o.applied|
    && var f, w, q := Reconciling(v.disk.Keys), Step2(cfg, v, o).v, o.applied;
       && Run(f, w, q[..i]).Ok? && f(Run(f, w, q[..i]).v, q[i]) == Run(f, w, q)
  }

  lemma AppliedAt(cfg: Config, v: Vault, o: Orders, i: nat, k: Key)
    requires FailsAt(cfg, v, o, i) && k in o.applied[..i]
    ensures Outcome(cfg, At(v, k), Foreseen(v), At(Scan(cfg, v, o).v, k))
  {
    hide Outcome, ReconcileView, Reconcile, ImportView, Foreseen;
    var f, w, q := Reconciling(v.disk.Keys), Step2(cfg, v, o).v, o.applied;
    ReconcileIsLocal(v.disk.Keys);
    var at := BeforeStep3(cfg, v, o, k);
    StoppedElsewhere(f, w, q, i, k);
    var x := RunVisits(f, w, q[..i], k);
    SameDisk(w, x, k);
    ReconcileAt(v.disk.Keys, x, k, k);
    ForeseenOutcome(cfg, v, o, k, at);
  }

  lemma UnappliedAt(cfg: Config, v: Vault, o: Orders, i: nat, k: Key)
    requires FailsAt(cfg, v, o, i) && k !in o.applied[..i]
    ensures At(Scan(cfg, v, o).v, k) == At(Step2(cfg, v, o).v, k) && At(Scan(cfg, v, o).v, k).disk == At(v, k).disk
    ensures k == o.applied[i] ==> Poisoned(cfg, At(v, k)) && Scan(cfg, v, o).error.InvalidHash?
  {
    hide ReconcileView, ImportView, IsBad, Poisoned;
    var f, w, q := Reconciling(v.disk.Keys), Step2(cfg, v, o).v, o.applied;
    ReconcileIsLocal(v.disk.Keys);
    var at := BeforeStep3(cfg, v, o, k);
    DiskUntilStep3(cfg, At(v, k), at);
    if k == q[i] {
      var x := Run(f, w, q[..i]).v;
      RunElsewhere(f, w, q[..i], k);
      SameDisk(w, x, k);
      RefusedUnmoved(v.disk.Keys, x, k);
      BadIffPoisoned(cfg, At(v, k), at);
    } else {
      StoppedElsewhere(f, w, q, i, k);
    }
  }

  lemma RefusedUnmoved(present: set<Key>, v: Vault, k: Key)
    requires (k in present <==> k in v.disk) && Reconcile(present, v, k).Err?
    ensures IsBad(At(v, k)) && Reconcile(present, v, k) == Err(v, InvalidHash)
  {}

  /** A scan that fails after its imports stops at one poisoned key: the keys applied
      before it are at their outcome, and at every other key the file is as it was. */
  lemma FailedScanStands(cfg: Config, v: Vault, o: Orders) returns (i: nat)
    requires Covers(cfg, v, o) && Step1(cfg, v, o).Ok? && Scan(cfg, v, o).Err?
    ensures i < |o.applied| && Poisoned(cfg, At(v, o.applied[i])) && Scan(cfg, v, o).error.InvalidHash?
    ensures forall k :: k in o.applied[..i] ==> Outcome(cfg, At(v, k), Foreseen(v), At(Scan(cfg, v, o).v, k))
    ensures forall k :: k !in o.applied[..i] ==> At(Scan(cfg, v, o).v, k).disk == At(v, k).disk
  {
    hide Outcome, Poisoned, At, Foreseen;
    HealsSucceed(Step1(cfg, v, o).v, o.healed);
    DetectsSucceed(v.disk.Keys, Step1b(cfg, v, o).v, o.checked);
    i := RunStops(Reconciling(v.disk.Keys), Step2(cfg, v, o).v, o.applied);
    assert FailsAt(cfg, v, o, i);
    hide FailsAt, Scan, Covers;
    forall k | k in o.applied[..i] ensures Outcome(cfg, At(v, k), Foreseen(v), At(Scan(cfg, v, o).v, k)) { AppliedAt(cfg, v, o, i, k); }
    forall k | k !in o.applied[..i] ensures At(Scan(cfg, v, o).v, k).disk == At(v, k).disk { UnappliedAt(cfg, v, o, i, k); }
    StopIsNew(o.applied, i);
    UnappliedAt(cfg, v, o, i, o.applied[i]);
  }

  lemma StopIsNew(q: seq<Key>, i: nat)
    requires Distinct(q) && i < |q|
    ensures q[i] !in q[..i]
  {}
}
