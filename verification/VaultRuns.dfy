/** Whole runs of one device: every bridge operation, failed imports, remote
    merges and edits made to the folder behind the bridge's back. */
module VaultRuns {
  import opened Prelude
  import opened FileSet
  import opened Vault
  import opened ScanViews

  datatype Op =
    | Import(k: Key)
    | ImportFails(k: Key, actual: string)
    | Project(k: Key)
    | ScanAll(o: Orders)
    | Delete(k: Key)
    | Rename(from: Key, to: Key)
    | Revive(k: Key)
    | RemoteMerge(entries: map<Key, FileEntry>, texts: map<Key, string>, blobs: set<Content>, revision: nat, mayWrite: bool)
    | OutsideEdit(disk: map<Key, Content>)

  /** The state an operation leaves, whether or not it succeeds. */
  ghost function Step(cfg: Config, v: Vault, op: Op): Vault {
    match op
    case Import(k) => ImportFile(cfg, v, k).v
    case ImportFails(k, actual) => if k in v.disk && v.disk[k].Utf8? then ImportFailed(v, k, actual).v else v
    case Project(k) => ProjectFile(v, k).v
    case ScanAll(o) => if v.mayWrite then Scan(cfg, v, o).v else ReaderScan(v, o).v
    case Delete(k) => DeleteFile(v, k).v
    case Rename(from, to) => RenameFile(cfg, v, from, to).v
    case Revive(k) => Resurrect(v, k).v
    case RemoteMerge(e, t, b, r, w) => v.(entries := e, texts := t, blobs := b, revision := r, mayWrite := w)
    case OutsideEdit(d) => v.(disk := d)
  }

  /** A run: states and the operations between them, from a device that has no
      sidecars and no markers. */
  ghost predicate IsRun(cfg: Config, states: seq<Vault>, ops: seq<Op>) {
    && |states| == |ops| + 1
    && states[0].sidecars == map[] && states[0].markers == {}
    && forall i :: 0 <= i < |ops| ==> states[i + 1] == Step(cfg, states[i], ops[i])
  }

  /** Keys whose file has been on this device's disk in some state of the run. */
  ghost function Seen(states: seq<Vault>): set<Key> {
    if states == [] then {} else Seen(states[..|states| - 1]) + states[|states| - 1].disk.Keys
  }

  lemma {:induction false} SeenMeans(states: seq<Vault>, k: Key)
    ensures k in Seen(states) <==> exists i :: 0 <= i < |states| && k in states[i].disk
  {
    if states != [] {
      var init := states[..|states| - 1];
      SeenMeans(init, k);
      if i :| 0 <= i < |states| && k in states[i].disk {
        if i < |init| { assert k in init[i].disk; }
      }
      if i :| 0 <= i < |init| && k in init[i].disk { assert k in states[i].disk; }
    }
  }

  /** Every sidecar and marker belongs to a file that is on disk or was seen there. */
  ghost predicate Vouched(v: Vault, seen: set<Key>) {
    forall k :: k in v.sidecars || k in v.markers ==> k in v.disk || k in seen
  }

  lemma ImportVouches(cfg: Config, v: Vault, k: Key, seen: set<Key>)
    requires Vouched(v, seen)
    ensures Vouched(ImportFile(cfg, v, k).v, seen) && ImportFile(cfg, v, k).v.disk == v.disk
  {
    hide Expected;
  }

  lemma ProjectVouches(v: Vault, k: Key, seen: set<Key>)
    requires Vouched(v, seen)
    ensures Vouched(ProjectFile(v, k).v, seen) && v.disk.Keys <= ProjectFile(v, k).v.disk.Keys <= v.disk.Keys + {k}
  {}

  lemma ReconcileVouches(present: set<Key>, v: Vault, k: Key, seen: set<Key>)
    requires Vouched(v, seen) && present <= seen
    ensures Vouched(Reconcile(present, v, k).v, seen)
  {
    if k in v.entries && v.entries[k].kind.Text? {
      if v.entries[k].status.Live? {
        ProjectVouches(v, k, seen);
      } else if k in present && TextHash(v.TextOf(k)) != v.entries[k].contentHash {
        var live := SetEntry(v, k, LiveText(v.TextOf(k)));
        assert Vouched(live, seen);
        ProjectVouches(live, k, seen);
      }
    }
  }

  // ---------------------------------------------------------------- runs of scan steps

  lemma {:induction false} ImportsVouch(cfg: Config, v: Vault, q: seq<Key>, seen: set<Key>)
    requires Vouched(v, seen)
    ensures Vouched(Run(Importing(cfg), v, q).v, seen) && Run(Importing(cfg), v, q).v.disk == v.disk
  {
    if q != [] {
      ImportsVouch(cfg, v, q[..|q| - 1], seen);
      ImportVouches(cfg, Run(Importing(cfg), v, q[..|q| - 1]).v, q[|q| - 1], seen);
    }
  }

  lemma {:induction false} HealsVouch(v: Vault, q: seq<Key>, seen: set<Key>)
    requires Vouched(v, seen)
    ensures Vouched(Run(Healing(), v, q).v, seen) && Run(Healing(), v, q).v.disk == v.disk
  {
    if q != [] {
      HealsVouch(v, q[..|q| - 1], seen);
    }
  }

  lemma {:induction false} DetectsVouch(present: set<Key>, v: Vault, q: seq<Key>, seen: set<Key>)
    requires Vouched(v, seen)
    ensures Vouched(Run(Detecting(present), v, q).v, seen) && Run(Detecting(present), v, q).v.disk == v.disk
  {
    if q != [] {
      DetectsVouch(present, v, q[..|q| - 1], seen);
    }
  }

  lemma {:induction false} ReconcilesVouch(present: set<Key>, v: Vault, q: seq<Key>, seen: set<Key>)
    requires Vouched(v, seen) && present <= seen
    ensures Vouched(Run(Reconciling(present), v, q).v, seen)
  {
    if q != [] {
      ReconcilesVouch(present, v, q[..|q| - 1], seen);
      ReconcileVouches(present, Run(Reconciling(present), v, q[..|q| - 1]).v, q[|q| - 1], seen);
    }
  }

  lemma ScanVouches(cfg: Config, v: Vault, o: Orders, seen: set<Key>)
    requires Vouched(v, seen) && v.disk.Keys <= seen
    ensures Vouched(Scan(cfg, v, o).v, seen)
    ensures Vouched(Step1b(cfg, v, o).v, seen) && Step1b(cfg, v, o).v.disk == v.disk
  {
    ImportsVouch(cfg, v, o.files, seen);
    HealsVouch(Step1(cfg, v, o).v, o.healed, seen);
    DetectsVouch(v.disk.Keys, Step1b(cfg, v, o).v, o.checked, seen);
    ReconcilesVouch(v.disk.Keys, Step2(cfg, v, o).v, o.applied, seen);
  }

  lemma {:induction false} RevertsVouch(v: Vault, q: seq<Key>, seen: set<Key>)
    requires Vouched(v, seen)
    ensures Vouched(Run(Reverting(), v, q).v, seen)
  {
    if q != [] { RevertsVouch(v, q[..|q| - 1], seen); }
  }

  lemma ReaderVouches(v: Vault, o: Orders, seen: set<Key>)
    requires Vouched(v, seen) && v.disk.Keys <= seen
    ensures Vouched(ReaderScan(v, o).v, seen)
  {
    RevertsVouch(v, o.files, seen);
    ReconcilesVouch(v.disk.Keys, Run(Reverting(), v, o.files).v, o.applied, seen);
  }

  lemma MoveVouches(v: Vault, from: Key, to: Key, seen: set<Key>)
    requires Vouched(v, seen) && v.disk.Keys <= seen
    ensures Vouched(MoveContent(v, from, to).v, seen)
  {
    var t := v.TextOf(from);
    var seeded := if t == "" then v else v.(texts := v.texts[to := t + v.TextOf(to)], revision := v.revision + 1);
    var gone := WriteTombstone(SetEntry(seeded, to, FileEntry(Text, Live, TextHash(t), Some(from), None)), from, Text, TextHash(t));
    assert Vouched(gone, seen) && gone.disk == v.disk;
    ProjectVouches(gone, to, seen);
  }

  lemma RenameVouches(cfg: Config, v: Vault, from: Key, to: Key, seen: set<Key>)
    requires Vouched(v, seen) && v.disk.Keys <= seen
    ensures Vouched(RenameFile(cfg, v, from, to).v, seen)
  {
    hide ImportFile, MoveContent;
    if v.mayWrite && from != to {
      ImportVouches(cfg, v, from, seen);
      var r := if from in v.disk then ImportFile(cfg, v, from) else Ok(v);
      MoveVouches(r.v, from, to, seen);
    }
  }

  lemma ReviveVouches(v: Vault, k: Key, seen: set<Key>)
    requires Vouched(v, seen)
    ensures Vouched(Resurrect(v, k).v, seen)
  {
    if v.mayWrite && k in v.entries {
      var w := SetEntry(v, k, v.entries[k].ToLive());
      assert Vouched(w, seen);
      ProjectVouches(w, k, seen);
    }
  }

  lemma StepVouches(cfg: Config, v: Vault, op: Op, seen: set<Key>)
    requires Vouched(v, seen) && v.disk.Keys <= seen
    ensures Vouched(Step(cfg, v, op), seen)
  {
    match op {
      case Import(k) => ImportVouches(cfg, v, k, seen);
      case ImportFails(k, actual) =>
      case Project(k) => ProjectVouches(v, k, seen);
      case ScanAll(o) => if v.mayWrite { ScanVouches(cfg, v, o, seen); } else { ReaderVouches(v, o, seen); }
      case Delete(k) =>
      case Rename(from, to) => RenameVouches(cfg, v, from, to, seen);
      case Revive(k) => ReviveVouches(v, k, seen);
      case RemoteMerge(_, _, _, _, _) =>
      case OutsideEdit(_) =>
    }
  }

  /** The invariant of every run: metadata never outlives its evidence. */
  lemma {:induction false} RunVouches(cfg: Config, states: seq<Vault>, ops: seq<Op>, n: nat)
    requires IsRun(cfg, states, ops) && n < |states|
    ensures Vouched(states[n], Seen(states[..n + 1])) && states[n].disk.Keys <= Seen(states[..n + 1])
  {
    assert states[..n + 1][..n] == states[..n];
    if n > 0 {
      RunVouches(cfg, states, ops, n - 1);
      StepVouches(cfg, states[n - 1], ops[n - 1], Seen(states[..n]));
    }
  }

  /** The local-deletion step of a scan authors a tombstone for a key only if that
      key's file was on this device's disk earlier in the run. */
  lemma OnlySeenFilesAreDeleted(cfg: Config, states: seq<Vault>, ops: seq<Op>, n: nat, o: Orders, k: Key)
    requires IsRun(cfg, states, ops) && n < |states|
    requires Step1b(cfg, states[n], o).Ok?
    requires var before, after := At(Step1b(cfg, states[n], o).v, k), At(Step2(cfg, states[n], o).v, k);
             before.entry.Some? && before.entry.value.status.Live? && after.entry != before.entry
    ensures exists i :: 0 <= i <= n && k in states[i].disk
  {
    var seen := Seen(states[..n + 1]);
    RunVouches(cfg, states, ops, n);
    ScanVouches(cfg, states[n], o, seen);
    Tombstones(states[n].disk.Keys, Step1b(cfg, states[n], o).v, o.checked, k);
    SeenMeans(states[..n + 1], k);
    var i :| 0 <= i < n + 1 && k in states[..n + 1][i].disk;
    assert states[..n + 1][i] == states[i];
  }

  lemma {:induction false} Tombstones(present: set<Key>, v: Vault, q: seq<Key>, k: Key)
    requires k in v.entries && At(Run(Detecting(present), v, q).v, k).entry != At(v, k).entry
    ensures k in v.markers || k in v.sidecars
  {
    if q != [] {
      var w, last := Run(Detecting(present), v, q[..|q| - 1]).v, q[|q| - 1];
      DetectIsLocal(present);
      if At(w, k).entry != At(v, k).entry {
        Tombstones(present, v, q[..|q| - 1], k);
      } else {
        MetaShrinks(present, v, q[..|q| - 1]);
      }
    }
  }

  lemma {:induction false} MetaShrinks(present: set<Key>, v: Vault, q: seq<Key>)
    ensures Run(Detecting(present), v, q).v.markers <= v.markers && Run(Detecting(present), v, q).v.sidecars.Keys <= v.sidecars.Keys
  {
    if q != [] {
      MetaShrinks(present, v, q[..|q| - 1]);
    }
  }
}
