/** The reconcile state machine on values: one device's disk, sidecars, blob
    markers, file-set entries, text containers and blob store, and what each
    bridge operation does to them. */
module Vault {
  import opened Prelude
  import opened ChangeScript
  import opened Rebase
  import opened FileSet

  datatype Vault = Vault(
    disk: map<Key, Content>,
    sidecars: map<Key, string>,   // last-synced text
    markers: set<Key>,            // blob presence markers
    entries: map<Key, FileEntry>,
    texts: map<Key, string>,      // CRDT text containers; an absent one reads as ""
    blobs: set<Content>,          // content-addressed: a blob is its own name
    revision: nat,                // grows with every authored CRDT write
    mayWrite: bool)
  {
    function TextOf(k: Key): string { if k in texts then texts[k] else "" }
  }

  /** What is fixed while a vault runs: the differ, the diff size bound and the
      optional single-version threshold for big blobs. */
  datatype Config = Config(differ: Differ, maxChars: nat, threshold: Option<nat>)

  datatype Error = ReadOnly | CaseCollision | NoSuchFile | InvalidHash | DirtyFile | NotFound | StorageFailure

  /** An operation's result. A failure still carries the state it left behind. */
  datatype Res = Ok(v: Vault) | Err(v: Vault, error: Error)

  function ErrorOf(r: Res): Option<Error> { if r.Ok? then None else Some(r.error) }

  // ---------------------------------------------------------------- disk -> CRDT

  /** The text the container must hold after importing `l` against baseline `a`. */
  ghost function Expected(cfg: Config, a: string, l: string, r: string): string {
    if r == a then l
    else
      assert Explains(cfg.differ(a, l), a, l) && Explains(cfg.differ(a, r), a, r);
      Merged(cfg.differ(a, l), cfg.differ(a, r))
  }

  /** Whether carrying `r` to `e` takes any operation. */
  predicate HasOps(cfg: Config, r: string, e: string) { r != e || |r| > cfg.maxChars }

  ghost function Baseline(v: Vault, k: Key): string {
    if k in v.sidecars then v.sidecars[k] else v.TextOf(k)
  }

  /** The container text an import of `l` at `k` aims for. */
  ghost function Target(cfg: Config, v: Vault, k: Key, l: string): string {
    Expected(cfg, Baseline(v, k), l, v.TextOf(k))
  }

  function SetEntry(v: Vault, k: Key, e: FileEntry): Vault {
    v.(entries := v.entries[k := e], revision := v.revision + 1)
  }

  ghost function ImportText(cfg: Config, v: Vault, k: Key, l: string): Vault {
    var e := Target(cfg, v, k, l);
    if !HasOps(cfg, v.TextOf(k), e) then v
    else SetEntry(v.(texts := v.texts[k := e], sidecars := v.sidecars[k := l], revision := v.revision + 1), k, LiveText(l))
  }

  ghost predicate HashReferenced(v: Vault, h: Digest) {
    exists j :: j in v.entries && v.entries[j].contentHash == h
  }

  function Size(c: Content): nat { if c.Utf8? then |c.text| else |c.bytes| }

  /** Whether big-blob single-version mode drops the superseded bytes `p` after
      `c` was recorded at some key of `v`. */
  ghost predicate Releases(cfg: Config, v: Vault, p: Option<Digest>, c: Content) {
    cfg.threshold.Some? && Size(c) > cfg.threshold.value && p.Some? && p.value != DigestOf(c) && !HashReferenced(v, p.value)
  }

  ghost function ImportBlob(cfg: Config, v: Vault, k: Key, c: Content): Res {
    var prior := if k in v.entries then Some(v.entries[k].contentHash) else None;
    var stored := v.(blobs := v.blobs + {c});
    if k in v.entries && v.entries[k].status.Tombstoned? && v.entries[k].kind.Blob? && v.entries[k].contentHash == DigestOf(c)
    then Ok(stored)
    else if k in v.entries && v.entries[k] == LiveBlob(c) then Ok(stored)
    else
      var set_ := SetEntry(stored, k, LiveBlob(c));
      if !Releases(cfg, set_, prior, c) then Ok(set_)
      else if prior.value.Malformed? then Err(set_, InvalidHash)
      else if prior.value.DigestOf? then Ok(set_.(blobs := set_.blobs - {prior.value.content}))
      else Ok(set_)
  }

  ghost predicate LiveClash(v: Vault, k: Key) {
    exists j :: j in v.entries && CaseClash(j, k) && v.entries[j].status.Live?
  }

  ghost function ImportFile(cfg: Config, v: Vault, k: Key): Res {
    if !v.mayWrite then Err(v, ReadOnly)
    else if LiveClash(v, k) then Err(v, CaseCollision)
    else if k !in v.disk then Err(v, NoSuchFile)
    else
      match v.disk[k]
      case Utf8(l) => Ok(ImportText(cfg, v, k, l))
      case Binary(_) =>
        match ImportBlob(cfg, v, k, v.disk[k])
        case Ok(w) => Ok(w.(markers := w.markers + {k}))
        case Err(w, e) => Err(w, e)
  }

  /** A text import whose operations fail part way, leaving the container at
      `actual`: the sidecar is healed to what the container really holds. */
  function ImportFailed(v: Vault, k: Key, actual: string): Res {
    Err(v.(texts := v.texts[k := actual], sidecars := v.sidecars[k := actual], revision := v.revision + 1), StorageFailure)
  }

  // ---------------------------------------------------------------- CRDT -> disk

  ghost predicate Dirty(v: Vault, k: Key) {
    && k in v.disk && v.disk[k].Utf8? && v.disk[k].text != v.TextOf(k)
    && (k in v.sidecars ==> v.disk[k].text != v.sidecars[k])
  }

  ghost function ProjectFile(v: Vault, k: Key): Res {
    var t := v.TextOf(k);
    if k in v.disk && v.disk[k] == Utf8(t) && k in v.sidecars && v.sidecars[k] == t then Ok(v)
    else if Dirty(v, k) then Err(v, DirtyFile)
    else Ok(v.(disk := v.disk[k := Utf8(t)], sidecars := v.sidecars[k := t]))
  }

  function ProjectBlob(v: Vault, k: Key, h: Digest): Res {
    match h
    case Malformed(_) => Err(v, InvalidHash)
    case Unmatched(_) => Ok(v)
    case DigestOf(c) =>
      if c !in v.blobs || k in v.disk then Ok(v)
      else Ok(v.(disk := v.disk[k := c], markers := v.markers + {k}))
  }

  /** Two writes: the tombstone, then the same with the revision that includes it. */
  function WriteTombstone(v: Vault, k: Key, kind: EntryKind, h: Digest): Vault {
    var once := SetEntry(v, k, FileEntry(kind, Tombstoned, h, None, None));
    SetEntry(once, k, FileEntry(kind, Tombstoned, h, None, Some(once.revision)))
  }

  function DropSidecar(v: Vault, k: Key): Vault { v.(sidecars := v.sidecars - {k}) }
  function DropMarker(v: Vault, k: Key): Vault { v.(markers := v.markers - {k}) }
  function DropFile(v: Vault, k: Key): Vault { v.(disk := v.disk - {k}) }

  /** The content this device last synced at `k`, as a tombstone records it. */
  ghost function LastSynced(v: Vault, k: Key): Digest { TextHash(Baseline(v, k)) }

  // ---------------------------------------------------------------- explicit operations

  ghost function DeleteFile(v: Vault, k: Key): Res {
    if !v.mayWrite then Err(v, ReadOnly)
    else
      var w := if k in v.entries && v.entries[k].kind.Blob?
               then DropMarker(WriteTombstone(v, k, Blob, v.entries[k].contentHash), k)
               else WriteTombstone(v, k, Text, LastSynced(v, k));
      Ok(DropSidecar(DropFile(w, k), k))
  }

  ghost function Resurrect(v: Vault, k: Key): Res {
    if !v.mayWrite then Err(v, ReadOnly)
    else if k !in v.entries then Err(v, NotFound)
    else
      var live := v.entries[k].ToLive();
      var w := SetEntry(v, k, live);
      if live.kind.Blob? then ProjectBlob(w, k, live.contentHash) else ProjectFile(w, k)
  }

  /** Copy a container's text under a new key, tombstone the old key, write the
      new file, and only then drop the old one. */
  ghost function MoveContent(v: Vault, from: Key, to: Key): Res {
    var t := v.TextOf(from);
    var seeded := if t == "" then v else v.(texts := v.texts[to := t + v.TextOf(to)], revision := v.revision + 1);
    var moved := SetEntry(seeded, to, FileEntry(Text, Live, TextHash(t), Some(from), None));
    match ProjectFile(WriteTombstone(moved, from, Text, TextHash(t)), to)
    case Err(w, e) => Err(w, e)
    case Ok(w) => Ok(DropSidecar(DropFile(w, from), from))
  }

  ghost function RenameFile(cfg: Config, v: Vault, from: Key, to: Key): Res {
    if !v.mayWrite then Err(v, ReadOnly)
    else if from == to then Ok(v)
    else
      match (if from in v.disk then ImportFile(cfg, v, from) else Ok(v))
      case Err(w, e) => Err(w, e)
      case Ok(w) => MoveContent(w, from, to)
  }

  // ---------------------------------------------------------------- the scan

  /** Run a step over keys in the listed order, stopping at the first failure. */
  ghost function Run(f: (Vault, Key) -> Res, v: Vault, q: seq<Key>): Res {
    if q == [] then Ok(v)
    else
      match Run(f, v, q[..|q| - 1])
      case Err(w, e) => Err(w, e)
      case Ok(w) => f(w, q[|q| - 1])
  }

  lemma RunNone(f: (Vault, Key) -> Res, v: Vault, q: seq<Key>)
    ensures Run(f, v, q[..0]) == Ok(v)
  {}

  /** One more key; and a failure on the way is the failure of the whole run. */
  lemma {:induction false} RunNext(f: (Vault, Key) -> Res, v: Vault, q: seq<Key>, i: nat)
    requires i < |q| && Run(f, v, q[..i]).Ok?
    ensures Run(f, v, q[..i + 1]) == f(Run(f, v, q[..i]).v, q[i])
    ensures Run(f, v, q[..i + 1]).Err? ==> Run(f, v, q) == Run(f, v, q[..i + 1])
    decreases |q| - i
  {
    assert q[..i + 1][..i] == q[..i];
    if Run(f, v, q[..i + 1]).Err? {
      FailureSticks(f, v, q, i + 1);
    }
  }

  lemma {:induction false} FailureSticks(f: (Vault, Key) -> Res, v: Vault, q: seq<Key>, i: nat)
    requires i <= |q| && Run(f, v, q[..i]).Err?
    ensures Run(f, v, q) == Run(f, v, q[..i])
    decreases |q| - i
  {
    if i < |q| {
      assert q[..i + 1][..i] == q[..i];
      FailureSticks(f, v, q, i + 1);
    } else {
      assert q[..i] == q;
    }
  }

  ghost function Importing(cfg: Config): (Vault, Key) -> Res { (v, k) => ImportFile(cfg, v, k) }

  /** Step 1b: an entry for a present text file that has none. */
  function Heal(v: Vault, k: Key): Res {
    if k in v.entries || k !in v.sidecars then Ok(v) else Ok(SetEntry(v, k, LiveText(v.TextOf(k))))
  }

  lemma HealIsOk(v: Vault, k: Key)
    ensures Heal(v, k).Ok?
  {}

  ghost function Healing(): (Vault, Key) -> Res { (v, k) => Heal(v, k) }

  /** Step 2: tombstone a live entry whose file this device had and now lacks. */
  ghost function DetectDelete(present: set<Key>, v: Vault, k: Key): Res {
    if k !in v.entries || !v.entries[k].status.Live? || k in present then Ok(v)
    else if v.entries[k].kind.Blob? then
      if k in v.markers then Ok(DropMarker(WriteTombstone(v, k, Blob, v.entries[k].contentHash), k)) else Ok(v)
    else
      if k in v.sidecars then Ok(DropSidecar(WriteTombstone(v, k, Text, LastSynced(v, k)), k)) else Ok(v)
  }

  lemma DetectIsOk(present: set<Key>, v: Vault, k: Key)
    ensures DetectDelete(present, v, k).Ok?
  {}

  ghost function Detecting(present: set<Key>): (Vault, Key) -> Res { (v, k) => DetectDelete(present, v, k) }

  /** A projection that leaves a dirty file alone. */
  ghost function ProjectUnlessDirty(v: Vault, k: Key): Res {
    match ProjectFile(v, k)
    case Ok(w) => Ok(w)
    case Err(w, e) => if e.DirtyFile? then Ok(w) else Err(w, e)
  }

  /** Step 3: apply one entry to disk. */
  ghost function Reconcile(present: set<Key>, v: Vault, k: Key): Res {
    if k !in v.entries then Ok(v)
    else
      var e := v.entries[k];
      if e.status.Live? then
        if e.kind.Blob? then ProjectBlob(v, k, e.contentHash)
        else if k in present then ProjectUnlessDirty(v, k)
        else if k !in v.sidecars then ProjectFile(v, k)
        else Ok(v)
      else if e.kind.Blob? then
        Ok(DropSidecar(DropMarker(if k in present then DropFile(v, k) else v, k), k))
      else if k !in present then Ok(DropSidecar(v, k))
      else if TextHash(v.TextOf(k)) == e.contentHash then Ok(DropSidecar(DropFile(v, k), k))
      else ProjectUnlessDirty(SetEntry(v, k, FileEntry(Text, Live, TextHash(v.TextOf(k)), None, None)), k)
  }

  ghost function Reconciling(present: set<Key>): (Vault, Key) -> Res { (v, k) => Reconcile(present, v, k) }

  /** The orders in which a scan visits files and entries: any listing will do. */
  datatype Orders = Orders(files: seq<Key>, healed: seq<Key>, checked: seq<Key>, applied: seq<Key>)

  ghost predicate Lists(q: seq<Key>, s: set<Key>) {
    && Distinct(q)
    && (forall k :: k in q <==> k in s)
  }

  ghost function Step1(cfg: Config, v: Vault, o: Orders): Res { Run(Importing(cfg), v, o.files) }

  ghost function Step1b(cfg: Config, v: Vault, o: Orders): Res {
    match Step1(cfg, v, o)
    case Err(w, e) => Err(w, e)
    case Ok(w) => Run(Healing(), w, o.healed)
  }

  ghost function Step2(cfg: Config, v: Vault, o: Orders): Res {
    match Step1b(cfg, v, o)
    case Err(w, e) => Err(w, e)
    case Ok(w) => Run(Detecting(v.disk.Keys), w, o.checked)
  }

  /** A full scan by a writer. */
  ghost function Scan(cfg: Config, v: Vault, o: Orders): Res {
    match Step2(cfg, v, o)
    case Err(w, e) => Err(w, e)
    case Ok(w) => Run(Reconciling(v.disk.Keys), w, o.applied)
  }

  /** Each step visits exactly the files, or the entries, there are when it starts. */
  ghost predicate Covers(cfg: Config, v: Vault, o: Orders) {
    && Lists(o.files, v.disk.Keys)
    && Lists(o.healed, v.disk.Keys)
    && (Step1b(cfg, v, o).Ok? ==> Lists(o.checked, Step1b(cfg, v, o).v.entries.Keys))
    && (Step2(cfg, v, o).Ok? ==> Lists(o.applied, Step2(cfg, v, o).v.entries.Keys))
  }

  // ---------------------------------------------------------------- a reader's scan

  /** A text file is put back to what its container holds, whatever it was edited to. */
  function Revert(v: Vault, k: Key): Res {
    if k !in v.disk || !v.disk[k].Utf8? then Ok(v)
    else Ok(v.(disk := v.disk[k := Utf8(v.TextOf(k))], sidecars := v.sidecars[k := v.TextOf(k)]))
  }

  ghost function Reverting(): (Vault, Key) -> Res { (v, k) => Revert(v, k) }

  lemma RevertIsOk(v: Vault, k: Key)
    ensures Revert(v, k).Ok?
  {}

  /** A reader imports and records nothing: it reverts its text files, then applies the
      entries to disk. */
  ghost function ReaderScan(v: Vault, o: Orders): Res {
    match Run(Reverting(), v, o.files)
    case Err(w, e) => Err(w, e)
    case Ok(w) => Run(Reconciling(v.disk.Keys), w, o.applied)
  }

  ghost predicate ReaderCovers(v: Vault, o: Orders) {
    Lists(o.files, v.disk.Keys) && Lists(o.applied, v.entries.Keys)
  }
}
