/** Concrete vaults on which a scan falls short of what its documentation says. */
module ScanExamples {
  import opened Prelude
  import opened ChangeScript
  import opened Rebase
  import opened FileSet
  import opened Vault
  import opened ScanViews
  import opened ScanLaws
  import opened ScanRest
  import opened ScanOutcome

  ghost function Plain(maxChars: nat): Config { Config(ReplaceDiffer, maxChars, None) }

  /** One key, nothing on disk, a live blob entry whose payload is text. */
  ghost function TextPayload(k: Key): Vault {
    Vault(map[], map[], {}, map[k := LiveBlob(Utf8("x"))], map[], {Utf8("x")}, 0, true)
  }

  lemma RunOnOne(f: (Vault, Key) -> Res, v: Vault, k: Key)
    ensures Run(f, v, [k]) == f(v, k) && Run(f, v, []) == Ok(v)
  {
    assert [k][..0] == [];
    assert Run(f, v, [k][..0]) == Ok(v);
  }

  lemma AbsentScan(cfg: Config, v: Vault, k: Key)
    requires v.disk == map[] && v.entries.Keys == {k} && k !in v.sidecars && k !in v.markers && v.entries[k].status.Live?
    ensures Covers(cfg, v, Orders([], [], [k], [k])) && Scan(cfg, v, Orders([], [], [k], [k])) == Reconcile({}, v, k)
    ensures Step1(cfg, v, Orders([], [], [k], [k])) == Ok(v)
  {
    var o := Orders([], [], [k], [k]);
    RunOnOne(Importing(cfg), v, k);
    RunOnOne(Healing(), v, k);
    assert Step1(cfg, v, o) == Ok(v) && Step1b(cfg, v, o) == Ok(v);
    RunOnOne(Detecting({}), v, k);
    assert v.disk.Keys == {};
    assert Step2(cfg, v, o) == Ok(v);
    RunOnOne(Reconciling({}), v, k);
  }

  /** The scan projects the payload, and the next one reads it back as text: a
      second scan authors a new entry. */
  lemma TextPayloadIsNotIdempotent(k: Key, o2: Orders)
    requires Scan(Plain(10), TextPayload(k), Orders([], [], [k], [k])).Ok? ==>
               Covers(Plain(10), Scan(Plain(10), TextPayload(k), Orders([], [], [k], [k])).v, o2)
    ensures var r := Scan(Plain(10), TextPayload(k), Orders([], [], [k], [k]));
            r.Ok? && r.v.disk == map[k := Utf8("x")] && Scan(Plain(10), r.v, o2) != Ok(r.v)
  {
    var cfg, v, o := Plain(10), TextPayload(k), Orders([], [], [k], [k]);
    AbsentScan(cfg, v, k);
    assert Aim(cfg, At(v, k), "x") == "x";
    assert !Stable(cfg, At(v, k), Foreseen(v));
    SecondScanIff(cfg, v, o, o2);
  }

  /** A live text entry longer than the diff bound, not yet on disk. */
  ghost function LongText(k: Key): Vault {
    Vault(map[], map[], {}, map[k := LiveText("xy")], map[k := "xy"], {}, 0, true)
  }

  /** Above the bound every import rewrites the whole container. */
  lemma LongTextIsNotIdempotent(k: Key, o2: Orders)
    requires Scan(Plain(1), LongText(k), Orders([], [], [k], [k])).Ok? ==>
               Covers(Plain(1), Scan(Plain(1), LongText(k), Orders([], [], [k], [k])).v, o2)
    ensures var r := Scan(Plain(1), LongText(k), Orders([], [], [k], [k]));
            r.Ok? && r.v.disk == map[k := Utf8("xy")] && Scan(Plain(1), r.v, o2) != Ok(r.v)
  {
    var cfg, v, o := Plain(1), LongText(k), Orders([], [], [k], [k]);
    AbsentScan(cfg, v, k);
    assert !Stable(cfg, At(v, k), Foreseen(v));
    SecondScanIff(cfg, v, o, o2);
  }

  /** The file was emptied here; elsewhere its one character was replaced. */
  ghost function Contested(k: Key): Vault {
    Vault(map[k := Utf8("")], map[k := "b"], {}, map[k := LiveText("b")], map[k := "X"], {}, 0, true)
  }

  lemma QuietScan(cfg: Config, v: Vault, k: Key)
    requires v.disk.Keys == {k} && v.entries.Keys == {k} && v.entries[k].status.Live? && v.entries[k].kind.Text?
    requires ImportFile(cfg, v, k) == Ok(v) && Dirty(v, k)
    ensures Covers(cfg, v, Orders([k], [k], [k], [k])) && Scan(cfg, v, Orders([k], [k], [k], [k])) == Ok(v)
  {
    hide ImportFile, Expected;
    var o := Orders([k], [k], [k], [k]);
    RunOnOne(Importing(cfg), v, k);
    RunOnOne(Healing(), v, k);
    RunOnOne(Detecting({k}), v, k);
    RunOnOne(Reconciling({k}), v, k);
    assert Step1(cfg, v, o) == Ok(v) && Step1b(cfg, v, o) == Ok(v) && Step2(cfg, v, o) == Ok(v);
  }

  /** Both sides deleted the only character and the remote replaced it: the merge
      is the remote text, so the import does nothing and the projection sees a
      dirty file. A scan leaves the vault as it is, with the file unlike its
      container and its sidecar unlike either. */
  lemma StuckHappens(k: Key)
    ensures var v, o := Contested(k), Orders([k], [k], [k], [k]);
            && Covers(Plain(10), v, o) && Scan(Plain(10), v, o) == Ok(v)
            && v.disk[k] != Utf8(v.TextOf(k)) && v.sidecars[k] != v.TextOf(k)
            && Stuck(Plain(10), At(v, k))
  {
    hide Expected, ImportFile;
    ContestedMerge();
    ContestedImport(k);
    QuietScan(Plain(10), Contested(k), k);
  }

  lemma ContestedMerge()
    ensures Expected(Plain(10), "b", "", "X") == "X"
  {
    var local, remote := ReplaceDiffer("b", ""), ReplaceDiffer("b", "X");
    assert local == [Change(Delete, "b")] && remote == [Change(Delete, "b"), Change(Insert, "X")];
    OfOne(Change(Delete, "b"));
    OfTwo(Change(Delete, "b"), Change(Insert, "X"));
    MergedExample(local, remote);
  }

  lemma ContestedImport(k: Key)
    ensures ImportFile(Plain(10), Contested(k), k) == Ok(Contested(k))
  {
    hide Expected;
    ContestedMerge();
    assert Target(Plain(10), Contested(k), k, "") == "X";
  }

  lemma MergedExample(local: seq<Change>, remote: seq<Change>)
    requires local == [Change(Delete, "b")] && remote == [Change(Delete, "b"), Change(Insert, "X")]
    requires OldText(local) == OldText(remote) == "b"
    ensures Merged(local, remote) == "X"
  {
    assert local[..0] == [] && remote[..1] == local;
    AddedOld(local);
    AddedInsert(remote);
    assert Kept(local) == [false] && Runs(local) == ["", ""];
    assert "" + "X" == "X" == "X" + "";
    assert Kept(remote) == [false] && Runs(remote) == ["", "X"];
    var k, r := Both(Kept(remote), Kept(local)), Stacked(Runs(remote), Runs(local));
    assert k == [false] && r == ["", "X"];
    assert Weave("b", k, r, 0) == "";
    assert Thread("b", k, r, 1) == "X";
  }

  /** One blob entry whose hash is no digest, as a peer may have sent it. */
  ghost function OnePoisoned(k: Key): Vault {
    Vault(map[], map[], {}, map[k := FileEntry(Blob, Live, Malformed("?"), None, None)], map[], {}, 0, true)
  }

  /** It makes a scan fail and changes nothing, so every later scan fails alike. */
  lemma PoisonHappens(k: Key)
    ensures var v, o := OnePoisoned(k), Orders([], [], [k], [k]);
            Covers(Plain(10), v, o) && Scan(Plain(10), v, o) == Err(v, InvalidHash) && Poisoned(Plain(10), At(v, k))
  {
    AbsentScan(Plain(10), OnePoisoned(k), k);
  }
}
