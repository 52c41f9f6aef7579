/** A concrete merge on which conflict detection differs from its documentation. */
module MergeExamples {
  import opened ChangeScript
  import opened Conflicts

  /** The local side deletes "abc". */
  const LOCAL := [Change(Delete, "abc")]

  /** The remote side inserts "X" after the first character. */
  const REMOTE := [Change(Equal, "a"), Change(Insert, "X"), Change(Equal, "bc")]

  lemma LocalReads()
    ensures IsScript(LOCAL, "abc", "") && Kept(LOCAL) == [false, false, false] && Runs(LOCAL) == ["", "", "", ""]
  {
    assert LOCAL[..0] == [];
    AddedOld(LOCAL);
    assert OldText([]) == "" && Kept([]) == [] && Runs([]) == [""];
    assert "" + "abc" == "abc";
  }

  lemma RemoteReads()
    ensures IsScript(REMOTE, "abc", "aXbc") && Kept(REMOTE) == [true, true, true] && Runs(REMOTE) == ["", "X", "", ""]
  {
    var one, two := REMOTE[..1], REMOTE[..2];
    assert one[..0] == [] && two[..1] == one && REMOTE[..2] == two;
    assert one == [Change(Equal, "a")] && two == [Change(Equal, "a"), Change(Insert, "X")];
    AddedOld(one);
    assert OldText(one) == "a" && NewText(one) == "a" && Kept(one) == [true] && Runs(one) == ["", ""];
    AddedInsert(two);
    assert "" + "X" == "X";
    assert NewText(two) == "aX" && Runs(two) == ["", "X"];
    AddedOld(REMOTE);
    assert "aX" + "bc" == "aXbc" && "a" + "bc" == "abc";
  }

  /** Merging "" and "aXbc" over "abc" reports a conflict of no width at the insert,
      though no character is deleted by both sides. */
  lemma ZeroWidthConflictHappens(conflicts: seq<Conflict>)
    requires OldText(LOCAL) == OldText(REMOTE) && ExactConflicts(LOCAL, REMOTE, conflicts)
    ensures Conflict(1, 1, "") in conflicts
    ensures forall i: nat :: i < 3 ==> Kept(REMOTE)[i]
  {
    LocalReads();
    RemoteReads();
    hide OldText, NewText, Kept, Runs;
    assert InsideDeleteRun(LOCAL, 1);
    assert HasPoint(conflicts, 1);
    var c :| c in conflicts && c.ancestorStart == c.ancestorEnd == 1;
    assert c == Conflict(1, 1, "");
  }
}
