/** Detection of ancestor ranges that both sides of a merge edited. */
module Conflicts {
  import opened Prelude
  import opened ChangeScript
  import opened AncestorEdits

  /** An ancestor range both sides edited, with the ancestor text it holds. */
  datatype Conflict = Conflict(ancestorStart: nat, ancestorEnd: nat, ancestorText: string)

  function Max(x: nat, y: nat): nat { if x < y then y else x }
  function Min(x: nat, y: nat): nat { if x < y then x else y }

  predicate Overlap(le: LocalEdit, re: LocalEdit) {
    le.Lo() != le.Hi() && le.Lo() < re.Hi() && re.Lo() < le.Hi()
  }

  /** The contested range of two overlapping edits. */
  function Contested(a: string, le: LocalEdit, re: LocalEdit): (c: Conflict)
    requires Overlap(le, re) && le.Hi() <= |a| && re.Lo() <= re.Hi() && le.Lo() <= le.Hi()
    ensures c.ancestorStart <= c.ancestorEnd <= |a| && c.ancestorText == a[c.ancestorStart..c.ancestorEnd]
  {
    var start, end := Max(le.Lo(), re.Lo()), Min(le.Hi(), re.Hi());
    Conflict(start, end, a[start..end])
  }

  /** `c` is contested by one of the first pairs: every local edit before `j`,
      and the remote edits before `l` for local edit `j` itself. */
  ghost predicate Found(a: string, local: seq<LocalEdit>, remote: seq<LocalEdit>, j: nat, l: nat, c: Conflict)
    requires Ordered(local, |a|) && Ordered(remote, |a|)
  {
    exists x: nat, y: nat :: (x < j || (x == j && y < l)) && ContestedBy(a, local, remote, x, y, c)
  }

  ghost predicate ContestedBy(a: string, local: seq<LocalEdit>, remote: seq<LocalEdit>, x: nat, y: nat, c: Conflict)
    requires Ordered(local, |a|) && Ordered(remote, |a|)
  {
    x < |local| && y < |remote| && Overlap(local[x], remote[y]) && c == Contested(a, local[x], remote[y])
  }

  /** Listed front to back, none reaching into the next. */
  ghost predicate LeftToRight(cs: seq<Conflict>) {
    forall i, j :: 0 <= i < j < |cs| ==> cs[i].ancestorEnd <= cs[j].ancestorStart
  }

  lemma ComesAfter(a: string, local: seq<LocalEdit>, remote: seq<LocalEdit>, j: nat, l: nat, cs: seq<Conflict>)
    requires Ordered(local, |a|) && Ordered(remote, |a|) && j < |local| && l < |remote| && Overlap(local[j], remote[l])
    requires LeftToRight(cs) && forall c :: c in cs ==> Found(a, local, remote, j, l, c)
    ensures LeftToRight(cs + [Contested(a, local[j], remote[l])])
  {
    forall i | 0 <= i < |cs| ensures cs[i].ancestorEnd <= Contested(a, local[j], remote[l]).ancestorStart {
      assert cs[i] in cs;
      var x: nat, y: nat :| (x < j || (x == j && y < l)) && ContestedBy(a, local, remote, x, y, cs[i]);
    }
  }

  method DetectConflicts(a: string, local: seq<LocalEdit>, remote: seq<LocalEdit>) returns (conflicts: seq<Conflict>)
    requires Ordered(local, |a|) && Ordered(remote, |a|)
    ensures Distinct(conflicts) && LeftToRight(conflicts)
    ensures forall c :: c in conflicts <==> Found(a, local, remote, |local|, 0, c)
  {
    conflicts := [];
    for j := 0 to |local|
      invariant Distinct(conflicts) && LeftToRight(conflicts)
      invariant forall c :: c in conflicts <==> Found(a, local, remote, j, 0, c)
    {
      var le := local[j];
      if le.Lo() == le.Hi() {
        assert forall c :: Found(a, local, remote, j + 1, 0, c) <==> Found(a, local, remote, j, 0, c);
        continue;
      }
      for l := 0 to |remote|
        invariant Distinct(conflicts) && LeftToRight(conflicts)
        invariant forall c :: c in conflicts <==> Found(a, local, remote, j, l, c)
      {
        FoundNext(a, local, remote, j, l);
        var re := remote[l];
        if le.Lo() < re.Hi() && re.Lo() < le.Hi() {
          var conflict := Contested(a, le, re);
          ComesAfter(a, local, remote, j, l, conflicts);
          if conflict !in conflicts {
            conflicts := conflicts + [conflict];
          }
        }
      }
      assert forall c :: Found(a, local, remote, j + 1, 0, c) <==> Found(a, local, remote, j, |remote|, c);
    }
  }

  lemma FoundNext(a: string, local: seq<LocalEdit>, remote: seq<LocalEdit>, j: nat, l: nat)
    requires Ordered(local, |a|) && Ordered(remote, |a|) && j < |local| && l < |remote|
    ensures forall c :: Found(a, local, remote, j, l + 1, c) <==>
              Found(a, local, remote, j, l, c) || ContestedBy(a, local, remote, j, l, c)
  {
    forall c | Found(a, local, remote, j, l, c) ensures Found(a, local, remote, j, l + 1, c) {
      var x: nat, y: nat :| (x < j || (x == j && y < l)) && ContestedBy(a, local, remote, x, y, c);
      assert x < j || (x == j && y < l + 1);
    }
  }

  /** What the detector promises in terms of the two scripts alone.

      The ranges are listed front to back and do not overlap. Those of positive
      width cover exactly the characters both sides delete.
      A zero-width range is reported exactly where the remote inserts strictly
      inside one local delete run. */
  ghost predicate ExactConflicts(local: seq<Change>, remote: seq<Change>, cs: seq<Conflict>)
    requires OldText(local) == OldText(remote)
  {
    var a := OldText(local);
    && Distinct(cs) && LeftToRight(cs)
    && (forall c :: c in cs ==> c.ancestorStart <= c.ancestorEnd <= |a| && c.ancestorText == a[c.ancestorStart..c.ancestorEnd])
    && (forall i: nat :: i < |a| ==> (InSomeRange(cs, i) <==> !Kept(local)[i] && !Kept(remote)[i]))
    && (forall p: nat :: HasPoint(cs, p) <==> InsideDeleteRun(local, p) && p <= |a| && Runs(remote)[p] != "")
  }

  ghost predicate InSomeRange(cs: seq<Conflict>, i: nat) {
    exists c :: c in cs && c.ancestorStart <= i < c.ancestorEnd
  }

  ghost predicate HasPoint(cs: seq<Conflict>, p: nat) {
    exists c :: c in cs && c.ancestorStart == c.ancestorEnd == p
  }

  /** Boundary `p` lies strictly inside a run of deletes that nothing interrupts. */
  ghost predicate InsideDeleteRun(s: seq<Change>, p: nat) {
    0 < p < |OldText(s)| && !Kept(s)[p - 1] && !Kept(s)[p] && Runs(s)[p] == ""
  }

  lemma {:induction false} InsertedNonEmpty(edits: seq<LocalEdit>, p: nat)
    requires Coalesced(edits)
    ensures Inserted(edits, p) != "" <==> exists j :: 0 <= j < |edits| && edits[j].InsertAt? && edits[j].aPos == p
  {
    if edits != [] {
      var init := edits[..|edits| - 1];
      InsertedNonEmpty(init, p);
      if exists j :: 0 <= j < |edits| && edits[j].InsertAt? && edits[j].aPos == p {
        var j :| 0 <= j < |edits| && edits[j].InsertAt? && edits[j].aPos == p;
        if j < |init| { assert init[j].InsertAt? && init[j].aPos == p; }
      }
      if exists j :: 0 <= j < |init| && init[j].InsertAt? && init[j].aPos == p {
        var j :| 0 <= j < |init| && init[j].InsertAt? && init[j].aPos == p;
        assert edits[j].InsertAt? && edits[j].aPos == p;
      }
    }
  }

  /** A boundary is strictly inside one coalesced delete exactly when the script
      deletes on both sides of it and inserts nothing there. */
  lemma {:induction false} InsideOneEdit(edits: seq<LocalEdit>, s: seq<Change>, p: nat)
    requires Represents(edits, s) && Coalesced(edits)
    ensures InsideDeleteRun(s, p) <==> exists j :: 0 <= j < |edits| && edits[j].DeleteRange? && edits[j].start < p < edits[j].end
  {
    InsertedNonEmpty(edits, p);
    if j :| 0 <= j < |edits| && edits[j].DeleteRange? && edits[j].start < p < edits[j].end {
      assert edits[j].Covers(p - 1) && edits[j].Covers(p);
      forall l | 0 <= l < |edits| && edits[l].InsertAt? ensures edits[l].aPos != p {
        if l < j { assert edits[l].Hi() <= edits[j].Lo(); }
        if l > j { assert edits[j].Hi() <= edits[l].Lo(); }
      }
    }
    if InsideDeleteRun(s, p) {
      var j :| 0 <= j < |edits| && edits[j].Covers(p - 1);
      var l :| 0 <= l < |edits| && edits[l].Covers(p);
      if j != l { Bridged(edits, |OldText(s)|, p, j, l); }
    }
  }

  lemma Bridged(edits: seq<LocalEdit>, n: nat, p: nat, j: nat, l: nat)
    requires Ordered(edits, n) && Coalesced(edits) && 0 < p
    requires j < |edits| && l < |edits| && j != l && edits[j].Covers(p - 1) && edits[l].Covers(p)
    ensures exists x :: 0 <= x < |edits| && edits[x].InsertAt? && edits[x].aPos == p
  {
    assert j < l && edits[j].Hi() <= edits[l].Lo();
    assert edits[j].end == p == edits[l].start;
    assert !Joinable(edits[j], edits[j + 1]) by { assert edits[j] == edits[j + 1 - 1]; }
    assert edits[j].Hi() <= edits[j + 1].Lo() <= edits[j + 1].Hi() <= edits[l].Lo();
    assert edits[j + 1].InsertAt? && edits[j + 1].aPos == p;
  }

  lemma RangesAreExact(a: string, le: seq<LocalEdit>, re: seq<LocalEdit>, cs: seq<Conflict>, i: nat)
    requires Ordered(le, |a|) && Ordered(re, |a|) && i < |a|
    requires forall c :: c in cs <==> Found(a, le, re, |le|, 0, c)
    ensures InSomeRange(cs, i) <==> Deletes(le, i) && Deletes(re, i)
  {
    if c :| c in cs && c.ancestorStart <= i < c.ancestorEnd {
      assert Found(a, le, re, |le|, 0, c);
      var x: nat, y: nat :| x < |le| && ContestedBy(a, le, re, x, y, c);
      assert le[x].Covers(i) && re[y].Covers(i);
    }
    if Deletes(le, i) && Deletes(re, i) {
      var x: nat :| x < |le| && le[x].Covers(i);
      var y: nat :| y < |re| && re[y].Covers(i);
      var c := Contested(a, le[x], re[y]);
      assert ContestedBy(a, le, re, x, y, c);
      assert c in cs;
    }
  }

  lemma PointsAreExact(a: string, le: seq<LocalEdit>, re: seq<LocalEdit>, cs: seq<Conflict>, p: nat)
    requires Ordered(le, |a|) && Ordered(re, |a|) && Coalesced(re)
    requires forall c :: c in cs <==> Found(a, le, re, |le|, 0, c)
    ensures HasPoint(cs, p) <==>
              && (exists x :: 0 <= x < |le| && le[x].DeleteRange? && le[x].start < p < le[x].end)
              && (exists y :: 0 <= y < |re| && re[y].InsertAt? && re[y].aPos == p)
  {
    if c :| c in cs && c.ancestorStart == c.ancestorEnd == p {
      assert Found(a, le, re, |le|, 0, c);
      var x: nat, y: nat :| x < |le| && ContestedBy(a, le, re, x, y, c);
      assert re[y].InsertAt? && re[y].aPos == p && le[x].start < p < le[x].end;
    }
    if x: nat, y: nat :| x < |le| && y < |re| && le[x].DeleteRange? && le[x].start < p < le[x].end && re[y].InsertAt? && re[y].aPos == p {
      var c := Contested(a, le[x], re[y]);
      assert ContestedBy(a, le, re, x, y, c);
      assert c in cs;
    }
  }

  /** The reported conflicts, read off the two scripts. */
  lemma {:induction false} ConflictsAreExact(local: seq<Change>, remote: seq<Change>, le: seq<LocalEdit>, re: seq<LocalEdit>, cs: seq<Conflict>)
    requires OldText(local) == OldText(remote)
    requires Represents(le, local) && Represents(re, remote) && Coalesced(le) && Coalesced(re)
    requires Distinct(cs) && LeftToRight(cs) && forall c :: c in cs <==> Found(OldText(local), le, re, |le|, 0, c)
    ensures ExactConflicts(local, remote, cs)
  {
    var a := OldText(local);
    forall i: nat | i < |a| ensures InSomeRange(cs, i) <==> !Kept(local)[i] && !Kept(remote)[i] {
      RangesAreExact(a, le, re, cs, i);
    }
    forall p: nat ensures HasPoint(cs, p) <==> InsideDeleteRun(local, p) && p <= |a| && Runs(remote)[p] != "" {
      PointsAreExact(a, le, re, cs, p);
      InsideOneEdit(le, local, p);
      InsertedNonEmpty(re, p);
    }
    forall c | c in cs ensures c.ancestorStart <= c.ancestorEnd <= |a| && c.ancestorText == a[c.ancestorStart..c.ancestorEnd] {
      assert Found(a, le, re, |le|, 0, c);
    }
  }
}
