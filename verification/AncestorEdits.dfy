/** Local edits in ancestor coordinates: the coalesced form of a change script
    that the rebase and the conflict detector walk. */
module AncestorEdits {
  import opened ChangeScript

  /** A local edit in ancestor coordinates. */
  datatype LocalEdit =
    | InsertAt(aPos: nat, s: string)
    | DeleteRange(start: nat, end: nat)
  {
    /** Ancestor footprint: a delete's range, or an insert's zero-width point. */
    function Lo(): nat { if InsertAt? then aPos else start }
    function Hi(): nat { if InsertAt? then aPos else end }

    predicate Covers(i: nat) { DeleteRange? && start <= i < end }
    predicate InsertsAt(i: nat) { InsertAt? && aPos == i }
  }

  // ---------------------------------------------------------------- meaning of edit lists

  ghost predicate Deletes(edits: seq<LocalEdit>, i: nat) {
    exists j :: 0 <= j < |edits| && edits[j].Covers(i)
  }

  ghost function Inserted(edits: seq<LocalEdit>, i: nat): string {
    if edits == [] then "" else
      var before, e := Inserted(edits[..|edits| - 1], i), edits[|edits| - 1];
      if e.InsertsAt(i) then before + e.s else before
  }

  /** Edits are listed front to back over an ancestor of length `n`. */
  ghost predicate Ordered(edits: seq<LocalEdit>, n: nat) {
    && (forall j :: 0 <= j < |edits| ==> edits[j].Lo() <= edits[j].Hi() <= n)
    && (forall j, l :: 0 <= j < l < |edits| ==> edits[j].Hi() <= edits[l].Lo())
  }

  /** No edit is empty and no two neighbours could have been one edit. */
  ghost predicate Coalesced(edits: seq<LocalEdit>) {
    && (forall j :: 0 <= j < |edits| ==> if edits[j].InsertAt? then edits[j].s != "" else edits[j].start < edits[j].end)
    && (forall j :: 0 < j < |edits| ==> !Joinable(edits[j - 1], edits[j]))
  }

  ghost predicate Joinable(d: LocalEdit, e: LocalEdit) {
    (d.DeleteRange? <==> e.DeleteRange?) && d.Hi() == e.Lo()
  }

  /** The edit list says of every character and boundary what the script says. */
  ghost predicate Represents(edits: seq<LocalEdit>, s: seq<Change>) {
    && Ordered(edits, |OldText(s)|)
    && (forall i :: 0 <= i < |OldText(s)| ==> Kept(s)[i] == !Deletes(edits, i))
    && (forall i :: 0 <= i <= |OldText(s)| ==> Runs(s)[i] == Inserted(edits, i))
  }

  lemma {:induction false} Pushed(edits: seq<LocalEdit>, e: LocalEdit, i: nat)
    ensures Deletes(edits + [e], i) <==> Deletes(edits, i) || e.Covers(i)
    ensures Inserted(edits + [e], i) == if e.InsertsAt(i) then Inserted(edits, i) + e.s else Inserted(edits, i)
  {
    var all := edits + [e];
    assert all[..|all| - 1] == edits && all[|edits|] == e;
    if j :| 0 <= j < |edits| && edits[j].Covers(i) { assert all[j].Covers(i); }
    if e.Covers(i) { assert all[|edits|].Covers(i); }
  }

  lemma {:induction false} NothingOutside(edits: seq<LocalEdit>, lo: nat, hi: nat, i: nat)
    requires forall j :: 0 <= j < |edits| ==> lo <= edits[j].Lo() <= edits[j].Hi() <= hi
    requires i < lo || hi < i
    ensures Inserted(edits, i) == "" && !Deletes(edits, i)
  {
    if edits != [] {
      NothingOutside(edits[..|edits| - 1], lo, hi, i);
    }
  }

  // ---------------------------------------------------------------- script -> edits

  lemma OneMore(s: seq<Change>, i: nat)
    requires i < |s|
    ensures s[..i + 1][..i] == s[..i] && s[..i + 1][i] == s[i] && |s[..i + 1]| == i + 1
  {}

  /** The piece of edit one change adds at ancestor position `n`. */
  function EditOf(c: Change, n: nat): LocalEdit {
    match c.tag
    case Equal => InsertAt(n, "")
    case Delete => DeleteRange(n, n + |c.value|)
    case Insert => InsertAt(n, c.value)
  }

  /** Adding one change to a script adds one piece of edit. */
  lemma {:induction false} RepresentsStep(edits: seq<LocalEdit>, s: seq<Change>)
    requires s != [] && Represents(edits, s[..|s| - 1])
    ensures Represents(edits + [EditOf(s[|s| - 1], |OldText(s[..|s| - 1])|)], s)
  {
    var p, c := s[..|s| - 1], s[|s| - 1];
    var n := |OldText(p)|;
    var e := EditOf(c, n);
    OrderedPush(edits, e, n, |OldText(s)|);
    forall x | 0 <= x < |OldText(s)| ensures Kept(s)[x] == !Deletes(edits + [e], x) {
      KeptStep(edits, s, x);
    }
    forall x | 0 <= x <= |OldText(s)| ensures Runs(s)[x] == Inserted(edits + [e], x) {
      RunsStep(edits, s, x);
    }
  }

  lemma OrderedPush(edits: seq<LocalEdit>, e: LocalEdit, n: nat, m: nat)
    requires Ordered(edits, n) && n <= e.Lo() <= e.Hi() <= m
    ensures Ordered(edits + [e], m)
  {}

  lemma {:induction false} KeptStep(edits: seq<LocalEdit>, s: seq<Change>, x: nat)
    requires s != [] && Represents(edits, s[..|s| - 1]) && x < |OldText(s)|
    ensures Kept(s)[x] == !Deletes(edits + [EditOf(s[|s| - 1], |OldText(s[..|s| - 1])|)], x)
  {
    var n := |OldText(s[..|s| - 1])|;
    Pushed(edits, EditOf(s[|s| - 1], n), x);
    if s[|s| - 1].tag.Insert? { AddedInsert(s); } else { AddedOld(s); }
    if x >= n { NotCovered(edits, n, x); }
  }

  lemma {:induction false} RunsStep(edits: seq<LocalEdit>, s: seq<Change>, x: nat)
    requires s != [] && Represents(edits, s[..|s| - 1]) && x <= |OldText(s)|
    ensures Runs(s)[x] == Inserted(edits + [EditOf(s[|s| - 1], |OldText(s[..|s| - 1])|)], x)
  {
    var n := |OldText(s[..|s| - 1])|;
    Pushed(edits, EditOf(s[|s| - 1], n), x);
    if s[|s| - 1].tag.Insert? { AddedInsert(s); } else { AddedOld(s); }
    if x > n { NothingOutside(edits, 0, n, x); }
  }

  lemma NotCovered(edits: seq<LocalEdit>, n: nat, i: nat)
    requires Ordered(edits, n) && n <= i
    ensures !Deletes(edits, i)
  {}

  /** The last edit grown by one that can join it. */
  function Joined(d: LocalEdit, e: LocalEdit): LocalEdit {
    if d.DeleteRange? && e.DeleteRange? then DeleteRange(d.start, e.end)
    else if d.InsertAt? && e.InsertAt? then InsertAt(d.aPos, d.s + e.s)
    else d
  }

  /** The list with one more edit, joined to the last one when it can be. */
  ghost function Push(edits: seq<LocalEdit>, e: LocalEdit): seq<LocalEdit> {
    if edits != [] && Joinable(edits[|edits| - 1], e)
    then edits[..|edits| - 1] + [Joined(edits[|edits| - 1], e)]
    else edits + [e]
  }

  lemma {:induction false} JoinMeansSame(init: seq<LocalEdit>, d: LocalEdit, e: LocalEdit, i: nat)
    requires Joinable(d, e) && d.Lo() <= d.Hi() && e.Lo() <= e.Hi()
    ensures Deletes(init + [Joined(d, e)], i) == Deletes(init + [d] + [e], i)
    ensures Inserted(init + [Joined(d, e)], i) == Inserted(init + [d] + [e], i)
  {
    hide Deletes, Inserted;
    Pushed(init + [d], e, i);
    Pushed(init, d, i);
    Pushed(init, Joined(d, e), i);
    assert Joined(d, e).Covers(i) == (d.Covers(i) || e.Covers(i));
    if d.InsertsAt(i) {
      assert Inserted(init, i) + d.s + e.s == Inserted(init, i) + (d.s + e.s);
    }
  }

  lemma JoinKeepsOrder(init: seq<LocalEdit>, d: LocalEdit, e: LocalEdit, n: nat)
    requires Joinable(d, e) && Ordered(init + [d] + [e], n)
    ensures Ordered(init + [Joined(d, e)], n)
    ensures d.Lo() <= d.Hi() && e.Lo() <= e.Hi()
  {
    var all, now := init + [d] + [e], init + [Joined(d, e)];
    assert all[|init|] == d && all[|init| + 1] == e;
    forall j | 0 <= j < |init| ensures now[j] == all[j] {}
    forall j, l | 0 <= j < l < |now| ensures now[j].Hi() <= now[l].Lo() {
      assert all[j].Hi() <= all[l].Lo();
    }
  }

  lemma {:induction false} PushRepresents(edits: seq<LocalEdit>, e: LocalEdit, s: seq<Change>)
    requires Represents(edits + [e], s)
    ensures Represents(Push(edits, e), s)
  {
    if edits != [] && Joinable(edits[|edits| - 1], e) {
      var init, d := edits[..|edits| - 1], edits[|edits| - 1];
      assert init + [d] == edits;
      JoinKeepsOrder(init, d, e, |OldText(s)|);
      forall i | 0 <= i <= |OldText(s)|
        ensures Deletes(Push(edits, e), i) == Deletes(edits + [e], i) && Inserted(Push(edits, e), i) == Inserted(edits + [e], i)
      {
        JoinMeansSame(init, d, e, i);
      }
    }
  }

  lemma PushCoalesces(edits: seq<LocalEdit>, e: LocalEdit)
    requires Coalesced(edits) && Coalesced([e])
    ensures Coalesced(Push(edits, e))
  {
    var now := Push(edits, e);
    assert [e][0] == e;
    if edits != [] && Joinable(edits[|edits| - 1], e) {
      var d := edits[|edits| - 1];
      assert now[|now| - 1] == Joined(d, e);
      assert forall j :: 0 <= j < |now| - 1 ==> now[j] == edits[j];
      if |edits| > 1 { assert !Joinable(edits[|edits| - 2], d); }
    }
  }

  lemma {:induction false} DropEmpty(edits: seq<LocalEdit>, n: nat, s: seq<Change>)
    requires Represents(edits + [InsertAt(n, "")], s)
    ensures Represents(edits, s)
  {
    forall i | 0 <= i <= |OldText(s)|
      ensures Deletes(edits, i) == Deletes(edits + [InsertAt(n, "")], i) && Inserted(edits, i) == Inserted(edits + [InsertAt(n, "")], i)
    {
      Pushed(edits, InsertAt(n, ""), i);
    }
    var all := edits + [InsertAt(n, "")];
    forall j | 0 <= j < |edits| ensures edits[j] == all[j] {}
    forall j, l | 0 <= j < l < |edits| ensures edits[j].Hi() <= edits[l].Lo() {
      assert all[j].Hi() <= all[l].Lo();
    }
  }

  /** The list after reading one more change. */
  ghost function Read(edits: seq<LocalEdit>, c: Change, n: nat): seq<LocalEdit> {
    if c.tag.Equal? then edits else Push(edits, EditOf(c, n))
  }

  ghost function ReadAll(s: seq<Change>): seq<LocalEdit> {
    if s == [] then [] else Read(ReadAll(s[..|s| - 1]), s[|s| - 1], |OldText(s[..|s| - 1])|)
  }

  lemma {:induction false} ReadRepresents(s: seq<Change>)
    requires WellFormed(s)
    ensures Represents(ReadAll(s), s) && Coalesced(ReadAll(s))
  {
    if s != [] {
      var p, c := s[..|s| - 1], s[|s| - 1];
      var edits, n := ReadAll(p), |OldText(p)|;
      ReadRepresents(p);
      RepresentsStep(edits, s);
      if c.tag.Equal? {
        DropEmpty(edits, n, s);
      } else {
        PushRepresents(edits, EditOf(c, n), s);
        PushCoalesces(edits, EditOf(c, n));
      }
    }
  }

  lemma {:induction false} OldStep(s: seq<Change>, i: nat)
    requires i < |s|
    ensures |OldText(s[..i + 1])| == |OldText(s[..i])| + if s[i].tag.Insert? then 0 else |s[i].value|
    ensures ReadAll(s[..i + 1]) == Read(ReadAll(s[..i]), s[i], |OldText(s[..i])|)
  {
    OneMore(s, i);
  }

  /** Walk a script into coalesced ancestor-coordinate edits. */
  method LocalEdits(script: seq<Change>) returns (edits: seq<LocalEdit>)
    requires WellFormed(script)
    ensures Represents(edits, script) && Coalesced(edits)
  {
    edits := [];
    var aIdx := 0;
    for i := 0 to |script|
      invariant aIdx == |OldText(script[..i])| && edits == ReadAll(script[..i])
    {
      OldStep(script, i);
      var value := script[i].value;
      var count := |value|;
      match script[i].tag {
        case Equal =>
          aIdx := aIdx + count;
        case Delete =>
          if edits != [] && edits[|edits| - 1].DeleteRange? && edits[|edits| - 1].end == aIdx {
            edits := edits[..|edits| - 1] + [DeleteRange(edits[|edits| - 1].start, aIdx + count)];
          } else {
            edits := edits + [DeleteRange(aIdx, aIdx + count)];
          }
          aIdx := aIdx + count;
        case Insert =>
          if edits != [] && edits[|edits| - 1].InsertAt? && edits[|edits| - 1].aPos == aIdx {
            edits := edits[..|edits| - 1] + [InsertAt(aIdx, edits[|edits| - 1].s + value)];
          } else {
            edits := edits + [InsertAt(aIdx, value)];
          }
      }
    }
    assert script[..|script|] == script;
    ReadRepresents(script);
  }
}
