/** Three-way text merge: a local delta `A -> L` re-applied on top of a remote
    text `R`, by splicing a character list with a running shift.

    The specification is the interleaving `Merged`: at every ancestor boundary
    the remote run, then the local run, then the ancestor character exactly when
    both sides keep it.
 */
module Rebase {
  import opened Prelude
  import opened ChangeScript
  import opened AncestorEdits
  import opened Conflicts

  // ---------------------------------------------------------------- position map

  /** Where each ancestor boundary lands in the script's new text: after the run
      inserted there, just before the ancestor character if it is kept. */
  ghost function Landing(s: seq<Change>, i: nat): nat
    requires i <= |OldText(s)|
  {
    |Weave(OldText(s), Kept(s), Runs(s), i)|
  }

  /** Landings before the end do not move as a script grows. */
  lemma {:induction false} LandingStable(s: seq<Change>, x: nat)
    requires s != []
    requires x < |OldText(s[..|s| - 1])|
    ensures x <= |OldText(s)| && Landing(s, x) == Landing(s[..|s| - 1], x)
  {
    var p := s[..|s| - 1];
    WeaveAgrees(OldText(s), Kept(s), Runs(s), OldText(p), Kept(p), Runs(p), x);
  }

  /** Inside the change being read, landings follow its kind. */
  lemma {:induction false} LandingInside(s: seq<Change>, x: nat)
    requires s != [] && !s[|s| - 1].tag.Insert?
    requires |OldText(s[..|s| - 1])| <= x <= |OldText(s)|
    ensures Landing(s, x) == |NewText(s[..|s| - 1])| + if s[|s| - 1].tag.Equal? then x - |OldText(s[..|s| - 1])| else 0
  {
    var p, c := s[..|s| - 1], s[|s| - 1];
    var j := x - |OldText(p)|;
    assert OldText(s) == OldText(p) + c.value;
    assert Kept(s) == Kept(p) + Const(|c.value|, c.tag.Equal?);
    assert Runs(s) == Runs(p) + Const(|c.value|, "");
    ScriptWeaves(p);
    WeaveExtends(OldText(p), Kept(p), Runs(p), c.value, c.tag.Equal?, j);
  }

  /** The landings of all ancestor characters. */
  ghost function Landings(s: seq<Change>): (m: seq<nat>)
    ensures |m| == |OldText(s)|
  {
    seq(|OldText(s)|, i requires 0 <= i < |OldText(s)| => Landing(s, i))
  }

  /** Positions of one change's characters: rising if they are kept, level if not. */
  ghost function Ramp(r: nat, count: nat, equal: bool): (m: seq<nat>)
    ensures |m| == count
  {
    seq(count, i requires 0 <= i < count => if equal then r + i else r)
  }

  lemma {:induction false} LandingsAfterInsert(s: seq<Change>)
    requires s != [] && s[|s| - 1].tag.Insert?
    ensures Landings(s) == Landings(s[..|s| - 1])
  {
    hide Landing, OldText, NewText, Kept, Runs;
    AddedInsert(s);
    forall x | 0 <= x < |OldText(s)| ensures Landing(s, x) == Landing(s[..|s| - 1], x) {
      LandingStable(s, x);
    }
  }

  lemma {:induction false} LandingAfterOld(s: seq<Change>, x: nat)
    requires s != [] && !s[|s| - 1].tag.Insert? && x < |OldText(s)|
    ensures var p, c := s[..|s| - 1], s[|s| - 1];
            && |OldText(s)| == |OldText(p)| + |c.value|
            && Landing(s, x) == if x < |OldText(p)| then Landing(p, x) else Ramp(|NewText(p)|, |c.value|, c.tag.Equal?)[x - |OldText(p)|]
  {
    AddedOld(s);
    hide Landing;
    if x < |OldText(s[..|s| - 1])| { LandingStable(s, x); } else { LandingInside(s, x); }
  }

  lemma {:induction false} LandingsAfterOld(s: seq<Change>)
    requires s != [] && !s[|s| - 1].tag.Insert?
    ensures var p, c := s[..|s| - 1], s[|s| - 1];
            Landings(s) == Landings(p) + Ramp(|NewText(p)|, |c.value|, c.tag.Equal?)
  {
    var p, c := s[..|s| - 1], s[|s| - 1];
    AddedOld(s);
    hide Landing, Ramp, OldText, NewText;
    forall x | 0 <= x < |OldText(s)|
      ensures Landing(s, x) == if x < |OldText(p)| then Landing(p, x) else Ramp(|NewText(p)|, |c.value|, c.tag.Equal?)[x - |OldText(p)|]
    {
      LandingAfterOld(s, x);
    }
  }

  lemma {:induction false} LandingsGrow(s: seq<Change>)
    requires s != []
    ensures var p, c := s[..|s| - 1], s[|s| - 1];
            Landings(s) == Landings(p) + if c.tag.Insert? then [] else Ramp(|NewText(p)|, |c.value|, c.tag.Equal?)
  {
    hide Landings, Ramp, OldText, NewText;
    if s[|s| - 1].tag.Insert? { LandingsAfterInsert(s); } else { LandingsAfterOld(s); }
  }

  /** One change's worth of map entries. */
  method MapRun(aToR: array<nat>, present: array<bool>, aIdx: nat, rIdx: nat, count: nat, equal: bool)
    requires aIdx + count <= present.Length < aToR.Length
    modifies aToR, present
    ensures aToR[..aIdx + count] == old(aToR[..aIdx]) + Ramp(rIdx, count, equal)
    ensures present[..aIdx + count] == old(present[..aIdx]) + Const(count, equal)
  {
    for n := 0 to count
      invariant aToR[..aIdx + n] == old(aToR[..aIdx]) + Ramp(rIdx, n, equal)
      invariant present[..aIdx + n] == old(present[..aIdx]) + Const(n, equal)
    {
      aToR[aIdx + n] := if equal then rIdx + n else rIdx;
      present[aIdx + n] := equal;
    }
  }

  /** One change read into the map, with both cursors moved. */
  method MapChange(c: Change, aToR: array<nat>, present: array<bool>, aIdx: nat, rIdx: nat) returns (a: nat, r: nat)
    requires aIdx + (if c.tag.Insert? then 0 else |c.value|) <= present.Length < aToR.Length
    modifies aToR, present
    ensures a == aIdx + (if c.tag.Insert? then 0 else |c.value|) && r == rIdx + if c.tag.Delete? then 0 else |c.value|
    ensures aToR[..a] == old(aToR[..aIdx]) + if c.tag.Insert? then [] else Ramp(rIdx, |c.value|, c.tag.Equal?)
    ensures present[..a] == old(present[..aIdx]) + if c.tag.Insert? then [] else Const(|c.value|, c.tag.Equal?)
  {
    hide Ramp;
    a, r := aIdx, rIdx;
    match c.tag {
      case Equal =>
        MapRun(aToR, present, aIdx, rIdx, |c.value|, true);
        a, r := aIdx + |c.value|, rIdx + |c.value|;
      case Delete =>
        MapRun(aToR, present, aIdx, rIdx, |c.value|, false);
        a := aIdx + |c.value|;
      case Insert =>
        r := rIdx + |c.value|;
    }
  }

  lemma {:induction false} MapStep(s: seq<Change>, i: nat)
    requires i < |s|
    ensures var p, q, c := s[..i], s[..i + 1], s[i];
            && Landings(q) == Landings(p) + (if c.tag.Insert? then [] else Ramp(|NewText(p)|, |c.value|, c.tag.Equal?))
            && Kept(q) == Kept(p) + (if c.tag.Insert? then [] else Const(|c.value|, c.tag.Equal?))
            && |OldText(q)| == |OldText(p)| + (if c.tag.Insert? then 0 else |c.value|)
            && |NewText(q)| == |NewText(p)| + (if c.tag.Delete? then 0 else |c.value|)
            && |OldText(q)| <= |OldText(s)|
  {
    OneMore(s, i);
    OldGrows(s, i + 1);
    LandingsGrow(s[..i + 1]);
  }

  /** Ancestor-to-remote positions and presence flags, read off the remote script. */
  method PositionMap(a: string, script: seq<Change>) returns (aToR: seq<nat>, present: seq<bool>)
    requires OldText(script) == a
    ensures aToR == Landings(script) + [|NewText(script)|]
    ensures present == Kept(script)
  {
    assert script[..0] == [] && Landings(script[..0]) == [] && Kept(script[..0]) == [];
    assert OldText(script[..0]) == "" && NewText(script[..0]) == "";
    hide Landings, Kept, Ramp, OldText, NewText;
    var positions := new nat[|a| + 1](_ => 0);
    var flags := new bool[|a|](_ => false);
    var aIdx, rIdx := 0, 0;
    for i := 0 to |script|
      invariant aIdx == |OldText(script[..i])| <= |a| && rIdx == |NewText(script[..i])|
      invariant positions[..aIdx] == Landings(script[..i]) && flags[..aIdx] == Kept(script[..i])
    {
      MapStep(script, i);
      aIdx, rIdx := MapChange(script[i], positions, flags, aIdx, rIdx);
    }
    assert script[..|script|] == script;
    positions[aIdx] := rIdx;
    return positions[..], flags[..];
  }

  /** The last boundary lands at the end of the new text. */
  lemma {:induction false} MapLands(s: seq<Change>, i: nat)
    requires i <= |OldText(s)|
    ensures (Landings(s) + [|NewText(s)|])[i] == Landing(s, i)
  {
    ScriptWeaves(s);
  }

  lemma {:induction false} OldGrows(s: seq<Change>, i: nat)
    requires i <= |s|
    ensures |OldText(s[..i])| <= |OldText(s)|
    decreases |s| - i
  {
    if i < |s| {
      OneMore(s, i);
      OldGrows(s, i + 1);
    } else {
      assert s[..i] == s;
    }
  }

  // ---------------------------------------------------------------- the merge

  ghost function Both(k: seq<bool>, k': seq<bool>): (r: seq<bool>)
    requires |k| == |k'|
    ensures |r| == |k|
  {
    seq(|k|, i requires 0 <= i < |k| => k[i] && k'[i])
  }

  ghost function Stacked(r: seq<string>, r': seq<string>): (t: seq<string>)
    requires |r| == |r'|
    ensures |t| == |r|
  {
    seq(|r|, i requires 0 <= i < |r| => r[i] + r'[i])
  }

  /** The interleaving of a local and a remote script over one ancestor. */
  ghost function Merged(local: seq<Change>, remote: seq<Change>): string
    requires OldText(local) == OldText(remote)
  {
    Woven(OldText(remote), Both(Kept(remote), Kept(local)), Stacked(Runs(remote), Runs(local)))
  }

  /** What is left of the ancestor once `edits` are applied to the remote text. */
  ghost function KeptUnder(edits: seq<LocalEdit>, remote: seq<Change>): (k: seq<bool>)
    ensures |k| == |OldText(remote)|
  {
    seq(|OldText(remote)|, i requires 0 <= i < |OldText(remote)| => Kept(remote)[i] && !Deletes(edits, i))
  }

  ghost function RunsUnder(edits: seq<LocalEdit>, remote: seq<Change>): (r: seq<string>)
    ensures |r| == |OldText(remote)| + 1
  {
    seq(|OldText(remote)| + 1, i requires 0 <= i <= |OldText(remote)| => Runs(remote)[i] + Inserted(edits, i))
  }

  /** The remote text with `edits` applied. */
  ghost function Spliced(edits: seq<LocalEdit>, remote: seq<Change>): string {
    Woven(OldText(remote), KeptUnder(edits, remote), RunsUnder(edits, remote))
  }

  lemma {:induction false} SplicedNone(remote: seq<Change>)
    ensures Spliced([], remote) == NewText(remote)
  {
    forall i | 0 <= i <= |OldText(remote)| ensures RunsUnder([], remote)[i] == Runs(remote)[i] {}
    assert KeptUnder([], remote) == Kept(remote);
    assert RunsUnder([], remote) == Runs(remote);
    ScriptWeaves(remote);
  }

  ghost predicate AllBefore(edits: seq<LocalEdit>, p: nat) {
    forall j :: 0 <= j < |edits| ==> edits[j].Lo() <= edits[j].Hi() <= p
  }

  /** Edits all listed before boundary `p` leave everything past it as the remote
      text has it, so the mapped position plus the running shift is exact. */
  lemma {:induction false} ShiftIsExact(edits: seq<LocalEdit>, remote: seq<Change>, p: nat)
    requires AllBefore(edits, p) && p <= |OldText(remote)|
    ensures |Weave(OldText(remote), KeptUnder(edits, remote), RunsUnder(edits, remote), p)|
         == Landing(remote, p) + (|Spliced(edits, remote)| - |NewText(remote)|)
  {
    var a, k, r := OldText(remote), KeptUnder(edits, remote), RunsUnder(edits, remote);
    forall i | p <= i < |a| ensures k[i] == Kept(remote)[i] {}
    forall i | p < i <= |a| ensures r[i] == Runs(remote)[i] { NothingOutside(edits, 0, p, i); }
    WeaveTailLength(a, k, r, Kept(remote), Runs(remote), p, |a|);
    ScriptWeaves(remote);
  }

  lemma {:induction false} RunGrowsAt(edits: seq<LocalEdit>, e: LocalEdit, remote: seq<Change>)
    requires e.InsertAt? && e.aPos <= |OldText(remote)|
    ensures KeptUnder(edits + [e], remote) == KeptUnder(edits, remote)
    ensures var r := RunsUnder(edits, remote); RunsUnder(edits + [e], remote) == r[e.aPos := r[e.aPos] + e.s]
  {
    var r := RunsUnder(edits, remote);
    forall i | 0 <= i <= |OldText(remote)|
      ensures i < |OldText(remote)| ==> KeptUnder(edits + [e], remote)[i] == KeptUnder(edits, remote)[i]
      ensures RunsUnder(edits + [e], remote)[i] == r[e.aPos := r[e.aPos] + e.s][i]
    {
      Pushed(edits, e, i);
      Regroup(Runs(remote)[i], Inserted(edits, i), e.s);
    }
  }

  /** A local insert, spliced at its shifted position. */
  lemma {:induction false} InsertLands(edits: seq<LocalEdit>, e: LocalEdit, remote: seq<Change>)
    requires e.InsertAt? && e.aPos <= |OldText(remote)| && AllBefore(edits, e.aPos)
    ensures var w := Spliced(edits, remote);
            var rPos := Landing(remote, e.aPos) + (|w| - |NewText(remote)|);
            0 <= rPos <= |w| && Spliced(edits + [e], remote) == w[..rPos] + e.s + w[rPos..]
  {
    ShiftIsExact(edits, remote, e.aPos);
    WeaveInsertsAt(OldText(remote), KeptUnder(edits, remote), RunsUnder(edits, remote), e.aPos, e.s, |OldText(remote)|);
    RunGrowsAt(edits, e, remote);
  }

  /** Growing a delete by one character changes only whether that one is kept. */
  lemma {:induction false} RangeGrows(edits: seq<LocalEdit>, start: nat, x: nat, remote: seq<Change>)
    requires start <= x < |OldText(remote)|
    ensures var now, next := edits + [DeleteRange(start, x)], edits + [DeleteRange(start, x + 1)];
            KeptUnder(next, remote) == KeptUnder(now, remote)[x := false] && RunsUnder(next, remote) == RunsUnder(now, remote)
  {
    var now, next := edits + [DeleteRange(start, x)], edits + [DeleteRange(start, x + 1)];
    forall i | 0 <= i <= |OldText(remote)|
      ensures i < |OldText(remote)| ==> KeptUnder(next, remote)[i] == KeptUnder(now, remote)[x := false][i]
      ensures RunsUnder(next, remote)[i] == RunsUnder(now, remote)[i]
    {
      Pushed(edits, DeleteRange(start, x), i);
      Pushed(edits, DeleteRange(start, x + 1), i);
    }
  }

  lemma {:induction false} RangeStarts(edits: seq<LocalEdit>, p: nat, remote: seq<Change>)
    ensures Spliced(edits + [DeleteRange(p, p)], remote) == Spliced(edits, remote)
  {
    var now := edits + [DeleteRange(p, p)];
    forall i | 0 <= i <= |OldText(remote)|
      ensures i < |OldText(remote)| ==> KeptUnder(now, remote)[i] == KeptUnder(edits, remote)[i]
      ensures RunsUnder(now, remote)[i] == RunsUnder(edits, remote)[i]
    {
      Pushed(edits, DeleteRange(p, p), i);
    }
    assert KeptUnder(now, remote) == KeptUnder(edits, remote);
    assert RunsUnder(now, remote) == RunsUnder(edits, remote);
  }

  /** One character of a local delete, removed at its shifted position unless the
      remote already dropped it. */
  lemma {:induction false} DeleteLands(edits: seq<LocalEdit>, start: nat, x: nat, remote: seq<Change>)
    requires start <= x < |OldText(remote)| && AllBefore(edits, start)
    ensures var w, next := Spliced(edits + [DeleteRange(start, x)], remote), Spliced(edits + [DeleteRange(start, x + 1)], remote);
            if Kept(remote)[x] then
              var rPos := (Landings(remote) + [|NewText(remote)|])[x] + (|w| - |NewText(remote)|);
              0 <= rPos < |w| && next == w[..rPos] + w[rPos + 1..]
            else next == w
  {
    var now := edits + [DeleteRange(start, x)];
    var a, k, r := OldText(remote), KeptUnder(now, remote), RunsUnder(now, remote);
    RangeGrows(edits, start, x, remote);
    assert AllBefore(now, x) && !Deletes(now, x);
    if Kept(remote)[x] {
      ShiftIsExact(now, remote, x);
      MapLands(remote, x);
      WeaveDropsAt(a, k, r, x, |a|);
    } else {
      assert k[x := false] == k;
    }
  }

  /** Remove the characters of one local delete that the remote still has. */
  method SpliceOutRange(start: nat, end: nat, aToR: seq<nat>, present: seq<bool>, chars0: string, shift0: int,
                        ghost edits: seq<LocalEdit>, ghost remote: seq<Change>)
    returns (chars: string, shift: int)
    requires start <= end <= |OldText(remote)| && AllBefore(edits, start)
    requires aToR == Landings(remote) + [|NewText(remote)|] && present == Kept(remote)
    requires chars0 == Spliced(edits, remote) && shift0 == |chars0| - |NewText(remote)|
    ensures chars == Spliced(edits + [DeleteRange(start, end)], remote) && shift == |chars| - |NewText(remote)|
  {
    hide Spliced;
    hide AllBefore;
    hide OldText;
    hide NewText;
    chars, shift := chars0, shift0;
    RangeStarts(edits, start, remote);
    for x := start to end
      invariant chars == Spliced(edits + [DeleteRange(start, x)], remote) && shift == |chars| - |NewText(remote)|
    {
      DeleteLands(edits, start, x, remote);
      if present[x] {
        var rPos := aToR[x] + shift;
        chars := chars[..rPos] + chars[rPos + 1..];
        shift := shift - 1;
      }
    }
  }

  /** What the next local edit needs, and where an insert goes. */
  lemma {:induction false} NextEdit(edits: seq<LocalEdit>, j: nat, remote: seq<Change>)
    requires j < |edits| && Ordered(edits, |OldText(remote)|)
    ensures edits[..j + 1] == edits[..j] + [edits[j]]
    ensures AllBefore(edits[..j], edits[j].Lo()) && edits[j].Lo() <= edits[j].Hi() <= |OldText(remote)|
    ensures edits[j].InsertAt? ==>
              var w := Spliced(edits[..j], remote);
              var rPos := (Landings(remote) + [|NewText(remote)|])[edits[j].aPos] + (|w| - |NewText(remote)|);
              0 <= rPos <= |w| && Spliced(edits[..j + 1], remote) == w[..rPos] + edits[j].s + w[rPos..]
  {
    assert edits[..j + 1] == edits[..j] + [edits[j]];
    if edits[j].InsertAt? {
      InsertLands(edits[..j], edits[j], remote);
      MapLands(remote, edits[j].aPos);
    }
  }

  /** One pass over the local edits, splicing the remote text in place. */
  method SpliceEdits(edits: seq<LocalEdit>, r: string, aToR: seq<nat>, present: seq<bool>, ghost remote: seq<Change>)
    returns (chars: string)
    requires NewText(remote) == r && Ordered(edits, |OldText(remote)|)
    requires aToR == Landings(remote) + [|NewText(remote)|] && present == Kept(remote)
    ensures chars == Spliced(edits, remote)
  {
    chars := r;
    var shift: int := 0;
    SplicedNone(remote);
    for j := 0 to |edits|
      invariant chars == Spliced(edits[..j], remote) && shift == |chars| - |r|
    {
      NextEdit(edits, j, remote);
      match edits[j] {
        case InsertAt(aPos, s) =>
          var rPos := aToR[aPos] + shift;
          chars := chars[..rPos] + s + chars[rPos..];
          shift := shift + |s|;
        case DeleteRange(start, end) =>
          chars, shift := SpliceOutRange(start, end, aToR, present, chars, shift, edits[..j], remote);
      }
    }
    assert edits[..|edits|] == edits;
  }

  /** Rebase the local delta onto the remote text. `local` and `remote` are the
      scripts `A -> L` and `A -> R`. */
  method MergeLocalOntoRemote(a: string, r: string, local: seq<Change>, remote: seq<Change>)
    returns (merged: string, conflicts: seq<Conflict>)
    requires WellFormed(local) && WellFormed(remote)
    requires OldText(local) == OldText(remote) == a && NewText(remote) == r
    ensures merged == Merged(local, remote)
    ensures ExactConflicts(local, remote, conflicts)
  {
    var localEdits := LocalEdits(local);
    var remoteEdits := LocalEdits(remote);
    conflicts := DetectConflicts(a, localEdits, remoteEdits);
    ConflictsAreExact(local, remote, localEdits, remoteEdits, conflicts);
    var aToR, present := PositionMap(a, remote);
    merged := SpliceEdits(localEdits, r, aToR, present, remote);
    assert KeptUnder(localEdits, remote) == Both(Kept(remote), Kept(local));
    assert RunsUnder(localEdits, remote) == Stacked(Runs(remote), Runs(local));
  }
}
