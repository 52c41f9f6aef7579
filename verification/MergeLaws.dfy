/** Laws of the three-way merge, for every pair of scripts over one ancestor. */
module MergeLaws {
  import opened ChangeScript
  import opened Rebase

  /** With an unedited remote the merge is the local text. */
  lemma {:induction false} MergeOntoUneditedRemote(local: seq<Change>, remote: seq<Change>)
    requires OldText(local) == OldText(remote) && AllEqual(remote)
    ensures Merged(local, remote) == NewText(local)
  {
    AllEqualKeepsAll(remote);
    ScriptWeaves(local);
    assert Both(Kept(remote), Kept(local)) == Kept(local);
    forall i | 0 <= i <= |OldText(remote)| ensures Stacked(Runs(remote), Runs(local))[i] == Runs(local)[i] {}
    assert Stacked(Runs(remote), Runs(local)) == Runs(local);
  }

  /** With no local edit the merge is the remote text. */
  lemma {:induction false} MergeOfUneditedLocal(local: seq<Change>, remote: seq<Change>)
    requires OldText(local) == OldText(remote) && AllEqual(local)
    ensures Merged(local, remote) == NewText(remote)
  {
    AllEqualKeepsAll(local);
    ScriptWeaves(remote);
    assert Both(Kept(remote), Kept(local)) == Kept(remote);
    forall i | 0 <= i <= |OldText(remote)| ensures Stacked(Runs(remote), Runs(local))[i] == Runs(remote)[i] {}
    assert Stacked(Runs(remote), Runs(local)) == Runs(remote);
  }

  /** Two weaves that keep the same characters and whose runs have equal lengths
      are equal exactly when their runs are. */
  lemma {:induction false} SameLengthRuns(a: string, k: seq<bool>, r: seq<string>, r': seq<string>, m: nat)
    requires Shaped(a, k, r) && Shaped(a, k, r') && m <= |a|
    requires forall i :: 0 <= i <= |a| ==> |r[i]| == |r'[i]|
    ensures |Weave(a, k, r, m)| == |Weave(a, k, r', m)|
    ensures Weave(a, k, r, m) == Weave(a, k, r', m) <==> forall i :: 0 <= i <= m ==> r[i] == r'[i]
  {
    if m > 0 {
      SameLengthRuns(a, k, r, r', m - 1);
      ThreadSplits(Weave(a, k, r, m - 1), Thread(a, k, r, m), Weave(a, k, r', m - 1), Thread(a, k, r', m));
      var c := if k[m - 1] then [a[m - 1]] else "";
      ThreadSplits(c, r[m], c, r'[m]);
    }
  }

  lemma ThreadSplits(x: string, y: string, x': string, y': string)
    requires |x| == |x'|
    ensures x + y == x' + y' <==> x == x' && y == y'
  {
    if x + y == x' + y' {
      assert x == (x + y)[..|x|] == x';
      assert y == (x + y)[|x|..] == y';
    }
  }

  ghost predicate RunsCommute(s: seq<Change>, t: seq<Change>)
    requires OldText(s) == OldText(t)
  {
    forall i :: 0 <= i <= |OldText(s)| ==> Runs(s)[i] + Runs(t)[i] == Runs(t)[i] + Runs(s)[i]
  }

  /** Swapping the roles of the two sides gives the same text exactly when their
      insertions commute at every boundary. */
  lemma {:induction false} MergeIsSymmetricIff(s: seq<Change>, t: seq<Change>)
    requires OldText(s) == OldText(t)
    ensures Merged(s, t) == Merged(t, s) <==> RunsCommute(s, t)
  {
    var a := OldText(s);
    var r, r' := Stacked(Runs(t), Runs(s)), Stacked(Runs(s), Runs(t));
    assert Both(Kept(t), Kept(s)) == Both(Kept(s), Kept(t));
    SameLengthRuns(a, Both(Kept(t), Kept(s)), r, r', |a|);
    if RunsCommute(s, t) {
      forall i | 0 <= i <= |a| ensures r[i] == r'[i] { assert Runs(s)[i] + Runs(t)[i] == Runs(t)[i] + Runs(s)[i]; }
    } else {
      var i :| 0 <= i <= |a| && Runs(s)[i] + Runs(t)[i] != Runs(t)[i] + Runs(s)[i];
      assert r[i] != r'[i];
    }
  }

  /** In particular when no boundary has insertions from both sides. */
  lemma MergeIsSymmetric(s: seq<Change>, t: seq<Change>)
    requires OldText(s) == OldText(t)
    requires forall i :: 0 <= i <= |OldText(s)| ==> Runs(s)[i] == "" || Runs(t)[i] == ""
    ensures Merged(s, t) == Merged(t, s)
  {
    forall i | 0 <= i <= |OldText(s)| ensures Runs(s)[i] + Runs(t)[i] == Runs(t)[i] + Runs(s)[i] {
      assert Runs(s)[i] == "" || Runs(t)[i] == "";
    }
    MergeIsSymmetricIff(s, t);
  }

  /** Where both sides wrote into nothing, the remote text comes first. */
  lemma MergeOfInserts(local: seq<Change>, remote: seq<Change>)
    requires OldText(local) == OldText(remote) == ""
    ensures Merged(local, remote) == NewText(remote) + NewText(local)
  {
    ScriptWeaves(local);
    ScriptWeaves(remote);
    hide OldText, NewText, Kept, Runs;
  }

  /** The ancestor characters, up to boundary `i`, that both sides drop. */
  ghost function BothDrop(a: string, k: seq<bool>, k': seq<bool>, i: nat): string
    requires i <= |a| == |k| == |k'|
  {
    if i == 0 then "" else BothDrop(a, k, k', i - 1) + Dropped(a, k, k', i)
  }

  ghost function Dropped(a: string, k: seq<bool>, k': seq<bool>, i: nat): string
    requires 0 < i <= |a| == |k| == |k'|
  {
    if k[i - 1] || k'[i - 1] then "" else [a[i - 1]]
  }

  ghost predicate Balanced(x: string, a: string, y: string, z: string, d: string) {
    multiset(x) + multiset(a) == multiset(y) + multiset(z) + multiset(d)
  }

  lemma BalancesAdd(x: string, a: string, y: string, z: string, d: string,
                    x': string, a': string, y': string, z': string, d': string)
    requires Balanced(x, a, y, z, d) && Balanced(x', a', y', z', d')
    ensures Balanced(x + x', a + a', y + y', z + z', d + d')
  {
    assert multiset(x + x') + multiset(a + a') == (multiset(x) + multiset(a)) + (multiset(x') + multiset(a'));
  }

  lemma BalancedRuns(x: string, y: string)
    ensures Balanced(x + y, "", x, y, "")
  {}

  /** One ancestor character, kept or not by either side. */
  lemma BalancedCharacter(c: char, kept: bool, kept': bool)
    ensures Balanced(if kept && kept' then [c] else "", [c], if kept then [c] else "", if kept' then [c] else "", if kept || kept' then "" else [c])
  {}

  lemma ThreadConserves(a: string, k: seq<bool>, r: seq<string>, k': seq<bool>, r': seq<string>, i: nat)
    requires Shaped(a, k, r) && Shaped(a, k', r') && 0 < i <= |a|
    ensures Balanced(Thread(a, Both(k, k'), Stacked(r, r'), i), [a[i - 1]], Thread(a, k, r, i), Thread(a, k', r', i), Dropped(a, k, k', i))
  {
    hide Balanced;
    BalancedCharacter(a[i - 1], k[i - 1], k'[i - 1]);
    BalancedRuns(r[i], r'[i]);
    BalancesAdd(if k[i - 1] && k'[i - 1] then [a[i - 1]] else "", [a[i - 1]], if k[i - 1] then [a[i - 1]] else "",
                if k'[i - 1] then [a[i - 1]] else "", Dropped(a, k, k', i), r[i] + r'[i], "", r[i], r'[i], "");
    assert [a[i - 1]] + "" == [a[i - 1]] && Dropped(a, k, k', i) + "" == Dropped(a, k, k', i);
  }

  lemma {:induction false} WeavesConserve(a: string, k: seq<bool>, r: seq<string>, k': seq<bool>, r': seq<string>, i: nat)
    requires Shaped(a, k, r) && Shaped(a, k', r') && i <= |a|
    ensures Balanced(Weave(a, Both(k, k'), Stacked(r, r'), i), a[..i], Weave(a, k, r, i), Weave(a, k', r', i), BothDrop(a, k, k', i))
  {
    hide Balanced, Thread, Dropped, Both;
    if i == 0 {
      BalancedRuns(r[0], r'[0]);
    } else {
      hide Stacked;
      WeavesConserve(a, k, r, k', r', i - 1);
      ThreadConserves(a, k, r, k', r', i);
      assert a[..i] == a[..i - 1] + [a[i - 1]];
      BalancesAdd(Weave(a, Both(k, k'), Stacked(r, r'), i - 1), a[..i - 1], Weave(a, k, r, i - 1), Weave(a, k', r', i - 1), BothDrop(a, k, k', i - 1),
                  Thread(a, Both(k, k'), Stacked(r, r'), i), [a[i - 1]], Thread(a, k, r, i), Thread(a, k', r', i), Dropped(a, k, k', i));
    }
  }

  /** Conservation: counting characters with multiplicity, the merge and the
      ancestor together hold exactly what the two edited texts hold, plus the
      characters both sides dropped. Nothing else is lost or invented. */
  lemma {:induction false} MergeConserves(local: seq<Change>, remote: seq<Change>)
    requires OldText(local) == OldText(remote)
    ensures multiset(Merged(local, remote)) + multiset(OldText(local))
         == multiset(NewText(remote)) + multiset(NewText(local))
          + multiset(BothDrop(OldText(local), Kept(remote), Kept(local), |OldText(local)|))
  {
    hide Kept;
    hide Runs;
    hide OldText;
    hide NewText;
    hide BothDrop;
    var a := OldText(local);
    ScriptWeaves(local);
    ScriptWeaves(remote);
    WeavesConserve(a, Kept(remote), Runs(remote), Kept(local), Runs(local), |a|);
    assert a[..|a|] == a;
  }
}
