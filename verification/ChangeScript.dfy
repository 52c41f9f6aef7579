/** Change scripts: what a text differ hands back, and the text they weave.

    A script is a list of `Equal`/`Delete`/`Insert` changes. Its reading as a
    relation between an ancestor and an edited text does not depend on which
    differ produced it, so everything built on scripts holds for every differ.
 */
module ChangeScript {

  datatype Tag = Equal | Delete | Insert

  /** One change. The differ tokenises by character, but no reader of a script
      relies on that: a value may be any non-empty text. */
  datatype Change = Change(tag: Tag, value: string)

  ghost predicate WellFormed(s: seq<Change>) {
    forall i :: 0 <= i < |s| ==> s[i].value != ""
  }

  /** The text a script starts from. */
  ghost function OldText(s: seq<Change>): string {
    if s == [] then "" else
      var c := s[|s| - 1];
      OldText(s[..|s| - 1]) + if c.tag.Insert? then "" else c.value
  }

  /** The text a script ends at. */
  ghost function NewText(s: seq<Change>): string {
    if s == [] then "" else
      var c := s[|s| - 1];
      NewText(s[..|s| - 1]) + if c.tag.Delete? then "" else c.value
  }

  ghost predicate IsScript(s: seq<Change>, old_: string, new_: string) {
    WellFormed(s) && OldText(s) == old_ && NewText(s) == new_
  }

  ghost predicate AllEqual(s: seq<Change>) {
    forall i :: 0 <= i < |s| ==> s[i].tag.Equal?
  }

  /** A differ: any function from text pairs to scripts between them that
      reports no edit between equal texts. */
  type Differ = f: (string, string) -> seq<Change>
    | forall a, b :: Explains(f(a, b), a, b)
    ghost witness ReplaceDiffer

  ghost predicate Explains(s: seq<Change>, a: string, b: string) {
    IsScript(s, a, b) && (a == b ==> AllEqual(s))
  }

  /** The smallest differ: one `Delete` and one `Insert`, unless the texts agree. */
  function ReplaceDiffer(a: string, b: string): (s: seq<Change>)
    ensures Explains(s, a, b)
  {
    var drop, add := Change(Delete, a), Change(Insert, b);
    assert OldText([drop, add]) == a && NewText([drop, add]) == b by { OfTwo(drop, add); }
    if a == b then (if a == "" then [] else [Change(Equal, a)])
    else if a == "" then [add]
    else if b == "" then [drop]
    else [drop, add]
  }

  lemma OfOne(c: Change)
    ensures OldText([c]) == if c.tag.Insert? then "" else c.value
    ensures NewText([c]) == if c.tag.Delete? then "" else c.value
  {
    assert [c][..0] == [];
  }

  lemma OfTwo(c: Change, d: Change)
    ensures OldText([c, d]) == OldText([c]) + OldText([d]) && NewText([c, d]) == NewText([c]) + NewText([d])
    ensures OldText([c]) == (if c.tag.Insert? then "" else c.value) && NewText([c]) == if c.tag.Delete? then "" else c.value
    ensures OldText([d]) == (if d.tag.Insert? then "" else d.value) && NewText([d]) == if d.tag.Delete? then "" else d.value
  {
    assert [c, d][..1] == [c];
    OfOne(c);
    OfOne(d);
  }

  function Const<T>(n: nat, x: T): (r: seq<T>)
    ensures |r| == n && forall i :: 0 <= i < n ==> r[i] == x
  {
    seq(n, _ => x)
  }

  /** For each ancestor character, whether the script keeps it. */
  ghost function Kept(s: seq<Change>): (k: seq<bool>)
    ensures |k| == |OldText(s)|
  {
    if s == [] then [] else
      var c := s[|s| - 1];
      Kept(s[..|s| - 1]) + if c.tag.Insert? then [] else Const(|c.value|, c.tag.Equal?)
  }

  /** For each ancestor boundary, the text the script inserts there. */
  ghost function Runs(s: seq<Change>): (r: seq<string>)
    ensures |r| == |OldText(s)| + 1
  {
    if s == [] then [""] else
      var c := s[|s| - 1];
      var r := Runs(s[..|s| - 1]);
      if c.tag.Insert? then r[|r| - 1 := r[|r| - 1] + c.value] else r + Const(|c.value|, "")
  }

  /** The ancestor's prefix up to boundary `i`, with the characters in `kept`
      kept and the texts in `runs` inserted at their boundaries. */
  ghost function Weave(a: string, kept: seq<bool>, runs: seq<string>, i: nat): string
    requires i <= |a| == |kept| && |runs| == |a| + 1
  {
    if i == 0 then runs[0] else Weave(a, kept, runs, i - 1) + Thread(a, kept, runs, i)
  }

  /** What boundary `i` adds: the character before it, if kept, and its run. */
  ghost function Thread(a: string, kept: seq<bool>, runs: seq<string>, i: nat): string
    requires 0 < i <= |a| == |kept| && |runs| == |a| + 1
  {
    (if kept[i - 1] then [a[i - 1]] else "") + runs[i]
  }

  ghost predicate Shaped(a: string, kept: seq<bool>, runs: seq<string>) {
    |kept| == |a| && |runs| == |a| + 1
  }

  /** The whole weave. */
  ghost function Woven(a: string, kept: seq<bool>, runs: seq<string>): string
    requires Shaped(a, kept, runs)
  {
    Weave(a, kept, runs, |a|)
  }

  lemma {:induction false} WeaveAgrees(a: string, k: seq<bool>, r: seq<string>,
                                       a': string, k': seq<bool>, r': seq<string>, i: nat)
    requires Shaped(a, k, r) && Shaped(a', k', r')
    requires i <= |a| && i <= |a'|
    requires a[..i] == a'[..i] && k[..i] == k'[..i] && r[..i + 1] == r'[..i + 1]
    ensures Weave(a, k, r, i) == Weave(a', k', r', i)
  {
    assert r[i] == r[..i + 1][i] == r'[..i + 1][i] == r'[i];
    if i > 0 {
      assert a[i - 1] == a[..i][i - 1] == a'[..i][i - 1] == a'[i - 1];
      assert k[i - 1] == k[..i][i - 1] == k'[..i][i - 1] == k'[i - 1];
      assert a[..i - 1] == a[..i][..i - 1] == a'[..i][..i - 1] == a'[..i - 1];
      assert k[..i - 1] == k[..i][..i - 1] == k'[..i][..i - 1] == k'[..i - 1];
      assert r[..i] == r[..i + 1][..i] == r'[..i + 1][..i] == r'[..i];
      WeaveAgrees(a, k, r, a', k', r', i - 1);
    }
  }

  lemma {:induction false} WeaveExtends(a: string, k: seq<bool>, r: seq<string>, v: string, keep: bool, j: nat)
    requires Shaped(a, k, r) && j <= |v|
    ensures Weave(a + v, k + Const(|v|, keep), r + Const(|v|, ""), |a| + j)
         == Woven(a, k, r) + if keep then v[..j] else ""
  {
    var a', k', r' := a + v, k + Const(|v|, keep), r + Const(|v|, "");
    if j == 0 {
      assert a'[..|a|] == a[..|a|] && k'[..|a|] == k[..|a|] && r'[..|a| + 1] == r[..|a| + 1];
      WeaveAgrees(a', k', r', a, k, r, |a|);
    } else {
      WeaveExtends(a, k, r, v, keep, j - 1);
      assert a'[|a| + j - 1] == v[j - 1] && k'[|a| + j - 1] == keep && r'[|a| + j] == "";
      assert v[..j - 1] + [v[j - 1]] == v[..j];
    }
  }

  /** A script's new text is its ancestor woven with what it keeps and inserts. */
  lemma {:induction false} ScriptWeaves(s: seq<Change>)
    ensures NewText(s) == Woven(OldText(s), Kept(s), Runs(s))
  {
    if s != [] {
      var p, c := s[..|s| - 1], s[|s| - 1];
      ScriptWeaves(p);
      var a, k, r := OldText(p), Kept(p), Runs(p);
      if c.tag.Insert? {
        AddedInsert(s);
        WeaveRunLast(a, k, r, Runs(s), |a|, c.value);
      } else {
        AddedOld(s);
        WeaveExtends(a, k, r, c.value, c.tag.Equal?, |c.value|);
        assert c.value[..|c.value|] == c.value;
      }
    }
  }

  lemma {:induction false} AddedInsert(s: seq<Change>)
    requires s != [] && s[|s| - 1].tag.Insert?
    ensures var p, v := s[..|s| - 1], s[|s| - 1].value;
            && OldText(s) == OldText(p) && Kept(s) == Kept(p) && NewText(s) == NewText(p) + v
            && Runs(s) == Runs(p)[|OldText(p)| := Runs(p)[|OldText(p)|] + v]
  {}

  lemma {:induction false} AddedOld(s: seq<Change>)
    requires s != [] && !s[|s| - 1].tag.Insert?
    ensures var p, v, keep := s[..|s| - 1], s[|s| - 1].value, s[|s| - 1].tag.Equal?;
            && OldText(s) == OldText(p) + v && NewText(s) == NewText(p) + (if keep then v else "")
            && Kept(s) == Kept(p) + Const(|v|, keep) && Runs(s) == Runs(p) + Const(|v|, "")
  {}

  lemma SpliceAppend(w: string, t: string, p: nat, q: nat, v: string)
    requires p <= q <= |w|
    ensures (w + t)[..p] + v + (w + t)[q..] == w[..p] + v + w[q..] + t
  {}

  /** Inserting at a boundary splices the woven text at the end of that boundary's run. */
  lemma {:induction false} WeaveInsertsAt(a: string, k: seq<bool>, r: seq<string>, i: nat, v: string, m: nat)
    requires Shaped(a, k, r) && i <= m <= |a|
    ensures |Weave(a, k, r, i)| <= |Weave(a, k, r, m)|
    ensures Weave(a, k, r[i := r[i] + v], m)
         == Weave(a, k, r, m)[..|Weave(a, k, r, i)|] + v + Weave(a, k, r, m)[|Weave(a, k, r, i)|..]
  {
    var r' := r[i := r[i] + v];
    if m == i {
      WeaveRunLast(a, k, r, r', i, v);
    } else {
      var p := |Weave(a, k, r, i)|;
      WeaveInsertsAt(a, k, r, i, v, m - 1);
      assert Thread(a, k, r', m) == Thread(a, k, r, m);
      SpliceAppend(Weave(a, k, r, m - 1), Thread(a, k, r, m), p, p, v);
    }
  }

  lemma {:induction false} WeaveRunLast(a: string, k: seq<bool>, r: seq<string>, r': seq<string>, i: nat, v: string)
    requires Shaped(a, k, r) && Shaped(a, k, r') && i <= |a|
    requires r' == r[i := r[i] + v]
    ensures Weave(a, k, r', i) == Weave(a, k, r, i) + v
  {
    if i > 0 {
      assert r[..i] == r'[..i];
      WeaveAgrees(a, k, r, a, k, r', i - 1);
      assert Thread(a, k, r', i) == Thread(a, k, r, i) + v;
    }
  }

  /** Dropping a kept character removes it from just after its boundary's run. */
  lemma {:induction false} WeaveDropsAt(a: string, k: seq<bool>, r: seq<string>, i: nat, m: nat)
    requires Shaped(a, k, r) && i < m <= |a| && k[i]
    ensures |Weave(a, k, r, i)| < |Weave(a, k, r, m)|
    ensures Weave(a, k[i := false], r, m)
         == Weave(a, k, r, m)[..|Weave(a, k, r, i)|] + Weave(a, k, r, m)[|Weave(a, k, r, i)| + 1..]
  {
    var k', p := k[i := false], |Weave(a, k, r, i)|;
    if m == i + 1 {
      assert k[..i] == k'[..i];
      WeaveAgrees(a, k, r, a, k', r, i);
      assert Thread(a, k, r, m) == [a[i]] + Thread(a, k', r, m);
    } else {
      WeaveDropsAt(a, k, r, i, m - 1);
      assert Thread(a, k', r, m) == Thread(a, k, r, m);
      var w, t := Weave(a, k, r, m - 1), Thread(a, k, r, m);
      SpliceAppend(w, t, p, p + 1, "");
      assert w[..p] + "" + w[p + 1..] == w[..p] + w[p + 1..];
      assert (w + t)[..p] + "" + (w + t)[p + 1..] == (w + t)[..p] + (w + t)[p + 1..];
    }
  }

  /** Past boundary `i`, two weaves that agree on later characters and runs grow alike. */
  lemma {:induction false} WeaveTailLength(a: string, k: seq<bool>, r: seq<string>, k': seq<bool>, r': seq<string>, i: nat, m: nat)
    requires Shaped(a, k, r) && Shaped(a, k', r') && i <= m <= |a|
    requires forall j :: i <= j < |a| ==> k[j] == k'[j]
    requires forall j :: i < j <= |a| ==> r[j] == r'[j]
    ensures |Weave(a, k, r, m)| - |Weave(a, k, r, i)| == |Weave(a, k', r', m)| - |Weave(a, k', r', i)|
  {
    if i < m {
      WeaveTailLength(a, k, r, k', r', i, m - 1);
    }
  }

  lemma {:induction false} AllEqualKeepsAll(s: seq<Change>)
    requires AllEqual(s)
    ensures Kept(s) == Const(|OldText(s)|, true) && Runs(s) == Const(|OldText(s)| + 1, "")
    ensures OldText(s) == NewText(s)
  {
    if s != [] {
      var p, v := s[..|s| - 1], s[|s| - 1].value;
      AllEqualKeepsAll(p);
      AddedOld(s);
    }
  }
}
