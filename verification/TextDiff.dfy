/** Turning a text pair into character-offset operations for sequential use. */
module TextDiff {
  import opened Prelude
  import opened ChangeScript

  /** One edit, at an offset into the text as it stands when the edit is applied. */
  datatype TextOp =
    | InsertOp(pos: nat, s: string)
    | DeleteOp(pos: nat, len: nat)
  {
    /** The offset just after this edit once it is applied. */
    function After(): nat { if InsertOp? then pos + |s| else pos }
    predicate Empty() { if InsertOp? then s == "" else len == 0 }
  }

  /** Apply one operation; `None` when it reaches outside the text. */
  function ApplyOp(text: string, op: TextOp): Option<string> {
    match op
    case InsertOp(pos, s) => if pos <= |text| then Some(text[..pos] + s + text[pos..]) else None
    case DeleteOp(pos, len) => if pos + len <= |text| then Some(text[..pos] + text[pos + len..]) else None
  }

  /** Apply operations left to right, as the storage layer does. */
  function ApplyOps(text: string, ops: seq<TextOp>): Option<string> {
    if ops == [] then Some(text) else
      match ApplyOps(text, ops[..|ops| - 1])
      case None => None
      case Some(t) => ApplyOp(t, ops[|ops| - 1])
  }

  lemma {:induction false} ApplyOneMore(text: string, ops: seq<TextOp>, op: TextOp)
    ensures ApplyOps(text, ops + [op]) ==
              match ApplyOps(text, ops)
              case None => None
              case Some(t) => ApplyOp(t, op)
  {
    assert (ops + [op])[..|ops|] == ops;
  }

  // ---------------------------------------------------------------- the operations of a script

  ghost predicate Joins(d: TextOp, e: TextOp) {
    (d.InsertOp? <==> e.InsertOp?) && d.After() == e.pos
  }

  function Join(d: TextOp, e: TextOp): TextOp {
    if d.InsertOp? && e.InsertOp? then InsertOp(d.pos, d.s + e.s)
    else if d.DeleteOp? && e.DeleteOp? then DeleteOp(d.pos, d.len + e.len)
    else d
  }

  ghost function Push(ops: seq<TextOp>, e: TextOp): seq<TextOp> {
    if ops != [] && Joins(ops[|ops| - 1], e) then ops[..|ops| - 1] + [Join(ops[|ops| - 1], e)] else ops + [e]
  }

  function OpOf(c: Change, cursor: nat): TextOp {
    if c.tag.Insert? then InsertOp(cursor, c.value) else DeleteOp(cursor, |c.value|)
  }

  /** A script's operations, same-kind neighbours joined. */
  ghost function OpsOf(s: seq<Change>): seq<TextOp> {
    if s == [] then [] else
      var p, c := s[..|s| - 1], s[|s| - 1];
      if c.tag.Equal? then OpsOf(p) else Push(OpsOf(p), OpOf(c, |NewText(p)|))
  }

  /** Operations run front to back, none is empty, and no two neighbours of one
      kind touch. */
  ghost predicate Tidy(ops: seq<TextOp>) {
    && (forall j :: 0 <= j < |ops| ==> !ops[j].Empty())
    && (forall j :: 0 < j < |ops| ==> ops[j - 1].After() <= ops[j].pos && !Joins(ops[j - 1], ops[j]))
  }

  lemma {:induction false} ApplyJoined(text: string, d: TextOp, e: TextOp)
    requires Joins(d, e) && ApplyOp(text, d).Some? && ApplyOp(ApplyOp(text, d).value, e).Some?
    ensures ApplyOp(text, Join(d, e)) == ApplyOp(ApplyOp(text, d).value, e)
  {
    var t := ApplyOp(text, d).value;
    if d.InsertOp? {
      assert t[..e.pos] == text[..d.pos] + d.s && t[e.pos..] == text[d.pos..];
      assert text[..d.pos] + d.s + e.s + text[d.pos..] == text[..d.pos] + (d.s + e.s) + text[d.pos..];
    } else {
      assert t[..d.pos] == text[..d.pos] && t[d.pos + e.len..] == text[d.pos + d.len + e.len..];
    }
  }

  lemma {:induction false} ApplyPushed(text: string, ops: seq<TextOp>, e: TextOp)
    requires ApplyOps(text, ops).Some? && ApplyOp(ApplyOps(text, ops).value, e).Some?
    ensures ApplyOps(text, Push(ops, e)) == ApplyOp(ApplyOps(text, ops).value, e)
  {
    if ops != [] && Joins(ops[|ops| - 1], e) {
      var init, d := ops[..|ops| - 1], ops[|ops| - 1];
      ApplyJoined(ApplyOps(text, init).value, d, e);
      ApplyOneMore(text, init, Join(d, e));
    } else {
      ApplyOneMore(text, ops, e);
    }
  }

  lemma OneDelete(x: string, v: string, rest: string)
    ensures ApplyOp(x + (v + rest), DeleteOp(|x|, |v|)) == Some(x + rest)
  {
    var text := x + (v + rest);
    assert text[..|x|] == x && text[|x| + |v|..] == rest;
  }

  lemma OneInsert(x: string, v: string, rest: string)
    ensures ApplyOp(x + rest, InsertOp(|x|, v)) == Some(x + v + rest)
  {
    var text := x + rest;
    assert text[..|x|] == x && text[|x|..] == rest;
  }

  /** Applied left to right, a script's operations stay in bounds and turn the
      old text into the new one, whatever text follows. */
  lemma {:induction false} OpsTransform(s: seq<Change>, rest: string)
    ensures ApplyOps(OldText(s) + rest, OpsOf(s)) == Some(NewText(s) + rest)
  {
    if s != [] {
      var p, c := s[..|s| - 1], s[|s| - 1];
      var x, v := NewText(p), c.value;
      match c.tag {
        case Equal =>
          AddedOld(s);
          OpsTransform(p, v + rest);
          Regroup(OldText(p), v, rest);
          Regroup(x, v, rest);
        case Delete =>
          AddedOld(s);
          OpsTransform(p, v + rest);
          Regroup(OldText(p), v, rest);
          OneDelete(x, v, rest);
          ApplyPushed(OldText(s) + rest, OpsOf(p), OpOf(c, |x|));
          assert x + "" == x;
        case Insert =>
          AddedInsert(s);
          OpsTransform(p, rest);
          OneInsert(x, v, rest);
          ApplyPushed(OldText(s) + rest, OpsOf(p), OpOf(c, |x|));
      }
    }
  }

  lemma {:induction false} OpsAreTidy(s: seq<Change>)
    requires WellFormed(s)
    ensures Tidy(OpsOf(s))
    ensures OpsOf(s) != [] ==> OpsOf(s)[|OpsOf(s)| - 1].After() <= |NewText(s)|
    ensures OpsOf(s) == [] <==> AllEqual(s)
  {
    if s != [] {
      var p, c := s[..|s| - 1], s[|s| - 1];
      OpsAreTidy(p);
      if !c.tag.Equal? {
        PushIsTidy(OpsOf(p), OpOf(c, |NewText(p)|));
      }
    }
  }

  lemma PushIsTidy(ops: seq<TextOp>, e: TextOp)
    requires Tidy(ops) && !e.Empty() && (ops != [] ==> ops[|ops| - 1].After() <= e.pos)
    ensures Tidy(Push(ops, e)) && Push(ops, e) != []
    ensures Push(ops, e)[|Push(ops, e)| - 1].After() == e.After()
  {
    var now := Push(ops, e);
    if ops != [] && Joins(ops[|ops| - 1], e) {
      assert forall j :: 0 <= j < |ops| - 1 ==> now[j] == ops[j];
      if |ops| > 1 { assert ops[|ops| - 2] == ops[|ops| - 1 - 1] && !Joins(ops[|ops| - 2], ops[|ops| - 1]); }
    }
  }

  // ---------------------------------------------------------------- no more than the script asks

  /** The text operations insert, and how many characters they delete. */
  ghost function Added(ops: seq<TextOp>): string {
    if ops == [] then "" else Added(ops[..|ops| - 1]) + if ops[|ops| - 1].InsertOp? then ops[|ops| - 1].s else ""
  }

  ghost function Dropped(ops: seq<TextOp>): nat {
    if ops == [] then 0 else Dropped(ops[..|ops| - 1]) + if ops[|ops| - 1].DeleteOp? then ops[|ops| - 1].len else 0
  }

  ghost function AddedBy(s: seq<Change>): string {
    if s == [] then "" else AddedBy(s[..|s| - 1]) + if s[|s| - 1].tag.Insert? then s[|s| - 1].value else ""
  }

  ghost function DroppedBy(s: seq<Change>): nat {
    if s == [] then 0 else DroppedBy(s[..|s| - 1]) + if s[|s| - 1].tag.Delete? then |s[|s| - 1].value| else 0
  }

  lemma AddedNext(ops: seq<TextOp>, e: TextOp)
    ensures Added(ops + [e]) == Added(ops) + if e.InsertOp? then e.s else ""
    ensures Dropped(ops + [e]) == Dropped(ops) + if e.DeleteOp? then e.len else 0
  {
    assert (ops + [e])[..|ops|] == ops;
  }

  lemma AddedPushed(ops: seq<TextOp>, e: TextOp)
    ensures Added(Push(ops, e)) == Added(ops) + if e.InsertOp? then e.s else ""
    ensures Dropped(Push(ops, e)) == Dropped(ops) + if e.DeleteOp? then e.len else 0
  {
    if ops != [] && Joins(ops[|ops| - 1], e) {
      var init, d := ops[..|ops| - 1], ops[|ops| - 1];
      AddedNext(init, Join(d, e));
      if d.InsertOp? { Regroup(Added(init), d.s, e.s); }
    } else {
      AddedNext(ops, e);
    }
  }

  /** The operations of a script insert what it inserts and delete as much as it
      deletes: a character it keeps is never replaced. */
  lemma {:induction false} OpsSpareTheRest(s: seq<Change>)
    ensures Added(OpsOf(s)) == AddedBy(s) && Dropped(OpsOf(s)) == DroppedBy(s)
  {
    if s != [] {
      var p, c := s[..|s| - 1], s[|s| - 1];
      OpsSpareTheRest(p);
      if !c.tag.Equal? { AddedPushed(OpsOf(p), OpOf(c, |NewText(p)|)); }
    }
  }

  // ---------------------------------------------------------------- emission

  /** What `DiffToOps` promises about the operations it returns. */
  ghost predicate Carries(ops: seq<TextOp>, old_: string, new_: string) {
    ApplyOps(old_, ops) == Some(new_)
  }

  lemma DropAll(text: string)
    ensures ApplyOp(text, DeleteOp(0, |text|)) == Some("")
  {
    assert text[..0] + text[|text|..] == "";
  }

  lemma InsertAll(text: string)
    ensures ApplyOp("", InsertOp(0, text)) == Some(text)
  {
    assert ""[..0] + text + ""[0..] == text;
  }

  /** The coarse fallback: drop everything, then insert everything. */
  method CoarseReplace(old_: string, new_: string) returns (ops: seq<TextOp>)
    ensures Carries(ops, old_, new_)
    ensures ops == [] <==> old_ == "" && new_ == ""
    ensures Added(ops) == new_ && Dropped(ops) == |old_|
  {
    ops := [];
    assert ApplyOps(old_, ops) == Some(old_) && Added(ops) == "" && Dropped(ops) == 0;
    hide ApplyOps, ApplyOp, Added, Dropped;
    if |old_| > 0 {
      ApplyOneMore(old_, ops, DeleteOp(0, |old_|));
      AddedNext(ops, DeleteOp(0, |old_|));
      DropAll(old_);
      ops := ops + [DeleteOp(0, |old_|)];
    }
    if new_ != "" {
      ApplyOneMore(old_, ops, InsertOp(0, new_));
      AddedNext(ops, InsertOp(0, new_));
      InsertAll(new_);
      ops := ops + [InsertOp(0, new_)];
    }
  }

  /** The run being accumulated, as the operation it will become. */
  ghost function Pending(cursor: nat, insertPos: nat, pendingInsert: string, deleteLen: nat): seq<TextOp> {
    if deleteLen > 0 then [DeleteOp(cursor, deleteLen)]
    else if pendingInsert != "" then [InsertOp(insertPos, pendingInsert)]
    else []
  }

  lemma {:induction false} OpsStep(s: seq<Change>, i: nat)
    requires i < |s|
    ensures var p, q, c := s[..i], s[..i + 1], s[i];
            && OpsOf(q) == (if c.tag.Equal? then OpsOf(p) else Push(OpsOf(p), OpOf(c, |NewText(p)|)))
            && |NewText(q)| == |NewText(p)| + (if c.tag.Delete? then 0 else |c.value|)
  {
    assert s[..i + 1][..i] == s[..i] && s[..i + 1][i] == s[i];
  }

  ghost predicate Accumulating(ops: seq<TextOp>, cursor: nat, insertPos: nat, pendingInsert: string, deleteLen: nat) {
    && (pendingInsert != "" ==> deleteLen == 0 && insertPos + |pendingInsert| == cursor)
    && (deleteLen == 0 && pendingInsert == "" && ops != [] ==> ops[|ops| - 1].After() < cursor)
  }

  lemma PushOntoPending(ops: seq<TextOp>, x: TextOp, e: TextOp)
    ensures Push(ops + [x], e) == if Joins(x, e) then ops + [Join(x, e)] else ops + [x] + [e]
  {
    assert (ops + [x])[..|ops|] == ops;
  }

  ghost function WithInsert(ops: seq<TextOp>, pos: nat, pending: string): seq<TextOp> {
    if pending == "" then ops else ops + [InsertOp(pos, pending)]
  }

  ghost function WithDelete(ops: seq<TextOp>, cursor: nat, pending: nat): seq<TextOp> {
    if pending == 0 then ops else ops + [DeleteOp(cursor, pending)]
  }

  /** An `Equal` flushes whichever run is pending. */
  lemma ReadEqual(ops: seq<TextOp>, cursor: nat, insertPos: nat, pendingInsert: string, deleteLen: nat, n: nat)
    requires Accumulating(ops, cursor, insertPos, pendingInsert, deleteLen) && n > 0
    ensures var now := WithDelete(WithInsert(ops, insertPos, pendingInsert), cursor, deleteLen);
            && now == ops + Pending(cursor, insertPos, pendingInsert, deleteLen)
            && now + Pending(cursor + n, insertPos, "", 0) == now
            && Accumulating(now, cursor + n, insertPos, "", 0)
  {
    assert ops + [] == ops;
  }

  /** A `Delete` flushes a pending insert run and lengthens the delete run. */
  lemma ReadDelete(ops: seq<TextOp>, cursor: nat, insertPos: nat, pendingInsert: string, deleteLen: nat, n: nat)
    requires Accumulating(ops, cursor, insertPos, pendingInsert, deleteLen) && n > 0
    ensures var now := WithInsert(ops, insertPos, pendingInsert);
            && now + Pending(cursor, insertPos, "", deleteLen + n)
               == Push(ops + Pending(cursor, insertPos, pendingInsert, deleteLen), DeleteOp(cursor, n))
            && Accumulating(now, cursor, insertPos, "", deleteLen + n)
  {
    if deleteLen > 0 {
      PushOntoPending(ops, DeleteOp(cursor, deleteLen), DeleteOp(cursor, n));
    } else if pendingInsert != "" {
      PushOntoPending(ops, InsertOp(insertPos, pendingInsert), DeleteOp(cursor, n));
    } else {
      assert ops + [] == ops;
    }
  }

  /** An `Insert` flushes a pending delete run and lengthens the insert run. */
  lemma ReadInsert(ops: seq<TextOp>, cursor: nat, insertPos: nat, pendingInsert: string, deleteLen: nat, v: string)
    requires Accumulating(ops, cursor, insertPos, pendingInsert, deleteLen) && v != ""
    ensures var now, pos := WithDelete(ops, cursor, deleteLen), if pendingInsert == "" then cursor else insertPos;
            && now + Pending(cursor + |v|, pos, pendingInsert + v, 0)
               == Push(ops + Pending(cursor, insertPos, pendingInsert, deleteLen), InsertOp(cursor, v))
            && Accumulating(now, cursor + |v|, pos, pendingInsert + v, 0)
  {
    if deleteLen > 0 {
      PushOntoPending(ops, DeleteOp(cursor, deleteLen), InsertOp(cursor, v));
      assert "" + v == v;
    } else if pendingInsert != "" {
      PushOntoPending(ops, InsertOp(insertPos, pendingInsert), InsertOp(cursor, v));
    } else {
      assert ops + [] == ops && "" + v == v;
    }
  }

  /** Read one change: flush what it ends, lengthen what it continues. */
  method ReadChange(c: Change, ops0: seq<TextOp>, cursor0: nat, insertPos0: nat, pendingInsert0: string, deleteLen0: nat)
    returns (ops: seq<TextOp>, cursor: nat, insertPos: nat, pendingInsert: string, deleteLen: nat)
    requires c.value != "" && Accumulating(ops0, cursor0, insertPos0, pendingInsert0, deleteLen0)
    ensures Accumulating(ops, cursor, insertPos, pendingInsert, deleteLen)
    ensures cursor == cursor0 + if c.tag.Delete? then 0 else |c.value|
    ensures var before := ops0 + Pending(cursor0, insertPos0, pendingInsert0, deleteLen0);
            ops + Pending(cursor, insertPos, pendingInsert, deleteLen)
              == if c.tag.Equal? then before else Push(before, OpOf(c, cursor0))
  {
    ops, cursor, insertPos, pendingInsert, deleteLen := ops0, cursor0, insertPos0, pendingInsert0, deleteLen0;
    match c.tag {
      case Equal =>
        ReadEqual(ops, cursor, insertPos, pendingInsert, deleteLen, |c.value|);
        ops, pendingInsert := FlushInsert(ops, pendingInsert, insertPos);
        ops, deleteLen := FlushDelete(ops, deleteLen, cursor);
        cursor := cursor + |c.value|;
      case Delete =>
        ReadDelete(ops, cursor, insertPos, pendingInsert, deleteLen, |c.value|);
        ops, pendingInsert := FlushInsert(ops, pendingInsert, insertPos);
        deleteLen := deleteLen + |c.value|;
      case Insert =>
        ReadInsert(ops, cursor, insertPos, pendingInsert, deleteLen, c.value);
        ops, deleteLen := FlushDelete(ops, deleteLen, cursor);
        if pendingInsert == "" {
          insertPos := cursor;
        }
        pendingInsert := pendingInsert + c.value;
        cursor := cursor + |c.value|;
    }
  }

  /** Walk a script front to back, flushing coalesced runs. Mirrors the storage
      layer applying each operation the moment it is produced. */
  method EmitOps(script: seq<Change>) returns (ops: seq<TextOp>)
    requires WellFormed(script)
    ensures ops == OpsOf(script)
  {
    ops := [];
    var cursor: nat, pendingInsert: string, insertPos: nat, deleteLen: nat := 0, "", 0, 0;
    for i := 0 to |script|
      invariant cursor == |NewText(script[..i])|
      invariant Accumulating(ops, cursor, insertPos, pendingInsert, deleteLen)
      invariant ops + Pending(cursor, insertPos, pendingInsert, deleteLen) == OpsOf(script[..i])
    {
      OpsStep(script, i);
      ops, cursor, insertPos, pendingInsert, deleteLen :=
        ReadChange(script[i], ops, cursor, insertPos, pendingInsert, deleteLen);
    }
    assert script[..|script|] == script;
    ReadEqual(ops, cursor, insertPos, pendingInsert, deleteLen, 1);
    ops, pendingInsert := FlushInsert(ops, pendingInsert, insertPos);
    ops, deleteLen := FlushDelete(ops, deleteLen, cursor);
  }

  method FlushInsert(ops0: seq<TextOp>, pending: string, pos: nat) returns (ops: seq<TextOp>, left: string)
    ensures left == "" && ops == WithInsert(ops0, pos, pending)
  {
    ops, left := ops0, "";
    if pending != "" {
      ops := ops0 + [InsertOp(pos, pending)];
    }
  }

  method FlushDelete(ops0: seq<TextOp>, pending: nat, cursor: nat) returns (ops: seq<TextOp>, left: nat)
    ensures left == 0 && ops == WithDelete(ops0, cursor, pending)
  {
    ops, left := ops0, 0;
    if pending > 0 {
      ops := ops0 + [DeleteOp(cursor, pending)];
    }
  }

  /** The operations that carry `old_` to `new_`, coarse above `maxChars`. */
  method DiffToOps(differ: Differ, maxChars: nat, old_: string, new_: string) returns (ops: seq<TextOp>)
    ensures Carries(ops, old_, new_)
    ensures ops == [] <==> old_ == new_ && |old_| <= maxChars
    ensures |old_| <= maxChars && |new_| <= maxChars ==>
              Tidy(ops) && Added(ops) == AddedBy(differ(old_, new_)) && Dropped(ops) == DroppedBy(differ(old_, new_))
    ensures |old_| > maxChars || |new_| > maxChars ==> Added(ops) == new_ && Dropped(ops) == |old_|
  {
    if |old_| > maxChars || |new_| > maxChars {
      ops := CoarseReplace(old_, new_);
    } else {
      var script := differ(old_, new_);
      assert Explains(script, old_, new_);
      ops := EmitOps(script);
      OpsTransform(script, "");
      OpsAreTidy(script);
      OpsSpareTheRest(script);
      assert old_ + "" == old_ && new_ + "" == new_;
      if AllEqual(script) { AllEqualKeepsAll(script); }
    }
  }
}
