/** The order byte strings, and so ids and keys, are sorted in. */
module ByteOrder {
  import opened Prelude

  /** Lexicographic order on byte strings. */
  predicate Less(a: Bytes, b: Bytes) {
    if b == [] then false
    else if a == [] then true
    else a[0] < b[0] || (a[0] == b[0] && Less(a[1..], b[1..]))
  }

  lemma {:induction false} LessTrans(a: Bytes, b: Bytes, c: Bytes)
    requires Less(a, b) && Less(b, c)
    ensures Less(a, c)
  {
    if a != [] && b != [] && c != [] && a[0] == b[0] == c[0] {
      LessTrans(a[1..], b[1..], c[1..]);
    }
  }

  lemma {:induction false} LessTotal(a: Bytes, b: Bytes)
    ensures a != b ==> Less(a, b) || Less(b, a)
    ensures !(Less(a, b) && Less(b, a)) && !Less(a, a)
  {
    if a != [] && b != [] {
      LessTotal(a[1..], b[1..]);
      if a[0] == b[0] && a[1..] == b[1..] { assert a == [a[0]] + a[1..] == b; }
    }
    if a != [] {
      LessTotal(a[1..], a[1..]);
    }
  }

  /** `a` and `b` first differ at `i`, where `a` has ended or has the smaller byte. */
  ghost predicate ComesFirst(a: Bytes, b: Bytes, i: nat) {
    && i <= |a| && i <= |b| && a[..i] == b[..i]
    && if i < |a| && i < |b| then a[i] < b[i] else |a| < |b|
  }

  /** The order is the one of a dictionary over bytes. */
  lemma {:induction false} LessIff(a: Bytes, b: Bytes)
    ensures Less(a, b) <==> exists i: nat :: ComesFirst(a, b, i)
  {
    if a == [] || b == [] {
      assert ComesFirst(a, b, 0) <==> |a| < |b|;
    } else {
      LessIff(a[1..], b[1..]);
      if Less(a, b) {
        if a[0] < b[0] { assert ComesFirst(a, b, 0); } else {
          var i: nat :| ComesFirst(a[1..], b[1..], i);
          LaterFirst(a, b, i);
        }
      }
      if i: nat :| ComesFirst(a, b, i) {
        if i > 0 { LaterFirst(a, b, i - 1); }
      }
    }
  }

  lemma LaterFirst(a: Bytes, b: Bytes, i: nat)
    requires a != [] && b != []
    ensures a[0] == b[0] && ComesFirst(a[1..], b[1..], i) <==> ComesFirst(a, b, i + 1)
  {
    if i <= |a| - 1 && i <= |b| - 1 {
      assert a[..i + 1] == [a[0]] + a[1..][..i] && b[..i + 1] == [b[0]] + b[1..][..i];
      if a[..i + 1] == b[..i + 1] {
        assert a[..i + 1][0] == a[0] && b[..i + 1][0] == b[0];
        assert a[1..][..i] == a[..i + 1][1..] && b[1..][..i] == b[..i + 1][1..];
      }
    }
  }

  predicate AtMost(a: Bytes, b: Bytes) { a == b || Less(a, b) }

  ghost predicate Sorted(q: seq<Bytes>) { forall i, j :: 0 <= i < j < |q| ==> AtMost(q[i], q[j]) }

  /** Insert into a sorted list, after what is at most equal. */
  function Insert(x: Bytes, q: seq<Bytes>): seq<Bytes> {
    if q == [] then [x]
    else if Less(x, q[0]) then [x] + q
    else [q[0]] + Insert(x, q[1..])
  }

  function Sort(q: seq<Bytes>): seq<Bytes> {
    if q == [] then [] else Insert(q[0], Sort(q[1..]))
  }

  lemma {:induction false} InsertAdds(x: Bytes, q: seq<Bytes>)
    ensures multiset(Insert(x, q)) == multiset(q) + multiset{x} && |Insert(x, q)| == |q| + 1
  {
    if q != [] && !Less(x, q[0]) {
      InsertAdds(x, q[1..]);
      assert q == [q[0]] + q[1..];
    }
  }

  lemma {:induction false} InsertSorts(x: Bytes, q: seq<Bytes>)
    requires Sorted(q)
    ensures Sorted(Insert(x, q))
  {
    if q != [] {
      if Less(x, q[0]) {
        forall j | 0 <= j < |q| ensures Less(x, q[j]) {
          if q[0] != q[j] { LessTrans(x, q[0], q[j]); }
        }
      } else {
        InsertSorts(x, q[1..]);
        LessTotal(x, q[0]);
        forall j | 0 <= j < |Insert(x, q[1..])| ensures AtMost(q[0], Insert(x, q[1..])[j]) {
          InsertedFrom(x, q[1..], j);
        }
      }
    }
  }

  lemma InsertedFrom(x: Bytes, q: seq<Bytes>, j: nat)
    requires j < |Insert(x, q)|
    ensures Insert(x, q)[j] == x || Insert(x, q)[j] in q
  {
    InsertAdds(x, q);
    assert Insert(x, q)[j] in multiset(Insert(x, q));
  }

  lemma {:induction false} SortSorts(q: seq<Bytes>)
    ensures Sorted(Sort(q)) && multiset(Sort(q)) == multiset(q) && |Sort(q)| == |q|
  {
    if q != [] {
      hide Sorted;
      hide Insert;
      SortSorts(q[1..]);
      InsertSorts(q[0], Sort(q[1..]));
      InsertAdds(q[0], Sort(q[1..]));
      assert q == [q[0]] + q[1..];
    }
  }

  lemma SortedTail(q: seq<Bytes>)
    requires Sorted(q) && q != []
    ensures Sorted(q[1..]) && multiset(q[1..]) == multiset(q) - multiset{q[0]}
  {
    hide AtMost;
    assert q == [q[0]] + q[1..];
  }

  /** Two sorted lists with the same elements are the same list. */
  lemma {:induction false} SortedIsUnique(p: seq<Bytes>, q: seq<Bytes>)
    requires Sorted(p) && Sorted(q) && multiset(p) == multiset(q)
    ensures p == q
  {
    hide Sorted;
    assert |p| == |multiset(p)| == |multiset(q)| == |q|;
    if p != [] {
      HeadsAgree(p, q);
      SortedTail(p);
      SortedTail(q);
      SortedIsUnique(p[1..], q[1..]);
      assert p == [p[0]] + p[1..] && q == [q[0]] + q[1..];
    }
  }

  lemma HeadsAgree(p: seq<Bytes>, q: seq<Bytes>)
    requires p != [] && q != [] && Sorted(p) && Sorted(q) && multiset(p) == multiset(q)
    ensures p[0] == q[0]
  {
    assert p[0] in multiset(q) && q[0] in multiset(p);
    var i :| 0 <= i < |q| && q[i] == p[0];
    var j :| 0 <= j < |p| && p[j] == q[0];
    LessTotal(p[0], q[0]);
  }

  /** Sorting forgets exactly the order. */
  lemma SortEqualIff(p: seq<Bytes>, q: seq<Bytes>)
    ensures Sort(p) == Sort(q) <==> multiset(p) == multiset(q)
  {
    SortSorts(p);
    SortSorts(q);
    if multiset(p) == multiset(q) { SortedIsUnique(Sort(p), Sort(q)); }
  }

  /** A sorted list holds the same elements, each no later than any after it. */
  lemma SortMeans(q: seq<Bytes>)
    ensures multiset(Sort(q)) == multiset(q)
    ensures forall i, j :: 0 <= i < j < |Sort(q)| ==> Sort(q)[i] == Sort(q)[j] || exists p: nat :: ComesFirst(Sort(q)[i], Sort(q)[j], p)
  {
    hide Less, Sort, ComesFirst;
    SortSorts(q);
    forall i, j | 0 <= i < j < |Sort(q)| ensures Sort(q)[i] == Sort(q)[j] || exists p: nat :: ComesFirst(Sort(q)[i], Sort(q)[j], p) {
      LessIff(Sort(q)[i], Sort(q)[j]);
    }
  }
}
