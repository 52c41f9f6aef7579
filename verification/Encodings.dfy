/** The signed byte encodings: key-log entries and snapshot manifests. */
module Encodings {
  import opened Prelude
  import opened ByteOrder
  import opened KeyLog
  import opened Keychain

  // ---------------------------------------------------------------- key-log entries

  /** "roam.keylog.v1" in ASCII. */
  const KEYLOG_DOMAIN: Bytes := [114, 111, 97, 109, 46, 107, 101, 121, 108, 111, 103, 46, 118, 49]

  function RecipientBytes(r: Recipient): Bytes {
    match r
    case Device(p) => [0] + U64Le(p)
    case Paper => [1]
  }

  function BodyBytes(b: KeyBody): Bytes {
    match b
    case Rotate(parents, nonce) => [0] + (U64Le(|parents|) + (Flatten(parents) + nonce))
    case Wrap(recipient, blob) => [1] + (RecipientBytes(recipient) + (U64Le(|blob|) + blob))
  }

  function EntryBytes(e: KeyLogEntry): Bytes {
    KEYLOG_DOMAIN + (U64Le(e.seqNo) + (U64Le(e.author) + (e.epochId + BodyBytes(e.body))))
  }

  lemma RegroupAll(a: Bytes, b: Bytes, c: Bytes, d: Bytes, rest: Bytes)
    ensures a + b + c + d + rest == a + (b + (c + (d + rest)))
  {}

  lemma FlattenNext(ps: seq<Bytes32>, i: nat)
    requires i < |ps|
    ensures Flatten(ps[..i + 1]) == Flatten(ps[..i]) + ps[i]
  {
    assert ps[..i + 1][..i] == ps[..i];
  }

  method PushParents(start: Bytes, parents: seq<Bytes32>) returns (buf: Bytes)
    ensures buf == start + Flatten(parents)
  {
    buf := start;
    for i := 0 to |parents|
      invariant buf == start + Flatten(parents[..i])
    {
      FlattenNext(parents, i);
      Regroup(start, Flatten(parents[..i]), parents[i]);
      buf := buf + parents[i];
    }
    assert parents[..|parents|] == parents;
  }

  method PushBody(head: Bytes, body: KeyBody) returns (buf: Bytes)
    ensures buf == head + BodyBytes(body)
  {
    hide Flatten;
    hide U64Le;
    match body {
      case Rotate(parents, nonce) =>
        buf := head + [0];
        buf := buf + U64Le(|parents|);
        buf := PushParents(buf, parents);
        buf := buf + nonce;
        RegroupAll(head, [0], U64Le(|parents|), Flatten(parents), nonce);
      case Wrap(recipient, blob) =>
        buf := head + [1];
        buf := PushRecipient(buf, recipient);
        buf := buf + U64Le(|blob|);
        buf := buf + blob;
        RegroupAll(head, [1], RecipientBytes(recipient), U64Le(|blob|), blob);
    }
  }

  method PushRecipient(start: Bytes, recipient: Recipient) returns (buf: Bytes)
    ensures buf == start + RecipientBytes(recipient)
  {
    hide U64Le;
    match recipient {
      case Device(p) =>
        buf := start + [0];
        buf := buf + U64Le(p);
        Regroup(start, [0], U64Le(p));
      case Paper =>
        buf := start + [1];
    }
  }

  /** The bytes an entry's signature covers, pushed onto a buffer field by field. */
  method CanonicalBytes(e: KeyLogEntry) returns (buf: Bytes)
    ensures buf == EntryBytes(e)
  {
    hide U64Le;
    hide BodyBytes;
    buf := KEYLOG_DOMAIN;
    buf := buf + U64Le(e.seqNo);
    buf := buf + U64Le(e.author);
    buf := buf + e.epochId;
    buf := PushBody(buf, e.body);
    RegroupAll(KEYLOG_DOMAIN, U64Le(e.seqNo), U64Le(e.author), e.epochId, BodyBytes(e.body));
  }

  lemma RotateInjective(ps: seq<Bytes32>, n: Bytes32, qs: seq<Bytes32>, m: Bytes32)
    requires BodyBytes(Rotate(ps, n)) == BodyBytes(Rotate(qs, m))
    ensures ps == qs && n == m
  {
    SplitEqual([0], U64Le(|ps|) + (Flatten(ps) + n), [0], U64Le(|qs|) + (Flatten(qs) + m));
    SplitEqual(U64Le(|ps|), Flatten(ps) + n, U64Le(|qs|), Flatten(qs) + m);
    SplitEqualTail(Flatten(ps), n, Flatten(qs), m);
    FlattenInjective(ps, qs);
  }

  lemma RecipientSplits(r: Recipient, x: Bytes, s: Recipient, y: Bytes)
    requires RecipientBytes(r) + x == RecipientBytes(s) + y
    ensures r == s && x == y
  {
    assert (RecipientBytes(r) + x)[0] == RecipientBytes(r)[0] && (RecipientBytes(s) + y)[0] == RecipientBytes(s)[0];
    assert r.Device? <==> s.Device?;
    SplitEqual(RecipientBytes(r), x, RecipientBytes(s), y);
    if r.Device? {
      SplitEqual([0], U64Le(r.peer), [0], U64Le(s.peer));
      U64LeInjective(r.peer, s.peer);
    }
  }

  lemma WrapInjective(r: Recipient, x: Bytes, s: Recipient, y: Bytes)
    requires BodyBytes(Wrap(r, x)) == BodyBytes(Wrap(s, y))
    ensures r == s && x == y
  {
    SplitEqual([1], RecipientBytes(r) + (U64Le(|x|) + x), [1], RecipientBytes(s) + (U64Le(|y|) + y));
    RecipientSplits(r, U64Le(|x|) + x, s, U64Le(|y|) + y);
    SplitEqual(U64Le(|x|), x, U64Le(|y|), y);
  }

  lemma BodyInjective(b: KeyBody, c: KeyBody)
    requires BodyBytes(b) == BodyBytes(c)
    ensures b == c
  {
    assert BodyBytes(b)[0] == if b.Rotate? then 0 else 1;
    assert BodyBytes(c)[0] == if c.Rotate? then 0 else 1;
    if b.Rotate? {
      RotateInjective(b.parents, b.nonce, c.parents, c.nonce);
    } else {
      WrapInjective(b.recipient, b.blob, c.recipient, c.blob);
    }
  }

  /** No two key-log entries share their signed bytes. */
  lemma CanonicalBytesInjective(d: KeyLogEntry, e: KeyLogEntry)
    requires EntryBytes(d) == EntryBytes(e)
    ensures d == e
  {
    SplitEqual(KEYLOG_DOMAIN, U64Le(d.seqNo) + (U64Le(d.author) + (d.epochId + BodyBytes(d.body))),
               KEYLOG_DOMAIN, U64Le(e.seqNo) + (U64Le(e.author) + (e.epochId + BodyBytes(e.body))));
    SplitEqual(U64Le(d.seqNo), U64Le(d.author) + (d.epochId + BodyBytes(d.body)),
               U64Le(e.seqNo), U64Le(e.author) + (e.epochId + BodyBytes(e.body)));
    SplitEqual(U64Le(d.author), d.epochId + BodyBytes(d.body), U64Le(e.author), e.epochId + BodyBytes(e.body));
    SplitEqual(d.epochId, BodyBytes(d.body), e.epochId, BodyBytes(e.body));
    U64LeInjective(d.seqNo, e.seqNo);
    U64LeInjective(d.author, e.author);
    BodyInjective(d.body, e.body);
  }

  // ---------------------------------------------------------------- snapshot manifests

  /** "roam-snapshot-manifest-v1" in ASCII. */
  const MANIFEST_DOMAIN: Bytes :=
    [114, 111, 97, 109, 45, 115, 110, 97, 112, 115, 104, 111, 116, 45, 109, 97, 110, 105, 102, 101, 115, 116, 45, 118, 49]

  /** A manifest without its signature; ids are their UTF-8 bytes. */
  datatype Manifest = Manifest(frontierDigest: Bytes32, snapshotCtHash: Bytes32, subsumedEntryIds: seq<Bytes>, blobRefIds: seq<Bytes>, author: u64)

  function IdsBytes(ids: seq<Bytes>): Bytes {
    if ids == [] then [] else U64Le(|ids[0]|) + (ids[0] + IdsBytes(ids[1..]))
  }

  /** A sorted, length-delimited id list. */
  function IdListBytes(ids: seq<Bytes>): Bytes { U64Le(|ids|) + IdsBytes(Sort(ids)) }

  function ManifestBytes(m: Manifest): Bytes {
    MANIFEST_DOMAIN + (m.frontierDigest + (m.snapshotCtHash + (U64Le(m.author) + (IdListBytes(m.subsumedEntryIds) + IdListBytes(m.blobRefIds)))))
  }

  /** A length that its 64-bit form keeps. */
  predicate Fits<T>(s: seq<T>) { |s| < TWO_TO_THE_64 }

  predicate IdsFit(ids: seq<Bytes>) { Fits(ids) && forall i :: 0 <= i < |ids| ==> Fits(ids[i]) }

  predicate ManifestFits(m: Manifest) { IdsFit(m.subsumedEntryIds) && IdsFit(m.blobRefIds) }

  lemma IdsNext(ids: seq<Bytes>, i: nat, out: Bytes)
    requires i < |ids|
    ensures out + U64Le(|ids[i]|) + ids[i] + IdsBytes(ids[i + 1..]) == out + IdsBytes(ids[i..])
  {
    hide U64Le;
    var rest := IdsBytes(ids[i + 1..]);
    assert ids[i..][0] == ids[i] && ids[i..][1..] == ids[i + 1..];
    assert IdsBytes(ids[i..]) == U64Le(|ids[i]|) + (ids[i] + rest);
    Regroup(out + U64Le(|ids[i]|), ids[i], rest);
    Regroup(out, U64Le(|ids[i]|), ids[i] + rest);
  }

  method AppendIdList(out0: Bytes, ids: seq<Bytes>) returns (out: Bytes)
    ensures out == out0 + IdListBytes(ids)
  {
    hide U64Le;
    hide Sort;
    var sorted := Sort(ids);
    SortSorts(ids);
    out := out0 + U64Le(|sorted|);
    for i := 0 to |sorted|
      invariant out + IdsBytes(sorted[i..]) == out0 + U64Le(|sorted|) + IdsBytes(sorted)
    {
      hide IdsBytes;
      IdsNext(sorted, i, out);
      out := out + U64Le(|sorted[i]|);
      out := out + sorted[i];
    }
    assert sorted[|sorted|..] == [];
    assert out + [] == out;
    Regroup(out0, U64Le(|sorted|), IdsBytes(sorted));
  }

  /** The bytes a manifest's signature covers. */
  method SigningBytes(m: Manifest) returns (out: Bytes)
    ensures out == ManifestBytes(m)
  {
    hide U64Le;
    hide IdListBytes;
    out := MANIFEST_DOMAIN;
    out := out + m.frontierDigest;
    out := out + m.snapshotCtHash;
    out := out + U64Le(m.author);
    ghost var head := out;
    out := AppendIdList(out, m.subsumedEntryIds);
    out := AppendIdList(out, m.blobRefIds);
    Regroup(head, IdListBytes(m.subsumedEntryIds), IdListBytes(m.blobRefIds));
    RegroupAll(MANIFEST_DOMAIN, m.frontierDigest, m.snapshotCtHash, U64Le(m.author), IdListBytes(m.subsumedEntryIds) + IdListBytes(m.blobRefIds));
  }

  lemma FirstId(ids: seq<Bytes>, rest: Bytes)
    requires ids != []
    ensures IdsBytes(ids) + rest == U64Le(|ids[0]|) + (ids[0] + (IdsBytes(ids[1..]) + rest))
  {
    hide U64Le;
    Regroup(U64Le(|ids[0]|), ids[0] + IdsBytes(ids[1..]), rest);
    Regroup(ids[0], IdsBytes(ids[1..]), rest);
  }

  /** Equally many length-delimited ids, followed by anything, split one way only. */
  lemma {:induction false} IdsSplit(xs: seq<Bytes>, r: Bytes, ys: seq<Bytes>, s: Bytes)
    requires |xs| == |ys| && (forall i :: 0 <= i < |xs| ==> Fits(xs[i])) && (forall i :: 0 <= i < |ys| ==> Fits(ys[i]))
    requires IdsBytes(xs) + r == IdsBytes(ys) + s
    ensures xs == ys && r == s
  {
    if xs == [] {
      assert IdsBytes(xs) + r == r && IdsBytes(ys) + s == s;
    } else {
      hide U64Le;
      var x, y, xt, yt := xs[0], ys[0], IdsBytes(xs[1..]), IdsBytes(ys[1..]);
      FirstId(xs, r);
      FirstId(ys, s);
      SplitEqual(U64Le(|x|), x + (xt + r), U64Le(|y|), y + (yt + s));
      U64LeInjective(|x|, |y|);
      SplitEqual(x, xt + r, y, yt + s);
      IdsSplit(xs[1..], r, ys[1..], s);
      assert xs == [x] + xs[1..] && ys == [y] + ys[1..];
    }
  }

  lemma SortFits(ids: seq<Bytes>)
    requires IdsFit(ids)
    ensures IdsFit(Sort(ids)) && |Sort(ids)| == |ids|
  {
    SortSorts(ids);
    forall i | 0 <= i < |Sort(ids)| ensures Fits(Sort(ids)[i]) {
      assert Sort(ids)[i] in multiset(Sort(ids));
      assert Sort(ids)[i] in multiset(ids);
    }
  }

  lemma IdListSplits(xs: seq<Bytes>, r: Bytes, ys: seq<Bytes>, s: Bytes)
    requires IdsFit(xs) && IdsFit(ys) && IdListBytes(xs) + r == IdListBytes(ys) + s
    ensures multiset(xs) == multiset(ys) && r == s
  {
    hide U64Le;
    hide Sort;
    hide IdsBytes;
    Regroup(U64Le(|xs|), IdsBytes(Sort(xs)), r);
    Regroup(U64Le(|ys|), IdsBytes(Sort(ys)), s);
    SplitEqual(U64Le(|xs|), IdsBytes(Sort(xs)) + r, U64Le(|ys|), IdsBytes(Sort(ys)) + s);
    U64LeInjective(|xs|, |ys|);
    SortFits(xs);
    SortFits(ys);
    IdsSplit(Sort(xs), r, Sort(ys), s);
    SortEqualIff(xs, ys);
  }

  ghost predicate SameManifest(m: Manifest, n: Manifest) {
    && m.frontierDigest == n.frontierDigest && m.snapshotCtHash == n.snapshotCtHash && m.author == n.author
    && multiset(m.subsumedEntryIds) == multiset(n.subsumedEntryIds) && multiset(m.blobRefIds) == multiset(n.blobRefIds)
  }

  /** Two manifests have one signed form exactly when they agree on digest, hash
      and author and their id lists are permutations of each other. */
  lemma SigningBytesIff(m: Manifest, n: Manifest)
    requires ManifestFits(m) && ManifestFits(n)
    ensures ManifestBytes(m) == ManifestBytes(n) <==> SameManifest(m, n)
  {
    if ManifestBytes(m) == ManifestBytes(n) {
      ManifestSplits(m, n);
    }
    if SameManifest(m, n) {
      SortEqualIff(m.subsumedEntryIds, n.subsumedEntryIds);
      SortEqualIff(m.blobRefIds, n.blobRefIds);
      SortFits(m.subsumedEntryIds);
      SortFits(n.subsumedEntryIds);
      SortFits(m.blobRefIds);
      SortFits(n.blobRefIds);
    }
  }

  lemma ManifestSplits(m: Manifest, n: Manifest)
    requires ManifestFits(m) && ManifestFits(n) && ManifestBytes(m) == ManifestBytes(n)
    ensures SameManifest(m, n)
  {
    var x, y := IdListBytes(m.subsumedEntryIds) + IdListBytes(m.blobRefIds), IdListBytes(n.subsumedEntryIds) + IdListBytes(n.blobRefIds);
    SplitEqual(MANIFEST_DOMAIN, m.frontierDigest + (m.snapshotCtHash + (U64Le(m.author) + x)),
               MANIFEST_DOMAIN, n.frontierDigest + (n.snapshotCtHash + (U64Le(n.author) + y)));
    SplitEqual(m.frontierDigest, m.snapshotCtHash + (U64Le(m.author) + x), n.frontierDigest, n.snapshotCtHash + (U64Le(n.author) + y));
    SplitEqual(m.snapshotCtHash, U64Le(m.author) + x, n.snapshotCtHash, U64Le(n.author) + y);
    SplitEqual(U64Le(m.author), x, U64Le(n.author), y);
    U64LeInjective(m.author, n.author);
    IdListSplits(m.subsumedEntryIds, IdListBytes(m.blobRefIds), n.subsumedEntryIds, IdListBytes(n.blobRefIds));
    assert IdListBytes(m.blobRefIds) + [] == IdListBytes(n.blobRefIds) + [];
    IdListSplits(m.blobRefIds, [], n.blobRefIds, []);
  }

  // ---------------------------------------------------------------- snapshot frames

  /** `u32 length || manifest || ciphertext`; the cast keeps the low 32 bits. */
  function Frame(manifest: Bytes, sealed: Bytes): Bytes {
    LittleEndian(|manifest|, 4) + manifest + sealed
  }

  function Unframe(bytes: Bytes): Option<(Bytes, Bytes)> {
    if |bytes| < 4 then None
    else
      var len, rest := FromLittleEndian(bytes[..4]), bytes[4..];
      if |rest| < len then None else Some((rest[..len], rest[len..]))
  }

  /** A frame is read back as it was written exactly when the manifest's length
      fits 32 bits; otherwise the split falls elsewhere. */
  lemma UnframeFrameIff(manifest: Bytes, sealed: Bytes)
    ensures Unframe(Frame(manifest, sealed)) == Some((manifest, sealed)) <==> |manifest| < TWO_TO_THE_32
  {
    var frame, len := Frame(manifest, sealed), LittleEndian(|manifest|, 4);
    assert frame == len + (manifest + sealed);
    assert frame[..4] == len && frame[4..] == manifest + sealed;
    Pow256Of8();
    FromLittleEndianBound(len);
    if |manifest| < TWO_TO_THE_32 {
      LittleEndianReads(|manifest|, 4);
      assert (manifest + sealed)[..|manifest|] == manifest && (manifest + sealed)[|manifest|..] == sealed;
    } else {
      assert FromLittleEndian(len) < |manifest|;
      assert |(manifest + sealed)[..FromLittleEndian(len)]| < |manifest|;
    }
  }

  /** A frame is four length bytes, least significant first, then the manifest, then
      the ciphertext. */
  lemma FrameLayout(manifest: Bytes, sealed: Bytes)
    ensures var frame, n := Frame(manifest, sealed), |manifest|;
            && |frame| >= 4 + n
            && frame[0] == n % 256 && frame[1] == n / 0x100 % 256 && frame[2] == n / 0x1_0000 % 256 && frame[3] == n / 0x100_0000 % 256
            && frame[4..4 + n] == manifest && frame[4 + n..] == sealed
  {
    var len := LittleEndian(|manifest|, 4);
    assert Frame(manifest, sealed)[4..] == manifest + sealed;
    Field(Frame(manifest, sealed), 4, manifest, sealed);
    assert Pow256(0) == 1 && Pow256(1) == 256 && Pow256(2) == 0x1_0000 && Pow256(3) == 0x100_0000;
    forall i | 0 <= i < 4 ensures Frame(manifest, sealed)[i] == |manifest| / Pow256(i) % 256 { LittleEndianAt(|manifest|, 4, i); }
  }

  /** Whatever is read is the frame of what was read; only a truncated frame is
      refused. */
  lemma FrameOfUnframe(bytes: Bytes)
    ensures Unframe(bytes).Some? ==> Frame(Unframe(bytes).value.0, Unframe(bytes).value.1) == bytes
    ensures Unframe(bytes).None? <==> |bytes| < 4 || |bytes| < 4 + FromLittleEndian(bytes[..4])
  {
    if Unframe(bytes).Some? {
      LittleEndianWrites(bytes[..4]);
      hide LittleEndian;
      hide FromLittleEndian;
      var len := FromLittleEndian(bytes[..4]);
      assert bytes == bytes[..4] + bytes[4..][..len] + bytes[4..][len..];
    }
  }

  // ---------------------------------------------------------------- layout

  lemma DomainsSpell()
    ensures Spells(KEYLOG_DOMAIN, "roam.keylog.v1") && Spells(MANIFEST_DOMAIN, "roam-snapshot-manifest-v1")
  {}

  lemma EntryMark(e: KeyLogEntry)
    ensures |EntryBytes(e)| > 4 && EntryBytes(e)[4] == '.' as int
  {
    hide BodyBytes, U64Le;
    assert EntryBytes(e)[4] == KEYLOG_DOMAIN[4];
  }

  lemma ManifestMark(m: Manifest)
    ensures |ManifestBytes(m)| > 4 && ManifestBytes(m)[4] == '-' as int
  {
    hide IdListBytes, U64Le;
    assert ManifestBytes(m)[4] == MANIFEST_DOMAIN[4];
  }

  /** No key-log entry is signed as a manifest, nor the other way round. */
  lemma DomainsSeparate(e: KeyLogEntry, m: Manifest)
    ensures EntryBytes(e) != ManifestBytes(m)
  {
    hide EntryBytes, ManifestBytes;
    EntryMark(e);
    ManifestMark(m);
  }

  /** Where each field of a signed entry stands. */
  lemma EntryLayout(e: KeyLogEntry)
    ensures var b := EntryBytes(e);
            && |b| > 62 && Spells(b[..14], "roam.keylog.v1")
            && FromLittleEndian(b[14..22]) == e.seqNo && FromLittleEndian(b[22..30]) == e.author
            && b[30..62] == e.epochId && b[62] == (if e.body.Rotate? then 0 else 1)
            && b[62..] == BodyBytes(e.body)
  {
    DomainsSpell();
    var b := EntryBytes(e);
    hide U64Le, BodyBytes;
    var x := BodyBytes(e.body);
    Field(b, 0, KEYLOG_DOMAIN, U64Le(e.seqNo) + (U64Le(e.author) + (e.epochId + x)));
    Field(b, 14, U64Le(e.seqNo), U64Le(e.author) + (e.epochId + x));
    Field(b, 22, U64Le(e.author), e.epochId + x);
    Field(b, 30, e.epochId, x);
    U64LeReads(e.seqNo);
    U64LeReads(e.author);
    assert b[..14] == b[0..14];
    BodyTag(e.body);
    assert b[62] == b[62..][0];
  }

  lemma BodyTag(body: KeyBody)
    ensures BodyBytes(body) != [] && BodyBytes(body)[0] == if body.Rotate? then 0 else 1
  {}

  /** A rotation: the count of parents, each of them, the nonce. */
  lemma RotateLayout(parents: seq<Bytes32>, nonce: Bytes32)
    requires |parents| < TWO_TO_THE_64
    ensures var b, n := BodyBytes(Rotate(parents, nonce)), 9 + 32 * |parents|;
            && |b| == n + 32 && FromLittleEndian(b[1..9]) == |parents| && b[n..] == nonce
            && forall i :: 0 <= i < |parents| ==> b[9 + 32 * i..41 + 32 * i] == parents[i]
  {
    var b := BodyBytes(Rotate(parents, nonce));
    hide U64Le;
    FlattenLength(parents);
    Field(b, 1, U64Le(|parents|), Flatten(parents) + nonce);
    Field(b, 9, Flatten(parents), nonce);
    U64LeReads(|parents|);
    forall i | 0 <= i < |parents| ensures b[9 + 32 * i..41 + 32 * i] == parents[i] {
      FlattenAt(parents, i);
      assert b[9 + 32 * i..41 + 32 * i] == b[9..9 + 32 * |parents|][32 * i..32 * i + 32];
    }
  }

  lemma {:induction false} FlattenAt(ps: seq<Bytes32>, i: nat)
    requires i < |ps|
    ensures |Flatten(ps)| == 32 * |ps| && Flatten(ps)[32 * i..32 * i + 32] == ps[i]
  {
    FlattenLength(ps);
    var init := ps[..|ps| - 1];
    FlattenLength(init);
    if i < |init| {
      FlattenAt(init, i);
      assert Flatten(ps)[32 * i..32 * i + 32] == Flatten(init)[32 * i..32 * i + 32];
    }
  }

  /** A wrap: whom it is for, and the blob behind its length. */
  lemma WrapLayout(r: Recipient, blob: Bytes)
    requires |blob| < TWO_TO_THE_64
    ensures var b := BodyBytes(Wrap(r, blob));
            match r
            case Device(p) => |b| == 18 + |blob| && b[1] == 0 && FromLittleEndian(b[2..10]) == p && FromLittleEndian(b[10..18]) == |blob| && b[18..] == blob
            case Paper => |b| == 10 + |blob| && b[1] == 1 && FromLittleEndian(b[2..10]) == |blob| && b[10..] == blob
  {
    var b := BodyBytes(Wrap(r, blob));
    hide U64Le;
    Field(b, 1, RecipientBytes(r), U64Le(|blob|) + blob);
    U64LeReads(|blob|);
    match r {
      case Device(p) =>
        assert b[2..10] == RecipientBytes(r)[1..];
        U64LeReads(p);
        Field(b, 10, U64Le(|blob|), blob);
      case Paper =>
        Field(b, 2, U64Le(|blob|), blob);
    }
  }

  /** Where each field of a signed manifest stands. */
  lemma ManifestLayout(m: Manifest)
    ensures var b := ManifestBytes(m);
            && |b| >= 97 && Spells(b[..25], "roam-snapshot-manifest-v1")
            && b[25..57] == m.frontierDigest && b[57..89] == m.snapshotCtHash && FromLittleEndian(b[89..97]) == m.author
            && b[97..] == IdListBytes(m.subsumedEntryIds) + IdListBytes(m.blobRefIds)
  {
    DomainsSpell();
    var b, x := ManifestBytes(m), IdListBytes(m.subsumedEntryIds) + IdListBytes(m.blobRefIds);
    hide U64Le, IdListBytes;
    Field(b, 0, MANIFEST_DOMAIN, m.frontierDigest + (m.snapshotCtHash + (U64Le(m.author) + x)));
    Field(b, 25, m.frontierDigest, m.snapshotCtHash + (U64Le(m.author) + x));
    Field(b, 57, m.snapshotCtHash, U64Le(m.author) + x);
    Field(b, 89, U64Le(m.author), x);
    U64LeReads(m.author);
    assert b[..25] == b[0..25];
  }

  /** An id list: how many, then each id behind its length, in dictionary order. */
  lemma IdListLayout(ids: seq<Bytes>)
    requires |ids| < TWO_TO_THE_64
    ensures var b := IdListBytes(ids);
            && |b| >= 8 && FromLittleEndian(b[..8]) == |ids|
            && exists xs :: b[8..] == IdsBytes(xs) && IsDictionary(xs, ids)
  {
    hide U64Le, Sort;
    U64LeReads(|ids|);
    SortMeans(ids);
    SortSorts(ids);
    assert IdListBytes(ids)[8..] == IdsBytes(Sort(ids)) && IdListBytes(ids)[..8] == U64Le(|ids|);
    assert IsDictionary(Sort(ids), ids);
  }

  /** `xs` is `ids` in dictionary order. */
  ghost predicate IsDictionary(xs: seq<Bytes>, ids: seq<Bytes>) {
    multiset(xs) == multiset(ids) && forall i, j :: 0 <= i < j < |xs| ==> xs[i] == xs[j] || exists p: nat :: ComesFirst(xs[i], xs[j], p)
  }

  /** Each id stands behind its eight-byte length. */
  lemma IdsLayout(ids: seq<Bytes>)
    requires ids != [] && |ids[0]| < TWO_TO_THE_64
    ensures var b, n := IdsBytes(ids), |ids[0]|;
            |b| >= 8 + n && FromLittleEndian(b[..8]) == n && b[8..8 + n] == ids[0] && b[8 + n..] == IdsBytes(ids[1..])
  {
    var b := IdsBytes(ids);
    hide U64Le;
    Field(b, 0, U64Le(|ids[0]|), ids[0] + IdsBytes(ids[1..]));
    Field(b, 8, ids[0], IdsBytes(ids[1..]));
    assert b[..8] == b[0..8];
    U64LeReads(|ids[0]|);
  }
}
