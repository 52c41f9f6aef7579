/** Shared values: options, byte strings and little-endian integers. */
module Prelude {

  datatype Option<+T> = None | Some(value: T)

  type byte = x: int | 0 <= x < 256

  type Bytes = seq<byte>

  /** A 32-byte value: a key, a nonce, a digest or an id. */
  type Bytes32 = b: Bytes | |b| == 32 witness seq(32, _ => 0)

  const TWO_TO_THE_64: int := 0x1_0000_0000_0000_0000
  const TWO_TO_THE_32: int := 0x1_0000_0000

  type u64 = n: int | 0 <= n < 0x1_0000_0000_0000_0000

  /** The `width` low bytes of `n`, least significant first. */
  function LittleEndian(n: nat, width: nat): (b: Bytes)
    ensures |b| == width
    decreases width
  {
    if width == 0 then [] else [n % 256] + LittleEndian(n / 256, width - 1)
  }

  function FromLittleEndian(b: Bytes): nat {
    if b == [] then 0 else b[0] + 256 * FromLittleEndian(b[1..])
  }

  ghost function Pow256(n: nat): (p: nat)
    ensures p > 0
  {
    if n == 0 then 1 else 256 * Pow256(n - 1)
  }

  /** A value that fits the width is read back exactly. */
  lemma {:induction false} LittleEndianReads(n: nat, width: nat)
    requires n < Pow256(width)
    ensures FromLittleEndian(LittleEndian(n, width)) == n
  {
    if width > 0 {
      LittleEndianReads(n / 256, width - 1);
      assert LittleEndian(n, width)[1..] == LittleEndian(n / 256, width - 1);
    }
  }

  lemma {:induction false} FromLittleEndianBound(b: Bytes)
    ensures FromLittleEndian(b) < Pow256(|b|)
  {
    if b != [] {
      FromLittleEndianBound(b[1..]);
    }
  }

  /** And reading loses nothing of the bytes. */
  lemma {:induction false} LittleEndianWrites(b: Bytes)
    ensures LittleEndian(FromLittleEndian(b), |b|) == b
  {
    if b != [] {
      var rest := FromLittleEndian(b[1..]);
      LittleEndianWrites(b[1..]);
      assert FromLittleEndian(b) % 256 == b[0] && FromLittleEndian(b) / 256 == rest;
      assert b == [b[0]] + b[1..];
    }
  }

  /** Byte `i` is the digit of weight 256 to the `i`. */
  lemma {:induction false} LittleEndianAt(n: nat, width: nat, i: nat)
    requires i < width
    ensures LittleEndian(n, width)[i] == n / Pow256(i) % 256
  {
    if i == 0 {
      assert LittleEndian(n, width)[0] == n % 256;
    } else {
      LittleEndianAt(n / 256, width - 1, i - 1);
      assert LittleEndian(n, width)[i] == LittleEndian(n / 256, width - 1)[i - 1];
      DivideTwice(n, Pow256(i - 1));
    }
  }

  lemma DivideTwice(n: nat, b: nat)
    requires b > 0
    ensures n / 256 / b == n / (256 * b)
  {
    var q, r := n / 256 / b, n / 256 % b;
    assert n / 256 == b * q + r && n == 256 * (n / 256) + n % 256;
    Reassociate(256, b, q);
    QuotientIs(n, 256 * b, q, 256 * r + n % 256);
  }

  lemma Reassociate(a: int, b: int, c: int)
    ensures (a * b) * c == a * (b * c)
  {}

  lemma QuotientIs(n: nat, d: nat, q: nat, r: nat)
    requires d > 0 && n == d * q + r && r < d
    ensures n / d == q
  {
    var x := n / d - q;
    assert n == d * (n / d) + n % d;
    assert d * x == d * (n / d) - d * q;
    SmallMultiple(d, x);
  }

  lemma SmallMultiple(d: int, x: int)
    requires -d < d * x < d
    ensures x == 0
  {}

  lemma Pow256Of8()
    ensures Pow256(8) == TWO_TO_THE_64 && Pow256(4) == TWO_TO_THE_32
  {
    assert Pow256(1) == 256 && Pow256(2) == 0x1_0000 && Pow256(3) == 0x100_0000;
    assert Pow256(4) == 0x1_0000_0000 && Pow256(5) == 0x100_0000_0000 && Pow256(6) == 0x1_0000_0000_0000;
    assert Pow256(7) == 0x100_0000_0000_0000;
  }

  /** The eight-byte form of a 64-bit value. */
  function U64Le(n: nat): (b: Bytes)
    ensures |b| == 8
  {
    LittleEndian(n, 8)
  }

  lemma U64LeInjective(m: u64, n: u64)
    requires U64Le(m) == U64Le(n)
    ensures m == n
  {
    Pow256Of8();
    LittleEndianReads(m, 8);
    LittleEndianReads(n, 8);
  }

  ghost predicate Distinct<T>(q: seq<T>) { forall i, j :: 0 <= i < j < |q| ==> q[i] != q[j] }

  lemma Regroup<T>(x: seq<T>, y: seq<T>, z: seq<T>)
    ensures x + y + z == x + (y + z)
  {}

  /** A value at an offset, when what starts there is the value and a rest. */
  lemma Field<T>(b: seq<T>, at: nat, x: seq<T>, rest: seq<T>)
    requires at <= |b| && b[at..] == x + rest
    ensures at + |x| <= |b| && b[at..at + |x|] == x && b[at + |x|..] == rest
  {
    assert b[at..at + |x|] == b[at..][..|x|] && b[at + |x|..] == b[at..][|x|..];
  }

  /** The bytes of an ASCII text. */
  ghost predicate Spells(b: Bytes, text: string) {
    |b| == |text| && forall i :: 0 <= i < |b| ==> b[i] == text[i] as int
  }

  lemma U64LeReads(n: u64)
    ensures FromLittleEndian(U64Le(n)) == n
  {
    Pow256Of8();
    LittleEndianReads(n, 8);
  }

  /** Two concatenations whose first parts have one length agree part by part. */
  lemma SplitEqual<T>(x: seq<T>, y: seq<T>, x': seq<T>, y': seq<T>)
    requires x + y == x' + y' && |x| == |x'|
    ensures x == x' && y == y'
  {
    assert x == (x + y)[..|x|] == x';
    assert y == (x + y)[|x|..] == y';
  }

  /** The same, when it is the last parts that have one length. */
  lemma SplitEqualTail<T>(x: seq<T>, y: seq<T>, x': seq<T>, y': seq<T>)
    requires x + y == x' + y' && |y| == |y'|
    ensures x == x' && y == y'
  {
    assert |x + y| == |x' + y'|;
    SplitEqual(x, y, x', y');
  }
}
