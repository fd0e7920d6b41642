/** Bytes, fixed-width arrays and the little-endian encodings used by every layer. */
module Bytes {

  newtype byte = x: int | 0 <= x < 256

  type Bytes = seq<byte>

  /** `[u8; 32]`: hashes, compressed points and encoded scalars. */
  type Bytes32 = b: Bytes | |b| == 32 witness seq(32, _ => 0)

  const U64_BOUND: int := 0x1_0000_0000_0000_0000

  type u64 = x: int | 0 <= x < U64_BOUND

  datatype Option<+T> = None | Some(value: T)

  function Min(a: int, b: int): int {
    if a < b then a else b
  }

  function Max(a: int, b: int): int {
    if a < b then b else a
  }

  /** The bytes of an ASCII literal. */
  function Ascii(s: string): (b: Bytes)
    ensures |b| == |s|
  {
    seq(|s|, i requires 0 <= i < |s| => (s[i] as int % 256) as byte)
  }

  /** 256 to the power `width`. */
  function Pow256(width: nat): nat {
    if width == 0 then 1 else 256 * Pow256(width - 1)
  }

  function ToLe(n: nat, width: nat): (b: Bytes)
    ensures |b| == width
  {
    if width == 0 then [] else [(n % 256) as byte] + ToLe(n / 256, width - 1)
  }

  function FromLe(b: Bytes): nat {
    if b == [] then 0 else b[0] as int + 256 * FromLe(b[1..])
  }

  lemma {:induction false} FromToLe(n: nat, width: nat)
    requires n < Pow256(width)
    ensures FromLe(ToLe(n, width)) == n
  {
    if width > 0 {
      FromToLe(n / 256, width - 1);
      assert ToLe(n, width)[1..] == ToLe(n / 256, width - 1);
    }
  }

  lemma {:induction false} ToFromLe(b: Bytes)
    ensures FromLe(b) < Pow256(|b|)
    ensures ToLe(FromLe(b), |b|) == b
  {
    if b != [] {
      ToFromLe(b[1..]);
      assert FromLe(b) / 256 == FromLe(b[1..]);
      assert b == [b[0]] + b[1..];
    }
  }

  /** Eight little-endian bytes hold exactly a `u64`; four hold exactly a `u32`. */
  lemma LeWidths()
    ensures Pow256(8) == U64_BOUND
    ensures Pow256(4) == 0x1_0000_0000
  {
    assert Pow256(4) == 0x1_0000_0000;
    assert Pow256(8) == 256 * 256 * 256 * 256 * Pow256(4);
  }

  /** Concatenation of a list of byte strings. */
  function Flatten(parts: seq<Bytes>): Bytes {
    if parts == [] then [] else parts[0] + Flatten(parts[1..])
  }

  lemma ConcatAssoc(a: Bytes, b: Bytes, c: Bytes)
    ensures (a + b) + c == a + (b + c)
  {
  }

  /** Equal strings with prefixes of equal length: both parts agree. */
  lemma SplitStart(a: Bytes, x: Bytes, b: Bytes, y: Bytes)
    requires |a| == |b| && a + x == b + y
    ensures a == b && x == y
  {
    assert a == (a + x)[..|a|] && b == (b + y)[..|b|];
    assert x == (a + x)[|a|..] && y == (b + y)[|b|..];
  }

  /** Equal strings with suffixes of equal length: both parts agree. */
  lemma SplitEnd(a: Bytes, x: Bytes, b: Bytes, y: Bytes)
    requires |x| == |y| && a + x == b + y
    ensures a == b && x == y
  {
    assert |a + x| == |b + y|;
    SplitStart(a, x, b, y);
  }

  lemma {:induction false} FlattenAppend(parts: seq<Bytes>, more: seq<Bytes>)
    ensures Flatten(parts + more) == Flatten(parts) + Flatten(more)
  {
    if parts == [] {
      assert parts + more == more;
    } else {
      FlattenAppend(parts[1..], more);
      assert (parts + more)[1..] == parts[1..] + more && (parts + more)[0] == parts[0];
      ConcatAssoc(parts[0], Flatten(parts[1..]), Flatten(more));
    }
  }

  lemma FlattenSnoc(parts: seq<Bytes>, last: Bytes)
    ensures Flatten(parts + [last]) == Flatten(parts) + last
  {
    FlattenAppend(parts, [last]);
    assert Flatten([last]) == last + Flatten([]);
  }

  predicate AllWidth(parts: seq<Bytes>, width: nat) {
    forall i :: 0 <= i < |parts| ==> |parts[i]| == width
  }

  lemma {:induction false} FlattenLength(parts: seq<Bytes>, width: nat)
    requires AllWidth(parts, width)
    ensures |Flatten(parts)| == width * |parts|
  {
    if parts != [] {
      FlattenLength(parts[1..], width);
      assert width * |parts| == width + width * (|parts| - 1);
    }
  }

  /** Equal-width chunks can be cut back out of their concatenation. */
  lemma FlattenChunk(parts: seq<Bytes>, width: nat, i: nat)
    requires AllWidth(parts, width) && i < |parts|
    ensures |Flatten(parts)| == width * |parts|
    ensures 0 <= width * i <= width * i + width <= width * |parts|
    ensures Flatten(parts)[width * i..width * i + width] == parts[i]
  {
    var left, right := parts[..i], parts[i + 1..];
    assert parts == left + ([parts[i]] + right);
    FlattenAppend(left, [parts[i]] + right);
    FlattenAppend([parts[i]], right);
    assert Flatten([parts[i]]) == parts[i] + Flatten([]);
    FlattenLength(parts, width);
    FlattenLength(left, width);
    FlattenLength(right, width);
    assert width * |parts| == width * i + width + width * |right|;
    var cut := Flatten(left) + (parts[i] + Flatten(right));
    assert cut[width * i..width * i + width] == parts[i];
  }

  lemma SameCount(m: nat, n: nat, width: nat)
    requires width > 0 && width * m == width * n
    ensures m == n
  {
    assert width * (m - n) == 0;
  }

  /** Two lists of equal-width chunks with the same concatenation are equal. */
  lemma FlattenInjective(a: seq<Bytes>, b: seq<Bytes>, width: nat)
    requires width > 0 && AllWidth(a, width) && AllWidth(b, width)
    requires Flatten(a) == Flatten(b)
    ensures a == b
  {
    FlattenLength(a, width);
    FlattenLength(b, width);
    SameCount(|a|, |b|, width);
    forall i | 0 <= i < |a|
      ensures a[i] == b[i]
    {
      FlattenChunk(a, width, i);
      FlattenChunk(b, width, i);
    }
  }
}
