/** Byte layouts shared by client and server: arrays of 64-bit sizes, and byte strings
    packed back to back. A bulk transfer copies the concatenation of the exposed segments. */
module WireFormat {
  import opened MapStore

  /** sizeof(hg_size_t), on the wire in the machine's (little-endian) order. */
  const WORD: nat := 8
  const SIZE_LIMIT: nat := 0x1_0000_0000_0000_0000

  type Size = n: nat | n < SIZE_LIMIT

  function ToChar(d: nat): Char
    requires d < 256
  {
    if d < 128 then d as Char else (d - 256) as Char
  }

  function FromChar(c: Char): (d: nat)
    ensures d < 256
  {
    if c >= 0 then c as int else c as int + 256
  }

  function Encode(n: nat, width: nat): (b: Bytes)
    ensures |b| == width
  {
    if width == 0 then [] else [ToChar(n % 256)] + Encode(n / 256, width - 1)
  }

  function Decode(b: Bytes): nat {
    if b == [] then 0 else FromChar(b[0]) + 256 * Decode(b[1..])
  }

  function Power(width: nat): nat {
    if width == 0 then 1 else 256 * Power(width - 1)
  }

  lemma {:induction false} DecodeEncode(n: nat, width: nat)
    requires n < Power(width)
    ensures Decode(Encode(n, width)) == n
  {
    if width > 0 {
      DecodeEncode(n / 256, width - 1);
      assert Encode(n, width)[1..] == Encode(n / 256, width - 1);
    }
  }

  lemma SizeRoundTrip(n: Size)
    ensures Decode(Encode(n, WORD)) == n
  {
    assert Power(1) == 256 && Power(2) == 0x1_0000 && Power(4) == 0x1_0000_0000;
    assert Power(6) == 0x1_0000_0000_0000 && Power(8) == SIZE_LIMIT;
    DecodeEncode(n, WORD);
  }

  /** The byte with the lowest weight comes first. */
  lemma WordIsLittleEndian(b: Bytes)
    requires |b| == WORD
    ensures Decode(b) == FromChar(b[0]) + 0x100 * FromChar(b[1]) + 0x1_0000 * FromChar(b[2]) + 0x100_0000 * FromChar(b[3])
                         + 0x1_0000_0000 * (FromChar(b[4]) + 0x100 * FromChar(b[5]) + 0x1_0000 * FromChar(b[6])
                                            + 0x100_0000 * FromChar(b[7]))
  {
    HalfIsLittleEndian(b);
    HalfIsLittleEndian(b[4..]);
    assert b[4..][4..] == [];
  }

  lemma HalfIsLittleEndian(b: Bytes)
    requires 4 <= |b|
    ensures Decode(b) == FromChar(b[0]) + 0x100 * FromChar(b[1]) + 0x1_0000 * FromChar(b[2]) + 0x100_0000 * FromChar(b[3])
                         + 0x1_0000_0000 * Decode(b[4..])
  {
    assert Decode(b[2..]) == FromChar(b[2]) + 0x100 * (FromChar(b[3]) + 0x100 * Decode(b[4..])) by {
      assert b[2..][1..][1..] == b[4..];
    }
    assert b[1..][1..] == b[2..];
  }

  // ----- arrays of sizes -----

  function Words(n: nat): nat { 8 * n }

  function PackSizes(ns: seq<Size>): (b: Bytes)
    ensures |b| == Words(|ns|)
  {
    if ns == [] then [] else Encode(ns[0], WORD) + PackSizes(ns[1..])
  }

  /** The i-th hg_size_t at the beginning of a buffer. */
  function SizeAt(b: Bytes, i: nat): nat
    requires Words(i + 1) <= |b|
  {
    Decode(b[Words(i)..Words(i + 1)])
  }

  lemma {:induction false} WordOfPack(ns: seq<Size>, i: nat)
    requires i < |ns|
    ensures PackSizes(ns)[Words(i)..Words(i + 1)] == Encode(ns[i], WORD)
  {
    if i == 0 {
      assert PackSizes(ns)[0..8] == Encode(ns[0], WORD);
    } else {
      WordOfPack(ns[1..], i - 1);
      SliceBehind(Encode(ns[0], WORD), PackSizes(ns[1..]), Words(i - 1), Words(i));
    }
  }

  lemma SliceInFront(a: Bytes, b: Bytes, i: nat, j: nat)
    requires i <= j <= |a|
    ensures j <= |a + b| && (a + b)[i..j] == a[i..j]
  {
  }

  lemma SliceBehind(a: Bytes, b: Bytes, i: nat, j: nat)
    requires i <= j <= |b|
    ensures |a| + j <= |a + b| && (a + b)[|a| + i..|a| + j] == b[i..j]
  {
  }

  lemma SizeAtPack(ns: seq<Size>, tail: Bytes, i: nat)
    requires i < |ns|
    ensures SizeAt(PackSizes(ns) + tail, i) == ns[i]
  {
    WordOfPack(ns, i);
    SizeRoundTrip(ns[i]);
    SliceInFront(PackSizes(ns), tail, Words(i), Words(i + 1));
  }

  /** x written over b from off on. */
  function Written(b: Bytes, off: nat, x: Bytes): (r: Bytes)
    requires off + |x| <= |b|
    ensures |r| == |b|
    ensures forall k :: 0 <= k < |r| ==> r[k] == if off <= k < off + |x| then x[k - off] else b[k]
  {
    b[..off] + x + b[off + |x|..]
  }

  lemma WrittenBehind(a: Bytes, b: Bytes, off: nat, x: Bytes)
    requires off + |x| <= |b|
    ensures Written(a + b, |a| + off, x) == a + Written(b, off, x)
  {
  }

  lemma WrittenInFront(a: Bytes, b: Bytes, off: nat, x: Bytes)
    requires off + |x| <= |a|
    ensures Written(a + b, off, x) == Written(a, off, x) + b
  {
  }

  /** Overwriting one word is updating one size. */
  lemma {:induction false} StoreSize(ns: seq<Size>, i: nat, n: Size)
    requires i < |ns|
    ensures PackSizes(ns[i := n]) == Written(PackSizes(ns), Words(i), Encode(n, WORD))
  {
    var head, t := Encode(ns[0], WORD), PackSizes(ns[1..]);
    if i == 0 {
      assert ns[i := n][1..] == ns[1..];
      WrittenInFront(head, t, 0, Encode(n, WORD));
      assert Written(head, 0, Encode(n, WORD)) == Encode(n, WORD);
    } else {
      StoreSize(ns[1..], i - 1, n);
      assert ns[i := n][1..] == ns[1..][i - 1 := n];
      WrittenBehind(head, t, Words(i - 1), Encode(n, WORD));
    }
  }

  // ----- packed strings -----

  function Flatten(s: seq<Bytes>): Bytes {
    if s == [] then [] else s[0] + Flatten(s[1..])
  }

  function Sum(ns: seq<Size>): nat {
    if ns == [] then 0 else ns[0] + Sum(ns[1..])
  }

  /** Strings short enough for a 64-bit size, which every object in memory is. */
  predicate Sized(s: seq<Bytes>) {
    forall x :: x in s ==> |x| < SIZE_LIMIT
  }

  function Sizes(s: seq<Bytes>): (ns: seq<Size>)
    requires Sized(s)
    ensures |ns| == |s| && forall i :: 0 <= i < |s| ==> ns[i] == |s[i]|
  {
    seq(|s|, i requires 0 <= i < |s| => |s[i]|)
  }

  lemma {:induction false} FlattenAppend(s: seq<Bytes>, x: Bytes)
    ensures Flatten(s + [x]) == Flatten(s) + x
  {
    if s == [] {
      assert [x][1..] == [];
    } else {
      FlattenAppend(s[1..], x);
      assert (s + [x])[1..] == s[1..] + [x];
    }
  }

  /** Offset of string i when packed. */
  function Offset(s: seq<Bytes>, i: nat): nat
    requires i <= |s|
  {
    |Flatten(s[..i])|
  }

  lemma OffsetNext(s: seq<Bytes>, i: nat)
    requires i < |s|
    ensures Offset(s, i + 1) == Offset(s, i) + |s[i]|
  {
    assert s[..i + 1] == s[..i] + [s[i]];
    FlattenAppend(s[..i], s[i]);
  }

  lemma {:induction false} FlattenSplit(s: seq<Bytes>, i: nat)
    requires i <= |s|
    ensures Flatten(s) == Flatten(s[..i]) + Flatten(s[i..])
  {
    if i > 0 {
      FlattenSplit(s[1..], i - 1);
      assert s[..i][1..] == s[1..][..i - 1] && s[1..][i - 1..] == s[i..];
    }
  }

  /** String i lies between its offset and the next one. */
  lemma SliceOfFlatten(s: seq<Bytes>, i: nat)
    requires i < |s|
    ensures Offset(s, i) + |s[i]| <= |Flatten(s)|
    ensures Flatten(s)[Offset(s, i)..Offset(s, i) + |s[i]|] == s[i]
  {
    FlattenSplit(s, i);
    FlattenSplit(s, i + 1);
    OffsetNext(s, i);
    FlattenAppend(s[..i], s[i]);
    assert s[..i + 1] == s[..i] + [s[i]];
  }

  lemma {:induction false} FlattenLength(s: seq<Bytes>)
    requires Sized(s)
    ensures |Flatten(s)| == Sum(Sizes(s))
  {
    if s != [] {
      FlattenLength(s[1..]);
      assert Sizes(s)[1..] == Sizes(s[1..]);
    }
  }
}
