/** Putting many pairs with one call, from separate buffers (put_multi) or from packed ones
    (put_packed): the client lays the pairs out, the server walks the offsets. */
module BatchPut {
  import opened Keys
  import opened MapStore
  import opened WireFormat

  datatype Pointer = Null | Into(offset: nat)

  // ----- what the store should end up with -----

  function Zip(keys: seq<Bytes>, values: seq<Bytes>): (s: seq<Pair>)
    requires |keys| == |values|
    ensures |s| == |keys| && forall i :: 0 <= i < |s| ==> s[i] == Pair(keys[i], values[i])
  {
    seq(|keys|, i requires 0 <= i < |keys| => Pair(keys[i], values[i]))
  }

  ghost function PutOne(pairs: set<Pair>, noOverwrite: bool, p: Pair): set<Pair> {
    if noOverwrite && HasKey(pairs, p.key) then pairs else Without(pairs, p.key) + {p}
  }

  /** The pairs put one by one. */
  ghost function PutAll(pairs: set<Pair>, noOverwrite: bool, s: seq<Pair>): set<Pair> {
    if s == [] then pairs
    else PutOne(PutAll(pairs, noOverwrite, s[..|s| - 1]), noOverwrite, s[|s| - 1])
  }

  lemma PutAllNext(pairs: set<Pair>, noOverwrite: bool, s: seq<Pair>, i: nat)
    requires i < |s|
    ensures PutAll(pairs, noOverwrite, s[..i + 1]) == PutOne(PutAll(pairs, noOverwrite, s[..i]), noOverwrite, s[i])
  {
    assert s[..i + 1][..i] == s[..i];
  }

  /** Among equal keys in one call the last wins, or the first if nothing is overwritten;
      keys that do not occur keep their values. */
  lemma {:induction false} PutAllDecides(pairs: set<Pair>, noOverwrite: bool, s: seq<Pair>, i: nat, p: Pair)
    requires i < |s| && s[i] == p
    requires if noOverwrite then !HasKey(pairs, p.key) && forall j :: 0 <= j < i ==> s[j].key != p.key
             else forall j :: i < j < |s| ==> s[j].key != p.key
    ensures p in PutAll(pairs, noOverwrite, s)
  {
    var n := |s| - 1;
    if i < n {
      PutAllDecides(pairs, noOverwrite, s[..n], i, p);
    } else if noOverwrite {
      PutAllElsewhere(pairs, noOverwrite, s[..n], p.key);
    }
  }

  lemma {:induction false} PutAllElsewhere(pairs: set<Pair>, noOverwrite: bool, s: seq<Pair>, k: Bytes)
    requires forall j :: 0 <= j < |s| ==> s[j].key != k
    ensures forall p: Pair :: p.key == k ==> (p in PutAll(pairs, noOverwrite, s) <==> p in pairs)
  {
    if s != [] {
      PutAllElsewhere(pairs, noOverwrite, s[..|s| - 1], k);
    }
  }

  // ----- put_multi, client -----

  datatype MultiRequest = MultiRequest(num: nat, keySegs: seq<Bytes>, keysBulkSize: nat,
                                       valSegs: seq<Bytes>, valsBulkSize: nat)

  datatype ClientResult<R> = InvalidArg | Send(request: R)

  /** The list without its empty strings: Mercury does not accept empty segments. */
  function NonEmpty(s: seq<Bytes>): seq<Bytes> {
    if s == [] then []
    else if |s[|s| - 1]| != 0 then NonEmpty(s[..|s| - 1]) + [s[|s| - 1]]
    else NonEmpty(s[..|s| - 1])
  }

  lemma {:induction false} NonEmptyFlattens(s: seq<Bytes>)
    ensures Flatten(NonEmpty(s)) == Flatten(s)
    ensures forall x :: x in NonEmpty(s) ==> x != []
  {
    if s != [] {
      var n := |s| - 1;
      NonEmptyFlattens(s[..n]);
      FlattenAppend(s[..n], s[n]);
      FlattenAppend(NonEmpty(s[..n]), s[n]);
      assert s == s[..n] + [s[n]];
    }
  }

  method BulkSize(segs: seq<Bytes>) returns (size: nat)
    ensures size == |Flatten(segs)|
  {
    size := 0;
    for i := 0 to |segs|
      invariant size == Offset(segs, i)
    {
      OffsetNext(segs, i);
      size := size + |segs[i]|;
    }
    assert segs[..|segs|] == segs;
  }

  /** The message of a put_multi or get_multi: sizes first, then the strings themselves. */
  function Packed(s: seq<Bytes>): Bytes
    requires Sized(s)
  {
    PackSizes(Sizes(s)) + Flatten(s)
  }

  /** sdskv_put_multi up to the call: empty keys are rejected, empty values are left out of
      the segments but not out of the sizes. */
  method PutMultiClient(keys: seq<Bytes>, values: seq<Bytes>) returns (r: ClientResult<MultiRequest>)
    requires |keys| == |values| && Sized(keys) && Sized(values)
    ensures r.InvalidArg? <==> [] in keys
    ensures r.Send? ==>
              && r.request.num == |keys|
              && Flatten(r.request.keySegs) == Packed(keys) && r.request.keysBulkSize == |Packed(keys)|
              && Flatten(r.request.valSegs) == Packed(values) && r.request.valsBulkSize == |Packed(values)|
              && r.request.keySegs != [] && r.request.valSegs != []
              && (forall x :: x in r.request.keySegs[1..] + r.request.valSegs[1..] ==> x != [])
  {
    for i := 0 to |keys|
      invariant forall j :: 0 <= j < i ==> keys[j] != []
    {
      if |keys[i]| == 0 {
        return InvalidArg;
      }
    }
    var keySegs := [PackSizes(Sizes(keys))] + keys;
    assert keySegs[1..] == keys;
    var keysBulkSize := BulkSize(keySegs);
    var segs: seq<Bytes> := [];
    for i := 0 to |values|
      invariant segs == NonEmpty(values[..i])
    {
      assert values[..i + 1][..i] == values[..i];
      if |values[i]| != 0 {
        segs := segs + [values[i]];
      }
    }
    assert values[..|values|] == values;
    NonEmptyFlattens(values);
    var valSegs := [PackSizes(Sizes(values))] + segs;
    assert valSegs[1..] == segs;
    var valsBulkSize := BulkSize(valSegs);
    r := Send(MultiRequest(|keys|, keySegs, keysBulkSize, valSegs, valsBulkSize));
  }

  // ----- put_multi, server -----

  /** put through a pointer and a size; a null pointer comes with size 0. */
  method PutAt(store: MapDataStore, kbuf: Bytes, koff: nat, ksize: nat, vbuf: Bytes, vptr: Pointer, vsize: nat)
    requires store.Valid() && koff + ksize <= |kbuf|
    requires vptr.Null? ==> vsize == 0
    requires vptr.Into? ==> vptr.offset + vsize <= |vbuf|
    modifies store
    ensures store.Valid()
    ensures var val := if vptr.Null? then [] else vbuf[vptr.offset..vptr.offset + vsize];
            store.Pairs() == PutOne(old(store.Pairs()), store.noOverwrite, Pair(kbuf[koff..koff + ksize], val))
  {
    var val := if vsize != 0 then vbuf[vptr.offset..vptr.offset + vsize] else [];
    var _ := store.Put(kbuf[koff..koff + ksize], val);
  }

  /** The buffer has the size of string i in its header, and the string at its offset. */
  ghost predicate CarriesAt(b: Bytes, s: seq<Bytes>, i: nat)
    requires i < |s|
  {
    var off := Words(|s|) + Offset(s, i);
    && Words(i + 1) <= |b| && off + |s[i]| <= |b|
    && SizeAt(b, i) == |s[i]| && b[off..off + |s[i]|] == s[i]
  }

  ghost predicate Carries(b: Bytes, s: seq<Bytes>) {
    forall i :: 0 <= i < |s| ==> CarriesAt(b, s, i)
  }

  lemma PackedCarries(s: seq<Bytes>)
    requires Sized(s)
    ensures Carries(Packed(s), s)
  {
    forall i | 0 <= i < |s| ensures CarriesAt(Packed(s), s, i) {
      SizeAtPack(Sizes(s), Flatten(s), i);
      SliceOfFlatten(s, i);
      SliceBehind(PackSizes(Sizes(s)), Flatten(s), Offset(s, i), Offset(s, i) + |s[i]|);
    }
  }

  /** The server's offset walk over both buffers. */
  method LocatePairs(num: nat, kbuf: Bytes, vbuf: Bytes, ghost keys: seq<Bytes>, ghost values: seq<Bytes>)
    returns (kptrs: seq<nat>, vptrs: seq<Pointer>)
    requires num == |keys| == |values| && Carries(kbuf, keys) && Carries(vbuf, values)
    ensures |kptrs| == |vptrs| == num
    ensures forall i :: 0 <= i < num ==> kptrs[i] == Words(num) + Offset(keys, i)
    ensures forall i :: 0 <= i < num ==>
              vptrs[i] == if values[i] == [] then Null else Into(Words(num) + Offset(values, i))
  {
    var koff, voff := Words(num), Words(num);
    kptrs, vptrs := [], [];
    for i := 0 to num
      invariant |kptrs| == |vptrs| == i
      invariant koff == Words(num) + Offset(keys, i) && voff == Words(num) + Offset(values, i)
      invariant forall j :: 0 <= j < i ==> kptrs[j] == Words(num) + Offset(keys, j)
      invariant forall j :: 0 <= j < i ==>
                  vptrs[j] == if values[j] == [] then Null else Into(Words(num) + Offset(values, j))
    {
      assert CarriesAt(kbuf, keys, i) && CarriesAt(vbuf, values, i);
      OffsetNext(keys, i);
      OffsetNext(values, i);
      kptrs := kptrs + [koff];
      vptrs := vptrs + [if SizeAt(vbuf, i) == 0 then Null else Into(voff)];
      koff := koff + SizeAt(kbuf, i);
      voff := voff + SizeAt(vbuf, i);
    }
  }

  /** One put of the default put_multi, for pointers that lead to string i. */
  method PutPair(store: MapDataStore, kbuf: Bytes, vbuf: Bytes, i: nat, koff: nat, vptr: Pointer,
                 ghost keys: seq<Bytes>, ghost values: seq<Bytes>)
    requires store.Valid() && i < |keys| == |values|
    requires CarriesAt(kbuf, keys, i) && CarriesAt(vbuf, values, i)
    requires koff == Words(|keys|) + Offset(keys, i)
    requires vptr == if values[i] == [] then Null else Into(Words(|values|) + Offset(values, i))
    modifies store
    ensures store.Valid()
    ensures store.Pairs() == PutOne(old(store.Pairs()), store.noOverwrite, Pair(keys[i], values[i]))
  {
    PutAt(store, kbuf, koff, SizeAt(kbuf, i), vbuf, vptr, SizeAt(vbuf, i));
  }

  /** sdskv_put_multi_ult with the default put_multi of the store, for any message that a
      client's lists give rise to. */
  method PutMultiServer(store: MapDataStore, num: nat, kbuf: Bytes, vbuf: Bytes,
                        ghost keys: seq<Bytes>, ghost values: seq<Bytes>)
    requires store.Valid() && num == |keys| == |values| && Carries(kbuf, keys) && Carries(vbuf, values)
    modifies store
    ensures store.Valid()
    ensures store.Pairs() == PutAll(old(store.Pairs()), store.noOverwrite, Zip(keys, values))
  {
    var kptrs, vptrs := LocatePairs(num, kbuf, vbuf, keys, values);
    ghost var s := Zip(keys, values);
    for i := 0 to num
      invariant store.Valid()
      invariant store.Pairs() == PutAll(old(store.Pairs()), store.noOverwrite, s[..i])
    {
      PutAllNext(old(store.Pairs()), store.noOverwrite, s, i);
      PutPair(store, kbuf, vbuf, i, kptrs[i], vptrs[i], keys, values);
    }
    assert s[..num] == s;
  }

  /** Client, transfer and server together: the store ends as if the pairs were put one by
      one, or nothing happens because some key is empty. */
  method PutMulti(store: MapDataStore, keys: seq<Bytes>, values: seq<Bytes>) returns (sent: bool)
    requires store.Valid() && |keys| == |values| && Sized(keys) && Sized(values)
    modifies store
    ensures store.Valid() && (sent <==> [] !in keys)
    ensures store.Pairs() == if sent then PutAll(old(store.Pairs()), store.noOverwrite, Zip(keys, values))
                             else old(store.Pairs())
  {
    var r := PutMultiClient(keys, values);
    if r.InvalidArg? {
      return false;
    }
    PackedCarries(keys);
    PackedCarries(values);
    PutMultiServer(store, r.request.num, Flatten(r.request.keySegs), Flatten(r.request.valSegs), keys, values);
    sent := true;
  }

  // ----- put_packed -----

  /** sdskv_put_packed: both size arrays, then the packed keys and, if any, the values. */
  method PutPackedClient(packedKeys: Bytes, ksizes: seq<Size>, packedValues: Bytes, vsizes: seq<Size>)
    returns (segs: seq<Bytes>, bulkSize: nat)
    requires |ksizes| == |vsizes| && |packedKeys| == Sum(ksizes) && |packedValues| == Sum(vsizes)
    ensures Flatten(segs) == PackSizes(ksizes) + PackSizes(vsizes) + packedKeys + packedValues
    ensures bulkSize == |Flatten(segs)|
    ensures packedValues != [] || |segs| == 3
  {
    var num := |ksizes|;
    var keysSize, valsSize := 0, 0;
    for i := 0 to num
      invariant keysSize + Sum(ksizes[i..]) == Sum(ksizes)
      invariant valsSize + Sum(vsizes[i..]) == Sum(vsizes)
    {
      keysSize := keysSize + ksizes[i];
      valsSize := valsSize + vsizes[i];
    }
    bulkSize := keysSize + valsSize + 2 * Words(num);
    segs := [PackSizes(ksizes), PackSizes(vsizes), packedKeys];
    FlattenThree(PackSizes(ksizes), PackSizes(vsizes), packedKeys);
    if valsSize != 0 {
      FlattenAppend(segs, packedValues);
      segs := segs + [packedValues];
    }
  }

  lemma FlattenThree(a: Bytes, b: Bytes, c: Bytes)
    ensures Flatten([a, b, c]) == a + b + c
  {
    assert [a, b, c] == [a] + [b] + [c];
    assert Flatten([a]) == a;
    FlattenAppend([a], b);
    FlattenAppend([a] + [b], c);
  }

  ghost function PackedMessage(keys: seq<Bytes>, values: seq<Bytes>): Bytes
    requires Sized(keys) && Sized(values)
  {
    PackSizes(Sizes(keys)) + PackSizes(Sizes(values)) + Flatten(keys) + Flatten(values)
  }

  /** The buffer read as an array of sizes, from entry number first on. */
  function ReadSizes(b: Bytes, first: nat, num: nat): (ns: seq<nat>)
    requires Words(first + num) <= |b|
    ensures |ns| == num && forall i :: 0 <= i < num ==> ns[i] == SizeAt(b, first + i)
  {
    seq<nat>(num, i requires 0 <= i < num => SizeAt(b, first + i))
  }

  lemma FirstSizes(ns: seq<Size>, rest: Bytes)
    ensures ReadSizes(PackSizes(ns) + rest, 0, |ns|) == ns
  {
    forall i | 0 <= i < |ns| ensures SizeAt(PackSizes(ns) + rest, i) == ns[i] {
      SizeAtPack(ns, rest, i);
    }
  }

  lemma ShiftedSize(a: Bytes, b: Bytes, first: nat, i: nat)
    requires |a| == Words(first) && Words(i + 1) <= |b|
    ensures Words(first + i + 1) <= |a + b| && SizeAt(a + b, first + i) == SizeAt(b, i)
  {
    assert (a + b)[Words(first + i)..Words(first + i + 1)] == b[Words(i)..Words(i + 1)];
  }

  lemma SecondSizes(a: Bytes, ns: seq<Size>, rest: Bytes, first: nat)
    requires |a| == Words(first)
    ensures ReadSizes(a + (PackSizes(ns) + rest), first, |ns|) == ns
  {
    var b := PackSizes(ns) + rest;
    forall i | 0 <= i < |ns| ensures SizeAt(a + b, first + i) == ns[i] {
      SizeAtPack(ns, rest, i);
      ShiftedSize(a, b, first, i);
    }
  }

  /** Both size arrays are found at their places, with the strings behind them. */
  lemma MessageParts(keys: seq<Bytes>, values: seq<Bytes>)
    requires |keys| == |values| && Sized(keys) && Sized(values)
    ensures var b, num := PackedMessage(keys, values), |keys|;
            && ReadSizes(b, 0, num) == Sizes(keys) && ReadSizes(b, num, num) == Sizes(values)
            && b[2 * Words(num)..] == Flatten(keys) + Flatten(values)
  {
    var b, rest := PackedMessage(keys, values), Flatten(keys) + Flatten(values);
    var ks, vs := PackSizes(Sizes(keys)), PackSizes(Sizes(values));
    AppendAssoc(ks + vs, Flatten(keys), Flatten(values));
    AppendAssoc(ks, vs, rest);
    FirstSizes(Sizes(keys), vs + rest);
    SecondSizes(ks, Sizes(values), rest, |keys|);
    assert (ks + vs + rest)[|ks + vs|..] == rest;
  }

  /** One put of the default put_packed, at the running offsets. */
  method PutPackedPair(store: MapDataStore, kbuf: Bytes, koff: nat, ksize: nat, vbuf: Bytes, voff: nat, vsize: nat,
                       ghost i: nat, ghost keys: seq<Bytes>, ghost values: seq<Bytes>)
    requires store.Valid() && i < |keys| == |values| && ksize == |keys[i]| && vsize == |values[i]|
    requires kbuf == Flatten(keys) && vbuf == Flatten(values) && koff == Offset(keys, i) && voff == Offset(values, i)
    modifies store
    ensures store.Valid()
    ensures store.Pairs() == PutOne(old(store.Pairs()), store.noOverwrite, Pair(keys[i], values[i]))
  {
    SliceOfFlatten(keys, i);
    SliceOfFlatten(values, i);
    PutAt(store, kbuf, koff, ksize, vbuf, Into(voff), vsize);
  }

  /** The default put_packed of the store: a second offset walk. */
  method StorePutPacked(store: MapDataStore, num: nat, kbuf: Bytes, ksizes: seq<nat>, vbuf: Bytes, vsizes: seq<nat>,
                        ghost keys: seq<Bytes>, ghost values: seq<Bytes>)
    requires store.Valid() && num == |keys| == |values| && Sized(keys) && Sized(values)
    requires ksizes == Sizes(keys) && vsizes == Sizes(values)
    requires kbuf == Flatten(keys) && vbuf == Flatten(values)
    modifies store
    ensures store.Valid()
    ensures store.Pairs() == PutAll(old(store.Pairs()), store.noOverwrite, Zip(keys, values))
  {
    ghost var s := Zip(keys, values);
    var koff, voff := 0, 0;
    for i := 0 to num
      invariant store.Valid() && koff == Offset(keys, i) && voff == Offset(values, i)
      invariant store.Pairs() == PutAll(old(store.Pairs()), store.noOverwrite, s[..i])
    {
      PutAllNext(old(store.Pairs()), store.noOverwrite, s, i);
      PutPackedPair(store, kbuf, koff, ksizes[i], vbuf, voff, vsizes[i], i, keys, values);
      OffsetNext(keys, i);
      OffsetNext(values, i);
      koff := koff + ksizes[i];
      voff := voff + vsizes[i];
    }
    assert s[..num] == s;
  }

  method AddUp(ns: seq<nat>, ghost keys: seq<Bytes>) returns (k: nat)
    requires Sized(keys) && ns == Sizes(keys)
    ensures k == |Flatten(keys)|
  {
    k := 0;
    for i := 0 to |ns|
      invariant k == Offset(keys, i)
    {
      OffsetNext(keys, i);
      k := k + ns[i];
    }
    assert keys[..|ns|] == keys;
  }

  /** sdskv_put_packed_ult: finds where the values begin by adding up the key sizes. */
  method PutPackedServer(store: MapDataStore, num: nat, buf: Bytes,
                         ghost keys: seq<Bytes>, ghost values: seq<Bytes>)
    requires store.Valid() && num == |keys| == |values| && Sized(keys) && Sized(values)
    requires buf == PackedMessage(keys, values)
    modifies store
    ensures store.Valid()
    ensures store.Pairs() == PutAll(old(store.Pairs()), store.noOverwrite, Zip(keys, values))
  {
    MessageParts(keys, values);
    var ksizes, vsizes := ReadSizes(buf, 0, num), ReadSizes(buf, num, num);
    var packed := buf[2 * Words(num)..];
    var k := AddUp(ksizes, keys);
    StorePutPacked(store, num, packed[..k], ksizes, packed[k..], vsizes, keys, values);
  }

  /** For every list of pairs packed back to back by the caller, put_packed puts exactly
      these pairs in order; empty keys and values included. */
  method PutPacked(store: MapDataStore, packedKeys: Bytes, ksizes: seq<Size>,
                   packedValues: Bytes, vsizes: seq<Size>, ghost keys: seq<Bytes>, ghost values: seq<Bytes>)
    requires store.Valid() && |keys| == |values| && Sized(keys) && Sized(values)
    requires packedKeys == Flatten(keys) && ksizes == Sizes(keys)
    requires packedValues == Flatten(values) && vsizes == Sizes(values)
    modifies store
    ensures store.Valid()
    ensures store.Pairs() == PutAll(old(store.Pairs()), store.noOverwrite, Zip(keys, values))
  {
    FlattenLength(keys);
    FlattenLength(values);
    var segs, bulkSize := PutPackedClient(packedKeys, ksizes, packedValues, vsizes);
    PutPackedServer(store, |ksizes|, Flatten(segs), keys, values);
  }
}
