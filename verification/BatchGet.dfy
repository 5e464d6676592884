/** Getting many values with one call: the client sends the sizes it has room for, the
    server overwrites them with the sizes it returns and packs the values behind them. */
module BatchGet {
  import opened Keys
  import opened MapStore
  import opened WireFormat
  import opened BatchPut

  /** What slot k is owed: its value if it is there and fits, else nothing. */
  ghost predicate IsAnswer(pairs: set<Pair>, k: Bytes, max: nat, v: Bytes) {
    if exists p :: p in pairs && p.key == k && |p.val| <= max
    then Pair(k, v) in pairs && |v| <= max
    else v == []
  }

  // ----- writing into the buffer -----

  method Memcpy(a: array<Char>, off: nat, x: Bytes)
    requires off + |x| <= a.Length
    modifies a
    ensures a[..] == Written(old(a[..]), off, x)
  {
    for i := 0 to |x|
      invariant forall k :: 0 <= k < a.Length ==> a[k] == if off <= k < off + i then x[k - off] else old(a[k])
    {
      a[off + i] := x[i];
    }
  }

  /** The buffer holds these sizes and, packed behind them, these values. */
  ghost predicate Holds(b: Bytes, sizes: seq<Size>, values: seq<Bytes>) {
    PackSizes(sizes) + Flatten(values) <= b
  }

  lemma SizeInHeader(b: Bytes, sizes: seq<Size>, values: seq<Bytes>, i: nat)
    requires Holds(b, sizes, values) && i < |sizes|
    ensures Words(i + 1) <= |b| && SizeAt(b, i) == sizes[i]
  {
    var rest := b[Words(|sizes|)..];
    SizeAtPack(sizes, rest, i);
    assert b == PackSizes(sizes) + rest;
  }

  lemma WriteSize(b: Bytes, sizes: seq<Size>, values: seq<Bytes>, i: nat, n: Size)
    requires Holds(b, sizes, values) && i < |sizes|
    ensures Holds(Written(b, Words(i), Encode(n, WORD)), sizes[i := n], values)
  {
    StoreSize(sizes, i, n);
    var rest := b[Words(|sizes|)..];
    assert b == PackSizes(sizes) + rest && Flatten(values) <= rest;
    WrittenInFront(PackSizes(sizes), rest, Words(i), Encode(n, WORD));
  }

  lemma WriteValue(b: Bytes, sizes: seq<Size>, values: seq<Bytes>, v: Bytes)
    requires Holds(b, sizes, values) && Words(|sizes|) + |Flatten(values)| + |v| <= |b|
    ensures Holds(Written(b, Words(|sizes|) + |Flatten(values)|, v), sizes, values + [v])
  {
    FlattenAppend(values, v);
    var front := PackSizes(sizes) + Flatten(values);
    WrittenExtends(b, front, v);
    AppendAssoc(PackSizes(sizes), Flatten(values), v);
  }

  lemma WrittenExtends(b: Bytes, front: Bytes, v: Bytes)
    requires front <= b && |front| + |v| <= |b|
    ensures front + v <= Written(b, |front|, v)
  {
  }

  lemma NoValue(b: Bytes, sizes: seq<Size>, values: seq<Bytes>)
    requires Holds(b, sizes, values)
    ensures Holds(b, sizes, values + [[]])
  {
    FlattenAppend(values, []);
  }

  // ----- the server -----

  /** After i slots: their sizes are final and packed, the others still say what is allotted,
      and what is packed never outgrows what was allotted so far. */
  ghost predicate Served(b: Bytes, pairs: set<Pair>, keys: seq<Bytes>, allotted: seq<Size>,
                         sizes: seq<Size>, values: seq<Bytes>, i: nat) {
    && i == |values| <= |keys| == |allotted| == |sizes| && Holds(b, sizes, values)
    && (forall j :: 0 <= j < i ==> sizes[j] == |values[j]| && IsAnswer(pairs, keys[j], allotted[j], values[j]))
    && (forall j :: i <= j < |sizes| ==> sizes[j] == allotted[j])
    && |b| == Words(|sizes|) + Sum(allotted) && |Flatten(values)| + Sum(allotted[i..]) <= Sum(allotted)
  }

  lemma ServedNext(b: Bytes, b': Bytes, pairs: set<Pair>, keys: seq<Bytes>, allotted: seq<Size>,
                   sizes: seq<Size>, values: seq<Bytes>, i: nat, v: Bytes)
    requires Served(b, pairs, keys, allotted, sizes, values, i) && i < |keys|
    requires IsAnswer(pairs, keys[i], allotted[i], v) && |v| <= allotted[i]
    requires |b'| == |b| && Holds(b', sizes[i := |v|], values + [v])
    ensures Served(b', pairs, keys, allotted, sizes[i := |v|], values + [v], i + 1)
  {
    FlattenAppend(values, v);
    assert allotted[i..][1..] == allotted[i + 1..];
  }

  method PutSize(a: array<Char>, i: nat, n: Size, ghost sizes: seq<Size>, ghost values: seq<Bytes>)
    requires Holds(a[..], sizes, values) && i < |sizes|
    modifies a
    ensures Holds(a[..], sizes[i := n], values)
  {
    WriteSize(a[..], sizes, values, i, n);
    Memcpy(a, Words(i), Encode(n, WORD));
  }

  method PutValue(a: array<Char>, off: nat, v: Bytes, ghost sizes: seq<Size>, ghost values: seq<Bytes>)
    requires Holds(a[..], sizes, values) && off == Words(|sizes|) + |Flatten(values)| && off + |v| <= a.Length
    modifies a
    ensures Holds(a[..], sizes, values + [v])
  {
    WriteValue(a[..], sizes, values, v);
    Memcpy(a, off, v);
  }

  /** What slot i was allotted is still in the header and still free behind the values. */
  lemma RoomForSlot(b: Bytes, pairs: set<Pair>, keys: seq<Bytes>, allotted: seq<Size>,
                    sizes: seq<Size>, values: seq<Bytes>, i: nat)
    requires Served(b, pairs, keys, allotted, sizes, values, i) && i < |keys|
    ensures Holds(b, sizes, values) && i < |sizes| == |allotted|
    ensures Words(i + 1) <= |b| && SizeAt(b, i) == allotted[i]
    ensures Words(|sizes|) + |Flatten(values)| + allotted[i] <= |b|
  {
    SizeInHeader(b, sizes, values, i);
    assert allotted[i..] != [];
  }

  /** One slot: the answer's size over the allotted one, the answer behind the others. */
  method ServeSlot(store: MapDataStore, key: Bytes, a: array<Char>, i: nat, off: nat,
                   ghost keys: seq<Bytes>, ghost allotted: seq<Size>, ghost sizes: seq<Size>, ghost values: seq<Bytes>)
    returns (ghost v: Bytes, size: nat)
    requires store.Valid() && i < |keys| && key == keys[i]
    requires Served(a[..], store.Pairs(), keys, allotted, sizes, values, i)
    requires off == Words(|sizes|) + |Flatten(values)|
    modifies a
    ensures |v| < SIZE_LIMIT && Served(a[..], store.Pairs(), keys, allotted, sizes[i := |v|], values + [v], i + 1)
    ensures size == |v|
  {
    ghost var b := a[..];
    RoomForSlot(b, store.Pairs(), keys, allotted, sizes, values, i);
    var max := SizeAt(a[..], i);
    var found, val := store.Get(key);
    FoundIsAnswer(store.Pairs(), store.items, store.less, key, max, found, val);
    size := if found && |val| <= max then |val| else 0;
    PutSize(a, i, size, sizes, values);
    if found && |val| <= max {
      PutValue(a, off, val, sizes[i := size], values);
      v := val;
    } else {
      NoValue(a[..], sizes[i := size], values);
      v := [];
    }
    ServedNext(b, a[..], store.Pairs(), keys, allotted, sizes, values, i, v);
  }

  lemma FoundIsAnswer(pairs: set<Pair>, items: seq<Pair>, less: Less, k: Bytes, max: nat, found: bool, val: Bytes)
    requires TotalOrder(less) && Ordered(items, less) && pairs == Elems(items)
    requires found == HasKey(pairs, k) && (found ==> Pair(k, val) in pairs)
    ensures IsAnswer(pairs, k, max, if found && |val| <= max then val else [])
  {
    OrderedIsFunctional(items, less);
  }

  /** sdskv_get_multi_ult: every write stays inside the client's buffer. */
  method GetMultiServer(store: MapDataStore, num: nat, kbuf: Bytes, a: array<Char>,
                        ghost keys: seq<Bytes>, ghost allotted: seq<Size>)
    returns (ghost sizes: seq<Size>, ghost values: seq<Bytes>)
    requires store.Valid() && num == |keys| == |allotted| && Carries(kbuf, keys)
    requires a.Length == Words(num) + Sum(allotted) && a[..Words(num)] == PackSizes(allotted)
    modifies a
    ensures Served(a[..], store.Pairs(), keys, allotted, sizes, values, num)
  {
    sizes, values := allotted, [];
    var koff, voff := Words(num), Words(num);
    assert allotted[0..] == allotted;
    for i := 0 to num
      invariant Served(a[..], store.Pairs(), keys, allotted, sizes, values, i)
      invariant koff == Words(num) + Offset(keys, i) && voff == Words(num) + |Flatten(values)|
    {
      assert CarriesAt(kbuf, keys, i);
      OffsetNext(keys, i);
      ghost var v: Bytes;
      var size: nat;
      v, size := ServeSlot(store, kbuf[koff..koff + SizeAt(kbuf, i)], a, i, voff, keys, allotted, sizes, values);
      FlattenAppend(values, v);
      sizes, values := sizes[i := |v|], values + [v];
      koff := koff + SizeAt(kbuf, i);
      voff := voff + size;
    }
  }

  // ----- the client -----

  /** Value i of a buffer that holds these values. */
  lemma ValueAt(b: Bytes, sizes: seq<Size>, values: seq<Bytes>, i: nat)
    requires Holds(b, sizes, values) && i < |sizes| == |values|
    ensures var off := Words(|sizes|) + Offset(values, i);
            off + |values[i]| <= |b| && b[off..off + |values[i]|] == values[i]
  {
    SliceOfFlatten(values, i);
    var h, f := PackSizes(sizes), Flatten(values);
    SliceBehind(h, f, Offset(values, i), Offset(values, i) + |values[i]|);
    SliceInFront(h + f, b[|h + f|..], |h| + Offset(values, i), |h| + Offset(values, i) + |values[i]|);
    assert b == h + f + b[|h + f|..];
  }

  /** The unpacking loop after the call. */
  method Unpack(num: nat, b: Bytes, ghost sizes: seq<Size>, ghost values: seq<Bytes>)
    returns (received: seq<Bytes>, vsizes: seq<nat>)
    requires num == |sizes| == |values| && Holds(b, sizes, values)
    requires forall j :: 0 <= j < num ==> sizes[j] == |values[j]|
    ensures received == values && vsizes == sizes
  {
    var off := Words(num);
    received, vsizes := [], [];
    for i := 0 to num
      invariant off == Words(num) + Offset(values, i)
      invariant received == values[..i] && vsizes == sizes[..i]
    {
      SizeInHeader(b, sizes, values, i);
      ValueAt(b, sizes, values, i);
      OffsetNext(values, i);
      received := received + [b[off..off + SizeAt(b, i)]];
      vsizes := vsizes + [SizeAt(b, i)];
      off := off + SizeAt(b, i);
    }
  }

  method AddSizes(ns: seq<Size>) returns (total: nat)
    ensures total == Sum(ns)
  {
    total := 0;
    for i := 0 to |ns|
      invariant total + Sum(ns[i..]) == Sum(ns)
    {
      total := total + ns[i];
    }
  }

  /** sdskv_get_multi and its server: slot i comes back with the stored value if the key is
      there and its value fits the allotted size, and with size 0 otherwise. */
  method GetMulti(store: MapDataStore, keys: seq<Bytes>, allotted: seq<Size>)
    returns (values: seq<Bytes>, vsizes: seq<nat>)
    requires store.Valid() && |keys| == |allotted| && Sized(keys)
    ensures |values| == |vsizes| == |keys|
    ensures forall i :: 0 <= i < |keys| ==>
              vsizes[i] == |values[i]| && IsAnswer(store.Pairs(), keys[i], allotted[i], values[i])
  {
    var num := |keys|;
    var keySegs := [PackSizes(Sizes(keys))] + keys;
    PackedCarries(keys);
    assert Flatten(keySegs) == Packed(keys) by { assert keySegs[1..] == keys; }
    var total := AddSizes(allotted);
    var header := PackSizes(allotted);
    var local := new Char[Words(num) + total](_ => 0);
    Memcpy(local, 0, header);
    assert local[..Words(num)] == header;
    ghost var sizes, results := GetMultiServer(store, num, Flatten(keySegs), local, keys, allotted);
    values, vsizes := Unpack(num, local[..], sizes, results);
  }
}
