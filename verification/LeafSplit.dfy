/** Splitting an oversized leaf base array on a key boundary near its middle. */
module LeafSplit {
  import opened Keys
  import opened LeafChain

  const LEAF_NODE_SIZE_LOWER_THRESHOLD := 32

  /** Slot b starts a new key. */
  predicate Boundary(items: seq<KV>, b: int) {
    0 < b < |items| && items[b - 1].key != items[b].key
  }

  /** A split at b separates no key's values and leaves neither side underfull. */
  predicate GoodSplit(items: seq<KV>, b: int) {
    && Boundary(items, b)
    && LEAF_NODE_SIZE_LOWER_THRESHOLD < b
    && LEAF_NODE_SIZE_LOWER_THRESHOLD < |items| - b
  }

  /** The good split nearest to the centre on its left, or else the first one beyond it. */
  ghost predicate NearestSplit(items: seq<KV>, b: int) {
    && GoodSplit(items, b)
    && (forall x :: GoodSplit(items, x) && x <= |items| / 2 ==> x <= b <= |items| / 2)
    && (forall x :: GoodSplit(items, x) && |items| / 2 < x ==> b <= x)
  }

  method FindSplitPoint(items: seq<KV>) returns (point: int)
    requires SortedByKey(items) && |items| / 2 > 1
    ensures point != -1 ==> NearestSplit(items, point)
    ensures point == -1 ==> forall b :: !GoodSplit(items, b)
  {
    var central := |items| / 2;
    var key := items[central].key;
    var it := central - 1;
    while it != 0 && items[it].key == key
      invariant 0 <= it < central
      invariant forall j :: it < j <= central ==> items[j].key == key
    {
      it := it - 1;
    }
    it := it + 1;
    if it > LEAF_NODE_SIZE_LOWER_THRESHOLD {
      return it;
    }
    ghost var leftEnd := it;
    it := central + 1;
    while it != |items| && items[it].key == key
      invariant central < it <= |items|
      invariant forall j :: central <= j < it ==> items[j].key == key
    {
      it := it + 1;
    }
    if |items| - it > LEAF_NODE_SIZE_LOWER_THRESHOLD {
      return it;
    }
    forall b | Boundary(items, b) ensures b <= leftEnd || it <= b {
    }
    return -1;
  }

  /** The sibling receives the upper part; the split record cuts the rest away. */
  method GetSplitSibling(base: Leaf, newId: NodeId) returns (sibling: Leaf, split: Leaf)
    requires base.Base? && WF(base) && |base.items| / 2 > 1
    ensures (forall b :: !GoodSplit(base.items, b)) ==> split == base
    ensures (exists b :: GoodSplit(base.items, b)) ==>
              && split.Split? && split.child == base && split.sibling == newId
              && SplitsCleanly(base, sibling, split)
              && NearestSplit(base.items, |base.items| - |sibling.items|)
  {
    var point := FindSplitPoint(base.items);
    if point == -1 {
      return base, base;
    }
    var key := base.items[point].key;
    sibling := Base(LowKey(key), base.items[point..], base.high);
    split := Split(key, newId, |sibling.items|, base);
    SplitAtBoundary(base, point, newId);
  }

  /** Both halves are well formed and non-trivial, no key is separated, and the left
      part cut at the new high key followed by the sibling is the old array. */
  ghost predicate SplitsCleanly(base: Leaf, sibling: Leaf, split: Leaf)
    requires base.Base? && split.Split?
  {
    && WF(split) && sibling.Base? && WF(sibling)
    && LowOf(split) == LowOf(base) && HighOf(split) == HighKey(split.key, split.sibling)
    && LowOf(sibling) == LowKey(split.key) && HighOf(sibling) == HighOf(base)
    && base.items[..LowerBound(base.items, split.key)] + sibling.items == base.items
    && Replay(split) == Elems(base.items[..LowerBound(base.items, split.key)])
    && Replay(split) + Replay(sibling) == Replay(base)
    && (forall p, q :: p in Replay(split) && q in Replay(sibling) ==> p.key < q.key)
    && ItemCount(split) > LEAF_NODE_SIZE_LOWER_THRESHOLD
    && ItemCount(sibling) > LEAF_NODE_SIZE_LOWER_THRESHOLD
  }

  lemma BoundaryIsLowerBound(items: seq<KV>, b: nat)
    requires SortedByKey(items) && Boundary(items, b)
    ensures LowerBound(items, items[b].key) == b
  {
    var n := LowerBound(items, items[b].key);
    assert n <= b;
    assert items[b - 1].key < items[b].key;
  }

  lemma SuffixAbove(items: seq<KV>, key: Key)
    requires SortedByKey(items) && Distinct(items)
    ensures var s := items[LowerBound(items, key)..];
            && Elems(s) == (set p | p in Elems(items) && key <= p.key)
            && SortedByKey(s) && Distinct(s)
  {
    var n := LowerBound(items, key);
    var s := items[n..];
    forall p ensures p in s <==> p in items && key <= p.key {
      if p in items && key <= p.key {
        var i :| 0 <= i < |items| && items[i] == p;
        assert s[i - n] == p;
      }
      if p in s {
        var k :| 0 <= k < |s| && s[k] == p;
        assert items[n].key <= items[n + k].key;
      }
    }
  }

  function SiblingAt(base: Leaf, key: Key): Leaf
    requires base.Base?
  {
    Base(LowKey(key), base.items[LowerBound(base.items, key)..], base.high)
  }

  function SplitAt(base: Leaf, key: Key, newId: NodeId): Leaf
    requires base.Base?
  {
    Split(key, newId, |SiblingAt(base, key).items|, base)
  }

  /** A split at any key strictly inside the range divides the live pairs at that key. */
  lemma SplitAtKey(base: Leaf, key: Key, newId: NodeId)
    requires base.Base? && WF(base) && InRange(key, base.low, base.high)
    requires NonEmptyRange(base.low, HighKey(key, newId))
    ensures WF(SiblingAt(base, key)) && WF(SplitAt(base, key, newId))
    ensures Replay(SplitAt(base, key, newId)) == set p | p in Replay(base) && p.key < key
    ensures Replay(SiblingAt(base, key)) == set p | p in Replay(base) && key <= p.key
  {
    SuffixAbove(base.items, key);
    var s := SiblingAt(base, key).items;
    forall p | p in s ensures InRange(p.key, LowKey(key), base.high) {
      assert p in Elems(s);
    }
  }

  lemma SplitAtBoundary(base: Leaf, b: nat, newId: NodeId)
    requires base.Base? && WF(base) && GoodSplit(base.items, b)
    ensures var key := base.items[b].key;
            var sibling := Base(LowKey(key), base.items[b..], base.high);
            SplitsCleanly(base, sibling, Split(key, newId, |sibling.items|, base))
  {
    var items := base.items;
    var key := items[b].key;
    BoundaryIsLowerBound(items, b);
    assert items[b] in items && items[b - 1] in items;
    SplitAtKey(base, key, newId);
    PrefixBelow(items, key);
    assert items[..b] + items[b..] == items;
  }
}
