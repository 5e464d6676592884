/** Leaf delta chains: an immutable stack of delta records over sorted base arrays.

    The metadata every record carries (low key, high key, depth, item count) is
    fixed by its constructor from the records below it, so here it is a function
    of the chain. Replay gives a chain its meaning, and WF says what holds of
    every chain the tree builds: each data record was posted with its true index,
    a split or remove record sits directly on a base array, and the key of a
    merge is the high key of its left branch.
 */
module LeafChain {
  import opened Keys

  /** Position of an item in the base array under it. If the base array holds the
      very pair, overwrites is true and index is its slot; otherwise index is the
      first slot with a larger key. */
  datatype IndexPair = IndexPair(index: nat, overwrites: bool)

  datatype Leaf =
    | Base(low: Low, items: seq<KV>, high: High)
    | Insert(item: KV, ip: IndexPair, child: Leaf)
    | Delete(item: KV, ip: IndexPair, child: Leaf)
    | Split(key: Key, sibling: NodeId, siblingCount: nat, child: Leaf)
    | Merge(key: Key, removedId: NodeId, child: Leaf, right: Leaf)
    | Remove(ownId: NodeId, child: Leaf)

  // ----- metadata set by the constructors -----

  function LowOf(c: Leaf): Low {
    if c.Base? then c.low else LowOf(c.child)
  }

  function HighOf(c: Leaf): High {
    match c
    case Base(_, _, high) => high
    case Split(key, sibling, _, _) => HighKey(key, sibling)
    case Merge(_, _, _, right) => HighOf(right)
    case _ => HighOf(c.child)
  }

  function Depth(c: Leaf): nat {
    match c
    case Base(_, _, _) => 0
    case Insert(_, _, child) => Depth(child) + 1
    case Delete(_, _, child) => Depth(child) + 1
    case Merge(_, _, child, right) => Depth(child) + Depth(right)
    case _ => Depth(c.child)
  }

  function ItemCount(c: Leaf): int {
    match c
    case Base(_, items, _) => |items|
    case Insert(_, _, child) => ItemCount(child) + 1
    case Delete(_, _, child) => ItemCount(child) - 1
    case Split(_, _, siblingCount, child) => ItemCount(child) - siblingCount
    case Merge(_, _, child, right) => ItemCount(child) + ItemCount(right)
    case Remove(_, child) => ItemCount(child)
  }

  // ----- meaning -----

  /** The live pairs of the logical node: the newest record on a pair wins. */
  ghost function Replay(c: Leaf): set<KV> {
    match c
    case Base(_, items, _) => Elems(items)
    case Insert(item, _, child) => Replay(child) + {item}
    case Delete(item, _, child) => Replay(child) - {item}
    case Split(key, _, _, child) => set p | p in Replay(child) && p.key < key
    case Merge(_, _, child, right) => Replay(child) + Replay(right)
    case Remove(_, child) => Replay(child)
  }

  /** The base array that holds the slot of key k. */
  function BaseFor(c: Leaf, k: Key): (b: Leaf)
    ensures b.Base?
  {
    match c
    case Base(_, _, _) => c
    case Merge(key, _, child, right) => if k >= key then BaseFor(right, k) else BaseFor(child, k)
    case _ => BaseFor(c.child, k)
  }

  ghost predicate TrueIndex(items: seq<KV>, item: KV, ip: IndexPair) {
    if ip.overwrites then
      ip.index < |items| && items[ip.index] == item
    else
      && item !in items && ip.index <= |items|
      && (forall j :: 0 <= j < ip.index ==> items[j].key <= item.key)
      && (forall j :: ip.index <= j < |items| ==> item.key < items[j].key)
  }

  ghost predicate WFBase(c: Leaf)
    requires c.Base?
  {
    && SortedByKey(c.items) && Distinct(c.items)
    && (forall p :: p in c.items ==> InRange(p.key, c.low, c.high))
    && NonEmptyRange(c.low, c.high)
  }

  ghost predicate WF(c: Leaf) {
    match c
    case Base(_, _, _) => WFBase(c)
    case Insert(item, ip, child) =>
      && WF(child) && !child.Remove? && InRange(item.key, LowOf(child), HighOf(child))
      && TrueIndex(BaseFor(child, item.key).items, item, ip)
      && item !in Replay(child)
    case Delete(item, ip, child) =>
      && WF(child) && !child.Remove? && InRange(item.key, LowOf(child), HighOf(child))
      && TrueIndex(BaseFor(child, item.key).items, item, ip)
      && item in Replay(child)
    case Split(key, _, siblingCount, child) =>
      && child.Base? && WFBase(child)
      && InRange(key, child.low, child.high) && NonEmptyRange(child.low, HighKey(key, 0))
      && siblingCount == |child.items| - LowerBound(child.items, key)
    case Merge(key, removedId, child, right) =>
      && WF(child) && WF(right) && !child.Remove? && !right.Remove?
      && HighOf(child) == HighKey(key, removedId) && LowOf(right) == LowKey(key)
    case Remove(_, child) => child.Base? && WFBase(child)
  }

  lemma WFInfo(c: Leaf)
    requires WF(c)
    ensures NonEmptyRange(LowOf(c), HighOf(c))
    ensures forall p :: p in Replay(c) ==> InRange(p.key, LowOf(c), HighOf(c))
  {
    match c {
      case Base(_, _, _) =>
      case Merge(_, _, child, right) => WFInfo(child); WFInfo(right);
      case _ => WFInfo(c.child);
    }
  }

  /** A pair is live in a merged node exactly when it is live in its key's branch. */
  lemma MergeBranch(c: Leaf, p: KV)
    requires WF(c) && c.Merge?
    ensures p in Replay(c) <==> p in Replay(if p.key >= c.key then c.right else c.child)
  {
    WFInfo(c.child);
    WFInfo(c.right);
  }

  lemma BaseForWF(c: Leaf, k: Key)
    requires WF(c)
    ensures WFBase(BaseFor(c, k))
  {
  }

  // ----- item_count and depth -----

  ghost function DataRecords(c: Leaf): nat {
    match c
    case Base(_, _, _) => 0
    case Insert(_, _, child) => 1 + DataRecords(child)
    case Delete(_, _, child) => 1 + DataRecords(child)
    case Merge(_, _, child, right) => DataRecords(child) + DataRecords(right)
    case _ => DataRecords(c.child)
  }

  lemma PrefixBelow(items: seq<KV>, key: Key)
    requires SortedByKey(items)
    ensures Elems(items[..LowerBound(items, key)]) == (set p | p in Elems(items) && p.key < key)
  {
    var n := LowerBound(items, key);
    forall p | p in items && p.key < key ensures p in items[..n] {
      var i :| 0 <= i < |items| && items[i] == p;
      assert i < n;
      assert items[..n][i] == p;
    }
  }

  /** On every well-formed chain item_count is the number of live pairs and depth
      the number of data records, so arrays sized by them never overflow. */
  lemma {:induction false} ItemCountIsLiveCount(c: Leaf)
    requires WF(c)
    ensures ItemCount(c) == |Replay(c)|
    ensures Depth(c) == DataRecords(c)
  {
    match c {
      case Base(_, items, _) => DistinctElemsSize(items);
      case Insert(_, _, child) => ItemCountIsLiveCount(child);
      case Delete(_, _, child) => ItemCountIsLiveCount(child);
      case Remove(_, child) => ItemCountIsLiveCount(child);
      case Split(key, _, _, child) =>
        var n := LowerBound(child.items, key);
        PrefixBelow(child.items, key);
        DistinctElemsSize(child.items[..n]);
        assert Replay(c) == Elems(child.items[..n]);
      case Merge(_, _, child, right) =>
        ItemCountIsLiveCount(child);
        ItemCountIsLiveCount(right);
        WFInfo(child);
        WFInfo(right);
        assert Replay(child) !! Replay(right);
    }
  }
}
