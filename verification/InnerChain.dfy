/** Inner delta chains: separators (key, child id) sorted by key.

    The first separator of a node is a placeholder for its low key. In the leftmost
    node of a level its key is garbage that must never be compared, so nothing here
    says anything about that key unless the low key is a real one. */
module InnerChain {
  import opened Keys

  /** location is the slot in the base array under the record that the key divides. */
  datatype Inner =
    | Base(low: Low, seps: seq<Sep>, high: High, baseDepth: nat)
    | Insert(item: Sep, next: High, location: nat, child: Inner)
    | Delete(item: Sep, prev: Sep, next: High, location: nat, child: Inner)
    | Split(key: Key, sibling: NodeId, siblingCount: nat, child: Inner)
    | Merge(key: Key, removedId: NodeId, child: Inner, right: Inner)
    | Remove(ownId: NodeId, child: Inner)
    | Abort(child: Inner)

  // ----- metadata set by the constructors -----

  function LowOf(c: Inner): Low {
    if c.Base? then c.low else LowOf(c.child)
  }

  function HighOf(c: Inner): High {
    match c
    case Base(_, _, high, _) => high
    case Split(key, sibling, _, _) => HighKey(key, sibling)
    case Merge(_, _, _, right) => HighOf(right)
    case _ => HighOf(c.child)
  }

  function Depth(c: Inner): nat {
    match c
    case Base(_, _, _, depth) => depth
    case Insert(_, _, _, child) => Depth(child) + 1
    case Delete(_, _, _, _, child) => Depth(child) + 1
    case Merge(_, _, child, right) => Depth(child) + Depth(right)
    case _ => Depth(c.child)
  }

  function ItemCount(c: Inner): int {
    match c
    case Base(_, seps, _, _) => |seps|
    case Insert(_, _, _, child) => ItemCount(child) + 1
    case Delete(_, _, _, _, child) => ItemCount(child) - 1
    case Split(_, _, siblingCount, child) => ItemCount(child) - siblingCount
    case Merge(_, _, child, right) => ItemCount(child) + ItemCount(right)
    case _ => ItemCount(c.child)
  }

  /** The base array whose memory the low key pointer leads to. */
  function LeftmostBase(c: Inner): (b: Inner)
    ensures b.Base?
  {
    if c.Base? then c else LeftmostBase(c.child)
  }

  function BaseFor(c: Inner, k: Key): (b: Inner)
    ensures b.Base?
  {
    match c
    case Base(_, _, _, _) => c
    case Merge(key, _, child, right) => if k >= key then BaseFor(right, k) else BaseFor(child, k)
    case _ => BaseFor(c.child, k)
  }

  // ----- separator arrays -----

  /** Last slot whose key is <= k, slot 0 matching everything. */
  function Locate(s: seq<Sep>, k: Key, from: nat := 0): (i: nat)
    requires from < |s|
    ensures from <= i < |s|
    ensures forall j :: from < j <= i ==> s[j].key <= k
    ensures i + 1 < |s| ==> k < s[i + 1].key
    decreases |s| - from
  {
    if from + 1 < |s| && s[from + 1].key <= k then Locate(s, k, from + 1) else from
  }

  /** std::lower_bound over s[from..]. */
  function SepLower(s: seq<Sep>, k: Key, from: nat): (i: nat)
    requires from <= |s|
    ensures from <= i <= |s|
    ensures forall j :: from <= j < i ==> s[j].key < k
    ensures i < |s| ==> k <= s[i].key
    decreases |s| - from
  {
    if from == |s| || k <= s[from].key then from else SepLower(s, k, from + 1)
  }

  function InsertSep(s: seq<Sep>, item: Sep): (r: seq<Sep>)
    requires s != []
    ensures var p := Locate(s, item.key);
            && |r| == |s| + 1 && r[p + 1] == item
            && (forall j {:trigger r[j]} :: 0 <= j <= p ==> r[j] == s[j])
            && (forall j {:trigger r[j]} :: p + 1 < j < |r| ==> r[j] == s[j - 1])
  {
    var p := Locate(s, item.key);
    s[..p + 1] + [item] + s[p + 1..]
  }

  function DeleteSep(s: seq<Sep>, k: Key): (r: seq<Sep>)
    requires s != []
    ensures var p := Locate(s, k);
            && |r| == |s| - 1
            && (forall j {:trigger r[j]} :: 0 <= j < p ==> r[j] == s[j])
            && (forall j {:trigger r[j]} :: p <= j < |r| ==> r[j] == s[j + 1])
  {
    var p := Locate(s, k);
    s[..p] + s[p + 1..]
  }

  /** Strictly sorted from slot 1 on, inside (low, high), the first id used only once. */
  ghost predicate SepsOk(s: seq<Sep>, low: Low, high: High) {
    && s != []
    && (low.LowKey? ==> s[0].key == low.key)
    && (forall i, j :: 1 <= i < j < |s| ==> s[i].key < s[j].key)
    && (forall i :: 1 <= i < |s| ==> AboveLow(s[i].key, low) && Below(s[i].key, high))
    && (forall i :: 1 <= i < |s| ==> s[i].id != s[0].id)
    && NonEmptyRange(low, high)
  }

  // ----- meaning -----

  /** The separators of the logical node. */
  ghost function Replay(c: Inner): (s: seq<Sep>)
  {
    match c
    case Base(_, seps, _, _) => seps
    case Insert(item, _, _, child) =>
      if Replay(child) == [] then [] else InsertSep(Replay(child), item)
    case Delete(item, _, _, _, child) =>
      if Replay(child) == [] then [] else DeleteSep(Replay(child), item.key)
    case Split(key, _, _, child) =>
      if Replay(child) == [] then [] else Replay(child)[..SepLower(Replay(child), key, 1)]
    case Merge(_, _, child, right) => Replay(child) + Replay(right)
    case _ => Replay(c.child)
  }

  function LowId(c: Inner): NodeId
    requires LeftmostBase(c).seps != []
  {
    LeftmostBase(c).seps[0].id
  }

  /** First ids of all base arrays under the chain. */
  ghost function FirstIds(c: Inner): set<NodeId> {
    match c
    case Base(_, seps, _, _) => if seps == [] then {} else {seps[0].id}
    case Merge(_, _, child, right) => FirstIds(child) + FirstIds(right)
    case _ => FirstIds(c.child)
  }

  /** The slot recorded for key k: lower bound in its base array, where the placeholder
      slot of the node's own low key does not take part. */
  function LocationIn(b: Inner, lowId: NodeId, k: Key): nat
    requires b.Base? && b.seps != []
  {
    SepLower(b.seps, k, if b.seps[0].id == lowId then 1 else 0)
  }

  /** next is the separator after slot p, or the high key if there is none. */
  ghost predicate NextIs(next: High, s: seq<Sep>, p: nat, high: High) {
    if p + 1 < |s| then next.HighKey? && next.key == s[p + 1].key
    else if high.PosInf? then next.PosInf?
    else next.HighKey? && next.key == high.key
  }

  ghost predicate Clean(c: Inner) {
    !c.Remove? && !c.Abort?
  }

  ghost predicate WF(c: Inner)
    ensures WF(c) ==> LeftmostBase(c).seps != []
  {
    match c
    case Base(low, seps, high, _) => SepsOk(seps, low, high)
    case Insert(item, next, location, child) =>
      && WF(child) && Clean(child) && Replay(child) != []
      && AboveLow(item.key, LowOf(child)) && Below(item.key, HighOf(child))
      && item.id != LowId(child)
      && var s := Replay(child);
         var p := Locate(s, item.key);
         && (p > 0 ==> s[p].key != item.key)
         && NextIs(next, s, p, HighOf(child))
         && BaseFor(child, item.key).seps != []
         && location == LocationIn(BaseFor(child, item.key), LowId(child), item.key)
    case Delete(item, prev, next, location, child) =>
      && WF(child) && Clean(child) && Replay(child) != []
      && AboveLow(item.key, LowOf(child)) && Below(item.key, HighOf(child))
      && var s := Replay(child);
         var p := Locate(s, item.key);
         && p > 0 && s[p] == item
         && prev.id == s[p - 1].id && (p > 1 ==> prev.key == s[p - 1].key)
         && NextIs(next, s, p, HighOf(child))
         && BaseFor(child, item.key).seps != []
         && location == LocationIn(BaseFor(child, item.key), LowId(child), item.key)
    case Split(key, _, siblingCount, child) =>
      && child.Base? && SepsOk(child.seps, child.low, child.high)
      && AboveLow(key, child.low) && Below(key, child.high)
      && siblingCount == |child.seps| - SepLower(child.seps, key, 1)
    case Merge(key, removedId, child, right) =>
      && WF(child) && WF(right) && Clean(child) && Clean(right)
      && HighOf(child) == HighKey(key, removedId) && LowOf(right) == LowKey(key)
      && LowId(child) !in FirstIds(right)
      && (forall s :: s in Replay(right) ==> s.id != LowId(child))
    case Remove(_, child) => child.Base? && SepsOk(child.seps, child.low, child.high)
    case Abort(child) => WF(child) && Clean(child)
  }

  // ----- basic facts -----

  lemma LocateIs(s: seq<Sep>, k: Key, i: nat)
    requires forall a, b :: 1 <= a < b < |s| ==> s[a].key < s[b].key
    requires i < |s| && (i > 0 ==> s[i].key <= k) && (i + 1 < |s| ==> k < s[i + 1].key)
    ensures Locate(s, k) == i
  {
    var p := Locate(s, k);
  }

  lemma InsertSepOk(s: seq<Sep>, item: Sep, low: Low, high: High)
    requires SepsOk(s, low, high) && AboveLow(item.key, low) && Below(item.key, high)
    requires item.id != s[0].id
    requires var p := Locate(s, item.key); p > 0 ==> s[p].key != item.key
    ensures SepsOk(InsertSep(s, item), low, high) && |InsertSep(s, item)| == |s| + 1
    ensures InsertSep(s, item)[0] == s[0]
  {
    var p, r := Locate(s, item.key), InsertSep(s, item);
    AroundInserted(s, item);
    forall i, j | 1 <= i < j < |r| ensures r[i].key < r[j].key {
      InsertedPair(s, item, i, j);
    }
    forall i | 1 <= i < |r| ensures r[i] == item || exists j :: 1 <= j < |s| && r[i] == s[j] {
      assert r[i] == if i <= p then s[i] else if i == p + 1 then item else s[i - 1];
    }
  }

  lemma AroundInserted(s: seq<Sep>, item: Sep)
    requires s != [] && forall a, b :: 1 <= a < b < |s| ==> s[a].key < s[b].key
    requires var p := Locate(s, item.key); p > 0 ==> s[p].key != item.key
    ensures forall i :: 1 <= i <= Locate(s, item.key) ==> s[i].key < item.key
    ensures forall i :: Locate(s, item.key) < i < |s| ==> item.key < s[i].key
  {
  }

  lemma InsertedPair(s: seq<Sep>, item: Sep, i: nat, j: nat)
    requires s != [] && 1 <= i < j <= |s|
    requires forall a, b :: 1 <= a < b < |s| ==> s[a].key < s[b].key
    requires forall a :: 1 <= a <= Locate(s, item.key) ==> s[a].key < item.key
    requires forall a :: Locate(s, item.key) < a < |s| ==> item.key < s[a].key
    ensures InsertSep(s, item)[i].key < InsertSep(s, item)[j].key
  {
    var p := Locate(s, item.key);
    if j <= p {
    } else if i > p + 1 {
      assert s[i - 1].key < s[j - 1].key;
    } else if i <= p && j > p + 1 {
      assert s[i].key < item.key < s[j - 1].key;
    }
  }

  lemma DeleteSepOk(s: seq<Sep>, k: Key, low: Low, high: High)
    requires SepsOk(s, low, high) && Locate(s, k) > 0
    ensures SepsOk(DeleteSep(s, k), low, high) && |DeleteSep(s, k)| == |s| - 1
    ensures DeleteSep(s, k)[0] == s[0]
  {
    var r := DeleteSep(s, k);
  }

  lemma SplitSepsOk(s: seq<Sep>, key: Key, sibling: NodeId, low: Low, high: High)
    requires SepsOk(s, low, high) && AboveLow(key, low) && Below(key, high)
    ensures SepsOk(s[..SepLower(s, key, 1)], low, HighKey(key, sibling))
  {
  }

  lemma MergeSepsOk(l: seq<Sep>, r: seq<Sep>, low: Low, key: Key, removedId: NodeId, high: High)
    requires SepsOk(l, low, HighKey(key, removedId)) && SepsOk(r, LowKey(key), high)
    requires forall s :: s in r ==> s.id != l[0].id
    ensures SepsOk(l + r, low, high)
  {
    var m := l + r;
    forall i, j | 1 <= i < j < |m| ensures m[i].key < m[j].key {
      assert j >= |l| ==> key <= m[j].key;
      assert i < |l| ==> m[i].key < key;
    }
    forall i | 1 <= i < |m| ensures AboveLow(m[i].key, low) && Below(m[i].key, high) && m[i].id != m[0].id {
      if i >= |l| {
        assert m[i] in r && key <= m[i].key;
      }
    }
  }

  /** item_count is the number of separators, and the list is properly sorted. */
  lemma {:induction false} ReplayOk(c: Inner)
    requires WF(c)
    ensures SepsOk(Replay(c), LowOf(c), HighOf(c))
    ensures Replay(c)[0] == LeftmostBase(c).seps[0]
    ensures ItemCount(c) == |Replay(c)|
  {
    match c {
      case Base(_, _, _, _) =>
      case Insert(item, _, _, child) =>
        ReplayOk(child);
        InsertSepOk(Replay(child), item, LowOf(child), HighOf(child));
      case Delete(item, _, _, _, child) =>
        ReplayOk(child);
        DeleteSepOk(Replay(child), item.key, LowOf(child), HighOf(child));
      case Split(key, sibling, _, child) =>
        SplitSepsOk(child.seps, key, sibling, child.low, child.high);
      case Merge(key, removedId, child, right) =>
        ReplayOk(child);
        ReplayOk(right);
        MergeSepsOk(Replay(child), Replay(right), LowOf(child), key, removedId, HighOf(right));
      case Remove(_, child) => ReplayOk(child);
      case Abort(child) => ReplayOk(child);
    }
  }

  ghost function DataRecords(c: Inner): nat {
    match c
    case Base(_, _, _, _) => 0
    case Insert(_, _, _, child) => 1 + DataRecords(child)
    case Delete(_, _, _, _, child) => 1 + DataRecords(child)
    case Merge(_, _, child, right) => DataRecords(child) + DataRecords(right)
    case _ => DataRecords(c.child)
  }

  /** The depths that the base arrays of the chain started with. */
  ghost function BaseDepths(c: Inner): nat {
    match c
    case Base(_, _, _, depth) => depth
    case Merge(_, _, child, right) => BaseDepths(child) + BaseDepths(right)
    case _ => BaseDepths(c.child)
  }

  /** depth counts the data records from the depths of the bases on, so an array sized by it
      has room for all of them. */
  lemma {:induction false} DepthCountsRecords(c: Inner)
    ensures Depth(c) == DataRecords(c) + BaseDepths(c)
  {
    match c {
      case Base(_, _, _, _) =>
      case Merge(_, _, child, right) => DepthCountsRecords(child); DepthCountsRecords(right);
      case _ => DepthCountsRecords(c.child);
    }
  }

  lemma BaseForOk(c: Inner, k: Key)
    requires WF(c)
    ensures BaseFor(c, k).seps != []
    ensures SepsOk(BaseFor(c, k).seps, BaseFor(c, k).low, BaseFor(c, k).high)
  {
  }
}
