/** Leaf consolidation: CollectAllValuesOnLeaf and its recursion.

    The walk keeps the newest record on each pair in a sorted set and merges that
    set with every base array it reaches. The set is shared by all branches of a
    merged node: records beyond a branch's high key wait in it for the branches
    further right. */
module LeafConsolidation {
  import opened Keys
  import opened LeafChain
  import opened LeafMergeLoop
  import opened ElasticNode
  import opened RecordCut
  import BF = BloomFilter
  import SS = SortedSmallSet

  /** The sorted set and the set of pairs already seen, as one consolidation uses them. */
  class Records {
    const sss: SS.SmallSet<DataNode>
    const seen: BF.Filter<KV>
    ghost const Repr: set<object>
    ghost const room: nat
    ghost var pending: seq<DataNode>
    ghost var noted: set<KV>
    ghost var used: nat

    ghost predicate Valid()
      reads this, Repr
    {
      && Repr == {this, sss, sss.data, seen, seen.data, seen.bits}
      && sss.data as object != seen.data && sss.data as object != seen.bits
      && sss.Valid() && seen.Valid() && sss.less == Before
      && seen.eq == ((a: KV, b: KV) => a == b)
      && sss.data.Length == seen.data.Length == room && sss.endP == seen.count == used
      && pending == sss.Contents() && noted == Elems(seen.Contents())
      && Consistent(pending, noted)
    }

    constructor (size: nat, hash: KV -> bv64)
      ensures Valid() && fresh(Repr) && pending == [] && noted == {} && used == 0 && room == size
    {
      var sssData := new DataNode[size];
      var seenData := new KV[size];
      var s := new SS.SmallSet(sssData, Before, (_, _) => false);
      var f := new BF.Filter(seenData, (a: KV, b: KV) => a == b, hash);
      sss, seen := s, f;
      Repr, room := {this, s, s.data, f, f.data, f.bits}, size;
      pending, noted, used := [], {}, 0;
    }

    /** Keeps the record unless a newer one on the same pair was met before. */
    method Note(d: DataNode)
      requires Valid() && used < room
      modifies Repr
      ensures Valid()
      ensures pending == PendingAfter(old(pending), old(noted), d)
      ensures noted == old(noted) + {d.item} && used <= old(used) + 1
    {
      var known := seen.Exists(d.item);
      if !known {
        Keep(d);
      }
    }

    method Keep(d: DataNode)
      requires Valid() && used < room && d.item !in noted
      modifies Repr
      ensures Valid() && used == old(used) + 1 && noted == old(noted) + {d.item}
      ensures pending == SS.Inserted(old(pending), SS.UpperPos(old(pending), d, Before), d)
    {
      InsertedIsConsistent(pending, noted, d);
      ElemsAppend(seen.Contents(), d.item);
      seen.Insert(d.item);
      sss.InsertNoDedup(d);
      pending, noted, used := sss.Contents(), noted + {d.item}, used + 1;
    }

    method MergeInto(items: seq<KV>, high: High, out: ElasticNode<KV>) returns (ghost r: seq<KV>)
      requires Valid() && SortedByKey(items) && Distinct(items)
      requires Indexed(items, pending[..Cut(pending, RecordKey, high)]) && out !in Repr
      modifies Repr, out
      ensures Valid() && noted == old(noted) && used == old(used)
      ensures pending == old(pending)[Cut(old(pending), RecordKey, high)..]
      ensures out.items == old(out.items) + r && SortedByKey(r) && Distinct(r)
      ensures Elems(r) == Overlaid(Elems(items), old(pending), high)
    {
      r := MergeBase(items, high, sss, out);
      pending := sss.Contents();
    }
  }

  ghost predicate Consistent(s: seq<DataNode>, noted: set<KV>) {
    && SS.SortedBy(s, Before) && DistinctItems(s)
    && ItemsOf(s) <= noted
  }

  ghost function PendingAfter(s: seq<DataNode>, noted: set<KV>, d: DataNode): seq<DataNode> {
    if d.item in noted then s else SS.Inserted(s, SS.UpperPos(s, d, Before), d)
  }

  lemma InsertedIsConsistent(s: seq<DataNode>, noted: set<KV>, d: DataNode)
    requires Consistent(s, noted) && d.item !in noted
    ensures Consistent(SS.Inserted(s, SS.UpperPos(s, d, Before), d), noted + {d.item})
  {
    SS.InsertUpperSorted(s, d, Before);
  }

  // ----- what the recursion keeps -----

  /** Pending records lie at or above the chain, carry true indices below the high key,
      and every noted pair that is not below the chain is still pending. */
  ghost predicate Ready(c: Leaf, s: seq<DataNode>, noted: set<KV>, high: High) {
    && WF(c) && !c.Remove?
    && (forall d :: d in s ==> AtOrAbove(d.item.key, LowOf(c)))
    && (forall d :: d in s && Below(d.item.key, high) ==>
          TrueIndex(BaseFor(c, d.item.key).items, d.item, d.ip))
    && (forall p :: p in noted && AtOrAbove(p.key, LowOf(c)) ==> p in ItemsOf(s))
  }

  /** The pairs of the branch once the noted records are applied to it. */
  ghost function Effective(c: Leaf, s: seq<DataNode>, noted: set<KV>, high: High): set<KV> {
    (set p | p in Replay(c) && p !in noted && Below(p.key, high))
    + (set p | p in InsertedBy(s) && Below(p.key, high))
  }

  lemma InsertedItems(s: seq<DataNode>, u: nat, d: DataNode)
    requires u <= |s|
    ensures forall x :: x in SS.Inserted(s, u, d) <==> x == d || x in s
    ensures ItemsOf(SS.Inserted(s, u, d)) == ItemsOf(s) + {d.item}
    ensures InsertedBy(SS.Inserted(s, u, d)) == InsertedBy(s) + if d.insert then {d.item} else {}
  {
    SS.InsertedMembers(s, u, d);
  }

  ghost function AsRecord(c: Leaf): DataNode
    requires c.Insert? || c.Delete?
  {
    DataNode(c.item, c.ip, c.Insert?)
  }

  /** Walking past a data record and noting it leaves the effective pairs unchanged. */
  lemma NoteKeepsEffective(c: Leaf, s: seq<DataNode>, noted: set<KV>, high: High)
    requires (c.Insert? || c.Delete?) && Ready(c, s, noted, high) && Consistent(s, noted)
    requires HighOf(c) == high
    ensures Effective(c.child, PendingAfter(s, noted, AsRecord(c)), noted + {c.item}, high)
         == Effective(c, s, noted, high)
  {
    if c.item !in noted {
      var d := AsRecord(c);
      InsertedItems(s, SS.UpperPos(s, d, Before), d);
    }
  }

  lemma NoteKeepsRest(s: seq<DataNode>, noted: set<KV>, d: DataNode, high: High)
    requires Below(d.item.key, high)
    ensures Rest(PendingAfter(s, noted, d), RecordKey, high) == Rest(s, RecordKey, high)
  {
    if d.item !in noted {
      RestAfterInsert(s, SS.UpperPos(s, d, Before), d, RecordKey, high);
    }
  }

  lemma NoteKeepsReady(c: Leaf, s: seq<DataNode>, noted: set<KV>, high: High)
    requires (c.Insert? || c.Delete?) && Ready(c, s, noted, high) && Consistent(s, noted)
    requires HighOf(c) == high
    ensures Ready(c.child, PendingAfter(s, noted, AsRecord(c)), noted + {c.item}, high)
    ensures Rest(PendingAfter(s, noted, AsRecord(c)), RecordKey, high) == Rest(s, RecordKey, high)
  {
    NoteKeepsRest(s, noted, AsRecord(c), high);
    if c.item !in noted {
      InsertedItems(s, SS.UpperPos(s, AsRecord(c), Before), AsRecord(c));
    }
  }

  /** At a base array, pending and noted agree on every pair of the array. */
  lemma BaseStep(c: Leaf, s: seq<DataNode>, noted: set<KV>, high: High)
    requires c.Base? && Ready(c, s, noted, high) && Consistent(s, noted)
    ensures SortedByKey(c.items) && Distinct(c.items)
    ensures Indexed(c.items, s[..Cut(s, RecordKey, high)])
    ensures Overlaid(Elems(c.items), s, high) == Effective(c, s, noted, high)
  {
    forall p | p in c.items ensures p in noted <==> p in ItemsOf(s) {
    }
    forall d | d in s[..Cut(s, RecordKey, high)] ensures TrueIndex(c.items, d.item, d.ip) {
      assert Below(d.item.key, high) && d in s;
    }
  }

  lemma RestMembers(s: seq<DataNode>, high: High)
    requires SS.SortedBy(s, Before)
    ensures forall d :: d in Rest(s, RecordKey, high) <==> d in s && !Below(d.item.key, high)
    ensures SS.SortedBy(Rest(s, RecordKey, high), Before)
  {
    SortedIsByKey(s);
    CutMembers(s, RecordKey, high);
  }

  /** noted grew from noted0 by pairs of the range only. */
  ghost predicate Grown(noted0: set<KV>, noted: set<KV>, low: Low, high: High) {
    && noted0 <= noted
    && (forall p :: p in noted && p !in noted0 ==> InRange(p.key, low, high))
  }

  /** After the left branch the recursion is ready for the right branch. */
  lemma RightBranchReady(c: Leaf, s: seq<DataNode>, noted: set<KV>, noted': set<KV>, high: High)
    requires c.Merge? && Ready(c, s, noted, high) && HighOf(c) == high && Consistent(s, noted)
    requires Grown(noted, noted', LowOf(c.child), HighOf(c.child))
    ensures Ready(c.right, Rest(s, RecordKey, HighOf(c.child)), noted', high)
  {
    RestMembers(s, HighOf(c.child));
    WFInfo(c.child);
  }

  lemma LeftBranchReady(c: Leaf, s: seq<DataNode>, noted: set<KV>, high: High)
    requires c.Merge? && Ready(c, s, noted, high) && HighOf(c) == high
    ensures Ready(c.child, s, noted, HighOf(c.child))
  {
    WFInfo(c.right);
  }

  /** Each effective pair of a merged node comes from exactly the branch of its key. */
  lemma BranchOfPair(c: Leaf, s: seq<DataNode>, noted: set<KV>, noted': set<KV>, high: High, p: KV)
    requires c.Merge? && Ready(c, s, noted, high) && HighOf(c) == high && Consistent(s, noted)
    requires Grown(noted, noted', LowOf(c.child), HighOf(c.child))
    ensures var left := Effective(c.child, s, noted, HighOf(c.child));
            var right := Effective(c.right, Rest(s, RecordKey, HighOf(c.child)), noted', high);
            if p.key < c.key
            then p !in right && (p in left <==> p in Effective(c, s, noted, high))
            else p !in left && (p in right <==> p in Effective(c, s, noted, high))
  {
    RestMembers(s, HighOf(c.child));
    WFInfo(c.child);
    WFInfo(c.right);
    MergeBranch(c, p);
    assert p in InsertedBy(Rest(s, RecordKey, HighOf(c.child))) <==> p in InsertedBy(s) && p.key >= c.key;
  }

  /** The two branches together give the effective pairs of the merged node, in key order. */
  lemma BranchesCoverMerge(c: Leaf, s: seq<DataNode>, noted: set<KV>, noted': set<KV>, high: High,
                           l: seq<KV>, r: seq<KV>)
    requires c.Merge? && Ready(c, s, noted, high) && HighOf(c) == high && Consistent(s, noted)
    requires Grown(noted, noted', LowOf(c.child), HighOf(c.child))
    requires SortedByKey(l) && Distinct(l) && SortedByKey(r) && Distinct(r)
    requires Elems(l) == Effective(c.child, s, noted, HighOf(c.child))
    requires Elems(r) == Effective(c.right, Rest(s, RecordKey, HighOf(c.child)), noted', high)
    ensures SortedByKey(l + r) && Distinct(l + r) && Elems(l + r) == Effective(c, s, noted, high)
  {
    forall p: KV
      ensures p in l ==> p.key < c.key
      ensures p in r ==> c.key <= p.key
      ensures p in l || p in r <==> p in Effective(c, s, noted, high)
    {
      BranchOfPair(c, s, noted, noted', high, p);
      assert (p in l <==> p in Elems(l)) && (p in r <==> p in Elems(r));
    }
  }

  // ----- the recursion -----

  /** Everything the descent from c to node keeps. */
  ghost predicate Walked(c: Leaf, node: Leaf, s0: seq<DataNode>, noted0: set<KV>,
                         s: seq<DataNode>, noted: set<KV>, high: High) {
    && Ready(node, s, noted, high) && (HighOf(node) == high || node.Base?) && LowOf(node) == LowOf(c)
    && Effective(node, s, noted, high) == Effective(c, s0, noted0, high)
    && Rest(s, RecordKey, high) == Rest(s0, RecordKey, high)
    && Grown(noted0, noted, LowOf(c), high)
  }

  lemma WalkRecord(c: Leaf, node: Leaf, s0: seq<DataNode>, noted0: set<KV>,
                   s: seq<DataNode>, noted: set<KV>, high: High)
    requires Walked(c, node, s0, noted0, s, noted, high) && Consistent(s, noted)
    requires node.Insert? || node.Delete?
    ensures Walked(c, node.child, s0, noted0, PendingAfter(s, noted, AsRecord(node)),
                   noted + {node.item}, high)
  {
    NoteKeepsReady(node, s, noted, high);
    NoteKeepsEffective(node, s, noted, high);
  }

  lemma WalkSplit(c: Leaf, node: Leaf, s0: seq<DataNode>, noted0: set<KV>,
                  s: seq<DataNode>, noted: set<KV>, high: High)
    requires Walked(c, node, s0, noted0, s, noted, high) && node.Split?
    ensures Walked(c, node.child, s0, noted0, s, noted, high)
  {
    assert Effective(node.child, s, noted, high) == Effective(node, s, noted, high);
  }

  /** Walks down to the base array or the first merge, noting the data records. */
  method Descend(c: Leaf, records: Records) returns (node: Leaf)
    requires records.Valid() && Ready(c, records.pending, records.noted, HighOf(c))
    requires records.used + Depth(c) <= records.room
    modifies records.Repr
    ensures records.Valid() && (node.Base? || node.Merge?) && (node == c || node < c)
    ensures Walked(c, node, old(records.pending), old(records.noted),
                   records.pending, records.noted, HighOf(c))
    ensures records.used + Depth(node) <= old(records.used) + Depth(c)
  {
    node := c;
    while !node.Base? && !node.Merge?
      invariant records.Valid() && (node == c || node < c)
      invariant Walked(c, node, old(records.pending), old(records.noted),
                       records.pending, records.noted, HighOf(c))
      invariant records.used + Depth(node) <= old(records.used) + Depth(c)
      decreases node
    {
      if node.Split? {
        WalkSplit(c, node, old(records.pending), old(records.noted),
                  records.pending, records.noted, HighOf(c));
      } else {
        WalkRecord(c, node, old(records.pending), old(records.noted),
                   records.pending, records.noted, HighOf(c));
        records.Note(DataNode(node.item, node.ip, node.Insert?));
      }
      node := node.child;
    }
  }

  method CollectRecursive(c: Leaf, records: Records, out: ElasticNode<KV>) returns (ghost r: seq<KV>)
    requires records.Valid() && out !in records.Repr
    requires Ready(c, records.pending, records.noted, HighOf(c))
    requires records.used + Depth(c) <= records.room
    modifies records.Repr, out
    ensures records.Valid()
    ensures out.items == old(out.items) + r && SortedByKey(r) && Distinct(r)
    ensures Elems(r) == Effective(c, old(records.pending), old(records.noted), HighOf(c))
    ensures records.pending == Rest(old(records.pending), RecordKey, HighOf(c))
    ensures Grown(old(records.noted), records.noted, LowOf(c), HighOf(c))
    ensures records.used <= old(records.used) + Depth(c)
    decreases c, 1
  {
    var node := Descend(c, records);
    if node.Base? {
      BaseStep(node, records.pending, records.noted, HighOf(c));
      r := records.MergeInto(node.items, HighOf(c), out);
    } else {
      r := CollectBranches(node, records, out);
    }
  }

  /** The LeafMergeType case: the left branch, then the right branch. */
  method CollectBranches(c: Leaf, records: Records, out: ElasticNode<KV>) returns (ghost r: seq<KV>)
    requires c.Merge? && records.Valid() && out !in records.Repr
    requires Ready(c, records.pending, records.noted, HighOf(c))
    requires records.used + Depth(c) <= records.room
    modifies records.Repr, out
    ensures records.Valid()
    ensures out.items == old(out.items) + r && SortedByKey(r) && Distinct(r)
    ensures Elems(r) == Effective(c, old(records.pending), old(records.noted), HighOf(c))
    ensures records.pending == Rest(old(records.pending), RecordKey, HighOf(c))
    ensures Grown(old(records.noted), records.noted, LowOf(c), HighOf(c))
    ensures records.used <= old(records.used) + Depth(c)
    decreases c, 0
  {
    ghost var s, noted, high := records.pending, records.noted, HighOf(c);
    LeftBranchReady(c, s, noted, high);
    ghost var l := CollectRecursive(c.child, records, out);
    ghost var noted' := records.noted;
    RightBranchReady(c, s, noted, noted', high);
    ghost var r2 := CollectRecursive(c.right, records, out);
    BranchesCoverMerge(c, s, noted, noted', high, l, r2);
    AppendAssoc(old(out.items), l, r2);
    WFInfo(c.child);
    WFInfo(c.right);
    RestRest(s, RecordKey, HighOf(c.child), high);
    r := l + r2;
  }

  /** A sorted array of exactly the live pairs is a well-formed replacement base. */
  lemma ConsolidatedBase(c: Leaf, items: seq<KV>)
    requires WF(c) && SortedByKey(items) && Distinct(items) && Elems(items) == Replay(c)
    ensures WF(Base(LowOf(c), items, HighOf(c))) && |items| == ItemCount(c)
  {
    WFInfo(c);
    assert forall p :: p in items ==> p in Elems(items);
    ItemCountIsLiveCount(c);
    DistinctElemsSize(items);
  }

  lemma NothingNotedYet(c: Leaf)
    requires WF(c) && !c.Remove?
    ensures Ready(c, [], {}, HighOf(c)) && Effective(c, [], {}, HighOf(c)) == Replay(c)
  {
    WFInfo(c);
  }

  /** CollectAllValuesOnLeaf: the new base array is key-sorted, holds exactly the live
      pairs of the chain, each once, and fills the allotted item count. */
  method CollectAllValuesOnLeaf(c: Leaf, hash: KV -> bv64) returns (base: Leaf)
    requires WF(c) && !c.Remove?
    ensures base.Base? && WF(base) && Replay(base) == Replay(c)
    ensures LowOf(base) == LowOf(c) && HighOf(base) == HighOf(c)
    ensures |base.items| == ItemCount(c)
  {
    var out := new ElasticNode<KV>(ItemCount(c));
    var records := new Records(Depth(c), hash);
    NothingNotedYet(c);
    ghost var r := CollectRecursive(c, records, out);
    assert out.items == r;
    ConsolidatedBase(c, r);
    base := Base(LowOf(c), out.items, HighOf(c));
  }
}
