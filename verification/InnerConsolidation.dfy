/** Inner consolidation: CollectAllSepsOnInner and its recursion. The sorted set keeps
    the newest record per key and is shared by all branches of a merged node. */
module InnerConsolidation {
  import opened Keys
  import opened InnerChain
  import opened InnerBody
  import opened InnerMergeLoop
  import opened ElasticNode
  import opened RecordCut
  import SS = SortedSmallSet

  // ----- the set with its invariant -----

  lemma KeyOrderIsWeakOrder()
    ensures SS.StrictWeakOrder(KeyBefore)
  {
  }

  /** The set after Insert(d): unchanged if a newer record on the key is there. */
  ghost function After(s: seq<SepRecord>, d: SepRecord): seq<SepRecord> {
    if d.item.key in KeysOf(s) then s else SS.Inserted(s, SS.LowerPos(s, d, KeyBefore), d)
  }

  lemma InsertIsAfter(s: seq<SepRecord>, d: SepRecord)
    requires Ordered(s)
    ensures var i := SS.LowerPos(s, d, KeyBefore);
            After(s, d) == if i < |s| && SameKey(s[i], d) then s else SS.Inserted(s, i, d)
    ensures Ordered(After(s, d))
  {
    var i := SS.LowerPos(s, d, KeyBefore);
    if d.item.key in KeysOf(s) {
      var r :| r in s && r.item.key == d.item.key;
      var j :| 0 <= j < |s| && s[j] == r;
      assert i <= j;
      assert !KeyBefore(s[i], d);
    } else {
      assert i < |s| ==> s[i] in s;
      KeyOrderIsWeakOrder();
      assert SS.StrictlySortedBy(s, KeyBefore);
      SS.InsertLowerSorted(s, d, KeyBefore);
    }
  }

  class Records {
    const sss: SS.SmallSet<SepRecord>
    ghost const Repr: set<object>
    ghost const room: nat
    ghost var pending: seq<SepRecord>
    ghost var used: nat

    ghost predicate Valid()
      reads this, Repr
    {
      && Repr == {this, sss, sss.data}
      && sss.Valid() && sss.less == KeyBefore && sss.eq == SameKey
      && sss.data.Length == room && sss.endP == used
      && pending == sss.Contents() && Ordered(pending)
    }

    constructor (size: nat)
      ensures Valid() && fresh(Repr) && pending == [] && used == 0 && room == size
    {
      var data := new SepRecord[size];
      var s := new SS.SmallSet(data, KeyBefore, SameKey);
      sss := s;
      Repr, room, pending, used := {this, s, s.data}, size, [], 0;
    }

    method Note(d: SepRecord)
      requires Valid() && used < room
      modifies Repr
      ensures Valid() && pending == After(old(pending), d) && used <= old(used) + 1
    {
      InsertIsAfter(pending, d);
      sss.Insert(d);
      pending, used := sss.Contents(), sss.endP;
    }

    /** First record at or above the high key, searched from the end. */
    method FindEnd(high: High) returns (end: nat)
      requires Valid()
      ensures end == sss.startP + Cut(pending, RecordKey, high)
    {
      end := sss.endP;
      while end > sss.startP && !Below(sss.data[end - 1].item.key, high)
        invariant sss.startP <= end <= sss.endP
        invariant forall j :: end - sss.startP <= j < |pending| ==> !Below(pending[j].item.key, high)
      {
        end := end - 1;
      }
      CutIs(pending, RecordKey, high, end - sss.startP);
    }

    method MergeInto(seps: seq<Sep>, high: High, out: ElasticNode<Sep>) returns (ghost r: seq<Sep>)
      requires Valid() && KeySorted(seps) && out !in Repr
      modifies Repr, out
      ensures Valid() && used == old(used) && pending == Rest(old(pending), RecordKey, high)
      ensures out.items == old(out.items) + r && KeySorted(r)
      ensures var a := old(pending)[..Cut(old(pending), RecordKey, high)];
              Elems(r) == Kept(seps, a, |seps|) + InsertedBy(a)
    {
      var end := FindEnd(high);
      CutMembers(pending, RecordKey, high);
      r := MergeSeps(seps, sss, end, pending[..Cut(pending, RecordKey, high)], out);
      pending := sss.Contents();
    }
  }

  // ----- what the recursion keeps -----

  ghost predicate Ready(c: Inner, lowId: NodeId, s: seq<SepRecord>) {
    && WF(c) && Clean(c) && LowIdOk(c, lowId)
    && (forall r :: r in s ==> AtOrAbove(r.item.key, LowOf(c)))
  }

  /** Separators after the pending records below the high key are applied to them. */
  ghost function Applied(body: set<Sep>, s: seq<SepRecord>, high: High): set<Sep> {
    (set x | x in body && x.key !in KeysOf(s) && Below(x.key, high))
    + (set x | x in InsertedBy(s) && Below(x.key, high))
  }

  ghost function Effective(c: Inner, lowId: NodeId, s: seq<SepRecord>, high: High): set<Sep>
    requires WF(c)
  {
    Applied(Body(c, lowId), s, high)
  }

  ghost function AsRecord(c: Inner): SepRecord
    requires c.Insert? || c.Delete?
  {
    SepRecord(c.item, c.Insert?)
  }

  lemma AfterMembers(s: seq<SepRecord>, d: SepRecord)
    requires d.item.key !in KeysOf(s)
    ensures forall x :: x in After(s, d) <==> x == d || x in s
    ensures KeysOf(After(s, d)) == KeysOf(s) + {d.item.key}
    ensures InsertedBy(After(s, d)) == InsertedBy(s) + if d.insert then {d.item} else {}
  {
    SS.InsertedMembers(s, SS.LowerPos(s, d, KeyBefore), d);
  }

  /** Recording d changes nothing when the older separators differ from the newer
      ones only in d's own key, where d decides. */
  lemma AppliedAfterNote(older: set<Sep>, newer: set<Sep>, s: seq<SepRecord>, d: SepRecord, high: High)
    requires Below(d.item.key, high)
    requires forall x: Sep :: x.key != d.item.key ==> (x in older <==> x in newer)
    requires forall x: Sep :: x.key == d.item.key ==> (x in newer <==> d.insert && x == d.item)
    ensures Applied(older, After(s, d), high) == Applied(newer, s, high)
  {
    if d.item.key !in KeysOf(s) {
      AfterMembers(s, d);
      forall x | x in InsertedBy(s) ensures x.key != d.item.key {
        assert x.key in KeysOf(s);
      }
    }
  }

  lemma NoteKeepsEffective(c: Inner, lowId: NodeId, s: seq<SepRecord>, high: High)
    requires (c.Insert? || c.Delete?) && Ready(c, lowId, s) && HighOf(c) == high
    ensures WF(c.child) && Effective(c.child, lowId, After(s, AsRecord(c)), high) == Effective(c, lowId, s, high)
  {
    if c.Insert? { BodyOfInsert(c, lowId); } else { BodyOfDelete(c, lowId); }
    forall x: Sep | x.key == c.item.key ensures x in Body(c, lowId) <==> c.Insert? && x == c.item {
      RecordOwnsKey(c, lowId, x);
    }
    AppliedAfterNote(Body(c.child, lowId), Body(c, lowId), s, AsRecord(c), high);
  }

  lemma RestAfterNote(s: seq<SepRecord>, d: SepRecord, high: High)
    requires Ordered(s) && Below(d.item.key, high)
    ensures Rest(After(s, d), RecordKey, high) == Rest(s, RecordKey, high)
  {
    if d.item.key !in KeysOf(s) {
      var u := SS.LowerPos(s, d, KeyBefore);
      RecordCut.RestAfterInsert(s, u, d, RecordKey, high);
    }
  }

  // ----- the base array -----

  /** copy_end_it: the first slot at or above the high key, the placeholder never cut. */
  function CopyEnd(b: Inner, high: High): (n: nat)
    requires b.Base? && b.seps != []
    ensures 1 <= n <= |b.seps|
  {
    if high.PosInf? then |b.seps| else SepLower(b.seps, high.key, 1)
  }

  lemma SliceIsCutBody(b: Inner, lowId: NodeId, high: High)
    requires b.Base? && WF(b) && LowIdOk(b, lowId) && (high.HighKey? ==> AboveLow(high.key, b.low))
    ensures var slice := b.seps[FirstReal(b, lowId)..CopyEnd(b, high)];
            KeySorted(slice) && Elems(slice) == set x | x in Body(b, lowId) && Below(x.key, high)
  {
    var n, m := FirstReal(b, lowId), CopyEnd(b, high);
    var r := b.seps[..m];
    SuffixSorted(b.seps, n, b.low, b.high);
    FromSuffix(r, n);
    assert b.seps[n..m] == r[n..];
    if high.PosInf? {
      assert r == b.seps;
    } else {
      FromCut(b.seps, high.key, n, b.low, b.high);
    }
  }

  lemma MergedIsApplied(slice: seq<Sep>, s: seq<SepRecord>, high: High, body: set<Sep>)
    requires Ordered(s) && Elems(slice) == set x | x in body && Below(x.key, high)
    ensures var a := s[..Cut(s, RecordKey, high)];
            Kept(slice, a, |slice|) + InsertedBy(a) == Applied(body, s, high)
  {
    var a := s[..Cut(s, RecordKey, high)];
    CutMembers(s, RecordKey, high);
    forall x: Sep
      ensures x in Kept(slice, a, |slice|) <==> x in body && x.key !in KeysOf(s) && Below(x.key, high)
    {
      assert x in slice <==> x in Elems(slice);
      assert Below(x.key, high) ==> (x.key in KeysOf(a) <==> x.key in KeysOf(s));
    }
    assert InsertedBy(a) == set x | x in InsertedBy(s) && Below(x.key, high);
  }

  lemma BaseStep(b: Inner, lowId: NodeId, s: seq<SepRecord>, high: High)
    requires b.Base? && Ready(b, lowId, s) && Ordered(s)
    requires high.HighKey? ==> AboveLow(high.key, b.low)
    ensures var slice := b.seps[FirstReal(b, lowId)..CopyEnd(b, high)];
            var a := s[..Cut(s, RecordKey, high)];
            KeySorted(slice) && Kept(slice, a, |slice|) + InsertedBy(a) == Effective(b, lowId, s, high)
  {
    SliceIsCutBody(b, lowId, high);
    MergedIsApplied(b.seps[FirstReal(b, lowId)..CopyEnd(b, high)], s, high, Body(b, lowId));
  }

  // ----- branches -----

  lemma RightBranchReady(c: Inner, lowId: NodeId, s: seq<SepRecord>)
    requires c.Merge? && Ready(c, lowId, s) && Ordered(s)
    ensures Ready(c.child, lowId, s) && Ready(c.right, lowId, Rest(s, RecordKey, HighOf(c.child)))
  {
    BranchLowIds(c, lowId);
    CutMembers(s, RecordKey, HighOf(c.child));
  }

  lemma RestKeys(s: seq<SepRecord>, cut: High)
    requires Ordered(s) && cut.HighKey?
    ensures InsertedBy(Rest(s, RecordKey, cut)) == set x | x in InsertedBy(s) && cut.key <= x.key
    ensures KeysOf(Rest(s, RecordKey, cut)) == set k | k in KeysOf(s) && cut.key <= k
  {
    CutMembers(s, RecordKey, cut);
  }

  /** Separators left and right of a merge key, each with its share of the records. */
  lemma AppliedByBranch(left: set<Sep>, right: set<Sep>, s: seq<SepRecord>, cut: High, high: High, x: Sep)
    requires Ordered(s) && cut.HighKey? && (high.HighKey? ==> cut.key <= high.key)
    requires (forall y :: y in left ==> y.key < cut.key) && (forall y :: y in right ==> cut.key <= y.key)
    ensures x in Applied(left, s, cut) <==> x in Applied(left + right, s, high) && x.key < cut.key
    ensures x in Applied(right, Rest(s, RecordKey, cut), high) <==> x in Applied(left + right, s, high) && cut.key <= x.key
  {
    RestKeys(s, cut);
  }

  lemma ConcatBySide(l: seq<Sep>, r: seq<Sep>, whole: set<Sep>, key: Key)
    requires KeySorted(l) && KeySorted(r)
    requires Elems(l) == set x | x in whole && x.key < key
    requires Elems(r) == set x | x in whole && key <= x.key
    ensures KeySorted(l + r) && Elems(l + r) == whole
  {
    forall i | 0 <= i < |l| ensures l[i].key < key { assert l[i] in Elems(l); }
    forall i | 0 <= i < |r| ensures key <= r[i].key { assert r[i] in Elems(r); }
    assert Elems(l + r) == Elems(l) + Elems(r);
  }

  lemma BranchesCoverMerge(c: Inner, lowId: NodeId, s: seq<SepRecord>, l: seq<Sep>, r: seq<Sep>)
    requires c.Merge? && Ready(c, lowId, s) && Ordered(s) && KeySorted(l) && KeySorted(r)
    requires Elems(l) == Effective(c.child, lowId, s, HighOf(c.child))
    requires Elems(r) == Effective(c.right, lowId, Rest(s, RecordKey, HighOf(c.child)), HighOf(c))
    ensures KeySorted(l + r) && Elems(l + r) == Effective(c, lowId, s, HighOf(c))
  {
    BodyOfMerge(c, lowId);
    ReplayOk(c.right);
    forall x: Sep
      ensures x in Elems(l) <==> x in Effective(c, lowId, s, HighOf(c)) && x.key < c.key
      ensures x in Elems(r) <==> x in Effective(c, lowId, s, HighOf(c)) && c.key <= x.key
    {
      AppliedByBranch(Body(c.child, lowId), Body(c.right, lowId), s, HighOf(c.child), HighOf(c), x);
    }
    ConcatBySide(l, r, Effective(c, lowId, s, HighOf(c)), c.key);
  }

  // ----- the recursion -----

  ghost predicate Walked(c: Inner, node: Inner, lowId: NodeId, s0: seq<SepRecord>, s: seq<SepRecord>, high: High)
    requires WF(c)
  {
    && Ready(node, lowId, s) && LowOf(node) == LowOf(c)
    && (HighOf(node) == high || (node.Base? && (high.HighKey? ==> AboveLow(high.key, LowOf(node)))))
    && Effective(node, lowId, s, high) == Effective(c, lowId, s0, high)
    && Rest(s, RecordKey, high) == Rest(s0, RecordKey, high)
  }

  lemma WalkRecord(c: Inner, node: Inner, lowId: NodeId, s0: seq<SepRecord>, s: seq<SepRecord>, high: High)
    requires WF(c) && Walked(c, node, lowId, s0, s, high) && Ordered(s) && (node.Insert? || node.Delete?)
    ensures Walked(c, node.child, lowId, s0, After(s, AsRecord(node)), high)
  {
    NoteKeepsEffective(node, lowId, s, high);
    RestAfterNote(s, AsRecord(node), high);
    if node.Insert? { BodyOfInsert(node, lowId); } else { BodyOfDelete(node, lowId); }
    if node.item.key !in KeysOf(s) {
      AfterMembers(s, AsRecord(node));
    }
  }

  lemma AppliedCut(body: set<Sep>, s: seq<SepRecord>, high: High)
    ensures Applied((set x | x in body && Below(x.key, high)), s, high) == Applied(body, s, high)
  {
  }

  lemma WalkSplit(c: Inner, node: Inner, lowId: NodeId, s0: seq<SepRecord>, s: seq<SepRecord>, high: High)
    requires WF(c) && Walked(c, node, lowId, s0, s, high) && node.Split?
    ensures Walked(c, node.child, lowId, s0, s, high)
  {
    BodyOfSplit(node, lowId);
    AppliedCut(Body(node.child, lowId), s, high);
    assert Body(node, lowId) == set x | x in Body(node.child, lowId) && Below(x.key, high);
  }

  method Descend(c: Inner, ghost lowId: NodeId, records: Records) returns (node: Inner)
    requires records.Valid() && Ready(c, lowId, records.pending)
    requires records.used + Depth(c) <= records.room
    modifies records.Repr
    ensures records.Valid() && (node.Base? || node.Merge?) && (node == c || node < c)
    ensures Walked(c, node, lowId, old(records.pending), records.pending, HighOf(c))
    ensures records.used + Depth(node) <= old(records.used) + Depth(c)
  {
    node := c;
    while !node.Base? && !node.Merge?
      invariant records.Valid() && (node == c || node < c)
      invariant Walked(c, node, lowId, old(records.pending), records.pending, HighOf(c))
      invariant records.used + Depth(node) <= old(records.used) + Depth(c)
      decreases node
    {
      if node.Split? {
        WalkSplit(c, node, lowId, old(records.pending), records.pending, HighOf(c));
      } else {
        WalkRecord(c, node, lowId, old(records.pending), records.pending, HighOf(c));
        records.Note(SepRecord(node.item, node.Insert?));
      }
      node := node.child;
    }
  }

  method CollectBase(b: Inner, lowId: NodeId, high: High, records: Records, out: ElasticNode<Sep>)
    returns (ghost r: seq<Sep>)
    requires b.Base? && records.Valid() && out !in records.Repr && Ready(b, lowId, records.pending)
    requires high.HighKey? ==> AboveLow(high.key, b.low)
    modifies records.Repr, out
    ensures records.Valid() && records.used == old(records.used)
    ensures out.items == old(out.items) + r && KeySorted(r)
    ensures Elems(r) == Effective(b, lowId, old(records.pending), high)
    ensures records.pending == Rest(old(records.pending), RecordKey, high)
  {
    BaseStep(b, lowId, records.pending, high);
    r := records.MergeInto(b.seps[FirstReal(b, lowId)..CopyEnd(b, high)], high, out);
  }

  method CollectRecursive(c: Inner, lowId: NodeId, records: Records, out: ElasticNode<Sep>)
    returns (ghost r: seq<Sep>)
    requires records.Valid() && out !in records.Repr && Ready(c, lowId, records.pending)
    requires records.used + Depth(c) <= records.room
    modifies records.Repr, out
    ensures records.Valid() && records.used <= old(records.used) + Depth(c)
    ensures out.items == old(out.items) + r && KeySorted(r)
    ensures Elems(r) == Effective(c, lowId, old(records.pending), HighOf(c))
    ensures records.pending == Rest(old(records.pending), RecordKey, HighOf(c))
    decreases c, 1
  {
    var node := Descend(c, lowId, records);
    if node.Base? {
      r := CollectBase(node, lowId, HighOf(c), records, out);
    } else {
      r := CollectBranches(node, lowId, records, out);
    }
  }

  method CollectBranches(c: Inner, lowId: NodeId, records: Records, out: ElasticNode<Sep>)
    returns (ghost r: seq<Sep>)
    requires c.Merge? && records.Valid() && out !in records.Repr && Ready(c, lowId, records.pending)
    requires records.used + Depth(c) <= records.room
    modifies records.Repr, out
    ensures records.Valid() && records.used <= old(records.used) + Depth(c)
    ensures out.items == old(out.items) + r && KeySorted(r)
    ensures Elems(r) == Effective(c, lowId, old(records.pending), HighOf(c))
    ensures records.pending == Rest(old(records.pending), RecordKey, HighOf(c))
    decreases c, 0
  {
    ghost var s := records.pending;
    RightBranchReady(c, lowId, s);
    ghost var l := CollectRecursive(c.child, lowId, records, out);
    ghost var r2 := CollectRecursive(c.right, lowId, records, out);
    BranchesCoverMerge(c, lowId, s, l, r2);
    AppendAssoc(old(out.items), l, r2);
    ReplayOk(c.right);
    RestRest(s, RecordKey, HighOf(c.child), HighOf(c));
    r := l + r2;
  }

  /** CollectAllSepsOnInner: the new base array is exactly the replayed separator list
      and fills the allotted item count. */
  method CollectAllSepsOnInner(c: Inner, depth: nat) returns (base: Inner)
    requires WF(c) && Clean(c)
    ensures base == Base(LowOf(c), Replay(c), HighOf(c), depth) && WF(base)
    ensures |base.seps| == ItemCount(c)
  {
    var out := new ElasticNode<Sep>(ItemCount(c));
    var records := new Records(Depth(c));
    out.PushBack(LeftmostBase(c).seps[0]);
    ghost var r := CollectRecursive(c, LowId(c), records, out);
    NothingPending(c, out.items, r);
    base := Base(LowOf(c), out.items, HighOf(c), depth);
  }

  lemma NothingPending(c: Inner, items: seq<Sep>, r: seq<Sep>)
    requires WF(c) && Clean(c) && KeySorted(r) && Elems(r) == Effective(c, LowId(c), [], HighOf(c))
    requires items == [LeftmostBase(c).seps[0]] + r
    ensures items == Replay(c) && |items| == ItemCount(c)
    ensures SepsOk(Replay(c), LowOf(c), HighOf(c))
  {
    ReplayOk(c);
    BodyIsSuffix(c, LowId(c));
    assert Effective(c, LowId(c), [], HighOf(c)) == Body(c, LowId(c));
    SortedByElems(r, Replay(c)[1..]);
  }
}
