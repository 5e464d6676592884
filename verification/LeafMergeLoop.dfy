/** The heart of leaf consolidation: merging one base array with the records posted
    on it. The records come out of a sorted set ordered by (key, index); the loop
    places them by index alone, without comparing keys. */
module LeafMergeLoop {
  import opened Keys
  import opened LeafChain
  import opened ElasticNode
  import opened RecordCut
  import SS = SortedSmallSet

  /** A LeafInsert or LeafDelete record as the sorted set sees it. */
  datatype DataNode = DataNode(item: KV, ip: IndexPair, insert: bool)

  function RecordKey(d: DataNode): Key {
    d.item.key
  }

  predicate Before(a: DataNode, b: DataNode) {
    a.item.key < b.item.key || (a.item.key == b.item.key && a.ip.index < b.ip.index)
  }

  ghost function ItemsOf(s: seq<DataNode>): set<KV> {
    set d | d in s :: d.item
  }

  ghost function InsertedBy(s: seq<DataNode>): set<KV> {
    set d | d in s && d.insert :: d.item
  }

  ghost predicate DistinctItems(s: seq<DataNode>) {
    forall i, j :: 0 <= i < j < |s| ==> s[i].item != s[j].item
  }

  ghost predicate Indexed(items: seq<KV>, s: seq<DataNode>) {
    forall d :: d in s ==> TrueIndex(items, d.item, d.ip)
  }

  ghost predicate Mergeable(items: seq<KV>, s: seq<DataNode>) {
    && SortedByKey(items) && Distinct(items)
    && SS.SortedBy(s, Before) && DistinctItems(s) && Indexed(items, s)
  }

  // ----- the merge of one base array with its records -----

  /** Sorting by (key, index) also sorts by index. */
  lemma IndexMonotone(items: seq<KV>, s: seq<DataNode>, i: nat, j: nat)
    requires Mergeable(items, s) && i <= j < |s|
    ensures s[i].ip.index <= s[j].ip.index && s[i].item.key <= s[j].item.key
  {
    if i < j {
      assert !Before(s[j], s[i]);
      assert s[i] in s && s[j] in s;
      var x := s[j].ip.index;
      var atJ := if x < |items| then items[x].key else s[j].item.key + 1;
    }
  }

  ghost function BasePart(items: seq<KV>, s: seq<DataNode>, st: nat): set<KV>
    requires st <= |items|
  {
    set i | 0 <= i < st && items[i] !in ItemsOf(s) :: items[i]
  }

  /** n records and st array slots are merged into r. If ow, slot st was overwritten
      by a merged record and is about to be skipped. */
  ghost predicate MergeInv(items: seq<KV>, s: seq<DataNode>, n: nat, st: nat, ow: bool, r: seq<KV>) {
    && n <= |s| && st <= |items|
    && (forall j :: n <= j < |s| ==> st <= s[j].ip.index)
    && (forall j :: 0 <= j < n && s[j].ip.overwrites ==>
          s[j].ip.index < st || (ow && s[j].ip.index == st))
    && (ow ==> st < |items| && items[st] in ItemsOf(s))
    && Elems(r) == BasePart(items, s, st) + InsertedBy(s[..n])
    && SortedByKey(r) && Distinct(r)
    && (forall p, j :: p in r && n <= j < |s| ==> p.key <= s[j].item.key)
    && (forall p, i :: p in r && st <= i < |items| ==> p.key <= items[i].key)
  }

  lemma SkippedSlotIsUnmentioned(items: seq<KV>, s: seq<DataNode>, n: nat, st: nat, r: seq<KV>, i: nat)
    requires Mergeable(items, s) && MergeInv(items, s, n, st, false, r)
    requires st <= i < |items| && (n < |s| ==> i < s[n].ip.index)
    ensures items[i] !in ItemsOf(s)
  {
    if items[i] in ItemsOf(s) {
      var d :| d in s && d.item == items[i];
      var j :| 0 <= j < |s| && s[j] == d;
      assert TrueIndex(items, d.item, d.ip);
      assert d.ip.index == i;
      if n <= j {
        IndexMonotone(items, s, n, j);
      }
      assert false;
    }
  }

  /** Copying slot st when no record points at it. */
  lemma PushSlot(items: seq<KV>, s: seq<DataNode>, n: nat, st: nat, r: seq<KV>)
    requires Mergeable(items, s) && MergeInv(items, s, n, st, false, r)
    requires st < |items| && (n < |s| ==> st < s[n].ip.index)
    ensures MergeInv(items, s, n, st + 1, false, r + [items[st]])
  {
    SkippedSlotIsUnmentioned(items, s, n, st, r, st);
    var r' := r + [items[st]];
    forall j | n <= j < |s| ensures st + 1 <= s[j].ip.index && items[st].key <= s[j].item.key {
      IndexMonotone(items, s, n, j);
      assert s[j] in s && TrueIndex(items, s[j].item, s[j].ip);
    }
    assert BasePart(items, s, st + 1) == BasePart(items, s, st) + {items[st]};
    assert Elems(r') == Elems(r) + {items[st]};
    assert items[st] !in r by {
      assert items[st] !in InsertedBy(s[..n]);
    }
  }

  lemma PushRun(items: seq<KV>, s: seq<DataNode>, n: nat, st: nat, end: nat, r: seq<KV>)
    requires Mergeable(items, s) && MergeInv(items, s, n, st, false, r)
    requires st <= end <= |items| && (n < |s| ==> end <= s[n].ip.index)
    ensures MergeInv(items, s, n, end, false, r + items[st..end])
    decreases end - st
  {
    if st == end {
      assert r + items[st..end] == r;
    } else {
      PushSlot(items, s, n, st, r);
      PushRun(items, s, n, st + 1, end, r + [items[st]]);
      assert r + [items[st]] + items[st + 1..end] == r + items[st..end];
    }
  }

  /** Taking the next record, which points at slot st. */
  lemma TakeRecord(items: seq<KV>, s: seq<DataNode>, n: nat, st: nat, ow: bool, r: seq<KV>)
    requires Mergeable(items, s) && MergeInv(items, s, n, st, ow, r)
    requires n < |s| && s[n].ip.index == st
    ensures MergeInv(items, s, n + 1, st, ow || s[n].ip.overwrites,
                     if s[n].insert then r + [s[n].item] else r)
  {
    var d := s[n];
    assert d in s && TrueIndex(items, d.item, d.ip);
    assert s[..n + 1] == s[..n] + [d];
    assert InsertedBy(s[..n + 1]) == InsertedBy(s[..n]) + if d.insert then {d.item} else {};
    assert d.item !in r by {
      assert d.item in ItemsOf(s);
      assert d.item !in BasePart(items, s, st);
      assert d.item !in InsertedBy(s[..n]);
    }
    forall j | n + 1 <= j < |s| ensures d.item.key <= s[j].item.key {
      IndexMonotone(items, s, n, j);
    }
    assert d.insert ==> Elems(r + [d.item]) == Elems(r) + {d.item};
  }

  /** Leaving a slot once no record points at it any more. */
  lemma LeaveSlot(items: seq<KV>, s: seq<DataNode>, n: nat, st: nat, ow: bool, r: seq<KV>)
    requires Mergeable(items, s) && MergeInv(items, s, n, st, ow, r)
    requires n < |s| ==> s[n].ip.index != st
    ensures MergeInv(items, s, n, if ow then st + 1 else st, false, r)
  {
    forall j | n <= j < |s| ensures st < s[j].ip.index {
      IndexMonotone(items, s, n, j);
    }
    if ow {
      assert BasePart(items, s, st + 1) == BasePart(items, s, st);
    }
  }

  lemma SortedIsByKey(s: seq<DataNode>)
    requires SS.SortedBy(s, Before)
    ensures ByKey(s, RecordKey)
  {
    forall i, j | 0 <= i < j < |s| ensures s[i].item.key <= s[j].item.key {
      assert !Before(s[j], s[i]);
    }
  }

  function CopyEnd(items: seq<KV>, high: High): (n: nat)
    ensures n <= |items|
  {
    if high.PosInf? then |items| else LowerBound(items, high.key)
  }

  /** A record below the high key points no further than the end of the copy, and
      strictly before it when it overwrites a slot. */
  lemma IndexWithinCopy(items: seq<KV>, high: High, d: DataNode)
    requires SortedByKey(items) && TrueIndex(items, d.item, d.ip) && Below(d.item.key, high)
    ensures d.ip.index <= CopyEnd(items, high)
    ensures d.ip.overwrites ==> d.ip.index < CopyEnd(items, high)
  {
    var e := CopyEnd(items, high);
    var atEnd := if e < |items| then items[e].key else d.item.key;
  }

  /** What a base array contributes under a set of records, cut at the high key. */
  ghost function Overlaid(live: set<KV>, s: seq<DataNode>, high: High): set<KV> {
    (set p | p in live && p !in ItemsOf(s) && Below(p.key, high))
    + (set p | p in InsertedBy(s) && Below(p.key, high))
  }

  lemma CopyEndSplits(items: seq<KV>, high: High, i: nat)
    requires SortedByKey(items) && i < |items|
    ensures i < CopyEnd(items, high) <==> Below(items[i].key, high)
  {
    var e := CopyEnd(items, high);
    var atEnd := if e < |items| then items[e].key else 0;
  }

  lemma MergeDone(items: seq<KV>, s: seq<DataNode>, high: High)
    requires SortedByKey(items) && SS.SortedBy(s, Before)
    ensures BasePart(items, s[..Cut(s, RecordKey, high)], CopyEnd(items, high)) + InsertedBy(s[..Cut(s, RecordKey, high)])
         == Overlaid(Elems(items), s, high)
  {
    var n, e := Cut(s, RecordKey, high), CopyEnd(items, high);
    var a := s[..n];
    forall d ensures d in a <==> d in s && Below(d.item.key, high) {
      if d in s && Below(d.item.key, high) {
        var j :| 0 <= j < |s| && s[j] == d;
        CutSplits(s, RecordKey, high, j);
        assert a[j] == d;
      }
    }
    assert InsertedBy(a) == set p | p in InsertedBy(s) && Below(p.key, high);
    forall i | 0 <= i < |items|
      ensures i < e && items[i] !in ItemsOf(a) <==> Below(items[i].key, high) && items[i] !in ItemsOf(s)
    {
      CopyEndSplits(items, high, i);
    }
    assert BasePart(items, a, e)
        == set p | p in Elems(items) && p !in ItemsOf(s) && Below(p.key, high);
  }

  /** The set still holds s without its first n elements. */
  ghost predicate Holds(sss: SS.SmallSet<DataNode>, start: nat, s: seq<DataNode>, n: nat)
    reads sss, sss.data
  {
    sss.Valid() && n <= |s| && sss.startP == start + n && sss.Contents() == s[n..]
  }

  method PopRecord(sss: SS.SmallSet<DataNode>, ghost start: nat, ghost s: seq<DataNode>, ghost n: nat)
    returns (d: DataNode)
    requires Holds(sss, start, s, n) && n < |s|
    modifies sss`startP
    ensures d == s[n] && Holds(sss, start, s, n + 1)
  {
    d := sss.PopFront();
  }

  /** Takes the front record, which points at slot cur, into the output if it inserts. */
  method DrainOne(ghost items: seq<KV>, ghost s: seq<DataNode>, ghost a: seq<DataNode>, ghost n: nat,
                  ghost cur: nat, ow: bool, sss: SS.SmallSet<DataNode>, ghost start: nat,
                  out: ElasticNode<KV>, ghost pre: seq<KV>, ghost r: seq<KV>)
    returns (ow': bool, ghost r': seq<KV>)
    requires a <= s && n < |a| && Holds(sss, start, s, n)
    requires Mergeable(items, a) && MergeInv(items, a, n, cur, ow, r)
    requires a[n].ip.index == cur && out.items == pre + r
    modifies sss`startP, out
    ensures Holds(sss, start, s, n + 1)
    ensures MergeInv(items, a, n + 1, cur, ow', r') && out.items == pre + r'
  {
    TakeRecord(items, a, n, cur, ow, r);
    var d := PopRecord(sss, start, s, n);
    assert d == a[n];
    ow' := ow || d.ip.overwrites;
    if d.insert {
      out.PushBack(d.item);
      AppendAssoc(pre, r, [d.item]);
      r' := r + [d.item];
    } else {
      r' := r;
    }
  }

  /** Drains the records that point at slot cur. */
  method DrainSlot(ghost items: seq<KV>, ghost s: seq<DataNode>, ghost a: seq<DataNode>, ghost n0: nat,
                   cur: nat, sss: SS.SmallSet<DataNode>, ghost start: nat, sssEnd: nat,
                   out: ElasticNode<KV>, ghost pre: seq<KV>, ghost r0: seq<KV>)
    returns (ow: bool, ghost n: nat, ghost r: seq<KV>)
    requires a <= s && n0 < |a| && sssEnd == start + |a| && Holds(sss, start, s, n0)
    requires Mergeable(items, a) && MergeInv(items, a, n0, cur, false, r0)
    requires a[n0].ip.index == cur && out.items == pre + r0
    modifies sss`startP, out
    ensures n0 < n <= |a| && Holds(sss, start, s, n)
    ensures MergeInv(items, a, n, cur, ow, r) && out.items == pre + r
    ensures n < |a| ==> a[n].ip.index != cur
  {
    ow, n, r := false, n0, r0;
    while sss.startP != sssEnd && sss.GetFront().ip.index == cur
      invariant n0 <= n <= |a| && Holds(sss, start, s, n)
      invariant MergeInv(items, a, n, cur, ow, r) && out.items == pre + r
      decreases |a| - n
    {
      ow, r := DrainOne(items, s, a, n, cur, ow, sss, start, out, pre, r);
      n := n + 1;
    }
  }

  /** Finds the first record at or above the high key, from the end of the set. */
  method FindSssEnd(sss: SS.SmallSet<DataNode>, high: High) returns (end: nat)
    requires sss.Valid() && SS.SortedBy(sss.Contents(), Before)
    ensures end == sss.startP + Cut(sss.Contents(), RecordKey, high)
  {
    ghost var s := sss.Contents();
    end := sss.endP;
    while end > sss.startP && !Below(sss.data[end - 1].item.key, high)
      invariant sss.startP <= end <= sss.endP
      invariant forall j :: end - sss.startP <= j < |s| ==> !Below(s[j].item.key, high)
    {
      end := end - 1;
    }
    SortedIsByKey(s);
    CutIs(s, RecordKey, high, end - sss.startP);
  }

  lemma OverwrittenBeforeCopyEnd(items: seq<KV>, high: High, a: seq<DataNode>, st: nat)
    requires SortedByKey(items) && (forall d :: d in a ==> Below(d.item.key, high))
    requires st < |items| && items[st] in ItemsOf(a)
    ensures st < CopyEnd(items, high)
  {
    CopyEndSplits(items, high, st);
  }

  /** One turn of the merge loop: copy up to the front record's slot, then drain it. */
  method MergeSlot(items: seq<KV>, ghost high: High, ghost s: seq<DataNode>, ghost a: seq<DataNode>,
                   ghost n0: nat, copyStart: nat, sss: SS.SmallSet<DataNode>, ghost start: nat,
                   sssEnd: nat, out: ElasticNode<KV>, ghost pre: seq<KV>, ghost r0: seq<KV>)
    returns (copyStart': nat, ghost n: nat, ghost r: seq<KV>)
    requires a <= s && n0 < |a| && sssEnd == start + |a| && Holds(sss, start, s, n0)
    requires forall d :: d in a ==> Below(d.item.key, high)
    requires Mergeable(items, a) && copyStart <= CopyEnd(items, high)
    requires MergeInv(items, a, n0, copyStart, false, r0) && out.items == pre + r0
    modifies sss`startP, out
    ensures n0 < n <= |a| && Holds(sss, start, s, n) && copyStart' <= CopyEnd(items, high)
    ensures MergeInv(items, a, n, copyStart', false, r) && out.items == pre + r
  {
    var current := sss.GetFront().ip.index;
    assert sss.GetFront() == s[n0] == a[n0] && a[n0] in a;
    IndexWithinCopy(items, high, a[n0]);
    PushRun(items, a, n0, copyStart, current, r0);
    out.PushBackRange(items[copyStart..current]);
    AppendAssoc(pre, r0, items[copyStart..current]);
    var overwritten;
    overwritten, n, r := DrainSlot(items, s, a, n0, current, sss, start, sssEnd, out,
                                   pre, r0 + items[copyStart..current]);
    LeaveSlot(items, a, n, current, overwritten, r);
    copyStart' := if overwritten then current + 1 else current;
    if overwritten {
      OverwrittenBeforeCopyEnd(items, high, a, current);
    }
  }

  lemma FinishMerge(items: seq<KV>, s: seq<DataNode>, high: High, copyStart: nat, r: seq<KV>)
    requires SortedByKey(items) && SS.SortedBy(s, Before) && copyStart <= CopyEnd(items, high)
    requires Mergeable(items, s[..Cut(s, RecordKey, high)])
    requires MergeInv(items, s[..Cut(s, RecordKey, high)], Cut(s, RecordKey, high), copyStart, false, r)
    ensures var r' := r + items[copyStart..CopyEnd(items, high)];
            SortedByKey(r') && Distinct(r') && Elems(r') == Overlaid(Elems(items), s, high)
  {
    var m := Cut(s, RecordKey, high);
    PushRun(items, s[..m], m, copyStart, CopyEnd(items, high), r);
    assert s[..m][..m] == s[..m];
    MergeDone(items, s, high);
  }

  lemma CutIsMergeable(items: seq<KV>, s: seq<DataNode>, high: High)
    requires SortedByKey(items) && Distinct(items) && SS.SortedBy(s, Before) && DistinctItems(s)
    requires Indexed(items, s[..Cut(s, RecordKey, high)])
    ensures Mergeable(items, s[..Cut(s, RecordKey, high)])
    ensures MergeInv(items, s[..Cut(s, RecordKey, high)], 0, 0, false, [])
    ensures forall d :: d in s[..Cut(s, RecordKey, high)] ==> Below(d.item.key, high)
  {
    var a := s[..Cut(s, RecordKey, high)];
    assert a[..0] == [];
  }

  /** The LeafType case: merges one base array with the records below the high key. */
  method MergeBase(items: seq<KV>, high: High, sss: SS.SmallSet<DataNode>, out: ElasticNode<KV>)
    returns (ghost r: seq<KV>)
    requires sss.Valid() && SS.SortedBy(sss.Contents(), Before) && DistinctItems(sss.Contents())
    requires SortedByKey(items) && Distinct(items)
    requires Indexed(items, sss.Contents()[..Cut(sss.Contents(), RecordKey, high)])
    modifies sss`startP, out
    ensures sss.Valid() && sss.Contents() == old(sss.Contents()[Cut(sss.Contents(), RecordKey, high)..])
    ensures out.items == old(out.items) + r && SortedByKey(r) && Distinct(r)
    ensures Elems(r) == Overlaid(Elems(items), old(sss.Contents()), high)
  {
    var copyEnd := CopyEnd(items, high);
    var copyStart: nat := 0;
    ghost var s, start := sss.Contents(), sss.startP;
    ghost var a, n := s[..Cut(s, RecordKey, high)], 0;
    var sssEnd := FindSssEnd(sss, high);
    r := [];
    CutIsMergeable(items, s, high);
    while sss.startP != sssEnd
      invariant n <= |a| && Holds(sss, start, s, n) && copyStart <= copyEnd
      invariant MergeInv(items, a, n, copyStart, false, r) && out.items == old(out.items) + r
      decreases |a| - n
    {
      copyStart, n, r := MergeSlot(items, high, s, a, n, copyStart, sss, start, sssEnd, out,
                                   old(out.items), r);
    }
    FinishMerge(items, s, high, copyStart, r);
    out.PushBackRange(items[copyStart..copyEnd]);
    AppendAssoc(old(out.items), r, items[copyStart..copyEnd]);
    r := r + items[copyStart..copyEnd];
  }
}
