/** FindLeftSibling: the separator right before a given one, found by merging the base
    array with the records of the chain from the key downwards. */
module LeftSibling {
  import opened Wrappers
  import opened Keys
  import opened InnerChain
  import opened InnerBody
  import opened InnerSearch
  import opened InnerMergeLoop
  import opened InnerConsolidation
  import SS = SortedSmallSet

  /** The comparison is reversed: the set runs from big keys to small ones. */
  predicate KeyAfter(a: SepRecord, b: SepRecord) {
    b.item.key < a.item.key
  }

  ghost predicate Descending(s: seq<SepRecord>) {
    forall i, j :: 0 <= i < j < |s| ==> s[j].item.key < s[i].item.key
  }

  /** The set after Insert(d): unchanged if a newer record on the key is there. */
  ghost function Noted(s: seq<SepRecord>, d: SepRecord): seq<SepRecord> {
    var i := SS.LowerPos(s, d, KeyAfter);
    if i < |s| && SameKey(s[i], d) then s else SS.Inserted(s, i, d)
  }

  lemma NotedIsDescending(s: seq<SepRecord>, d: SepRecord)
    requires Descending(s)
    ensures Descending(Noted(s, d))
  {
    var i := SS.LowerPos(s, d, KeyAfter);
    if !(i < |s| && SameKey(s[i], d)) {
      assert SS.StrictWeakOrder(KeyAfter);
      assert SS.StrictlySortedBy(s, KeyAfter);
      SS.InsertLowerSorted(s, d, KeyAfter);
      assert SS.StrictlySortedBy(Noted(s, d), KeyAfter);
    }
  }

  lemma NotedMembers(s: seq<SepRecord>, d: SepRecord)
    requires Descending(s)
    ensures if d.item.key in KeysOf(s) then Noted(s, d) == s
            else forall x :: x in Noted(s, d) <==> x == d || x in s
  {
    var i := SS.LowerPos(s, d, KeyAfter);
    if d.item.key in KeysOf(s) {
      var x :| x in s && x.item.key == d.item.key;
      var j :| 0 <= j < |s| && s[j] == x;
      assert i <= j;
      assert !KeyAfter(s[i], d);
    } else {
      assert i < |s| ==> s[i] in s;
      SS.InsertedMembers(s, i, d);
    }
  }

  // ----- what the records and the array hold together -----

  /** x is a separator when the records in s are applied to body. */
  ghost predicate Live(x: Sep, body: set<Sep>, s: seq<SepRecord>) {
    if x.key in KeysOf(s) then x in InsertedBy(s) else x in body
  }

  lemma LiveAfterNote(x: Sep, older: set<Sep>, newer: set<Sep>, s: seq<SepRecord>, d: SepRecord)
    requires Descending(s)
    requires x.key != d.item.key ==> (x in older <==> x in newer)
    requires x.key == d.item.key ==> (x in newer <==> d.insert && x == d.item)
    ensures Live(x, older, Noted(s, d)) <==> Live(x, newer, s)
  {
    NotedMembers(s, d);
    if d.item.key !in KeysOf(s) {
      var t := Noted(s, d);
      assert d in t;
      assert x.key in KeysOf(t) <==> x.key == d.item.key || x.key in KeysOf(s);
      assert x in InsertedBy(t) <==> (d.insert && x == d.item) || x in InsertedBy(s);
      assert x in InsertedBy(s) ==> x.key in KeysOf(s);
    }
  }

  /** Up to key k, the records in s applied to body give whole. */
  ghost predicate Covers(whole: set<Sep>, body: set<Sep>, k: Key, s: seq<SepRecord>) {
    && Descending(s) && (forall r :: r in s ==> r.item.key <= k)
    && (forall x: Sep :: x.key <= k ==> (Live(x, body, s) <==> x in whole))
  }

  lemma CoversAfterNote(whole: set<Sep>, older: set<Sep>, newer: set<Sep>, k: Key, s: seq<SepRecord>, d: SepRecord)
    requires Covers(whole, newer, k, s) && d.item.key <= k
    requires forall x: Sep :: x.key != d.item.key ==> (x in older <==> x in newer)
    requires forall x: Sep :: x.key == d.item.key ==> (x in newer <==> d.insert && x == d.item)
    ensures Covers(whole, older, k, Noted(s, d))
  {
    NotedIsDescending(s, d);
    NotedMembers(s, d);
    forall x: Sep | x.key <= k ensures Live(x, older, Noted(s, d)) <==> x in whole {
      LiveAfterNote(x, older, newer, s, d);
    }
  }

  lemma CoversBelowCut(whole: set<Sep>, older: set<Sep>, newer: set<Sep>, k: Key, s: seq<SepRecord>)
    requires Covers(whole, newer, k, s)
    requires forall x: Sep :: x.key <= k ==> (x in older <==> x in newer)
    ensures Covers(whole, older, k, s)
  {
    forall x: Sep | x.key <= k ensures Live(x, older, s) <==> x in whole {
      assert Live(x, newer, s) <==> x in whole;
    }
  }

  /** The walk stays on the spine that the node's low key belongs to. */
  ghost predicate OnSpine(c: Inner, node: Inner, k: Key) {
    && WF(c) && WF(node) && Clean(node) && LeftmostBase(node) == LeftmostBase(c) && Below(k, HighOf(node))
  }

  /** State of the walk: the newer part of the chain is in the set, up to key k. */
  ghost predicate WalkInv(c: Inner, node: Inner, k: Key, s: seq<SepRecord>) {
    OnSpine(c, node, k) && Covers(Body(c, LowId(c)), Body(node, LowId(c)), k, s)
  }

  lemma WalkRecord(c: Inner, node: Inner, k: Key, s: seq<SepRecord>)
    requires WalkInv(c, node, k, s) && (node.Insert? || node.Delete?)
    ensures WalkInv(c, node.child, k, if node.item.key <= k then Noted(s, AsRecord(node)) else s)
  {
    var lowId := LowId(c);
    if node.Insert? { BodyOfInsert(node, lowId); } else { BodyOfDelete(node, lowId); }
    var older, newer := Body(node.child, lowId), Body(node, lowId);
    if node.item.key <= k {
      forall x: Sep | x.key == node.item.key ensures x in newer <==> node.Insert? && x == node.item {
        RecordOwnsKey(node, lowId, x);
      }
      CoversAfterNote(Body(c, lowId), older, newer, k, s, AsRecord(node));
    } else {
      CoversBelowCut(Body(c, lowId), older, newer, k, s);
    }
  }

  lemma WalkSplitRecord(c: Inner, node: Inner, k: Key, s: seq<SepRecord>)
    requires WalkInv(c, node, k, s) && node.Split?
    ensures WalkInv(c, node.child, k, s)
  {
    BodyOfSplit(node, LowId(c));
    CoversBelowCut(Body(c, LowId(c)), Body(node.child, LowId(c)), Body(node, LowId(c)), k, s);
  }

  // ----- the downward merge -----

  /** What is left to output: slots 1 to it1 and the records in t. */
  ghost function Left(seps: seq<Sep>, it1: int, t: seq<SepRecord>): set<Sep>
    requires it1 < |seps|
  {
    (set i | 1 <= i <= it1 && seps[i].key !in KeysOf(t) :: seps[i]) + InsertedBy(t)
  }

  ghost predicate Highest(x: Sep, s: set<Sep>) {
    x in s && forall y :: y in s ==> y.key <= x.key
  }

  ghost predicate Slots(seps: seq<Sep>, it1: int) {
    it1 < |seps| && forall i, j :: 1 <= i < j < |seps| ==> seps[i].key < seps[j].key
  }

  lemma FrontIsOnTop(t: seq<SepRecord>)
    requires Descending(t) && t != []
    ensures KeysOf(t) == KeysOf(t[1..]) + {t[0].item.key} && t[0].item.key !in KeysOf(t[1..])
    ensures InsertedBy(t) == InsertedBy(t[1..]) + if t[0].insert then {t[0].item} else {}
    ensures forall x :: x in t ==> x.item.key <= t[0].item.key
    ensures forall x :: x in InsertedBy(t[1..]) ==> x.key < t[0].item.key
    ensures Descending(t[1..])
  {
    assert t == [t[0]] + t[1..];
    forall x | x in t[1..] ensures x.item.key < t[0].item.key {
      var j :| 0 <= j < |t[1..]| && t[1..][j] == x;
      assert t[j + 1] == x;
    }
  }

  lemma SlotOnTop(seps: seq<Sep>, it1: int, t: seq<SepRecord>)
    requires Slots(seps, it1) && it1 >= 1 && Descending(t)
    requires t != [] ==> t[0].item.key < seps[it1].key
    ensures Highest(seps[it1], Left(seps, it1, t))
    ensures Left(seps, it1 - 1, t) == Left(seps, it1, t) - {seps[it1]}
  {
    forall x | x in t ensures x.item.key < seps[it1].key {
      FrontIsOnTop(t);
    }
  }

  /** Popping a record above every remaining slot. */
  lemma RecordOnTop(seps: seq<Sep>, it1: int, t: seq<SepRecord>)
    requires Slots(seps, it1) && it1 >= 0 && Descending(t) && t != []
    requires it1 >= 1 ==> seps[it1].key < t[0].item.key
    ensures if t[0].insert
            then Highest(t[0].item, Left(seps, it1, t)) && Left(seps, it1, t[1..]) == Left(seps, it1, t) - {t[0].item}
            else Left(seps, it1, t[1..]) == Left(seps, it1, t)
  {
    FrontIsOnTop(t);
    forall i | 1 <= i <= it1 ensures seps[i].key < t[0].item.key {
    }
  }

  /** Popping a record together with the slot it overrides. */
  lemma BothOnTop(seps: seq<Sep>, it1: int, t: seq<SepRecord>)
    requires Slots(seps, it1) && it1 >= 1 && Descending(t) && t != []
    requires seps[it1].key == t[0].item.key
    ensures Left(seps, it1, t) == Left(seps, it1 - 1, t)
  {
    FrontIsOnTop(t);
  }

  /** The separators 1 to m - 1 of the answer list are still to come. */
  ghost predicate MergeDown(list: seq<Sep>, m: nat, seps: seq<Sep>, it1: int, t: seq<SepRecord>) {
    && Slots(seps, it1) && it1 >= 0 && Descending(t) && 1 <= m <= |list| && seps[0] == list[0]
    && (forall i, j :: 1 <= i < j < |list| ==> list[i].key < list[j].key)
    && Left(seps, it1, t) == From(list[..m], 1)
  }

  lemma NextDown(list: seq<Sep>, m: nat, x: Sep, s: set<Sep>)
    requires 1 <= m <= |list| && s == From(list[..m], 1) && Highest(x, s)
    requires forall i, j :: 1 <= i < j < |list| ==> list[i].key < list[j].key
    ensures m > 1 && x == list[m - 1] && s - {x} == From(list[..m - 1], 1)
  {
    var l := list[..m];
    var j :| 1 <= j < m && l[j] == x;
    assert l[m - 1] in s;
    assert list[..m - 1] == l[..m - 1];
  }

  lemma SecondSlotIsReal(l: seq<Sep>)
    ensures |l| > 1 ==> From(l, 1) != {}
  {
    if |l| > 1 {
      assert l[1] in From(l, 1);
    }
  }

  lemma NothingDown(list: seq<Sep>, m: nat, seps: seq<Sep>)
    requires MergeDown(list, m, seps, 0, [])
    ensures m == 1
  {
    SecondSlotIsReal(list[..m]);
  }

  /** One round of the loop: either it takes the next separator downwards, or it drops a
      record that stands for nothing. */
  method TakeOne(seps: seq<Sep>, it1: int, sss: SS.SmallSet<SepRecord>, ghost list: seq<Sep>, ghost m: nat)
    returns (it1': int, item: Option<Sep>)
    requires sss.Valid() && MergeDown(list, m, seps, it1, sss.Contents())
    modifies sss`startP
    ensures sss.Valid()
    ensures item.Some? ==> item.value == list[m - 1]
    ensures item.Some? && m > 1 ==> MergeDown(list, m - 1, seps, it1', sss.Contents())
    ensures item.None? ==> MergeDown(list, m, seps, it1', sss.Contents())
    ensures |sss.Contents()| <= |old(sss.Contents())|
    ensures item.None? ==> |sss.Contents()| < |old(sss.Contents())|
  {
    ghost var t := sss.Contents();
    if sss.startP == sss.endP {
      item, it1' := Some(seps[it1]), it1 - 1;
      if it1 == 0 {
        NothingDown(list, m, seps);
      } else {
        SlotOnTop(seps, it1, t);
        NextDown(list, m, seps[it1], Left(seps, it1, t));
      }
      return;
    }
    var front := sss.GetFront();
    if it1 > 0 && front.item.key < seps[it1].key {
      SlotOnTop(seps, it1, t);
      NextDown(list, m, seps[it1], Left(seps, it1, t));
      item, it1' := Some(seps[it1]), it1 - 1;
      return;
    }
    it1' := it1;
    if it1 > 0 && front.item.key == seps[it1].key {
      BothOnTop(seps, it1, t);
      it1' := it1 - 1;
    }
    RecordOnTop(seps, it1', t);
    FrontIsOnTop(t);
    var _ := sss.PopFront();
    if front.insert {
      NextDown(list, m, front.item, Left(seps, it1', t));
      item := Some(front.item);
    } else {
      item := None;
    }
  }

  lemma StartDown(list: seq<Sep>, seps: seq<Sep>, k: Key, s: seq<SepRecord>)
    requires list != [] && seps != [] && Slots(list, 0) && Slots(seps, 0) && seps[0] == list[0]
    requires Covers(From(list, 1), From(seps, 1), k, s)
    ensures MergeDown(list, Locate(list, k) + 1, seps, Locate(seps, k), s)
  {
    var m, it1 := Locate(list, k) + 1, Locate(seps, k);
    forall x: Sep ensures x in Left(seps, it1, s) <==> x in From(list[..m], 1) {
      LeftIsLive(seps, k, s, x);
      CutAtKey(list, k, x);
    }
  }

  lemma CutAtKey(s: seq<Sep>, k: Key, x: Sep)
    requires s != [] && forall i, j :: 1 <= i < j < |s| ==> s[i].key < s[j].key
    ensures x in From(s[..Locate(s, k) + 1], 1) <==> x.key <= k && x in From(s, 1)
  {
    var p := Locate(s, k);
    var r := s[..p + 1];
    if x in From(s, 1) && x.key <= k {
      var j :| 1 <= j < |s| && s[j] == x;
      assert j <= p;
      assert r[j] == x;
    }
  }

  lemma LeftIsLive(seps: seq<Sep>, k: Key, s: seq<SepRecord>, x: Sep)
    requires seps != [] && Slots(seps, 0) && forall r :: r in s ==> r.item.key <= k
    ensures x in Left(seps, Locate(seps, k), s) <==> x.key <= k && Live(x, From(seps, 1), s)
  {
    var it1 := Locate(seps, k);
    CutAtKey(seps, k, x);
    var r := seps[..it1 + 1];
    assert x in InsertedBy(s) ==> x.key in KeysOf(s) && x.key <= k;
    assert x in From(r, 1) <==> exists i :: 1 <= i <= it1 && seps[i] == x by {
      if i :| 1 <= i <= it1 && seps[i] == x {
        assert r[i] == x;
      }
    }
  }

  /** The two-step merge: the first separator taken is k's own, the second is before it. */
  method SecondDown(seps: seq<Sep>, k: Key, sss: SS.SmallSet<SepRecord>, ghost list: seq<Sep>, ghost p: nat)
    returns (id: NodeId)
    requires sss.Valid() && seps != [] && 1 <= p < |list|
    requires MergeDown(list, p + 1, seps, Locate(seps, k), sss.Contents())
    modifies sss`startP
    ensures id == list[p - 1].id
  {
    var it1: int, left: Option<Sep> := Locate(seps, k), None;
    var counter := 0;
    ghost var m := p + 1;
    while counter < 2
      invariant sss.Valid() && 0 <= counter <= 2 && m == p + 1 - counter
      invariant counter < 2 ==> MergeDown(list, m, seps, it1, sss.Contents())
      invariant counter > 0 ==> left == Some(list[m])
      decreases 2 - counter, |sss.Contents()|
    {
      var item: Option<Sep>;
      it1, item := TakeOne(seps, it1, sss, list, m);
      if item.Some? {
        left := item;
        counter := counter + 1;
        m := m - 1;
      }
    }
    id := left.value.id;
  }

  lemma BaseIsReady(c: Inner, b: Inner, k: Key, s: seq<SepRecord>)
    requires WalkInv(c, b, k, s) && b.Base? && Replay(c) != []
    ensures b.seps != [] && MergeDown(Replay(c), Locate(Replay(c), k) + 1, b.seps, Locate(b.seps, k), s)
  {
    ReplayOk(c);
    StartDown(Replay(c), b.seps, k, s);
  }

  ghost predicate SetHolds(sss: SS.SmallSet<SepRecord>, c: Inner, node: Inner, k: Key)
    reads sss, sss.data
  {
    && sss.Valid() && sss.less == KeyAfter && sss.eq == SameKey
    && sss.endP + Depth(node) <= sss.data.Length
    && WalkInv(c, node, k, sss.Contents())
  }

  /** One record on the way down. */
  method NoteRecord(sss: SS.SmallSet<SepRecord>, ghost c: Inner, node: Inner, k: Key)
    requires SetHolds(sss, c, node, k) && (node.Insert? || node.Delete?)
    modifies sss, sss.data
    ensures SetHolds(sss, c, node.child, k)
  {
    WalkRecord(c, node, k, sss.Contents());
    if node.item.key <= k {
      sss.Insert(SepRecord(node.item, node.Insert?));
    }
  }

  lemma FreshWalk(c: Inner, k: Key)
    requires WF(c) && Clean(c) && Below(k, HighOf(c))
    ensures WalkInv(c, c, k, [])
  {
  }

  /** The set over an array with a slot for every record the chain may hold. */
  method NewRecordSet(c: Inner, ghost k: Key) returns (sss: SS.SmallSet<SepRecord>)
    requires WF(c) && Clean(c) && Below(k, HighOf(c))
    ensures fresh(sss) && fresh(sss.data) && SetHolds(sss, c, c, k)
  {
    FreshWalk(c, k);
    var data := new SepRecord[Depth(c)];
    sss := new SS.SmallSet(data, KeyAfter, SameKey);
  }

  /** At the base array: the separator before the one with key k. */
  method SecondOf(sss: SS.SmallSet<SepRecord>, ghost c: Inner, b: Inner, k: Key) returns (id: NodeId)
    requires sss.Valid() && WalkInv(c, b, k, sss.Contents()) && b.Base?
    requires Replay(c) != [] && Locate(Replay(c), k) > 0
    modifies sss
    ensures id == Replay(c)[Locate(Replay(c), k) - 1].id
  {
    BaseIsReady(c, b, k, sss.Contents());
    id := SecondDown(b.seps, k, sss, Replay(c), Locate(Replay(c), k));
  }

  lemma ConsolidatedWalk(c: Inner, base: Inner, k: Key)
    requires WF(c) && Below(k, HighOf(c)) && WF(base) && base.Base?
    requires base.seps == Replay(c) && base.high == HighOf(c)
    ensures WalkInv(base, base, k, []) && Replay(base) == Replay(c)
  {
    FreshWalk(base, k);
  }

  /** Down to the base array, or to a merge that the walk cannot cross. */
  method WalkDown(sss: SS.SmallSet<SepRecord>, c: Inner, k: Key) returns (node: Inner)
    requires SetHolds(sss, c, c, k)
    modifies sss, sss.data
    ensures SetHolds(sss, c, node, k) && node == StopsAt(c) && (node.Base? || node.Merge?)
  {
    node := c;
    while !node.Base? && !node.Merge?
      invariant SetHolds(sss, c, node, k) && StopsAt(node) == StopsAt(c)
      decreases node
    {
      if node.Split? {
        WalkSplitRecord(c, node, k, sss.Contents());
      } else {
        NoteRecord(sss, c, node, k);
      }
      node := node.child;
    }
  }

  /** Where the walk stops: at the base array, or at the first merge. */
  function StopsAt(c: Inner): Inner {
    if c.Base? || c.Merge? then c else StopsAt(c.child)
  }

  /** The node that a restart works on. */
  ghost function Consolidated(c: Inner): Inner {
    Base(LowOf(c), Replay(c), HighOf(c), Depth(c) + 1)
  }

  /** Nothing is retired unless the walk met a merge. Then the thread keeps whichever of chain
      and consolidated node the mapping table holds, and retires the other one: the old
      chain if the swap succeeded, the node that nobody else has seen if it failed. */
  ghost predicate SameNode(c: Inner, installed: bool, snapshot: Inner, retired: Option<Inner>) {
    && WF(snapshot) && Replay(snapshot) == Replay(c)
    && LowOf(snapshot) == LowOf(c) && HighOf(snapshot) == HighOf(c)
    && (if StopsAt(c).Base? then snapshot == c && retired == None
        else if installed then snapshot == Consolidated(c) && retired == Some(c)
        else snapshot == c && retired == Some(Consolidated(c)))
  }

  /** Restart on the consolidated node. */
  method Restart(sss: SS.SmallSet<SepRecord>, c: Inner, k: Key, installed: bool)
    returns (base: Inner, snapshot: Inner, retired: Option<Inner>)
    requires sss.Valid() && WF(c) && Clean(c) && Below(k, HighOf(c)) && StopsAt(c).Merge?
    modifies sss
    ensures sss.Valid() && base.Base? && WalkInv(base, base, k, sss.Contents())
    ensures Replay(base) == Replay(c) && SameNode(c, installed, snapshot, retired)
  {
    base := CollectAllSepsOnInner(c, Depth(c) + 1);
    ConsolidatedWalk(c, base, k);
    sss.Invalidate();
    if installed {
      snapshot, retired := base, Some(c);
    } else {
      snapshot, retired := c, Some(base);
    }
  }

  /** A chain with a merge is not its own consolidation. */
  lemma RetiredIsAnother(c: Inner, installed: bool, snapshot: Inner, retired: Option<Inner>)
    requires SameNode(c, installed, snapshot, retired)
    ensures retired.Some? <==> StopsAt(c).Merge?
    ensures retired.Some? ==> retired.value != snapshot && (retired.value == c <==> installed)
  {
    StopsAtEither(c);
  }

  lemma StopsAtEither(c: Inner)
    ensures StopsAt(c).Base? || StopsAt(c).Merge?
    ensures c.Base? ==> StopsAt(c) == c
  {
  }

  /** FindLeftSibling: for every chain in which k is a separator other than the first, the
      id of the separator immediately before it. On a merge the chain is consolidated
      first; installed says whether the compare-and-swap then succeeds, which decides
      whether the old chain or the new array is retired, and nothing else. */
  method FindLeftSibling(c: Inner, k: Key, installed: bool)
    returns (id: NodeId, snapshot: Inner, retired: Option<Inner>)
    requires WF(c) && Clean(c) && Below(k, HighOf(c)) && Replay(c) != []
    requires var p := Locate(Replay(c), k); p > 0 && Replay(c)[p].key == k
    ensures id == Replay(c)[Locate(Replay(c), k) - 1].id
    ensures SameNode(c, installed, snapshot, retired)
  {
    var sss := NewRecordSet(c, k);
    var node := WalkDown(sss, c, k);
    if node.Base? {
      snapshot, retired := c, None;
      id := SecondOf(sss, c, node, k);
    } else {
      node, snapshot, retired := Restart(sss, c, k, installed);
      id := SecondOf(sss, node, node, k);
    }
  }
}
