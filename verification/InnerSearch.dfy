/** Searching an inner chain for a child without consolidating it: early exits at the
    records and a narrowed window in the base array. */
module InnerSearch {
  import opened Wrappers
  import opened Keys
  import opened InnerChain

  /** The child that an upper-bound search on the whole separator list selects. */
  ghost function ChildFor(c: Inner, k: Key): NodeId
    requires Replay(c) != []
  {
    Replay(c)[Locate(Replay(c), k)].id
  }

  // ----- how one record changes the answer -----

  ghost predicate Insertable(s: seq<Sep>, item: Sep, low: Low, high: High) {
    && SepsOk(s, low, high) && AboveLow(item.key, low) && Below(item.key, high)
    && item.id != s[0].id
    && var p := Locate(s, item.key); p > 0 ==> s[p].key != item.key
  }

  lemma LocateAtInserted(s: seq<Sep>, item: Sep, low: Low, high: High, k: Key)
    requires Insertable(s, item, low, high)
    requires var p := Locate(s, item.key); k >= item.key && (p + 1 == |s| || k < s[p + 1].key)
    ensures var r := InsertSep(s, item); r[Locate(r, k)] == item
  {
    var p, r := Locate(s, item.key), InsertSep(s, item);
    InsertSepOk(s, item, low, high);
    assert p + 2 < |r| ==> r[p + 2] == s[p + 1];
    LocateIs(r, k, p + 1);
  }

  lemma LocateBelowInserted(s: seq<Sep>, item: Sep, low: Low, high: High, k: Key)
    requires Insertable(s, item, low, high) && k < item.key
    ensures var r := InsertSep(s, item); r[Locate(r, k)] == s[Locate(s, k)]
  {
    var p, i, r := Locate(s, item.key), Locate(s, k), InsertSep(s, item);
    InsertSepOk(s, item, low, high);
    assert i <= p;
    assert r[i] == s[i] && (i < p ==> r[i + 1] == s[i + 1]);
    LocateIs(r, k, i);
  }

  lemma LocateAboveInserted(s: seq<Sep>, item: Sep, low: Low, high: High, k: Key)
    requires Insertable(s, item, low, high)
    requires var p := Locate(s, item.key); k >= item.key && p + 1 < |s| && k >= s[p + 1].key
    ensures var r := InsertSep(s, item); r[Locate(r, k)] == s[Locate(s, k)]
  {
    var p, i, r := Locate(s, item.key), Locate(s, k), InsertSep(s, item);
    InsertSepOk(s, item, low, high);
    assert i > p;
    assert r[i + 1] == s[i] && (i + 2 < |r| ==> r[i + 2] == s[i + 1]);
    LocateIs(r, k, i + 1);
  }

  lemma LocateAtDeleted(s: seq<Sep>, key: Key, low: Low, high: High, k: Key)
    requires SepsOk(s, low, high) && Locate(s, key) > 0 && s[Locate(s, key)].key == key
    requires var p := Locate(s, key); (p == 1 || k >= s[p - 1].key) && (p + 1 == |s| || k < s[p + 1].key)
    ensures var r := DeleteSep(s, key); r != [] && r[Locate(r, k)] == s[Locate(s, key) - 1]
  {
    var p, r := Locate(s, key), DeleteSep(s, key);
    DeleteSepOk(s, key, low, high);
    assert r[p - 1] == s[p - 1] && (p < |r| ==> r[p] == s[p + 1]);
    LocateIs(r, k, p - 1);
  }

  lemma LocateBelowDeleted(s: seq<Sep>, key: Key, low: Low, high: High, k: Key)
    requires SepsOk(s, low, high) && Locate(s, key) > 1 && k < s[Locate(s, key) - 1].key
    ensures var r := DeleteSep(s, key); r != [] && r[Locate(r, k)] == s[Locate(s, k)]
  {
    var p, i, r := Locate(s, key), Locate(s, k), DeleteSep(s, key);
    DeleteSepOk(s, key, low, high);
    assert i < p - 1;
    assert r[i] == s[i] && r[i + 1] == s[i + 1];
    LocateIs(r, k, i);
  }

  lemma LocateAboveDeleted(s: seq<Sep>, key: Key, low: Low, high: High, k: Key)
    requires SepsOk(s, low, high) && Locate(s, key) > 0 && s[Locate(s, key)].key == key
    requires var p := Locate(s, key); p + 1 < |s| && k >= s[p + 1].key
    ensures var r := DeleteSep(s, key); r != [] && r[Locate(r, k)] == s[Locate(s, k)]
  {
    var p, i, r := Locate(s, key), Locate(s, k), DeleteSep(s, key);
    DeleteSepOk(s, key, low, high);
    assert i > p;
    assert r[i - 1] == s[i] && (i < |r| ==> r[i] == s[i + 1]);
    LocateIs(r, k, i - 1);
  }

  lemma LocateMerged(l: seq<Sep>, r: seq<Sep>, low: Low, key: Key, removedId: NodeId, high: High, k: Key)
    requires SepsOk(l, low, HighKey(key, removedId)) && SepsOk(r, LowKey(key), high)
    requires forall s :: s in r ==> s.id != l[0].id
    ensures (l + r)[Locate(l + r, k)] == if k >= key then r[Locate(r, k)] else l[Locate(l, k)]
  {
    MergeSepsOk(l, r, low, key, removedId, high);
    var m := l + r;
    if k >= key {
      var i := Locate(r, k);
      assert m[|l| + i] == r[i];
      LocateIs(m, k, |l| + i);
    } else {
      LocateIs(m, k, Locate(l, k));
    }
  }

  lemma LocateCut(s: seq<Sep>, key: Key, low: Low, high: High, k: Key)
    requires SepsOk(s, low, high) && AboveLow(key, low) && Below(key, high) && k < key
    ensures var r := s[..SepLower(s, key, 1)]; r[Locate(r, k)] == s[Locate(s, k)]
  {
    var r := s[..SepLower(s, key, 1)];
    var i := Locate(s, k);
    SplitSepsOk(s, key, 0, low, high);
    assert i < |r|;
    LocateIs(r, k, i);
  }

  // ----- one step of the walk -----

  lemma ChildBelowInsert(c: Inner, k: Key)
    requires WF(c) && c.Insert? && InRange(k, LowOf(c), HighOf(c))
    ensures Replay(c) != [] && Replay(c.child) != []
    ensures ChildFor(c, k) == if k >= c.item.key && Below(k, c.next) then c.item.id else ChildFor(c.child, k)
  {
    ReplayOk(c.child);
    var s := Replay(c.child);
    var p := Locate(s, c.item.key);
    if k < c.item.key {
      LocateBelowInserted(s, c.item, LowOf(c.child), HighOf(c.child), k);
    } else if p + 1 < |s| && k >= s[p + 1].key {
      LocateAboveInserted(s, c.item, LowOf(c.child), HighOf(c.child), k);
    } else {
      LocateAtInserted(s, c.item, LowOf(c.child), HighOf(c.child), k);
    }
  }

  lemma ChildBelowDelete(c: Inner, k: Key)
    requires WF(c) && c.Delete? && InRange(k, LowOf(c), HighOf(c))
    ensures Replay(c) != [] && Replay(c.child) != []
    ensures ChildFor(c, k) == if (LowId(c) == c.prev.id || k >= c.prev.key) && Below(k, c.next)
                              then c.prev.id else ChildFor(c.child, k)
  {
    ReplayOk(c.child);
    var s := Replay(c.child);
    var p := Locate(s, c.item.key);
    if p > 1 && k < s[p - 1].key {
      LocateBelowDeleted(s, c.item.key, LowOf(c.child), HighOf(c.child), k);
    } else if p + 1 < |s| && k >= s[p + 1].key {
      LocateAboveDeleted(s, c.item.key, LowOf(c.child), HighOf(c.child), k);
    } else {
      LocateAtDeleted(s, c.item.key, LowOf(c.child), HighOf(c.child), k);
    }
    assert LowId(c) == s[0].id;
    assert p > 1 ==> s[p - 1].id != s[0].id;
  }

  lemma ChildBelowMerge(c: Inner, k: Key)
    requires WF(c) && c.Merge?
    ensures Replay(c) != [] && Replay(c.right) != [] && Replay(c.child) != []
    ensures ChildFor(c, k) == ChildFor(if k >= c.key then c.right else c.child, k)
  {
    ReplayOk(c.child);
    ReplayOk(c.right);
    LocateMerged(Replay(c.child), Replay(c.right), LowOf(c.child), c.key, c.removedId, HighOf(c.right), k);
  }

  lemma ChildBelowSplit(c: Inner, k: Key)
    requires WF(c) && c.Split? && k < c.key
    ensures Replay(c) != [] && Replay(c.child) != [] && ChildFor(c, k) == ChildFor(c.child, k)
  {
    ReplayOk(c);
    LocateCut(c.child.seps, c.key, c.child.low, c.child.high, k);
  }

  // ----- the narrowed window -----

  predicate HasMerge(c: Inner) {
    c.Merge? || (!c.Base? && HasMerge(c.child))
  }

  /** [start, end) excludes only slots that cannot be the answer. */
  ghost predicate SoundWindow(s: seq<Sep>, k: Key, start: nat, end: nat) {
    && 1 <= start <= |s| && 1 <= end <= |s|
    && (forall j :: 1 <= j < start ==> s[j].key <= k)
    && (forall j :: end <= j < |s| ==> k < s[j].key)
  }

  function Max(a: nat, b: nat): nat { if a < b then b else a }
  function Min(a: nat, b: nat): nat { if a < b then a else b }

  lemma NarrowIsSound(s: seq<Sep>, low: Low, high: High, k: Key, start: nat, end: nat, key: Key)
    requires SepsOk(s, low, high) && SoundWindow(s, k, start, end)
    ensures var location := SepLower(s, key, 1);
            if k >= key then SoundWindow(s, k, Max(start, location), end)
            else SoundWindow(s, k, start, Min(end, location))
  {
    var location := SepLower(s, key, 1);
    var at := if location < |s| then s[location].key else key;
    var last := s[|s| - 1].key;
  }

  lemma NoMergeOneBase(c: Inner, k: Key)
    requires !HasMerge(c)
    ensures BaseFor(c, k) == LeftmostBase(c)
  {
  }

  /** Before a merge is crossed the window may be meaningless, afterwards it is sound. */
  ghost predicate WindowInv(c: Inner, k: Key, start: nat, end: nat) {
    !HasMerge(c) ==> SoundWindow(LeftmostBase(c).seps, k, start, end)
  }

  lemma WindowBelowRecord(c: Inner, k: Key, start: nat, end: nat)
    requires WF(c) && (c.Insert? || c.Delete?) && WindowInv(c, k, start, end)
    ensures if k >= c.item.key then WindowInv(c.child, k, Max(start, c.location), end)
            else WindowInv(c.child, k, start, Min(end, c.location))
  {
    if !HasMerge(c.child) {
      NoMergeOneBase(c.child, c.item.key);
      BaseForOk(c.child, c.item.key);
      var b := LeftmostBase(c.child);
      NarrowIsSound(b.seps, b.low, b.high, k, start, end, c.item.key);
    }
  }

  lemma WholeWindowIsSound(c: Inner, k: Key)
    requires WF(c)
    ensures LeftmostBase(c).seps != [] && WindowInv(c, k, 1, |LeftmostBase(c).seps|)
  {
  }

  /** LocateSeparatorByKey: std::upper_bound over [start, end), minus one. */
  method LocateSeparatorByKey(s: seq<Sep>, k: Key, start: nat, end: nat, ghost low: Low, ghost high: High)
    returns (id: NodeId)
    requires SepsOk(s, low, high) && SoundWindow(s, k, start, end)
    ensures id == s[Locate(s, k)].id
  {
    var it := start;
    while it < end && s[it].key <= k
      invariant start <= it && (it <= end || it == start)
      invariant forall j :: 1 <= j < it ==> s[j].key <= k
    {
      it := it + 1;
    }
    assert it < |s| ==> k < s[it].key;
    LocateIs(s, k, it - 1);
    id := s[it - 1].id;
  }

  /** State of the child search when it reaches node. */
  ghost predicate SearchInv(c: Inner, node: Inner, k: Key, start: nat, end: nat)
    requires Replay(c) != []
  {
    && WF(node) && Clean(node) && InRange(k, LowOf(node), HighOf(node))
    && Replay(node) != [] && ChildFor(node, k) == ChildFor(c, k)
    && WindowInv(node, k, start, end)
  }

  lemma SearchBelowInsert(c: Inner, node: Inner, k: Key, start: nat, end: nat)
    requires Replay(c) != [] && SearchInv(c, node, k, start, end) && node.Insert?
    ensures k >= node.item.key && Below(k, node.next) ==> node.item.id == ChildFor(c, k)
    ensures !(k >= node.item.key && Below(k, node.next)) ==>
              if k >= node.item.key then SearchInv(c, node.child, k, Max(start, node.location), end)
              else SearchInv(c, node.child, k, start, Min(end, node.location))
  {
    ChildBelowInsert(node, k);
    WindowBelowRecord(node, k, start, end);
  }

  lemma SearchBelowDelete(c: Inner, node: Inner, k: Key, start: nat, end: nat)
    requires Replay(c) != [] && SearchInv(c, node, k, start, end) && node.Delete?
    ensures (LowId(node) == node.prev.id || k >= node.prev.key) && Below(k, node.next) ==>
              node.prev.id == ChildFor(c, k)
    ensures !((LowId(node) == node.prev.id || k >= node.prev.key) && Below(k, node.next)) ==>
              if k >= node.item.key then SearchInv(c, node.child, k, Max(start, node.location), end)
              else SearchInv(c, node.child, k, start, Min(end, node.location))
  {
    ChildBelowDelete(node, k);
    WindowBelowRecord(node, k, start, end);
  }

  lemma SearchBelowMerge(c: Inner, node: Inner, k: Key, start: nat, end: nat)
    requires Replay(c) != [] && SearchInv(c, node, k, start, end) && node.Merge?
    ensures var branch := if k >= node.key then node.right else node.child;
            SearchInv(c, branch, k, 1, |LeftmostBase(branch).seps|)
  {
    ChildBelowMerge(node, k);
    WholeWindowIsSound(if k >= node.key then node.right else node.child, k);
  }

  lemma SearchBelowSplit(c: Inner, node: Inner, k: Key, start: nat, end: nat)
    requires Replay(c) != [] && SearchInv(c, node, k, start, end) && node.Split?
    ensures SearchInv(c, node.child, k, start, end)
  {
    ChildBelowSplit(node, k);
  }

  /** NavigateInnerNode: the early-exit walk selects the same child as an upper-bound
      search on the consolidated separator list, through any nesting of merges. */
  method NavigateInnerNode(c: Inner, k: Key) returns (id: NodeId)
    requires WF(c) && Clean(c) && InRange(k, LowOf(c), HighOf(c))
    ensures Replay(c) != [] && id == ChildFor(c, k)
  {
    var node := c;
    var start: nat, end: nat := 1, |LeftmostBase(c).seps|;
    ReplayOk(c);
    WholeWindowIsSound(c, k);
    while !node.Base?
      invariant SearchInv(c, node, k, start, end)
      decreases node
    {
      match node {
        case Insert(item, next, location, child) =>
          SearchBelowInsert(c, node, k, start, end);
          if k >= item.key {
            if Below(k, next) {
              return item.id;
            }
            start := Max(start, location);
          } else {
            end := Min(end, location);
          }
          node := child;
        case Delete(item, prev, next, location, child) =>
          SearchBelowDelete(c, node, k, start, end);
          if LowId(node) == prev.id || k >= prev.key {
            if Below(k, next) {
              return prev.id;
            }
          }
          if k >= item.key {
            start := Max(start, location);
          } else {
            end := Min(end, location);
          }
          node := child;
        case Split(key, _, _, child) =>
          SearchBelowSplit(c, node, k, start, end);
          node := child;
        case Merge(key, _, child, right) =>
          SearchBelowMerge(c, node, k, start, end);
          node := if k >= key then right else child;
          start, end := 1, |LeftmostBase(node).seps|;
      }
    }
    id := LocateSeparatorByKey(node.seps, k, start, end, node.low, node.high);
  }
}
