/** The exact separator lookup used while helping a split or a merge along: it reports
    the separator with the given key, if there is one, and the slot in the base array
    that a record posted for this key has to carry. */
module SeparatorLookup {
  import opened Wrappers
  import opened Keys
  import opened InnerChain
  import opened InnerBody
  import opened InnerSearch

  /** What an ordinary lookup on the whole separator list gives, its placeholder left out. */
  ghost function SeparatorFor(s: seq<Sep>, k: Key): Option<Sep>
    requires s != []
  {
    var p := Locate(s, k);
    if p > 0 && s[p].key == k then Some(s[p]) else None
  }

  /** lookup is right for key k among these separators. */
  ghost predicate Matches(r: Option<Sep>, body: set<Sep>, k: Key) {
    forall x: Sep :: x.key == k ==> (x in body <==> r == Some(x))
  }

  lemma MatchesIsLookup(c: Inner, k: Key, r: Option<Sep>)
    requires WF(c) && Matches(r, Body(c, LowId(c)), k) && (r.Some? ==> r.value.key == k)
    ensures Replay(c) != [] && r == SeparatorFor(Replay(c), k)
  {
    ReplayOk(c);
    var s := Replay(c);
    var p := Locate(s, k);
    assert p > 0 ==> s[p] in Body(c, LowId(c));
    if r.Some? {
      assert r.value in Body(c, LowId(c));
      var j :| 1 <= j < |s| && s[j] == r.value;
      LocateIs(s, k, j);
    }
  }

  // ----- the recorded slot does not depend on where the record was posted -----

  lemma BaseFirstId(c: Inner, k: Key)
    requires WF(c)
    ensures BaseFor(c, k).seps != []
    ensures BaseFor(c, k).seps[0].id in FirstIds(c)
    ensures BaseFor(c, k).seps[0].id == LowId(c) ==> BaseFor(c, k) == LeftmostBase(c)
  {
  }

  lemma LeftmostLow(c: Inner)
    requires WF(c)
    ensures LeftmostBase(c).low == LowOf(c)
    ensures SepsOk(LeftmostBase(c).seps, LeftmostBase(c).low, LeftmostBase(c).high)
  {
  }

  /** A record below a merge counts slots from its own placeholder, a search from the
      top of the chain from its own; above the low key both agree. */
  lemma SlotIsTheSame(c: Inner, lowId: NodeId, k: Key)
    requires WF(c) && LowIdOk(c, lowId) && AboveLow(k, LowOf(c))
    ensures BaseFor(c, k).seps != []
    ensures LocationIn(BaseFor(c, k), LowId(c), k) == LocationIn(BaseFor(c, k), lowId, k)
  {
    BaseFirstId(c, k);
    if LowId(c) != lowId && BaseFor(c, k).seps[0].id == LowId(c) {
      LeftmostLow(c);
    }
  }

  // ----- the walk -----

  ghost predicate LookupInv(c: Inner, node: Inner, k: Key) {
    && WF(c) && WF(node) && Clean(node) && LowIdOk(node, LowId(c))
    && Below(k, HighOf(node)) && BaseFor(node, k) == BaseFor(c, k)
    && (forall x: Sep :: x.key == k ==> (x in Body(node, LowId(c)) <==> x in Body(c, LowId(c))))
  }

  /** A record on the key decides. */
  lemma LookupAtRecord(c: Inner, node: Inner, k: Key)
    requires LookupInv(c, node, k) && (node.Insert? || node.Delete?) && node.item.key == k
    ensures Matches(if node.Insert? then Some(node.item) else None, Body(c, LowId(c)), k)
    ensures BaseFor(c, k).seps != [] && node.location == LocationIn(BaseFor(c, k), LowId(c), k)
  {
    var lowId := LowId(c);
    if node.Insert? { BodyOfInsert(node, lowId); } else { BodyOfDelete(node, lowId); }
    SlotIsTheSame(node.child, lowId, k);
    forall x: Sep | x.key == k ensures x in Body(node, lowId) <==> node.Insert? && x == node.item {
      RecordOwnsKey(node, lowId, x);
    }
  }

  lemma LookupBelowRecord(c: Inner, node: Inner, k: Key)
    requires LookupInv(c, node, k) && (node.Insert? || node.Delete?) && node.item.key != k
    ensures LookupInv(c, node.child, k)
  {
    if node.Insert? { BodyOfInsert(node, LowId(c)); } else { BodyOfDelete(node, LowId(c)); }
  }

  lemma LookupBelowSplit(c: Inner, node: Inner, k: Key)
    requires LookupInv(c, node, k) && node.Split?
    ensures LookupInv(c, node.child, k)
  {
    BodyOfSplit(node, LowId(c));
  }

  lemma LookupBelowMerge(c: Inner, node: Inner, k: Key)
    requires LookupInv(c, node, k) && node.Merge?
    ensures LookupInv(c, if k >= node.key then node.right else node.child, k)
  {
    BodyOfMerge(node, LowId(c));
  }

  lemma LowerBoundMatches(s: seq<Sep>, n: nat, k: Key, low: Low, high: High)
    requires SepsOk(s, low, high) && n <= 1 && (n == 0 ==> low.LowKey?)
    ensures var it := SepLower(s, k, n);
            Matches(if it < |s| && s[it].key == k then Some(s[it]) else None, From(s, n), k)
  {
    var it := SepLower(s, k, n);
    assert it < |s| ==> s[it] in From(s, n);
    forall j | n <= j < |s| && s[j].key == k ensures j == it {
    }
  }

  lemma LookupAtBase(c: Inner, node: Inner, k: Key)
    requires LookupInv(c, node, k) && node.Base?
    ensures var s, it := node.seps, SepLower(node.seps, k, FirstReal(node, LowId(c)));
            Matches(if it < |s| && s[it].key == k then Some(s[it]) else None, Body(c, LowId(c)), k)
  {
    LowerBoundMatches(node.seps, FirstReal(node, LowId(c)), k, node.low, node.high);
  }

  /** NavigateInnerNode with a location: the first record on the key decides, through
      any nesting of merges, exactly as a lookup on the consolidated list would. */
  method FindSeparator(c: Inner, k: Key) returns (found: Option<Sep>, location: nat)
    requires WF(c) && Clean(c) && Below(k, HighOf(c))
    ensures Replay(c) != [] && found == SeparatorFor(Replay(c), k)
    ensures BaseFor(c, k).seps != [] && location == LocationIn(BaseFor(c, k), LowId(c), k)
  {
    var node := c;
    while !node.Base?
      invariant LookupInv(c, node, k)
      decreases node
    {
      match node {
        case Insert(item, _, slot, child) =>
          if item.key == k {
            LookupAtRecord(c, node, k);
            MatchesIsLookup(c, k, Some(item));
            return Some(item), slot;
          }
          LookupBelowRecord(c, node, k);
          node := child;
        case Delete(item, _, _, slot, child) =>
          if item.key == k {
            LookupAtRecord(c, node, k);
            MatchesIsLookup(c, k, None);
            return None, slot;
          }
          LookupBelowRecord(c, node, k);
          node := child;
        case Split(_, _, _, child) =>
          LookupBelowSplit(c, node, k);
          node := child;
        case Merge(key, _, child, right) =>
          LookupBelowMerge(c, node, k);
          node := if k >= key then right else child;
      }
    }
    location := SepLower(node.seps, k, FirstReal(node, LowId(c)));
    LookupAtBase(c, node, k);
    found := if location < |node.seps| && node.seps[location].key == k then Some(node.seps[location]) else None;
    MatchesIsLookup(c, k, found);
  }

  /** A record built from the lookup's answer and the true neighbours keeps the chain
      well formed, so every later search and consolidation is again exact. */
  lemma PostedRecordIsWellFormed(c: Inner, item: Sep, prev: Sep, next: High, location: nat)
    requires WF(c) && Clean(c) && AboveLow(item.key, LowOf(c)) && Below(item.key, HighOf(c))
    requires BaseFor(c, item.key).seps != []
    requires location == LocationIn(BaseFor(c, item.key), LowId(c), item.key)
    requires Replay(c) != [] && NextIs(next, Replay(c), Locate(Replay(c), item.key), HighOf(c))
    ensures SeparatorFor(Replay(c), item.key) == None && item.id != LowId(c) ==>
              WF(Insert(item, next, location, c))
    ensures SeparatorFor(Replay(c), item.key) == Some(item)
            && prev == Replay(c)[Locate(Replay(c), item.key) - 1] ==>
              WF(Delete(item, prev, next, location, c))
  {
  }
}
