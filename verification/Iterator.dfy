/** Forward iteration over the leaf level while other threads split, merge and
    consolidate leaves: every page load may meet a different tiling of the same pairs. */
module Iterator {
  import opened Keys
  import opened LeafChain
  import opened LeafLevel
  import opened LeafConsolidation

  /** Load number t of the iterator meets the leaf level views(t), whose walk is paths(t). */
  ghost predicate Stable(views: nat -> View, paths: nat -> seq<NodeId>, pairs: set<KV>, bounds: set<Key>) {
    forall t: nat :: StableAt(views(t), paths(t), pairs, bounds)
  }

  ghost predicate StableAt(v: View, path: seq<NodeId>, pairs: set<KV>, bounds: set<Key>) {
    && Tiling(v, path) && Contents(v, path) == pairs
    && forall id :: id in path && HighOf(v[id]).HighKey? ==> HighOf(v[id]).key in bounds
  }

  /** A consolidated leaf that covers k holds exactly the live pairs of its range. */
  ghost predicate PageFor(page: Leaf, k: Key, pairs: set<KV>, bounds: set<Key>) {
    && page.Base? && WFBase(page) && InRange(k, page.low, page.high)
    && (forall p: KV :: InRange(p.key, page.low, page.high) ==> (p in page.items <==> p in pairs))
    && (page.high.HighKey? ==> page.high.key in bounds)
  }

  /** Traverse to the leaf of a key, then consolidate it into a private page. A removed leaf
      is read through to the chain below the remove record. */
  method LoadPage(v: View, ghost path: seq<NodeId>, k: Key, hash: KV -> bv64,
                  ghost pairs: set<KV>, ghost bounds: set<Key>) returns (page: Leaf)
    requires StableAt(v, path, pairs, bounds)
    ensures PageFor(page, k, pairs, bounds)
  {
    var id := NavigateSiblingChain(v, path, FIRST_LEAF_NODE_ID, k);
    var c := ReadThrough(v[id]);
    assert WF(c);
    page := CollectAllValuesOnLeaf(c, hash);
    forall p: KV | InRange(p.key, page.low, page.high) ensures p in page.items <==> p in pairs {
      PairIsWhereItsKeyIs(v, path, p, id);
      assert p in Elems(page.items) <==> p in page.items;
    }
  }

  /** What an iterator at slot at of page still has to deliver. */
  ghost function Remaining(page: Leaf, at: nat, pairs: set<KV>): set<KV>
    requires page.Base? && at <= |page.items|
  {
    Elems(page.items[at..]) + set p | p in pairs && !Below(p.key, page.high)
  }

  ghost function From(pairs: set<KV>, k: Key): set<KV> {
    set p | p in pairs && p.key >= k
  }

  lemma SuffixIndex(items: seq<KV>, n: nat, p: KV) returns (j: nat)
    requires n <= |items| && p in items[n..]
    ensures n <= j < |items| && items[j] == p
  {
    var rest := items[n..];
    var i :| 0 <= i < |rest| && rest[i] == p;
    j := n + i;
  }

  lemma InSuffix(items: seq<KV>, n: nat, j: nat)
    requires n <= j < |items|
    ensures items[j] in items[n..]
  {
    assert items[n..][j - n] == items[j];
  }

  lemma SuffixFromKey(items: seq<KV>, k: Key, p: KV)
    requires SortedByKey(items)
    ensures p in items[LowerBound(items, k)..] <==> p in items && p.key >= k
  {
    var n := LowerBound(items, k);
    if p in items[n..] {
      var j := SuffixIndex(items, n, p);
      assert items[n].key <= items[j].key;
    }
    if p in items && p.key >= k {
      var j :| 0 <= j < |items| && items[j] == p;
      InSuffix(items, n, j);
    }
  }

  /** Skipping to the first key at or above k leaves exactly the pairs from k on. */
  lemma RemainingFromKey(page: Leaf, k: Key, pairs: set<KV>, bounds: set<Key>)
    requires PageFor(page, k, pairs, bounds)
    ensures Remaining(page, LowerBound(page.items, k), pairs) == From(pairs, k)
  {
    forall p: KV ensures p in Remaining(page, LowerBound(page.items, k), pairs) <==> p in From(pairs, k) {
      SuffixFromKey(page.items, k, p);
    }
  }

  /** The pair under the iterator has the smallest key that is left, and is left only once. */
  lemma CurrentIsNext(page: Leaf, at: nat, pairs: set<KV>)
    requires page.Base? && WFBase(page) && at < |page.items|
    ensures page.items[at] in Remaining(page, at, pairs)
    ensures forall p :: p in Remaining(page, at, pairs) ==> page.items[at].key <= p.key
    ensures Remaining(page, at + 1, pairs) == Remaining(page, at, pairs) - {page.items[at]}
  {
    var cur, rest, tail := page.items[at], page.items[at..], page.items[at + 1..];
    assert rest == [cur] + tail;
    assert cur in page.items;
    forall p | p in rest ensures cur.key <= p.key {
      var j :| 0 <= j < |rest| && rest[j] == p;
      assert page.items[at + j] == p;
    }
    assert cur !in tail;
  }

  class ForwardIterator {
    const views: nat -> View
    const hash: KV -> bv64
    var page: Leaf
    var at: nat
    var loads: nat

    ghost predicate Valid()
      reads this
    {
      page.Base? && WFBase(page) && at <= |page.items|
    }

    /** Positioned: on a pair, or at the end of the last page. */
    ghost predicate Ready()
      reads this
    {
      Valid() && (at < |page.items| || page.high.PosInf?)
    }

    ghost function Left(pairs: set<KV>): set<KV>
      reads this
      requires Valid()
    {
      Remaining(page, at, pairs)
    }

    predicate IsEnd()
      reads this
      requires Valid()
    {
      page.high.PosInf? && at == |page.items|
    }

    /** Begin(start_key) */
    constructor (views: nat -> View, hash: KV -> bv64, k: Key,
                 ghost paths: nat -> seq<NodeId>, ghost pairs: set<KV>, ghost bounds: set<Key>)
      requires Stable(views, paths, pairs, bounds)
      ensures this.views == views && Ready() && Left(pairs) == From(pairs, k)
    {
      this.views, this.hash := views, hash;
      page, at, loads := Base(NegInf, [], PosInf), 0, 0;
      new;
      LowerBoundOf(k, paths, pairs, bounds);
    }

    /** LowerBound: loads pages until one has a key at or above the start key. A page may
        have been merged or emptied, then its high key is the next start key; that key
        strictly increases, so the loop ends. */
    method LowerBoundOf(k: Key, ghost paths: nat -> seq<NodeId>, ghost pairs: set<KV>, ghost bounds: set<Key>)
      requires Stable(views, paths, pairs, bounds)
      modifies this
      ensures Ready() && Left(pairs) == From(pairs, k)
    {
      var startKey := k;
      while true
        invariant k <= startKey && From(pairs, startKey) == From(pairs, k)
        decreases set b | b in bounds && startKey < b
      {
        assert StableAt(views(loads), paths(loads), pairs, bounds);
        page := LoadPage(views(loads), paths(loads), startKey, hash, pairs, bounds);
        loads := loads + 1;
        at := LowerBound(page.items, startKey);
        RemainingFromKey(page, startKey, pairs, bounds);
        if at != |page.items| || IsEnd() {
          return;
        }
        ghost var before := set b | b in bounds && startKey < b;
        assert page.high.key in before && page.items[at..] == [];
        startKey := page.high.key;
      }
    }

    /** operator++: leaves out exactly the current pair. */
    method MoveAheadByOne(ghost paths: nat -> seq<NodeId>, ghost pairs: set<KV>, ghost bounds: set<Key>)
      requires Stable(views, paths, pairs, bounds) && Ready() && !IsEnd()
      modifies this
      ensures Ready() && Left(pairs) == old(Left(pairs)) - {old(page.items[at])}
    {
      CurrentIsNext(page, at, pairs);
      at := at + 1;
      if at == |page.items| && !IsEnd() {
        assert page.items[at..] == [];
        assert Left(pairs) == From(pairs, page.high.key);
        LowerBoundOf(page.high.key, paths, pairs, bounds);
      }
    }
  }

  /** An iterator opened at k and advanced to the end visits every live pair with a key at or
      above k exactly once, in key order, whatever the shape of the tree at each load. */
  method ScanFrom(views: nat -> View, hash: KV -> bv64, k: Key,
                  ghost paths: nat -> seq<NodeId>, ghost pairs: set<KV>, ghost bounds: set<Key>)
    returns (visited: seq<KV>)
    requires Stable(views, paths, pairs, bounds)
    ensures SortedByKey(visited) && Distinct(visited) && Elems(visited) == From(pairs, k)
  {
    var it := new ForwardIterator(views, hash, k, paths, pairs, bounds);
    visited := [];
    while !it.IsEnd()
      invariant fresh(it) && it.views == views && it.Ready()
      invariant SortedByKey(visited) && Distinct(visited)
      invariant Elems(visited) + it.Left(pairs) == From(pairs, k) && Elems(visited) !! it.Left(pairs)
      invariant forall p, q :: p in visited && q in it.Left(pairs) ==> p.key <= q.key
      decreases it.Left(pairs)
    {
      var cur := it.page.items[it.at];
      CurrentIsNext(it.page, it.at, pairs);
      ElemsAppend(visited, cur);
      assert cur !in Elems(visited);
      visited := visited + [cur];
      it.MoveAheadByOne(paths, pairs, bounds);
    }
    assert it.Left(pairs) == {};
  }
}
