/** The leaf level as the sibling links see it: node ids followed from the first
    leaf, each mapped to its delta chain. A remove record is read through to the
    chain below it. */
module LeafLevel {
  import opened Keys
  import opened LeafChain
  import opened LeafSplit

  const FIRST_LEAF_NODE_ID: NodeId := 2

  type View = map<NodeId, Leaf>

  /** Link i: the high key of one node is the low key of the next, which it names. */
  ghost predicate Linked(v: View, path: seq<NodeId>, i: nat)
    requires i + 1 < |path| && path[i] in v && path[i + 1] in v
  {
    var high := HighOf(v[path[i]]);
    high.HighKey? && high.next == path[i + 1] && LowOf(v[path[i + 1]]) == LowKey(high.key)
  }

  /** The ranges [low, high) along the path tile the key space without gap or overlap. */
  ghost predicate Tiling(v: View, path: seq<NodeId>) {
    && path != [] && path[0] == FIRST_LEAF_NODE_ID && Distinct(path)
    && (forall i :: 0 <= i < |path| ==> path[i] in v && WF(v[path[i]]))
    && LowOf(v[path[0]]) == NegInf
    && HighOf(v[path[|path| - 1]]) == PosInf
    && (forall i :: 0 <= i < |path| - 1 ==> Linked(v, path, i))
  }

  ghost function Contents(v: View, path: seq<NodeId>): set<KV>
    requires forall id :: id in path ==> id in v
  {
    set id, p | id in path && p in Replay(v[id]) :: p
  }

  // ----- the walk is determined, and the ranges are disjoint and complete -----

  lemma {:induction false} WalkIsUnique(v: View, p: seq<NodeId>, q: seq<NodeId>, n: nat)
    requires Tiling(v, p) && Tiling(v, q) && n <= |p|
    ensures n <= |q| && p[..n] == q[..n]
    ensures n == |p| ==> p == q
  {
    if n > 0 {
      WalkIsUnique(v, p, q, n - 1);
      if n > 1 {
        assert Linked(v, p, n - 2);
        assert p[n - 2] == p[..n - 1][n - 2] == q[n - 2];
        assert n - 1 < |q| ==> Linked(v, q, n - 2);
      }
      assert p[..n] == p[..n - 1] + [p[n - 1]];
      assert q[..n] == q[..n - 1] + [q[n - 1]];
      assert n == |p| && n < |q| ==> Linked(v, q, n - 1);
    }
  }

  /** Ranges further along the path lie entirely above. */
  lemma {:induction false} LaterRangesAreAbove(v: View, path: seq<NodeId>, i: nat, j: nat)
    requires Tiling(v, path) && i < j < |path|
    ensures HighOf(v[path[i]]).HighKey? && LowOf(v[path[j]]).LowKey?
    ensures HighOf(v[path[i]]).key <= LowOf(v[path[j]]).key
  {
    assert Linked(v, path, j - 1);
    if i < j - 1 {
      LaterRangesAreAbove(v, path, i, j - 1);
      WFInfo(v[path[j - 1]]);
    }
  }

  /** At most one node of the path covers a key. */
  lemma CoverIsUnique(v: View, path: seq<NodeId>, k: Key, a: NodeId, b: NodeId)
    requires Tiling(v, path) && a in path && b in path
    requires InRange(k, LowOf(v[a]), HighOf(v[a])) && InRange(k, LowOf(v[b]), HighOf(v[b]))
    ensures a == b
  {
    var i :| 0 <= i < |path| && path[i] == a;
    var j :| 0 <= j < |path| && path[j] == b;
    if i < j { LaterRangesAreAbove(v, path, i, j); }
    if j < i { LaterRangesAreAbove(v, path, j, i); }
  }

  /** NavigateSiblingChain: following next ids from any node whose low key is not above
      the key ends at the node of the path that covers it. */
  method NavigateSiblingChain(v: View, ghost path: seq<NodeId>, start: NodeId, k: Key) returns (id: NodeId)
    requires Tiling(v, path) && start in path && AtOrAbove(k, LowOf(v[start]))
    ensures id in path && InRange(k, LowOf(v[id]), HighOf(v[id]))
  {
    id := start;
    ghost var i :| 0 <= i < |path| && path[i] == id;
    while HighOf(v[id]).HighKey? && k >= HighOf(v[id]).key
      invariant 0 <= i < |path| && path[i] == id && AtOrAbove(k, LowOf(v[id]))
      decreases |path| - i
    {
      assert i < |path| - 1;
      assert Linked(v, path, i);
      id := HighOf(v[id]).next;
      i := i + 1;
    }
  }

  /** A live pair is live in exactly the node that covers its key. */
  lemma PairIsWhereItsKeyIs(v: View, path: seq<NodeId>, p: KV, id: NodeId)
    requires Tiling(v, path) && id in path && InRange(p.key, LowOf(v[id]), HighOf(v[id]))
    ensures p in Contents(v, path) <==> p in Replay(v[id])
  {
    forall o | o in path && p in Replay(v[o]) ensures o == id {
      WFInfo(v[o]);
      CoverIsUnique(v, path, p.key, o, id);
    }
  }

  // ----- replacing one node's chain -----

  /** A chain with the same bounds can replace a node's chain. */
  lemma ReplaceKeepsTiling(v: View, path: seq<NodeId>, id: NodeId, c: Leaf)
    requires Tiling(v, path) && id in path && WF(c)
    requires LowOf(c) == LowOf(v[id]) && HighOf(c) == HighOf(v[id])
    ensures Tiling(v[id := c], path)
  {
    var w := v[id := c];
    forall i | 0 <= i < |path| - 1 ensures Linked(w, path, i) {
      assert Linked(v, path, i);
    }
  }

  /** Only the replaced node's pairs change. */
  lemma ReplaceChangesOnly(v: View, path: seq<NodeId>, id: NodeId, c: Leaf)
    requires Tiling(v, path) && id in path && WF(c)
    requires LowOf(c) == LowOf(v[id]) && HighOf(c) == HighOf(v[id])
    ensures Contents(v[id := c], path) == (Contents(v, path) - Replay(v[id])) + Replay(c)
  {
    var w := v[id := c];
    forall o, p | o in path && o != id && p in Replay(v[o]) ensures p !in Replay(v[id]) {
      if p in Replay(v[id]) {
        WFInfo(v[o]);
        WFInfo(v[id]);
        CoverIsUnique(v, path, p.key, o, id);
      }
    }
    forall p: KV | p in Contents(v, path) && p !in Replay(v[id]) ensures p in Contents(w, path) {
      var o :| o in path && p in Replay(v[o]);
      assert w[o] == v[o];
    }
    assert forall p :: p in Replay(c) ==> id in path && p in Replay(w[id]);
    forall p: KV | p in Contents(w, path)
      ensures p in (Contents(v, path) - Replay(v[id])) + Replay(c)
    {
      var o :| o in path && p in Replay(w[o]);
      assert o != id ==> p in Contents(v, path);
    }
  }

  /** Views that agree along the path have the same tiling and the same contents. */
  lemma OnlyThePathMatters(v: View, w: View, path: seq<NodeId>)
    requires Tiling(v, path) && forall id :: id in path ==> id in w && w[id] == v[id]
    ensures Tiling(w, path) && Contents(w, path) == Contents(v, path)
  {
    forall i | 0 <= i < |path| - 1 ensures Linked(w, path, i) {
      assert Linked(v, path, i);
    }
  }

  // ----- a split adds the sibling to the path, a merge takes the removed node off -----

  function WithSibling(path: seq<NodeId>, i: nat, newId: NodeId): seq<NodeId>
    requires i < |path|
  {
    path[..i + 1] + [newId] + path[i + 1..]
  }

  function WithoutNext(path: seq<NodeId>, i: nat): seq<NodeId>
    requires i + 1 < |path|
  {
    path[..i + 1] + path[i + 2..]
  }

  lemma SplitKeepsTiling(v: View, path: seq<NodeId>, i: nat, key: Key, newId: NodeId)
    requires Tiling(v, path) && i < |path| && newId !in path
    requires var base := v[path[i]];
             && base.Base? && InRange(key, base.low, base.high)
             && NonEmptyRange(base.low, HighKey(key, newId))
             && newId in v && v[newId] == SiblingAt(base, key)
    ensures Tiling(v[path[i] := SplitAt(v[path[i]], key, newId)], WithSibling(path, i, newId))
  {
    var base := v[path[i]];
    var w, q := v[path[i] := SplitAt(base, key, newId)], WithSibling(path, i, newId);
    SplitAtKey(base, key, newId);
    forall j | 0 <= j < |q| - 1 ensures Linked(w, q, j) {
      if j < i {
        assert Linked(v, path, j);
      } else if j > i {
        assert Linked(v, path, j - 1);
      }
    }
  }

  lemma SplitKeepsContents(v: View, path: seq<NodeId>, i: nat, key: Key, newId: NodeId)
    requires Tiling(v, path) && i < |path| && newId !in path
    requires var base := v[path[i]];
             && base.Base? && InRange(key, base.low, base.high)
             && NonEmptyRange(base.low, HighKey(key, newId))
             && newId in v && v[newId] == SiblingAt(base, key)
    ensures (forall id :: id in WithSibling(path, i, newId) <==> id in path || id == newId)
    ensures Contents(v[path[i] := SplitAt(v[path[i]], key, newId)], WithSibling(path, i, newId))
         == Contents(v, path)
  {
    var base, id := v[path[i]], path[i];
    var w, q := v[id := SplitAt(base, key, newId)], WithSibling(path, i, newId);
    SplitAtKey(base, key, newId);
    forall o ensures o in q <==> o in path || o == newId {
      assert path == path[..i + 1] + path[i + 1..];
    }
    forall p: KV ensures p in Contents(w, q) <==> p in Contents(v, path) {
      if p in Contents(v, path) {
        var o :| o in path && p in Replay(v[o]);
        var o' := if o == id && key <= p.key then newId else o;
        assert o' in q && p in Replay(w[o']);
      }
      if p in Contents(w, q) {
        var o :| o in q && p in Replay(w[o]);
        var o' := if o == newId then id else o;
        assert o' in path && p in Replay(v[o']);
      }
    }
  }

  /** The chain of a node whose remove record, if it has one, is read through. */
  function ReadThrough(c: Leaf): Leaf {
    if c.Remove? then c.child else c
  }

  lemma MergeKeepsTiling(v: View, path: seq<NodeId>, i: nat)
    requires Tiling(v, path) && i + 1 < |path| && !v[path[i]].Remove? && v[path[i + 1]].Remove?
    ensures HighOf(v[path[i]]).HighKey?
    ensures Tiling(v[path[i] := Merge(HighOf(v[path[i]]).key, path[i + 1], v[path[i]], v[path[i + 1]].child)],
                   WithoutNext(path, i))
  {
    assert Linked(v, path, i);
    var c := Merge(HighOf(v[path[i]]).key, path[i + 1], v[path[i]], v[path[i + 1]].child);
    var w, q := v[path[i] := c], WithoutNext(path, i);
    var gone := v[path[i + 1]];
    assert WF(gone.child) && LowOf(gone) == LowOf(gone.child) && HighOf(gone) == HighOf(gone.child);
    assert WF(c) && LowOf(c) == LowOf(v[path[i]]) && HighOf(c) == HighOf(gone);
    forall j | 0 <= j < |q| - 1 ensures Linked(w, q, j) {
      if j < i {
        assert Linked(v, path, j);
      } else {
        assert Linked(v, path, j + 1);
      }
    }
    assert q[|q| - 1] == if i + 2 == |path| then path[i] else path[|path| - 1];
  }

  lemma MergeKeepsContents(v: View, path: seq<NodeId>, i: nat)
    requires Tiling(v, path) && i + 1 < |path| && !v[path[i]].Remove? && v[path[i + 1]].Remove?
    requires HighOf(v[path[i]]).HighKey?
    ensures forall id :: id in WithoutNext(path, i) <==> id in path && id != path[i + 1]
    ensures Contents(v[path[i] := Merge(HighOf(v[path[i]]).key, path[i + 1], v[path[i]], v[path[i + 1]].child)],
                     WithoutNext(path, i))
         == Contents(v, path)
  {
    var id, gone := path[i], path[i + 1];
    var c := Merge(HighOf(v[id]).key, gone, v[id], v[gone].child);
    var w, q := v[id := c], WithoutNext(path, i);
    assert path == path[..i + 1] + [gone] + path[i + 2..];
    forall o ensures o in q <==> o in path && o != gone {
      if o in path && o != gone {
        var j :| 0 <= j < |path| && path[j] == o;
        assert q[if j <= i then j else j - 1] == o;
      }
    }
    forall p: KV ensures p in Contents(w, q) <==> p in Contents(v, path) {
      if p in Contents(v, path) {
        var o :| o in path && p in Replay(v[o]);
        var o' := if o == gone then id else o;
        assert o' in q && p in Replay(w[o']);
      }
      if p in Contents(w, q) {
        var o :| o in q && p in Replay(w[o]);
        var o' := if o == id && p !in Replay(v[id]) then gone else o;
        assert o' in path && p in Replay(v[o']);
      }
    }
  }
}
