/** The separators of an inner chain as a set, which is how records act on them.

    lowId is the child id of the node's low key. The branch that starts with it is
    the leftmost one and its first slot is a placeholder; in every other branch the
    first slot is an ordinary separator whose key is the merge key. */
module InnerBody {
  import opened Keys
  import opened InnerChain

  ghost predicate LowIdOk(c: Inner, lowId: NodeId)
    requires WF(c)
  {
    LowId(c) == lowId || (lowId !in FirstIds(c) && LowOf(c).LowKey?)
  }

  function FirstReal(c: Inner, lowId: NodeId): nat
    requires LeftmostBase(c).seps != []
  {
    if LowId(c) == lowId then 1 else 0
  }

  /** Elements from slot n on. */
  ghost function From(s: seq<Sep>, n: nat): set<Sep> {
    set j | n <= j < |s| :: s[j]
  }

  ghost function Body(c: Inner, lowId: NodeId): set<Sep>
    requires WF(c)
  {
    From(Replay(c), FirstReal(c, lowId))
  }

  ghost predicate KeySorted(s: seq<Sep>) {
    forall i, j :: 0 <= i < j < |s| ==> s[i].key < s[j].key
  }

  // ----- facts about slots -----

  lemma FromInserted(s: seq<Sep>, item: Sep, n: nat)
    requires s != [] && n <= 1
    ensures From(InsertSep(s, item), n) == From(s, n) + {item}
  {
    var p, r := Locate(s, item.key), InsertSep(s, item);
    forall j | n <= j < |s| ensures s[j] in From(r, n) {
      assert r[if j <= p then j else j + 1] == s[j];
    }
    assert item in From(r, n) by { assert r[p + 1] == item; }
    forall j | n <= j < |r| ensures r[j] in From(s, n) + {item} {
      assert r[j] == if j <= p then s[j] else if j == p + 1 then item else s[j - 1];
    }
  }

  /** The separators left of slot p and right of it, where p is a real slot. */
  ghost predicate AroundSlot(s: seq<Sep>, p: nat, n: nat) {
    && n <= 1 <= p < |s|
    && (forall j :: n <= j < p ==> s[j].key < s[p].key) && (forall j :: p < j < |s| ==> s[p].key < s[j].key)
  }

  lemma SlotIsReal(s: seq<Sep>, p: nat, n: nat, low: Low, high: High)
    requires SepsOk(s, low, high) && n <= 1 <= p < |s| && (n == 0 ==> low.LowKey?)
    ensures AroundSlot(s, p, n)
  {
  }

  lemma KeptByDelete(s: seq<Sep>, k: Key, n: nat, j: nat)
    requires s != [] && AroundSlot(s, Locate(s, k), n) && n <= j < |s| && j != Locate(s, k)
    ensures s[j] in From(DeleteSep(s, k), n) && s[j] != s[Locate(s, k)]
  {
    var p, r := Locate(s, k), DeleteSep(s, k);
    assert r[if j < p then j else j - 1] == s[j];
  }

  lemma LeftByDelete(s: seq<Sep>, k: Key, n: nat, j: nat)
    requires s != [] && AroundSlot(s, Locate(s, k), n) && n <= j < |s| - 1
    ensures DeleteSep(s, k)[j] in From(s, n) - {s[Locate(s, k)]}
  {
    var p, r := Locate(s, k), DeleteSep(s, k);
    var i := if j < p then j else j + 1;
    assert r[j] == s[i];
  }

  lemma FromDeleted(s: seq<Sep>, k: Key, n: nat, low: Low, high: High)
    requires SepsOk(s, low, high) && n <= 1 && (n == 0 ==> low.LowKey?) && Locate(s, k) > 0
    ensures From(DeleteSep(s, k), n) == From(s, n) - {s[Locate(s, k)]}
  {
    var p, r := Locate(s, k), DeleteSep(s, k);
    SlotIsReal(s, p, n, low, high);
    forall j | n <= j < |s| && j != p ensures s[j] in From(r, n) && s[j] != s[p] {
      KeptByDelete(s, k, n, j);
    }
    forall j | n <= j < |r| ensures r[j] in From(s, n) - {s[p]} {
      LeftByDelete(s, k, n, j);
    }
  }

  lemma FromCut(s: seq<Sep>, key: Key, n: nat, low: Low, high: High)
    requires SepsOk(s, low, high) && n <= 1 && (n == 0 ==> low.LowKey?) && AboveLow(key, low)
    ensures From(s[..SepLower(s, key, 1)], n) == set x | x in From(s, n) && x.key < key
  {
    var m := SepLower(s, key, 1);
    var r := s[..m];
    forall j | n <= j < |s| ensures s[j].key < key <==> j < m {
      assert m < j ==> s[m].key < s[j].key;
    }
    forall j | n <= j < |s| && s[j].key < key ensures s[j] in From(r, n) {
      assert r[j] == s[j];
    }
  }

  lemma FromConcat(l: seq<Sep>, r: seq<Sep>, n: nat)
    requires n <= |l|
    ensures From(l + r, n) == From(l, n) + From(r, 0)
  {
    var m := l + r;
    forall j | n <= j < |l| ensures l[j] in From(m, n) { assert m[j] == l[j]; }
    forall j | 0 <= j < |r| ensures r[j] in From(m, n) { assert m[|l| + j] == r[j]; }
    forall j | n <= j < |m| ensures m[j] in From(l, n) + From(r, 0) {
      assert m[j] == if j < |l| then l[j] else r[j - |l|];
    }
  }

  lemma FromSuffix(s: seq<Sep>, n: nat)
    requires n <= |s|
    ensures Elems(s[n..]) == From(s, n)
  {
    var t := s[n..];
    forall j | n <= j < |s| ensures s[j] in t { assert t[j - n] == s[j]; }
    forall x | x in t ensures x in From(s, n) {
      var i :| 0 <= i < |t| && t[i] == x;
      assert s[n + i] == x;
    }
  }

  lemma SuffixSorted(s: seq<Sep>, n: nat, low: Low, high: High)
    requires SepsOk(s, low, high) && n <= 1 && (n == 0 ==> low.LowKey?)
    ensures n <= |s| && KeySorted(s[n..])
    ensures forall x :: x in From(s, n) ==> InRange(x.key, low, high)
  {
  }

  lemma SomeElem(s: seq<Sep>)
    ensures s != [] ==> Elems(s) != {}
  {
    if s != [] {
      assert s[0] in Elems(s);
    }
  }

  /** Strictly sorted arrays with the same elements are equal. */
  lemma {:induction false} SortedByElems(s: seq<Sep>, t: seq<Sep>)
    requires KeySorted(s) && KeySorted(t) && Elems(s) == Elems(t)
    ensures s == t
  {
    if s == [] {
      SomeElem(t);
    } else {
      assert s[0] in Elems(s) && t != [];
      assert t[0] in Elems(t);
      assert s[0] == t[0] by {
        assert s[0] in t && t[0] in s;
      }
      assert Elems(s[1..]) == Elems(s) - {s[0]} by { TailElems(s); }
      assert Elems(t[1..]) == Elems(t) - {t[0]} by { TailElems(t); }
      SortedByElems(s[1..], t[1..]);
      assert s == [s[0]] + s[1..] && t == [t[0]] + t[1..];
    }
  }

  lemma TailElems(s: seq<Sep>)
    requires s != [] && KeySorted(s)
    ensures Elems(s[1..]) == Elems(s) - {s[0]}
  {
    forall x | x in s && x != s[0] ensures x in s[1..] {
      var j :| 0 <= j < |s| && s[j] == x;
      assert s[1..][j - 1] == x;
    }
  }

  // ----- how each record acts -----

  /** The real separators, in order. */
  lemma BodyIsSuffix(c: Inner, lowId: NodeId)
    requires WF(c) && LowIdOk(c, lowId)
    ensures FirstReal(c, lowId) <= |Replay(c)|
    ensures KeySorted(Replay(c)[FirstReal(c, lowId)..])
    ensures Elems(Replay(c)[FirstReal(c, lowId)..]) == Body(c, lowId)
    ensures forall x :: x in Body(c, lowId) ==> InRange(x.key, LowOf(c), HighOf(c))
  {
    ReplayOk(c);
    SuffixSorted(Replay(c), FirstReal(c, lowId), LowOf(c), HighOf(c));
    FromSuffix(Replay(c), FirstReal(c, lowId));
  }

  lemma BodyOfInsert(c: Inner, lowId: NodeId)
    requires WF(c) && c.Insert? && LowIdOk(c, lowId)
    ensures LowIdOk(c.child, lowId) && Body(c, lowId) == Body(c.child, lowId) + {c.item}
  {
    FromInserted(Replay(c.child), c.item, FirstReal(c, lowId));
  }

  lemma BodyOfDelete(c: Inner, lowId: NodeId)
    requires WF(c) && c.Delete? && LowIdOk(c, lowId)
    ensures LowIdOk(c.child, lowId) && Body(c, lowId) == Body(c.child, lowId) - {c.item}
  {
    ReplayOk(c.child);
    FromDeleted(Replay(c.child), c.item.key, FirstReal(c, lowId), LowOf(c.child), HighOf(c.child));
  }

  lemma BodyOfSplit(c: Inner, lowId: NodeId)
    requires WF(c) && c.Split? && LowIdOk(c, lowId)
    ensures LowIdOk(c.child, lowId)
    ensures Body(c, lowId) == set x | x in Body(c.child, lowId) && x.key < c.key
  {
    ReplayOk(c.child);
    FromCut(c.child.seps, c.key, FirstReal(c, lowId), c.child.low, c.child.high);
  }

  lemma FirstIdIsFirst(c: Inner)
    requires WF(c)
    ensures LowId(c) in FirstIds(c)
  {
  }

  lemma BranchLowIds(c: Inner, lowId: NodeId)
    requires WF(c) && c.Merge? && LowIdOk(c, lowId)
    ensures LowIdOk(c.child, lowId) && LowIdOk(c.right, lowId)
    ensures FirstReal(c.right, lowId) == 0 && FirstReal(c.child, lowId) == FirstReal(c, lowId)
  {
    FirstIdIsFirst(c.right);
    assert LowId(c) == LowId(c.child);
  }

  lemma BodyOfMerge(c: Inner, lowId: NodeId)
    requires WF(c) && c.Merge? && LowIdOk(c, lowId)
    ensures LowIdOk(c.child, lowId) && LowIdOk(c.right, lowId)
    ensures Body(c, lowId) == Body(c.child, lowId) + Body(c.right, lowId)
    ensures forall x :: x in Body(c.child, lowId) ==> x.key < c.key
    ensures forall x :: x in Body(c.right, lowId) ==> c.key <= x.key
  {
    BranchLowIds(c, lowId);
    ReplayOk(c.child);
    FromConcat(Replay(c.child), Replay(c.right), FirstReal(c, lowId));
    BodyIsSuffix(c.child, lowId);
    BodyIsSuffix(c.right, lowId);
  }

  lemma BodyKeysUnique(c: Inner, lowId: NodeId, x: Sep, y: Sep)
    requires WF(c) && LowIdOk(c, lowId) && x in Body(c, lowId) && y in Body(c, lowId) && x.key == y.key
    ensures x == y
  {
    BodyIsSuffix(c, lowId);
    var t := Replay(c)[FirstReal(c, lowId)..];
    assert x in Elems(t) && y in Elems(t);
    var i :| 0 <= i < |t| && t[i] == x;
    var j :| 0 <= j < |t| && t[j] == y;
  }

  /** Only the record's own separator can carry its key on either side of the record. */
  lemma RecordOwnsKey(c: Inner, lowId: NodeId, x: Sep)
    requires WF(c) && (c.Insert? || c.Delete?) && LowIdOk(c, lowId) && x.key == c.item.key
    ensures LowIdOk(c.child, lowId)
    ensures x in Body(c, lowId) <==> c.Insert? && x == c.item
  {
    if c.Insert? {
      BodyOfInsert(c, lowId);
      if x in Body(c, lowId) {
        BodyKeysUnique(c, lowId, x, c.item);
      }
    } else {
      BodyOfDelete(c, lowId);
      ReplayOk(c.child);
      var p := Locate(Replay(c.child), c.item.key);
      assert Replay(c.child)[p] in Body(c.child, lowId);
      if x in Body(c, lowId) {
        BodyKeysUnique(c.child, lowId, x, c.item);
      }
    }
  }
}
