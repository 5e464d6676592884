/** Keys, values and ordered arrays shared by the Bw-Tree modules.

    The tree only ever compares keys (KeyComparator, KeyEqualityChecker), so a
    key is an integer; values are only ever compared for equality, so the value
    type stays abstract. INVALID_NODE_ID as the id of a high key means that the
    node is the last one on its level: that sentinel is the constructor PosInf.
 */
module Keys {

  type Key = int
  type Value(==, !new, 0)
  type NodeId = nat

  datatype KV = KV(key: Key, val: Value)

  /** Low key of a node; NegInf is the placeholder of a leftmost node. */
  datatype Low = NegInf | LowKey(key: Key)

  /** High key pair of a node: the exclusive upper bound and the next node id. */
  datatype High = PosInf | HighKey(key: Key, next: NodeId)

  predicate AtOrAbove(k: Key, low: Low) {
    low.LowKey? ==> low.key <= k
  }

  predicate Below(k: Key, high: High) {
    high.HighKey? ==> k < high.key
  }

  predicate InRange(k: Key, low: Low, high: High) {
    AtOrAbove(k, low) && Below(k, high)
  }

  predicate NonEmptyRange(low: Low, high: High) {
    low.LowKey? && high.HighKey? ==> low.key < high.key
  }

  predicate AboveLow(k: Key, low: Low) {
    low.LowKey? ==> low.key < k
  }

  /** A separator of an inner node: the child id holds the keys from key on. */
  datatype Sep = Sep(key: Key, id: NodeId)

  /** Keys never decrease along the array (equal keys carry different values). */
  ghost predicate SortedByKey(s: seq<KV>) {
    forall i, j :: 0 <= i < j < |s| ==> s[i].key <= s[j].key
  }

  ghost predicate Distinct<T>(s: seq<T>) {
    forall i, j :: 0 <= i < j < |s| ==> s[i] != s[j]
  }

  ghost function Elems<T>(s: seq<T>): set<T> {
    set x | x in s
  }

  /** std::lower_bound over s[from..]: the first index whose key is >= k. */
  function LowerBound(s: seq<KV>, k: Key, from: nat := 0): (i: nat)
    requires from <= |s|
    ensures from <= i <= |s|
    ensures forall j :: from <= j < i ==> s[j].key < k
    ensures i < |s| ==> k <= s[i].key
    decreases |s| - from
  {
    if from == |s| || k <= s[from].key then from else LowerBound(s, k, from + 1)
  }

  /** std::upper_bound over s[from..]: the first index whose key is > k. */
  function UpperBound(s: seq<KV>, k: Key, from: nat := 0): (i: nat)
    requires from <= |s|
    ensures from <= i <= |s|
    ensures forall j :: from <= j < i ==> s[j].key <= k
    ensures i < |s| ==> k < s[i].key
    decreases |s| - from
  {
    if from == |s| || k < s[from].key then from else UpperBound(s, k, from + 1)
  }

  lemma AppendAssoc<T>(a: seq<T>, b: seq<T>, c: seq<T>)
    ensures (a + b) + c == a + (b + c)
  {
  }

  lemma ElemsAppend<T>(s: seq<T>, x: T)
    ensures Elems(s + [x]) == Elems(s) + {x}
  {
  }

  lemma DistinctElemsSize<T>(s: seq<T>)
    requires Distinct(s)
    ensures |Elems(s)| == |s|
  {
    if s != [] {
      var n := |s| - 1;
      DistinctElemsSize(s[..n]);
      assert Elems(s) == Elems(s[..n]) + {s[n]};
      assert s[n] !in Elems(s[..n]);
    }
  }
}
