/** The ordered in-memory store: a std::map from byte strings to byte strings under the
    comparison function of the database, kept here as its pairs in order. */
module MapStore {
  import opened Keys
  import SS = SortedSmallSet

  /** A char of ds_bulk_t, signed as on the usual platforms; only its order matters. */
  newtype Char = x: int | -128 <= x < 128

  type Bytes = seq<Char>

  datatype Pair = Pair(key: Bytes, val: Bytes)

  type Less = (Bytes, Bytes) -> bool

  ghost predicate Transitive(less: Less, a: Bytes, b: Bytes, c: Bytes) {
    less(a, b) && less(b, c) ==> less(a, c)
  }

  ghost predicate Comparable(less: Less, a: Bytes, b: Bytes) {
    a != b ==> less(a, b) || less(b, a)
  }

  ghost predicate TotalOrder(less: Less) {
    && (forall a :: !less(a, a))
    && (forall a, b, c {:trigger Transitive(less, a, b, c)} :: Transitive(less, a, b, c))
    && (forall a, b {:trigger Comparable(less, a, b)} :: Comparable(less, a, b))
  }

  /** std::less on ds_bulk_t, the order of a database without a comparison function. */
  predicate LexLess(a: Bytes, b: Bytes) {
    if b == [] then false
    else if a == [] then true
    else a[0] < b[0] || (a[0] == b[0] && LexLess(a[1..], b[1..]))
  }

  /** a and b agree before position n, where b goes on with a larger byte or a has ended. */
  predicate DifferAt(a: Bytes, b: Bytes, n: int) {
    && 0 <= n <= |a| && n < |b| && a[..n] == b[..n]
    && (n == |a| || a[n] < b[n])
  }

  /** The first byte in which two keys differ decides, and a proper prefix comes first. */
  lemma {:induction false} FirstDifferenceDecides(a: Bytes, b: Bytes)
    ensures LexLess(a, b) <==> exists n :: DifferAt(a, b, n)
  {
    if a != [] && b != [] && a[0] == b[0] {
      FirstDifferenceDecides(a[1..], b[1..]);
      forall n ensures DifferAt(a[1..], b[1..], n) <==> n >= 0 && DifferAt(a, b, n + 1) {
        DifferFurtherOn(a, b, n);
      }
      if n :| DifferAt(a, b, n) {
        assert n > 0;
        assert DifferAt(a[1..], b[1..], n - 1);
      }
    } else if LexLess(a, b) {
      assert DifferAt(a, b, 0);
    } else {
      forall n ensures DifferAt(a, b, n) ==> n == 0 || (a != [] && b != [] && a[0] == b[0]) {
        AgreeAtHead(a, b, n);
      }
    }
  }

  lemma AgreeAtHead(a: Bytes, b: Bytes, n: int)
    ensures DifferAt(a, b, n) ==> n == 0 || (a != [] && b != [] && a[0] == b[0])
  {
    if DifferAt(a, b, n) && n > 0 {
      assert a[..n][0] == b[..n][0];
    }
  }

  lemma DifferFurtherOn(a: Bytes, b: Bytes, n: int)
    requires a != [] && b != [] && a[0] == b[0]
    ensures DifferAt(a[1..], b[1..], n) <==> n >= 0 && DifferAt(a, b, n + 1)
  {
    if 0 <= n < |a| && n < |b| {
      assert a[..n + 1] == [a[0]] + a[1..][..n] && b[..n + 1] == [b[0]] + b[1..][..n];
      assert a[1..][..n] == a[..n + 1][1..] && b[1..][..n] == b[..n + 1][1..];
    }
  }

  lemma LexIrreflexive(a: Bytes)
    ensures !LexLess(a, a)
  {
  }

  lemma {:induction false} LexTransitive(a: Bytes, b: Bytes, c: Bytes)
    ensures Transitive(LexLess, a, b, c)
  {
    if a != [] && b != [] && c != [] {
      LexTransitive(a[1..], b[1..], c[1..]);
    }
  }

  lemma {:induction false} LexComparable(a: Bytes, b: Bytes)
    ensures Comparable(LexLess, a, b)
  {
    if a != [] && b != [] && a[0] == b[0] {
      LexComparable(a[1..], b[1..]);
      assert a == [a[0]] + a[1..] && b == [b[0]] + b[1..];
    }
  }

  lemma LexIsTotal()
    ensures TotalOrder(LexLess)
  {
    forall a: Bytes ensures !LexLess(a, a) { LexIrreflexive(a); }
    forall a, b, c ensures Transitive(LexLess, a, b, c) { LexTransitive(a, b, c); }
    forall a, b ensures Comparable(LexLess, a, b) { LexComparable(a, b); }
  }

  ghost predicate Ordered(s: seq<Pair>, less: Less) {
    forall i, j :: 0 <= i < j < |s| ==> less(s[i].key, s[j].key)
  }

  /** First position whose key is not below k. */
  function LowerPos(s: seq<Pair>, k: Bytes, less: Less): (i: nat)
    ensures i <= |s|
    ensures forall j :: 0 <= j < i ==> less(s[j].key, k)
    ensures i < |s| ==> !less(s[i].key, k)
  {
    if s == [] || !less(s[0].key, k) then 0 else 1 + LowerPos(s[1..], k, less)
  }

  /** std::map::upper_bound: first position whose key is above k. */
  function UpperPos(s: seq<Pair>, k: Bytes, less: Less): (i: nat)
    ensures i <= |s|
    ensures forall j :: 0 <= j < i ==> !less(k, s[j].key)
    ensures i < |s| ==> less(k, s[i].key)
  {
    if s == [] || less(k, s[0].key) then 0 else 1 + UpperPos(s[1..], k, less)
  }

  ghost predicate HasKey(pairs: set<Pair>, k: Bytes) {
    exists p :: p in pairs && p.key == k
  }

  ghost function Without(pairs: set<Pair>, k: Bytes): set<Pair> {
    set p | p in pairs && p.key != k
  }

  /** under, with the pairs of over put on top. */
  ghost function Overridden(under: set<Pair>, over: set<Pair>): set<Pair> {
    (set p | p in under && !HasKey(over, p.key)) + over
  }

  ghost predicate OneValuePerKey(pairs: set<Pair>) {
    forall p, q :: p in pairs && q in pairs && p.key == q.key ==> p == q
  }

  lemma OrderedIsFunctional(s: seq<Pair>, less: Less)
    requires TotalOrder(less) && Ordered(s, less)
    ensures OneValuePerKey(Elems(s)) && Distinct(s)
  {
  }

  /** Only the slot found by lower bound can hold the key. */
  lemma KeyIsAtLowerPos(s: seq<Pair>, k: Bytes, less: Less, j: nat)
    requires TotalOrder(less) && Ordered(s, less) && j < |s| && s[j].key == k
    ensures LowerPos(s, k, less) == j
  {
    var i := LowerPos(s, k, less);
    assert i <= j;
  }

  lemma InsertKeepsOrder(s: seq<Pair>, p: Pair, less: Less)
    requires TotalOrder(less) && Ordered(s, less) && !HasKey(Elems(s), p.key)
    ensures Ordered(SS.Inserted(s, LowerPos(s, p.key, less), p), less)
  {
    var u := LowerPos(s, p.key, less);
    var r := SS.Inserted(s, u, p);
    forall j | u <= j < |s| ensures less(p.key, s[j].key) {
      assert s[j] in Elems(s);
      assert s[u] in Elems(s) && Comparable(less, p.key, s[u].key);
      assert u < j ==> Transitive(less, p.key, s[u].key, s[j].key);
    }
    forall i, j | 0 <= i < j < |r| ensures less(r[i].key, r[j].key) {
      OrderedPair(s, u, p, less, i, j);
    }
  }

  lemma OrderedPair(s: seq<Pair>, u: nat, p: Pair, less: Less, i: nat, j: nat)
    requires TotalOrder(less) && Ordered(s, less) && u <= |s| && i < j <= |s|
    requires (forall k :: 0 <= k < u ==> less(s[k].key, p.key)) && (forall k :: u <= k < |s| ==> less(p.key, s[k].key))
    ensures var r := SS.Inserted(s, u, p); less(r[i].key, r[j].key)
  {
    if j < u {
      assert less(s[i].key, s[j].key);
    } else if i < u && j > u {
      assert less(s[i].key, s[j - 1].key);
    } else if i > u {
      assert less(s[i - 1].key, s[j - 1].key);
    }
  }

  lemma InsertedElems(s: seq<Pair>, u: nat, p: Pair)
    requires u <= |s|
    ensures Elems(SS.Inserted(s, u, p)) == Elems(s) + {p}
  {
    var r := SS.Inserted(s, u, p);
    assert r[u] == p;
    forall x | x in s ensures x in r {
      var j :| 0 <= j < |s| && s[j] == x;
      assert r[if j < u then j else j + 1] == x;
    }
  }

  lemma RemovedElems(s: seq<Pair>, i: nat, less: Less)
    requires TotalOrder(less) && Ordered(s, less) && i < |s|
    ensures Elems(s[..i] + s[i + 1..]) == Without(Elems(s), s[i].key)
    ensures Ordered(s[..i] + s[i + 1..], less)
  {
    var r := s[..i] + s[i + 1..];
    forall x | x in s && x.key != s[i].key ensures x in r {
      var j :| 0 <= j < |s| && s[j] == x;
      assert r[if j < i then j else j - 1] == x;
    }
    forall x | x in r ensures x in s && x.key != s[i].key {
      var j :| 0 <= j < |r| && r[j] == x;
      assert x == s[if j < i then j else j + 1];
    }
  }

  lemma UpdatedElems(s: seq<Pair>, i: nat, p: Pair, less: Less)
    requires TotalOrder(less) && Ordered(s, less) && i < |s| && s[i].key == p.key
    ensures Elems(s[i := p]) == Without(Elems(s), p.key) + {p}
    ensures Ordered(s[i := p], less)
  {
    var r := s[i := p];
    forall x | x in s && x.key != p.key ensures x in r {
      var j :| 0 <= j < |s| && s[j] == x;
      assert r[j] == x;
    }
    assert r[i] == p;
    forall x | x in r ensures x == p || (x in s && x.key != p.key) {
      var j :| 0 <= j < |r| && r[j] == x;
      assert j != i ==> s[j] == x && (less(s[j].key, s[i].key) || less(s[i].key, s[j].key));
    }
  }

  class MapDataStore {
    var items: seq<Pair>
    const less: Less
    const noOverwrite: bool

    ghost predicate Valid()
      reads this
    {
      TotalOrder(less) && Ordered(items, less)
    }

    ghost function Pairs(): set<Pair>
      reads this
    {
      Elems(items)
    }

    constructor (less: Less, noOverwrite: bool)
      requires TotalOrder(less)
      ensures Valid() && items == [] && this.less == less && this.noOverwrite == noOverwrite
    {
      items, this.less, this.noOverwrite := [], less, noOverwrite;
    }

    /** put: false stands for SDSKV_ERR_KEYEXISTS. */
    method Put(key: Bytes, val: Bytes) returns (ok: bool)
      requires Valid()
      modifies this
      ensures Valid()
      ensures ok == !(noOverwrite && HasKey(old(Pairs()), key))
      ensures Pairs() == if ok then Without(old(Pairs()), key) + {Pair(key, val)} else old(Pairs())
      ensures !ok ==> items == old(items)
    {
      var i := LowerPos(items, key, less);
      var present := i < |items| && items[i].key == key;
      FoundIffPresent(items, key, less);
      if noOverwrite && present {
        return false;
      }
      if present {
        UpdatedElems(items, i, Pair(key, val), less);
        items := items[i := Pair(key, val)];
      } else {
        InsertKeepsOrder(items, Pair(key, val), less);
        InsertedElems(items, i, Pair(key, val));
        items := SS.Inserted(items, i, Pair(key, val));
      }
      return true;
    }

    method Get(key: Bytes) returns (found: bool, val: Bytes)
      requires Valid()
      ensures found == HasKey(Pairs(), key)
      ensures found ==> Pair(key, val) in Pairs()
    {
      var i := LowerPos(items, key, less);
      FoundIffPresent(items, key, less);
      found := i < |items| && items[i].key == key;
      val := if found then items[i].val else [];
      assert found ==> items[i] == Pair(key, val);
    }

    method Erase(key: Bytes) returns (found: bool)
      requires Valid()
      modifies this
      ensures Valid() && found == HasKey(old(Pairs()), key) && Pairs() == Without(old(Pairs()), key)
      ensures old(items) != [] && old(items)[0].key == key ==> items == old(items)[1..]
    {
      var i := LowerPos(items, key, less);
      FoundIffPresent(items, key, less);
      found := i < |items| && items[i].key == key;
      if items != [] && items[0].key == key {
        KeyIsAtLowerPos(items, key, less, 0);
      }
      if found {
        RemovedElems(items, i, less);
        items := items[..i] + items[i + 1..];
      }
    }

    /** vlist_keyvals with the empty prefix: the first count pairs above startKey in order,
        an empty start key meaning the beginning. */
    method ListKeyvals(startKey: Bytes, count: nat) returns (result: seq<Pair>)
      requires Valid()
      ensures result == Page(items, startKey, count, less)
      ensures FirstsAbove(result, items, startKey, count, less)
    {
      var it := if |startKey| > 0 then UpperPos(items, startKey, less) else 0;
      ghost var first := it;
      result := [];
      while |result| < count && it < |items|
        invariant first <= it <= |items| && |result| <= count
        invariant result == items[first..it]
      {
        result := result + [items[it]];
        it := it + 1;
      }
      PageIsFirstsAbove(items, startKey, count, less);
    }
  }

  ghost function Above(pairs: set<Pair>, startKey: Bytes, less: Less): set<Pair> {
    set p | p in pairs && (startKey == [] || less(startKey, p.key))
  }

  ghost predicate RunAt(page: seq<Pair>, s: seq<Pair>, n: nat) {
    n + |page| <= |s| && page == s[n..n + |page|]
  }

  /** As many pairs as there are above startKey, but at most count; they stand side by side
      in the store, and every pair left out comes after them. */
  ghost predicate FirstsAbove(page: seq<Pair>, s: seq<Pair>, startKey: Bytes, count: nat, less: Less) {
    var above := Above(Elems(s), startKey, less);
    && (exists n :: RunAt(page, s, n))
    && Elems(page) <= above
    && (forall p, q :: p in page && q in above && q !in page ==> less(p.key, q.key))
    && |page| == if count <= |above| then count else |above|
  }

  lemma AboveIsSuffix(s: seq<Pair>, startKey: Bytes, less: Less)
    requires TotalOrder(less) && Ordered(s, less)
    ensures Above(Elems(s), startKey, less) == Elems(s[if |startKey| > 0 then UpperPos(s, startKey, less) else 0..])
  {
    var u := if |startKey| > 0 then UpperPos(s, startKey, less) else 0;
    forall j | u <= j < |s| && startKey != [] ensures less(startKey, s[j].key) {
      assert Transitive(less, startKey, s[u].key, s[j].key);
    }
    forall p ensures p in Above(Elems(s), startKey, less) <==> p in s[u..] {
      if p in s {
        var j :| 0 <= j < |s| && s[j] == p;
        assert u <= j ==> s[u..][j - u] == p;
      }
      if p in s[u..] {
        var j :| 0 <= j < |s| - u && s[u..][j] == p;
        assert s[u + j] == p;
      }
    }
  }

  lemma HeadBeforeTail(s: seq<Pair>, m: nat, p: Pair, q: Pair, less: Less)
    requires Ordered(s, less) && m <= |s| && p in s[..m] && q in s && q !in s[..m]
    ensures less(p.key, q.key)
  {
    var i :| 0 <= i < m && s[..m][i] == p;
    var j :| 0 <= j < |s| && s[j] == q;
    assert forall k :: 0 <= k < m ==> s[k] in s[..m];
  }

  lemma PageIsFirstsAbove(s: seq<Pair>, startKey: Bytes, count: nat, less: Less)
    requires TotalOrder(less) && Ordered(s, less)
    ensures FirstsAbove(Page(s, startKey, count, less), s, startKey, count, less)
  {
    var u := if |startKey| > 0 then UpperPos(s, startKey, less) else 0;
    var page, rest := Page(s, startKey, count, less), s[u..];
    var m := |page|;
    AboveIsSuffix(s, startKey, less);
    OrderedIsFunctional(rest, less);
    DistinctElemsSize(rest);
    assert RunAt(page, s, u);
    assert page == rest[..m];
    forall p, q | p in page && q in Above(Elems(s), startKey, less) && q !in page ensures less(p.key, q.key) {
      HeadBeforeTail(rest, m, p, q, less);
    }
  }

  function Page(s: seq<Pair>, startKey: Bytes, count: nat, less: Less): seq<Pair> {
    var first := if |startKey| > 0 then UpperPos(s, startKey, less) else 0;
    s[first..if first + count <= |s| then first + count else |s|]
  }

  lemma FoundIffPresent(s: seq<Pair>, k: Bytes, less: Less)
    requires TotalOrder(less) && Ordered(s, less)
    ensures var i := LowerPos(s, k, less); (i < |s| && s[i].key == k) <==> HasKey(Elems(s), k)
  {
    var i := LowerPos(s, k, less);
    if i < |s| && s[i].key == k {
      assert s[i] in Elems(s);
    }
    if HasKey(Elems(s), k) {
      var p :| p in Elems(s) && p.key == k;
      var j :| 0 <= j < |s| && s[j] == p;
      KeyIsAtLowerPos(s, k, less, j);
    }
  }
}
