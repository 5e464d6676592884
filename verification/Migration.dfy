/** Migrating all pairs of one store into another: pages of 64 pairs, each pair sent with a
    "put" call to the target and, if asked for, erased from the source afterwards. */
module Migration {
  import opened Keys
  import opened MapStore

  const PAGE: nat := 64

  /** How many pairs fill so many pages. */
  function Full(pages: nat): nat { 64 * pages }

  /** What the network does to one put call. */
  datatype Delivery = Answered | RequestLost | AnswerLost

  datatype Ret = SUCCESS | ERR_MIGRATION

  // ----- the paging of a store that does not change -----

  /** Keys are distinct, so only one position can hold the empty key, which as a start key
      means the beginning. If it ends a full page, paging starts over. */
  ghost predicate Stuck(s: seq<Pair>) {
    exists m: nat :: StuckAt(s, m)
  }

  /** Full page number m (from 1) ends with the empty key. */
  ghost predicate StuckAt(s: seq<Pair>, m: nat) {
    m > 0 && Full(m) <= |s| && s[Full(m) - 1].key == []
  }

  /** start is where a page begins that follows the first q pairs. */
  ghost predicate AtPos(s: seq<Pair>, start: Bytes, q: nat) {
    if q == 0 then start == [] else q <= |s| && s[q - 1].key == start && start != []
  }

  function Shorter(a: nat, b: nat): nat { if a < b then a else b }

  lemma PageAt(s: seq<Pair>, start: Bytes, q: nat, less: Less)
    requires TotalOrder(less) && Ordered(s, less) && AtPos(s, start, q)
    ensures q <= |s| && Page(s, start, PAGE, less) == s[q..Shorter(q + PAGE, |s|)]
  {
    if q > 0 {
      var u := UpperPos(s, start, less);
      assert u < q ==> Transitive(less, start, s[u].key, start);
      assert q < |s| ==> less(s[q - 1].key, s[q].key);
      assert u <= q;
    }
  }

  /** The start key of the page that is listed as number n (from 0) when nothing is erased. */
  ghost function PageStart(s: seq<Pair>, n: nat, less: Less): Bytes {
    if n == 0 then []
    else
      var page := Page(s, PageStart(s, n - 1, less), PAGE, less);
      if page == [] then PageStart(s, n - 1, less) else page[|page| - 1].key
  }

  lemma NextPos(s: seq<Pair>, start: Bytes, q: nat, less: Less)
    requires TotalOrder(less) && Ordered(s, less) && AtPos(s, start, q) && q + PAGE <= |s|
    ensures var page := Page(s, start, PAGE, less); |page| == PAGE && page[PAGE - 1] == s[q + PAGE - 1]
  {
    PageAt(s, start, q, less);
  }

  lemma OnlyOneEmptyKey(s: seq<Pair>, e: nat, j: nat, less: Less)
    requires TotalOrder(less) && Ordered(s, less) && e < |s| && j < |s| && s[e].key == [] && j != e
    ensures s[j].key != []
  {
    assert if e < j then less(s[e].key, s[j].key) else less(s[j].key, s[e].key);
  }

  /** After a full page at q the next start key is the last key of that page. */
  lemma StartAfterPage(s: seq<Pair>, q: nat, n: nat, less: Less)
    requires TotalOrder(less) && Ordered(s, less) && AtPos(s, PageStart(s, n, less), q) && q + PAGE <= |s|
    ensures PageStart(s, n + 1, less) == s[q + PAGE - 1].key
  {
    NextPos(s, PageStart(s, n, less), q, less);
  }

  /** Listing goes round through the first m pages. */
  lemma {:induction false} StuckPagesAreFull(s: seq<Pair>, m: nat, n: nat, less: Less) returns (r: nat)
    requires TotalOrder(less) && Ordered(s, less) && StuckAt(s, m)
    ensures r < m && AtPos(s, PageStart(s, n, less), Full(r))
  {
    r := 0;
    if n > 0 {
      var r0 := StuckPagesAreFull(s, m, n - 1, less);
      StartAfterPage(s, Full(r0), n - 1, less);
      if r0 + 1 != m {
        r := r0 + 1;
        OnlyOneEmptyKey(s, Full(m) - 1, Full(r) - 1, less);
      }
    }
  }

  lemma FreePageMovesOn(s: seq<Pair>, n: nat, less: Less)
    requires TotalOrder(less) && Ordered(s, less) && !StuckAt(s, n + 1) && Full(n) + PAGE <= |s|
    requires AtPos(s, PageStart(s, n, less), Full(n))
    ensures AtPos(s, PageStart(s, n + 1, less), Full(n) + PAGE)
  {
    StartAfterPage(s, Full(n), n, less);
  }

  lemma {:induction false} FreePagesMoveOn(s: seq<Pair>, n: nat, less: Less)
    requires TotalOrder(less) && Ordered(s, less) && (forall m :: 0 < m <= n ==> !StuckAt(s, m))
    requires Full(n) <= |s|
    ensures AtPos(s, PageStart(s, n, less), Full(n))
  {
    if n > 0 {
      var k := n - 1;
      FreePagesMoveOn(s, k, less);
      FreePageMovesOn(s, k, less);
      assert n == k + 1 && Full(n) == Full(k) + PAGE;
    }
  }

  /** Without erasing, some page is short, which ends the loop, if and only if the empty key
      is not the last key of a full page. A store without an empty key always ends. */
  lemma PagingEndsIff(s: seq<Pair>, less: Less)
    requires TotalOrder(less) && Ordered(s, less)
    ensures (exists n: nat :: |Page(s, PageStart(s, n, less), PAGE, less)| < PAGE) <==> !Stuck(s)
    ensures !HasKey(Elems(s), []) ==> !Stuck(s)
  {
    if Stuck(s) {
      var m: nat :| StuckAt(s, m);
      assert s[Full(m) - 1] in Elems(s);
      forall n: nat ensures |Page(s, PageStart(s, n, less), PAGE, less)| == PAGE {
        var r := StuckPagesAreFull(s, m, n, less);
        NextPos(s, PageStart(s, n, less), Full(r), less);
      }
    } else {
      var n := |s| / PAGE;
      FreePagesMoveOn(s, n, less);
      PageAt(s, PageStart(s, n, less), Full(n), less);
      assert |Page(s, PageStart(s, n, less), PAGE, less)| < PAGE;
    }
  }

  /** In the default order the empty key comes first, so paging always ends. */
  lemma DefaultOrderNeverStuck(s: seq<Pair>)
    requires Ordered(s, LexLess)
    ensures !Stuck(s)
  {
    forall m: nat | 0 < m && Full(m) <= |s| ensures s[Full(m) - 1].key != [] {
      assert LexLess(s[0].key, s[Full(m) - 1].key);
    }
  }

  /** The default order turned round, as a comparison function may be. */
  predicate Descending(a: Bytes, b: Bytes) {
    LexLess(b, a)
  }

  lemma DescendingIsTotal()
    ensures TotalOrder(Descending)
  {
    LexIsTotal();
    forall a, b, c ensures Transitive(Descending, a, b, c) { LexTransitive(c, b, a); }
    forall a, b ensures Comparable(Descending, a, b) { LexComparable(a, b); }
  }

  function OneByte(i: nat): Pair
    requires i < PAGE
  {
    Pair(if i == PAGE - 1 then [] else [(100 - i) as Char], [])
  }

  /** 64 one-byte keys, the last one empty, in descending order. */
  function EndlessStore(): seq<Pair> {
    seq(PAGE, i requires 0 <= i < PAGE => OneByte(i))
  }

  /** A store for which paging without erasing never ends: every page is the whole store. */
  lemma EndlessStoreIsStuck(n: nat)
    ensures TotalOrder(Descending) && Ordered(EndlessStore(), Descending) && Stuck(EndlessStore())
    ensures Page(EndlessStore(), PageStart(EndlessStore(), n, Descending), PAGE, Descending) == EndlessStore()
  {
    DescendingIsTotal();
    var s := EndlessStore();
    assert Ordered(s, Descending);
    assert StuckAt(s, 1);
    var r := StuckPagesAreFull(s, 1, n, Descending);
    PageAt(s, PageStart(s, n, Descending), 0, Descending);
  }

  // ----- one pair -----

  /** The target's pairs after the first n were put one by one. */
  ghost function Arrived(before: set<Pair>, s: seq<Pair>, n: nat): set<Pair>
    requires n <= |s|
  {
    if n == 0 then before else Without(Arrived(before, s, n - 1), s[n - 1].key) + {s[n - 1]}
  }

  lemma OverriddenNext(before: set<Pair>, s: seq<Pair>, n: nat, less: Less)
    requires TotalOrder(less) && Ordered(s, less) && n < |s|
    ensures Overridden(before, Elems(s[..n + 1]))
         == Without(Overridden(before, Elems(s[..n])), s[n].key) + {s[n]}
  {
    var done := Elems(s[..n]);
    assert s[..n + 1] == s[..n] + [s[n]];
    ElemsAppend(s[..n], s[n]);
    forall p | p in done ensures p.key != s[n].key {
      var j :| 0 <= j < n && s[..n][j] == p;
      assert less(s[j].key, s[n].key);
    }
    forall k: Bytes ensures HasKey(done + {s[n]}, k) <==> HasKey(done, k) || k == s[n].key {
      if HasKey(done, k) {
        var p :| p in done && p.key == k;
        assert p in done + {s[n]};
      }
      assert s[n] in done + {s[n]};
    }
  }

  /** Keys are distinct, so putting one by one overrides with all of them at once. */
  lemma {:induction false} ArrivedIsOverridden(before: set<Pair>, s: seq<Pair>, n: nat, less: Less)
    requires TotalOrder(less) && Ordered(s, less) && n <= |s|
    ensures Arrived(before, s, n) == Overridden(before, Elems(s[..n]))
  {
    if n == 0 {
      assert Elems(s[..0]) == {};
    } else {
      ArrivedIsOverridden(before, s, n - 1, less);
      OverriddenNext(before, s, n - 1, less);
    }
  }

  /** The first n pairs have arrived, and were erased if asked for. */
  ghost predicate Moved(items: seq<Pair>, pairs: set<Pair>, s: seq<Pair>, before: set<Pair>, n: nat, remove: bool) {
    n <= |s| && items == (if remove then s[n..] else s) && pairs == Arrived(before, s, n)
  }

  /** The call for pair n failed; it may have been executed all the same. */
  ghost predicate Broken(items: seq<Pair>, pairs: set<Pair>, s: seq<Pair>, before: set<Pair>, n: nat, remove: bool) {
    && n < |s| && items == (if remove then s[n..] else s)
    && (pairs == Arrived(before, s, n) || pairs == Arrived(before, s, n + 1))
  }

  /** Every original pair is still in the source or has arrived. */
  lemma NothingLost(items: seq<Pair>, pairs: set<Pair>, s: seq<Pair>, before: set<Pair>, n: nat, remove: bool,
                    less: Less)
    requires TotalOrder(less) && Ordered(s, less)
    requires Moved(items, pairs, s, before, n, remove) || Broken(items, pairs, s, before, n, remove)
    ensures forall p :: p in s ==> p in items || p in pairs
  {
    ArrivedIsOverridden(before, s, n, less);
    if n < |s| {
      ArrivedIsOverridden(before, s, n + 1, less);
    }
    forall p | p in s ensures p in items || p in pairs {
      var j :| 0 <= j < |s| && s[j] == p;
      if j < n {
        assert s[..n][j] == p;
        assert n < |s| ==> s[..n + 1][j] == p;
      } else {
        assert s[n..][j - n] == p;
      }
    }
  }

  method PutRpc(target: MapDataStore, kv: Pair, d: Delivery) returns (ok: bool)
    requires target.Valid()
    modifies target
    ensures target.Valid()
    ensures ok <==> d.Answered? && !(target.noOverwrite && HasKey(old(target.Pairs()), kv.key))
    ensures ok ==> target.Pairs() == Without(old(target.Pairs()), kv.key) + {kv}
    ensures !ok ==> target.Pairs() == old(target.Pairs())
                    || target.Pairs() == Without(old(target.Pairs()), kv.key) + {kv}
  {
    if d.RequestLost? {
      return false;
    }
    ok := target.Put(kv.key, kv.val);
    ok := ok && d.Answered?;
  }

  /** The target refuses none of the first n pairs. */
  ghost predicate Accepts(noOverwrite: bool, before: set<Pair>, s: seq<Pair>, n: nat)
    requires n <= |s|
  {
    noOverwrite ==> forall j :: 0 <= j < n ==> !HasKey(before, s[j].key)
  }

  lemma RefusedIsOld(before: set<Pair>, s: seq<Pair>, n: nat, less: Less)
    requires TotalOrder(less) && Ordered(s, less) && n < |s|
    ensures HasKey(Arrived(before, s, n), s[n].key) <==> HasKey(before, s[n].key)
  {
    ArrivedIsOverridden(before, s, n, less);
    var done, k := Elems(s[..n]), s[n].key;
    forall p | p in done ensures p.key != k {
      var j :| 0 <= j < n && s[..n][j] == p;
      assert less(s[j].key, k);
    }
    if HasKey(before, k) {
      var p :| p in before && p.key == k;
      assert p in Overridden(before, done);
    }
  }

  /** The two stores after n successful calls. */
  ghost predicate Progress(source: MapDataStore, target: MapDataStore, s: seq<Pair>, before: set<Pair>,
                           n: nat, remove: bool)
    reads source, target
  {
    && source.Valid() && target.Valid() && source != target && Ordered(s, source.less)
    && Moved(source.items, target.Pairs(), s, before, n, remove)
    && Accepts(target.noOverwrite, before, s, n)
  }

  /** The two stores after the call for pair n failed, through the network or because the
      target refuses to overwrite. */
  ghost predicate Failed(source: MapDataStore, target: MapDataStore, s: seq<Pair>, before: set<Pair>,
                         n: nat, remove: bool, d: Delivery)
    reads source, target
  {
    && source.Valid() && target.Valid()
    && Broken(source.items, target.Pairs(), s, before, n, remove)
    && (!d.Answered? || (target.noOverwrite && HasKey(before, s[n].key)))
  }

  method MoveOne(kv: Pair, source: MapDataStore, target: MapDataStore, remove: bool, d: Delivery,
                 ghost s: seq<Pair>, ghost before: set<Pair>, ghost n: nat)
    returns (ok: bool)
    requires Progress(source, target, s, before, n, remove) && n < |s| && kv == s[n]
    modifies source, target
    ensures ok ==> Progress(source, target, s, before, n + 1, remove)
    ensures !ok ==> Failed(source, target, s, before, n, remove, d)
  {
    RefusedIsOld(before, s, n, source.less);
    ok := PutRpc(target, kv, d);
    if ok && remove {
      assert source.items[0] == kv;
      var _ := source.Erase(kv.key);
      assert s[n..][1..] == s[n + 1..];
    }
  }

  /** One page; on failure at names the pair whose call failed. */
  method MoveBatch(batch: seq<Pair>, source: MapDataStore, target: MapDataStore, remove: bool,
                   net: nat -> Delivery, calls: nat, ghost s: seq<Pair>, ghost before: set<Pair>)
    returns (ok: bool, ghost at: nat)
    requires Progress(source, target, s, before, calls, remove)
    requires calls + |batch| <= |s| && batch == s[calls..calls + |batch|]
    modifies source, target
    ensures ok ==> Progress(source, target, s, before, calls + |batch|, remove)
    ensures !ok ==> at < |s| && Failed(source, target, s, before, at, remove, net(at))
  {
    at := calls;
    for i := 0 to |batch|
      invariant at == calls + i && Progress(source, target, s, before, at, remove)
    {
      assert batch[i] == s[at];
      ok := MoveOne(batch[i], source, target, remove, net(calls + i), s, before, at);
      if !ok {
        return;
      }
      at := at + 1;
    }
    ok := true;
  }

  /** list_keyvals as the loop uses it: the page behind the pairs moved so far. */
  method ListBatch(source: MapDataStore, startKey: Bytes, n: nat, ghost s: seq<Pair>, remove: bool)
    returns (batch: seq<Pair>)
    requires source.Valid() && n <= |s| && TotalOrder(source.less) && Ordered(s, source.less)
    requires source.items == if remove then s[n..] else s
    requires if remove then startKey == [] else AtPos(s, startKey, n)
    ensures batch == s[n..Shorter(n + PAGE, |s|)]
  {
    batch := source.ListKeyvals(startKey, PAGE);
    BatchIsNextPage(source.items, s, startKey, n, remove, source.less);
  }

  /** One round of the loop: lists a page and moves it; a short page is the last one. */
  method MovePage(source: MapDataStore, target: MapDataStore, remove: bool, net: nat -> Delivery,
                  startKey: Bytes, calls: nat, ghost s: seq<Pair>, ghost before: set<Pair>)
    returns (ok: bool, last: bool, next: Bytes, ghost at: nat)
    requires Progress(source, target, s, before, calls, remove)
    requires if remove then startKey == [] else AtPos(s, startKey, calls)
    modifies source, target
    ensures !ok ==> at < |s| && Failed(source, target, s, before, at, remove, net(at))
    ensures ok && last ==> Progress(source, target, s, before, |s|, remove)
    ensures ok && !last ==>
              && calls + PAGE <= |s| && Progress(source, target, s, before, calls + PAGE, remove)
              && next == if remove then startKey else s[calls + PAGE - 1].key
  {
    var batch := ListBatch(source, startKey, calls, s, remove);
    next := startKey;
    if |batch| == 0 {
      return true, true, next, 0;
    }
    ok, at := MoveBatch(batch, source, target, remove, net, calls, s, before);
    if ok && !remove {
      next := batch[|batch| - 1].key;
    }
    last := |batch| != PAGE;
  }

  /** The loop over pages, which ends by itself. */
  method MoveAll(source: MapDataStore, target: MapDataStore, remove: bool, net: nat -> Delivery,
                 ghost s: seq<Pair>, ghost before: set<Pair>)
    returns (ok: bool, ghost at: nat)
    requires Progress(source, target, s, before, 0, remove) && (remove || !Stuck(s))
    modifies source, target
    ensures ok ==> Progress(source, target, s, before, |s|, remove)
    ensures !ok ==> at < |s| && Failed(source, target, s, before, at, remove, net(at))
  {
    var startKey: Bytes := [];
    var pages: nat := 0;
    while true
      invariant Full(pages) <= |s| && Progress(source, target, s, before, Full(pages), remove)
      invariant if remove then startKey == [] else AtPos(s, startKey, Full(pages))
      decreases |s| - Full(pages)
    {
      var last: bool;
      ok, last, startKey, at := MovePage(source, target, remove, net, startKey, Full(pages), s, before);
      if !ok || last {
        return;
      }
      pages := pages + 1;
      assert !remove ==> !StuckAt(s, pages);
    }
  }

  lemma NothingMovedYet(s: seq<Pair>, before: set<Pair>, remove: bool)
    ensures Moved(s, before, s, before, 0, remove)
  {
    assert s[0..] == s;
  }

  lemma AllMoved(s: seq<Pair>)
    ensures s[..|s|] == s && s[|s|..] == []
  {
  }

  /** sdskv_migrate_all_keys: puts are numbered, and net says what happens to each. For a
      target distinct from the source; when nothing is erased, the premise is exactly what
      makes the paging end. */
  method MigrateAllKeys(source: MapDataStore, target: MapDataStore, remove: bool, net: nat -> Delivery)
    returns (ret: Ret, ghost at: nat)
    requires source.Valid() && target.Valid() && source != target
    requires remove || !Stuck(source.items)
    modifies source, target
    ensures source.Valid() && target.Valid()
    ensures forall p :: p in old(source.items) ==> p in source.items || p in target.Pairs()
    ensures ret.SUCCESS? ==>
              && target.Pairs() == Overridden(old(target.Pairs()), old(source.Pairs()))
              && source.items == (if remove then [] else old(source.items))
              && Accepts(target.noOverwrite, old(target.Pairs()), old(source.items), |old(source.items)|)
    ensures ret.ERR_MIGRATION? ==>
              at < |old(source.items)|
              && Failed(source, target, old(source.items), old(target.Pairs()), at, remove, net(at))
  {
    ghost var s, before := source.items, target.Pairs();
    NothingMovedYet(s, before, remove);
    var ok: bool;
    ok, at := MoveAll(source, target, remove, net, s, before);
    AllMoved(s);
    ArrivedIsOverridden(before, s, |s|, source.less);
    NothingLost(source.items, target.Pairs(), s, before, if ok then |s| else at, remove, source.less);
    ret := if ok then SUCCESS else ERR_MIGRATION;
  }

  lemma BatchIsNextPage(items: seq<Pair>, s: seq<Pair>, startKey: Bytes, n: nat, remove: bool, less: Less)
    requires TotalOrder(less) && Ordered(s, less) && n <= |s| && items == if remove then s[n..] else s
    requires if remove then startKey == [] else AtPos(s, startKey, n)
    ensures Page(items, startKey, PAGE, less) == s[n..Shorter(n + PAGE, |s|)]
  {
    if !remove {
      PageAt(s, startKey, n, less);
    }
  }
}
