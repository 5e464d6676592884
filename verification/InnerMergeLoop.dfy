/** Merging one inner base array with the records posted on it, by key. */
module InnerMergeLoop {
  import opened Keys
  import opened InnerChain
  import opened InnerBody
  import opened ElasticNode
  import SS = SortedSmallSet

  /** An InnerInsert or InnerDelete record as the sorted set sees it. */
  datatype SepRecord = SepRecord(item: Sep, insert: bool)

  function RecordKey(d: SepRecord): Key {
    d.item.key
  }

  predicate KeyBefore(a: SepRecord, b: SepRecord) {
    a.item.key < b.item.key
  }

  predicate SameKey(a: SepRecord, b: SepRecord) {
    a.item.key == b.item.key
  }

  ghost predicate Ordered(s: seq<SepRecord>) {
    forall i, j :: 0 <= i < j < |s| ==> s[i].item.key < s[j].item.key
  }

  ghost function KeysOf(s: seq<SepRecord>): set<Key> {
    set r | r in s :: r.item.key
  }

  ghost function InsertedBy(s: seq<SepRecord>): set<Sep> {
    set r | r in s && r.insert :: r.item
  }

  ghost function Kept(seps: seq<Sep>, s: seq<SepRecord>, n: nat): set<Sep>
    requires n <= |seps|
  {
    set i | 0 <= i < n && seps[i].key !in KeysOf(s) :: seps[i]
  }

  /** a slots and n records are merged into r. */
  ghost predicate MergeInv(seps: seq<Sep>, s: seq<SepRecord>, a: nat, n: nat, r: seq<Sep>) {
    && a <= |seps| && n <= |s|
    && (forall i, j :: 0 <= i < a && n <= j < |s| ==> seps[i].key < s[j].item.key)
    && (forall i, j :: a <= i < |seps| && 0 <= j < n ==> s[j].item.key < seps[i].key)
    && Elems(r) == Kept(seps, s, a) + InsertedBy(s[..n])
    && KeySorted(r)
  }

  /** Everything merged so far is below everything still to come. */
  lemma MergedIsBelow(seps: seq<Sep>, s: seq<SepRecord>, a: nat, n: nat, r: seq<Sep>, k: Key)
    requires MergeInv(seps, s, a, n, r)
    requires forall i :: 0 <= i < a ==> seps[i].key < k
    requires forall j :: 0 <= j < n ==> s[j].item.key < k
    ensures forall x :: x in r ==> x.key < k
  {
    forall x | x in r ensures x.key < k {
      assert x in Elems(r);
    }
  }

  lemma AppendSorted(r: seq<Sep>, x: Sep)
    requires KeySorted(r) && forall y :: y in r ==> y.key < x.key
    ensures KeySorted(r + [x]) && Elems(r + [x]) == Elems(r) + {x}
  {
  }

  lemma KeyNotRecorded(seps: seq<Sep>, s: seq<SepRecord>, a: nat, n: nat, r: seq<Sep>)
    requires Ordered(s) && MergeInv(seps, s, a, n, r) && a < |seps|
    requires n < |s| ==> seps[a].key < s[n].item.key
    ensures seps[a].key !in KeysOf(s)
  {
    forall j | 0 <= j < |s| ensures s[j].item.key != seps[a].key {
      assert n < j ==> s[n].item.key < s[j].item.key;
    }
  }

  lemma TakeSlot(seps: seq<Sep>, s: seq<SepRecord>, a: nat, n: nat, r: seq<Sep>)
    requires KeySorted(seps) && Ordered(s) && MergeInv(seps, s, a, n, r) && a < |seps|
    requires n < |s| ==> seps[a].key < s[n].item.key
    ensures MergeInv(seps, s, a + 1, n, r + [seps[a]])
  {
    KeyNotRecorded(seps, s, a, n, r);
    MergedIsBelow(seps, s, a, n, r, seps[a].key);
    AppendSorted(r, seps[a]);
    assert Kept(seps, s, a + 1) == Kept(seps, s, a) + {seps[a]};
    forall i, j | 0 <= i < a + 1 && n <= j < |s| ensures seps[i].key < s[j].item.key {
      assert n < j ==> s[n].item.key < s[j].item.key;
    }
  }

  lemma InsertedByNext(s: seq<SepRecord>, n: nat)
    requires n < |s|
    ensures InsertedBy(s[..n + 1]) == InsertedBy(s[..n]) + if s[n].insert then {s[n].item} else {}
  {
    assert s[..n + 1] == s[..n] + [s[n]];
  }

  lemma TakeRecord(seps: seq<Sep>, s: seq<SepRecord>, a: nat, n: nat, r: seq<Sep>)
    requires KeySorted(seps) && Ordered(s) && MergeInv(seps, s, a, n, r) && n < |s|
    requires a < |seps| ==> s[n].item.key < seps[a].key
    ensures MergeInv(seps, s, a, n + 1, if s[n].insert then r + [s[n].item] else r)
  {
    InsertedByNext(s, n);
    MergedIsBelow(seps, s, a, n, r, s[n].item.key);
    AppendSorted(r, s[n].item);
    forall i, j | a <= i < |seps| && 0 <= j < n + 1 ensures s[j].item.key < seps[i].key {
      assert a < i ==> seps[a].key < seps[i].key;
    }
  }

  lemma TakeBoth(seps: seq<Sep>, s: seq<SepRecord>, a: nat, n: nat, r: seq<Sep>)
    requires KeySorted(seps) && Ordered(s) && MergeInv(seps, s, a, n, r) && n < |s| && a < |seps|
    requires s[n].item.key == seps[a].key
    ensures MergeInv(seps, s, a + 1, n + 1, if s[n].insert then r + [s[n].item] else r)
  {
    InsertedByNext(s, n);
    MergedIsBelow(seps, s, a, n, r, s[n].item.key);
    AppendSorted(r, s[n].item);
    assert s[n] in s;
    assert Kept(seps, s, a + 1) == Kept(seps, s, a);
  }

  lemma TakeRest(seps: seq<Sep>, s: seq<SepRecord>, a: nat, r: seq<Sep>)
    requires KeySorted(seps) && Ordered(s) && MergeInv(seps, s, a, |s|, r)
    ensures MergeInv(seps, s, |seps|, |s|, r + seps[a..])
    decreases |seps| - a
  {
    if a == |seps| {
      assert r + seps[a..] == r;
    } else {
      TakeSlot(seps, s, a, |s|, r);
      TakeRest(seps, s, a + 1, r + [seps[a]]);
      assert r + [seps[a]] + seps[a + 1..] == r + seps[a..];
    }
  }

  ghost predicate Holds(sss: SS.SmallSet<SepRecord>, start: nat, s: seq<SepRecord>, n: nat)
    reads sss, sss.data
  {
    sss.Valid() && n <= |s| && sss.startP == start + n && sss.Contents() == s[n..]
  }

  /** Pops the front record and pushes its separator if it inserts. */
  method PopRecord(sss: SS.SmallSet<SepRecord>, ghost start: nat, ghost s: seq<SepRecord>, ghost n: nat,
                   out: ElasticNode<Sep>, ghost pre: seq<Sep>, ghost r: seq<Sep>)
    returns (ghost r': seq<Sep>)
    requires Holds(sss, start, s, n) && n < |s| && out.items == pre + r
    modifies sss`startP, out
    ensures Holds(sss, start, s, n + 1) && out.items == pre + r'
    ensures r' == if s[n].insert then r + [s[n].item] else r
  {
    var d := sss.PopFront();
    if d.insert {
      AppendAssoc(pre, r, [d.item]);
      out.PushBack(d.item);
      r' := r + [d.item];
    } else {
      r' := r;
    }
  }

  /** One comparison of the two leading elements. */
  method MergeOne(seps: seq<Sep>, copyStart: nat, sss: SS.SmallSet<SepRecord>, ghost start: nat,
                  ghost s: seq<SepRecord>, ghost a: seq<SepRecord>, ghost n: nat,
                  out: ElasticNode<Sep>, ghost pre: seq<Sep>, ghost r: seq<Sep>)
    returns (copyStart': nat, ghost n': nat, ghost r': seq<Sep>)
    requires KeySorted(seps) && Ordered(a) && a <= s && n < |a| && copyStart < |seps|
    requires Holds(sss, start, s, n) && MergeInv(seps, a, copyStart, n, r) && out.items == pre + r
    modifies sss`startP, out
    ensures Holds(sss, start, s, n') && n' <= |a| && out.items == pre + r'
    ensures copyStart' + n' > copyStart + n && MergeInv(seps, a, copyStart', n', r')
  {
    copyStart', n', r' := copyStart, n, r;
    var front := sss.GetFront();
    assert front == a[n];
    if seps[copyStart].key < front.item.key {
      TakeSlot(seps, a, copyStart, n, r);
      AppendAssoc(pre, r, [seps[copyStart]]);
      out.PushBack(seps[copyStart]);
      copyStart', r' := copyStart + 1, r + [seps[copyStart]];
    } else if front.item.key < seps[copyStart].key {
      TakeRecord(seps, a, copyStart, n, r);
      r' := PopRecord(sss, start, s, n, out, pre, r);
      n' := n + 1;
    } else {
      TakeBoth(seps, a, copyStart, n, r);
      r' := PopRecord(sss, start, s, n, out, pre, r);
      copyStart', n' := copyStart + 1, n + 1;
    }
  }

  /** Merges the array with the first |a| records of the set. */
  method MergeSeps(seps: seq<Sep>, sss: SS.SmallSet<SepRecord>, sssEnd: nat, ghost a: seq<SepRecord>,
                   out: ElasticNode<Sep>)
    returns (ghost r: seq<Sep>)
    requires sss.Valid() && KeySorted(seps) && Ordered(a) && a <= sss.Contents()
    requires sssEnd == sss.startP + |a|
    modifies sss`startP, out
    ensures sss.Valid() && sss.Contents() == old(sss.Contents())[|a|..]
    ensures out.items == old(out.items) + r && KeySorted(r)
    ensures Elems(r) == Kept(seps, a, |seps|) + InsertedBy(a)
  {
    ghost var s, start, pre := sss.Contents(), sss.startP, out.items;
    var copyStart: nat := 0;
    ghost var n: nat := 0;
    r := [];
    assert a[..0] == [];
    while sss.startP != sssEnd && copyStart != |seps|
      invariant n <= |a| && Holds(sss, start, s, n)
      invariant MergeInv(seps, a, copyStart, n, r) && out.items == pre + r
      decreases |seps| + |a| - copyStart - n
    {
      copyStart, n, r := MergeOne(seps, copyStart, sss, start, s, a, n, out, pre, r);
    }
    if sss.startP == sssEnd {
      TakeRest(seps, a, copyStart, r);
      AppendAssoc(pre, r, seps[copyStart..]);
      out.PushBackRange(seps[copyStart..]);
      r := r + seps[copyStart..];
    } else {
      while sss.startP != sssEnd
        invariant n <= |a| && Holds(sss, start, s, n)
        invariant MergeInv(seps, a, |seps|, n, r) && out.items == pre + r
        decreases |a| - n
      {
        TakeRecord(seps, a, |seps|, n, r);
        r := PopRecord(sss, start, s, n, out, pre, r);
        n := n + 1;
      }
    }
    assert a[..|a|] == a;
  }
}
