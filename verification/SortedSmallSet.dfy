/** SortedSmallSet: an insertion-sorted window [startP, endP) of a caller-supplied
    array. Insertion shifts the tail one slot up in place; popping only moves
    startP. The array is never checked for overflow by the code, so room for one
    more element is what the code demands of its callers. */
module SortedSmallSet {

  /** First position of s whose element is not below v. */
  function LowerPos<T>(s: seq<T>, v: T, less: (T, T) -> bool): (i: nat)
    ensures i <= |s|
    ensures forall j :: 0 <= j < i ==> less(s[j], v)
    ensures i < |s| ==> !less(s[i], v)
  {
    if s == [] || !less(s[0], v) then 0 else 1 + LowerPos(s[1..], v, less)
  }

  /** First position of s whose element is above v. */
  function UpperPos<T>(s: seq<T>, v: T, less: (T, T) -> bool): (i: nat)
    ensures i <= |s|
    ensures forall j :: 0 <= j < i ==> !less(v, s[j])
    ensures i < |s| ==> less(v, s[i])
  {
    if s == [] || less(v, s[0]) then 0 else 1 + UpperPos(s[1..], v, less)
  }

  function Inserted<T>(s: seq<T>, i: nat, v: T): (r: seq<T>)
    requires i <= |s|
    ensures |r| == |s| + 1
    ensures r[i] == v && (forall j {:trigger r[j]} :: 0 <= j < i ==> r[j] == s[j])
    ensures forall j {:trigger r[j]} :: i < j < |r| ==> r[j] == s[j - 1]
  {
    s[..i] + [v] + s[i..]
  }

  lemma InsertedMembers<T(!new)>(s: seq<T>, i: nat, v: T)
    requires i <= |s|
    ensures forall x :: x in Inserted(s, i, v) <==> x == v || x in s
  {
    var r := Inserted(s, i, v);
    forall x ensures x in r <==> x == v || x in s {
      if x in s {
        var j :| 0 <= j < |s| && s[j] == x;
        assert r[if j < i then j else j + 1] == x;
      }
      assert r[i] == v;
    }
  }

  /** less is a strict weak order: what the comparators handed to the set are. */
  ghost predicate StrictWeakOrder<T(!new)>(less: (T, T) -> bool) {
    && (forall a :: !less(a, a))
    && (forall a, b, c :: less(a, b) && less(b, c) ==> less(a, c))
    && (forall a, b, c :: less(a, c) ==> less(a, b) || less(b, c))
  }

  ghost predicate SortedBy<T>(s: seq<T>, less: (T, T) -> bool) {
    forall i, j :: 0 <= i < j < |s| ==> !less(s[j], s[i])
  }

  ghost predicate StrictlySortedBy<T>(s: seq<T>, less: (T, T) -> bool) {
    forall i, j :: 0 <= i < j < |s| ==> less(s[i], s[j])
  }

  /** InsertNoDedup keeps the window sorted, duplicates included. */
  lemma InsertUpperSorted<T(!new)>(s: seq<T>, v: T, less: (T, T) -> bool)
    requires StrictWeakOrder(less) && SortedBy(s, less)
    ensures SortedBy(Inserted(s, UpperPos(s, v, less), v), less)
  {
    var u := UpperPos(s, v, less);
    var r := Inserted(s, u, v);
    forall i, j | 0 <= i < j < |r| ensures !less(r[j], r[i]) {
      if i < u && j > u { assert !less(s[j - 1], s[i]); }
      else if i < u && j == u { assert !less(v, s[i]); }
      else if i == u { assert less(v, s[u]); assert j - 1 == u || !less(s[j - 1], s[u]); }
    }
  }

  /** Insert keeps the window strictly sorted when the found element is not equal. */
  lemma InsertLowerSorted<T(!new)>(s: seq<T>, v: T, less: (T, T) -> bool)
    requires StrictWeakOrder(less) && StrictlySortedBy(s, less)
    requires var i := LowerPos(s, v, less); i < |s| ==> less(v, s[i])
    ensures StrictlySortedBy(Inserted(s, LowerPos(s, v, less), v), less)
  {
    var u := LowerPos(s, v, less);
    var r := Inserted(s, u, v);
    forall i, j | 0 <= i < j < |r| ensures less(r[i], r[j]) {
      if j < u {
        assert less(s[i], s[j]);
      } else if i < u && j > u {
        assert less(s[i], s[j - 1]);
      } else if i == u && j > u + 1 {
        assert less(v, s[u]) && less(s[u], s[j - 1]);
      } else if i > u {
        assert less(s[i - 1], s[j - 1]);
      }
    }
  }

  /** An array whose slots [it, end) moved up by one holds the window with v inserted. */
  lemma ShiftedIsInserted<T>(was: seq<T>, now: seq<T>, start: nat, end: nat, it: nat, v: T)
    requires start <= it <= end < |was| == |now|
    requires now[it] == v && (forall j {:trigger now[j]} :: 0 <= j < it ==> now[j] == was[j])
    requires forall j {:trigger now[j]} :: it < j <= end ==> now[j] == was[j - 1]
    ensures now[start..end + 1] == Inserted(was[start..end], it - start, v)
  {
    var w, n := was[start..end], now[start..end + 1];
    var r := Inserted(w, it - start, v);
    forall k | 0 <= k < |n| ensures n[k] == r[k] {
      assert n[k] == now[start + k];
      if k < it - start {
        assert w[k] == was[start + k];
      } else if k > it - start {
        assert w[k - 1] == was[start + k - 1];
      }
    }
  }

  class SmallSet<T> {
    const data: array<T>
    var startP: nat
    var endP: nat
    const less: (T, T) -> bool
    const eq: (T, T) -> bool

    ghost predicate Valid()
      reads this, data
    {
      startP <= endP <= data.Length
    }

    function Contents(): (s: seq<T>)
      reads this, data
      requires Valid()
    {
      data[startP..endP]
    }

    constructor (data: array<T>, less: (T, T) -> bool, eq: (T, T) -> bool)
      ensures Valid() && Contents() == []
      ensures this.data == data && this.less == less && this.eq == eq
      ensures startP == endP == 0
    {
      this.data := data;
      this.startP, this.endP := 0, 0;
      this.less, this.eq := less, eq;
    }

    /** std::copy_backward(it, end_p, end_p + 1); *it = value; end_p++ */
    method ShiftIn(it: nat, value: T)
      requires Valid() && startP <= it <= endP < data.Length
      modifies this`endP, data
      ensures Valid() && endP == old(endP) + 1
      ensures Contents() == Inserted(old(Contents()), it - startP, value)
      ensures forall j :: 0 <= j < data.Length && j < startP ==> data[j] == old(data[j])
    {
      var p := endP;
      while p > it
        invariant endP == old(endP) && it <= p <= endP
        invariant forall j :: 0 <= j < p ==> data[j] == old(data[j])
        invariant forall j :: p < j <= endP ==> data[j] == old(data[j - 1])
      {
        data[p] := data[p - 1];
        p := p - 1;
      }
      data[it] := value;
      endP := endP + 1;
      ShiftedIsInserted(old(data[..]), data[..], startP, old(endP), it, value);
    }

    /** Inserts before the first element that is not smaller, unless that one is equal. */
    method Insert(value: T)
      requires Valid() && endP < data.Length
      modifies this`endP, data
      ensures Valid()
      ensures var s := old(Contents());
              var i := LowerPos(s, value, less);
              if i < |s| && eq(s[i], value)
              then Contents() == s && endP == old(endP)
              else Contents() == Inserted(s, i, value) && endP == old(endP) + 1
    {
      ghost var s := Contents();
      var it := startP;
      while it < endP
        invariant startP <= it <= endP
        invariant Valid() && Contents() == s && endP == old(endP)
        invariant LowerPos(s, value, less) == (it - startP) + LowerPos(s[it - startP..], value, less)
      {
        assert s[it - startP] == data[it];
        if !less(data[it], value) {
          if !eq(data[it], value) {
            ShiftIn(it, value);
          }
          return;
        }
        assert s[it - startP..][1..] == s[it - startP + 1..];
        it := it + 1;
      }
      ShiftIn(endP, value);
    }

    /** Inserts before the first element that is larger; equal elements stay. */
    method InsertNoDedup(value: T)
      requires Valid() && endP < data.Length
      modifies this`endP, data
      ensures Valid() && endP == old(endP) + 1
      ensures var s := old(Contents()); Contents() == Inserted(s, UpperPos(s, value, less), value)
    {
      var it := UpperPos(Contents(), value, less);
      ShiftIn(startP + it, value);
    }

    method PopFront() returns (v: T)
      requires Valid() && Contents() != []
      modifies this`startP
      ensures Valid() && startP == old(startP) + 1
      ensures v == old(Contents())[0] && Contents() == old(Contents())[1..]
    {
      v := data[startP];
      startP := startP + 1;
    }

    function GetFront(): (v: T)
      reads this, data
      requires Valid() && Contents() != []
      ensures v == Contents()[0]
    {
      data[startP]
    }

    method Invalidate()
      requires Valid()
      modifies this`endP
      ensures Valid() && Contents() == [] && endP == startP
    {
      endP := startP;
    }
  }
}
