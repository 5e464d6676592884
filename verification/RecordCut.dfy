/** The records of a sorted set that lie below a branch's high key, and the rest, which
    waits for the branches further right; the same for leaf and inner consolidation. */
module RecordCut {
  import opened Keys
  import SS = SortedSmallSet

  /** Number of leading records below the high key. */
  ghost function Cut<R>(s: seq<R>, keyOf: R -> Key, high: High): (n: nat)
    ensures n <= |s|
    ensures forall j :: 0 <= j < n ==> Below(keyOf(s[j]), high)
    ensures n < |s| ==> !Below(keyOf(s[n]), high)
  {
    if s == [] || !Below(keyOf(s[0]), high) then 0 else 1 + Cut(s[1..], keyOf, high)
  }

  ghost function Rest<R>(s: seq<R>, keyOf: R -> Key, high: High): seq<R> {
    s[Cut(s, keyOf, high)..]
  }

  ghost predicate ByKey<R>(s: seq<R>, keyOf: R -> Key) {
    forall i, j :: 0 <= i < j < |s| ==> keyOf(s[i]) <= keyOf(s[j])
  }

  lemma CutSplits<R>(s: seq<R>, keyOf: R -> Key, high: High, j: nat)
    requires ByKey(s, keyOf) && j < |s|
    ensures j < Cut(s, keyOf, high) <==> Below(keyOf(s[j]), high)
  {
  }

  /** What a search from the end for the last record below the high key finds. */
  lemma CutIs<R>(s: seq<R>, keyOf: R -> Key, high: High, n: nat)
    requires ByKey(s, keyOf) && n <= |s|
    requires forall j :: n <= j < |s| ==> !Below(keyOf(s[j]), high)
    requires 0 < n ==> Below(keyOf(s[n - 1]), high)
    ensures n == Cut(s, keyOf, high)
  {
    if 0 < n {
      CutSplits(s, keyOf, high, n - 1);
    }
  }

  lemma CutMembers<R(!new)>(s: seq<R>, keyOf: R -> Key, high: High)
    requires ByKey(s, keyOf)
    ensures forall r :: r in s[..Cut(s, keyOf, high)] <==> r in s && Below(keyOf(r), high)
    ensures forall r :: r in Rest(s, keyOf, high) <==> r in s && !Below(keyOf(r), high)
  {
    var n := Cut(s, keyOf, high);
    forall r | r in s
      ensures if Below(keyOf(r), high) then r in s[..n] && r !in s[n..] else r in s[n..] && r !in s[..n]
    {
      var j :| 0 <= j < |s| && s[j] == r;
      CutSplits(s, keyOf, high, j);
      assert if j < n then s[..n][j] == r else s[n..][j - n] == r;
      forall i | 0 <= i < |s| && s[i] == r ensures i < n <==> j < n {
        CutSplits(s, keyOf, high, i);
      }
    }
  }

  lemma RestTail<R>(s: seq<R>, keyOf: R -> Key, high: High)
    requires s != [] && Below(keyOf(s[0]), high)
    ensures Rest(s, keyOf, high) == Rest(s[1..], keyOf, high)
  {
  }

  lemma {:induction false} RestRest<R>(s: seq<R>, keyOf: R -> Key, low: High, high: High)
    requires high.HighKey? ==> low.HighKey? && low.key <= high.key
    ensures Rest(Rest(s, keyOf, low), keyOf, high) == Rest(s, keyOf, high)
  {
    if s == [] || !Below(keyOf(s[0]), low) {
      assert Rest(s, keyOf, low) == s;
    } else {
      RestTail(s, keyOf, low);
      RestTail(s, keyOf, high);
      RestRest(s[1..], keyOf, low, high);
    }
  }

  /** A position that no larger key precedes is not beyond the cut. */
  lemma InsertPointBelowCut<R>(s: seq<R>, u: nat, d: R, keyOf: R -> Key, high: High)
    requires Below(keyOf(d), high) && u <= |s|
    requires forall j :: 0 <= j < u ==> keyOf(s[j]) <= keyOf(d)
    ensures u <= Cut(s, keyOf, high)
  {
  }

  lemma {:induction false} CutAfterInsert<R>(s: seq<R>, u: nat, d: R, keyOf: R -> Key, high: High)
    requires Below(keyOf(d), high) && u <= Cut(s, keyOf, high)
    ensures Cut(SS.Inserted(s, u, d), keyOf, high) == Cut(s, keyOf, high) + 1
    decreases |s|
  {
    var r := SS.Inserted(s, u, d);
    if u == 0 {
      assert r[1..] == s;
    } else {
      assert r[0] == s[0];
      assert r[1..] == SS.Inserted(s[1..], u - 1, d);
      CutAfterInsert(s[1..], u - 1, d, keyOf, high);
    }
  }

  lemma RestAfterInsert<R>(s: seq<R>, u: nat, d: R, keyOf: R -> Key, high: High)
    requires Below(keyOf(d), high) && u <= |s|
    requires forall j :: 0 <= j < u ==> keyOf(s[j]) <= keyOf(d)
    ensures Rest(SS.Inserted(s, u, d), keyOf, high) == Rest(s, keyOf, high)
  {
    InsertPointBelowCut(s, u, d, keyOf, high);
    CutAfterInsert(s, u, d, keyOf, high);
  }
}
