/** The two NavigateLeafNode walks over a leaf chain: the existence test used by
    Insert and Delete, and the value read used by GetValue. */
module LeafSearch {
  import opened Keys
  import opened LeafChain
  import opened Wrappers
  import BF = BloomFilter

  // ----- existence of one pair, and the index pair for the next record -----

  /** Scans the run of equal keys in a base array. */
  method ScanBase(items: seq<KV>, item: KV) returns (found: bool, ip: IndexPair)
    requires SortedByKey(items)
    ensures found <==> item in items
    ensures TrueIndex(items, item, ip)
  {
    var scan := LowerBound(items, item.key);
    while scan < |items| && items[scan].key == item.key
      invariant scan <= |items|
      invariant forall j :: 0 <= j < scan ==> items[j].key <= item.key && items[j] != item
    {
      if items[scan].val == item.val {
        return true, IndexPair(scan, true);
      }
      scan := scan + 1;
    }
    assert forall j :: scan <= j < |items| ==> item.key < items[j].key;
    return false, IndexPair(scan, false);
  }

  method NavigateLeafNode(c: Leaf, item: KV) returns (found: bool, ip: IndexPair)
    requires WF(c) && !c.Remove? && InRange(item.key, LowOf(c), HighOf(c))
    ensures found <==> item in Replay(c)
    ensures TrueIndex(BaseFor(c, item.key).items, item, ip)
  {
    var node := c;
    while true
      invariant WF(node) && !node.Remove? && InRange(item.key, LowOf(node), HighOf(node))
      invariant item in Replay(node) <==> item in Replay(c)
      invariant BaseFor(node, item.key) == BaseFor(c, item.key)
      decreases node
    {
      match node {
        case Base(_, items, _) =>
          found, ip := ScanBase(items, item);
          return;
        case Insert(it, ip', child) =>
          if it.key == item.key && it.val == item.val { return true, ip'; }
          node := child;
        case Delete(it, ip', child) =>
          if it.key == item.key && it.val == item.val { return false, ip'; }
          node := child;
        case Merge(key, _, child, right) =>
          MergeBranch(node, item);
          node := if item.key >= key then right else child;
        case Split(_, _, _, child) =>
          node := child;
      }
    }
  }

  /** A successful Insert or Delete CAS leaves a well-formed chain whose meaning
      changed by exactly that pair, whatever other records the chain holds. */
  lemma PostedRecordIsWellFormed(c: Leaf, item: KV, ip: IndexPair)
    requires WF(c) && !c.Remove? && InRange(item.key, LowOf(c), HighOf(c))
    requires TrueIndex(BaseFor(c, item.key).items, item, ip)
    ensures item !in Replay(c) ==>
              WF(Insert(item, ip, c)) && Replay(Insert(item, ip, c)) == Replay(c) + {item}
    ensures item in Replay(c) ==>
              WF(Delete(item, ip, c)) && Replay(Delete(item, ip, c)) == Replay(c) - {item}
  {
  }

  // ----- which part of the base array a read covers -----

  /** A data record with the index it was posted with. */
  datatype Record = Record(item: KV, ip: IndexPair)

  /** The data records that the walk for k meets, newest first. */
  function Met(c: Leaf, k: Key): seq<Record> {
    match c
    case Base(_, _, _) => []
    case Insert(item, ip, child) => [Record(item, ip)] + Met(child, k)
    case Delete(item, ip, child) => [Record(item, ip)] + Met(child, k)
    case Merge(key, _, child, right) => Met(if k >= key then right else child, k)
    case _ => Met(c.child, k)
  }

  /** Position of the last record with a key below k, or -1. */
  function LastBelow(records: seq<Record>, k: Key): (i: int)
    ensures -1 <= i < |records| && (i >= 0 ==> records[i].item.key < k)
    ensures forall j :: i < j < |records| ==> k <= records[j].item.key
  {
    var last := |records| - 1;
    if records == [] then -1 else if records[last].item.key < k then last else LastBelow(records[..last], k)
  }

  /** Position of the last record with a key above k, or -1. */
  function LastAbove(records: seq<Record>, k: Key): (i: int)
    ensures -1 <= i < |records| && (i >= 0 ==> k < records[i].item.key)
    ensures forall j :: i < j < |records| ==> records[j].item.key <= k
  {
    var last := |records| - 1;
    if records == [] then -1 else if k < records[last].item.key then last else LastAbove(records[..last], k)
  }

  /** The read of k begins at the index of the last record met below k ... */
  function ReadStart(c: Leaf, k: Key): nat {
    var i := LastBelow(Met(c, k), k);
    if i == -1 then 0 else Met(c, k)[i].ip.index
  }

  /** ... and searches up to the index of the last record met above k. */
  function ReadEnd(c: Leaf, k: Key): nat {
    var i := LastAbove(Met(c, k), k);
    if i == -1 then |BaseFor(c, k).items| else Met(c, k)[i].ip.index
  }

  /** [ReadStart, ReadEnd) is a range of the base array; std::lower_bound needs that. */
  predicate Readable(c: Leaf, k: Key) {
    ReadStart(c, k) <= ReadEnd(c, k) <= |BaseFor(c, k).items|
  }

  /** The read meets slot i, one of k's, unless it starts beyond it or ends before k's run. */
  predicate Reached(items: seq<KV>, k: Key, start: nat, end: nat, i: nat) {
    start <= i && LowerBound(items, k) <= end
  }

  /** Values whose only trace is a slot of the base array that the read does not reach. */
  ghost function Lost(c: Leaf, k: Key): set<Value> {
    var items := BaseFor(c, k).items;
    set i | 0 <= i < |items| && items[i].key == k && Untouched(c, items[i])
            && !Reached(items, k, ReadStart(c, k), ReadEnd(c, k), i) :: items[i].val
  }

  // ----- reading all values of a key -----

  /** Search window: end is -1 until some record narrows it. */
  datatype Window = Window(start: nat, end: int)

  function Narrowed(w: Window, k: Key, item: KV, ip: IndexPair): Window {
    if k == item.key then w
    else if k > item.key then w.(start := ip.index)
    else w.(end := ip.index)
  }

  /** The window with which the walk for k arrives at the base array. */
  function FinalWindow(c: Leaf, k: Key, w: Window): Window {
    match c
    case Base(_, _, _) => w
    case Insert(item, ip, child) => FinalWindow(child, k, Narrowed(w, k, item, ip))
    case Delete(item, ip, child) => FinalWindow(child, k, Narrowed(w, k, item, ip))
    case Merge(key, _, child, right) => FinalWindow(if k >= key then right else child, k, w)
    case _ => FinalWindow(c.child, k, w)
  }

  const WHOLE := Window(0, -1)

  function WindowOf(m: seq<Record>, k: Key, w: Window): Window {
    Window(if LastBelow(m, k) == -1 then w.start else m[LastBelow(m, k)].ip.index,
           if LastAbove(m, k) == -1 then w.end else m[LastAbove(m, k)].ip.index)
  }

  /** The walk arrives with exactly the part of the array that its records determine. */
  lemma {:induction false} WalkFindsWindow(c: Leaf, k: Key, w: Window)
    ensures FinalWindow(c, k, w) == WindowOf(Met(c, k), k, w)
  {
    match c {
      case Base(_, _, _) =>
      case Merge(key, _, child, right) => WalkFindsWindow(if k >= key then right else child, k, w);
      case Split(_, _, _, child) => WalkFindsWindow(child, k, w);
      case Remove(_, child) => WalkFindsWindow(child, k, w);
      case _ =>
        WalkFindsWindow(c.child, k, Narrowed(w, k, c.item, c.ip));
        WindowOfMore(Record(c.item, c.ip), Met(c.child, k), k, w);
    }
  }

  lemma LastBelowIs(records: seq<Record>, k: Key, i: int)
    requires -1 <= i < |records| && (i >= 0 ==> records[i].item.key < k)
    requires forall j :: i < j < |records| ==> k <= records[j].item.key
    ensures LastBelow(records, k) == i
  {
  }

  lemma LastAboveIs(records: seq<Record>, k: Key, i: int)
    requires -1 <= i < |records| && (i >= 0 ==> k < records[i].item.key)
    requires forall j :: i < j < |records| ==> records[j].item.key <= k
    ensures LastAbove(records, k) == i
  {
  }

  lemma LastOfMore(r: Record, m: seq<Record>, k: Key)
    ensures LastBelow([r] + m, k) == if LastBelow(m, k) == -1 && k <= r.item.key then -1 else LastBelow(m, k) + 1
    ensures LastAbove([r] + m, k) == if LastAbove(m, k) == -1 && r.item.key <= k then -1 else LastAbove(m, k) + 1
  {
    LastBelowIs([r] + m, k, if LastBelow(m, k) == -1 && k <= r.item.key then -1 else LastBelow(m, k) + 1);
    LastAboveIs([r] + m, k, if LastAbove(m, k) == -1 && r.item.key <= k then -1 else LastAbove(m, k) + 1);
  }

  lemma WindowOfMore(r: Record, m: seq<Record>, k: Key, w: Window)
    ensures WindowOf([r] + m, k, w) == WindowOf(m, k, Narrowed(w, k, r.item, r.ip))
  {
    LastOfMore(r, m, k);
  }

  lemma WindowIsRead(c: Leaf, k: Key)
    ensures var items, w := BaseFor(c, k).items, FinalWindow(c, k, WHOLE);
            && w.start == ReadStart(c, k) && WindowEnd(w, items) == ReadEnd(c, k)
            && (IsRange(w, items) <==> Readable(c, k))
  {
    WalkFindsWindow(c, k, WHOLE);
  }

  /** The window is an iterator range of the array. */
  predicate IsRange(w: Window, items: seq<KV>) {
    w.start <= |items| && (w.end == -1 || w.start <= w.end <= |items|)
  }

  function WindowEnd(w: Window, items: seq<KV>): int {
    if w.end == -1 then |items| else w.end
  }

  /** Where the scan of the base array for k begins. */
  function ScanStart(w: Window, items: seq<KV>, k: Key): (p: nat)
    requires IsRange(w, items)
  {
    LowerBound(items[..WindowEnd(w, items)], k, w.start)
  }

  ghost function ValuesOf(c: Leaf, k: Key): set<Value> {
    set p | p in Replay(c) && p.key == k :: p.val
  }

  /** Positions of k's pairs that the scan reaches: nothing if it stops at once. */
  ghost predicate Scanned(w: Window, items: seq<KV>, k: Key, i: nat)
    requires IsRange(w, items)
  {
    && ScanStart(w, items, k) <= i < |items|
    && forall j :: ScanStart(w, items, k) <= j <= i ==> items[j].key == k
  }

  /** No record above the base array mentions the pair. */
  ghost predicate Untouched(c: Leaf, p: KV) {
    match c
    case Base(_, _, _) => true
    case Insert(item, _, child) => item != p && Untouched(child, p)
    case Delete(item, _, child) => item != p && Untouched(child, p)
    case Merge(key, _, child, right) => Untouched(if p.key >= key then right else child, p)
    case _ => Untouched(c.child, p)
  }

  lemma UntouchedIsBaseMembership(c: Leaf, p: KV)
    requires WF(c) && Untouched(c, p) && InRange(p.key, LowOf(c), HighOf(c))
    ensures p in Replay(c) <==> p in BaseFor(c, p.key).items
  {
    match c {
      case Base(_, _, _) =>
      case Merge(key, _, child, right) =>
        MergeBranch(c, p);
        UntouchedIsBaseMembership(if p.key >= key then right else child, p);
      case _ => UntouchedIsBaseMembership(c.child, p);
    }
  }

  /** What the records above node have already decided about the values of k. */
  ghost predicate Resolved(c: Leaf, node: Leaf, k: Key, live: seq<Value>, dead: seq<Value>) {
    forall v: Value ::
      && (KV(k, v) in Replay(c) <==> v in live || (v !in dead && KV(k, v) in Replay(node)))
      && !(v in live && v in dead)
      && (Untouched(c, KV(k, v)) <==> v !in live && v !in dead && Untouched(node, KV(k, v)))
  }

  /** State of the read when it reaches node. */
  ghost predicate ReadInv(c: Leaf, node: Leaf, k: Key, w: Window, live: seq<Value>, dead: seq<Value>) {
    && WF(node) && !node.Remove? && InRange(k, LowOf(node), HighOf(node))
    && |live| + Depth(node) <= Depth(c) && |dead| + Depth(node) <= Depth(c)
    && FinalWindow(node, k, w) == FinalWindow(c, k, WHOLE)
    && BaseFor(node, k) == BaseFor(c, k)
    && Distinct(live)
    && Resolved(c, node, k, live, dead)
  }

  lemma ReadBelowMerge(c: Leaf, node: Leaf, k: Key, w: Window, live: seq<Value>, dead: seq<Value>)
    requires ReadInv(c, node, k, w, live, dead) && node.Merge?
    ensures ReadInv(c, if k >= node.key then node.right else node.child, k, w, live, dead)
  {
    forall v: Value { MergeBranch(node, KV(k, v)); }
  }

  lemma ReadBelowInsert(c: Leaf, node: Leaf, k: Key, w: Window, live: seq<Value>, dead: seq<Value>)
    requires ReadInv(c, node, k, w, live, dead) && node.Insert?
    ensures var v := node.item.val;
            var added := if node.item.key == k && v !in live && v !in dead then [v] else [];
            ReadInv(c, node.child, k, Narrowed(w, k, node.item, node.ip), live + added, dead)
  {
  }

  lemma ReadBelowDelete(c: Leaf, node: Leaf, k: Key, w: Window, live: seq<Value>, dead: seq<Value>)
    requires ReadInv(c, node, k, w, live, dead) && node.Delete?
    ensures var v := node.item.val;
            var added := if node.item.key == k && v !in live then [v] else [];
            ReadInv(c, node.child, k, Narrowed(w, k, node.item, node.ip), live, dead + added)
  {
  }

  /** A slot of k is scanned unless the window starts beyond it or ends before k's run. */
  lemma ScannedIff(w: Window, items: seq<KV>, k: Key, i: nat)
    requires SortedByKey(items) && IsRange(w, items) && i < |items| && items[i].key == k
    ensures Scanned(w, items, k, i) <==> w.start <= i && LowerBound(items, k) <= WindowEnd(w, items)
  {
    var p, lo, end := ScanStart(w, items, k), LowerBound(items, k), WindowEnd(w, items);
    assert lo <= i;
    if lo <= end {
      assert p == if w.start <= lo then lo else w.start;
    } else {
      assert p == end;
      assert items[p].key < k;
    }
  }

  lemma LostSlot(c: Leaf, k: Key, i: nat)
    requires i < |BaseFor(c, k).items| && BaseFor(c, k).items[i].key == k && Distinct(BaseFor(c, k).items)
    ensures var items := BaseFor(c, k).items;
            items[i].val in Lost(c, k) <==>
            Untouched(c, items[i]) && !Reached(items, k, ReadStart(c, k), ReadEnd(c, k), i)
  {
  }

  lemma ScannedSlot(w: Window, items: seq<KV>, k: Key, i: nat)
    requires IsRange(w, items) && i < |items| && items[i].key == k && Distinct(items)
    ensures items[i].val in ScannedValues(w, items, k) <==> Scanned(w, items, k, i)
  {
  }

  /** At the base array the decided values and the unread slots account for everything. */
  lemma ResolvedAtBase(c: Leaf, base: Leaf, k: Key, present: seq<Value>, deleted: seq<Value>,
                       values: seq<Value>)
    requires base.Base? && WFBase(base) && base == BaseFor(c, k) && Resolved(c, base, k, present, deleted)
    requires IsRange(FinalWindow(c, k, WHOLE), base.items)
    requires forall v :: v in values <==>
               v in present || (v !in deleted && v in ScannedValues(FinalWindow(c, k, WHOLE), base.items, k))
    ensures Elems(values) == ValuesOf(c, k) - Lost(c, k)
  {
    var items, w := base.items, FinalWindow(c, k, WHOLE);
    WindowIsRead(c, k);
    forall v: Value
      ensures v in values <==> v in ValuesOf(c, k) && v !in Lost(c, k)
    {
      assert v in ValuesOf(c, k) <==> KV(k, v) in Replay(c);
      if KV(k, v) in items {
        var i :| 0 <= i < |items| && items[i] == KV(k, v);
        ScannedIff(w, items, k, i);
        LostSlot(c, k, i);
        ScannedSlot(w, items, k, i);
      }
    }
  }

  ghost function ScannedValues(w: Window, items: seq<KV>, k: Key): set<Value>
    requires IsRange(w, items)
  {
    set i | 0 <= i < |items| && Scanned(w, items, k, i) :: items[i].val
  }

  /** The present and deleted filters of one read, with the value list built so far. */
  class DecidedValues {
    const present: BF.Filter<Value>
    const deleted: BF.Filter<Value>
    ghost const Repr: set<object>
    ghost const room: nat
    ghost var live: seq<Value>
    ghost var dead: seq<Value>

    ghost predicate Valid()
      reads this, Repr
    {
      && Repr == {this, present, present.data, present.bits, deleted, deleted.data, deleted.bits}
      && present != deleted && present.data != deleted.data && present.bits != deleted.bits
      && present.data as object != deleted.bits && deleted.data as object != present.bits
      && present.eq == deleted.eq == ((a: Value, b: Value) => a == b)
      && present.Valid() && deleted.Valid()
      && present.data.Length == deleted.data.Length == room
      && present.Contents() == live && deleted.Contents() == dead
    }

    constructor (size: nat, hash: Value -> bv64)
      ensures Valid() && fresh(Repr) && live == dead == [] && room == size
    {
      var eq := (a: Value, b: Value) => a == b;
      var presentData := new Value[size];
      var deletedData := new Value[size];
      var p := new BF.Filter(presentData, eq, hash);
      var d := new BF.Filter(deletedData, eq, hash);
      present, deleted := p, d;
      live, dead, room := [], [], size;
      Repr := {this, p, p.data, p.bits, d, d.data, d.bits};
    }

    method Undecided(v: Value) returns (r: bool)
      requires Valid()
      ensures r <==> v !in live && v !in dead
    {
      var gone := deleted.Exists(v);
      var seen := present.Exists(v);
      return !gone && !seen;
    }

    /** An insert record on the search key: its value is live unless already decided. */
    method NoteInsert(v: Value) returns (added: bool)
      requires Valid() && |live| < room
      modifies Repr
      ensures Valid() && dead == old(dead)
      ensures added <==> v !in old(live) && v !in dead
      ensures live == old(live) + if added then [v] else []
    {
      added := Undecided(v);
      if added {
        present.Insert(v);
        live := live + [v];
      }
    }

    /** A delete record on the search key: its value is dead unless already live. */
    method NoteDelete(v: Value)
      requires Valid() && |dead| < room
      modifies Repr
      ensures Valid() && live == old(live)
      ensures dead == old(dead) + if v in live then [] else [v]
    {
      var seen := present.Exists(v);
      if !seen {
        deleted.Insert(v);
        dead := dead + [v];
      }
    }
  }

  /** The values found on the chain and, unless dead, those of the scanned slots. */
  ghost predicate Collected(values: seq<Value>, found: seq<Value>, dead: seq<Value>, slots: seq<KV>, k: Key) {
    && Distinct(values)
    && forall v :: v in values <==> v in found || (v !in dead && KV(k, v) in slots)
  }

  lemma CollectOne(values: seq<Value>, found: seq<Value>, dead: seq<Value>, slots: seq<KV>, x: KV, k: Key)
    requires Collected(values, found, dead, slots, k) && x.key == k && x !in slots
    ensures Collected(if x.val !in found && x.val !in dead then values + [x.val] else values,
                      found, dead, slots + [x], k)
  {
  }

  ghost predicate CollectedTo(values: seq<Value>, found: seq<Value>, dead: seq<Value>, items: seq<KV>, from: nat, p: nat, k: Key)
    requires from <= p <= |items|
  {
    Collected(values, found, dead, items[from..p], k)
  }

  lemma CollectSlot(values: seq<Value>, found: seq<Value>, dead: seq<Value>, items: seq<KV>, from: nat, p: nat, k: Key,
                    undecided: bool)
    requires Distinct(items) && from <= p < |items| && items[p].key == k
    requires CollectedTo(values, found, dead, items, from, p, k)
    requires undecided <==> items[p].val !in found && items[p].val !in dead
    ensures CollectedTo(if undecided then values + [items[p].val] else values, found, dead, items, from, p + 1, k)
  {
    assert items[p] !in items[from..p];
    assert items[from..p + 1] == items[from..p] + [items[p]];
    CollectOne(values, found, dead, items[from..p], items[p], k);
  }

  lemma InRun(items: seq<KV>, from: nat, p: nat, x: KV)
    requires from <= p <= |items|
    ensures x in items[from..p] <==> exists i :: from <= i < p && items[i] == x
  {
    var run := items[from..p];
    if x in run {
      var j :| 0 <= j < |run| && run[j] == x;
      assert items[from + j] == x;
    }
    if i :| from <= i < p && items[i] == x {
      assert run[i - from] == x;
    }
  }

  /** The run that the scan passes is exactly the scanned slots. */
  lemma RunIsScanned(w: Window, items: seq<KV>, k: Key, p: nat, v: Value)
    requires IsRange(w, items) && ScanStart(w, items, k) <= p <= |items|
    requires forall j :: ScanStart(w, items, k) <= j < p ==> items[j].key == k
    requires p < |items| ==> items[p].key != k
    ensures KV(k, v) in items[ScanStart(w, items, k)..p] <==> v in ScannedValues(w, items, k)
  {
    InRun(items, ScanStart(w, items, k), p, KV(k, v));
    forall i | 0 <= i < |items| ensures Scanned(w, items, k, i) <==> ScanStart(w, items, k) <= i < p {
    }
  }

  /** Appends the run of k that starts at the scan position, minus decided values. */
  method ScanValues(w: Window, items: seq<KV>, k: Key, decided: DecidedValues, found: seq<Value>)
    returns (values: seq<Value>)
    requires IsRange(w, items) && Distinct(items) && decided.Valid()
    requires found == decided.live && Distinct(found)
    ensures Distinct(values)
    ensures forall v :: v in values <==>
              v in found || (v !in decided.dead && v in ScannedValues(w, items, k))
  {
    var p := ScanStart(w, items, k);
    ghost var from, dead := p, decided.dead;
    values := found;
    while p < |items| && items[p].key == k
      invariant from <= p <= |items|
      invariant forall j :: from <= j < p ==> items[j].key == k
      invariant CollectedTo(values, found, dead, items, from, p, k)
    {
      var val := items[p].val;
      var undecided := decided.Undecided(val);
      CollectSlot(values, found, dead, items, from, p, k, undecided);
      values := if undecided then values + [val] else values;
      p := p + 1;
    }
    forall v: Value ensures KV(k, v) in items[from..p] <==> v in ScannedValues(w, items, k) {
      RunIsScanned(w, items, k, p, v);
    }
  }

  /** One data record of the walk: note its value or narrow the window. */
  method ReadRecord(ghost c: Leaf, node: Leaf, k: Key, w: Window, decided: DecidedValues, values: seq<Value>)
    returns (w': Window, values': seq<Value>)
    requires node.Insert? || node.Delete?
    requires decided.Valid() && decided.room == Depth(c) && values == decided.live
    requires ReadInv(c, node, k, w, decided.live, decided.dead)
    modifies decided.Repr
    ensures decided.Valid() && values' == decided.live
    ensures ReadInv(c, node.child, k, w', decided.live, decided.dead)
  {
    values', w' := values, Narrowed(w, k, node.item, node.ip);
    if node.Insert? {
      ReadBelowInsert(c, node, k, w, values, decided.dead);
      if node.item.key == k {
        var added := decided.NoteInsert(node.item.val);
        if added {
          values' := values + [node.item.val];
        }
      }
    } else {
      ReadBelowDelete(c, node, k, w, values, decided.dead);
      if node.item.key == k {
        decided.NoteDelete(node.item.val);
      }
    }
  }

  /** The value read, on every well-formed chain: each live value once, except those whose
      slot lies outside the part of the array that the records met leave to search; None if
      that part is no range of the array, so that the search is undefined and may leave it. */
  method ReadValues(c: Leaf, k: Key, hash: Value -> bv64) returns (r: Option<seq<Value>>)
    requires WF(c) && !c.Remove? && InRange(k, LowOf(c), HighOf(c))
    ensures r.Some? <==> Readable(c, k)
    ensures r.Some? ==> Distinct(r.value) && Elems(r.value) == ValuesOf(c, k) - Lost(c, k)
  {
    var decided := new DecidedValues(Depth(c), hash);
    var node, w := c, WHOLE;
    var values: seq<Value> := [];
    while !node.Base?
      invariant decided.Valid() && fresh(decided.Repr) && decided.room == Depth(c)
      invariant values == decided.live
      invariant ReadInv(c, node, k, w, decided.live, decided.dead)
      decreases node
    {
      if node.Merge? {
        ReadBelowMerge(c, node, k, w, values, decided.dead);
        node := if k >= node.key then node.right else node.child;
      } else {
        if !node.Split? {
          w, values := ReadRecord(c, node, k, w, decided, values);
        }
        node := node.child;
      }
    }
    WindowIsRead(c, k);
    if !IsRange(w, node.items) {
      return None;
    }
    values := ScanValues(w, node.items, k, decided, values);
    ResolvedAtBase(c, node, k, decided.live, decided.dead, values);
    r := Some(values);
  }

  // ----- when the read is exact -----

  /** Index of the first base slot of k that no record mentions, or |items|. */
  ghost function FirstUntouched(c: Leaf, k: Key, from: nat): (i: nat)
    requires from <= |BaseFor(c, k).items|
    ensures from <= i <= |BaseFor(c, k).items|
    ensures var items := BaseFor(c, k).items;
            forall j :: from <= j < i ==> !(items[j].key == k && Untouched(c, items[j]))
    ensures var items := BaseFor(c, k).items;
            i < |items| ==> items[i].key == k && Untouched(c, items[i])
    decreases |BaseFor(c, k).items| - from
  {
    var items := BaseFor(c, k).items;
    if from == |items| || (items[from].key == k && Untouched(c, items[from])) then from
    else FirstUntouched(c, k, from + 1)
  }

  lemma LostAreLive(c: Leaf, k: Key)
    requires WF(c) && InRange(k, LowOf(c), HighOf(c))
    ensures Lost(c, k) <= ValuesOf(c, k)
  {
    var items := BaseFor(c, k).items;
    forall i | 0 <= i < |items| && items[i].key == k && Untouched(c, items[i])
      ensures items[i].val in ValuesOf(c, k)
    {
      UntouchedIsBaseMembership(c, items[i]);
    }
  }

  /** The read is defined and returns every live value. */
  ghost predicate ReadIsExact(c: Leaf, k: Key) {
    Readable(c, k) && ValuesOf(c, k) - Lost(c, k) == ValuesOf(c, k)
  }

  lemma NothingLostIff(c: Leaf, k: Key)
    requires Distinct(BaseFor(c, k).items)
    ensures var items, first := BaseFor(c, k).items, FirstUntouched(c, k, 0);
            Lost(c, k) == {} <==> first == |items| || Reached(items, k, ReadStart(c, k), ReadEnd(c, k), first)
  {
    var items, first := BaseFor(c, k).items, FirstUntouched(c, k, 0);
    var start, end := ReadStart(c, k), ReadEnd(c, k);
    if first == |items| {
    } else if Reached(items, k, start, end, first) {
      forall i | 0 <= i < |items| && items[i].key == k && Untouched(c, items[i])
        ensures Reached(items, k, start, end, i)
      {
        assert first <= i;
      }
    } else {
      LostSlot(c, k, first);
    }
  }

  lemma MinusPart(all: set<Value>, part: set<Value>)
    requires part <= all
    ensures all - part == all <==> part == {}
  {
    assert all - part == all ==> part !! all;
  }

  /** On every well-formed chain the read is exact if and only if the records met leave a
      range of the array of the branch taken, which neither starts beyond the first
      unmentioned base slot of k nor ends before k's run. */
  lemma ReadIsExactIff(c: Leaf, k: Key)
    requires WF(c) && !c.Remove? && InRange(k, LowOf(c), HighOf(c))
    ensures var items, first := BaseFor(c, k).items, FirstUntouched(c, k, 0);
            ReadIsExact(c, k) <==>
            && Readable(c, k)
            && (first == |items| || (ReadStart(c, k) <= first && LowerBound(items, k) <= ReadEnd(c, k)))
  {
    BaseForWF(c, k);
    LostAreLive(c, k);
    MinusPart(ValuesOf(c, k), Lost(c, k));
    NothingLostIff(c, k);
  }

  /** Keys j and k take the same branch at every merge record of the chain. */
  predicate SameBranch(c: Leaf, j: Key, k: Key) {
    match c
    case Base(_, _, _) => true
    case Merge(key, _, child, right) =>
      (j >= key <==> k >= key) && SameBranch(if k >= key then right else child, j, k)
    case _ => SameBranch(c.child, j, k)
  }

  /** Every data record the walk meets lies on the walk's own side of the merges below it. */
  predicate IndexSafe(c: Leaf, k: Key) {
    match c
    case Base(_, _, _) => true
    case Insert(item, _, child) => SameBranch(child, item.key, k) && IndexSafe(child, k)
    case Delete(item, _, child) => SameBranch(child, item.key, k) && IndexSafe(child, k)
    case Merge(key, _, child, right) => IndexSafe(if k >= key then right else child, k)
    case _ => IndexSafe(c.child, k)
  }

  predicate HasMerge(c: Leaf) {
    c.Merge? || (!c.Base? && HasMerge(c.child))
  }

  /** No data record lies above a merge record. */
  predicate NoDataAboveMerge(c: Leaf) {
    match c
    case Base(_, _, _) => true
    case Insert(_, _, child) => !HasMerge(child) && NoDataAboveMerge(child)
    case Delete(_, _, child) => !HasMerge(child) && NoDataAboveMerge(child)
    case Merge(_, _, child, right) => NoDataAboveMerge(child) && NoDataAboveMerge(right)
    case _ => NoDataAboveMerge(c.child)
  }

  ghost predicate SoundWindow(w: Window, items: seq<KV>, k: Key) {
    && w.start <= |items| && -1 <= w.end <= |items|
    && (forall j :: 0 <= j < w.start ==> items[j].key < k)
    && (w.end != -1 ==> forall j :: w.end <= j < |items| ==> k < items[j].key)
  }

  /** A sound window is an iterator range and reaches every slot of k. */
  lemma SoundWindowReachesAll(w: Window, items: seq<KV>, k: Key)
    requires SortedByKey(items) && SoundWindow(w, items, k)
    ensures IsRange(w, items)
    ensures forall i :: 0 <= i < |items| && items[i].key == k ==>
              w.start <= i && LowerBound(items, k) <= WindowEnd(w, items)
  {
    var atEnd := if 0 <= w.end < |items| then items[w.end].key else k;
  }

  lemma SameBranchSameBase(c: Leaf, j: Key, k: Key)
    requires SameBranch(c, j, k)
    ensures BaseFor(c, j) == BaseFor(c, k)
  {
  }

  lemma NoMergeSameBranch(c: Leaf, j: Key, k: Key)
    requires !HasMerge(c)
    ensures SameBranch(c, j, k)
  {
  }

  lemma NarrowedIsSound(w: Window, items: seq<KV>, k: Key, item: KV, ip: IndexPair)
    requires SortedByKey(items) && SoundWindow(w, items, k) && TrueIndex(items, item, ip)
    ensures SoundWindow(Narrowed(w, k, item, ip), items, k)
  {
  }

  lemma {:induction false} SafeWalkKeepsWindowSound(c: Leaf, k: Key, w: Window)
    requires WF(c) && IndexSafe(c, k) && SoundWindow(w, BaseFor(c, k).items, k)
    ensures SoundWindow(FinalWindow(c, k, w), BaseFor(c, k).items, k)
  {
    if c.Insert? || c.Delete? {
      SameBranchSameBase(c.child, c.item.key, k);
      BaseForWF(c.child, k);
      NarrowedIsSound(w, BaseFor(c, k).items, k, c.item, c.ip);
      SafeWalkKeepsWindowSound(c.child, k, Narrowed(w, k, c.item, c.ip));
    } else if c.Merge? {
      SafeWalkKeepsWindowSound(if k >= c.key then c.right else c.child, k, w);
    } else if !c.Base? {
      SafeWalkKeepsWindowSound(c.child, k, w);
    }
  }

  lemma {:induction false} NoDataAboveMergeIsSafe(c: Leaf, k: Key)
    requires NoDataAboveMerge(c)
    ensures IndexSafe(c, k)
  {
    match c {
      case Base(_, _, _) =>
      case Insert(item, _, child) => NoMergeSameBranch(child, item.key, k); NoDataAboveMergeIsSafe(child, k);
      case Delete(item, _, child) => NoMergeSameBranch(child, item.key, k); NoDataAboveMergeIsSafe(child, k);
      case Merge(key, _, child, right) => NoDataAboveMergeIsSafe(if k >= key then right else child, k);
      case _ => NoDataAboveMergeIsSafe(c.child, k);
    }
  }

  /** Safe chains, in particular all without a data record above a merge, are read exactly. */
  lemma SafeReadIsExact(c: Leaf, k: Key)
    requires WF(c) && !c.Remove? && InRange(k, LowOf(c), HighOf(c))
    requires NoDataAboveMerge(c) || IndexSafe(c, k)
    ensures ReadIsExact(c, k) && Lost(c, k) == {}
  {
    if NoDataAboveMerge(c) {
      NoDataAboveMergeIsSafe(c, k);
    }
    SafeWalkKeepsWindowSound(c, k, WHOLE);
    BaseForWF(c, k);
    WindowIsRead(c, k);
    SoundWindowReachesAll(FinalWindow(c, k, WHOLE), BaseFor(c, k).items, k);
    assert Lost(c, k) == {};
  }

  /** A merge of [1, 2, 3 | 10) and [10, +Inf) under an insert of key 12, which was
      indexed in the right branch. */
  function LossyLeft(v: Value): Leaf {
    Base(NegInf, [KV(1, v), KV(2, v), KV(3, v)], HighKey(10, 7))
  }

  function LossyMerged(v: Value): Leaf {
    Merge(10, 7, LossyLeft(v), Base(LowKey(10), [KV(10, v)], PosInf))
  }

  function LossyChain(v: Value): Leaf {
    Insert(KV(12, v), IndexPair(1, false), LossyMerged(v))
  }

  lemma LossyChainIsWellFormed(v: Value)
    ensures WF(LossyChain(v)) && InRange(3, LowOf(LossyChain(v)), HighOf(LossyChain(v)))
    ensures WF(LossyMerged(v)) && !NoDataAboveMerge(LossyChain(v))
  {
    var left, merged := LossyLeft(v), LossyMerged(v);
    var right := merged.right;
    assert WF(left) && WF(right);
    assert BaseFor(right, 12) == right && BaseFor(merged, 12) == right;
    assert LowOf(merged) == LowOf(left) == NegInf && HighOf(merged) == HighOf(right) == PosInf;
    assert KV(12, v) !in Replay(merged);
  }

  /** The read of key 3 on that chain loses its only value. */
  lemma ReadLosesValueAboveMerge(v: Value)
    ensures Readable(LossyChain(v), 3)
    ensures ValuesOf(LossyChain(v), 3) == {v} && Lost(LossyChain(v), 3) == {v}
  {
    var left, merged, c := LossyLeft(v), LossyMerged(v), LossyChain(v);
    LossyChainIsWellFormed(v);
    assert Met(left, 3) == Met(merged, 3) == [];
    assert Met(c, 3) == [Record(KV(12, v), IndexPair(1, false))];
    assert BaseFor(left, 3) == left && BaseFor(merged, 3) == left;
    assert left.items[2] == KV(3, v);
    assert Untouched(left, KV(3, v)) && Untouched(merged, KV(3, v));
    forall p | p in Replay(c) && p.key == 3 ensures p == KV(3, v) {
      MergeBranch(merged, p);
    }
    LostAreLive(c, 3);
  }

  /** A merge of [1 | 10) and [10, 11, +Inf) under an insert of key 12, indexed 2 in the
      right branch: more than the left array has slots. */
  function OutsideLeft(v: Value): Leaf {
    Base(NegInf, [KV(1, v)], HighKey(10, 7))
  }

  function OutsideChain(v: Value): Leaf {
    Insert(KV(12, v), IndexPair(2, false),
           Merge(10, 7, OutsideLeft(v), Base(LowKey(10), [KV(10, v), KV(11, v)], PosInf)))
  }

  /** The read of key 1 on that chain, where it has a value, searches up to slot 2 of an
      array with one slot. */
  lemma ReadLeavesArray(v: Value)
    ensures WF(OutsideChain(v)) && InRange(1, LowOf(OutsideChain(v)), HighOf(OutsideChain(v)))
    ensures v in ValuesOf(OutsideChain(v), 1)
    ensures ReadEnd(OutsideChain(v), 1) == 2 && |BaseFor(OutsideChain(v), 1).items| == 1
    ensures !Readable(OutsideChain(v), 1)
  {
    var left, c := OutsideLeft(v), OutsideChain(v);
    var merged := c.child;
    var right := merged.right;
    assert WF(left) && WF(right);
    assert BaseFor(right, 12) == right && BaseFor(merged, 12) == right;
    assert LowOf(merged) == LowOf(left) == NegInf && HighOf(merged) == HighOf(right) == PosInf;
    assert KV(12, v) !in Replay(merged);
    assert left.items[0] == KV(1, v) && KV(1, v) in Replay(left);
    assert Met(left, 1) == Met(merged, 1) == [];
    assert Met(c, 1) == [Record(KV(12, v), IndexPair(2, false))];
    assert BaseFor(left, 1) == left && BaseFor(merged, 1) == left;
  }
}
