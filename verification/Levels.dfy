/** The levels of the tree as their live nodes' metadata: ranges on one level lie apart and
    are linked by next ids, and every id is indexed in at most one parent, at its low key. */
module Levels {
  import opened Keys
  import opened NodeGraph

  /** Nodes that are published and not merged away. */
  type View = map<NodeId, Meta>

  predicate Above(a: Meta, b: Meta) {
    a.high.HighKey? && b.low.LowKey? && a.high.key <= b.low.key
  }

  predicate Apart(a: Meta, b: Meta) {
    Above(a, b) || Above(b, a)
  }

  /** 0: not published, 1: live or removed, 2: merged, 3: separator deleted. */
  function Rank(ph: Phase): nat {
    match ph
    case Pending => 0
    case Abandoned => 0
    case Live => 1
    case Removed => 1
    case Merged => 2
    case Retired => 3
  }

  ghost predicate HasRank(phase: map<NodeId, Phase>, id: NodeId, lo: nat, hi: nat) {
    id in phase && lo <= Rank(phase[id]) <= hi
  }

  ghost predicate Fits(v: View, places: map<NodeId, Place>, top: nat) {
    forall id :: id in v ==>
      && id in places && places[id] == Place(v[id].level, v[id].low)
      && v[id].level <= top && NonEmptyRange(v[id].low, v[id].high)
  }

  /** The high key of a node is the low key of the next node on its level. */
  ghost predicate Linked(v: View) {
    forall id :: id in v && v[id].high.HighKey? ==>
      var high := v[id].high;
      high.next in v && v[high.next].level == v[id].level && v[high.next].low == LowKey(high.key)
  }

  ghost predicate Separate(v: View) {
    forall a, b :: a in v && b in v && a != b && v[a].level == v[b].level ==> Apart(v[a], v[b])
  }

  /** A separator is the low key of a node one level down that is not retired yet. */
  ghost predicate IndexOk(m: Meta, e: Sep, phase: map<NodeId, Phase>, places: map<NodeId, Place>, indexed: set<NodeId>) {
    && e.id in indexed && HasRank(phase, e.id, 1, 2) && InRange(e.key, m.low, m.high)
    && e.id in places && places[e.id].level + 1 == m.level && places[e.id].low == LowKey(e.key)
  }

  ghost predicate Indexes(v: View, phase: map<NodeId, Phase>, places: map<NodeId, Place>, indexed: set<NodeId>) {
    forall p, e :: p in v && e in v[p].seps ==> IndexOk(v[p], e, phase, places, indexed)
  }

  ghost predicate HasHome(v: View, e: Sep) {
    exists p :: p in v && e in v[p].seps
  }

  /** An id that was indexed stays indexed until it is retired. */
  ghost predicate Homes(v: View, phase: map<NodeId, Phase>, places: map<NodeId, Place>, indexed: set<NodeId>, top: nat) {
    forall id :: id in indexed ==>
      && HasRank(phase, id, 1, 3) && id in places && places[id].level < top && places[id].low.LowKey?
      && (Rank(phase[id]) <= 2 ==> HasHome(v, Sep(places[id].low.key, id)))
  }

  ghost predicate RetiredWereIndexed(phase: map<NodeId, Phase>, indexed: set<NodeId>) {
    forall id :: id in phase && phase[id].Retired? ==> id in indexed
  }

  ghost predicate Ordered(v: View, places: map<NodeId, Place>, top: nat) {
    Fits(v, places, top) && Linked(v) && Separate(v)
  }

  ghost predicate Core(v: View, phase: map<NodeId, Phase>, places: map<NodeId, Place>, indexed: set<NodeId>, top: nat) {
    && Ordered(v, places, top) && Indexes(v, phase, places, indexed)
    && Homes(v, phase, places, indexed, top) && RetiredWereIndexed(phase, indexed)
    && forall id :: id in v <==> HasRank(phase, id, 1, 1)
  }

  // ----- what follows at once -----

  /** Two nodes of one level that cover a key are the same. */
  lemma CoverIsUnique(v: View, a: NodeId, b: NodeId, k: Key)
    requires Separate(v) && a in v && b in v && v[a].level == v[b].level
    requires InRange(k, v[a].low, v[a].high) && InRange(k, v[b].low, v[b].high)
    ensures a == b
  {
  }

  /** An id is the next id of at most one node. */
  lemma NextIsUnique(v: View, places: map<NodeId, Place>, top: nat, a: NodeId, b: NodeId)
    requires Ordered(v, places, top) && a in v && b in v
    requires v[a].high.HighKey? && v[b].high.HighKey? && v[a].high.next == v[b].high.next
    ensures a == b
  {
  }

  // ----- how separators and their homes move -----

  ghost predicate Keeps(v: View, w: View, e: Sep) {
    HasHome(v, e) ==> HasHome(w, e)
  }

  lemma HomesMove(v: View, w: View, phase: map<NodeId, Phase>, phase': map<NodeId, Phase>,
                  places: map<NodeId, Place>, indexed: set<NodeId>, top: nat)
    requires Homes(v, phase, places, indexed, top)
    requires forall x :: x in indexed ==> HasRank(phase', x, 1, 3)
    requires forall x :: x in indexed && HasRank(phase', x, 1, 2) ==>
               HasRank(phase, x, 1, 2) && Keeps(v, w, Sep(places[x].low.key, x))
    ensures Homes(w, phase', places, indexed, top)
  {
  }

  lemma IndexMoves(v: View, w: View, phase: map<NodeId, Phase>, phase': map<NodeId, Phase>,
                   places: map<NodeId, Place>, indexed: set<NodeId>, p0: NodeId, p: NodeId, e: Sep)
    requires Indexes(v, phase, places, indexed) && p0 in v && e in v[p0].seps && p in w
    requires v[p0].level == w[p].level
    requires InRange(e.key, v[p0].low, v[p0].high) ==> InRange(e.key, w[p].low, w[p].high)
    requires HasRank(phase, e.id, 1, 2) ==> HasRank(phase', e.id, 1, 2)
    ensures IndexOk(w[p], e, phase', places, indexed)
  {
    assert IndexOk(v[p0], e, phase, places, indexed);
  }

  // ----- steps that leave the view alone -----

  ghost predicate Grows<K, V>(m: map<K, V>, more: map<K, V>) {
    m.Keys <= more.Keys && forall k :: k in m ==> more[k] == m[k]
  }

  ghost predicate SameRanks(phase: map<NodeId, Phase>, phase': map<NodeId, Phase>) {
    && phase.Keys <= phase'.Keys
    && (forall id :: id in phase ==> Rank(phase'[id]) == Rank(phase[id]))
    && (forall id :: id in phase' && id !in phase ==> Rank(phase'[id]) == 0)
  }

  lemma CoreSame(v: View, phase: map<NodeId, Phase>, places: map<NodeId, Place>, indexed: set<NodeId>, top: nat,
                 phase': map<NodeId, Phase>, places': map<NodeId, Place>)
    requires Core(v, phase, places, indexed, top) && SameRanks(phase, phase') && Grows(places, places')
    ensures Core(v, phase', places', indexed, top)
  {
    forall p, e | p in v && e in v[p].seps ensures IndexOk(v[p], e, phase', places', indexed) {
      assert IndexOk(v[p], e, phase, places, indexed);
    }
  }

  // ----- split -----

  ghost function SplitView(v: View, id: NodeId, newId: NodeId, key: Key): View
    requires id in v
  {
    v[id := LeftPart(v[id], key, newId)][newId := RightPart(v[id], key)]
  }

  ghost predicate Splits(v: View, places: map<NodeId, Place>, id: NodeId, newId: NodeId, key: Key) {
    && id in v && newId !in v && AboveLow(key, v[id].low) && Below(key, v[id].high)
    && newId in places && places[newId] == Place(v[id].level, LowKey(key))
  }

  lemma SplitOrdered(v: View, places: map<NodeId, Place>, top: nat, id: NodeId, newId: NodeId, key: Key)
    requires Ordered(v, places, top) && Splits(v, places, id, newId, key)
    ensures Ordered(SplitView(v, id, newId, key), places, top)
  {
    var w := SplitView(v, id, newId, key);
    forall a, b | a in w && b in w && a != b && w[a].level == w[b].level ensures Apart(w[a], w[b]) {
      var a0, b0 := if a == newId then id else a, if b == newId then id else b;
      assert a0 != b0 ==> Apart(v[a0], v[b0]);
    }
  }

  lemma SplitKeeps(v: View, id: NodeId, newId: NodeId, key: Key, e: Sep)
    requires id in v && newId !in v
    ensures Keeps(v, SplitView(v, id, newId, key), e)
  {
    var w := SplitView(v, id, newId, key);
    if HasHome(v, e) {
      var p :| p in v && e in v[p].seps;
      assert e in w[if p != id then p else if e.key < key then id else newId].seps;
    }
  }

  lemma SplitIndexes(v: View, phase: map<NodeId, Phase>, places: map<NodeId, Place>, indexed: set<NodeId>,
                     id: NodeId, newId: NodeId, key: Key)
    requires Indexes(v, phase, places, indexed) && Splits(v, places, id, newId, key) && newId in phase
    ensures Indexes(SplitView(v, id, newId, key), phase[newId := Live], places, indexed)
  {
    var w, phase' := SplitView(v, id, newId, key), phase[newId := Live];
    forall p, e | p in w && e in w[p].seps ensures IndexOk(w[p], e, phase', places, indexed) {
      IndexMoves(v, w, phase, phase', places, indexed, if p == newId then id else p, p, e);
    }
  }

  lemma SplitHomes(v: View, phase: map<NodeId, Phase>, places: map<NodeId, Place>, indexed: set<NodeId>, top: nat,
                   id: NodeId, newId: NodeId, key: Key)
    requires Homes(v, phase, places, indexed, top) && id in v && newId !in v && HasRank(phase, newId, 0, 0)
    ensures Homes(SplitView(v, id, newId, key), phase[newId := Live], places, indexed, top)
  {
    forall e: Sep ensures Keeps(v, SplitView(v, id, newId, key), e) { SplitKeeps(v, id, newId, key, e); }
    HomesMove(v, SplitView(v, id, newId, key), phase, phase[newId := Live], places, indexed, top);
  }

  /** Publishing a split sibling. */
  lemma CoreSplit(v: View, phase: map<NodeId, Phase>, places: map<NodeId, Place>, indexed: set<NodeId>, top: nat,
                  id: NodeId, newId: NodeId, key: Key)
    requires Core(v, phase, places, indexed, top) && Splits(v, places, id, newId, key)
    requires HasRank(phase, newId, 0, 0)
    ensures Core(SplitView(v, id, newId, key), phase[newId := Live], places, indexed, top)
  {
    SplitOrdered(v, places, top, id, newId, key);
    SplitIndexes(v, phase, places, indexed, id, newId, key);
    SplitHomes(v, phase, places, indexed, top, id, newId, key);
  }

  // ----- merge -----

  ghost predicate Merges(v: View, id: NodeId, gone: NodeId) {
    id in v && v[id].high.HighKey? && v[id].high.next == gone
  }

  ghost function MergeView(v: View, id: NodeId, gone: NodeId): View
    requires id in v && gone in v
  {
    (v - {gone})[id := Joined(v[id], v[gone])]
  }

  lemma NextIsAnother(v: View, places: map<NodeId, Place>, top: nat, id: NodeId, gone: NodeId)
    requires Ordered(v, places, top) && Merges(v, id, gone)
    ensures gone in v && gone != id && v[gone].level == v[id].level && v[gone].low == LowKey(v[id].high.key)
    ensures v[gone].high.HighKey? ==> v[gone].high.next != gone && v[gone].high.next != id
  {
  }

  lemma MergeOrdered(v: View, places: map<NodeId, Place>, top: nat, id: NodeId, gone: NodeId)
    requires Ordered(v, places, top) && Merges(v, id, gone)
    ensures gone in v && Ordered(MergeView(v, id, gone), places, top)
  {
    NextIsAnother(v, places, top, id, gone);
    var w := MergeView(v, id, gone);
    forall a | a in w && w[a].high.HighKey? ensures w[a].high.next != gone {
      if a != id && w[a].high.next == gone {
        NextIsUnique(v, places, top, a, id);
      }
    }
    forall a, b | a in w && b in w && a != b && w[a].level == w[b].level ensures Apart(w[a], w[b]) {
      assert Apart(v[a], v[b]);
      assert a == id ==> Apart(v[gone], v[b]);
      assert b == id ==> Apart(v[gone], v[a]);
    }
  }

  lemma MergeKeeps(v: View, id: NodeId, gone: NodeId, e: Sep)
    requires id in v && gone in v && gone != id
    ensures Keeps(v, MergeView(v, id, gone), e)
  {
    var w := MergeView(v, id, gone);
    if HasHome(v, e) {
      var p :| p in v && e in v[p].seps;
      assert e in w[if p == gone then id else p].seps;
    }
  }

  lemma MergeIndexes(v: View, phase: map<NodeId, Phase>, places: map<NodeId, Place>, indexed: set<NodeId>,
                     id: NodeId, gone: NodeId)
    requires Indexes(v, phase, places, indexed) && Merges(v, id, gone) && gone in v && gone != id
    requires v[gone].level == v[id].level && v[gone].low == LowKey(v[id].high.key)
    requires NonEmptyRange(v[id].low, v[id].high) && NonEmptyRange(v[gone].low, v[gone].high)
    ensures Indexes(MergeView(v, id, gone), phase[gone := Merged], places, indexed)
  {
    var w, phase' := MergeView(v, id, gone), phase[gone := Merged];
    forall p, e | p in w && e in w[p].seps ensures IndexOk(w[p], e, phase', places, indexed) {
      IndexMoves(v, w, phase, phase', places, indexed, if p == id && e !in v[id].seps then gone else p, p, e);
    }
  }

  lemma MergeHomes(v: View, phase: map<NodeId, Phase>, places: map<NodeId, Place>, indexed: set<NodeId>, top: nat,
                   id: NodeId, gone: NodeId)
    requires Homes(v, phase, places, indexed, top) && id in v && gone in v && gone != id
    requires HasRank(phase, gone, 1, 1)
    ensures Homes(MergeView(v, id, gone), phase[gone := Merged], places, indexed, top)
  {
    forall e: Sep ensures Keeps(v, MergeView(v, id, gone), e) { MergeKeeps(v, id, gone, e); }
    HomesMove(v, MergeView(v, id, gone), phase, phase[gone := Merged], places, indexed, top);
  }

  lemma MergeRanks(v: View, phase: map<NodeId, Phase>, indexed: set<NodeId>, id: NodeId, gone: NodeId)
    requires id in v && gone in v && gone != id && (forall x :: x in v <==> HasRank(phase, x, 1, 1))
    requires RetiredWereIndexed(phase, indexed)
    ensures forall x :: x in MergeView(v, id, gone) <==> HasRank(phase[gone := Merged], x, 1, 1)
    ensures RetiredWereIndexed(phase[gone := Merged], indexed)
  {
  }

  lemma CoreMerge(v: View, phase: map<NodeId, Phase>, places: map<NodeId, Place>, indexed: set<NodeId>, top: nat,
                  id: NodeId, gone: NodeId)
    requires Core(v, phase, places, indexed, top) && Merges(v, id, gone)
    ensures gone in v && Core(MergeView(v, id, gone), phase[gone := Merged], places, indexed, top)
  {
    NextIsAnother(v, places, top, id, gone);
    MergeOrdered(v, places, top, id, gone);
    MergeIndexes(v, phase, places, indexed, id, gone);
    MergeHomes(v, phase, places, indexed, top, id, gone);
    MergeRanks(v, phase, indexed, id, gone);
  }

  // ----- separators -----

  ghost function WithSeps(v: View, p: NodeId, seps: set<Sep>): View
    requires p in v
  {
    v[p := v[p].(seps := seps)]
  }

  lemma SepsKeepOrdered(v: View, places: map<NodeId, Place>, top: nat, p: NodeId, seps: set<Sep>)
    requires Ordered(v, places, top) && p in v
    ensures Ordered(WithSeps(v, p, seps), places, top)
  {
    var w := WithSeps(v, p, seps);
    forall a, b | a in w && b in w && a != b && w[a].level == w[b].level ensures Apart(w[a], w[b]) {
      assert Apart(v[a], v[b]);
    }
  }

  lemma SepsKeep(v: View, p: NodeId, seps: set<Sep>, e: Sep)
    requires p in v && (e in v[p].seps ==> e in seps)
    ensures Keeps(v, WithSeps(v, p, seps), e)
  {
    var w := WithSeps(v, p, seps);
    if HasHome(v, e) {
      var o :| o in v && e in v[o].seps;
      assert e in w[o].seps;
    }
  }

  /** One more id with a home. */
  lemma HomesGrow(w: View, phase: map<NodeId, Phase>, places: map<NodeId, Place>, indexed: set<NodeId>, top: nat,
                  sep: Sep)
    requires Homes(w, phase, places, indexed, top) && HasHome(w, sep) && HasRank(phase, sep.id, 1, 3)
    requires sep.id in places && places[sep.id].level < top && places[sep.id].low == LowKey(sep.key)
    ensures Homes(w, phase, places, indexed + {sep.id}, top)
  {
  }

  lemma InsertIndexes(v: View, phase: map<NodeId, Phase>, places: map<NodeId, Place>, indexed: set<NodeId>,
                      p: NodeId, sep: Sep)
    requires Indexes(v, phase, places, indexed) && p in v && InRange(sep.key, v[p].low, v[p].high)
    requires HasRank(phase, sep.id, 1, 2)
    requires sep.id in places && places[sep.id].level + 1 == v[p].level && places[sep.id].low == LowKey(sep.key)
    ensures Indexes(WithSeps(v, p, v[p].seps + {sep}), phase, places, indexed + {sep.id})
  {
    var w := WithSeps(v, p, v[p].seps + {sep});
    forall o, e | o in w && e in w[o].seps ensures IndexOk(w[o], e, phase, places, indexed + {sep.id}) {
      if e in v[o].seps {
        IndexMoves(v, w, phase, phase, places, indexed, o, o, e);
      }
    }
  }

  /** Inserting the separator of an id that was never indexed. */
  lemma CoreInsert(v: View, phase: map<NodeId, Phase>, places: map<NodeId, Place>, indexed: set<NodeId>, top: nat,
                   p: NodeId, sep: Sep)
    requires Core(v, phase, places, indexed, top) && p in v && InRange(sep.key, v[p].low, v[p].high)
    requires sep.id !in indexed && HasRank(phase, sep.id, 1, 3)
    requires sep.id in places && places[sep.id].level + 1 == v[p].level && places[sep.id].low == LowKey(sep.key)
    ensures Core(WithSeps(v, p, v[p].seps + {sep}), phase, places, indexed + {sep.id}, top)
  {
    var w := WithSeps(v, p, v[p].seps + {sep});
    SepsKeepOrdered(v, places, top, p, v[p].seps + {sep});
    InsertIndexes(v, phase, places, indexed, p, sep);
    forall e: Sep ensures Keeps(v, w, e) { SepsKeep(v, p, v[p].seps + {sep}, e); }
    HomesMove(v, w, phase, phase, places, indexed, top);
    assert sep in w[p].seps;
    HomesGrow(w, phase, places, indexed, top, sep);
  }

  lemma DeleteIndexes(v: View, phase: map<NodeId, Phase>, places: map<NodeId, Place>, indexed: set<NodeId>,
                      p: NodeId, sep: Sep)
    requires Indexes(v, phase, places, indexed) && Separate(v) && p in v && sep in v[p].seps
    ensures Indexes(WithSeps(v, p, v[p].seps - {sep}), phase[sep.id := Retired], places, indexed)
  {
    var w, phase' := WithSeps(v, p, v[p].seps - {sep}), phase[sep.id := Retired];
    assert IndexOk(v[p], sep, phase, places, indexed);
    forall o, e | o in w && e in w[o].seps ensures IndexOk(w[o], e, phase', places, indexed) {
      assert IndexOk(v[o], e, phase, places, indexed);
      if e.id == sep.id {
        CoverIsUnique(v, o, p, e.key);
      }
    }
  }

  lemma DeleteHomes(v: View, phase: map<NodeId, Phase>, places: map<NodeId, Place>, indexed: set<NodeId>, top: nat,
                    p: NodeId, sep: Sep)
    requires Homes(v, phase, places, indexed, top) && p in v
    ensures Homes(WithSeps(v, p, v[p].seps - {sep}), phase[sep.id := Retired], places, indexed, top)
  {
    var w := WithSeps(v, p, v[p].seps - {sep});
    forall e: Sep | e.id != sep.id ensures Keeps(v, w, e) { SepsKeep(v, p, v[p].seps - {sep}, e); }
    HomesMove(v, w, phase, phase[sep.id := Retired], places, indexed, top);
  }

  /** Deleting the separator of a merged node retires it: no node has it any more. */
  lemma CoreDelete(v: View, phase: map<NodeId, Phase>, places: map<NodeId, Place>, indexed: set<NodeId>, top: nat,
                   p: NodeId, sep: Sep)
    requires Core(v, phase, places, indexed, top) && p in v && sep in v[p].seps
    requires HasRank(phase, sep.id, 2, 2)
    ensures Core(WithSeps(v, p, v[p].seps - {sep}), phase[sep.id := Retired], places, indexed, top)
  {
    var w, phase' := WithSeps(v, p, v[p].seps - {sep}), phase[sep.id := Retired];
    SepsKeepOrdered(v, places, top, p, v[p].seps - {sep});
    DeleteIndexes(v, phase, places, indexed, p, sep);
    assert IndexOk(v[p], sep, phase, places, indexed);
    DeleteHomes(v, phase, places, indexed, top, p, sep);
  }

  lemma RootIndexes(v: View, phase: map<NodeId, Phase>, places: map<NodeId, Place>, indexed: set<NodeId>, top: nat,
                    newRoot: NodeId, sep: Sep)
    requires Indexes(v, phase, places, indexed) && newRoot !in v && newRoot in phase
    requires HasRank(phase, sep.id, 1, 2) && sep.id in places && places[sep.id] == Place(top, LowKey(sep.key))
    ensures Indexes(v[newRoot := RootMeta(top, sep)], phase[newRoot := Live], places, indexed + {sep.id})
  {
    var w, phase' := v[newRoot := RootMeta(top, sep)], phase[newRoot := Live];
    forall o, e | o in w && e in w[o].seps ensures IndexOk(w[o], e, phase', places, indexed + {sep.id}) {
      if o != newRoot {
        IndexMoves(v, w, phase, phase', places, indexed, o, o, e);
      }
    }
  }

  lemma RootKeeps(v: View, newRoot: NodeId, m: Meta, e: Sep)
    requires newRoot !in v
    ensures Keeps(v, v[newRoot := m], e)
  {
    if HasHome(v, e) {
      var o :| o in v && e in v[o].seps;
      assert e in v[newRoot := m][o].seps;
    }
  }

  lemma RootHomes(v: View, phase: map<NodeId, Phase>, places: map<NodeId, Place>, indexed: set<NodeId>, top: nat,
                  newRoot: NodeId, sep: Sep)
    requires Homes(v, phase, places, indexed, top) && newRoot !in v && HasRank(phase, newRoot, 0, 0)
    requires HasRank(phase, sep.id, 1, 3) && sep.id in places && places[sep.id] == Place(top, LowKey(sep.key))
    ensures Homes(v[newRoot := RootMeta(top, sep)], phase[newRoot := Live], places, indexed + {sep.id}, top + 1)
  {
    var w, phase' := v[newRoot := RootMeta(top, sep)], phase[newRoot := Live];
    forall e: Sep ensures Keeps(v, w, e) { RootKeeps(v, newRoot, RootMeta(top, sep), e); }
    HomesMove(v, w, phase, phase', places, indexed, top);
    assert sep in w[newRoot].seps;
    HomesGrow(w, phase', places, indexed, top + 1, sep);
  }

  /** A new root with one separator, above all levels so far. */
  lemma CoreRoot(v: View, phase: map<NodeId, Phase>, places: map<NodeId, Place>, indexed: set<NodeId>, top: nat,
                 newRoot: NodeId, sep: Sep)
    requires Core(v, phase, places, indexed, top) && HasRank(phase, newRoot, 0, 0)
    requires newRoot in places && places[newRoot] == Place(top + 1, NegInf)
    requires HasRank(phase, sep.id, 1, 3) && sep.id in places && places[sep.id] == Place(top, LowKey(sep.key))
    ensures sep.id !in indexed
    ensures Core(v[newRoot := RootMeta(top, sep)], phase[newRoot := Live], places, indexed + {sep.id}, top + 1)
  {
    var w, phase' := v[newRoot := RootMeta(top, sep)], phase[newRoot := Live];
    RootIndexes(v, phase, places, indexed, top, newRoot, sep);
    RootHomes(v, phase, places, indexed, top, newRoot, sep);
  }
}
