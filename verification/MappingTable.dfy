/** The mapping table of the leaf level as a step machine.

    Threads load (id, pointer) snapshots at any time and later try to install a
    node built from a snapshot with a compare-and-swap that compares pointers.
    Snapshots may be arbitrarily stale. Physical nodes are immutable and, thanks
    to epoch reclamation, a pointer is not reused while anyone holds it, so every
    installed node has a fresh pointer. Node ids are taken from a counter, because
    the free id stack is never refilled. */
module MappingTable {
  import opened Keys
  import opened LeafChain
  import opened LeafSplit
  import opened LeafLevel

  type Ptr = nat

  /** A sibling stored under a new id by a thread about to try a split at key on p. */
  datatype Prepared = Prepared(p: Ptr, key: Key)

  datatype State = State(
    table: map<NodeId, Ptr>,
    mem: map<Ptr, Leaf>,
    snaps: set<(NodeId, Ptr)>,
    visible: set<NodeId>,
    merged: set<NodeId>,
    prepared: map<NodeId, Prepared>,
    nextId: NodeId)

  datatype Step =
    | Load(id: NodeId)
    | CasInsert(id: NodeId, p: Ptr, q: Ptr, item: KV, ip: IndexPair)
    | CasDelete(id: NodeId, p: Ptr, q: Ptr, item: KV, ip: IndexPair)
    | CasConsolidate(id: NodeId, p: Ptr, q: Ptr, items: seq<KV>)
    | InstallSibling(p: Ptr, q: Ptr, key: Key)
    | CasSplit(id: NodeId, p: Ptr, q: Ptr, newId: NodeId)
    | CasRemove(id: NodeId, p: Ptr, q: Ptr)
    | CasMerge(id: NodeId, p: Ptr, q: Ptr, removedId: NodeId, rp: Ptr)
    | RecycleId(id: NodeId)

  /** The nodes a thread may build from its snapshots: exactly what the code checked
      on the snapshot, nothing about the present state of the table. */
  ghost predicate Enabled(st: State, step: Step) {
    match step
    case Load(id) => id in st.visible && id in st.table
    case CasInsert(id, p, q, item, ip) =>
      Postable(st, id, p, q, item, ip) && item !in Replay(st.mem[p])
    case CasDelete(id, p, q, item, ip) =>
      Postable(st, id, p, q, item, ip) && item in Replay(st.mem[p])
    case CasConsolidate(id, p, q, items) =>
      && Snapshot(st, id, p, q) && !st.mem[p].Remove?
      && SortedByKey(items) && Distinct(items) && Elems(items) == Replay(st.mem[p])
    case InstallSibling(p, q, key) => q !in st.mem && p in st.mem && Splittable(st.mem[p], key)
    case CasSplit(id, p, q, newId) =>
      Snapshot(st, id, p, q) && st.mem[p].Base? && newId in st.prepared && st.prepared[newId].p == p
    case CasRemove(id, p, q) => Snapshot(st, id, p, q) && st.mem[p].Base? && id != FIRST_LEAF_NODE_ID
    case CasMerge(id, p, q, removedId, rp) =>
      && Snapshot(st, id, p, q) && !st.mem[p].Remove?
      && (removedId, rp) in st.snaps && rp in st.mem && st.mem[rp].Remove?
      && HighOf(st.mem[p]).HighKey? && HighOf(st.mem[p]).next == removedId
    case RecycleId(id) => id in st.merged
  }

  ghost predicate Snapshot(st: State, id: NodeId, p: Ptr, q: Ptr) {
    (id, p) in st.snaps && p in st.mem && q !in st.mem
  }

  ghost predicate Postable(st: State, id: NodeId, p: Ptr, q: Ptr, item: KV, ip: IndexPair) {
    && Snapshot(st, id, p, q) && !st.mem[p].Remove?
    && InRange(item.key, LowOf(st.mem[p]), HighOf(st.mem[p]))
    && TrueIndex(BaseFor(st.mem[p], item.key).items, item, ip)
  }

  ghost predicate Splittable(c: Leaf, key: Key) {
    && c.Base? && InRange(key, c.low, c.high) && NonEmptyRange(c.low, HighKey(key, 0))
    && var n := LowerBound(c.items, key); n < |c.items| && c.items[n].key == key
  }

  /** The compare-and-swap succeeds: the entry still holds the snapshot's pointer. */
  predicate Wins(st: State, id: NodeId, p: Ptr) {
    id in st.table && st.table[id] == p
  }

  function Install(st: State, id: NodeId, p: Ptr, q: Ptr, c: Leaf): State {
    if Wins(st, id, p) then st.(table := st.table[id := q], mem := st.mem[q := c]) else st
  }

  ghost function Next(st: State, step: Step): State
    requires Enabled(st, step)
  {
    match step
    case Load(id) => st.(snaps := st.snaps + {(id, st.table[id])})
    case CasInsert(id, p, q, item, ip) => Install(st, id, p, q, Insert(item, ip, st.mem[p]))
    case CasDelete(id, p, q, item, ip) => Install(st, id, p, q, Delete(item, ip, st.mem[p]))
    case CasConsolidate(id, p, q, items) =>
      Install(st, id, p, q, Base(LowOf(st.mem[p]), items, HighOf(st.mem[p])))
    case InstallSibling(p, q, key) =>
      st.(table := st.table[st.nextId := q], mem := st.mem[q := SiblingAt(st.mem[p], key)],
          prepared := st.prepared[st.nextId := Prepared(p, key)], nextId := st.nextId + 1)
    case CasSplit(id, p, q, newId) =>
      var st' := st.(prepared := st.prepared - {newId});
      if Wins(st, id, p)
      then Install(st', id, p, q, SplitAt(st.mem[p], st.prepared[newId].key, newId))
           .(visible := st.visible + {newId})
      else st'
    case CasRemove(id, p, q) => Install(st, id, p, q, Remove(id, st.mem[p]))
    case CasMerge(id, p, q, removedId, rp) =>
      var st' := Install(st, id, p, q,
                         Merge(HighOf(st.mem[p]).key, removedId, st.mem[p], st.mem[rp].child));
      if Wins(st, id, p) then st'.(merged := st.merged + {removedId}) else st'
    case RecycleId(id) => st.(table := st.table - {id})
  }

  function ViewIn(table: map<NodeId, Ptr>, mem: map<Ptr, Leaf>): View {
    map id | id in table && table[id] in mem :: mem[table[id]]
  }

  function ViewOf(st: State): View {
    ViewIn(st.table, st.mem)
  }

  // ----- the invariant -----

  /** Pointers, ids and remove records. A snapshot of a remove record stays current
      until the node's merge has gone through. */
  ghost predicate Memory(st: State) {
    && (forall id :: id in st.table ==> st.table[id] in st.mem && id < st.nextId)
    && (forall p :: p in st.mem ==> WF(st.mem[p]))
    && (forall s :: s in st.snaps ==> s.1 in st.mem && s.0 in st.visible)
    && (forall id :: id in st.visible ==> id < st.nextId) && st.merged <= st.visible
    && (forall s :: s in st.snaps && st.mem[s.1].Remove? ==>
          s.0 in st.merged || (s.0 in st.table && st.table[s.0] == s.1))
    && (forall id :: id in st.merged && id in st.table ==> st.mem[st.table[id]].Remove?)
  }

  /** The entry under id still holds the sibling that was cut from the prepared base. */
  ghost predicate HoldsSibling(st: State, id: NodeId, pr: Prepared) {
    && id in st.table && id !in st.visible && st.table[id] in st.mem
    && pr.p in st.mem && Splittable(st.mem[pr.p], pr.key)
    && st.mem[st.table[id]] == SiblingAt(st.mem[pr.p], pr.key)
  }

  ghost predicate Siblings(st: State) {
    forall id :: id in st.prepared ==> HoldsSibling(st, id, st.prepared[id])
  }

  ghost predicate InvOn(st: State, path: seq<NodeId>) {
    && Memory(st) && Siblings(st)
    && Tiling(ViewOf(st), path)
    && st.visible == Elems(path) + st.merged && Elems(path) !! st.merged
  }

  ghost predicate Inv(st: State) {
    exists path :: InvOn(st, path)
  }

  /** The live pairs on the walk from the first leaf. */
  ghost function Live(st: State): set<KV>
    requires Inv(st)
  {
    var path :| InvOn(st, path);
    Contents(ViewOf(st), path)
  }

  lemma LiveOn(st: State, path: seq<NodeId>)
    requires InvOn(st, path)
    ensures Inv(st) && Live(st) == Contents(ViewOf(st), path)
  {
    forall q | InvOn(st, q) ensures q == path {
      WalkIsUnique(ViewOf(st), q, path, |q|);
    }
  }

  /** The abstract set after a step: only a winning insert or delete changes it. */
  ghost function LiveAfter(st: State, step: Step, live: set<KV>): set<KV> {
    match step
    case CasInsert(id, p, _, item, _) => if Wins(st, id, p) then live + {item} else live
    case CasDelete(id, p, _, item, _) => if Wins(st, id, p) then live - {item} else live
    case _ => live
  }

  // ----- each kind of step -----

  /** A winning swap on a node that is not removed hits a node of the path. */
  lemma WinnerIsOnPath(st: State, path: seq<NodeId>, id: NodeId, p: Ptr)
    requires InvOn(st, path) && (id, p) in st.snaps && Wins(st, id, p) && !st.mem[p].Remove?
    ensures id in path && ViewOf(st)[id] == st.mem[p]
  {
    assert id in st.visible;
    assert id in Elems(path) ==> id in path;
  }

  lemma InstallView(st: State, id: NodeId, p: Ptr, q: Ptr, c: Leaf)
    requires Memory(st) && Wins(st, id, p) && q !in st.mem
    ensures ViewOf(Install(st, id, p, q, c)) == ViewOf(st)[id := c]
  {
  }

  /** Swapping in any well-formed chain, on a snapshot that is not a remove record. */
  lemma InstallKeepsMemory(st: State, id: NodeId, p: Ptr, q: Ptr, c: Leaf)
    requires Memory(st) && (id, p) in st.snaps && p in st.mem && q !in st.mem
    requires !st.mem[p].Remove? && WF(c)
    ensures Memory(Install(st, id, p, q, c))
  {
    var st' := Install(st, id, p, q, c);
    if Wins(st, id, p) {
      assert id !in st.merged;
      forall s | s in st'.snaps && st'.mem[s.1].Remove?
        ensures s.0 in st'.merged || (s.0 in st'.table && st'.table[s.0] == s.1)
      {
        assert s in st.snaps && s.1 in st.mem && st'.mem[s.1] == st.mem[s.1];
      }
    }
  }

  lemma InstallKeepsSiblings(st: State, id: NodeId, p: Ptr, q: Ptr, c: Leaf)
    requires Siblings(st) && id in st.visible && q !in st.mem
    ensures Siblings(Install(st, id, p, q, c))
  {
    var st' := Install(st, id, p, q, c);
    forall o | o in st'.prepared ensures HoldsSibling(st', o, st'.prepared[o]) {
      assert HoldsSibling(st, o, st.prepared[o]);
    }
  }

  /** Steps that replace one node's chain by a chain with the same bounds. */
  lemma ReplaceStep(st: State, path: seq<NodeId>, id: NodeId, p: Ptr, q: Ptr, c: Leaf)
    requires InvOn(st, path) && Snapshot(st, id, p, q) && !st.mem[p].Remove? && WF(c)
    requires LowOf(c) == LowOf(st.mem[p]) && HighOf(c) == HighOf(st.mem[p])
    ensures InvOn(Install(st, id, p, q, c), path)
    ensures Wins(st, id, p) ==> id in path && ViewOf(st)[id] == st.mem[p]
    ensures Contents(ViewOf(Install(st, id, p, q, c)), path)
         == if Wins(st, id, p) then (Contents(ViewOf(st), path) - Replay(st.mem[p])) + Replay(c)
            else Contents(ViewOf(st), path)
  {
    if Wins(st, id, p) {
      WinnerIsOnPath(st, path, id, p);
      InstallKeepsMemory(st, id, p, q, c);
      InstallKeepsSiblings(st, id, p, q, c);
      InstallView(st, id, p, q, c);
      ReplaceKeepsTiling(ViewOf(st), path, id, c);
      ReplaceChangesOnly(ViewOf(st), path, id, c);
    }
  }

  lemma LoadStep(st: State, path: seq<NodeId>, id: NodeId)
    requires InvOn(st, path) && Enabled(st, Load(id))
    ensures InvOn(Next(st, Load(id)), path) && ViewOf(Next(st, Load(id))) == ViewOf(st)
  {
  }

  lemma InsertStep(st: State, path: seq<NodeId>, step: Step)
    requires InvOn(st, path) && step.CasInsert? && Enabled(st, step)
    ensures InvOn(Next(st, step), path)
    ensures Contents(ViewOf(Next(st, step)), path) == LiveAfter(st, step, Contents(ViewOf(st), path))
    ensures Wins(st, step.id, step.p) ==> step.item !in Contents(ViewOf(st), path)
  {
    var c := Insert(step.item, step.ip, st.mem[step.p]);
    ReplaceStep(st, path, step.id, step.p, step.q, c);
    if Wins(st, step.id, step.p) {
      PairIsWhereItsKeyIs(ViewOf(st), path, step.item, step.id);
      assert Replay(st.mem[step.p]) <= Contents(ViewOf(st), path);
    }
  }

  lemma DeleteStep(st: State, path: seq<NodeId>, step: Step)
    requires InvOn(st, path) && step.CasDelete? && Enabled(st, step)
    ensures InvOn(Next(st, step), path)
    ensures Contents(ViewOf(Next(st, step)), path) == LiveAfter(st, step, Contents(ViewOf(st), path))
    ensures Wins(st, step.id, step.p) ==> step.item in Contents(ViewOf(st), path)
  {
    var c := Delete(step.item, step.ip, st.mem[step.p]);
    ReplaceStep(st, path, step.id, step.p, step.q, c);
    if Wins(st, step.id, step.p) {
      PairIsWhereItsKeyIs(ViewOf(st), path, step.item, step.id);
      assert Replay(st.mem[step.p]) <= Contents(ViewOf(st), path);
    }
  }

  lemma ConsolidateStep(st: State, path: seq<NodeId>, step: Step)
    requires InvOn(st, path) && step.CasConsolidate? && Enabled(st, step)
    ensures InvOn(Next(st, step), path)
    ensures Contents(ViewOf(Next(st, step)), path) == Contents(ViewOf(st), path)
  {
    var was := st.mem[step.p];
    var c := Base(LowOf(was), step.items, HighOf(was));
    WFInfo(was);
    assert forall p :: p in step.items ==> p in Elems(step.items);
    ReplaceStep(st, path, step.id, step.p, step.q, c);
    if Wins(st, step.id, step.p) {
      assert Replay(was) <= Contents(ViewOf(st), path);
    }
  }

  lemma RemoveStep(st: State, path: seq<NodeId>, step: Step)
    requires InvOn(st, path) && step.CasRemove? && Enabled(st, step)
    ensures InvOn(Next(st, step), path)
    ensures Contents(ViewOf(Next(st, step)), path) == Contents(ViewOf(st), path)
  {
    var was := st.mem[step.p];
    ReplaceStep(st, path, step.id, step.p, step.q, Remove(step.id, was));
    if Wins(st, step.id, step.p) {
      assert Replay(was) <= Contents(ViewOf(st), path);
    }
  }

  lemma OffPath(st: State, path: seq<NodeId>, id: NodeId)
    requires InvOn(st, path) && (id !in st.visible || id in st.merged)
    ensures id !in path
  {
    assert id in path ==> id in Elems(path);
  }

  lemma InstallSiblingKeepsMemory(st: State, step: Step)
    requires Memory(st) && step.InstallSibling? && Enabled(st, step)
    ensures Memory(Next(st, step))
  {
    SplitAtKey(st.mem[step.p], step.key, 0);
  }

  lemma InstallSiblingKeepsSiblings(st: State, step: Step)
    requires Memory(st) && Siblings(st) && step.InstallSibling? && Enabled(st, step)
    ensures Siblings(Next(st, step))
  {
    var st' := Next(st, step);
    forall o | o in st'.prepared ensures HoldsSibling(st', o, st'.prepared[o]) {
      assert o != st.nextId ==> HoldsSibling(st, o, st.prepared[o]);
    }
  }

  lemma InstallSiblingStep(st: State, path: seq<NodeId>, step: Step)
    requires InvOn(st, path) && step.InstallSibling? && Enabled(st, step)
    ensures InvOn(Next(st, step), path)
    ensures Contents(ViewOf(Next(st, step)), path) == Contents(ViewOf(st), path)
  {
    InstallSiblingKeepsMemory(st, step);
    InstallSiblingKeepsSiblings(st, step);
    OffPath(st, path, st.nextId);
    OnlyThePathMatters(ViewOf(st), ViewOf(Next(st, step)), path);
  }

  lemma RecycleKeepsMemory(st: State, id: NodeId)
    requires Memory(st) && Siblings(st) && id in st.merged
    ensures Memory(st.(table := st.table - {id})) && Siblings(st.(table := st.table - {id}))
  {
    var st' := st.(table := st.table - {id});
    forall o | o in st'.prepared ensures HoldsSibling(st', o, st'.prepared[o]) {
      assert HoldsSibling(st, o, st.prepared[o]);
    }
  }

  lemma RecycleStep(st: State, path: seq<NodeId>, id: NodeId)
    requires InvOn(st, path) && Enabled(st, RecycleId(id))
    ensures InvOn(Next(st, RecycleId(id)), path)
    ensures Contents(ViewOf(Next(st, RecycleId(id))), path) == Contents(ViewOf(st), path)
  {
    OffPath(st, path, id);
    RecycleKeepsMemory(st, id);
    OnlyThePathMatters(ViewOf(st), ViewOf(Next(st, RecycleId(id))), path);
  }

  function Published(st: State, newId: NodeId): State {
    st.(prepared := st.prepared - {newId}, visible := st.visible + {newId})
  }

  lemma PublishKeepsMemory(st: State, newId: NodeId)
    requires Memory(st) && newId < st.nextId
    ensures Memory(Published(st, newId))
  {
  }

  lemma PublishKeepsSiblings(st: State, newId: NodeId)
    requires Siblings(st)
    ensures Siblings(Published(st, newId))
  {
    var st' := Published(st, newId);
    forall o | o in st'.prepared ensures HoldsSibling(st', o, st'.prepared[o]) {
      assert HoldsSibling(st, o, st.prepared[o]);
    }
  }

  lemma SplitKeepsMemory(st: State, step: Step)
    requires Memory(st) && Siblings(st) && step.CasSplit? && Enabled(st, step)
    ensures Memory(Next(st, step)) && Siblings(Next(st, step))
  {
    if Wins(st, step.id, step.p) {
      var key := st.prepared[step.newId].key;
      var c := SplitAt(st.mem[step.p], key, step.newId);
      SplitAtKey(st.mem[step.p], key, step.newId);
      InstallKeepsMemory(st, step.id, step.p, step.q, c);
      InstallKeepsSiblings(st, step.id, step.p, step.q, c);
      var mid := Install(st, step.id, step.p, step.q, c);
      assert HoldsSibling(st, step.newId, st.prepared[step.newId]);
      PublishKeepsMemory(mid, step.newId);
      PublishKeepsSiblings(mid, step.newId);
      assert Next(st, step) == Published(mid, step.newId);
    }
  }

  lemma SplitView(st: State, step: Step)
    requires Memory(st) && Siblings(st) && step.CasSplit? && Enabled(st, step)
    ensures ViewOf(Next(st, step))
         == if Wins(st, step.id, step.p)
            then ViewOf(st)[step.id := SplitAt(st.mem[step.p], st.prepared[step.newId].key, step.newId)]
            else ViewOf(st)
  {
    if Wins(st, step.id, step.p) {
      var c := SplitAt(st.mem[step.p], st.prepared[step.newId].key, step.newId);
      InstallView(st, step.id, step.p, step.q, c);
      assert ViewOf(Next(st, step)) == ViewOf(Install(st, step.id, step.p, step.q, c));
    }
  }

  lemma SplitPath(st: State, path: seq<NodeId>, step: Step, i: nat)
    requires InvOn(st, path) && step.CasSplit? && Enabled(st, step) && Wins(st, step.id, step.p)
    requires i < |path| && path[i] == step.id && ViewOf(st)[step.id] == st.mem[step.p]
    ensures var path' := WithSibling(path, i, step.newId);
            && step.newId !in path && Elems(path') == Elems(path) + {step.newId}
            && Tiling(ViewOf(Next(st, step)), path')
            && Contents(ViewOf(Next(st, step)), path') == Contents(ViewOf(st), path)
  {
    var newId, v := step.newId, ViewOf(st);
    var key := st.prepared[newId].key;
    OffPath(st, path, newId);
    SplitView(st, step);
    SplitKeepsTiling(v, path, i, key, newId);
    SplitKeepsContents(v, path, i, key, newId);
    assert Elems(WithSibling(path, i, newId)) == Elems(path) + {newId};
  }

  lemma SplitVisible(st: State, path: seq<NodeId>, step: Step, path': seq<NodeId>)
    requires InvOn(st, path) && step.CasSplit? && Enabled(st, step)
    requires Elems(path') == Elems(path) + if Wins(st, step.id, step.p) then {step.newId} else {}
    ensures Next(st, step).visible == Elems(path') + Next(st, step).merged
    ensures Elems(path') !! Next(st, step).merged
  {
    assert HoldsSibling(st, step.newId, st.prepared[step.newId]);
  }

  lemma SplitStep(st: State, path: seq<NodeId>, step: Step) returns (path': seq<NodeId>)
    requires InvOn(st, path) && step.CasSplit? && Enabled(st, step)
    ensures InvOn(Next(st, step), path')
    ensures Contents(ViewOf(Next(st, step)), path') == Contents(ViewOf(st), path)
  {
    SplitKeepsMemory(st, step);
    if Wins(st, step.id, step.p) {
      WinnerIsOnPath(st, path, step.id, step.p);
      var i :| 0 <= i < |path| && path[i] == step.id;
      SplitPath(st, path, step, i);
      path' := WithSibling(path, i, step.newId);
    } else {
      path' := path;
      SplitView(st, step);
    }
    SplitVisible(st, path, step, path');
  }

  /** The node a winning merge absorbs is the next one on the path, still removed. */
  lemma MergeFindsRemovedNext(st: State, path: seq<NodeId>, step: Step, i: nat)
    requires InvOn(st, path) && step.CasMerge? && Enabled(st, step) && Wins(st, step.id, step.p)
    requires i < |path| && path[i] == step.id
    ensures i + 1 < |path| && path[i + 1] == step.removedId && step.removedId !in st.merged
    ensures ViewOf(st)[step.removedId] == st.mem[step.rp] && ViewOf(st)[step.id] == st.mem[step.p]
    ensures step.removedId in st.table && st.table[step.removedId] == step.rp
  {
    var v := ViewOf(st);
    WinnerIsOnPath(st, path, step.id, step.p);
    assert i < |path| - 1;
    assert Linked(v, path, i);
    assert path[i + 1] in Elems(path);
  }

  lemma MergedGrows(st: State, gone: NodeId)
    requires Memory(st) && Siblings(st) && gone in st.table && st.mem[st.table[gone]].Remove?
    requires gone in st.visible
    ensures Memory(st.(merged := st.merged + {gone})) && Siblings(st.(merged := st.merged + {gone}))
  {
  }

  lemma MergeKeepsMemory(st: State, path: seq<NodeId>, step: Step, i: nat)
    requires InvOn(st, path) && step.CasMerge? && Enabled(st, step) && Wins(st, step.id, step.p)
    requires i + 1 < |path| && path[i] == step.id && path[i + 1] == step.removedId
    requires ViewOf(st)[step.removedId] == st.mem[step.rp] && ViewOf(st)[step.id] == st.mem[step.p]
    requires step.removedId in st.table && st.table[step.removedId] == step.rp
    ensures Memory(Next(st, step)) && Siblings(Next(st, step))
  {
    MergeKeepsTiling(ViewOf(st), path, i);
    var c := Merge(HighOf(st.mem[step.p]).key, step.removedId, st.mem[step.p], st.mem[step.rp].child);
    assert ViewOf(st)[path[i] := c][path[i]] == c && WithoutNext(path, i)[i] == path[i];
    assert WF(c);
    InstallKeepsMemory(st, step.id, step.p, step.q, c);
    InstallKeepsSiblings(st, step.id, step.p, step.q, c);
    assert step.removedId in Elems(path) && step.removedId != step.id;
    MergedGrows(Install(st, step.id, step.p, step.q, c), step.removedId);
  }

  lemma MergeStep(st: State, path: seq<NodeId>, step: Step) returns (path': seq<NodeId>)
    requires InvOn(st, path) && step.CasMerge? && Enabled(st, step)
    ensures InvOn(Next(st, step), path')
    ensures Contents(ViewOf(Next(st, step)), path') == Contents(ViewOf(st), path)
  {
    var st', gone := Next(st, step), step.removedId;
    path' := path;
    if Wins(st, step.id, step.p) {
      WinnerIsOnPath(st, path, step.id, step.p);
      var i :| 0 <= i < |path| && path[i] == step.id;
      MergeFindsRemovedNext(st, path, step, i);
      MergeKeepsMemory(st, path, step, i);
      var v := ViewOf(st);
      var c := Merge(HighOf(st.mem[step.p]).key, gone, st.mem[step.p], st.mem[step.rp].child);
      path' := WithoutNext(path, i);
      MergeKeepsTiling(v, path, i);
      MergeKeepsContents(v, path, i);
      InstallView(st, step.id, step.p, step.q, c);
      assert Elems(path') == Elems(path) - {gone};
      assert ViewOf(st') == v[step.id := c];
    }
  }

  // ----- runs -----

  /** The initial tree: one empty leaf under the fixed first id, the root at id 1. */
  ghost predicate Init(st: State) {
    && st.table == map[FIRST_LEAF_NODE_ID := 0]
    && st.mem == map[0 := Base(NegInf, [], PosInf)]
    && st.snaps == {} && st.merged == {} && st.prepared == map[]
    && st.visible == {FIRST_LEAF_NODE_ID} && st.nextId == 3
  }

  lemma InitEstablishesInv(st: State)
    requires Init(st)
    ensures Inv(st) && Live(st) == {}
  {
    var path := [FIRST_LEAF_NODE_ID];
    assert WF(st.mem[0]);
    assert Tiling(ViewOf(st), path);
    LiveOn(st, path);
  }

  /** Every enabled step keeps the tiling, and the live pairs change only at a winning
      insert or delete, by exactly the pair whose absence or presence the thread saw. */
  lemma StepKeepsInv(st: State, step: Step)
    requires Inv(st) && Enabled(st, step)
    ensures Inv(Next(st, step))
    ensures Live(Next(st, step)) == LiveAfter(st, step, Live(st))
    ensures step.CasInsert? && Wins(st, step.id, step.p) ==> step.item !in Live(st)
    ensures step.CasDelete? && Wins(st, step.id, step.p) ==> step.item in Live(st)
  {
    var path :| InvOn(st, path);
    LiveOn(st, path);
    var path' := path;
    match step {
      case Load(id) => LoadStep(st, path, id);
      case CasInsert(_, _, _, _, _) => InsertStep(st, path, step);
      case CasDelete(_, _, _, _, _) => DeleteStep(st, path, step);
      case CasConsolidate(_, _, _, _) => ConsolidateStep(st, path, step);
      case InstallSibling(_, _, _) => InstallSiblingStep(st, path, step);
      case CasSplit(_, _, _, _) => path' := SplitStep(st, path, step);
      case CasRemove(_, _, _) => RemoveStep(st, path, step);
      case CasMerge(_, _, _, _, _) => path' := MergeStep(st, path, step);
      case RecycleId(id) => RecycleStep(st, path, id);
    }
    LiveOn(Next(st, step), path');
  }

  ghost predicate Run(sts: seq<State>, steps: seq<Step>) {
    && |sts| == |steps| + 1 && Init(sts[0])
    && forall i :: 0 <= i < |steps| ==> Enabled(sts[i], steps[i]) && sts[i + 1] == Next(sts[i], steps[i])
  }

  /** Safety over whole runs: at every point the leaf ranges tile the key space and the
      live pairs are those of the last point, changed only by a winning insert or delete. */
  lemma {:induction false} RunsPreserveContents(sts: seq<State>, steps: seq<Step>, n: nat)
    requires Run(sts, steps) && n < |sts|
    ensures Inv(sts[n])
    ensures n == 0 ==> Live(sts[0]) == {}
    ensures 0 < n ==> Inv(sts[n - 1]) && Live(sts[n]) == LiveAfter(sts[n - 1], steps[n - 1], Live(sts[n - 1]))
  {
    if n == 0 {
      InitEstablishesInv(sts[0]);
    } else {
      RunsPreserveContents(sts, steps, n - 1);
      StepKeepsInv(sts[n - 1], steps[n - 1]);
    }
  }

  /** The published leaves that are not merged away: exactly those of the walk. */
  ghost predicate OnWalk(st: State, id: NodeId) {
    id in st.visible && id !in st.merged && id in ViewOf(st)
  }

  /** In every reachable state each key is covered by exactly one leaf of the walk, and its
      pairs are live exactly there. */
  lemma EveryKeyHasOneLeaf(st: State, k: Key) returns (id: NodeId)
    requires Inv(st)
    ensures OnWalk(st, id) && InRange(k, LowOf(ViewOf(st)[id]), HighOf(ViewOf(st)[id]))
    ensures forall p: KV :: p.key == k ==> (p in Live(st) <==> p in Replay(ViewOf(st)[id]))
    ensures forall o :: OnWalk(st, o) && InRange(k, LowOf(ViewOf(st)[o]), HighOf(ViewOf(st)[o])) ==> o == id
  {
    var path: seq<NodeId> :| InvOn(st, path);
    LiveOn(st, path);
    var i := CoveringIndex(ViewOf(st), path, k);
    id := path[i];
    assert id in Elems(path);
    forall p: KV | p.key == k ensures p in Live(st) <==> p in Replay(ViewOf(st)[id]) {
      PairIsWhereItsKeyIs(ViewOf(st), path, p, id);
    }
    forall o | OnWalk(st, o) && InRange(k, LowOf(ViewOf(st)[o]), HighOf(ViewOf(st)[o])) ensures o == id {
      assert o in Elems(path);
      CoverIsUnique(ViewOf(st), path, k, o, id);
    }
  }

  lemma CoveringIndex(v: View, path: seq<NodeId>, k: Key) returns (i: nat)
    requires Tiling(v, path)
    ensures i < |path| && InRange(k, LowOf(v[path[i]]), HighOf(v[path[i]]))
  {
    i := 0;
    while !Below(k, HighOf(v[path[i]]))
      invariant i < |path| && AtOrAbove(k, LowOf(v[path[i]]))
      decreases |path| - i
    {
      assert i < |path| - 1;
      assert Linked(v, path, i);
      i := i + 1;
    }
  }

  // ----- what a thread gets from its steps -----

  /** A pointer just loaded is a snapshot to build on, and a swap against it succeeds. */
  lemma LoadedPointerWins(st: State, id: NodeId, q: Ptr)
    requires Inv(st) && Enabled(st, Load(id)) && q !in st.mem
    ensures var st1, p := Next(st, Load(id)), st.table[id];
            && Snapshot(st1, id, p, q) && Wins(st1, id, p) && st1.mem[p] == ViewOf(st)[id]
            && Inv(st1) && Live(st1) == Live(st)
  {
    StepKeepsInv(st, Load(id));
    var path :| InvOn(st, path);
    assert st.table[id] in st.mem;
  }

  /** With no other thread in between, inserting an absent pair into the leaf that covers its
      key, unless that leaf is being removed, makes exactly that pair live. */
  lemma UncontendedInsert(st: State, id: NodeId, q: Ptr, item: KV, ip: IndexPair)
    requires Inv(st) && OnWalk(st, id) && !ViewOf(st)[id].Remove? && q !in st.mem
    requires InRange(item.key, LowOf(ViewOf(st)[id]), HighOf(ViewOf(st)[id]))
    requires TrueIndex(BaseFor(ViewOf(st)[id], item.key).items, item, ip) && item !in Live(st)
    ensures Enabled(st, Load(id))
    ensures var st1, step := Next(st, Load(id)), CasInsert(id, st.table[id], q, item, ip);
            && Enabled(st1, step) && Inv(Next(st1, step)) && Live(Next(st1, step)) == Live(st) + {item}
  {
    LoadedPointerWins(st, id, q);
    LeafHoldsItsPairs(st, id, item);
    StepKeepsInv(Next(st, Load(id)), CasInsert(id, st.table[id], q, item, ip));
  }

  /** The same for deleting a pair that is there. */
  lemma UncontendedDelete(st: State, id: NodeId, q: Ptr, item: KV, ip: IndexPair)
    requires Inv(st) && OnWalk(st, id) && !ViewOf(st)[id].Remove? && q !in st.mem
    requires InRange(item.key, LowOf(ViewOf(st)[id]), HighOf(ViewOf(st)[id]))
    requires TrueIndex(BaseFor(ViewOf(st)[id], item.key).items, item, ip) && item in Live(st)
    ensures Enabled(st, Load(id))
    ensures var st1, step := Next(st, Load(id)), CasDelete(id, st.table[id], q, item, ip);
            && Enabled(st1, step) && Inv(Next(st1, step)) && Live(Next(st1, step)) == Live(st) - {item}
  {
    LoadedPointerWins(st, id, q);
    LeafHoldsItsPairs(st, id, item);
    StepKeepsInv(Next(st, Load(id)), CasDelete(id, st.table[id], q, item, ip));
  }

  lemma LeafHoldsItsPairs(st: State, id: NodeId, item: KV)
    requires Inv(st) && OnWalk(st, id) && InRange(item.key, LowOf(ViewOf(st)[id]), HighOf(ViewOf(st)[id]))
    ensures item in Live(st) <==> item in Replay(ViewOf(st)[id])
  {
    var home := EveryKeyHasOneLeaf(st, item.key);
    assert home == id;
  }

  /** A sibling just stored can be published by a split of the base it was cut from. */
  lemma UncontendedSplit(st: State, id: NodeId, p: Ptr, q: Ptr, key: Key, r: Ptr)
    requires Inv(st) && Snapshot(st, id, p, q) && Wins(st, id, p) && Splittable(st.mem[p], key)
    requires r !in st.mem && r != q
    ensures Enabled(st, InstallSibling(p, q, key))
    ensures var st1 := Next(st, InstallSibling(p, q, key));
            Enabled(st1, CasSplit(id, p, r, st.nextId)) && Wins(st1, id, p)
  {
  }

  /** What the winner of a swap leaves behind: its own node under the id, every other node
      untouched, and the effect that the operation is for. */
  ghost predicate Achieved(st: State, step: Step, st': State)
    requires Enabled(st, step) && IsSwap(step)
    requires step.id in ViewOf(st') && (step.CasSplit? ==> step.newId in ViewOf(st'))
  {
    match step
    case CasInsert(id, p, _, item, _) => Replay(ViewOf(st')[id]) == Replay(st.mem[p]) + {item}
    case CasDelete(id, p, _, item, _) => Replay(ViewOf(st')[id]) == Replay(st.mem[p]) - {item}
    case CasConsolidate(id, p, _, _) => ViewOf(st')[id].Base? && Replay(ViewOf(st')[id]) == Replay(st.mem[p])
    case CasSplit(id, p, _, newId) =>
      && OnWalk(st', newId) && newId !in st'.prepared
      && HighOf(ViewOf(st')[id]) == HighKey(st.prepared[newId].key, newId)
      && LowOf(ViewOf(st')[newId]) == LowKey(st.prepared[newId].key)
      && Replay(ViewOf(st')[id]) + Replay(ViewOf(st')[newId]) == Replay(st.mem[p])
      && Replay(ViewOf(st')[id]) !! Replay(ViewOf(st')[newId])
    case CasRemove(id, p, _) => ViewOf(st')[id] == Remove(id, st.mem[p])
    case CasMerge(id, p, _, removedId, rp) =>
      && removedId in st'.merged && !OnWalk(st', removedId) && !ViewOf(st')[id].Remove?
      && HighOf(ViewOf(st')[id]) == HighOf(st.mem[rp])
      && Replay(ViewOf(st')[id]) == Replay(st.mem[p]) + Replay(st.mem[rp])
    case _ => true
  }

  predicate IsSwap(step: Step) {
    !step.Load? && !step.InstallSibling? && !step.RecycleId?
  }

  lemma WinnerAchieves(st: State, step: Step)
    requires Inv(st) && Enabled(st, step) && IsSwap(step) && Wins(st, step.id, step.p)
    ensures var st' := Next(st, step);
            && step.id in ViewOf(st') && st'.table == st.table[step.id := step.q] && st'.snaps == st.snaps
            && (forall o :: o in st.mem ==> o in st'.mem && st'.mem[o] == st.mem[o])
            && (step.CasSplit? ==> step.newId in ViewOf(st')) && Achieved(st, step, st')
  {
    WinnerKeepsOthers(st, step);
    if step.CasSplit? {
      SplitAchieves(st, step);
    } else {
      OthersAchieve(st, step);
    }
  }

  lemma WinnerKeepsOthers(st: State, step: Step)
    requires Enabled(st, step) && IsSwap(step) && Wins(st, step.id, step.p)
    ensures var st' := Next(st, step);
            && st'.table == st.table[step.id := step.q] && st'.snaps == st.snaps
            && (forall o :: o in st.mem ==> o in st'.mem && st'.mem[o] == st.mem[o])
  {
  }

  lemma OthersAchieve(st: State, step: Step)
    requires Inv(st) && Enabled(st, step) && IsSwap(step) && !step.CasSplit? && Wins(st, step.id, step.p)
    ensures step.id in ViewOf(Next(st, step)) && Achieved(st, step, Next(st, step))
  {
  }

  lemma SplitAchieves(st: State, step: Step)
    requires Inv(st) && step.CasSplit? && Enabled(st, step) && Wins(st, step.id, step.p)
    ensures step.id in ViewOf(Next(st, step)) && step.newId in ViewOf(Next(st, step))
    ensures Achieved(st, step, Next(st, step))
  {
    var path :| InvOn(st, path);
    var key := st.prepared[step.newId].key;
    assert HoldsSibling(st, step.newId, st.prepared[step.newId]);
    SplitAtKey(st.mem[step.p], key, step.newId);
  }

  /** A lost swap changes nothing, except that the sibling of a lost split is given up. */
  lemma LoserChangesNothing(st: State, step: Step)
    requires Enabled(st, step) && IsSwap(step) && !Wins(st, step.id, step.p)
    ensures Next(st, step) == if step.CasSplit? then st.(prepared := Next(st, step).prepared) else st
    ensures step.CasSplit? ==> Next(st, step).prepared == st.prepared - {step.newId}
  {
  }

  // ----- high keys, for readers that move from leaf to leaf -----

  /** Every finite high key of a leaf in memory. */
  ghost function Bounds(st: State): set<Key> {
    set p | p in st.mem && HighOf(st.mem[p]).HighKey? :: HighOf(st.mem[p]).key
  }

  ghost function KeysIn(pairs: set<KV>): set<Key> {
    set p | p in pairs :: p.key
  }

  /** Only a winning split creates a high key, and it is the key of a live pair. */
  lemma NewBoundIsLiveKey(st: State, step: Step)
    requires Inv(st) && step.CasSplit? && Enabled(st, step) && Wins(st, step.id, step.p)
    ensures st.prepared[step.newId].key in KeysIn(Live(st))
  {
    var path :| InvOn(st, path);
    LiveOn(st, path);
    WinnerIsOnPath(st, path, step.id, step.p);
    assert HoldsSibling(st, step.newId, st.prepared[step.newId]);
    var c, key := st.mem[step.p], st.prepared[step.newId].key;
    var pair := c.items[LowerBound(c.items, key)];
    assert pair in Replay(c) && pair in Contents(ViewOf(st), path);
  }

  lemma InstallBounds(st: State, id: NodeId, p: Ptr, q: Ptr, c: Leaf, keys: set<Key>)
    requires q !in st.mem
    requires Wins(st, id, p) && HighOf(c).HighKey? ==> HighOf(c).key in Bounds(st) + keys
    ensures Bounds(Install(st, id, p, q, c)) <= Bounds(st) + keys
  {
  }

  lemma SiblingBounds(st: State, p: Ptr, q: Ptr, key: Key)
    requires Enabled(st, InstallSibling(p, q, key))
    ensures Bounds(Next(st, InstallSibling(p, q, key))) <= Bounds(st)
  {
    assert HighOf(SiblingAt(st.mem[p], key)) == HighOf(st.mem[p]);
  }

  lemma SplitBounds(st: State, step: Step, keys: set<Key>)
    requires step.CasSplit? && Enabled(st, step)
    requires Wins(st, step.id, step.p) ==> st.prepared[step.newId].key in keys
    ensures Bounds(Next(st, step)) <= Bounds(st) + keys
  {
    InstallBounds(st, step.id, step.p, step.q,
                  SplitAt(st.mem[step.p], st.prepared[step.newId].key, step.newId), keys);
  }

  lemma MergeBounds(st: State, step: Step)
    requires step.CasMerge? && Enabled(st, step)
    ensures Bounds(Next(st, step)) <= Bounds(st)
  {
    var left, r := st.mem[step.p], st.mem[step.rp];
    assert HighOf(r) == HighOf(r.child);
    InstallBounds(st, step.id, step.p, step.q, Merge(HighOf(left).key, step.removedId, left, r.child), {});
  }

  lemma SameHighBounds(st: State, id: NodeId, p: Ptr, q: Ptr, c: Leaf)
    requires Snapshot(st, id, p, q) && HighOf(c) == HighOf(st.mem[p])
    ensures Bounds(Install(st, id, p, q, c)) <= Bounds(st)
  {
    InstallBounds(st, id, p, q, c, {});
  }

  lemma BoundsComeFromKeys(st: State, step: Step)
    requires Inv(st) && Enabled(st, step)
    ensures Bounds(Next(st, step)) <= Bounds(st) + KeysIn(Live(st))
  {
    match step {
      case Load(_) =>
      case CasInsert(id, p, q, item, ip) => SameHighBounds(st, id, p, q, Insert(item, ip, st.mem[p]));
      case CasDelete(id, p, q, item, ip) => SameHighBounds(st, id, p, q, Delete(item, ip, st.mem[p]));
      case CasConsolidate(id, p, q, items) =>
        SameHighBounds(st, id, p, q, Base(LowOf(st.mem[p]), items, HighOf(st.mem[p])));
      case InstallSibling(p, q, key) => SiblingBounds(st, p, q, key);
      case CasSplit(id, p, _, _) =>
        if Wins(st, id, p) {
          NewBoundIsLiveKey(st, step);
        }
        SplitBounds(st, step, KeysIn(Live(st)));
      case CasRemove(id, p, q) => SameHighBounds(st, id, p, q, Remove(id, st.mem[p]));
      case CasMerge(_, _, _, _, _) => MergeBounds(st, step);
      case RecycleId(_) =>
    }
  }
}
