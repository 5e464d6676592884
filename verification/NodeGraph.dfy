/** The physical nodes of the tree, on leaf and inner level alike, and every step that
    installs, retires or frees one.

    Nodes are immutable, so a node is a tree of the nodes it points to, labelled with
    addresses. A compare-and-swap compares addresses; what a step demands is only what its
    thread can see in snapshots of any age, never a fact about the present table. */
module NodeGraph {
  import opened Keys

  type Ptr = nat

  /** Level, range, next id (in the high key) and, on inner levels, the separators of a
      logical node; the placeholder of a leftmost node's low key is not among them. */
  datatype Meta = Meta(level: nat, low: Low, high: High, seps: set<Sep>)

  datatype Op = Data | IndexInsert(item: Sep) | IndexDelete(item: Sep) | SplitAt(key: Key, sibling: NodeId)

  datatype Tree =
    | Base(p: Ptr, meta: Meta)
    | Delta(p: Ptr, op: Op, child: Tree)
    | Merge(p: Ptr, key: Key, removedId: NodeId, child: Tree, right: Tree)
    | Remove(p: Ptr, id: NodeId, child: Tree)
    | Abort(p: Ptr, child: Tree)

  const NOTHING := Meta(0, NegInf, PosInf, {})

  ghost function LeftPart(m: Meta, key: Key, sibling: NodeId): Meta {
    m.(high := HighKey(key, sibling), seps := set e | e in m.seps && e.key < key)
  }

  ghost function RightPart(m: Meta, key: Key): Meta {
    m.(low := LowKey(key), seps := set e | e in m.seps && key <= e.key)
  }

  ghost function Joined(l: Meta, r: Meta): Meta {
    l.(high := r.high, seps := l.seps + r.seps)
  }

  ghost function After(m: Meta, op: Op): Meta {
    match op
    case Data => m
    case IndexInsert(item) => m.(seps := m.seps + {item})
    case IndexDelete(item) => m.(seps := m.seps - {item})
    case SplitAt(key, sibling) => LeftPart(m, key, sibling)
  }

  /** What the chain means to its level and to the level above. */
  ghost function MetaOf(t: Tree): Meta {
    match t
    case Base(_, meta) => meta
    case Delta(_, op, child) => After(MetaOf(child), op)
    case Merge(_, _, _, child, right) => Joined(MetaOf(child), MetaOf(right))
    case _ => MetaOf(t.child)
  }

  /** What FreeEpochDeltaChain frees: it does not look below remove and abort records. */
  ghost function Owned(t: Tree): set<Ptr> {
    match t
    case Base(p, _) => {p}
    case Delta(p, _, child) => {p} + Owned(child)
    case Merge(p, _, _, child, right) => {p} + Owned(child) + Owned(right)
    case Remove(p, _, _) => {p}
    case Abort(p, _) => {p}
  }

  /** What a mapping table entry stands for: remove and abort records with what they cover. */
  ghost function Whole(t: Tree): set<Ptr> {
    if t.Remove? || t.Abort? then {t.p} + Owned(t.child) else Owned(t)
  }

  ghost predicate Clean(t: Tree) {
    !t.Remove? && !t.Abort?
  }

  /** No node occurs twice; remove records sit on base nodes, abort records on chains. */
  ghost predicate Sound(t: Tree) {
    match t
    case Base(_, _) => true
    case Delta(p, _, child) => Sound(child) && Clean(child) && p !in Owned(child)
    case Merge(p, _, _, child, right) =>
      && Sound(child) && Sound(right) && Clean(child) && Clean(right)
      && Owned(child) !! Owned(right) && p !in Owned(child) && p !in Owned(right)
    case Remove(p, _, child) => child.Base? && p != child.p
    case Abort(p, child) => Sound(child) && Clean(child) && p !in Owned(child)
  }

  lemma ConcatDistinct(s: seq<Ptr>, t: seq<Ptr>)
    requires Distinct(s) && Distinct(t) && Elems(s) !! Elems(t)
    ensures Distinct(s + t) && Elems(s + t) == Elems(s) + Elems(t)
  {
    var r := s + t;
    forall i, j | 0 <= i < j < |r| ensures r[i] != r[j] {
      if i < |s| && j >= |s| {
        assert s[i] in Elems(s) && t[j - |s|] in Elems(t);
      }
    }
  }

  /** FreeEpochDeltaChain: every owned node exactly once, and the ids of remove records. */
  method FreeEpochDeltaChain(t: Tree) returns (freed: seq<Ptr>, ids: seq<NodeId>)
    requires Sound(t)
    ensures Distinct(freed) && Elems(freed) == Owned(t)
    ensures ids == if t.Remove? then [t.id] else []
    decreases t
  {
    freed := [];
    var next := t;
    while next.Delta?
      invariant Sound(next) && (next == t || (next < t && Clean(next) && t.Delta?))
      invariant Distinct(freed) && Elems(freed) !! Owned(next)
      invariant Elems(freed) + Owned(next) == Owned(t)
      decreases next
    {
      ConcatDistinct(freed, [next.p]);
      freed := freed + [next.p];
      next := next.child;
    }
    ids := [];
    if next.Merge? {
      var left, none1 := FreeEpochDeltaChain(next.child);
      var right, none2 := FreeEpochDeltaChain(next.right);
      ConcatDistinct(left, right);
      ConcatDistinct(left + right, [next.p]);
      ConcatDistinct(freed, left + right + [next.p]);
      freed := freed + (left + right + [next.p]);
    } else {
      if next.Remove? {
        ids := [next.id];
      }
      ConcatDistinct(freed, [next.p]);
      freed := freed + [next.p];
    }
  }

  // ----- the machine -----

  /** Pending: a split sibling or new root not published yet. Abandoned: its publication
      failed. Merged: a merge record took the node over. Retired: the parent's separator is
      deleted and the remove record is garbage. Nobody reads the phase of another node. */
  datatype Phase = Pending | Abandoned | Live | Removed | Merged | Retired

  /** What never changes about an id. */
  datatype Place = Place(level: nat, low: Low)

  /** What the creator of an unpublished node remembers. */
  datatype Prepared = Sibling(from: Ptr, key: Key) | NewRoot(oldRoot: NodeId, sep: Sep)

  /** A thread with the chain pp of parent in hand loaded the chain lp of child. */
  datatype PathLoad = PathLoad(parent: NodeId, pp: Ptr, child: NodeId, lp: Ptr)

  /** Retiring a root takes a new ticket; freeing it gives the ticket up. indexed holds the
      ids that were ever inserted into a parent. */
  datatype State = State(
    mem: map<Ptr, Tree>,
    table: map<NodeId, Ptr>,
    root: NodeId,
    phase: map<NodeId, Phase>,
    places: map<NodeId, Place>,
    prepared: map<NodeId, Prepared>,
    loads: set<PathLoad>,
    indexed: set<NodeId>,
    garbage: map<nat, Ptr>,
    tickets: nat,
    freed: set<Ptr>)

  datatype Step =
    | Load(parent: NodeId, pp: Ptr, child: NodeId)
    | CasData(id: NodeId, p: Ptr, q: Ptr)
    | CasConsolidate(id: NodeId, p: Ptr, q: Ptr)
    | RetirePrivate(q: Ptr)
    | PrepareSibling(newId: NodeId, q: Ptr, p: Ptr, key: Key)
    | CasSplit(id: NodeId, p: Ptr, q: Ptr, newId: NodeId)
    | PrepareRoot(newId: NodeId, q: Ptr, load: PathLoad)
    | CasRoot(newId: NodeId)
    | Abandon(newId: NodeId, q: Ptr)
    | CasRemove(id: NodeId, p: Ptr, q: Ptr)
    | CasMerge(id: NodeId, p: Ptr, q: Ptr, rp: Ptr)
    | CasIndexInsert(load: PathLoad, q: Ptr)
    | CasIndexDelete(parent: NodeId, p: Ptr, q: Ptr, mp: Ptr)
    | CasAbort(id: NodeId, p: Ptr, q: Ptr)
    | RemoveAbort(id: NodeId)
    | Free(ticket: nat)

  predicate Wins(st: State, id: NodeId, p: Ptr) {
    id in st.table && st.table[id] == p
  }

  ghost predicate Visible(st: State, id: NodeId) {
    id in st.phase && !st.phase[id].Pending? && !st.phase[id].Abandoned?
  }

  /** p is a snapshot, arbitrarily old, of a node that records may be posted on; q is new. */
  ghost predicate Postable(st: State, id: NodeId, p: Ptr, q: Ptr) {
    Visible(st, id) && p in st.mem && Clean(st.mem[p]) && q !in st.mem
  }

  ghost predicate HasPhase(st: State, id: NodeId, phase: Phase) {
    id in st.phase && st.phase[id] == phase
  }

  ghost predicate Resolves(st: State, id: NodeId) {
    id in st.table && st.table[id] in st.mem
  }

  /** Snapshots skip an abort record, so that no swap can succeed on it. */
  ghost function Skipped(t: Tree): Ptr {
    if t.Abort? then t.child.p else t.p
  }

  ghost predicate SplitOnTop(st: State, p: Ptr) {
    p in st.mem && st.mem[p].Delta? && st.mem[p].op.SplitAt?
  }

  /** The separator that the split record in snapshot p asks for. */
  ghost function SplitSep(st: State, p: Ptr): Sep
    requires SplitOnTop(st, p)
  {
    Sep(st.mem[p].op.key, st.mem[p].op.sibling)
  }

  /** The parent snapshot covers the key, one level up, and has no separator with it. */
  ghost predicate MayIndex(st: State, load: PathLoad)
  {
    && SplitOnTop(st, load.lp) && load.pp in st.mem
    && var m, sep := MetaOf(st.mem[load.pp]), SplitSep(st, load.lp);
       && m.level == MetaOf(st.mem[load.lp]).level + 1
       && InRange(sep.key, m.low, m.high)
       && forall e :: e in m.seps ==> e.key != sep.key
  }

  ghost predicate Enabled(st: State, step: Step) {
    match step
    case Load(parent, pp, child) => Visible(st, parent) && pp in st.mem && Visible(st, child) && Resolves(st, child)
    case CasData(id, p, q) => Postable(st, id, p, q)
    case CasConsolidate(id, p, q) => Postable(st, id, p, q)
    case RetirePrivate(q) => q !in st.mem
    case PrepareSibling(newId, q, p, key) =>
      && newId !in st.phase && q !in st.mem && p in st.mem && st.mem[p].Base?
      && AboveLow(key, st.mem[p].meta.low) && Below(key, st.mem[p].meta.high)
    case CasSplit(id, p, q, newId) =>
      && Postable(st, id, p, q) && st.mem[p].Base? && HasPhase(st, newId, Pending)
      && newId in st.prepared && st.prepared[newId].Sibling? && st.prepared[newId].from == p
    case PrepareRoot(newId, q, load) =>
      && newId !in st.phase && q !in st.mem && load in st.loads && SplitOnTop(st, load.lp)
    case CasRoot(newId) => HasPhase(st, newId, Pending) && newId in st.prepared && st.prepared[newId].NewRoot?
    case Abandon(newId, q) => HasPhase(st, newId, Pending) && q !in st.mem && Resolves(st, newId)
    case CasRemove(id, p, q) => Postable(st, id, p, q) && st.mem[p].Base?
    case CasMerge(id, p, q, rp) =>
      && Postable(st, id, p, q) && rp in st.mem && st.mem[rp].Remove?
      && MetaOf(st.mem[p]).high.HighKey? && MetaOf(st.mem[p]).high.next == st.mem[rp].id
    case CasIndexInsert(load, q) =>
      load in st.loads && Postable(st, load.parent, load.pp, q) && MayIndex(st, load)
    case CasIndexDelete(parent, p, q, mp) =>
      && Postable(st, parent, p, q) && mp in st.mem && st.mem[mp].Merge?
      && Sep(st.mem[mp].key, st.mem[mp].removedId) in MetaOf(st.mem[p]).seps
    case CasAbort(id, p, q) => Postable(st, id, p, q)
    case RemoveAbort(id) => Resolves(st, id) && st.mem[st.table[id]].Abort?
    case Free(ticket) => ticket in st.garbage && st.garbage[ticket] in st.mem
  }

  ghost function Retire(st: State, p: Ptr): State {
    st.(garbage := st.garbage[st.tickets := p], tickets := st.tickets + 1)
  }

  ghost function Store(st: State, t: Tree): State {
    st.(mem := st.mem[t.p := t])
  }

  /** Stores the tree under its label and installs it under id. */
  ghost function Put(st: State, id: NodeId, t: Tree): State {
    st.(mem := st.mem[t.p := t], table := st.table[id := t.p])
  }

  ghost function SetPhase(st: State, id: NodeId, ph: Phase): State {
    st.(phase := st.phase[id := ph])
  }

  /** A record whose compare-and-swap failed is destroyed at once by its creator. Nobody
      else saw it, so what it pointed to no longer matters. */
  ghost function Discard(st: State, q: Ptr): State {
    st.(mem := st.mem[q := Base(q, NOTHING)], freed := st.freed + {q})
  }

  ghost function Install(st: State, id: NodeId, p: Ptr, t: Tree): State {
    if Wins(st, id, p) then Put(st, id, t) else Discard(st, t.p)
  }

  ghost function SetUp(st: State, newId: NodeId, t: Tree, prepared: Prepared): State {
    Put(SetPhase(st, newId, Pending), newId, t)
    .(places := st.places[newId := Place(MetaOf(t).level, MetaOf(t).low)], prepared := st.prepared[newId := prepared])
  }

  ghost function RootMeta(level: nat, sep: Sep): Meta {
    Meta(level + 1, NegInf, PosInf, {sep})
  }

  /** The parent's winning swap, then GetNode(removedId) goes to the garbage. */
  ghost function Unindexed(st: State, parent: NodeId, t: Tree, removedId: NodeId): State {
    var st' := SetPhase(Put(st, parent, t), removedId, Retired);
    if removedId in st.table then Retire(st', st.table[removedId]) else st'
  }

  ghost function Next(st: State, step: Step): State
    requires Enabled(st, step)
  {
    match step
    case Load(parent, pp, child) =>
      st.(loads := st.loads + {PathLoad(parent, pp, child, Skipped(st.mem[st.table[child]]))})
    case CasData(id, p, q) => Install(st, id, p, Delta(q, Data, st.mem[p]))
    case CasConsolidate(id, p, q) =>
      var t := Base(q, MetaOf(st.mem[p]));
      if Wins(st, id, p) then Retire(Put(st, id, t), p) else Retire(Store(st, t), q)
    case RetirePrivate(q) => Retire(Store(st, Base(q, NOTHING)), q)
    case PrepareSibling(newId, q, p, key) =>
      SetUp(st, newId, Base(q, RightPart(st.mem[p].meta, key)), Sibling(p, key))
    case CasSplit(id, p, q, newId) =>
      var st' := Install(st, id, p, Delta(q, SplitAt(st.prepared[newId].key, newId), st.mem[p]));
      if Wins(st, id, p) then SetPhase(st', newId, Live) else st'
    case PrepareRoot(newId, q, load) =>
      var sep := SplitSep(st, load.lp);
      SetUp(st, newId, Base(q, RootMeta(MetaOf(st.mem[load.lp]).level, sep)), NewRoot(load.child, sep))
    case CasRoot(newId) =>
      if st.root == st.prepared[newId].oldRoot
      then SetPhase(st, newId, Live).(root := newId, indexed := st.indexed + {st.prepared[newId].sep.id})
      else st
    case Abandon(newId, q) =>
      var sibling := st.table[newId];
      SetPhase(Retire(Retire(Store(st, Remove(q, newId, st.mem[sibling])), q), sibling), newId, Abandoned)
    case CasRemove(id, p, q) =>
      var st' := Install(st, id, p, Remove(q, id, st.mem[p]));
      if Wins(st, id, p) then SetPhase(st', id, Removed) else st'
    case CasMerge(id, p, q, rp) =>
      var r := st.mem[rp];
      var st' := Install(st, id, p, Merge(q, MetaOf(st.mem[p]).high.key, r.id, st.mem[p], r.child));
      if Wins(st, id, p) then SetPhase(st', r.id, Merged) else st'
    case CasIndexInsert(load, q) =>
      var sep := SplitSep(st, load.lp);
      var st' := Install(st, load.parent, load.pp, Delta(q, IndexInsert(sep), st.mem[load.pp]));
      if Wins(st, load.parent, load.pp) then st'.(indexed := st.indexed + {sep.id}) else st'
    case CasIndexDelete(parent, p, q, mp) =>
      var m := st.mem[mp];
      if Wins(st, parent, p)
      then Unindexed(st, parent, Delta(q, IndexDelete(Sep(m.key, m.removedId)), st.mem[p]), m.removedId)
      else Discard(st, q)
    case CasAbort(id, p, q) => Install(st, id, p, Abort(q, st.mem[p]))
    case RemoveAbort(id) =>
      var a := st.mem[st.table[id]];
      Retire(st.(table := st.table[id := a.child.p]), a.p)
    case Free(ticket) =>
      var t := st.mem[st.garbage[ticket]];
      st.(garbage := st.garbage - {ticket}, freed := st.freed + Owned(t),
          table := if t.Remove? then st.table - {t.id} else st.table)
  }

  // ----- structure -----

  /** The tree and everything below it is in memory under its label. */
  ghost predicate Stored(mem: map<Ptr, Tree>, t: Tree) {
    t.p in mem && mem[t.p] == t &&
    match t
    case Base(_, _) => true
    case Merge(_, _, _, child, right) => Stored(mem, child) && Stored(mem, right)
    case _ => Stored(mem, t.child)
  }

  ghost predicate ChildrenStored(mem: map<Ptr, Tree>, t: Tree) {
    match t
    case Base(_, _) => true
    case Merge(_, _, _, child, right) => Stored(mem, child) && Stored(mem, right)
    case _ => Stored(mem, t.child)
  }

  ghost predicate Memory(mem: map<Ptr, Tree>) {
    forall p :: p in mem ==> Stored(mem, mem[p]) && Sound(mem[p]) && mem[p].p == p
  }

  /** What a table entry may hold in each phase of its id. */
  ghost predicate EntryOk(ph: Phase, id: NodeId, t: Tree) {
    match ph
    case Pending => t.Base?
    case Abandoned => t.Base?
    case Live => !t.Remove?
    case _ => t.Remove? && t.id == id
  }

  ghost predicate Entries(st: State) {
    && (forall id :: id in st.table ==>
          && id in st.phase && st.table[id] in st.mem && EntryOk(st.phase[id], id, st.mem[st.table[id]]))
    && (forall id :: id in st.phase && !st.phase[id].Abandoned? && !st.phase[id].Retired? ==> id in st.table)
  }

  /** Retired remove records belong to ids that nobody reaches any more; until such a record
      is freed its id still leads to it. */
  ghost predicate Tickets(st: State) {
    && (forall k :: k in st.garbage ==>
         && k < st.tickets && st.garbage[k] in st.mem
         && (st.mem[st.garbage[k]].Remove? ==>
               var id := st.mem[st.garbage[k]].id; HasPhase(st, id, Retired) || HasPhase(st, id, Abandoned)))
    && (forall id :: id in st.table && HasPhase(st, id, Retired) ==> Waiting(st, st.table[id]))
  }

  ghost predicate Waiting(st: State, p: Ptr) {
    exists k :: k in st.garbage && st.garbage[k] == p
  }

  ghost predicate Shape(st: State) {
    Memory(st.mem) && Entries(st) && Tickets(st)
  }

  lemma StoredGrows(mem: map<Ptr, Tree>, more: map<Ptr, Tree>, t: Tree)
    requires Stored(mem, t) && mem.Keys <= more.Keys && forall p :: p in mem ==> more[p] == mem[p]
    ensures Stored(more, t)
  {
  }

  lemma StoredOwned(mem: map<Ptr, Tree>, t: Tree)
    requires Stored(mem, t)
    ensures Owned(t) <= Whole(t) <= mem.Keys
  {
  }

  lemma StoreKeepsMemory(mem: map<Ptr, Tree>, t: Tree)
    requires Memory(mem) && t.p !in mem && ChildrenStored(mem, t) && Sound(t)
    ensures Memory(mem[t.p := t])
  {
    var more := mem[t.p := t];
    forall p | p in mem ensures Stored(more, mem[p]) {
      StoredGrows(mem, more, mem[p]);
    }
    match t
    case Base(_, _) =>
    case Merge(_, _, _, child, right) => StoredGrows(mem, more, child); StoredGrows(mem, more, right);
    case _ => StoredGrows(mem, more, t.child);
  }

  /** A chain that a winning compare-and-swap finds is the entry of a live id. */
  lemma WinnerIsLive(st: State, id: NodeId, p: Ptr, q: Ptr)
    requires Shape(st) && Postable(st, id, p, q) && Wins(st, id, p)
    ensures HasPhase(st, id, Live) && Stored(st.mem, st.mem[p]) && Sound(st.mem[p]) && q !in Owned(st.mem[p])
  {
    StoredOwned(st.mem, st.mem[p]);
  }
}
