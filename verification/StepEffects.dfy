/** What a thread gets from a step of the tree: snapshots it can build on, and the effect a
    winning swap is for, stated on the meaning of the entries before and after. */
module StepEffects {
  import opened Keys
  import opened NodeGraph

  ghost function EntryMeta(st: State, id: NodeId): Meta
    requires Resolves(st, id)
  {
    MetaOf(st.mem[st.table[id]])
  }

  /** A chain just loaded can be posted on at once and a swap against it wins, unless a
      remove record or an abort record is on top. */
  lemma LoadedChainWins(st: State, parent: NodeId, pp: Ptr, child: NodeId, q: Ptr)
    requires Shape(st) && Enabled(st, Load(parent, pp, child)) && q !in st.mem
    requires HasPhase(st, child, Live) && !st.mem[st.table[child]].Abort?
    ensures var st', lp := Next(st, Load(parent, pp, child)), st.table[child];
            && PathLoad(parent, pp, child, lp) in st'.loads
            && Postable(st', child, lp, q) && Wins(st', child, lp)
  {
    assert EntryOk(st.phase[child], child, st.mem[st.table[child]]);
  }

  /** While an abort record is on top, what a thread loads is the chain below, against which
      no swap can win. */
  lemma AbortBlocks(st: State, parent: NodeId, pp: Ptr, child: NodeId)
    requires Shape(st) && Enabled(st, Load(parent, pp, child)) && st.mem[st.table[child]].Abort?
    ensures var st', lp := Next(st, Load(parent, pp, child)), st.mem[st.table[child]].child.p;
            && PathLoad(parent, pp, child, lp) in st'.loads && lp in st'.mem && !Wins(st', child, lp)
            && MetaOf(st'.mem[lp]) == EntryMeta(st, child)
  {
    var t := st.mem[st.table[child]];
    assert Stored(st.mem, t) && Sound(t);
    assert Stored(st.mem, t.child) && t.child.p in Owned(t.child);
  }

  /** A thread that finds a split record under a current parent chain without its separator
      can insert the separator there, and wins. */
  lemma SplitCanBeIndexed(st: State, parent: NodeId, pp: Ptr, child: NodeId, q: Ptr)
    requires Shape(st) && Enabled(st, Load(parent, pp, child)) && q !in st.mem
    requires Wins(st, parent, pp) && Clean(st.mem[pp]) && !st.mem[st.table[child]].Abort?
    requires MayIndex(st, PathLoad(parent, pp, child, st.table[child]))
    ensures var st', load := Next(st, Load(parent, pp, child)), PathLoad(parent, pp, child, st.table[child]);
            Enabled(st', CasIndexInsert(load, q)) && Wins(st', parent, pp)
  {
    assert Stored(st.mem, st.mem[st.table[child]]);
  }

  /** A prepared sibling has the upper part of the base it was cut from, under an id that no
      thread can reach, and a split on that base can publish it. */
  lemma SiblingIsPrepared(st: State, id: NodeId, newId: NodeId, q: Ptr, p: Ptr, key: Key, r: Ptr)
    requires Shape(st) && Enabled(st, PrepareSibling(newId, q, p, key)) && id != newId
    requires Postable(st, id, p, r) && r != q
    ensures var st', w := Next(st, PrepareSibling(newId, q, p, key)), MetaOf(st.mem[p]);
            && Resolves(st', newId) && !Visible(st', newId) && Enabled(st', CasSplit(id, p, r, newId))
            && (Wins(st, id, p) ==> Wins(st', id, p))
    ensures var st', w := Next(st, PrepareSibling(newId, q, p, key)), MetaOf(st.mem[p]);
            var m := EntryMeta(st', newId);
            && m.low == LowKey(key) && m.high == w.high && m.level == w.level
            && (forall e :: e in m.seps <==> e in w.seps && key <= e.key)
  {
    var st' := Next(st, PrepareSibling(newId, q, p, key));
    assert st'.mem[p] == st.mem[p];
  }

  /** A prepared root covers everything and has one separator, that of the split of the old
      root; it can be published from then on. */
  lemma RootIsPrepared(st: State, newId: NodeId, q: Ptr, load: PathLoad)
    requires Shape(st) && Enabled(st, PrepareRoot(newId, q, load))
    ensures var st' := Next(st, PrepareRoot(newId, q, load));
            && Resolves(st', newId) && !Visible(st', newId) && Enabled(st', CasRoot(newId))
            && EntryMeta(st', newId) == Meta(MetaOf(st.mem[load.lp]).level + 1, NegInf, PosInf, {SplitSep(st, load.lp)})
            && st'.root == st.root
  {
  }

  predicate IsSwap(step: Step) {
    || step.CasData? || step.CasConsolidate? || step.CasSplit? || step.CasRemove? || step.CasMerge?
    || step.CasIndexInsert? || step.CasIndexDelete? || step.CasAbort?
  }

  /** The entry swapped, the snapshot it is compared with and the new node. */
  function Target(step: Step): (NodeId, Ptr, Ptr)
    requires IsSwap(step)
  {
    match step
    case CasIndexInsert(load, q) => (load.parent, load.pp, q)
    case CasIndexDelete(parent, p, q, _) => (parent, p, q)
    case _ => (step.id, step.p, step.q)
  }

  ghost predicate OnlyEntry(st: State, st': State, id: NodeId, q: Ptr) {
    && st'.table == st.table[id := q]
    && forall p :: p in st.mem ==> p in st'.mem && st'.mem[p] == st.mem[p]
  }

  /** After a winning swap: the meaning m of the entry swapped, compared with its meaning w
      before, and what else the operation leaves behind. */
  ghost predicate Achieved(st: State, step: Step, st': State)
    requires Enabled(st, step) && IsSwap(step) && Target(step).1 in st.mem && Resolves(st', Target(step).0)
  {
    var w, m, top := MetaOf(st.mem[Target(step).1]), EntryMeta(st', Target(step).0), st'.mem[st'.table[Target(step).0]];
    match step
    case CasData(_, _, _) => m == w
    case CasConsolidate(_, p, _) => m == w && top.Base? && Waiting(st', p)
    case CasSplit(_, _, _, newId) =>
      && m.low == w.low && m.high == HighKey(st.prepared[newId].key, newId) && m.level == w.level
      && (forall e :: e in m.seps <==> e in w.seps && e.key < st.prepared[newId].key)
      && HasPhase(st', newId, Live) && Resolves(st', newId)
      && Resolves(st, newId) && st'.table[newId] == st.table[newId] && EntryMeta(st', newId) == EntryMeta(st, newId)
    case CasRemove(id, p, _) => m == w && top.Remove? && top.id == id && top.child == st.mem[p] && HasPhase(st', id, Removed)
    case CasMerge(_, _, _, rp) =>
      && m.low == w.low && m.high == MetaOf(st.mem[rp]).high && m.level == w.level
      && m.seps == w.seps + MetaOf(st.mem[rp]).seps && HasPhase(st', st.mem[rp].id, Merged)
    case CasIndexInsert(load, _) =>
      m == w.(seps := w.seps + {SplitSep(st, load.lp)}) && SplitSep(st, load.lp).id in st'.indexed
    case CasIndexDelete(_, _, _, mp) =>
      var gone := Sep(st.mem[mp].key, st.mem[mp].removedId);
      && m == w.(seps := w.seps - {gone}) && HasPhase(st', gone.id, Retired)
      && (gone.id in st.table ==> Waiting(st', st.table[gone.id]))
    case CasAbort(_, p, _) => m == w && top.Abort? && top.child == st.mem[p]
    case _ => true
  }

  /** The winner's new node is the entry, no other entry or node has changed, and the swap
      has had its effect. */
  ghost predicate WinnerDone(st: State, step: Step)
    requires Enabled(st, step) && IsSwap(step)
  {
    var st', (id, p, q) := Next(st, step), Target(step);
    p in st.mem && OnlyEntry(st, st', id, q) && Resolves(st', id) && Achieved(st, step, st')
  }

  lemma RetiredWaits(st: State, p: Ptr)
    ensures Waiting(Retire(st, p), p)
  {
    assert Retire(st, p).garbage[st.tickets] == p;
  }

  ghost predicate ChangedOne(st: State, step: Step)
    requires Enabled(st, step) && IsSwap(step)
  {
    var st', (id, p, q) := Next(st, step), Target(step);
    p in st.mem && OnlyEntry(st, st', id, q) && Resolves(st', id)
  }

  lemma RecordChangesOneEntry(st: State, step: Step)
    requires Enabled(st, step) && (step.CasData? || step.CasSplit? || step.CasRemove? || step.CasAbort?)
    requires Wins(st, step.id, step.p)
    ensures ChangedOne(st, step)
  {
  }

  lemma MergeChangesOneEntry(st: State, step: Step)
    requires Enabled(st, step) && (step.CasMerge? || step.CasConsolidate?) && Wins(st, step.id, step.p)
    ensures ChangedOne(st, step)
  {
  }

  lemma IndexChangesOneEntry(st: State, step: Step)
    requires Enabled(st, step) && (step.CasIndexInsert? || step.CasIndexDelete?)
    requires Wins(st, Target(step).0, Target(step).1)
    ensures ChangedOne(st, step)
  {
  }

  lemma SplitAchieves(st: State, step: Step)
    requires Shape(st) && Enabled(st, step) && step.CasSplit? && Wins(st, step.id, step.p)
    ensures WinnerDone(st, step)
  {
    RecordChangesOneEntry(st, step);
    WinnerIsLive(st, step.id, step.p, step.q);
    assert Resolves(st, step.newId);
  }

  lemma MergeAchieves(st: State, step: Step)
    requires Shape(st) && Enabled(st, step) && step.CasMerge? && Wins(st, step.id, step.p)
    ensures WinnerDone(st, step)
  {
    MergeChangesOneEntry(st, step);
  }

  lemma IndexInsertAchieves(st: State, step: Step)
    requires Shape(st) && Enabled(st, step) && step.CasIndexInsert? && Wins(st, step.load.parent, step.load.pp)
    ensures WinnerDone(st, step)
  {
    IndexChangesOneEntry(st, step);
  }

  lemma IndexDeleteAchieves(st: State, step: Step)
    requires Shape(st) && Enabled(st, step) && step.CasIndexDelete? && Wins(st, step.parent, step.p)
    ensures WinnerDone(st, step)
  {
    IndexChangesOneEntry(st, step);
    var m := st.mem[step.mp];
    UnindexedWaits(st, step.parent, Delta(step.q, IndexDelete(Sep(m.key, m.removedId)), st.mem[step.p]), m.removedId);
  }

  lemma UnindexedWaits(st: State, parent: NodeId, t: Tree, removedId: NodeId)
    ensures var st' := Unindexed(st, parent, t, removedId);
            HasPhase(st', removedId, Retired) && (removedId in st.table ==> Waiting(st', st.table[removedId]))
  {
    if removedId in st.table {
      RetiredWaits(SetPhase(Put(st, parent, t), removedId, Retired), st.table[removedId]);
    }
  }

  lemma ConsolidateAchieves(st: State, step: Step)
    requires Shape(st) && Enabled(st, step) && step.CasConsolidate? && Wins(st, step.id, step.p)
    ensures WinnerDone(st, step)
  {
    MergeChangesOneEntry(st, step);
    RetiredWaits(Put(st, step.id, Base(step.q, MetaOf(st.mem[step.p]))), step.p);
  }

  lemma RecordAchieves(st: State, step: Step)
    requires Shape(st) && Enabled(st, step) && (step.CasData? || step.CasRemove? || step.CasAbort?) && Wins(st, step.id, step.p)
    ensures WinnerDone(st, step)
  {
    RecordChangesOneEntry(st, step);
  }

  lemma WinnerAchieves(st: State, step: Step)
    requires Shape(st) && Enabled(st, step) && IsSwap(step) && Wins(st, Target(step).0, Target(step).1)
    ensures WinnerDone(st, step)
  {
    if step.CasSplit? {
      SplitAchieves(st, step);
    } else if step.CasMerge? {
      MergeAchieves(st, step);
    } else if step.CasIndexInsert? {
      IndexInsertAchieves(st, step);
    } else if step.CasIndexDelete? {
      IndexDeleteAchieves(st, step);
    } else if step.CasConsolidate? {
      ConsolidateAchieves(st, step);
    } else {
      RecordAchieves(st, step);
    }
  }

  /** A lost swap leaves every entry as it is. Its record is freed at once, but a lost
      consolidation, seen by other operations of its thread, goes to the garbage. */
  lemma LoserChangesNoEntry(st: State, step: Step)
    requires Enabled(st, step) && IsSwap(step) && !Wins(st, Target(step).0, Target(step).1)
    ensures var st', q := Next(st, step), Target(step).2;
            && st'.table == st.table && st'.phase == st.phase && st'.root == st.root && st'.indexed == st.indexed
            && (forall p :: p in st.mem ==> p in st'.mem && st'.mem[p] == st.mem[p])
            && if step.CasConsolidate? then Waiting(st', q) && st'.freed == st.freed
               else st'.garbage == st.garbage && st'.freed == st.freed + {q}
  {
    if step.CasConsolidate? {
      RetiredWaits(Store(st, Base(step.q, MetaOf(st.mem[step.p]))), step.q);
    }
  }

  /** A winning root swap makes the prepared node, with the old root's split separator, the
      root; taking an abort record away gives the chain below back. */
  lemma RootGrows(st: State, newId: NodeId)
    requires Shape(st) && Enabled(st, CasRoot(newId)) && st.root == st.prepared[newId].oldRoot
    ensures var st' := Next(st, CasRoot(newId));
            && st'.root == newId && HasPhase(st', newId, Live) && st.prepared[newId].sep.id in st'.indexed
            && st'.table == st.table && st'.mem == st.mem
  {
  }

  lemma AbortIsUndone(st: State, id: NodeId)
    requires Shape(st) && Enabled(st, RemoveAbort(id))
    ensures var st', a := Next(st, RemoveAbort(id)), st.mem[st.table[id]];
            && Resolves(st', id) && st'.mem[st'.table[id]] == a.child && Waiting(st', a.p)
            && EntryMeta(st', id) == EntryMeta(st, id)
  {
    var a := st.mem[st.table[id]];
    assert Stored(st.mem, a) && Stored(st.mem, a.child);
    RetiredWaits(st.(table := st.table[id := a.child.p]), a.p);
  }
}
