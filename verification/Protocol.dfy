/** What the records in memory say about the levels, at every point of every run: which
    removed node a merge may take over, and that a parent's separator for an id is
    inserted once and deleted once. */
module Protocol {
  import opened Keys
  import opened NodeGraph
  import opened Levels

  ghost function ViewOf(st: State): View {
    map id | id in st.phase && Rank(st.phase[id]) == 1 && Resolves(st, id) :: MetaOf(st.mem[st.table[id]])
  }

  /** The entry, skipping an abort record, is p. */
  ghost predicate Current(st: State, id: NodeId, p: Ptr) {
    Resolves(st, id) && Skipped(st.mem[st.table[id]]) == p
  }

  ghost predicate Gone(ph: Phase) {
    ph.Removed? || ph.Merged? || ph.Retired?
  }

  /** What a remove, merge or split record anywhere in memory says about the id in it. */
  ghost predicate RecordOk(st: State, t: Tree) {
    match t
    case Remove(p, id, _) =>
      id in st.phase && (st.phase[id].Abandoned? || (Gone(st.phase[id]) && (id in st.table ==> st.table[id] == p)))
    case Merge(_, _, removedId, _, _) => HasRank(st.phase, removedId, 2, 3)
    case Delta(_, op, _) =>
      op.SplitAt? ==>
        && HasRank(st.phase, op.sibling, 1, 3) && op.sibling in st.places
        && st.places[op.sibling] == Place(MetaOf(t).level, LowKey(op.key))
    case _ => true
  }

  ghost predicate Records(st: State) {
    forall p :: p in st.mem ==> RecordOk(st, st.mem[p])
  }

  /** An unpublished node is what its creator cut from a base or built over a split root. */
  ghost predicate PendingOk(st: State, id: NodeId) {
    && Resolves(st, id) && id in st.prepared && id in st.places
    && var m := MetaOf(st.mem[st.table[id]]);
       match st.prepared[id]
       case Sibling(from, key) =>
         && from in st.mem && st.mem[from].Base? && m == RightPart(st.mem[from].meta, key)
         && AboveLow(key, st.mem[from].meta.low) && Below(key, st.mem[from].meta.high)
         && st.places[id] == Place(m.level, LowKey(key))
       case NewRoot(oldRoot, sep) =>
         && oldRoot in st.places && sep.id in st.places && HasRank(st.phase, sep.id, 1, 3)
         && var level := st.places[oldRoot].level;
            && m == RootMeta(level, sep) && st.places[id] == Place(level + 1, NegInf)
            && st.places[sep.id] == Place(level, LowKey(sep.key))
  }

  ghost predicate Pendings(st: State) {
    forall id :: HasPhase(st, id, Pending) ==> PendingOk(st, id)
  }

  /** A path load whose parent snapshot is still current and lacks the separator proves
      that the split node was never indexed. */
  ghost predicate LoadOk(st: State, l: PathLoad) {
    && Visible(st, l.parent) && l.pp in st.mem && l.lp in st.mem && l.child in st.places
    && (SplitOnTop(st, l.lp) ==> MetaOf(st.mem[l.lp]).level == st.places[l.child].level)
    && (Current(st, l.parent, l.pp) && Clean(st.mem[l.pp]) && MayIndex(st, l) ==>
          SplitSep(st, l.lp).id !in st.indexed)
  }

  ghost predicate Loads(st: State) {
    forall l :: l in st.loads ==> LoadOk(st, l)
  }

  ghost predicate CoreAt(v: View, st: State) {
    && st.root in st.places && st.places.Keys == st.phase.Keys && st.prepared.Keys <= st.phase.Keys
    && Core(v, st.phase, st.places, st.indexed, st.places[st.root].level)
  }

  ghost predicate CoreOf(st: State) {
    CoreAt(ViewOf(st), st)
  }

  ghost predicate History(st: State) {
    Records(st) && Pendings(st) && Loads(st)
  }

  ghost predicate Links(st: State) {
    CoreOf(st) && History(st)
  }

  // ----- what every step keeps -----

  /** An id only moves forward, a removed id's entry stays, an unpublished one's too. */
  ghost predicate Advances(st: State, st': State, id: NodeId)
    requires id in st.phase && id in st'.phase
  {
    && Rank(st.phase[id]) <= Rank(st'.phase[id])
    && (st.phase[id].Abandoned? ==> st'.phase[id].Abandoned?)
    && (Gone(st.phase[id]) ==> Gone(st'.phase[id]) && (id in st'.table ==> Wins(st, id, st'.table[id])))
    && (st'.phase[id].Pending? ==> st.phase[id].Pending? && id in st.table && Wins(st', id, st.table[id]))
  }

  /** No old chain becomes current again. */
  ghost predicate NotRevived(st: State, st': State, id: NodeId, p: Ptr) {
    Visible(st, id) && p in st.mem && Current(st', id, p) ==> Current(st, id, p)
  }

  ghost predicate Evolves(st: State, st': State) {
    && Grows(st.mem, st'.mem) && Grows(st.places, st'.places) && Grows(st.prepared, st'.prepared)
    && st.phase.Keys <= st'.phase.Keys
    && (forall id :: id in st.phase ==> Advances(st, st', id))
    && (forall id, p :: NotRevived(st, st', id, p))
  }

  lemma RecordsKept(st: State, st': State, p: Ptr)
    requires Evolves(st, st') && Records(st) && p in st.mem
    ensures RecordOk(st', st'.mem[p])
  {
    var t := st.mem[p];
    assert RecordOk(st, t);
    match t
    case Remove(_, id, _) => assert Advances(st, st', id);
    case Merge(_, _, removedId, _, _) => assert Advances(st, st', removedId);
    case Delta(_, op, _) => assert op.SplitAt? ==> Advances(st, st', op.sibling);
    case _ =>
  }

  lemma PendingKept(st: State, st': State, id: NodeId)
    requires Evolves(st, st') && Pendings(st) && id in st.phase && HasPhase(st', id, Pending)
    ensures PendingOk(st', id)
  {
    assert Advances(st, st', id);
    assert PendingOk(st, id);
    assert st.prepared[id].NewRoot? ==> Advances(st, st', st.prepared[id].sep.id);
  }

  lemma MayIndexKept(st: State, st': State, l: PathLoad)
    requires Grows(st.mem, st'.mem) && l.pp in st.mem && l.lp in st.mem && MayIndex(st', l)
    ensures MayIndex(st, l) && SplitSep(st', l.lp) == SplitSep(st, l.lp)
  {
  }

  lemma LoadKept(st: State, st': State, l: PathLoad)
    requires Evolves(st, st') && LoadOk(st, l)
    requires Current(st', l.parent, l.pp) && Clean(st'.mem[l.pp]) && MayIndex(st', l) ==>
               (SplitSep(st', l.lp).id in st'.indexed ==> SplitSep(st', l.lp).id in st.indexed)
    ensures LoadOk(st', l)
  {
    assert Advances(st, st', l.parent) && NotRevived(st, st', l.parent, l.pp);
    if MayIndex(st', l) {
      MayIndexKept(st, st', l);
    }
  }

  /** Steps that add no index entry: one new tree at most, everything else carries over. */
  lemma HistoryKept(st: State, st': State)
    requires Evolves(st, st') && History(st)
    requires st'.indexed == st.indexed && st'.loads == st.loads
    requires forall p :: p in st'.mem && p !in st.mem ==> RecordOk(st', st'.mem[p])
    requires forall id :: id in st'.phase && id !in st.phase ==> PendingOk(st', id)
    ensures History(st')
  {
    forall p | p in st.mem ensures RecordOk(st', st'.mem[p]) { RecordsKept(st, st', p); }
    forall id | HasPhase(st', id, Pending) ensures PendingOk(st', id) {
      if id in st.phase { PendingKept(st, st', id); }
    }
    forall l | l in st.loads ensures LoadOk(st', l) { LoadKept(st, st', l); }
  }

  /** The same for one new tree and no new id. */
  lemma HistoryWith(st: State, st': State, t: Tree)
    requires Evolves(st, st') && History(st) && RecordOk(st', t)
    requires st'.indexed == st.indexed && st'.loads == st.loads
    requires st'.mem == st.mem[t.p := t] && st'.phase.Keys == st.phase.Keys
    ensures History(st')
  {
    HistoryKept(st, st');
  }

  // ----- the view after each kind of change -----

  lemma ViewPut(st: State, id: NodeId, t: Tree)
    requires Shape(st) && HasPhase(st, id, Live) && t.p !in st.mem
    ensures ViewOf(Put(st, id, t)) == ViewOf(st)[id := MetaOf(t)]
    ensures id in ViewOf(st) && ViewOf(st)[id] == MetaOf(st.mem[st.table[id]])
  {
  }

  /** The first id of a level that a winning merge names is removed and not merged yet. */
  lemma MergeFindsRemoved(st: State, id: NodeId, p: Ptr, q: Ptr, rp: Ptr)
    requires Shape(st) && Links(st) && Postable(st, id, p, q) && Wins(st, id, p)
    requires rp in st.mem && st.mem[rp].Remove?
    requires MetaOf(st.mem[p]).high.HighKey? && MetaOf(st.mem[p]).high.next == st.mem[rp].id
    ensures var gone := st.mem[rp].id;
            && gone != id && HasPhase(st, gone, Removed) && Wins(st, gone, rp)
            && Merges(ViewOf(st), id, gone) && gone in ViewOf(st)
            && ViewOf(st)[id] == MetaOf(st.mem[p]) && ViewOf(st)[gone] == MetaOf(st.mem[rp].child)
  {
    WinnerIsLive(st, id, p, q);
    var v, gone := ViewOf(st), st.mem[rp].id;
    assert id in v && v[id] == MetaOf(st.mem[p]);
    NextIsAnother(v, st.places, st.places[st.root].level, id, gone);
    assert RecordOk(st, st.mem[rp]);
  }

  /** A winning index delete finds its id merged and not retired: nobody deleted the
      separator before, so its remove record was not put into the garbage before. */
  lemma DeleteFindsMerged(st: State, parent: NodeId, p: Ptr, q: Ptr, mp: Ptr)
    requires Shape(st) && Links(st) && Postable(st, parent, p, q) && Wins(st, parent, p)
    requires mp in st.mem && st.mem[mp].Merge?
    requires Sep(st.mem[mp].key, st.mem[mp].removedId) in MetaOf(st.mem[p]).seps
    ensures var gone := st.mem[mp].removedId;
            HasPhase(st, gone, Merged) && gone != parent && Resolves(st, gone) && st.mem[st.table[gone]].Remove?
  {
    WinnerIsLive(st, parent, p, q);
    var v, sep := ViewOf(st), Sep(st.mem[mp].key, st.mem[mp].removedId);
    assert parent in v && v[parent] == MetaOf(st.mem[p]);
    assert IndexOk(v[parent], sep, st.phase, st.places, st.indexed);
    assert RecordOk(st, st.mem[mp]);
  }

  /** A winning index insert is the first one for its id. */
  lemma InsertIsFirst(st: State, l: PathLoad, q: Ptr)
    requires Shape(st) && Links(st) && l in st.loads && Postable(st, l.parent, l.pp, q) && MayIndex(st, l)
    requires Wins(st, l.parent, l.pp)
    ensures SplitSep(st, l.lp).id !in st.indexed
  {
    assert LoadOk(st, l);
  }

  /** So is a winning root swap: nothing at the old root's level was ever indexed. */
  lemma RootIsFirst(st: State, newId: NodeId)
    requires Links(st) && Enabled(st, CasRoot(newId)) && st.root == st.prepared[newId].oldRoot
    ensures st.prepared[newId].sep.id !in st.indexed
  {
    assert PendingOk(st, newId);
  }

  // ----- steps that leave the view alone -----

  ghost predicate InView(st: State, id: NodeId) {
    id in st.phase && Rank(st.phase[id]) == 1 && Resolves(st, id)
  }

  /** The id means the same to its level before and after. */
  ghost predicate SameAt(st: State, st': State, id: NodeId) {
    && (InView(st, id) <==> InView(st', id))
    && (InView(st, id) ==> MetaOf(st'.mem[st'.table[id]]) == MetaOf(st.mem[st.table[id]]))
  }

  lemma SameView(st: State, st': State)
    requires forall id :: SameAt(st, st', id)
    ensures ViewOf(st') == ViewOf(st)
  {
    forall id ensures id in ViewOf(st) <==> id in ViewOf(st') { assert SameAt(st, st', id); }
    forall id | id in ViewOf(st) ensures ViewOf(st')[id] == ViewOf(st)[id] { assert SameAt(st, st', id); }
  }

  lemma SameCore(st: State, st': State)
    requires CoreOf(st) && ViewOf(st') == ViewOf(st) && st'.root == st.root && st'.indexed == st.indexed
    requires SameRanks(st.phase, st'.phase) && Grows(st.places, st'.places)
    requires st'.places.Keys == st'.phase.Keys && st'.prepared.Keys <= st'.phase.Keys
    ensures CoreOf(st')
  {
    CoreSame(ViewOf(st), st.phase, st.places, st.indexed, st.places[st.root].level, st'.phase, st'.places);
  }

  lemma SameViewCore(st: State, st': State)
    requires CoreOf(st) && (forall id :: SameAt(st, st', id)) && st'.root == st.root && st'.indexed == st.indexed
    requires SameRanks(st.phase, st'.phase) && Grows(st.places, st'.places)
    requires st'.places.Keys == st'.phase.Keys && st'.prepared.Keys <= st'.phase.Keys
    ensures CoreOf(st')
  {
    SameView(st, st');
    SameCore(st, st');
  }

  /** A step that changes no node's meaning; what is new in memory or unpublished is in order. */
  lemma QuietStep(st: State, st': State)
    requires Links(st) && Evolves(st, st') && (forall id :: SameAt(st, st', id))
    requires st'.root == st.root && st'.indexed == st.indexed && st'.loads == st.loads
    requires SameRanks(st.phase, st'.phase)
    requires st'.places.Keys == st'.phase.Keys && st'.prepared.Keys <= st'.phase.Keys
    requires forall p :: p in st'.mem && p !in st.mem ==> RecordOk(st', st'.mem[p])
    requires forall id :: id in st'.phase && id !in st.phase ==> PendingOk(st', id)
    ensures Links(st')
  {
    SameViewCore(st, st');
    HistoryKept(st, st');
  }

  /** Garbage and freed nodes say nothing about the levels. */
  lemma LinksIgnoreGarbage(st: State, st': State)
    requires Links(st) && st' == st.(garbage := st'.garbage, tickets := st'.tickets, freed := st'.freed)
    ensures Links(st')
  {
    forall id ensures SameAt(st, st', id) {}
    SameView(st, st');
    forall p | p in st'.mem ensures RecordOk(st', st'.mem[p]) { assert RecordOk(st, st.mem[p]); }
    forall id | HasPhase(st', id, Pending) ensures PendingOk(st', id) { assert PendingOk(st, id); }
    forall l | l in st'.loads ensures LoadOk(st', l) { assert LoadOk(st, l); }
  }

  /** A tree that nobody's id leads to. */
  lemma StoreAdvances(st: State, t: Tree)
    requires Shape(st) && t.p !in st.mem
    ensures Evolves(st, Store(st, t))
  {
  }

  lemma StoreKeepsView(st: State, t: Tree)
    requires Shape(st) && t.p !in st.mem
    ensures forall id :: SameAt(st, Store(st, t), id)
  {
  }

  lemma StoreLinks(st: State, t: Tree)
    requires Shape(st) && Links(st) && t.p !in st.mem && RecordOk(st, t)
    ensures Links(Store(st, t))
  {
    StoreAdvances(st, t);
    StoreKeepsView(st, t);
    QuietStep(st, Store(st, t));
  }

  lemma DiscardLinks(st: State, q: Ptr)
    requires Shape(st) && Links(st) && q !in st.mem
    ensures Links(Discard(st, q))
  {
    var b := Base(q, NOTHING);
    StoreLinks(st, b);
    LinksIgnoreGarbage(Store(st, b), Discard(st, q));
  }

  /** A new tree on top of a live entry; an abort record lies on the entry itself. */
  ghost predicate OnTop(st: State, id: NodeId, t: Tree) {
    && HasPhase(st, id, Live) && Resolves(st, id) && t.p !in st.mem
    && (t.Abort? ==> t.child.p == st.table[id] && Clean(st.mem[st.table[id]]))
  }

  lemma PutEvolves(st: State, id: NodeId, t: Tree)
    requires Shape(st) && OnTop(st, id, t)
    ensures Evolves(st, Put(st, id, t))
  {
  }

  lemma PutIsQuiet(st: State, id: NodeId, t: Tree)
    requires Shape(st) && OnTop(st, id, t) && MetaOf(t) == MetaOf(st.mem[st.table[id]])
    ensures forall x :: SameAt(st, Put(st, id, t), x)
  {
  }

  /** A record that changes nothing about its node's level. */
  lemma PutLinks(st: State, id: NodeId, t: Tree)
    requires Shape(st) && Links(st) && OnTop(st, id, t) && MetaOf(t) == MetaOf(st.mem[st.table[id]])
    requires !t.Remove? && !t.Merge? && (t.Delta? ==> !t.op.SplitAt?)
    ensures Links(Put(st, id, t))
  {
    PutEvolves(st, id, t);
    PutIsQuiet(st, id, t);
    QuietStep(st, Put(st, id, t));
  }

  lemma SameMetaStep(st: State, id: NodeId, p: Ptr, q: Ptr, t: Tree)
    requires Shape(st) && Links(st) && Postable(st, id, p, q)
    requires t == Delta(q, Data, st.mem[p]) || t == Base(q, MetaOf(st.mem[p])) || t == Abort(q, st.mem[p])
    ensures Wins(st, id, p) ==> Links(Put(st, id, t))
  {
    if Wins(st, id, p) {
      WinnerIsLive(st, id, p, q);
      PutLinks(st, id, t);
    }
  }

  lemma RemovePutAdvances(st: State, id: NodeId, t: Tree)
    requires Shape(st) && OnTop(st, id, t) && t.Remove? && t.child == st.mem[st.table[id]]
    ensures var st' := SetPhase(Put(st, id, t), id, Removed);
            Evolves(st, st')
  {
  }

  lemma RemovePutKeepsView(st: State, id: NodeId, t: Tree)
    requires Shape(st) && OnTop(st, id, t) && t.Remove? && t.child == st.mem[st.table[id]]
    ensures var st' := SetPhase(Put(st, id, t), id, Removed); forall x :: SameAt(st, st', x)
  {
  }

  lemma RemoveHistory(st: State, id: NodeId, t: Tree)
    requires Shape(st) && History(st) && OnTop(st, id, t)
    requires t.Remove? && t.id == id && t.child == st.mem[st.table[id]]
    ensures History(SetPhase(Put(st, id, t), id, Removed))
  {
    RemovePutAdvances(st, id, t);
    HistoryWith(st, SetPhase(Put(st, id, t), id, Removed), t);
  }

  lemma RemoveLinks(st: State, id: NodeId, t: Tree)
    requires Shape(st) && Links(st) && OnTop(st, id, t)
    requires t.Remove? && t.id == id && t.child == st.mem[st.table[id]]
    ensures Links(SetPhase(Put(st, id, t), id, Removed))
  {
    RemovePutKeepsView(st, id, t);
    SameViewCore(st, SetPhase(Put(st, id, t), id, Removed));
    RemoveHistory(st, id, t);
  }

  lemma RemoveStep(st: State, id: NodeId, p: Ptr, q: Ptr)
    requires Shape(st) && Links(st) && Postable(st, id, p, q) && Wins(st, id, p)
    ensures Links(SetPhase(Put(st, id, Remove(q, id, st.mem[p])), id, Removed))
  {
    WinnerIsLive(st, id, p, q);
    RemoveLinks(st, id, Remove(q, id, st.mem[p]));
  }

  lemma UnabortAdvances(st: State, id: NodeId)
    requires Shape(st) && Enabled(st, RemoveAbort(id))
    ensures var st' := st.(table := st.table[id := st.mem[st.table[id]].child.p]);
            Evolves(st, st')
  {
    var a := st.mem[st.table[id]];
    assert Stored(st.mem, a) && Stored(st.mem, a.child) && Sound(a) && EntryOk(st.phase[id], id, a);
  }

  lemma UnabortKeepsView(st: State, id: NodeId)
    requires Shape(st) && Enabled(st, RemoveAbort(id))
    ensures var st' := st.(table := st.table[id := st.mem[st.table[id]].child.p]); forall x :: SameAt(st, st', x)
  {
    var a := st.mem[st.table[id]];
    assert Stored(st.mem, a) && Stored(st.mem, a.child) && Sound(a) && EntryOk(st.phase[id], id, a);
  }

  lemma RemoveAbortStep(st: State, id: NodeId)
    requires Shape(st) && Links(st) && Enabled(st, RemoveAbort(id))
    ensures Links(Next(st, RemoveAbort(id)))
  {
    var st' := st.(table := st.table[id := st.mem[st.table[id]].child.p]);
    UnabortAdvances(st, id);
    UnabortKeepsView(st, id);
    QuietStep(st, st');
    LinksIgnoreGarbage(st', Next(st, RemoveAbort(id)));
  }

  lemma ForgetAdvances(st: State, id: NodeId)
    requires Shape(st) && (HasPhase(st, id, Retired) || HasPhase(st, id, Abandoned))
    ensures var st' := st.(table := st.table - {id}); Evolves(st, st')
  {
  }

  lemma ForgetKeepsView(st: State, id: NodeId)
    requires Shape(st) && (HasPhase(st, id, Retired) || HasPhase(st, id, Abandoned))
    ensures var st' := st.(table := st.table - {id}); forall x :: SameAt(st, st', x)
  {
  }

  lemma FreeStep(st: State, ticket: nat)
    requires Shape(st) && Links(st) && Enabled(st, Free(ticket))
    ensures Links(Next(st, Free(ticket)))
  {
    var t := st.mem[st.garbage[ticket]];
    var st' := st.(table := if t.Remove? then st.table - {t.id} else st.table);
    if t.Remove? {
      ForgetAdvances(st, t.id);
    ForgetKeepsView(st, t.id);
      QuietStep(st, st');
    }
    LinksIgnoreGarbage(st', Next(st, Free(ticket)));
  }

  lemma AbandonAdvances(st: State, newId: NodeId, t: Tree)
    requires Shape(st) && HasPhase(st, newId, Pending) && t.p !in st.mem
    ensures var st' := SetPhase(Store(st, t), newId, Abandoned);
            Evolves(st, st')
  {
  }

  lemma AbandonKeepsView(st: State, newId: NodeId, t: Tree)
    requires Shape(st) && HasPhase(st, newId, Pending) && t.p !in st.mem
    ensures var st' := SetPhase(Store(st, t), newId, Abandoned); forall x :: SameAt(st, st', x)
  {
  }

  lemma AbandonHistory(st: State, newId: NodeId, t: Tree)
    requires Shape(st) && History(st) && HasPhase(st, newId, Pending) && t.p !in st.mem
    requires t.Remove? && t.id == newId
    ensures History(SetPhase(Store(st, t), newId, Abandoned))
  {
    AbandonAdvances(st, newId, t);
    HistoryWith(st, SetPhase(Store(st, t), newId, Abandoned), t);
  }

  lemma AbandonLinks(st: State, newId: NodeId, t: Tree)
    requires Shape(st) && Links(st) && HasPhase(st, newId, Pending) && t.p !in st.mem
    requires t.Remove? && t.id == newId
    ensures Links(SetPhase(Store(st, t), newId, Abandoned))
  {
    AbandonKeepsView(st, newId, t);
    SameViewCore(st, SetPhase(Store(st, t), newId, Abandoned));
    AbandonHistory(st, newId, t);
  }

  lemma AbandonStep(st: State, newId: NodeId, q: Ptr)
    requires Shape(st) && Links(st) && Enabled(st, Abandon(newId, q))
    ensures Links(Next(st, Abandon(newId, q)))
  {
    var t := Remove(q, newId, st.mem[st.table[newId]]);
    AbandonLinks(st, newId, t);
    LinksIgnoreGarbage(SetPhase(Store(st, t), newId, Abandoned), Next(st, Abandon(newId, q)));
  }

  lemma SetUpAdvances(st: State, newId: NodeId, t: Tree, prepared: Prepared)
    requires Shape(st) && newId !in st.phase && newId !in st.places && newId !in st.prepared && t.p !in st.mem
    ensures var st' := SetUp(st, newId, t, prepared);
            Evolves(st, st')
  {
  }

  lemma SetUpKeepsView(st: State, newId: NodeId, t: Tree, prepared: Prepared)
    requires Shape(st) && newId !in st.phase && newId !in st.places && newId !in st.prepared && t.p !in st.mem
    ensures var st' := SetUp(st, newId, t, prepared); forall x :: SameAt(st, st', x)
  {
  }

  lemma SetUpLinks(st: State, newId: NodeId, t: Tree, prepared: Prepared)
    requires Shape(st) && Links(st) && newId !in st.phase && t.p !in st.mem && t.Base?
    requires PendingOk(SetUp(st, newId, t, prepared), newId)
    ensures Links(SetUp(st, newId, t, prepared))
  {
    SetUpAdvances(st, newId, t, prepared);
    SetUpKeepsView(st, newId, t, prepared);
    QuietStep(st, SetUp(st, newId, t, prepared));
  }

  // ----- split -----

  lemma ViewShow(st: State, id: NodeId)
    requires HasPhase(st, id, Pending) && Resolves(st, id)
    ensures ViewOf(SetPhase(st, id, Live)) == ViewOf(st)[id := MetaOf(st.mem[st.table[id]])]
  {
  }

  lemma ViewHide(st: State, id: NodeId)
    requires HasPhase(st, id, Removed)
    ensures ViewOf(SetPhase(st, id, Merged)) == ViewOf(st) - {id}
  {
  }

  lemma SplitChangesView(st: State, id: NodeId, t: Tree, newId: NodeId, key: Key)
    requires Shape(st) && OnTop(st, id, t) && HasPhase(st, newId, Pending)
    requires MetaOf(t) == LeftPart(MetaOf(st.mem[st.table[id]]), key, newId)
    requires Resolves(st, newId) && MetaOf(st.mem[st.table[newId]]) == RightPart(MetaOf(st.mem[st.table[id]]), key)
    ensures id in ViewOf(st)
    ensures ViewOf(SetPhase(Put(st, id, t), newId, Live)) == SplitView(ViewOf(st), id, newId, key)
  {
    ViewPut(st, id, t);
    ViewShow(Put(st, id, t), newId);
  }

  lemma SplitAdvances(st: State, id: NodeId, t: Tree, newId: NodeId)
    requires Shape(st) && OnTop(st, id, t) && !t.Abort? && HasPhase(st, newId, Pending)
    ensures Evolves(st, SetPhase(Put(st, id, t), newId, Live))
  {
  }

  lemma SplitCore(v: View, st: State, st': State, id: NodeId, newId: NodeId, key: Key)
    requires CoreAt(v, st) && Splits(v, st.places, id, newId, key) && HasPhase(st, newId, Pending)
    requires st'.phase == st.phase[newId := Live] && st'.indexed == st.indexed
    requires st'.places == st.places && st'.prepared == st.prepared && st'.root == st.root
    ensures CoreAt(SplitView(v, id, newId, key), st')
  {
    CoreSplit(v, st.phase, st.places, st.indexed, st.places[st.root].level, id, newId, key);
  }

  lemma SplitFits(st: State, id: NodeId, p: Ptr, newId: NodeId)
    requires CoreOf(st) && Wins(st, id, p) && HasPhase(st, id, Live) && Resolves(st, id) && st.mem[p].Base?
    requires HasPhase(st, newId, Pending) && PendingOk(st, newId) && st.prepared[newId].Sibling?
    requires st.prepared[newId].from == p
    ensures Splits(ViewOf(st), st.places, id, newId, st.prepared[newId].key)
  {
    assert id in ViewOf(st) && ViewOf(st)[id] == MetaOf(st.mem[p]);
  }

  lemma SplitHistory(st: State, id: NodeId, t: Tree, newId: NodeId)
    requires Shape(st) && History(st) && OnTop(st, id, t) && HasPhase(st, newId, Pending) && newId in st.places
    requires t.Delta? && t.op.SplitAt? && t.op.sibling == newId
    requires st.places[newId] == Place(MetaOf(t).level, LowKey(t.op.key))
    ensures History(SetPhase(Put(st, id, t), newId, Live))
  {
    SplitAdvances(st, id, t, newId);
    HistoryWith(st, SetPhase(Put(st, id, t), newId, Live), t);
  }

  lemma SplitLinks(st: State, id: NodeId, p: Ptr, q: Ptr, newId: NodeId)
    requires Shape(st) && Links(st) && Postable(st, id, p, q) && Wins(st, id, p) && st.mem[p].Base?
    requires HasPhase(st, newId, Pending) && newId in st.prepared && st.prepared[newId].Sibling?
    requires st.prepared[newId].from == p
    ensures var t := Delta(q, SplitAt(st.prepared[newId].key, newId), st.mem[p]);
            Links(SetPhase(Put(st, id, t), newId, Live))
  {
    var key := st.prepared[newId].key;
    var t := Delta(q, SplitAt(key, newId), st.mem[p]);
    WinnerIsLive(st, id, p, q);
    assert PendingOk(st, newId);
    SplitFits(st, id, p, newId);
    SplitChangesView(st, id, t, newId, key);
    SplitCore(ViewOf(st), st, SetPhase(Put(st, id, t), newId, Live), id, newId, key);
    SplitHistory(st, id, t, newId);
  }

  // ----- merge -----

  lemma ViewHas(st: State, id: NodeId)
    requires id in st.phase && Rank(st.phase[id]) == 1 && Resolves(st, id)
    ensures id in ViewOf(st) && ViewOf(st)[id] == MetaOf(st.mem[st.table[id]])
  {
  }

  lemma JoinedView(v: View, id: NodeId, gone: NodeId, m: Meta)
    requires id in v && gone in v && gone != id && m == Joined(v[id], v[gone])
    ensures v[id := m] - {gone} == MergeView(v, id, gone)
  {
  }

  lemma MergeChangesView(st: State, id: NodeId, t: Tree, gone: NodeId)
    requires Shape(st) && OnTop(st, id, t) && HasPhase(st, gone, Removed) && gone != id && Resolves(st, gone)
    requires MetaOf(t) == Joined(MetaOf(st.mem[st.table[id]]), MetaOf(st.mem[st.table[gone]]))
    ensures id in ViewOf(st) && gone in ViewOf(st)
    ensures ViewOf(SetPhase(Put(st, id, t), gone, Merged)) == MergeView(ViewOf(st), id, gone)
  {
    ViewPut(st, id, t);
    ViewHide(Put(st, id, t), gone);
    ViewHas(st, gone);
    JoinedView(ViewOf(st), id, gone, MetaOf(t));
  }

  lemma MergeAdvances(st: State, id: NodeId, t: Tree, gone: NodeId)
    requires Shape(st) && OnTop(st, id, t) && !t.Abort? && HasPhase(st, gone, Removed) && gone != id
    ensures Evolves(st, SetPhase(Put(st, id, t), gone, Merged))
  {
  }

  lemma MergeCore(v: View, st: State, st': State, id: NodeId, gone: NodeId)
    requires CoreAt(v, st) && Merges(v, id, gone) && gone in v
    requires st'.phase == st.phase[gone := Merged] && st'.indexed == st.indexed
    requires st'.places == st.places && st'.prepared == st.prepared && st'.root == st.root
    ensures CoreAt(MergeView(v, id, gone), st')
  {
    CoreMerge(v, st.phase, st.places, st.indexed, st.places[st.root].level, id, gone);
  }

  lemma MergeHistory(st: State, id: NodeId, t: Tree, gone: NodeId)
    requires Shape(st) && History(st) && OnTop(st, id, t) && HasPhase(st, gone, Removed) && gone != id
    requires t.Merge? && t.removedId == gone
    ensures History(SetPhase(Put(st, id, t), gone, Merged))
  {
    MergeAdvances(st, id, t, gone);
    HistoryWith(st, SetPhase(Put(st, id, t), gone, Merged), t);
  }

  lemma MergeLinks(st: State, id: NodeId, p: Ptr, q: Ptr, rp: Ptr)
    requires Shape(st) && Links(st) && Postable(st, id, p, q) && Wins(st, id, p)
    requires rp in st.mem && st.mem[rp].Remove?
    requires MetaOf(st.mem[p]).high.HighKey? && MetaOf(st.mem[p]).high.next == st.mem[rp].id
    ensures var r := st.mem[rp];
            var t := Merge(q, MetaOf(st.mem[p]).high.key, r.id, st.mem[p], r.child);
            Links(SetPhase(Put(st, id, t), r.id, Merged))
  {
    var gone := st.mem[rp].id;
    var t := Merge(q, MetaOf(st.mem[p]).high.key, gone, st.mem[p], st.mem[rp].child);
    WinnerIsLive(st, id, p, q);
    MergeFindsRemoved(st, id, p, q, rp);
    MergeChangesView(st, id, t, gone);
    MergeCore(ViewOf(st), st, SetPhase(Put(st, id, t), gone, Merged), id, gone);
    MergeHistory(st, id, t, gone);
  }

  // ----- separators in the parent -----

  lemma PutChangesView(st: State, id: NodeId, t: Tree, seps: set<Sep>)
    requires Shape(st) && OnTop(st, id, t) && MetaOf(t) == MetaOf(st.mem[st.table[id]]).(seps := seps)
    ensures id in ViewOf(st) && ViewOf(Put(st, id, t)) == WithSeps(ViewOf(st), id, seps)
    ensures ViewOf(st)[id] == MetaOf(st.mem[st.table[id]])
  {
    ViewPut(st, id, t);
  }

  /** A current chain without a remove record belongs to a live node and means what it means. */
  lemma SkippedIsLive(st: State, id: NodeId, p: Ptr)
    requires Shape(st) && Visible(st, id) && Current(st, id, p) && p in st.mem && Clean(st.mem[p])
    ensures id in ViewOf(st) && ViewOf(st)[id] == MetaOf(st.mem[p])
  {
    var t := st.mem[st.table[id]];
    assert Stored(st.mem, t) && EntryOk(st.phase[id], id, t);
    assert t.Abort? ==> Stored(st.mem, t.child);
  }

  /** Two path loads of one split that both find their parent current have the same parent,
      so after the winning insert the other one is outdated. */
  lemma SameParent(st: State, l: PathLoad, o: PathLoad)
    requires Shape(st) && CoreOf(st) && Records(st) && l.pp in st.mem && o.pp in st.mem
    requires MayIndex(st, l) && MayIndex(st, o) && SplitSep(st, o.lp).id == SplitSep(st, l.lp).id
    requires Visible(st, l.parent) && Current(st, l.parent, l.pp) && Clean(st.mem[l.pp])
    requires Visible(st, o.parent) && Current(st, o.parent, o.pp) && Clean(st.mem[o.pp])
    ensures o.parent == l.parent
  {
    assert RecordOk(st, st.mem[l.lp]) && RecordOk(st, st.mem[o.lp]);
    SkippedIsLive(st, l.parent, l.pp);
    SkippedIsLive(st, o.parent, o.pp);
    CoverIsUnique(ViewOf(st), l.parent, o.parent, SplitSep(st, l.lp).key);
  }

  /** No load still current would ask for this id. */
  ghost predicate Settled(st: State, id: NodeId) {
    forall o :: o in st.loads && MayIndex(st, o) && Current(st, o.parent, o.pp) && Clean(st.mem[o.pp]) ==>
      SplitSep(st, o.lp).id != id
  }

  lemma IndexGrows(st: State, id: NodeId)
    requires History(st) && Settled(st, id)
    ensures History(st.(indexed := st.indexed + {id}))
  {
    var st' := st.(indexed := st.indexed + {id});
    forall p | p in st.mem ensures RecordOk(st', st'.mem[p]) { assert RecordOk(st, st.mem[p]); }
    forall x | HasPhase(st', x, Pending) ensures PendingOk(st', x) { assert PendingOk(st, x); }
    forall o | o in st.loads ensures LoadOk(st', o) { assert LoadOk(st, o); }
  }

  lemma InsertSettles(st: State, l: PathLoad, t: Tree)
    requires Shape(st) && CoreOf(st) && History(st) && OnTop(st, l.parent, t) && !t.Abort? && l in st.loads
    requires MayIndex(st, l) && Wins(st, l.parent, l.pp) && Clean(st.mem[l.pp])
    ensures Settled(Put(st, l.parent, t), SplitSep(st, l.lp).id)
  {
    var st', id := Put(st, l.parent, t), SplitSep(st, l.lp).id;
    PutEvolves(st, l.parent, t);
    forall o | o in st.loads && MayIndex(st', o) && Current(st', o.parent, o.pp) && Clean(st'.mem[o.pp])
      ensures SplitSep(st', o.lp).id != id
    {
      assert LoadOk(st, o) && LoadOk(st, l);
      assert NotRevived(st, st', o.parent, o.pp);
      MayIndexKept(st, st', o);
      if SplitSep(st, o.lp).id == id {
        SameParent(st, l, o);
      }
    }
  }

  lemma InsertCore(v: View, st: State, st': State, parent: NodeId, sep: Sep)
    requires CoreAt(v, st) && parent in v && sep.id !in st.indexed && HasRank(st.phase, sep.id, 1, 3)
    requires InRange(sep.key, v[parent].low, v[parent].high) && sep.id in st.places
    requires st.places[sep.id].level + 1 == v[parent].level && st.places[sep.id].low == LowKey(sep.key)
    requires st'.phase == st.phase && st'.indexed == st.indexed + {sep.id}
    requires st'.places == st.places && st'.prepared == st.prepared && st'.root == st.root
    ensures CoreAt(WithSeps(v, parent, v[parent].seps + {sep}), st')
  {
    CoreInsert(v, st.phase, st.places, st.indexed, st.places[st.root].level, parent, sep);
  }

  lemma InsertChangesView(st: State, l: PathLoad, t: Tree)
    requires Shape(st) && OnTop(st, l.parent, t) && MayIndex(st, l) && Wins(st, l.parent, l.pp)
    requires t == Delta(t.p, IndexInsert(SplitSep(st, l.lp)), st.mem[l.pp])
    ensures l.parent in ViewOf(st) && ViewOf(st)[l.parent] == MetaOf(st.mem[l.pp])
    ensures ViewOf(Put(st, l.parent, t).(indexed := st.indexed + {SplitSep(st, l.lp).id}))
         == WithSeps(ViewOf(st), l.parent, ViewOf(st)[l.parent].seps + {SplitSep(st, l.lp)})
  {
    var sep, m := SplitSep(st, l.lp), MetaOf(st.mem[l.pp]);
    PutChangesView(st, l.parent, t, m.seps + {sep});
    assert ViewOf(Put(st, l.parent, t).(indexed := st.indexed + {sep.id})) == ViewOf(Put(st, l.parent, t));
  }

  lemma InsertHistory(st: State, l: PathLoad, t: Tree)
    requires Shape(st) && CoreOf(st) && History(st) && OnTop(st, l.parent, t) && l in st.loads
    requires MayIndex(st, l) && Wins(st, l.parent, l.pp) && Clean(st.mem[l.pp])
    requires t == Delta(t.p, IndexInsert(SplitSep(st, l.lp)), st.mem[l.pp])
    ensures History(Put(st, l.parent, t).(indexed := st.indexed + {SplitSep(st, l.lp).id}))
  {
    PutEvolves(st, l.parent, t);
    HistoryWith(st, Put(st, l.parent, t), t);
    InsertSettles(st, l, t);
    IndexGrows(Put(st, l.parent, t), SplitSep(st, l.lp).id);
  }

  lemma IndexInsertLinks(st: State, l: PathLoad, q: Ptr)
    requires Shape(st) && Links(st) && l in st.loads && Postable(st, l.parent, l.pp, q) && MayIndex(st, l)
    requires Wins(st, l.parent, l.pp)
    ensures var sep := SplitSep(st, l.lp);
            Links(Put(st, l.parent, Delta(q, IndexInsert(sep), st.mem[l.pp])).(indexed := st.indexed + {sep.id}))
  {
    var sep := SplitSep(st, l.lp);
    var t := Delta(q, IndexInsert(sep), st.mem[l.pp]);
    WinnerIsLive(st, l.parent, l.pp, q);
    InsertIsFirst(st, l, q);
    assert RecordOk(st, st.mem[l.lp]);
    InsertChangesView(st, l, t);
    InsertCore(ViewOf(st), st, Put(st, l.parent, t).(indexed := st.indexed + {sep.id}), l.parent, sep);
    InsertHistory(st, l, t);
  }

  lemma DeleteAdvances(st: State, parent: NodeId, t: Tree, gone: NodeId)
    requires Shape(st) && OnTop(st, parent, t) && !t.Abort? && HasPhase(st, gone, Merged) && gone != parent
    ensures Evolves(st, SetPhase(Put(st, parent, t), gone, Retired))
  {
  }

  lemma DeleteCore(v: View, st: State, st': State, parent: NodeId, sep: Sep)
    requires CoreAt(v, st) && parent in v && sep in v[parent].seps && HasPhase(st, sep.id, Merged)
    requires st'.phase == st.phase[sep.id := Retired] && st'.indexed == st.indexed
    requires st'.places == st.places && st'.prepared == st.prepared && st'.root == st.root
    ensures CoreAt(WithSeps(v, parent, v[parent].seps - {sep}), st')
  {
    CoreDelete(v, st.phase, st.places, st.indexed, st.places[st.root].level, parent, sep);
  }

  lemma DeleteChangesView(st: State, parent: NodeId, t: Tree, sep: Sep)
    requires Shape(st) && OnTop(st, parent, t) && HasPhase(st, sep.id, Merged)
    requires t == Delta(t.p, IndexDelete(sep), st.mem[st.table[parent]])
    ensures parent in ViewOf(st) && ViewOf(st)[parent] == MetaOf(st.mem[st.table[parent]])
    ensures ViewOf(SetPhase(Put(st, parent, t), sep.id, Retired))
         == WithSeps(ViewOf(st), parent, ViewOf(st)[parent].seps - {sep})
  {
    PutChangesView(st, parent, t, MetaOf(st.mem[st.table[parent]]).seps - {sep});
    var st1 := Put(st, parent, t);
    assert ViewOf(SetPhase(st1, sep.id, Retired)) == ViewOf(st1);
  }

  lemma DeleteHistory(st: State, parent: NodeId, t: Tree, gone: NodeId)
    requires Shape(st) && History(st) && OnTop(st, parent, t) && HasPhase(st, gone, Merged) && gone != parent
    requires t.Delta? && t.op.IndexDelete?
    ensures History(SetPhase(Put(st, parent, t), gone, Retired))
  {
    DeleteAdvances(st, parent, t, gone);
    HistoryWith(st, SetPhase(Put(st, parent, t), gone, Retired), t);
  }

  lemma IndexDeleteLinks(st: State, parent: NodeId, p: Ptr, q: Ptr, mp: Ptr)
    requires Shape(st) && Links(st) && Postable(st, parent, p, q) && Wins(st, parent, p)
    requires mp in st.mem && st.mem[mp].Merge?
    requires Sep(st.mem[mp].key, st.mem[mp].removedId) in MetaOf(st.mem[p]).seps
    ensures var sep := Sep(st.mem[mp].key, st.mem[mp].removedId);
            Links(Unindexed(st, parent, Delta(q, IndexDelete(sep), st.mem[p]), sep.id))
  {
    var sep := Sep(st.mem[mp].key, st.mem[mp].removedId);
    var t := Delta(q, IndexDelete(sep), st.mem[p]);
    var st' := SetPhase(Put(st, parent, t), sep.id, Retired);
    WinnerIsLive(st, parent, p, q);
    DeleteFindsMerged(st, parent, p, q, mp);
    DeleteChangesView(st, parent, t, sep);
    DeleteCore(ViewOf(st), st, st', parent, sep);
    DeleteHistory(st, parent, t, sep.id);
    LinksIgnoreGarbage(st', Unindexed(st, parent, t, sep.id));
  }

  // ----- the root -----

  lemma RootAdvances(st: State, newId: NodeId)
    requires Shape(st) && HasPhase(st, newId, Pending)
    ensures Evolves(st, SetPhase(st, newId, Live).(root := newId))
  {
  }

  lemma RootCore(v: View, st: State, st': State, newId: NodeId, sep: Sep)
    requires CoreAt(v, st) && HasPhase(st, newId, Pending)
    requires st.places[newId] == Place(st.places[st.root].level + 1, NegInf)
    requires HasRank(st.phase, sep.id, 1, 3) && sep.id in st.places
    requires st.places[sep.id] == Place(st.places[st.root].level, LowKey(sep.key))
    requires st'.phase == st.phase[newId := Live] && st'.indexed == st.indexed + {sep.id}
    requires st'.places == st.places && st'.prepared == st.prepared && st'.root == newId
    ensures CoreAt(v[newId := RootMeta(st.places[st.root].level, sep)], st')
  {
    CoreRoot(v, st.phase, st.places, st.indexed, st.places[st.root].level, newId, sep);
  }

  lemma RootChangesView(st: State, newId: NodeId, indexed: set<NodeId>)
    requires HasPhase(st, newId, Pending) && Resolves(st, newId)
    ensures ViewOf(SetPhase(st, newId, Live).(root := newId, indexed := indexed))
         == ViewOf(st)[newId := MetaOf(st.mem[st.table[newId]])]
  {
    ViewShow(st, newId);
    assert ViewOf(SetPhase(st, newId, Live).(root := newId, indexed := indexed)) == ViewOf(SetPhase(st, newId, Live));
  }

  lemma RootHistory(st: State, newId: NodeId)
    requires Shape(st) && CoreOf(st) && History(st) && HasPhase(st, newId, Pending) && newId in st.prepared
    requires st.prepared[newId].NewRoot? && st.root == st.prepared[newId].oldRoot
    ensures History(SetPhase(st, newId, Live).(root := newId, indexed := st.indexed + {st.prepared[newId].sep.id}))
  {
    var st1 := SetPhase(st, newId, Live).(root := newId);
    RootAdvances(st, newId);
    HistoryKept(st, st1);
    RootSettles(st, newId);
    IndexGrows(st1, st.prepared[newId].sep.id);
  }

  /** No parent lies above the root, so nobody else can ask for the root's sibling. */
  lemma RootSettles(st: State, newId: NodeId)
    requires Shape(st) && CoreOf(st) && History(st) && HasPhase(st, newId, Pending) && newId in st.prepared
    requires st.prepared[newId].NewRoot? && st.root == st.prepared[newId].oldRoot
    ensures Settled(SetPhase(st, newId, Live).(root := newId), st.prepared[newId].sep.id)
  {
    var st', sep := SetPhase(st, newId, Live).(root := newId), st.prepared[newId].sep;
    assert PendingOk(st, newId);
    RootAdvances(st, newId);
    forall o | o in st.loads && MayIndex(st', o) && Current(st', o.parent, o.pp) && Clean(st'.mem[o.pp])
      ensures SplitSep(st', o.lp).id != sep.id
    {
      assert LoadOk(st, o) && NotRevived(st, st', o.parent, o.pp);
      MayIndexKept(st, st', o);
      assert RecordOk(st, st.mem[o.lp]);
      SkippedIsLive(st, o.parent, o.pp);
    }
  }

  lemma RootLinks(st: State, newId: NodeId)
    requires Shape(st) && Links(st) && HasPhase(st, newId, Pending) && newId in st.prepared
    requires st.prepared[newId].NewRoot? && st.root == st.prepared[newId].oldRoot
    ensures var sep := st.prepared[newId].sep;
            Links(SetPhase(st, newId, Live).(root := newId, indexed := st.indexed + {sep.id}))
  {
    assert PendingOk(st, newId);
    var sep := st.prepared[newId].sep;
    RootChangesView(st, newId, st.indexed + {sep.id});
    RootCore(ViewOf(st), st, SetPhase(st, newId, Live).(root := newId, indexed := st.indexed + {sep.id}), newId, sep);
    RootHistory(st, newId);
  }

  // ----- loads and preparations -----

  /** The moment of the load: the split node is live next to its left half, so if it was
      indexed, then in the parent that covers its key, which is the one in hand. */
  /** An id that is live is indexed, if ever, in the parent that covers its low key. */
  lemma IndexedHere(v: View, st: State, sep: Sep, parent: NodeId)
    requires CoreAt(v, st) && sep.id in v && v[sep.id].low == LowKey(sep.key) && sep.id in st.indexed
    requires parent in v && v[parent].level == v[sep.id].level + 1 && InRange(sep.key, v[parent].low, v[parent].high)
    ensures sep in v[parent].seps
  {
    assert HasHome(v, sep);
    var p :| p in v && sep in v[p].seps;
    assert IndexOk(v[p], sep, st.phase, st.places, st.indexed);
    CoverIsUnique(v, p, parent, sep.key);
  }

  lemma NotIndexedYet(v: View, st: State, child: NodeId, parent: NodeId, sep: Sep)
    requires CoreAt(v, st) && child in v && parent in v && v[child].high == HighKey(sep.key, sep.id)
    requires v[parent].level == v[child].level + 1 && InRange(sep.key, v[parent].low, v[parent].high)
    requires forall e :: e in v[parent].seps ==> e.key != sep.key
    ensures sep.id !in st.indexed
  {
    if sep.id in st.indexed {
      IndexedHere(v, st, sep, parent);
    }
  }

  lemma LoadFacts(st: State, l: PathLoad)
    requires Shape(st) && Visible(st, l.parent) && Visible(st, l.child)
    requires Current(st, l.child, l.lp) && l.lp in st.mem && l.pp in st.mem && MayIndex(st, l)
    requires Current(st, l.parent, l.pp) && Clean(st.mem[l.pp])
    ensures var v, sep := ViewOf(st), SplitSep(st, l.lp);
            && l.child in v && l.parent in v && v[l.child].high == HighKey(sep.key, sep.id)
            && v[l.parent].level == v[l.child].level + 1 && InRange(sep.key, v[l.parent].low, v[l.parent].high)
            && forall e :: e in v[l.parent].seps ==> e.key != sep.key
  {
    SkippedIsLive(st, l.child, l.lp);
    SkippedIsLive(st, l.parent, l.pp);
  }

  lemma LoadProves(st: State, l: PathLoad)
    requires Shape(st) && CoreOf(st) && Visible(st, l.parent) && Visible(st, l.child)
    requires Current(st, l.child, l.lp) && l.lp in st.mem && l.pp in st.mem && MayIndex(st, l)
    requires Current(st, l.parent, l.pp) && Clean(st.mem[l.pp])
    ensures SplitSep(st, l.lp).id !in st.indexed
  {
    LoadFacts(st, l);
    NotIndexedYet(ViewOf(st), st, l.child, l.parent, SplitSep(st, l.lp));
  }

  lemma NewLoadOk(st: State, l: PathLoad)
    requires Shape(st) && CoreOf(st) && Records(st) && Visible(st, l.parent) && Visible(st, l.child)
    requires Current(st, l.child, l.lp) && l.pp in st.mem
    ensures LoadOk(st, l)
  {
    var t := st.mem[st.table[l.child]];
    assert Stored(st.mem, t) && (t.Abort? ==> Stored(st.mem, t.child));
    if SplitOnTop(st, l.lp) {
      SkippedIsLive(st, l.child, l.lp);
    }
    if Current(st, l.parent, l.pp) && Clean(st.mem[l.pp]) && MayIndex(st, l) {
      LoadProves(st, l);
    }
  }

  lemma RecordLoad(st: State, l: PathLoad)
    requires Links(st) && LoadOk(st, l)
    ensures Links(st.(loads := st.loads + {l}))
  {
    var st' := st.(loads := st.loads + {l});
    forall id ensures SameAt(st, st', id) {}
    SameView(st, st');
    forall p | p in st.mem ensures RecordOk(st', st'.mem[p]) { assert RecordOk(st, st.mem[p]); }
    forall x | HasPhase(st', x, Pending) ensures PendingOk(st', x) { assert PendingOk(st, x); }
    forall o | o in st'.loads ensures LoadOk(st', o) { assert LoadOk(st, o); }
  }

  lemma LoadLinks(st: State, parent: NodeId, pp: Ptr, child: NodeId)
    requires Shape(st) && Links(st) && Enabled(st, Load(parent, pp, child))
    ensures Links(Next(st, Load(parent, pp, child)))
  {
    var l := PathLoad(parent, pp, child, Skipped(st.mem[st.table[child]]));
    NewLoadOk(st, l);
    RecordLoad(st, l);
  }

  lemma PrepareSiblingLinks(st: State, newId: NodeId, q: Ptr, p: Ptr, key: Key)
    requires Shape(st) && Links(st) && Enabled(st, PrepareSibling(newId, q, p, key))
    ensures Links(Next(st, PrepareSibling(newId, q, p, key)))
  {
    SetUpLinks(st, newId, Base(q, RightPart(st.mem[p].meta, key)), Sibling(p, key));
  }

  lemma PrepareRootLinks(st: State, newId: NodeId, q: Ptr, l: PathLoad)
    requires Shape(st) && Links(st) && Enabled(st, PrepareRoot(newId, q, l))
    ensures Links(Next(st, PrepareRoot(newId, q, l)))
  {
    var sep := SplitSep(st, l.lp);
    assert LoadOk(st, l) && RecordOk(st, st.mem[l.lp]);
    SetUpLinks(st, newId, Base(q, RootMeta(MetaOf(st.mem[l.lp]).level, sep)), NewRoot(l.child, sep));
  }

  // ----- every step -----

  lemma InstallLinks(st: State, id: NodeId, p: Ptr, t: Tree)
    requires Shape(st) && Links(st) && t.p !in st.mem && (Wins(st, id, p) ==> Links(Put(st, id, t)))
    ensures Links(Install(st, id, p, t))
  {
    if !Wins(st, id, p) {
      DiscardLinks(st, t.p);
    }
  }

  lemma ConsolidateLinks(st: State, id: NodeId, p: Ptr, q: Ptr)
    requires Shape(st) && Links(st) && Postable(st, id, p, q)
    ensures Links(Next(st, CasConsolidate(id, p, q)))
  {
    var t := Base(q, MetaOf(st.mem[p]));
    if Wins(st, id, p) {
      SameMetaStep(st, id, p, q, t);
      LinksIgnoreGarbage(Put(st, id, t), Next(st, CasConsolidate(id, p, q)));
    } else {
      StoreLinks(st, t);
      LinksIgnoreGarbage(Store(st, t), Next(st, CasConsolidate(id, p, q)));
    }
  }

  /** A data or abort record, whether or not its swap succeeds. */
  lemma RecordLinks(st: State, id: NodeId, p: Ptr, q: Ptr, t: Tree)
    requires Shape(st) && Links(st) && Postable(st, id, p, q)
    requires t == Delta(q, Data, st.mem[p]) || t == Abort(q, st.mem[p])
    ensures Links(Install(st, id, p, t))
  {
    SameMetaStep(st, id, p, q, t);
    InstallLinks(st, id, p, t);
  }


  lemma PrivateLinks(st: State, q: Ptr)
    requires Shape(st) && Links(st) && q !in st.mem
    ensures Links(Next(st, RetirePrivate(q)))
  {
    StoreLinks(st, Base(q, NOTHING));
    LinksIgnoreGarbage(Store(st, Base(q, NOTHING)), Next(st, RetirePrivate(q)));
  }

  /** Splits, new roots, removes and merges. */
  lemma ShapeStepKeepsLinks(st: State, step: Step)
    requires Shape(st) && Links(st) && Enabled(st, step)
    requires step.CasSplit? || step.CasRoot? || step.CasRemove? || step.CasMerge?
    ensures Links(Next(st, step))
  {
    match step {
      case CasSplit(id, p, q, newId) =>
        if Wins(st, id, p) { SplitLinks(st, id, p, q, newId); } else { DiscardLinks(st, q); }
      case CasRoot(newId) =>
        if st.root == st.prepared[newId].oldRoot { RootLinks(st, newId); }
      case CasRemove(id, p, q) =>
        if Wins(st, id, p) { RemoveStep(st, id, p, q); } else { DiscardLinks(st, q); }
      case CasMerge(id, p, q, rp) =>
        if Wins(st, id, p) { MergeLinks(st, id, p, q, rp); } else { DiscardLinks(st, q); }
    }
  }

  /** Separators inserted into and deleted from a parent. */
  lemma IndexStepKeepsLinks(st: State, step: Step)
    requires Shape(st) && Links(st) && Enabled(st, step) && (step.CasIndexInsert? || step.CasIndexDelete?)
    ensures Links(Next(st, step))
  {
    match step {
      case CasIndexInsert(l, q) =>
        if Wins(st, l.parent, l.pp) { IndexInsertLinks(st, l, q); } else { DiscardLinks(st, q); }
      case CasIndexDelete(parent, p, q, mp) =>
        if Wins(st, parent, p) { IndexDeleteLinks(st, parent, p, q, mp); } else { DiscardLinks(st, q); }
    }
  }

  /** Nodes that are not published yet. */
  lemma NewNodeStepKeepsLinks(st: State, step: Step)
    requires Shape(st) && Links(st) && Enabled(st, step)
    requires step.PrepareSibling? || step.PrepareRoot? || step.Abandon?
    ensures Links(Next(st, step))
  {
    match step {
      case PrepareSibling(newId, q, p, key) => PrepareSiblingLinks(st, newId, q, p, key);
      case PrepareRoot(newId, q, l) => PrepareRootLinks(st, newId, q, l);
      case Abandon(newId, q) => AbandonStep(st, newId, q);
    }
  }

  /** Records, consolidations and abort records on one node. */
  lemma ChainStepKeepsLinks(st: State, step: Step)
    requires Shape(st) && Links(st) && Enabled(st, step)
    requires step.CasData? || step.CasAbort? || step.CasConsolidate? || step.RemoveAbort?
    ensures Links(Next(st, step))
  {
    match step {
      case CasData(id, p, q) => RecordLinks(st, id, p, q, Delta(q, Data, st.mem[p]));
      case CasAbort(id, p, q) => RecordLinks(st, id, p, q, Abort(q, st.mem[p]));
      case CasConsolidate(id, p, q) => ConsolidateLinks(st, id, p, q);
      case RemoveAbort(id) => RemoveAbortStep(st, id);
    }
  }

  lemma OtherStepKeepsLinks(st: State, step: Step)
    requires Shape(st) && Links(st) && Enabled(st, step) && (step.Load? || step.RetirePrivate? || step.Free?)
    ensures Links(Next(st, step))
  {
    match step {
      case Load(parent, pp, child) => LoadLinks(st, parent, pp, child);
      case RetirePrivate(q) => PrivateLinks(st, q);
      case Free(ticket) => FreeStep(st, ticket);
    }
  }

  lemma StepKeepsLinks(st: State, step: Step)
    requires Shape(st) && Links(st) && Enabled(st, step)
    ensures Links(Next(st, step))
  {
    if step.Load? || step.RetirePrivate? || step.Free? {
      OtherStepKeepsLinks(st, step);
    } else if step.PrepareSibling? || step.PrepareRoot? || step.Abandon? {
      NewNodeStepKeepsLinks(st, step);
    } else if step.CasIndexInsert? || step.CasIndexDelete? {
      IndexStepKeepsLinks(st, step);
    } else if step.CasSplit? || step.CasRoot? || step.CasRemove? || step.CasMerge? {
      ShapeStepKeepsLinks(st, step);
    } else {
      ChainStepKeepsLinks(st, step);
    }
  }
}
