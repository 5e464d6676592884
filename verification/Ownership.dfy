/** Who is responsible for freeing each physical node: at every point of every run exactly
    one of a table entry, a garbage root, or nobody any more. */
module Ownership {
  import opened Keys
  import opened NodeGraph
  import opened Levels
  import opened Protocol

  datatype Holder = Entry(id: NodeId) | Ticket(n: nat) | Pile

  ghost function OwnedBy(st: State, h: Holder): set<Ptr> {
    match h
    case Entry(id) =>
      if id !in st.phase || st.phase[id].Abandoned? || st.phase[id].Retired? then {}
      else if id !in st.table || st.table[id] !in st.mem then {}
      else if st.phase[id].Merged? then {st.table[id]}
      else Whole(st.mem[st.table[id]])
    case Ticket(n) =>
      if n in st.garbage && st.garbage[n] in st.mem then Owned(st.mem[st.garbage[n]]) else {}
    case Pile => st.freed
  }

  ghost predicate Owns(st: State, owner: map<Ptr, Holder>, h: Holder) {
    forall x: Ptr :: x in OwnedBy(st, h) <==> x in owner && owner[x] == h
  }

  /** Every node has exactly one holder. */
  ghost predicate Owners(st: State, owner: map<Ptr, Holder>) {
    owner.Keys == st.mem.Keys && forall h: Holder :: Owns(st, owner, h)
  }

  ghost predicate Inv(st: State) {
    Shape(st) && Links(st) && exists owner :: Owners(st, owner)
  }

  /** The holder's own fields are as before, and so is everything in memory. */
  ghost predicate Untouched(st: State, st': State, h: Holder) {
    && st.mem.Keys <= st'.mem.Keys && (forall p :: p in st.mem ==> st'.mem[p] == st.mem[p])
    && match h
       case Entry(id) =>
         && (id in st.phase <==> id in st'.phase) && (id in st.phase ==> st'.phase[id] == st.phase[id])
         && (id in st.table <==> id in st'.table)
         && (id in st.table ==> st'.table[id] == st.table[id] && st.table[id] in st.mem)
       case Ticket(n) =>
         && (n in st.garbage <==> n in st'.garbage)
         && (n in st.garbage ==> st'.garbage[n] == st.garbage[n] && st.garbage[n] in st.mem)
       case Pile => st'.freed == st.freed
  }

  lemma UntouchedSame(st: State, st': State, h: Holder)
    requires Untouched(st, st', h)
    ensures OwnedBy(st', h) == OwnedBy(st, h)
  {
  }

  lemma UntouchedOwns(st: State, st': State, owner: map<Ptr, Holder>, owner': map<Ptr, Holder>, h: Holder)
    requires Owns(st, owner, h) && Untouched(st, st', h)
    requires forall x :: (x in owner' && owner'[x] == h) <==> (x in owner && owner[x] == h)
    ensures Owns(st', owner', h)
  {
    UntouchedSame(st, st', h);
  }

  /** All entries and tickets lead to nodes in memory. */
  ghost predicate Resolved(st: State) {
    && (forall id :: id in st.table ==> st.table[id] in st.mem)
    && (forall k :: k in st.garbage ==> st.garbage[k] in st.mem && k < st.tickets)
  }

  // ----- how each move passes nodes from one holder to another -----

  lemma DiscardOwners(st: State, q: Ptr, owner: map<Ptr, Holder>)
    requires Resolved(st) && Owners(st, owner) && q !in st.mem
    ensures Owners(Discard(st, q), owner[q := Pile])
  {
    var st', owner' := Discard(st, q), owner[q := Pile];
    forall h: Holder ensures Owns(st', owner', h) {
      assert Owns(st, owner, h);
      if h != Pile {
        UntouchedOwns(st, st', owner, owner', h);
      }
    }
  }

  /** A new record on an entry takes over what the entry stood for. */
  lemma PutOwners(st: State, id: NodeId, t: Tree, owner: map<Ptr, Holder>)
    requires Resolved(st) && Owners(st, owner) && HasPhase(st, id, Live) && id in st.table && t.p !in st.mem
    requires Whole(t) == {t.p} + Whole(st.mem[st.table[id]])
    ensures Owners(Put(st, id, t), owner[t.p := Entry(id)])
  {
    var st', owner' := Put(st, id, t), owner[t.p := Entry(id)];
    forall h: Holder ensures Owns(st', owner', h) {
      assert Owns(st, owner, h);
      if h != Entry(id) {
        UntouchedOwns(st, st', owner, owner', h);
      }
    }
  }

  lemma SetUpOwners(st: State, id: NodeId, t: Tree, prepared: Prepared, owner: map<Ptr, Holder>)
    requires Resolved(st) && Owners(st, owner) && id !in st.phase && t.p !in st.mem && t.Base?
    ensures Owners(SetUp(st, id, t, prepared), owner[t.p := Entry(id)])
  {
    var st', owner' := SetUp(st, id, t, prepared), owner[t.p := Entry(id)];
    forall h: Holder ensures Owns(st', owner', h) {
      assert Owns(st, owner, h);
      if h != Entry(id) {
        UntouchedOwns(st, st', owner, owner', h);
      }
    }
  }

  predicate InUse(ph: Phase) {
    ph.Pending? || ph.Live? || ph.Removed?
  }

  /** As long as the id is in use, its phase does not matter. */
  lemma PhaseOwners(st: State, id: NodeId, ph: Phase, owner: map<Ptr, Holder>)
    requires Resolved(st) && Owners(st, owner) && id in st.phase && InUse(st.phase[id]) && InUse(ph)
    ensures Owners(SetPhase(st, id, ph), owner)
  {
    var st' := SetPhase(st, id, ph);
    forall h: Holder ensures Owns(st', owner, h) {
      assert Owns(st, owner, h);
      if h != Entry(id) {
        UntouchedOwns(st, st', owner, owner, h);
      }
    }
  }

  /** A node that nobody else owns goes straight to the garbage. */
  lemma RetireNewOwners(st: State, t: Tree, owner: map<Ptr, Holder>)
    requires Resolved(st) && Owners(st, owner) && t.p !in st.mem && Owned(t) == {t.p}
    ensures Owners(Retire(Store(st, t), t.p), owner[t.p := Ticket(st.tickets)])
  {
    var st', owner' := Retire(Store(st, t), t.p), owner[t.p := Ticket(st.tickets)];
    forall h: Holder ensures Owns(st', owner', h) {
      assert Owns(st, owner, h);
      if h != Ticket(st.tickets) {
        UntouchedOwns(st, st', owner, owner', h);
      }
    }
  }

  function Given(owner: map<Ptr, Holder>, xs: set<Ptr>, h: Holder): map<Ptr, Holder> {
    map x | x in owner :: if x in xs then h else owner[x]
  }

  /** An id gives what it owns to the garbage and owns nothing from then on. */
  lemma HandOverOwners(st: State, id: NodeId, p: Ptr, ph: Phase, owner: map<Ptr, Holder>)
    requires Resolved(st) && Owners(st, owner) && id in st.phase && p in st.mem
    requires OwnedBy(st, Entry(id)) == Owned(st.mem[p]) && (ph.Abandoned? || ph.Retired?)
    ensures Owners(SetPhase(Retire(st, p), id, ph),
                   Given(owner, Owned(st.mem[p]), Ticket(st.tickets)))
  {
    var xs := Owned(st.mem[p]);
    var st', owner' := SetPhase(Retire(st, p), id, ph), Given(owner, xs, Ticket(st.tickets));
    assert Owns(st, owner, Entry(id)) && Owns(st, owner, Ticket(st.tickets));
    forall h: Holder ensures Owns(st', owner', h) {
      assert Owns(st, owner, h);
      if h != Entry(id) && h != Ticket(st.tickets) {
        UntouchedOwns(st, st', owner, owner', h);
      }
    }
  }

  /** q is new and goes to at; xs pass from one holder to another; nothing else changes. */
  ghost predicate Passes(st: State, st': State, q: Ptr, at: Holder, xs: set<Ptr>, from: Holder, to: Holder) {
    && q !in st.mem && st'.mem.Keys == st.mem.Keys + {q}
    && from != to && (at == from || at == to) && xs <= OwnedBy(st, from)
    && OwnedBy(st', from) == (OwnedBy(st, from) - xs) + (if at == from then {q} else {})
    && OwnedBy(st', to) == OwnedBy(st, to) + xs + (if at == to then {q} else {})
    && forall h: Holder :: h != from && h != to ==> Untouched(st, st', h)
  }

  /** The same on the level of sets: s is what h owns before, s' afterwards. */
  lemma PassSet(owner: map<Ptr, Holder>, q: Ptr, at: Holder, xs: set<Ptr>, from: Holder, to: Holder,
                h: Holder, s: set<Ptr>, s': set<Ptr>)
    requires q !in owner && from != to && forall x :: x in xs ==> x in owner && owner[x] == from
    requires forall x :: x in s <==> x in owner && owner[x] == h
    requires s' == (if h == from then s - xs else if h == to then s + xs else s) + (if h == at then {q} else {})
    ensures var owner' := Given(owner, xs, to)[q := at];
            forall x :: x in s' <==> x in owner' && owner'[x] == h
  {
  }

  lemma PassOwners(st: State, st': State, owner: map<Ptr, Holder>, q: Ptr, at: Holder,
                   xs: set<Ptr>, from: Holder, to: Holder)
    requires Owners(st, owner) && Passes(st, st', q, at, xs, from, to)
    ensures Owners(st', Given(owner, xs, to)[q := at])
  {
    var owner' := Given(owner, xs, to)[q := at];
    assert Owns(st, owner, from);
    forall h: Holder ensures Owns(st', owner', h) {
      assert Owns(st, owner, h);
      if h != from && h != to {
        assert Untouched(st, st', h);
        UntouchedSame(st, st', h);
      }
      PassSet(owner, q, at, xs, from, to, h, OwnedBy(st, h), OwnedBy(st', h));
    }
  }

  /** The new base array goes to the entry, the old chain to the garbage. */
  lemma ConsolidateOwners(st: State, id: NodeId, q: Ptr, m: Meta, owner: map<Ptr, Holder>)
    requires Resolved(st) && Owners(st, owner) && HasPhase(st, id, Live) && id in st.table
    requires q !in st.mem && Clean(st.mem[st.table[id]])
    ensures var p := st.table[id];
            Owners(Retire(Put(st, id, Base(q, m)), p),
                   Given(owner, Owned(st.mem[p]), Ticket(st.tickets))[q := Entry(id)])
  {
    var p := st.table[id];
    var st' := Retire(Put(st, id, Base(q, m)), p);
    PassOwners(st, st', owner, q, Entry(id), Owned(st.mem[p]), Entry(id), Ticket(st.tickets));
  }

  /** The left node takes over the removed node, whose entry keeps the remove record. */
  lemma MergeOwners(st: State, id: NodeId, t: Tree, removedId: NodeId, owner: map<Ptr, Holder>)
    requires Resolved(st) && Owners(st, owner) && HasPhase(st, id, Live) && id in st.table && id != removedId
    requires HasPhase(st, removedId, Removed) && removedId in st.table && t.p !in st.mem
    requires st.mem[st.table[removedId]].Remove? && st.mem[st.table[removedId]].p == st.table[removedId]
    requires Sound(st.mem[st.table[removedId]])
    requires Whole(t) == {t.p} + Whole(st.mem[st.table[id]]) + Owned(st.mem[st.table[removedId]].child)
    ensures Owners(SetPhase(Put(st, id, t), removedId, Merged),
                   Given(owner, Owned(st.mem[st.table[removedId]].child), Entry(id))[t.p := Entry(id)])
  {
    var xs := Owned(st.mem[st.table[removedId]].child);
    var st' := SetPhase(Put(st, id, t), removedId, Merged);
    assert OwnedBy(st, Entry(removedId)) == {st.table[removedId]} + xs;
    PassOwners(st, st', owner, t.p, Entry(id), xs, Entry(removedId), Entry(id));
  }

  lemma RemoveAbortOwners(st: State, id: NodeId, owner: map<Ptr, Holder>)
    requires Resolved(st) && Owners(st, owner) && HasPhase(st, id, Live) && id in st.table
    requires var a := st.mem[st.table[id]];
             && a.Abort? && Sound(a) && a.p in st.mem && st.mem[a.p] == a
             && a.child.p in st.mem && st.mem[a.child.p] == a.child
    ensures var a := st.mem[st.table[id]];
            Owners(Retire(st.(table := st.table[id := a.child.p]), a.p), owner[a.p := Ticket(st.tickets)])
  {
    var a, n := st.mem[st.table[id]], Ticket(st.tickets);
    var st', owner' := Retire(st.(table := st.table[id := a.child.p]), a.p), owner[a.p := n];
    assert Owns(st, owner, Entry(id)) && Owns(st, owner, n);
    assert OwnedBy(st', Entry(id)) == Owned(a.child);
    forall h: Holder ensures Owns(st', owner', h) {
      assert Owns(st, owner, h);
      if h != Entry(id) && h != n {
        UntouchedOwns(st, st', owner, owner', h);
      }
    }
  }

  lemma FreeOwners(st: State, ticket: nat, owner: map<Ptr, Holder>)
    requires Shape(st) && Owners(st, owner) && ticket in st.garbage
    ensures Owners(Next(st, Free(ticket)), Given(owner, Owned(st.mem[st.garbage[ticket]]), Pile))
  {
    var t := st.mem[st.garbage[ticket]];
    var st', owner' := Next(st, Free(ticket)), Given(owner, Owned(t), Pile);
    assert Owns(st, owner, Ticket(ticket)) && Owns(st, owner, Pile);
    forall h: Holder ensures Owns(st', owner', h) {
      assert Owns(st, owner, h);
      if h != Ticket(ticket) && h != Pile && !(t.Remove? && h == Entry(t.id)) {
        UntouchedOwns(st, st', owner, owner', h);
      }
    }
  }

  /** Loads, the root and the ids indexed so far own nothing. */
  lemma OwnersIgnore(st: State, st': State, owner: map<Ptr, Holder>)
    requires Owners(st, owner)
    requires st' == st.(loads := st'.loads, root := st'.root, indexed := st'.indexed)
    ensures Owners(st', owner)
  {
    forall h: Holder ensures Owns(st', owner, h) {
      assert Owns(st, owner, h) && OwnedBy(st', h) == OwnedBy(st, h);
    }
  }

  // ----- the shape after each step -----

  lemma PutShape(st: State, id: NodeId, t: Tree)
    requires Shape(st) && HasPhase(st, id, Live) && t.p !in st.mem
    requires ChildrenStored(st.mem, t) && Sound(t) && !t.Remove?
    ensures Shape(Put(st, id, t))
  {
    StoreKeepsMemory(st.mem, t);
  }

  lemma PutPhaseShape(st: State, id: NodeId, t: Tree, other: NodeId, ph: Phase)
    requires Shape(Put(st, id, t)) && other != id
    requires if ph.Live? then HasPhase(st, other, Pending) else ph.Merged? && HasPhase(st, other, Removed)
    ensures Shape(SetPhase(Put(st, id, t), other, ph))
  {
  }

  lemma RemoveShape(st: State, id: NodeId, q: Ptr)
    requires Shape(st) && HasPhase(st, id, Live) && q !in st.mem && st.mem[st.table[id]].Base?
    ensures var t := Remove(q, id, st.mem[st.table[id]]); Shape(SetPhase(Put(st, id, t), id, Removed))
  {
    StoreKeepsMemory(st.mem, Remove(q, id, st.mem[st.table[id]]));
  }

  lemma StoreShape(st: State, t: Tree)
    requires Shape(st) && t.p !in st.mem && ChildrenStored(st.mem, t) && Sound(t)
    ensures Shape(Store(st, t))
  {
    StoreKeepsMemory(st.mem, t);
  }

  lemma SetUpShape(st: State, id: NodeId, t: Tree, prepared: Prepared)
    requires Shape(st) && id !in st.phase && t.p !in st.mem && t.Base?
    ensures Shape(SetUp(st, id, t, prepared))
  {
    StoreKeepsMemory(st.mem, t);
  }

  lemma RetireShape(st: State, p: Ptr)
    requires Shape(st) && p in st.mem
    requires st.mem[p].Remove? ==>
               HasPhase(st, st.mem[p].id, Retired) || HasPhase(st, st.mem[p].id, Abandoned)
    ensures Shape(Retire(st, p))
  {
    forall id | id in st.table && HasPhase(st, id, Retired) ensures Waiting(Retire(st, p), st.table[id]) {
      var k :| k in st.garbage && st.garbage[k] == st.table[id];
      assert Retire(st, p).garbage[k] == st.table[id];
    }
  }

  lemma PublishShape(st: State, id: NodeId, ph: Phase)
    requires Shape(st) && HasPhase(st, id, Pending) && (ph.Live? || ph.Abandoned?)
    ensures Shape(SetPhase(st, id, ph))
  {
  }

  /** The remove record goes to the garbage together with its id. */
  lemma HandOverShape(st: State, id: NodeId)
    requires Shape(st) && HasPhase(st, id, Merged)
    ensures Shape(Retire(SetPhase(st, id, Retired), st.table[id]))
  {
    var st' := Retire(SetPhase(st, id, Retired), st.table[id]);
    forall x | x in st'.table && HasPhase(st', x, Retired) ensures Waiting(st', st'.table[x]) {
      if x == id {
        assert st'.garbage[st.tickets] == st'.table[x];
      } else {
        var k :| k in st.garbage && st.garbage[k] == st.table[x];
        assert st'.garbage[k] == st.table[x];
      }
    }
  }

  /** A remove record is freed together with its table entry. */
  lemma FreeShape(st: State, ticket: nat)
    requires Shape(st) && ticket in st.garbage
    ensures Shape(Next(st, Free(ticket)))
  {
    var st', t := Next(st, Free(ticket)), st.mem[st.garbage[ticket]];
    forall x | x in st'.table && HasPhase(st', x, Retired) ensures Waiting(st', st'.table[x]) {
      var k :| k in st.garbage && st.garbage[k] == st.table[x];
      assert k != ticket;
      assert st'.garbage[k] == st.table[x];
    }
  }

  lemma ShapeResolved(st: State)
    requires Shape(st)
    ensures Resolved(st)
  {
  }

  // ----- every step -----

  lemma DiscardStep(st: State, q: Ptr, owner: map<Ptr, Holder>)
    requires Shape(st) && Owners(st, owner) && q !in st.mem
    ensures Shape(Discard(st, q)) && Owners(Discard(st, q), owner[q := Pile])
  {
    StoreShape(st, Base(q, NOTHING));
    DiscardOwners(st, q, owner);
  }

  lemma PutStep(st: State, id: NodeId, p: Ptr, t: Tree, owner: map<Ptr, Holder>)
    requires Shape(st) && Owners(st, owner) && Postable(st, id, p, t.p) && Wins(st, id, p)
    requires (t.Delta? || t.Abort?) && t.child == st.mem[p]
    ensures Shape(Put(st, id, t)) && Owners(Put(st, id, t), owner[t.p := Entry(id)])
  {
    WinnerIsLive(st, id, p, t.p);
    PutShape(st, id, t);
    PutOwners(st, id, t, owner);
  }

  lemma InstallStep(st: State, id: NodeId, p: Ptr, t: Tree, owner: map<Ptr, Holder>)
    returns (owner': map<Ptr, Holder>)
    requires Shape(st) && Owners(st, owner) && Postable(st, id, p, t.p)
    requires (t.Delta? || t.Abort?) && t.child == st.mem[p]
    ensures Shape(Install(st, id, p, t)) && Owners(Install(st, id, p, t), owner')
  {
    if Wins(st, id, p) {
      PutStep(st, id, p, t, owner);
      owner' := owner[t.p := Entry(id)];
    } else {
      DiscardStep(st, t.p, owner);
      owner' := owner[t.p := Pile];
    }
  }

  lemma SplitStep(st: State, step: Step, owner: map<Ptr, Holder>) returns (owner': map<Ptr, Holder>)
    requires Shape(st) && Owners(st, owner) && step.CasSplit? && Enabled(st, step)
    ensures Shape(Next(st, step)) && Owners(Next(st, step), owner')
  {
    var id, p, newId := step.id, step.p, step.newId;
    var t := Delta(step.q, SplitAt(st.prepared[newId].key, newId), st.mem[p]);
    owner' := InstallStep(st, id, p, t, owner);
    if Wins(st, id, p) {
      WinnerIsLive(st, id, p, step.q);
      PutPhaseShape(st, id, t, newId, Live);
      PhaseOwners(Put(st, id, t), newId, Live, owner');
    }
  }

  lemma RetireNewStep(st: State, t: Tree, owner: map<Ptr, Holder>)
    requires Shape(st) && Owners(st, owner) && t.p !in st.mem && t.Base?
    ensures Shape(Retire(Store(st, t), t.p))
    ensures Owners(Retire(Store(st, t), t.p), owner[t.p := Ticket(st.tickets)])
  {
    StoreShape(st, t);
    RetireShape(Store(st, t), t.p);
    RetireNewOwners(st, t, owner);
  }

  lemma ConsolidateStep(st: State, id: NodeId, p: Ptr, q: Ptr, owner: map<Ptr, Holder>)
    returns (owner': map<Ptr, Holder>)
    requires Shape(st) && Owners(st, owner) && Postable(st, id, p, q)
    ensures var st' := Next(st, CasConsolidate(id, p, q)); Shape(st') && Owners(st', owner')
  {
    var t := Base(q, MetaOf(st.mem[p]));
    if Wins(st, id, p) {
      WinnerIsLive(st, id, p, q);
      PutShape(st, id, t);
      RetireShape(Put(st, id, t), p);
      ConsolidateOwners(st, id, q, t.meta, owner);
      owner' := Given(owner, Owned(st.mem[p]), Ticket(st.tickets))[q := Entry(id)];
    } else {
      RetireNewStep(st, t, owner);
      owner' := owner[q := Ticket(st.tickets)];
    }
  }

  lemma SetUpStep(st: State, id: NodeId, t: Tree, prepared: Prepared, owner: map<Ptr, Holder>)
    requires Shape(st) && Owners(st, owner) && id !in st.phase && t.p !in st.mem && t.Base?
    ensures Shape(SetUp(st, id, t, prepared)) && Owners(SetUp(st, id, t, prepared), owner[t.p := Entry(id)])
  {
    SetUpShape(st, id, t, prepared);
    SetUpOwners(st, id, t, prepared, owner);
  }

  lemma RootStep(st: State, newId: NodeId, owner: map<Ptr, Holder>)
    requires Shape(st) && Owners(st, owner) && Enabled(st, CasRoot(newId))
    ensures Shape(Next(st, CasRoot(newId))) && Owners(Next(st, CasRoot(newId)), owner)
  {
    PublishShape(st, newId, Live);
    PhaseOwners(st, newId, Live, owner);
    if st.root == st.prepared[newId].oldRoot {
      OwnersIgnore(SetPhase(st, newId, Live), Next(st, CasRoot(newId)), owner);
    }
  }

  /** The fake remove record of an id that was never published. */
  lemma RetireBoth(st: State, r: Tree, sibling: Ptr)
    requires Shape(st) && r.p !in st.mem && r.Remove? && Sound(r) && Stored(st.mem, r.child)
    requires HasPhase(st, r.id, Abandoned) && sibling in st.mem && st.mem[sibling].Base?
    ensures Shape(Retire(Retire(Store(st, r), r.p), sibling))
  {
    StoreShape(st, r);
    RetireShape(Store(st, r), r.p);
    RetireShape(Retire(Store(st, r), r.p), sibling);
  }

  lemma AbandonShape(st: State, newId: NodeId, q: Ptr)
    requires Shape(st) && HasPhase(st, newId, Pending) && Resolves(st, newId) && q !in st.mem
    ensures var sibling := st.table[newId];
            var r := Remove(q, newId, st.mem[sibling]);
            Shape(SetPhase(Retire(Retire(Store(st, r), q), sibling), newId, Abandoned))
  {
    var sibling := st.table[newId];
    var r := Remove(q, newId, st.mem[sibling]);
    assert EntryOk(st.phase[newId], newId, st.mem[sibling]) && Stored(st.mem, st.mem[sibling]);
    assert st.mem[sibling].p == sibling;
    PublishShape(st, newId, Abandoned);
    var st1 := SetPhase(st, newId, Abandoned);
    RetireBoth(st1, r, sibling);
    assert Retire(Retire(Store(st1, r), q), sibling)
        == SetPhase(Retire(Retire(Store(st, r), q), sibling), newId, Abandoned);
  }

  lemma AbandonOwners(st: State, newId: NodeId, q: Ptr, owner: map<Ptr, Holder>)
    returns (owner': map<Ptr, Holder>)
    requires Resolved(st) && Owners(st, owner) && Enabled(st, Abandon(newId, q))
    requires st.mem[st.table[newId]].Base?
    ensures Owners(Next(st, Abandon(newId, q)), owner')
  {
    var sibling := st.table[newId];
    var r := Remove(q, newId, st.mem[sibling]);
    var st1 := Retire(Store(st, r), q);
    RetireNewOwners(st, r, owner);
    HandOverOwners(st1, newId, sibling, Abandoned, owner[q := Ticket(st.tickets)]);
    owner' := Given(owner[q := Ticket(st.tickets)], Owned(st.mem[sibling]), Ticket(st.tickets + 1));
  }

  lemma RemoveStep(st: State, id: NodeId, p: Ptr, q: Ptr, owner: map<Ptr, Holder>)
    returns (owner': map<Ptr, Holder>)
    requires Shape(st) && Owners(st, owner) && Enabled(st, CasRemove(id, p, q))
    ensures var st' := Next(st, CasRemove(id, p, q)); Shape(st') && Owners(st', owner')
  {
    if Wins(st, id, p) {
      var t := Remove(q, id, st.mem[p]);
      WinnerIsLive(st, id, p, q);
      RemoveShape(st, id, q);
      PutOwners(st, id, t, owner);
      owner' := owner[q := Entry(id)];
      PhaseOwners(Put(st, id, t), id, Removed, owner');
    } else {
      DiscardStep(st, q, owner);
      owner' := owner[q := Pile];
    }
  }

  /** A winning merge takes over a node that is still removed, by MergeFindsRemoved; the
      record discarded otherwise never owned anything. */
  lemma MergeWins(st: State, id: NodeId, p: Ptr, q: Ptr, rp: Ptr, key: Key, owner: map<Ptr, Holder>)
    requires Shape(st) && Owners(st, owner) && Postable(st, id, p, q) && Wins(st, id, p)
    requires rp in st.mem && st.mem[rp].Remove? && st.mem[rp].id != id
    requires HasPhase(st, st.mem[rp].id, Removed) && Wins(st, st.mem[rp].id, rp)
    ensures var r := st.mem[rp];
            var st' := SetPhase(Put(st, id, Merge(q, key, r.id, st.mem[p], r.child)), r.id, Merged);
            Shape(st') && Owners(st', Given(owner, Owned(r.child), Entry(id))[q := Entry(id)])
  {
    var r := st.mem[rp];
    var t := Merge(q, key, r.id, st.mem[p], r.child);
    WinnerIsLive(st, id, p, q);
    StoredOwned(st.mem, r);
    assert Owns(st, owner, Entry(id)) && Owns(st, owner, Entry(r.id));
    assert OwnedBy(st, Entry(r.id)) == {r.p} + Owned(r.child);
    PutShape(st, id, t);
    PutPhaseShape(st, id, t, r.id, Merged);
    MergeOwners(st, id, t, r.id, owner);
  }

  lemma MergeStep(st: State, step: Step, owner: map<Ptr, Holder>) returns (owner': map<Ptr, Holder>)
    requires Shape(st) && Links(st) && Owners(st, owner) && step.CasMerge? && Enabled(st, step)
    ensures Shape(Next(st, step)) && Owners(Next(st, step), owner')
  {
    if Wins(st, step.id, step.p) {
      MergeFindsRemoved(st, step.id, step.p, step.q, step.rp);
      MergeWins(st, step.id, step.p, step.q, step.rp, MetaOf(st.mem[step.p]).high.key, owner);
      owner' := Given(owner, Owned(st.mem[step.rp].child), Entry(step.id))[step.q := Entry(step.id)];
    } else {
      DiscardStep(st, step.q, owner);
      owner' := owner[step.q := Pile];
    }
  }

  lemma IndexInsertStep(st: State, step: Step, owner: map<Ptr, Holder>) returns (owner': map<Ptr, Holder>)
    requires Shape(st) && Owners(st, owner) && step.CasIndexInsert? && Enabled(st, step)
    ensures Shape(Next(st, step)) && Owners(Next(st, step), owner')
  {
    var l := step.load;
    var t := Delta(step.q, IndexInsert(SplitSep(st, l.lp)), st.mem[l.pp]);
    owner' := InstallStep(st, l.parent, l.pp, t, owner);
    OwnersIgnore(Install(st, l.parent, l.pp, t), Next(st, step), owner');
  }

  /** The parent's record goes on top, the remove record of the id to the garbage. */
  lemma DeleteWins(st: State, parent: NodeId, p: Ptr, t: Tree, gone: NodeId, owner: map<Ptr, Holder>)
    requires Shape(st) && Owners(st, owner) && Postable(st, parent, p, t.p) && Wins(st, parent, p)
    requires t.Delta? && t.child == st.mem[p] && HasPhase(st, gone, Merged) && gone != parent
    ensures var st' := Unindexed(st, parent, t, gone);
            Shape(st') && Owners(st', Given(owner[t.p := Entry(parent)], {st.table[gone]}, Ticket(st.tickets)))
  {
    var st1 := Put(st, parent, t);
    PutStep(st, parent, p, t, owner);
    HandOverShape(st1, gone);
    HandOverStep(st1, gone, owner[t.p := Entry(parent)]);
    assert Unindexed(st, parent, t, gone) == Retire(SetPhase(st1, gone, Retired), st1.table[gone]);
  }

  lemma HandOverStep(st: State, gone: NodeId, owner: map<Ptr, Holder>)
    requires Shape(st) && Owners(st, owner) && HasPhase(st, gone, Merged)
    ensures Owners(Retire(SetPhase(st, gone, Retired), st.table[gone]),
                   Given(owner, {st.table[gone]}, Ticket(st.tickets)))
  {
    var p := st.table[gone];
    ShapeResolved(st);
    assert EntryOk(st.phase[gone], gone, st.mem[p]) && st.mem[p].p == p;
    HandOverOwners(st, gone, p, Retired, owner);
    assert SetPhase(Retire(st, p), gone, Retired) == Retire(SetPhase(st, gone, Retired), p);
  }

  lemma IndexDeleteStep(st: State, step: Step, owner: map<Ptr, Holder>) returns (owner': map<Ptr, Holder>)
    requires Shape(st) && Links(st) && Owners(st, owner) && step.CasIndexDelete? && Enabled(st, step)
    ensures Shape(Next(st, step)) && Owners(Next(st, step), owner')
  {
    var parent, p, q, m := step.parent, step.p, step.q, st.mem[step.mp];
    if Wins(st, parent, p) {
      DeleteFindsMerged(st, parent, p, q, step.mp);
      var t := Delta(q, IndexDelete(Sep(m.key, m.removedId)), st.mem[p]);
      DeleteWins(st, parent, p, t, m.removedId, owner);
      owner' := Given(owner[q := Entry(parent)], {st.table[m.removedId]}, Ticket(st.tickets));
    } else {
      DiscardStep(st, q, owner);
      owner' := owner[q := Pile];
    }
  }

  lemma UnabortShape(st: State, id: NodeId)
    requires Shape(st) && Enabled(st, RemoveAbort(id))
    ensures Shape(Next(st, RemoveAbort(id)))
  {
    var a := st.mem[st.table[id]];
    assert Stored(st.mem, a) && Stored(st.mem, a.child) && Sound(a) && EntryOk(st.phase[id], id, a);
    var st1 := st.(table := st.table[id := a.child.p]);
    RetireShape(st1, a.p);
  }

  lemma RemoveAbortStep(st: State, id: NodeId, owner: map<Ptr, Holder>)
    requires Shape(st) && Owners(st, owner) && Enabled(st, RemoveAbort(id))
    ensures var a := st.mem[st.table[id]];
            Owners(Next(st, RemoveAbort(id)), owner[a.p := Ticket(st.tickets)])
  {
    var a := st.mem[st.table[id]];
    assert Stored(st.mem, a) && Stored(st.mem, a.child) && Sound(a) && EntryOk(st.phase[id], id, a);
    ShapeResolved(st);
    RemoveAbortOwners(st, id, owner);
  }

  ghost predicate OnChain(step: Step) {
    step.CasData? || step.CasConsolidate? || step.CasAbort? || step.CasRemove? || step.RemoveAbort?
  }

  ghost predicate AcrossNodes(step: Step) {
    step.CasIndexInsert? || step.CasIndexDelete? || step.CasMerge? || step.CasSplit?
  }

  /** Steps on one node's own chain. */
  lemma ChainStep(st: State, step: Step, owner: map<Ptr, Holder>) returns (owner': map<Ptr, Holder>)
    requires Shape(st) && Owners(st, owner) && Enabled(st, step) && OnChain(step)
    ensures Shape(Next(st, step)) && Owners(Next(st, step), owner')
  {
    match step {
      case CasData(id, p, q) => owner' := InstallStep(st, id, p, Delta(q, Data, st.mem[p]), owner);
      case CasAbort(id, p, q) => owner' := InstallStep(st, id, p, Abort(q, st.mem[p]), owner);
      case CasConsolidate(id, p, q) => owner' := ConsolidateStep(st, id, p, q, owner);
      case CasRemove(id, p, q) => owner' := RemoveStep(st, id, p, q, owner);
      case RemoveAbort(id) =>
        UnabortShape(st, id);
        RemoveAbortStep(st, id, owner);
        owner' := owner[st.mem[st.table[id]].p := Ticket(st.tickets)];
    }
  }

  /** Steps that involve a second node. */
  lemma AcrossStep(st: State, step: Step, owner: map<Ptr, Holder>) returns (owner': map<Ptr, Holder>)
    requires Shape(st) && Links(st) && Owners(st, owner) && Enabled(st, step) && AcrossNodes(step)
    ensures Shape(Next(st, step)) && Owners(Next(st, step), owner')
  {
    match step {
      case CasSplit(_, _, _, _) => owner' := SplitStep(st, step, owner);
      case CasMerge(_, _, _, _) => owner' := MergeStep(st, step, owner);
      case CasIndexInsert(_, _) => owner' := IndexInsertStep(st, step, owner);
      case CasIndexDelete(_, _, _, _) => owner' := IndexDeleteStep(st, step, owner);
    }
  }

  lemma OtherStep(st: State, step: Step, owner: map<Ptr, Holder>) returns (owner': map<Ptr, Holder>)
    requires Shape(st) && Owners(st, owner) && Enabled(st, step)
    requires !OnChain(step) && !AcrossNodes(step)
    ensures Shape(Next(st, step)) && Owners(Next(st, step), owner')
  {
    ShapeResolved(st);
    match step {
      case Load(_, _, _) =>
        OwnersIgnore(st, Next(st, step), owner);
        owner' := owner;
      case RetirePrivate(q) =>
        RetireNewStep(st, Base(q, NOTHING), owner);
        owner' := owner[q := Ticket(st.tickets)];
      case PrepareSibling(newId, q, p, key) =>
        SetUpStep(st, newId, Base(q, RightPart(st.mem[p].meta, key)), Sibling(p, key), owner);
        owner' := owner[q := Entry(newId)];
      case PrepareRoot(newId, q, l) =>
        var sep := SplitSep(st, l.lp);
        SetUpStep(st, newId, Base(q, RootMeta(MetaOf(st.mem[l.lp]).level, sep)), NewRoot(l.child, sep), owner);
        owner' := owner[q := Entry(newId)];
      case CasRoot(newId) =>
        RootStep(st, newId, owner);
        owner' := owner;
      case Abandon(newId, q) =>
        AbandonShape(st, newId, q);
        owner' := AbandonOwners(st, newId, q, owner);
      case Free(ticket) =>
        FreeShape(st, ticket);
        FreeOwners(st, ticket, owner);
        owner' := Given(owner, Owned(st.mem[st.garbage[ticket]]), Pile);
    }
  }

  /** Every step keeps each node with exactly one holder. */
  lemma StepKeepsInv(st: State, step: Step)
    requires Inv(st) && Enabled(st, step)
    ensures Inv(Next(st, step))
  {
    var owner :| Owners(st, owner);
    StepKeepsLinks(st, step);
    var owner': map<Ptr, Holder>;
    if OnChain(step) {
      owner' := ChainStep(st, step, owner);
    } else if AcrossNodes(step) {
      owner' := AcrossStep(st, step, owner);
    } else {
      owner' := OtherStep(st, step, owner);
    }
    assert Owners(Next(st, step), owner');
  }

  // ----- runs -----

  const ROOT_ID: NodeId := 1
  const FIRST_LEAF_ID: NodeId := 2

  /** InitNodeLayout: an inner root with the placeholder of the first, empty leaf. */
  ghost predicate Init(st: State) {
    var root, leaf := Base(0, Meta(1, NegInf, PosInf, {})), Base(1, Meta(0, NegInf, PosInf, {}));
    && st.mem == map[0 := root, 1 := leaf] && st.table == map[ROOT_ID := 0, FIRST_LEAF_ID := 1]
    && st.root == ROOT_ID && st.phase == map[ROOT_ID := Live, FIRST_LEAF_ID := Live]
    && st.places == map[ROOT_ID := Place(1, NegInf), FIRST_LEAF_ID := Place(0, NegInf)]
    && st.prepared == map[] && st.loads == {} && st.indexed == {} && st.garbage == map[] && st.freed == {}
  }

  const INIT_VIEW: View := map[ROOT_ID := Meta(1, NegInf, PosInf, {}), FIRST_LEAF_ID := Meta(0, NegInf, PosInf, {})]

  lemma InitView(st: State)
    requires Init(st)
    ensures ViewOf(st) == INIT_VIEW
  {
  }

  lemma InitOrdered(places: map<NodeId, Place>)
    requires places == map[ROOT_ID := Place(1, NegInf), FIRST_LEAF_ID := Place(0, NegInf)]
    ensures Ordered(INIT_VIEW, places, 1)
  {
  }

  lemma InitCore(st: State)
    requires Init(st)
    ensures CoreOf(st)
  {
    InitView(st);
    InitOrdered(st.places);
  }

  lemma InitHistory(st: State)
    requires Init(st)
    ensures History(st)
  {
  }

  lemma InitOwners(st: State)
    requires Init(st)
    ensures Owners(st, map[0 := Entry(ROOT_ID), 1 := Entry(FIRST_LEAF_ID)])
  {
    var owner := map[0 := Entry(ROOT_ID), 1 := Entry(FIRST_LEAF_ID)];
    forall h: Holder ensures Owns(st, owner, h) {
    }
  }

  lemma InitEstablishesInv(st: State)
    requires Init(st)
    ensures Inv(st)
  {
    InitCore(st);
    InitHistory(st);
    InitOwners(st);
  }

  ghost predicate Run(sts: seq<State>, steps: seq<Step>) {
    && |sts| == |steps| + 1 && Init(sts[0])
    && forall i :: 0 <= i < |steps| ==> Enabled(sts[i], steps[i]) && sts[i + 1] == Next(sts[i], steps[i])
  }

  ghost predicate HeldOnce(st: State, x: Ptr) {
    exists h: Holder :: x in OwnedBy(st, h) && forall g: Holder :: x in OwnedBy(st, g) ==> g == h
  }

  /** In every run each node is at all times in exactly one of: a reachable entry, one
      garbage root's owned nodes, or the freed ones. */
  lemma {:induction false} RunsKeepOneHolder(sts: seq<State>, steps: seq<Step>, n: nat)
    requires Run(sts, steps) && n < |sts|
    ensures Inv(sts[n])
    ensures forall x :: x in sts[n].mem ==> HeldOnce(sts[n], x)
  {
    if n == 0 {
      InitEstablishesInv(sts[0]);
    } else {
      RunsKeepOneHolder(sts, steps, n - 1);
      StepKeepsInv(sts[n - 1], steps[n - 1]);
    }
    OneHolder(sts[n]);
  }

  lemma OneHolder(st: State)
    requires Inv(st)
    ensures forall x :: x in st.mem ==> HeldOnce(st, x)
  {
    var owner :| Owners(st, owner);
    forall x | x in st.mem ensures HeldOnce(st, x) {
      assert Owns(st, owner, owner[x]);
      forall g: Holder | x in OwnedBy(st, g) ensures g == owner[x] {
        assert Owns(st, owner, g);
      }
    }
  }

  /** Freeing a garbage root frees no node a second time and none that an entry reaches. */
  lemma NeverFreedTwice(st: State, ticket: nat, id: NodeId)
    requires Inv(st) && Enabled(st, Free(ticket))
    ensures Owned(st.mem[st.garbage[ticket]]) !! st.freed
    ensures Owned(st.mem[st.garbage[ticket]]) !! OwnedBy(st, Entry(id))
  {
    var owner :| Owners(st, owner);
    assert Owns(st, owner, Ticket(ticket)) && Owns(st, owner, Pile) && Owns(st, owner, Entry(id));
  }

  /** Nothing below an entry is freed, and as long as a published id leads anywhere it leads
      to a node that is not freed, even after its remove record became garbage. */
  lemma EntriesAreNotFreed(st: State, id: NodeId)
    requires Inv(st) && Visible(st, id) && id in st.table
    ensures OwnedBy(st, Entry(id)) !! st.freed && st.table[id] !in st.freed
  {
    var owner :| Owners(st, owner);
    assert Owns(st, owner, Entry(id)) && Owns(st, owner, Pile);
    EntryHasHolder(st, id, owner);
  }

  lemma EntryHasHolder(st: State, id: NodeId, owner: map<Ptr, Holder>)
    requires Shape(st) && Owners(st, owner) && Visible(st, id) && id in st.table
    ensures st.table[id] in owner && owner[st.table[id]] != Pile
  {
    var p := st.table[id];
    assert st.mem[p].p == p;
    if st.phase[id].Retired? {
      var k :| k in st.garbage && st.garbage[k] == p;
      assert Owns(st, owner, Ticket(k)) && p in OwnedBy(st, Ticket(k));
    } else {
      assert Owns(st, owner, Entry(id)) && p in OwnedBy(st, Entry(id));
    }
  }

  // ----- merged, indexed and unindexed once -----

  /** Ids only move forward, and an indexed id stays known as indexed. */
  ghost predicate MovesOn(st: State, st': State) {
    && st.indexed <= st'.indexed && st.phase.Keys <= st'.phase.Keys
    && forall id :: id in st.phase ==> Rank(st.phase[id]) <= Rank(st'.phase[id])
  }

  lemma RemoveMovesOn(st: State, id: NodeId, p: Ptr, q: Ptr)
    requires Shape(st) && Enabled(st, CasRemove(id, p, q))
    ensures MovesOn(st, Next(st, CasRemove(id, p, q)))
  {
    if Wins(st, id, p) {
      WinnerIsLive(st, id, p, q);
    }
  }

  lemma MergeMovesOn(st: State, id: NodeId, p: Ptr, q: Ptr, rp: Ptr)
    requires Shape(st) && Links(st) && Enabled(st, CasMerge(id, p, q, rp))
    ensures MovesOn(st, Next(st, CasMerge(id, p, q, rp)))
  {
    if Wins(st, id, p) {
      MergeFindsRemoved(st, id, p, q, rp);
    }
  }

  lemma OtherMovesOn(st: State, step: Step)
    requires Enabled(st, step) && !step.CasRemove? && !step.CasMerge?
    ensures MovesOn(st, Next(st, step))
  {
  }

  lemma StepMovesOn(st: State, step: Step)
    requires Inv(st) && Enabled(st, step)
    ensures MovesOn(st, Next(st, step))
  {
    match step {
      case CasRemove(id, p, q) => RemoveMovesOn(st, id, p, q);
      case CasMerge(id, p, q, rp) => MergeMovesOn(st, id, p, q, rp);
      case _ => OtherMovesOn(st, step);
    }
  }

  lemma StepOfRun(sts: seq<State>, steps: seq<Step>, i: nat)
    requires Run(sts, steps) && i < |steps|
    ensures Inv(sts[i]) && Enabled(sts[i], steps[i]) && sts[i + 1] == Next(sts[i], steps[i])
  {
    RunsKeepOneHolder(sts, steps, i);
  }

  lemma MovesOnCompose(a: State, b: State, c: State)
    requires MovesOn(a, b) && MovesOn(b, c)
    ensures MovesOn(a, c)
  {
  }

  lemma RunStepMovesOn(sts: seq<State>, steps: seq<Step>, i: nat)
    requires Run(sts, steps) && i < |steps|
    ensures MovesOn(sts[i], sts[i + 1])
  {
    StepOfRun(sts, steps, i);
    StepMovesOn(sts[i], steps[i]);
  }

  lemma {:induction false} ChainMovesOn(sts: seq<State>, i: nat, j: nat)
    requires i <= j < |sts| && forall k :: 0 <= k < |sts| - 1 ==> MovesOn(sts[k], sts[k + 1])
    ensures MovesOn(sts[i], sts[j])
    decreases j
  {
    if i < j {
      ChainMovesOn(sts, i, j - 1);
      assert MovesOn(sts[j - 1], sts[j - 1 + 1]);
      MovesOnCompose(sts[i], sts[j - 1], sts[j]);
    }
  }

  lemma RunsMoveOn(sts: seq<State>, steps: seq<Step>, i: nat, j: nat)
    requires Run(sts, steps) && i <= j < |sts|
    ensures MovesOn(sts[i], sts[j])
  {
    forall k | 0 <= k < |sts| - 1 ensures MovesOn(sts[k], sts[k + 1]) {
      RunStepMovesOn(sts, steps, k);
    }
    ChainMovesOn(sts, i, j);
  }

  /** The id that a winning step of this kind merges, indexes or unindexes. */
  ghost predicate MergesId(st: State, step: Step, id: NodeId) {
    Enabled(st, step) && step.CasMerge? && Wins(st, step.id, step.p) && st.mem[step.rp].id == id
  }

  ghost predicate IndexesId(st: State, step: Step, id: NodeId) {
    Enabled(st, step) &&
    match step
    case CasIndexInsert(load, _) => Wins(st, load.parent, load.pp) && SplitSep(st, load.lp).id == id
    case CasRoot(newId) => st.root == st.prepared[newId].oldRoot && st.prepared[newId].sep.id == id
    case _ => false
  }

  ghost predicate UnindexesId(st: State, step: Step, id: NodeId) {
    Enabled(st, step) && step.CasIndexDelete? && Wins(st, step.parent, step.p) && st.mem[step.mp].removedId == id
  }

  lemma MergeDecides(st: State, step: Step, id: NodeId)
    requires Inv(st) && MergesId(st, step, id)
    ensures HasPhase(st, id, Removed) && HasPhase(Next(st, step), id, Merged)
  {
    MergeFindsRemoved(st, step.id, step.p, step.q, step.rp);
  }

  lemma DeleteDecides(st: State, step: Step, id: NodeId)
    requires Inv(st) && UnindexesId(st, step, id)
    ensures HasPhase(st, id, Merged) && HasPhase(Next(st, step), id, Retired)
  {
    DeleteFindsMerged(st, step.parent, step.p, step.q, step.mp);
  }

  lemma InsertDecides(st: State, step: Step, id: NodeId)
    requires Inv(st) && IndexesId(st, step, id)
    ensures id !in st.indexed && id in Next(st, step).indexed
  {
    if step.CasRoot? {
      RootIsFirst(st, step.newId);
    } else {
      InsertIsFirst(st, step.load, step.q);
    }
  }

  lemma MergeOfRun(sts: seq<State>, steps: seq<Step>, i: nat, id: NodeId)
    requires Run(sts, steps) && i < |steps| && MergesId(sts[i], steps[i], id)
    ensures HasPhase(sts[i], id, Removed) && HasPhase(sts[i + 1], id, Merged)
  {
    StepOfRun(sts, steps, i);
    MergeDecides(sts[i], steps[i], id);
  }

  lemma DeleteOfRun(sts: seq<State>, steps: seq<Step>, i: nat, id: NodeId)
    requires Run(sts, steps) && i < |steps| && UnindexesId(sts[i], steps[i], id)
    ensures HasPhase(sts[i], id, Merged) && HasPhase(sts[i + 1], id, Retired)
  {
    StepOfRun(sts, steps, i);
    DeleteDecides(sts[i], steps[i], id);
  }

  lemma InsertOfRun(sts: seq<State>, steps: seq<Step>, i: nat, id: NodeId)
    requires Run(sts, steps) && i < |steps| && IndexesId(sts[i], steps[i], id)
    ensures id !in sts[i].indexed && id in sts[i + 1].indexed
  {
    StepOfRun(sts, steps, i);
    InsertDecides(sts[i], steps[i], id);
  }

  /** In every run at most one merge wins for a removed node. */
  lemma MergedOnce(sts: seq<State>, steps: seq<Step>, i: nat, j: nat, id: NodeId)
    requires Run(sts, steps) && i < j < |steps| && MergesId(sts[i], steps[i], id)
    ensures !MergesId(sts[j], steps[j], id)
  {
    MergeOfRun(sts, steps, i, id);
    RunsMoveOn(sts, steps, i + 1, j);
    if MergesId(sts[j], steps[j], id) {
      MergeOfRun(sts, steps, j, id);
    }
  }

  /** And at most one insert of its separator into a parent, or into a new root, although
      threads help each other with snapshots of any age. */
  lemma IndexedOnce(sts: seq<State>, steps: seq<Step>, i: nat, j: nat, id: NodeId)
    requires Run(sts, steps) && i < j < |steps| && IndexesId(sts[i], steps[i], id)
    ensures !IndexesId(sts[j], steps[j], id)
  {
    InsertOfRun(sts, steps, i, id);
    RunsMoveOn(sts, steps, i + 1, j);
    if IndexesId(sts[j], steps[j], id) {
      InsertOfRun(sts, steps, j, id);
    }
  }

  /** And at most one delete of it, so its remove record is put into the garbage once. */
  lemma UnindexedOnce(sts: seq<State>, steps: seq<Step>, i: nat, j: nat, id: NodeId)
    requires Run(sts, steps) && i < j < |steps| && UnindexesId(sts[i], steps[i], id)
    ensures !UnindexesId(sts[j], steps[j], id)
  {
    DeleteOfRun(sts, steps, i, id);
    RunsMoveOn(sts, steps, i + 1, j);
    if UnindexesId(sts[j], steps[j], id) {
      DeleteOfRun(sts, steps, j, id);
    }
  }
}
