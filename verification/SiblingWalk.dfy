/** NavigateSiblingChain while the table changes under it: every hop loads the next id in
    whatever state the table is in by then. */
module SiblingWalk {
  import opened Keys
  import opened LeafChain
  import opened LeafLevel
  import opened MappingTable
  import LeafSplit

  function ChainOf(st: State, id: NodeId): Leaf
    requires id in st.table && st.table[id] in st.mem
  {
    st.mem[st.table[id]]
  }

  ghost predicate Loadable(st: State, id: NodeId) {
    id in st.visible && id in st.table && st.table[id] in st.mem
  }

  /** Ids stay published and merged, memory grows, and an id keeps its low key. */
  ghost predicate Onward(st: State, st': State) {
    && st.visible <= st'.visible && st.merged <= st'.merged
    && (forall p :: p in st.mem ==> p in st'.mem && st'.mem[p] == st.mem[p])
    && forall id :: id in st.visible && Loadable(st', id) ==>
         Loadable(st, id) && LowOf(ChainOf(st', id)) == LowOf(ChainOf(st, id))
  }

  lemma InstallOnward(st: State, id: NodeId, p: Ptr, q: Ptr, c: Leaf)
    requires Memory(st) && Snapshot(st, id, p, q) && LowOf(c) == LowOf(st.mem[p])
    ensures Onward(st, Install(st, id, p, q, c))
  {
  }

  lemma SplitOnward(st: State, step: Step)
    requires Memory(st) && Siblings(st) && Enabled(st, step) && step.CasSplit?
    ensures Onward(st, Next(st, step))
  {
    InstallOnward(st, step.id, step.p, step.q, SplitAtPrepared(st, step));
  }

  ghost function SplitAtPrepared(st: State, step: Step): Leaf
    requires Enabled(st, step) && step.CasSplit?
  {
    LeafSplit.SplitAt(st.mem[step.p], st.prepared[step.newId].key, step.newId)
  }

  lemma StepOnward(st: State, step: Step)
    requires Inv(st) && Enabled(st, step)
    ensures Onward(st, Next(st, step))
  {
    match step {
      case CasInsert(id, p, q, item, ip) => InstallOnward(st, id, p, q, Insert(item, ip, st.mem[p]));
      case CasDelete(id, p, q, item, ip) => InstallOnward(st, id, p, q, Delete(item, ip, st.mem[p]));
      case CasConsolidate(id, p, q, items) =>
        InstallOnward(st, id, p, q, Base(LowOf(st.mem[p]), items, HighOf(st.mem[p])));
      case CasSplit(_, _, _, _) => SplitOnward(st, step);
      case CasRemove(id, p, q) => InstallOnward(st, id, p, q, Remove(id, st.mem[p]));
      case CasMerge(id, p, q, removedId, rp) =>
        InstallOnward(st, id, p, q, Merge(HighOf(st.mem[p]).key, removedId, st.mem[p], st.mem[rp].child));
      case _ =>
    }
  }

  lemma OnwardCompose(a: State, b: State, c: State)
    requires Onward(a, b) && Onward(b, c)
    ensures Onward(a, c)
  {
  }

  lemma RunStepOnward(sts: seq<State>, steps: seq<Step>, i: nat)
    requires Run(sts, steps) && i < |steps|
    ensures Onward(sts[i], sts[i + 1])
  {
    InvAt(sts, steps, i);
    StepOnward(sts[i], steps[i]);
  }

  lemma {:induction false} RunOnward(sts: seq<State>, i: nat, j: nat)
    requires i <= j < |sts| && forall k :: 0 <= k < |sts| - 1 ==> Onward(sts[k], sts[k + 1])
    ensures Onward(sts[i], sts[j])
    decreases j
  {
    if i < j {
      RunOnward(sts, i, j - 1);
      assert Onward(sts[j - 1], sts[j - 1 + 1]);
      OnwardCompose(sts[i], sts[j - 1], sts[j]);
    }
  }

  lemma RunIsOnward(sts: seq<State>, steps: seq<Step>, i: nat, j: nat)
    requires Run(sts, steps) && i <= j < |sts|
    ensures Onward(sts[i], sts[j])
  {
    forall k | 0 <= k < |sts| - 1 ensures Onward(sts[k], sts[k + 1]) {
      RunStepOnward(sts, steps, k);
    }
    RunOnward(sts, i, j);
  }

  /** Epochs: an id recycled while an operation runs was merged before it began. */
  ghost predicate RecyclesOnlyOld(sts: seq<State>, steps: seq<Step>, a: nat) {
    && Run(sts, steps) && a < |sts|
    && forall i :: a <= i < |steps| && steps[i].RecycleId? ==> steps[i].id in sts[a].merged
  }

  lemma StaysResolved(st: State, step: Step, id: NodeId)
    requires Enabled(st, step) && id in st.table && !(step.RecycleId? && step.id == id)
    ensures id in Next(st, step).table
  {
  }

  lemma {:induction false} NotRecycled(sts: seq<State>, steps: seq<Step>, a: nat, i: nat, j: nat, id: NodeId)
    requires RecyclesOnlyOld(sts, steps, a) && a <= i <= j < |sts|
    requires id in sts[i].table && id !in sts[a].merged
    ensures id in sts[j].table
    decreases j
  {
    if i < j {
      NotRecycled(sts, steps, a, i, j - 1, id);
      StaysResolved(sts[j - 1], steps[j - 1], id);
    }
  }

  /** A published leaf that is not under a remove record is on the walk, and so is its next. */
  lemma NextOnWalk(st: State, id: NodeId)
    requires Inv(st) && Loadable(st, id) && !ChainOf(st, id).Remove?
    ensures OnWalk(st, id) && WF(ChainOf(st, id))
    ensures var high := HighOf(ChainOf(st, id));
            high.HighKey? ==> OnWalk(st, high.next) && Loadable(st, high.next)
                              && LowOf(ChainOf(st, high.next)) == LowKey(high.key)
  {
    var path: seq<NodeId> :| InvOn(st, path);
    var v := ViewOf(st);
    assert id in Elems(path);
    var i :| 0 <= i < |path| && path[i] == id;
    if HighOf(v[id]).HighKey? {
      assert i < |path| - 1;
      assert Linked(v, path, i);
      assert path[i + 1] in Elems(path);
    }
  }

  /** One hop: the next leaf as it is when it is loaded. */
  lemma HopBetween(st: State, st': State, id: NodeId)
    requires Inv(st) && Inv(st') && Onward(st, st')
    requires Loadable(st, id) && !ChainOf(st, id).Remove? && HighOf(ChainOf(st, id)).HighKey?
    requires HighOf(ChainOf(st, id)).next in st'.table
    ensures var high := HighOf(ChainOf(st, id));
            Loadable(st', high.next) && LowOf(ChainOf(st', high.next)) == LowKey(high.key)
  {
    NextOnWalk(st, id);
    TableInMemory(st', HighOf(ChainOf(st, id)).next);
  }

  lemma NextIsInTable(sts: seq<State>, steps: seq<Step>, a: nat, n: nat, m: nat, id: NodeId)
    requires RecyclesOnlyOld(sts, steps, a) && a <= n <= m < |sts|
    requires OnWalk(sts[n], id)
    ensures id in sts[m].table
  {
    RunIsOnward(sts, steps, a, n);
    NotRecycled(sts, steps, a, n, m, id);
  }

  /** What a run gives a walker between two of its loads. */
  ghost predicate Between(st: State, st': State) {
    Inv(st) && Inv(st') && Onward(st, st') && forall id :: OnWalk(st, id) ==> id in st'.table
  }

  ghost predicate Steady(sts: seq<State>, a: nat) {
    forall n, m :: a <= n <= m < |sts| ==> Between(sts[n], sts[m])
  }

  lemma RunIsSteady(sts: seq<State>, steps: seq<Step>, a: nat)
    requires RecyclesOnlyOld(sts, steps, a)
    ensures Steady(sts, a)
  {
    forall n, m | a <= n <= m < |sts| ensures Between(sts[n], sts[m]) {
      InvAt(sts, steps, n);
      InvAt(sts, steps, m);
      RunIsOnward(sts, steps, n, m);
      forall id | OnWalk(sts[n], id) ensures id in sts[m].table {
        NextIsInTable(sts, steps, a, n, m, id);
      }
    }
  }

  /** One hop: the next leaf as it is when it is loaded. */
  lemma Hop(st: State, st': State, id: NodeId)
    requires Between(st, st')
    requires Loadable(st, id) && !ChainOf(st, id).Remove? && HighOf(ChainOf(st, id)).HighKey?
    ensures var high := HighOf(ChainOf(st, id));
            Loadable(st', high.next) && LowOf(ChainOf(st', high.next)) == LowKey(high.key)
  {
    NextOnWalk(st, id);
    HopBetween(st, st', id);
  }

  lemma TableInMemory(st: State, id: NodeId)
    requires Inv(st) && id in st.table
    ensures st.table[id] in st.mem && WF(st.mem[st.table[id]])
  {
  }

  ghost function BoundsAbove(st: State, low: Low): set<Key> {
    set b | b in Bounds(st) && (low.LowKey? ==> low.key < b)
  }

  lemma HighKeyIsAbove(st: State, last: State, id: NodeId)
    requires Inv(st) && Onward(st, last) && Loadable(st, id) && HighOf(ChainOf(st, id)).HighKey?
    ensures var c := ChainOf(st, id);
            BoundsAbove(last, LowKey(HighOf(c).key)) < BoundsAbove(last, LowOf(c))
  {
    var c := ChainOf(st, id);
    TableInMemory(st, id);
    WFInfo(c);
    assert HighOf(c).key in BoundsAbove(last, LowOf(c));
  }

  lemma InvAt(sts: seq<State>, steps: seq<Step>, n: nat)
    requires Run(sts, steps) && n < |sts|
    ensures Inv(sts[n])
  {
    RunsPreserveContents(sts, steps, n);
  }

  /** The thread's loads fall on states of the run, in order. */
  ghost predicate Times(when: nat -> nat, a: nat, end: nat) {
    forall t: nat :: a <= when(t) < end && when(t) <= when(t + 1)
  }

  /** The hops of a walk whose loads see such states. */
  method Walk(sts: seq<State>, a: nat, when: nat -> nat, start: NodeId, k: Key) returns (id: NodeId, t: nat)
    requires Steady(sts, a) && Times(when, a, |sts|)
    requires Loadable(sts[when(0)], start) && AtOrAbove(k, LowOf(ChainOf(sts[when(0)], start)))
    ensures when(t) < |sts| && Loadable(sts[when(t)], id)
    ensures var c := ChainOf(sts[when(t)], id);
            && AtOrAbove(k, LowOf(c))
            && (c.Remove? || (OnWalk(sts[when(t)], id) && InRange(k, LowOf(c), HighOf(c))))
  {
    id, t := start, 0;
    var c := ChainOf(sts[when(0)], start);
    while !c.Remove? && HighOf(c).HighKey? && k >= HighOf(c).key
      invariant a <= when(t) < |sts| && Loadable(sts[when(t)], id)
      invariant c == ChainOf(sts[when(t)], id) && AtOrAbove(k, LowOf(c))
      decreases BoundsAbove(sts[|sts| - 1], LowOf(c))
    {
      assert Between(sts[when(t)], sts[when(t + 1)]) && Between(sts[when(t)], sts[|sts| - 1]);
      Hop(sts[when(t)], sts[when(t + 1)], id);
      HighKeyIsAbove(sts[when(t)], sts[|sts| - 1], id);
      id := HighOf(c).next;
      t := t + 1;
      c := ChainOf(sts[when(t)], id);
    }
    assert Between(sts[when(t)], sts[when(t)]);
    if !c.Remove? {
      NextOnWalk(sts[when(t)], id);
    }
  }

  /** NavigateSiblingChain: from any leaf that is not too far right the hops end, either at a
      leaf not above the key that is under a remove record when it is loaded, which the
      caller helps along, or at the one leaf of the walk that covers the key at the moment of its load. */
  method NavigateSiblingChain(sts: seq<State>, ghost steps: seq<Step>, a: nat, when: nat -> nat,
                              start: NodeId, k: Key) returns (id: NodeId, t: nat)
    requires RecyclesOnlyOld(sts, steps, a) && Times(when, a, |sts|)
    requires Loadable(sts[when(0)], start) && AtOrAbove(k, LowOf(ChainOf(sts[when(0)], start)))
    ensures when(t) < |sts| && Loadable(sts[when(t)], id)
    ensures var c := ChainOf(sts[when(t)], id);
            && AtOrAbove(k, LowOf(c))
            && (c.Remove? || (OnWalk(sts[when(t)], id) && InRange(k, LowOf(c), HighOf(c))))
  {
    RunIsSteady(sts, steps, a);
    id, t := Walk(sts, a, when, start, k);
  }
}
