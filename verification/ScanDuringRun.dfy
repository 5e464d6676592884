/** Runs of the mapping table in which no insert or delete wins are exactly what an
    iterator needs: its page loads may fall anywhere in such a stretch. */
module ScanDuringRun {
  import opened Keys
  import opened LeafChain
  import opened LeafLevel
  import opened MappingTable
  import Iterator

  /** Splits, removes, merges, consolidations and lost races, but no change of the pairs. */
  ghost predicate ShapeOnly(st: State, step: Step) {
    step.CasInsert? || step.CasDelete? ==> !Wins(st, step.id, step.p)
  }

  ghost predicate Quiet(sts: seq<State>, steps: seq<Step>, a: nat, b: nat) {
    && Run(sts, steps) && a <= b < |sts|
    && forall i :: a <= i < b ==> ShapeOnly(sts[i], steps[i])
  }

  ghost predicate SamePairs(st: State, st': State) {
    && Inv(st) && Inv(st') && Live(st') == Live(st)
    && Bounds(st') <= Bounds(st) + KeysIn(Live(st))
  }

  lemma QuietStep(st: State, step: Step)
    requires Inv(st) && Enabled(st, step) && ShapeOnly(st, step)
    ensures SamePairs(st, Next(st, step))
  {
    StepKeepsInv(st, step);
    BoundsComeFromKeys(st, step);
  }

  lemma SamePairsItself(st: State)
    requires Inv(st)
    ensures SamePairs(st, st)
  {
  }

  lemma OneMoreStep(a: State, b: State, step: Step)
    requires SamePairs(a, b) && Enabled(b, step) && ShapeOnly(b, step)
    ensures SamePairs(a, Next(b, step))
  {
    QuietStep(b, step);
  }

  lemma StepOfRun(sts: seq<State>, steps: seq<Step>, a: nat, b: nat)
    requires Quiet(sts, steps, a, b) && a < b
    ensures Quiet(sts, steps, a, b - 1) && Enabled(sts[b - 1], steps[b - 1])
    ensures ShapeOnly(sts[b - 1], steps[b - 1]) && Next(sts[b - 1], steps[b - 1]) == sts[b]
  {
  }

  lemma {:induction false} QuietKeepsPairs(sts: seq<State>, steps: seq<Step>, a: nat, b: nat)
    requires Quiet(sts, steps, a, b)
    ensures SamePairs(sts[a], sts[b])
    decreases b
  {
    if a == b {
      RunsPreserveContents(sts, steps, a);
      SamePairsItself(sts[a]);
    } else {
      StepOfRun(sts, steps, a, b);
      QuietKeepsPairs(sts, steps, a, b - 1);
      OneMoreStep(sts[a], sts[b - 1], steps[b - 1]);
    }
  }

  ghost function PathOf(st: State): (path: seq<NodeId>)
    requires Inv(st)
    ensures InvOn(st, path)
  {
    var path :| InvOn(st, path);
    path
  }

  lemma StateIsStable(st: State, bounds: set<Key>)
    requires Inv(st) && Bounds(st) <= bounds
    ensures Iterator.StableAt(ViewOf(st), PathOf(st), Live(st), bounds)
  {
    var v, path := ViewOf(st), PathOf(st);
    LiveOn(st, path);
    forall id | id in path && HighOf(v[id]).HighKey? ensures HighOf(v[id]).key in bounds {
      assert v[id] == st.mem[st.table[id]];
    }
  }

  /** Load number t sees the state after step when(t) of the run. The iterator's premise
      holds with a finite set of page bounds, so ScanFrom returns and is exact. */
  lemma QuietRunIsStable(sts: seq<State>, steps: seq<Step>, a: nat, b: nat,
                         when: nat -> nat, views: nat -> View, paths: nat -> seq<NodeId>)
    requires Quiet(sts, steps, a, b)
    requires forall t: nat :: a <= when(t) <= b && Inv(sts[when(t)])
    requires forall t: nat :: views(t) == ViewOf(sts[when(t)]) && paths(t) == PathOf(sts[when(t)])
    ensures Inv(sts[a])
    ensures Iterator.Stable(views, paths, Live(sts[a]), Bounds(sts[a]) + KeysIn(Live(sts[a])))
  {
    QuietKeepsPairs(sts, steps, a, a);
    forall t: nat
      ensures Iterator.StableAt(views(t), paths(t), Live(sts[a]), Bounds(sts[a]) + KeysIn(Live(sts[a])))
    {
      var n := when(t);
      assert a <= n <= b;
      assert Quiet(sts, steps, a, n);
      QuietKeepsPairs(sts, steps, a, n);
      StateIsStable(sts[n], Bounds(sts[a]) + KeysIn(Live(sts[a])));
    }
  }

  /** Any descent that ends at a leaf of the walk covering the key, such as the sibling walk
      over a changing table, ends at the leaf whose page LoadPage consolidates. */
  lemma DescentFindsThePage(st: State, k: Key, id: NodeId, o: NodeId)
    requires Inv(st) && OnWalk(st, id) && InRange(k, LowOf(ViewOf(st)[id]), HighOf(ViewOf(st)[id]))
    requires o in PathOf(st) && InRange(k, LowOf(ViewOf(st)[o]), HighOf(ViewOf(st)[o]))
    ensures o == id
  {
    assert id in Elems(PathOf(st));
    CoverIsUnique(ViewOf(st), PathOf(st), k, o, id);
  }
}
