/** Epoch-based reclamation as a step machine, one shared memory access per step.

    Joining and leaving an operation load the global epoch and store it later; a retiring
    thread loads the epoch after the unlinking and appends later; the minimum over all
    threads is computed one read at a time. Nodes are physical nodes; a garbage entry
    stands for a retired root with everything that is freed along with it. */
module Epochs {

  type Node = nat

  /** Where a node is. Every node is in one place, so nothing is freed twice. */
  datatype Place = Linked | Limbo(owner: nat) | Garbage(owner: nat) | Freed

  datatype Entry = Entry(epoch: nat, nodes: set<Node>)

  datatype Pc =
    | Idle
    | Joining(loaded: nat)
    | InOp
    | Retiring(entry: Entry)
    | Summing(read: nat, min: nat)
    | Freeing(min: nat)
    | Leaving(loaded: nat)

  /** active is last_active_epoch; holds are the nodes the thread may still dereference. */
  datatype Thread = Thread(pc: Pc, active: nat, holds: set<Node>, garbage: seq<Entry>)

  datatype State = State(epoch: nat, place: map<Node, Place>, threads: seq<Thread>)

  const NEVER: nat := 0xFFFF_FFFF_FFFF_FFFF

  datatype Step =
    | Advance
    | JoinLoad
    | JoinStore
    | Acquire(nodes: set<Node>)
    | Create(nodes: set<Node>, linked: bool)
    | Publish(nodes: set<Node>)
    | Unlink(nodes: set<Node>)
    | RetireLoad(nodes: set<Node>)
    | RetireAppend
    | SumStart
    | SumRead
    | SumDone
    | FreeHead
    | FreeDone
    | LeaveLoad
    | LeaveStore
    | Unregister

  ghost predicate At(st: State, nodes: set<Node>, place: Place) {
    forall n :: n in nodes ==> n in st.place && st.place[n] == place
  }

  ghost predicate Enabled(st: State, t: nat, step: Step)
  {
    t < |st.threads| &&
    var th := st.threads[t];
    match step
    case Advance => true
    case JoinLoad => th.pc.Idle?
    case JoinStore => th.pc.Joining?
    case Acquire(nodes) => th.pc.InOp? && At(st, nodes, Linked)
    case Create(nodes, _) => th.pc.InOp? && nodes !! st.place.Keys
    case Publish(nodes) => th.pc.InOp? && At(st, nodes, Limbo(t))
    case Unlink(nodes) => th.pc.InOp? && At(st, nodes, Linked)
    case RetireLoad(nodes) => th.pc.InOp? && At(st, nodes, Limbo(t))
    case RetireAppend => th.pc.Retiring?
    case SumStart => th.pc.InOp?
    case SumRead => th.pc.Summing? && th.pc.read < |st.threads|
    case SumDone => th.pc.Summing? && th.pc.read == |st.threads|
    case FreeHead => th.pc.Freeing? && th.garbage != [] && th.garbage[0].epoch < th.pc.min
    case FreeDone => th.pc.Freeing? && (th.garbage == [] || th.garbage[0].epoch >= th.pc.min)
    case LeaveLoad => th.pc.InOp?
    case LeaveStore => th.pc.Leaving?
    case Unregister => th.pc.Idle?
  }

  function Min(a: nat, b: nat): nat { if a < b then a else b }

  ghost function Moved(place: map<Node, Place>, nodes: set<Node>, to: Place): map<Node, Place> {
    map n | n in place.Keys + nodes :: if n in nodes then to else place[n]
  }

  ghost function ThreadAfter(st: State, t: nat, step: Step): Thread
    requires Enabled(st, t, step)
  {
    var th := st.threads[t];
    match step
    case Advance => th
    case JoinLoad => th.(pc := Joining(st.epoch))
    case JoinStore => th.(pc := InOp, active := th.pc.loaded)
    case Acquire(nodes) => th.(holds := th.holds + nodes)
    case Create(nodes, _) => th.(holds := th.holds + nodes)
    case Publish(_) => th
    case Unlink(_) => th
    case RetireLoad(nodes) => th.(pc := Retiring(Entry(st.epoch, nodes)))
    case RetireAppend => th.(pc := InOp, garbage := th.garbage + [th.pc.entry])
    case SumStart => th.(pc := Summing(1, st.threads[0].active))
    case SumRead => th.(pc := Summing(th.pc.read + 1, Min(st.threads[th.pc.read].active, th.pc.min)))
    case SumDone => th.(pc := Freeing(th.pc.min))
    case FreeHead => th.(garbage := th.garbage[1..])
    case FreeDone => th.(pc := InOp)
    case LeaveLoad => th.(pc := Leaving(st.epoch), holds := {})
    case LeaveStore => th.(pc := Idle, active := th.pc.loaded)
    case Unregister => th.(active := NEVER)
  }

  ghost function PlaceAfter(st: State, t: nat, step: Step): map<Node, Place>
    requires Enabled(st, t, step)
  {
    match step
    case Create(nodes, linked) => Moved(st.place, nodes, if linked then Linked else Limbo(t))
    case Publish(nodes) => Moved(st.place, nodes, Linked)
    case Unlink(nodes) => Moved(st.place, nodes, Limbo(t))
    case RetireAppend => Moved(st.place, st.threads[t].pc.entry.nodes, Garbage(t))
    case FreeHead => Moved(st.place, st.threads[t].garbage[0].nodes, Freed)
    case _ => st.place
  }

  ghost function Next(st: State, t: nat, step: Step): State
    requires Enabled(st, t, step)
  {
    State(if step.Advance? then st.epoch + 1 else st.epoch, PlaceAfter(st, t, step),
          st.threads[t := ThreadAfter(st, t, step)])
  }

  // ----- the invariant -----

  predicate MayHold(pc: Pc) {
    !pc.Idle? && !pc.Joining? && !pc.Leaving?
  }

  ghost predicate Sorted(g: seq<Entry>) {
    forall i, j :: 0 <= i < j < |g| ==> g[i].epoch <= g[j].epoch
  }

  ghost predicate Apart(g: seq<Entry>) {
    forall i, j :: 0 <= i < j < |g| ==> g[i].nodes !! g[j].nodes
  }

  ghost predicate ListOk(st: State, t: nat, g: seq<Entry>) {
    && Sorted(g) && Apart(g)
    && forall i :: 0 <= i < |g| ==> g[i].epoch <= st.epoch && At(st, g[i].nodes, Garbage(t))
  }

  /** What one thread's own fields satisfy. */
  ghost predicate Own(st: State, t: nat, th: Thread) {
    && (th.holds != {} ==> MayHold(th.pc)) && (MayHold(th.pc) ==> th.active <= st.epoch)
    && th.holds <= st.place.Keys
    && ((th.pc.Joining? || th.pc.Leaving?) ==> th.pc.loaded <= st.epoch)
    && ListOk(st, t, th.garbage)
    && (th.pc.Retiring? ==>
          && th.pc.entry.epoch <= st.epoch && At(st, th.pc.entry.nodes, Limbo(t))
          && forall i :: 0 <= i < |th.garbage| ==> th.garbage[i].epoch <= th.pc.entry.epoch)
    && (th.pc.Summing? ==> 1 <= th.pc.read <= |st.threads|)
  }

  /** h holds none of the entry's nodes, or its epoch is no later than the entry's. */
  ghost predicate Guards(h: Thread, e: Entry) {
    h.holds !! e.nodes || h.active <= e.epoch
  }

  /** The minimum m computed so far, h's epoch included, does not reach h's nodes. */
  ghost predicate Spares(h: Thread, e: Entry, m: nat) {
    h.holds !! e.nodes || m <= e.epoch
  }

  /** What holds between a thread's garbage and the thread with index i. */
  ghost predicate Pair(t: Thread, h: Thread, i: nat) {
    && (forall j :: 0 <= j < |t.garbage| ==> Guards(h, t.garbage[j]))
    && (t.pc.Retiring? ==> Guards(h, t.pc.entry))
    && (t.pc.Summing? && i < t.pc.read ==>
          forall j :: 0 <= j < |t.garbage| ==> Spares(h, t.garbage[j], t.pc.min))
    && (t.pc.Freeing? ==> forall j :: 0 <= j < |t.garbage| ==> Spares(h, t.garbage[j], t.pc.min))
  }

  ghost predicate Inv(st: State) {
    && (forall t :: 0 <= t < |st.threads| ==> Own(st, t, st.threads[t]))
    && (forall t, h :: 0 <= t < |st.threads| && 0 <= h < |st.threads| ==> Pair(st.threads[t], st.threads[h], h))
    && NoFreedHeld(st)
  }

  /** Safety: no node that a thread inside an operation may still use is freed. */
  ghost predicate NoFreedHeld(st: State) {
    forall t, n :: 0 <= t < |st.threads| && n in st.threads[t].holds ==> n in st.place && !st.place[n].Freed?
  }

  // ----- preservation -----

  lemma OwnOthers(st: State, t: nat, step: Step, u: nat)
    requires Inv(st) && Enabled(st, t, step) && u < |st.threads| && u != t
    ensures Own(Next(st, t, step), u, st.threads[u])
  {
    var st', th := Next(st, t, step), st.threads[u];
    assert Own(st, u, th) && Own(st, t, st.threads[t]);
    forall i | 0 <= i < |th.garbage| ensures At(st', th.garbage[i].nodes, Garbage(u)) {
      PlaceKept(st, t, step, th.garbage[i].nodes, Garbage(u));
    }
    if th.pc.Retiring? {
      PlaceKept(st, t, step, th.pc.entry.nodes, Limbo(u));
    }
  }

  /** A step of t leaves alone what belongs to another thread. */
  lemma PlaceKept(st: State, t: nat, step: Step, nodes: set<Node>, p: Place)
    requires Inv(st) && Enabled(st, t, step) && At(st, nodes, p)
    requires p != Linked && p != Limbo(t) && p != Garbage(t)
    ensures At(Next(st, t, step), nodes, p)
  {
    assert Own(st, t, st.threads[t]);
  }

  lemma KeysGrow(st: State, t: nat, step: Step)
    requires Enabled(st, t, step)
    ensures st.place.Keys <= Next(st, t, step).place.Keys
  {
  }

  lemma OwnSelf(st: State, t: nat, step: Step)
    requires Inv(st) && Enabled(st, t, step)
    ensures Own(Next(st, t, step), t, ThreadAfter(st, t, step))
  {
    var th := st.threads[t];
    assert Own(st, t, th);
    KeysGrow(st, t, step);
    if step.FreeHead? {
      FreeKeepsList(st, t);
    } else if step.RetireAppend? {
      AppendKeepsList(st, t);
    } else if !step.Advance? {
      OtherKeepsList(st, t, step);
    }
  }

  lemma FreeKeepsList(st: State, t: nat)
    requires Inv(st) && Enabled(st, t, FreeHead)
    ensures ListOk(Next(st, t, FreeHead), t, st.threads[t].garbage[1..])
  {
    assert Own(st, t, st.threads[t]);
  }

  lemma AppendKeepsList(st: State, t: nat)
    requires Inv(st) && Enabled(st, t, RetireAppend)
    ensures ListOk(Next(st, t, RetireAppend), t, ThreadAfter(st, t, RetireAppend).garbage)
  {
    var th := st.threads[t];
    assert Own(st, t, th);
    forall i | 0 <= i < |th.garbage| ensures th.garbage[i].nodes !! th.pc.entry.nodes {
      assert At(st, th.garbage[i].nodes, Garbage(t)) && At(st, th.pc.entry.nodes, Limbo(t));
    }
  }

  lemma OtherKeepsList(st: State, t: nat, step: Step)
    requires Inv(st) && Enabled(st, t, step) && !step.FreeHead? && !step.RetireAppend?
    ensures ListOk(Next(st, t, step), t, st.threads[t].garbage)
  {
    var g := st.threads[t].garbage;
    assert Own(st, t, st.threads[t]);
    forall i | 0 <= i < |g| ensures At(Next(st, t, step), g[i].nodes, Garbage(t)) {
      assert At(st, g[i].nodes, Garbage(t));
    }
  }

  /** t's garbage against another thread h. */
  lemma PairAsCollector(st: State, t: nat, step: Step, h: nat)
    requires Inv(st) && Enabled(st, t, step) && h < |st.threads| && h != t
    ensures Pair(ThreadAfter(st, t, step), st.threads[h], h)
  {
    var th, ht := st.threads[t], st.threads[h];
    assert Own(st, t, th) && Own(st, h, ht) && Pair(th, ht, h);
    if step.SumStart? || step.SumRead? {
      forall j | 0 <= j < |th.garbage| ensures Guards(ht, th.garbage[j]) {
      }
    }
  }

  /** Another thread u's garbage against t. */
  lemma PairAsHolder(st: State, t: nat, step: Step, u: nat)
    requires Inv(st) && Enabled(st, t, step) && u < |st.threads| && u != t
    ensures Pair(st.threads[u], ThreadAfter(st, t, step), t)
  {
    var th, g := st.threads[t], st.threads[u].garbage;
    assert Own(st, t, th) && Own(st, u, st.threads[u]) && Pair(st.threads[u], th, t);
    if step.Acquire? || step.Create? {
      forall j | 0 <= j < |g| ensures g[j].nodes !! step.nodes {
        assert At(st, g[j].nodes, Garbage(u));
      }
    }
  }

  lemma PairWithSelf(st: State, t: nat, step: Step)
    requires Inv(st) && Enabled(st, t, step)
    ensures Pair(ThreadAfter(st, t, step), ThreadAfter(st, t, step), t)
  {
    var th := st.threads[t];
    assert Own(st, t, th) && Pair(th, th, t);
    if step.Acquire? || step.Create? {
      forall j | 0 <= j < |th.garbage| ensures th.garbage[j].nodes !! step.nodes {
        assert At(st, th.garbage[j].nodes, Garbage(t));
      }
    }
  }

  /** The step that frees: an entry below the minimum has no holder left. */
  lemma FreedIsNotHeld(st: State, t: nat, h: nat)
    requires Inv(st) && Enabled(st, t, FreeHead) && h < |st.threads|
    ensures st.threads[h].holds !! st.threads[t].garbage[0].nodes
  {
    assert Pair(st.threads[t], st.threads[h], h);
    assert Spares(st.threads[h], st.threads[t].garbage[0], st.threads[t].pc.min);
  }

  lemma SafetyKept(st: State, t: nat, step: Step)
    requires Inv(st) && Enabled(st, t, step)
    ensures NoFreedHeld(Next(st, t, step))
  {
    var st' := Next(st, t, step);
    forall h, n | 0 <= h < |st'.threads| && n in st'.threads[h].holds
      ensures n in st'.place && !st'.place[n].Freed?
    {
      if step.FreeHead? {
        FreedIsNotHeld(st, t, h);
      }
    }
  }

  lemma StepKeepsInv(st: State, t: nat, step: Step)
    requires Inv(st) && Enabled(st, t, step)
    ensures Inv(Next(st, t, step))
  {
    var st' := Next(st, t, step);
    forall u | 0 <= u < |st'.threads| ensures Own(st', u, st'.threads[u]) {
      if u == t { OwnSelf(st, t, step); } else { OwnOthers(st, t, step, u); }
    }
    forall u, h | 0 <= u < |st'.threads| && 0 <= h < |st'.threads|
      ensures Pair(st'.threads[u], st'.threads[h], h)
    {
      if u == t && h == t {
        PairWithSelf(st, t, step);
      } else if u == t {
        PairAsCollector(st, t, step, h);
      } else if h == t {
        PairAsHolder(st, t, step, u);
      }
    }
    SafetyKept(st, t, step);
  }

  // ----- runs -----

  ghost predicate Init(st: State) {
    && |st.threads| >= 1 && st.epoch == 0
    && (forall n :: n in st.place ==> st.place[n] == Linked)
    && (forall t :: 0 <= t < |st.threads| ==> st.threads[t] == Thread(Idle, 0, {}, []))
  }

  ghost predicate Run(sts: seq<State>, who: seq<nat>, steps: seq<Step>) {
    && |sts| == |steps| + 1 == |who| + 1 && Init(sts[0])
    && forall i :: 0 <= i < |steps| ==>
         Enabled(sts[i], who[i], steps[i]) && sts[i + 1] == Next(sts[i], who[i], steps[i])
  }

  /** No run of join, leave, unlink, retire, epoch-advance and collection steps frees a
      node that a thread inside an operation may still hold. */
  lemma {:induction false} NoHeldNodeIsFreed(sts: seq<State>, who: seq<nat>, steps: seq<Step>, n: nat)
    requires Run(sts, who, steps) && n < |sts|
    ensures Inv(sts[n]) && NoFreedHeld(sts[n])
  {
    if n > 0 {
      NoHeldNodeIsFreed(sts, who, steps, n - 1);
      StepKeepsInv(sts[n - 1], who[n - 1], steps[n - 1]);
    }
  }

  /** Freed is final and only garbage is freed, so each node is freed at most once. */
  lemma FreedOnce(sts: seq<State>, who: seq<nat>, steps: seq<Step>, n: nat, x: Node)
    requires Run(sts, who, steps) && n < |steps| && x in sts[n].place
    ensures x in sts[n + 1].place
    ensures sts[n].place[x].Freed? ==> sts[n + 1].place[x].Freed?
    ensures !sts[n].place[x].Freed? && sts[n + 1].place[x].Freed? ==>
              steps[n].FreeHead? && sts[n].place[x] == Garbage(who[n])
  {
    NoHeldNodeIsFreed(sts, who, steps, n);
    assert Own(sts[n], who[n], sts[n].threads[who[n]]);
  }

  /** When a collection ends, exactly the entries at or above the minimum are left. */
  lemma CollectionEndsAtMinimum(sts: seq<State>, who: seq<nat>, steps: seq<Step>, n: nat, i: nat)
    requires Run(sts, who, steps) && n < |steps| && steps[n].FreeDone?
    requires i < |sts[n].threads[who[n]].garbage|
    ensures sts[n].threads[who[n]].garbage[i].epoch >= sts[n].threads[who[n]].pc.min
  {
    NoHeldNodeIsFreed(sts, who, steps, n);
    assert Own(sts[n], who[n], sts[n].threads[who[n]]);
  }

  // ----- nothing is leaked -----

  ghost predicate Listed(g: seq<Entry>, n: Node) {
    exists i :: 0 <= i < |g| && n in g[i].nodes
  }

  ghost predicate ListedIn(st: State, n: Node, u: nat) {
    u < |st.threads| && Listed(st.threads[u].garbage, n)
  }

  /** Every node of garbage stands in the list of the thread that will free it. */
  ghost predicate NoLeak(st: State) {
    forall n :: n in st.place && st.place[n].Garbage? ==> ListedIn(st, n, st.place[n].owner)
  }

  lemma ListedTail(g: seq<Entry>, n: Node)
    requires Listed(g, n) && n !in g[0].nodes
    ensures Listed(g[1..], n)
  {
    var i :| 0 <= i < |g| && n in g[i].nodes;
    assert g[1..][i - 1] == g[i];
  }

  lemma ListedMore(g: seq<Entry>, e: Entry, n: Node)
    requires Listed(g, n) || n in e.nodes
    ensures Listed(g + [e], n)
  {
    var g' := g + [e];
    if Listed(g, n) {
      var i :| 0 <= i < |g| && n in g[i].nodes;
      assert g'[i] == g[i];
    } else {
      assert g'[|g|] == e;
    }
  }

  lemma StepKeepsNoLeak(st: State, t: nat, step: Step)
    requires Enabled(st, t, step) && NoLeak(st)
    ensures NoLeak(Next(st, t, step))
  {
    var st', g := Next(st, t, step), st.threads[t].garbage;
    forall n | n in st'.place && st'.place[n].Garbage? ensures ListedIn(st', n, st'.place[n].owner) {
      assert st'.place[n] == Garbage(t) || (n in st.place && st'.place[n] == st.place[n]);
      if step.RetireAppend? && st'.place[n].owner == t {
        ListedMore(g, st.threads[t].pc.entry, n);
      } else if step.FreeHead? && st'.place[n].owner == t {
        ListedTail(g, n);
      }
    }
  }

  /** In every run a retired node that is not freed yet is in a list, in an entry that its
      thread can still free. */
  lemma {:induction false} GarbageIsListed(sts: seq<State>, who: seq<nat>, steps: seq<Step>, n: nat)
    requires Run(sts, who, steps) && n < |sts|
    ensures NoLeak(sts[n])
  {
    if n > 0 {
      GarbageIsListed(sts, who, steps, n - 1);
      StepKeepsNoLeak(sts[n - 1], who[n - 1], steps[n - 1]);
    }
  }

  // ----- what a step gives its thread -----

  /** Taking an entry off the list frees exactly its nodes, which nobody freed before. */
  lemma FreeHeadFreesEntry(st: State, t: nat)
    requires Inv(st) && Enabled(st, t, FreeHead)
    ensures var e, st' := st.threads[t].garbage[0], Next(st, t, FreeHead);
            && (forall n :: n in st.place <==> n in st'.place)
            && (forall n :: n in st.place ==>
                  st'.place[n] == if n in e.nodes then Freed else st.place[n])
            && (forall n :: n in e.nodes ==> n in st.place && st.place[n] == Garbage(t))
            && st.threads[t].garbage == [e] + st'.threads[t].garbage
  {
    assert Own(st, t, st.threads[t]);
  }

  /** A node acquired in an operation stays in memory until the thread leaves it. */
  lemma {:induction false} AcquiredStaysUsable(sts: seq<State>, who: seq<nat>, steps: seq<Step>, i: nat, j: nat, t: nat,
                                               nodes: set<Node>)
    requires Run(sts, who, steps) && i < j < |sts| && who[i] == t
    requires steps[i] == Acquire(nodes) || (steps[i].Create? && steps[i].nodes == nodes)
    requires forall k :: i < k < j && who[k] == t ==> !steps[k].LeaveLoad?
    ensures t < |sts[j].threads| && nodes <= sts[j].threads[t].holds
    ensures forall n :: n in nodes ==> n in sts[j].place && !sts[j].place[n].Freed?
    decreases j
  {
    NoHeldNodeIsFreed(sts, who, steps, j);
    if i < j - 1 {
      AcquiredStaysUsable(sts, who, steps, i, j - 1, t, nodes);
    }
  }

  /** Joining and leaving alone announce the current epoch. */
  lemma UncontendedJoinAndLeave(st: State, t: nat)
    requires t < |st.threads|
    ensures st.threads[t].pc.Idle? ==>
              && Enabled(st, t, JoinLoad) && Enabled(Next(st, t, JoinLoad), t, JoinStore)
              && var st' := Next(Next(st, t, JoinLoad), t, JoinStore);
                 st'.threads[t].pc.InOp? && st'.threads[t].active == st'.epoch == st.epoch
    ensures st.threads[t].pc.InOp? ==>
              && Enabled(st, t, LeaveLoad) && Enabled(Next(st, t, LeaveLoad), t, LeaveStore)
              && var st' := Next(Next(st, t, LeaveLoad), t, LeaveStore);
                 && st'.threads[t].pc.Idle? && st'.threads[t].active == st'.epoch == st.epoch
                 && st'.threads[t].holds == {} && st'.threads[t].garbage == st.threads[t].garbage
  {
  }

  /** Retiring alone puts the unlinked nodes under the current epoch at the list's end. */
  lemma UncontendedRetire(st: State, t: nat, nodes: set<Node>)
    requires Enabled(st, t, RetireLoad(nodes))
    ensures Enabled(Next(st, t, RetireLoad(nodes)), t, RetireAppend)
    ensures var st' := Next(Next(st, t, RetireLoad(nodes)), t, RetireAppend);
            && st'.threads[t].garbage == st.threads[t].garbage + [Entry(st.epoch, nodes)] && st'.threads[t].pc.InOp?
            && At(st', nodes, Garbage(t))
            && forall n :: n in st.place && n !in nodes ==> n in st'.place && st'.place[n] == st.place[n]
  {
  }

  /** m is the least announced epoch of the first n threads. */
  ghost predicate IsMin(threads: seq<Thread>, n: nat, m: nat) {
    && n <= |threads|
    && (forall i :: 0 <= i < n ==> m <= threads[i].active)
    && (exists i :: 0 <= i < n && threads[i].active == m)
  }

  /** Summing alone computes the exact minimum, and the collection then uses it. */
  lemma UncontendedSum(st: State, t: nat, step: Step)
    requires Enabled(st, t, step) && (step.SumStart? || step.SumRead? || step.SumDone?)
    requires !step.SumStart? ==> IsMin(st.threads, st.threads[t].pc.read, st.threads[t].pc.min)
    ensures var st' := Next(st, t, step);
            && (!step.SumDone? ==> st'.threads[t].pc.Summing? && IsMin(st'.threads, st'.threads[t].pc.read, st'.threads[t].pc.min))
            && (step.SumDone? ==> st'.threads[t].pc.Freeing? && IsMin(st'.threads, |st'.threads|, st'.threads[t].pc.min))
  {
    var st', pc := Next(st, t, step), st.threads[t].pc;
    assert st'.threads[0].active == st.threads[0].active;
    if !step.SumStart? {
      var i :| 0 <= i < pc.read && st.threads[i].active == pc.min;
      assert st'.threads[i].active == pc.min;
    }
    if step.SumRead? {
      assert st'.threads[pc.read].active == st.threads[pc.read].active;
    }
  }
}
