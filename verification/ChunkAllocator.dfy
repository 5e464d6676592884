/** Allocating delta records from a chain of preallocated chunks, downwards from the tail
    of each chunk: a step machine for any number of threads, one atomic access per step. */
module ChunkAllocator {
  import opened Wrappers

  /** sizeof(AllocationMeta): two pointers and the limit. */
  const META_SIZE: nat := 24

  /** A chunk occupies [base, top); its header ends where the usable memory begins. */
  datatype Chunk = Chunk(base: int, top: int, tail: int, next: Option<nat>)

  function Limit(c: Chunk): int {
    c.base + META_SIZE
  }

  /** The bytes [lo, lo + size), handed out by the chunk with this index. */
  datatype Region = Region(chunk: nat, lo: int, size: nat)

  function End(r: Region): int {
    r.lo + r.size
  }

  datatype Thread =
    | Idle
    | Trying(chunk: nat, size: nat)
    | Passed(chunk: nat, size: nat)
    | Growing(chunk: nat, size: nat)
    | Linking(chunk: nat, size: nat)

  datatype State = State(chunkSize: nat, chunks: seq<Chunk>, threads: seq<Thread>, regions: seq<Region>)

  datatype Step =
    | Start(t: nat, size: nat)
    | LoadTail(t: nat)
    | FetchSub(t: nat)
    | LoadNext(t: nat)
    | CasNext(t: nat, base: int)

  predicate Apart(aLo: int, aHi: int, bLo: int, bHi: int) {
    aHi <= bLo || bHi <= aLo
  }


  /** operator new returns memory that overlaps no chunk. */
  ghost predicate Enabled(st: State, step: Step) {
    step.t < |st.threads| &&
    var th := st.threads[step.t];
    match step
    case Start(_, _) => th.Idle? && st.chunks != []
    case LoadTail(_) => th.Trying? && th.chunk < |st.chunks|
    case FetchSub(_) => th.Passed? && th.chunk < |st.chunks|
    case LoadNext(_) => th.Growing? && th.chunk < |st.chunks|
    case CasNext(_, base) =>
      && th.Linking? && th.chunk < |st.chunks|
      && forall c :: c in st.chunks ==> Apart(c.base, c.top, base, base + st.chunkSize)
  }

  function SetThread(st: State, t: nat, th: Thread): State
    requires t < |st.threads|
  {
    st.(threads := st.threads[t := th])
  }

  ghost function Next(st: State, step: Step): State
    requires Enabled(st, step)
  {
    var t, th := step.t, st.threads[step.t];
    match step
    case Start(_, size) => SetThread(st, t, Trying(0, size))
    case LoadTail(_) =>
      var c := st.chunks[th.chunk];
      SetThread(st, t, if c.tail < Limit(c) then Growing(th.chunk, th.size) else Passed(th.chunk, th.size))
    case FetchSub(_) =>
      var c := st.chunks[th.chunk];
      var newTail := c.tail - th.size;
      var st' := st.(chunks := st.chunks[th.chunk := c.(tail := newTail)]);
      if newTail < Limit(c) then SetThread(st', t, Growing(th.chunk, th.size))
      else SetThread(st', t, Idle).(regions := st.regions + [Region(th.chunk, newTail, th.size)])
    case LoadNext(_) =>
      var next := st.chunks[th.chunk].next;
      SetThread(st, t, if next.Some? then Trying(next.value, th.size) else Linking(th.chunk, th.size))
    case CasNext(_, base) =>
      var c := st.chunks[th.chunk];
      if c.next.Some? then SetThread(st, t, Trying(c.next.value, th.size))
      else
        var added := Chunk(base, base + st.chunkSize, base + st.chunkSize, None);
        SetThread(st.(chunks := st.chunks[th.chunk := c.(next := Some(|st.chunks|))] + [added]),
                  t, Trying(|st.chunks|, th.size))
  }

  // ----- the invariant -----

  ghost predicate ChunkOk(st: State, i: nat)
    requires i < |st.chunks|
  {
    var c := st.chunks[i];
    && Limit(c) <= c.top && c.tail <= c.top
    && c.next == if i + 1 < |st.chunks| then Some(i + 1) else None
  }

  ghost predicate RegionOk(st: State, r: Region) {
    r.chunk < |st.chunks| &&
    var c := st.chunks[r.chunk];
    Limit(c) <= r.lo && End(r) <= c.top && c.tail <= r.lo
  }

  ghost predicate ThreadOk(st: State, th: Thread) {
    !th.Idle? ==>
      && th.chunk < |st.chunks|
      && (th.Growing? || th.Linking? ==> st.chunks[th.chunk].tail < Limit(st.chunks[th.chunk]))
  }

  ghost predicate Inv(st: State) {
    && st.chunks != [] && META_SIZE <= st.chunkSize
    && (forall i :: 0 <= i < |st.chunks| ==> ChunkOk(st, i))
    && (forall i, j :: 0 <= i < j < |st.chunks| ==>
          Apart(st.chunks[i].base, st.chunks[i].top, st.chunks[j].base, st.chunks[j].top))
    && (forall t :: 0 <= t < |st.threads| ==> ThreadOk(st, st.threads[t]))
    && (forall k :: 0 <= k < |st.regions| ==> RegionOk(st, st.regions[k]))
    && (forall k, m :: 0 <= k < m < |st.regions| && st.regions[k].chunk == st.regions[m].chunk ==>
          End(st.regions[m]) <= st.regions[k].lo)
  }

  /** Tails only move down, a set next pointer never changes, chunks stay where they are. */
  ghost predicate Extends(st: State, st': State) {
    && st'.chunkSize == st.chunkSize && |st.threads| == |st'.threads|
    && |st.chunks| <= |st'.chunks| && st.regions <= st'.regions
    && forall i :: 0 <= i < |st.chunks| ==>
         var c, c' := st.chunks[i], st'.chunks[i];
         && c'.base == c.base && c'.top == c.top && c'.tail <= c.tail
         && (c.next.Some? ==> c'.next == c.next)
  }

  lemma StepExtends(st: State, step: Step)
    requires Inv(st) && Enabled(st, step)
    ensures Extends(st, Next(st, step))
  {
    assert ThreadOk(st, st.threads[step.t]);
  }

  lemma ThreadsKept(st: State, step: Step)
    requires Inv(st) && Enabled(st, step)
    ensures forall t :: 0 <= t < |st.threads| ==> ThreadOk(Next(st, step), Next(st, step).threads[t])
  {
    var st' := Next(st, step);
    StepExtends(st, step);
    forall t | 0 <= t < |st.threads| ensures ThreadOk(st', st'.threads[t]) {
      assert ThreadOk(st, st.threads[t]);
      assert step.CasNext? ==> ChunkOk(st, st.threads[step.t].chunk);
      assert step.LoadNext? ==> ChunkOk(st, st.threads[step.t].chunk);
    }
  }

  /** Only the last chunk has no successor, so linking always appends. */
  lemma ChunksKept(st: State, step: Step)
    requires Inv(st) && Enabled(st, step)
    ensures forall i :: 0 <= i < |Next(st, step).chunks| ==> ChunkOk(Next(st, step), i)
  {
    var st' := Next(st, step);
    assert step.CasNext? ==> ChunkOk(st, st.threads[step.t].chunk);
    forall i | 0 <= i < |st'.chunks| ensures ChunkOk(st', i) {
      assert i < |st.chunks| ==> ChunkOk(st, i);
    }
  }

  lemma AreasKept(st: State, step: Step)
    requires Inv(st) && Enabled(st, step)
    ensures forall i, j :: 0 <= i < j < |Next(st, step).chunks| ==>
              var cs := Next(st, step).chunks; Apart(cs[i].base, cs[i].top, cs[j].base, cs[j].top)
  {
  }

  lemma RegionsKept(st: State, step: Step)
    requires Inv(st) && Enabled(st, step)
    ensures forall k :: 0 <= k < |Next(st, step).regions| ==> RegionOk(Next(st, step), Next(st, step).regions[k])
  {
    var st' := Next(st, step);
    StepExtends(st, step);
    forall k | 0 <= k < |st'.regions| ensures RegionOk(st', st'.regions[k]) {
      if k < |st.regions| {
        assert RegionOk(st, st.regions[k]);
      } else {
        assert ChunkOk(st, st.threads[step.t].chunk);
      }
    }
  }

  lemma OrderKept(st: State, step: Step, k: nat, m: nat)
    requires Inv(st) && Enabled(st, step) && k < m < |Next(st, step).regions|
    requires Next(st, step).regions[k].chunk == Next(st, step).regions[m].chunk
    ensures End(Next(st, step).regions[m]) <= Next(st, step).regions[k].lo
  {
    StepExtends(st, step);
    assert RegionOk(st, st.regions[k]);
  }

  lemma StepKeepsInv(st: State, step: Step)
    requires Inv(st) && Enabled(st, step)
    ensures Inv(Next(st, step))
  {
    ThreadsKept(st, step);
    ChunksKept(st, step);
    AreasKept(st, step);
    RegionsKept(st, step);
    var st' := Next(st, step);
    forall k, m | 0 <= k < m < |st'.regions| && st'.regions[k].chunk == st'.regions[m].chunk
      ensures End(st'.regions[m]) <= st'.regions[k].lo
    {
      OrderKept(st, step, k, m);
    }
  }

  // ----- what a step gives its thread -----

  /** A step hands out memory exactly when it is a subtraction that stays above the header:
      as many bytes as its thread asked for, right below the old tail of the thread's chunk. */
  lemma StepServesItsThread(st: State, step: Step)
    requires Inv(st) && Enabled(st, step)
    ensures var th, st' := st.threads[step.t], Next(st, step);
            if step.FetchSub? && Limit(st.chunks[th.chunk]) <= st.chunks[th.chunk].tail - th.size then
              && |st'.regions| == |st.regions| + 1 && th.chunk < |st'.chunks|
              && var r := st'.regions[|st.regions|];
                 && r.chunk == th.chunk && r.size == th.size
                 && r.lo + r.size == st.chunks[th.chunk].tail && r.lo == st'.chunks[th.chunk].tail
                 && st'.threads[step.t].Idle?
            else st'.regions == st.regions
  {
  }

  /** A request that finds its chunk exhausted, at the load of the tail or by its own
      subtraction, keeps its size and asks for the successor of that chunk. */
  lemma FailureGrows(st: State, step: Step)
    requires Inv(st) && Enabled(st, step) && (step.LoadTail? || step.FetchSub?)
    ensures var th, st' := st.threads[step.t], Next(st, step);
            var full := if step.LoadTail? then st.chunks[th.chunk].tail < Limit(st.chunks[th.chunk])
                        else st.chunks[th.chunk].tail - th.size < Limit(st.chunks[th.chunk]);
            && (st'.threads[step.t].Growing? <==> full)
            && (full ==> st'.threads[step.t].chunk == th.chunk && st'.threads[step.t].size == th.size
                         && Enabled(st', LoadNext(step.t)))
  {
    StepExtends(st, step);
  }

  /** A thread that meets no other one gets its bytes from the first chunk it tries with room
      for them. */
  lemma UncontendedAllocation(st: State, t: nat)
    requires Inv(st) && t < |st.threads| && st.threads[t].Trying?
    requires var th := st.threads[t];
             th.chunk < |st.chunks| && Limit(st.chunks[th.chunk]) <= st.chunks[th.chunk].tail - th.size
    ensures var th, st1 := st.threads[t], Next(st, LoadTail(t));
            && Enabled(st1, FetchSub(t))
            && Next(st1, FetchSub(t)).regions ==
               st.regions + [Region(th.chunk, st.chunks[th.chunk].tail - th.size, th.size)]
  {
    StepKeepsInv(st, LoadTail(t));
    StepServesItsThread(Next(st, LoadTail(t)), FetchSub(t));
  }

  /** A thread whose chunk failed goes on with the successor, a chunk without a single
      region if it had to be added; a linking thread never adds a second successor. */
  lemma GrowFindsSuccessor(st: State, step: Step)
    requires Inv(st) && Enabled(st, step) && (step.LoadNext? || step.CasNext?)
    ensures var th, st' := st.threads[step.t], Next(st, step);
            var c, th' := th.chunk, st'.threads[step.t];
            && st'.regions == st.regions && th'.size == th.size && c < |st.chunks| && c < |st'.chunks|
            && (step.LoadNext? && c + 1 == |st.chunks| ==> st' == SetThread(st, step.t, Linking(c, th.size)))
            && (step.CasNext? || c + 1 < |st.chunks| ==>
                  && th' == Trying(c + 1, th.size) && st'.chunks[c].next == Some(c + 1) && c + 1 < |st'.chunks|
                  && (c + 1 < |st.chunks| ==> st'.chunks == st.chunks)
                  && (c + 1 == |st.chunks| ==>
                        && Extends(st, st') && |st'.chunks| == |st.chunks| + 1
                        && st'.chunks[c + 1].tail == st'.chunks[c + 1].top == st'.chunks[c + 1].base + st.chunkSize
                        && forall k :: 0 <= k < |st'.regions| ==> st'.regions[k].chunk != c + 1))
  {
    assert ThreadOk(st, st.threads[step.t]);
    assert ChunkOk(st, st.threads[step.t].chunk);
    StepExtends(st, step);
    forall k | 0 <= k < |st.regions| ensures st.regions[k].chunk < |st.chunks| {
      assert RegionOk(st, st.regions[k]);
    }
  }

  // ----- runs -----

  ghost predicate Init(st: State) {
    && |st.chunks| == 1 && st.regions == [] && META_SIZE <= st.chunkSize
    && st.chunks[0].next.None? && Limit(st.chunks[0]) <= st.chunks[0].top == st.chunks[0].tail
    && forall t :: 0 <= t < |st.threads| ==> st.threads[t].Idle?
  }

  ghost predicate Run(sts: seq<State>, steps: seq<Step>) {
    && |sts| == |steps| + 1 && Init(sts[0])
    && forall i :: 0 <= i < |steps| ==> Enabled(sts[i], steps[i]) && sts[i + 1] == Next(sts[i], steps[i])
  }

  lemma {:induction false} RunsKeepInv(sts: seq<State>, steps: seq<Step>, n: nat)
    requires Run(sts, steps) && n < |sts|
    ensures Inv(sts[n])
  {
    if n > 0 {
      RunsKeepInv(sts, steps, n - 1);
      StepKeepsInv(sts[n - 1], steps[n - 1]);
    }
  }

  /** In every interleaving the regions handed out, each as long as its request, are
      pairwise disjoint and lie between the header and the end of their chunk. */
  lemma RegionsAreDisjoint(sts: seq<State>, steps: seq<Step>, n: nat, k: nat, m: nat)
    requires Run(sts, steps) && n < |sts| && k < m < |sts[n].regions|
    ensures var a, b := sts[n].regions[k], sts[n].regions[m]; Apart(a.lo, a.lo + a.size, b.lo, b.lo + b.size)
    ensures var a := sts[n].regions[k];
            a.chunk < |sts[n].chunks| && Limit(sts[n].chunks[a.chunk]) <= a.lo && a.lo + a.size <= sts[n].chunks[a.chunk].top
  {
    RunsKeepInv(sts, steps, n);
    var a, b := sts[n].regions[k], sts[n].regions[m];
    assert RegionOk(sts[n], a) && RegionOk(sts[n], b);
    if a.chunk != b.chunk {
      var ca, cb := sts[n].chunks[a.chunk], sts[n].chunks[b.chunk];
      assert Apart(ca.base, ca.top, cb.base, cb.top) || Apart(cb.base, cb.top, ca.base, ca.top);
    }
  }

  /** The start of the request that a busy thread works on. */
  lemma {:induction false} RequestOf(sts: seq<State>, steps: seq<Step>, n: nat, t: nat) returns (i: nat)
    requires Run(sts, steps) && n < |sts| && t < |sts[n].threads| && !sts[n].threads[t].Idle?
    ensures i < n && steps[i] == Start(t, sts[n].threads[t].size)
    ensures forall m :: i < m <= n ==> Serving(sts[m], t, sts[n].threads[t].size)
  {
    if steps[n - 1].t == t && steps[n - 1].Start? {
      i := n - 1;
    } else {
      i := RequestOf(sts, steps, n - 1, t);
    }
  }

  ghost predicate Serving(st: State, t: nat, size: nat) {
    t < |st.threads| && !st.threads[t].Idle? && st.threads[t].size == size
  }

  lemma RegionsGrowByOne(sts: seq<State>, steps: seq<Step>, j: nat)
    requires Run(sts, steps) && j < |steps|
    ensures var st, st', t := sts[j], sts[j + 1], steps[j].t;
            && st.regions <= st'.regions
            && (st'.regions != st.regions ==>
                  && steps[j] == FetchSub(t) && |st'.regions| == |st.regions| + 1 && t < |st.threads|
                  && var r := st'.regions[|st.regions|];
                     && Serving(st, t, r.size) && r.chunk == st.threads[t].chunk && r.chunk < |st.chunks|
                     && r.lo + r.size == st.chunks[r.chunk].tail && t < |st'.threads| && st'.threads[t].Idle?)
  {
    RunsKeepInv(sts, steps, j);
    StepServesItsThread(sts[j], steps[j]);
  }

  /** Every region of every run answers a request of its own length, which one thread works
      on from its start to the subtraction that takes the region off the tail. */
  lemma {:induction false} RegionMeetsRequest(sts: seq<State>, steps: seq<Step>, n: nat, k: nat)
    returns (t: nat, i: nat, j: nat)
    requires Run(sts, steps) && n < |sts| && k < |sts[n].regions|
    ensures i < j < n && steps[i] == Start(t, sts[n].regions[k].size) && steps[j] == FetchSub(t)
    ensures forall m :: i < m <= j ==> Serving(sts[m], t, sts[n].regions[k].size)
    ensures sts[j].regions == sts[n].regions[..k] && sts[j + 1].regions == sts[n].regions[..k + 1]
    ensures var r := sts[n].regions[k];
            && r.chunk == sts[j].threads[t].chunk && r.chunk < |sts[j].chunks|
            && r.lo + r.size == sts[j].chunks[r.chunk].tail && sts[j + 1].threads[t].Idle?
  {
    RegionsGrowByOne(sts, steps, n - 1);
    if k < |sts[n - 1].regions| {
      t, i, j := RegionMeetsRequest(sts, steps, n - 1, k);
    } else {
      t, j := steps[n - 1].t, n - 1;
      i := RequestOf(sts, steps, j, t);
    }
  }

  // ----- how far a tail can go below the limit -----

  /** How many threads are between their load of the tail of chunk c and their subtraction. */
  function PassedOn(threads: seq<Thread>, c: nat): nat {
    if threads == [] then 0
    else PassedOn(threads[..|threads| - 1], c) + if threads[|threads| - 1].Passed? && threads[|threads| - 1].chunk == c then 1 else 0
  }

  lemma {:induction false} PassedOnSet(threads: seq<Thread>, t: nat, th: Thread, c: nat)
    requires t < |threads|
    ensures PassedOn(threads[t := th], c) ==
            PassedOn(threads, c) - (if threads[t].Passed? && threads[t].chunk == c then 1 else 0)
            + (if th.Passed? && th.chunk == c then 1 else 0)
  {
    var last := |threads| - 1;
    if t < last {
      assert threads[t := th][..last] == threads[..last][t := th];
      PassedOnSet(threads[..last], t, th, c);
    } else {
      assert threads[t := th][..last] == threads[..last];
    }
  }

  lemma {:induction false} PassedOnAtMost(threads: seq<Thread>, c: nat)
    ensures PassedOn(threads, c) <= |threads|
  {
    if threads != [] {
      PassedOnAtMost(threads[..|threads| - 1], c);
    }
  }

  /** Every thread that passed the load still takes one subtraction of at most maxSize. */
  ghost predicate Bounded(st: State, maxSize: nat, c: nat) {
    c < |st.chunks| ==>
      Limit(st.chunks[c]) - maxSize * |st.threads| + maxSize * PassedOn(st.threads, c) <= st.chunks[c].tail
  }

  ghost predicate SizesAtMost(st: State, maxSize: nat) {
    forall t :: 0 <= t < |st.threads| && !st.threads[t].Idle? ==> st.threads[t].size <= maxSize
  }

  lemma ScaledAtMost(maxSize: nat, a: nat, b: nat)
    requires a <= b
    ensures 0 <= maxSize * a <= maxSize * b
  {
  }

  /** A count that stays, a failed check of the tail included. */
  lemma TailStays(maxSize: nat, room: int, tail: int, n: nat, k: nat, k': nat)
    requires k' <= k && room - maxSize * n + maxSize * k <= tail
    ensures room - maxSize * n + maxSize * k' <= tail
  {
    ScaledAtMost(maxSize, k', k);
  }

  /** A subtraction takes one thread off the count. */
  lemma TailFalls(maxSize: nat, room: int, tail: int, size: nat, n: nat, k: nat)
    requires size <= maxSize && room - maxSize * n + maxSize * (k + 1) <= tail
    ensures room - maxSize * n + maxSize * k <= tail - size
  {
  }

  lemma TailAbove(maxSize: nat, room: int, tail: int, n: nat, k: nat)
    requires k <= n && room <= tail
    ensures room - maxSize * n + maxSize * k <= tail
  {
    ScaledAtMost(maxSize, k, n);
  }

  lemma CountAfter(st: State, step: Step, c: nat)
    requires Inv(st) && Enabled(st, step)
    ensures var th, th' := st.threads[step.t], Next(st, step).threads[step.t];
            && PassedOn(Next(st, step).threads, c) ==
               PassedOn(st.threads, c) - (if th.Passed? && th.chunk == c then 1 else 0)
               + (if th'.Passed? && th'.chunk == c then 1 else 0)
            && PassedOn(Next(st, step).threads, c) <= |Next(st, step).threads| == |st.threads|
  {
    var st' := Next(st, step);
    assert st'.threads == st.threads[step.t := st'.threads[step.t]];
    PassedOnSet(st.threads, step.t, st'.threads[step.t], c);
    PassedOnAtMost(st'.threads, c);
  }

  lemma StepKeepsBound(st: State, step: Step, maxSize: nat, c: nat)
    requires Inv(st) && Enabled(st, step) && SizesAtMost(st, maxSize) && Bounded(st, maxSize, c)
    ensures Bounded(Next(st, step), maxSize, c)
  {
    var st', th := Next(st, step), st.threads[step.t];
    CountAfter(st, step, c);
    StepExtends(st, step);
    var n, k, k' := |st.threads|, PassedOn(st.threads, c), PassedOn(st'.threads, c);
    if c < |st'.chunks| {
      var room, tail := Limit(st'.chunks[c]), st'.chunks[c].tail;
      if c >= |st.chunks| || (step.LoadTail? && room <= tail) {
        TailAbove(maxSize, room, tail, n, k');
      } else if step.FetchSub? && th.chunk == c {
        TailFalls(maxSize, room, st.chunks[c].tail, th.size, n, k');
      } else {
        TailStays(maxSize, room, tail, n, k, k');
      }
    }
  }

  /** When no request is larger than maxSize, no tail ever falls more than one such request a
      thread below its limit, however many allocations fail in the chunk. */
  lemma {:induction false} UnderflowIsBounded(sts: seq<State>, steps: seq<Step>, maxSize: nat, n: nat, c: nat)
    requires Run(sts, steps) && n < |sts| && c < |sts[n].chunks|
    requires forall i :: 0 <= i < |steps| && steps[i].Start? ==> steps[i].size <= maxSize
    ensures Limit(sts[n].chunks[c]) - maxSize * |sts[n].threads| <= sts[n].chunks[c].tail
  {
    BoundHolds(sts, steps, maxSize, n, c);
    ScaledAtMost(maxSize, 0, PassedOn(sts[n].threads, c));
  }

  lemma {:induction false} BoundHolds(sts: seq<State>, steps: seq<Step>, maxSize: nat, n: nat, c: nat)
    requires Run(sts, steps) && n < |sts|
    requires forall i :: 0 <= i < |steps| && steps[i].Start? ==> steps[i].size <= maxSize
    ensures SizesAtMost(sts[n], maxSize) && Bounded(sts[n], maxSize, c)
  {
    if n == 0 {
      PassedOnAtMost(sts[0].threads, c);
      ScaledAtMost(maxSize, PassedOn(sts[0].threads, c), |sts[0].threads|);
    } else {
      BoundHolds(sts, steps, maxSize, n - 1, c);
      RunsKeepInv(sts, steps, n - 1);
      StepKeepsBound(sts[n - 1], steps[n - 1], maxSize, c);
    }
  }

  lemma ExtendsCompose(a: State, b: State, c: State)
    requires Extends(a, b) && Extends(b, c)
    ensures Extends(a, c)
  {
  }

  lemma {:induction false} ChainExtends(sts: seq<State>, i: nat, j: nat)
    requires i <= j < |sts| && forall k :: 0 <= k < |sts| - 1 ==> Extends(sts[k], sts[k + 1])
    ensures Extends(sts[i], sts[j])
    decreases j
  {
    if i < j {
      ChainExtends(sts, i, j - 1);
      assert Extends(sts[j - 1], sts[j - 1 + 1]);
      ExtendsCompose(sts[i], sts[j - 1], sts[j]);
    }
  }

  lemma RunsExtend(sts: seq<State>, steps: seq<Step>, i: nat, j: nat)
    requires Run(sts, steps) && i <= j < |sts|
    ensures Extends(sts[i], sts[j])
  {
    forall k | 0 <= k < |sts| - 1 ensures Extends(sts[k], sts[k + 1]) {
      RunsKeepInv(sts, steps, k);
      StepExtends(sts[k], steps[k]);
    }
    ChainExtends(sts, i, j);
  }

  /** A chunk in which an allocation failed hands out nothing afterwards, and at most one
      successor is ever linked to a chunk. */
  lemma FailedChunkServesNoMore(sts: seq<State>, steps: seq<Step>, i: nat, j: nat, c: nat)
    requires Run(sts, steps) && i <= j < |steps| && c < |sts[i].chunks|
    ensures Extends(sts[i], sts[j]) && c < |sts[j].chunks|
    ensures sts[i].chunks[c].next.Some? ==> sts[j].chunks[c].next == sts[i].chunks[c].next
    ensures sts[i].chunks[c].tail < Limit(sts[i].chunks[c]) ==>
              sts[j + 1].regions == sts[j].regions || sts[j + 1].regions[|sts[j].regions|].chunk != c
  {
    RunsExtend(sts, steps, i, j);
  }

  /** A thread that looks for the next chunk has seen its chunk fail for good. */
  lemma GrowingSawFailure(sts: seq<State>, steps: seq<Step>, n: nat, t: nat)
    requires Run(sts, steps) && n < |sts| && t < |sts[n].threads|
    requires sts[n].threads[t].Growing? || sts[n].threads[t].Linking?
    ensures var c := sts[n].threads[t].chunk;
            c < |sts[n].chunks| && sts[n].chunks[c].tail < Limit(sts[n].chunks[c])
  {
    RunsKeepInv(sts, steps, n);
    assert ThreadOk(sts[n], sts[n].threads[t]);
  }
}
