/** The lock-free array stack with one pusher and any number of poppers, one shared
    memory access per step.

    A push first swaps the top pointer for null, writes its items above the old top and
    then stores the new top with the next version; the null pointer carries no version.
    A pop loads the top, reads the slot, and swaps in the slot below with the next
    version if pointer and version are unchanged. */
module AtomicStack {
  import opened Wrappers

  type Item(==, !new)

  datatype Top = Null | At(slot: int, version: nat)

  datatype Popper =
    | Out
    | Loaded(top: Top)
    | Read(top: Top, value: Item)

  datatype Pusher =
    | NoPush
    | Writing(top: Top, items: seq<Item>, written: nat)

  /** History of completed operations, in the order in which they took effect. */
  datatype Op = Push(items: seq<Item>) | Pop(item: Item)

  datatype State = State(data: seq<Item>, top: Top, pusher: Pusher, poppers: seq<Popper>, log: seq<Op>)

  datatype Step =
    | PushBegin(items: seq<Item>)
    | PushWrite
    | PushStore
    | PopLoad(p: nat)
    | PopRead(p: nat)
    | PopCas(p: nat)

  /** The top that a push started from, or the current one. */
  function Current(st: State): Top {
    if st.pusher.Writing? then st.pusher.top else st.top
  }

  /** SingleThreadPush and SingleThreadCommitPush are the caller's one pusher thread, and the
      caller has to make the array large enough. */
  ghost predicate Enabled(st: State, step: Step) {
    match step
    case PushBegin(items) => st.pusher.NoPush? && st.top.At? && st.top.slot + |items| < |st.data|
    case PushWrite => st.pusher.Writing? && st.pusher.written < |st.pusher.items|
                      && st.pusher.top.At? && 0 <= st.pusher.top.slot + 1 + st.pusher.written < |st.data|
    case PushStore => st.pusher.Writing? && st.pusher.written == |st.pusher.items| && st.pusher.top.At?
    case PopLoad(p) => p < |st.poppers| && st.poppers[p].Out?
    case PopRead(p) => p < |st.poppers| && st.poppers[p].Loaded?
                       && st.poppers[p].top.At? && 0 <= st.poppers[p].top.slot < |st.data|
    case PopCas(p) => p < |st.poppers| && st.poppers[p].Read? && st.poppers[p].top.At?
  }

  /** With a null top or one below the array the pop gives up and reports an empty stack. */
  function AfterLoad(top: Top): Popper {
    if top.Null? || top.slot < 0 then Out else Loaded(top)
  }

  ghost function Next(st: State, step: Step): State
    requires Enabled(st, step)
  {
    match step
    case PushBegin(items) => st.(top := Null, pusher := Writing(st.top, items, 0))
    case PushWrite =>
      var w := st.pusher;
      st.(data := st.data[w.top.slot + 1 + w.written := w.items[w.written]],
          pusher := Writing(w.top, w.items, w.written + 1))
    case PushStore =>
      var w := st.pusher;
      st.(top := At(w.top.slot + |w.items|, w.top.version + 1), pusher := NoPush, log := st.log + [Push(w.items)])
    case PopLoad(p) => st.(poppers := st.poppers[p := AfterLoad(st.top)])
    case PopRead(p) =>
      var t := st.poppers[p].top;
      st.(poppers := st.poppers[p := Read(t, st.data[t.slot])])
    case PopCas(p) =>
      var r := st.poppers[p];
      if st.top == r.top
      then st.(top := At(r.top.slot - 1, r.top.version + 1), poppers := st.poppers[p := Out],
               log := st.log + [Pop(r.value)])
      else st.(poppers := st.poppers[p := AfterLoad(st.top)])
  }

  // ----- the sequential stack -----

  /** What the history leaves on the stack; None if some pop did not return the top item. */
  ghost function Replayed(log: seq<Op>): Option<seq<Item>> {
    if log == [] then Some([])
    else
      var before := Replayed(log[..|log| - 1]);
      var op := log[|log| - 1];
      if before.None? then None
      else match op
        case Push(items) => Some(before.value + items)
        case Pop(item) =>
          if before.value != [] && before.value[|before.value| - 1] == item
          then Some(before.value[..|before.value| - 1]) else None
  }

  ghost function Pushed(log: seq<Op>): multiset<Item> {
    if log == [] then multiset{}
    else Pushed(log[..|log| - 1]) + match log[|log| - 1]
                                    case Push(items) => multiset(items)
                                    case Pop(_) => multiset{}
  }

  ghost function Popped(log: seq<Op>): multiset<Item> {
    if log == [] then multiset{}
    else Popped(log[..|log| - 1]) + match log[|log| - 1]
                                    case Push(_) => multiset{}
                                    case Pop(item) => multiset{item}
  }

  /** In every last-in first-out history pushed items are popped items plus remaining ones. */
  lemma {:induction false} NothingLostOrDuplicated(log: seq<Op>)
    requires Replayed(log).Some?
    ensures Pushed(log) == Popped(log) + multiset(Replayed(log).value)
  {
    if log != [] {
      var before := log[..|log| - 1];
      NothingLostOrDuplicated(before);
      var s := Replayed(before).value;
      if log[|log| - 1].Pop? {
        assert s == s[..|s| - 1] + [s[|s| - 1]];
      }
    }
  }

  lemma LogGrows(log: seq<Op>, op: Op)
    requires Replayed(log).Some?
    ensures (log + [op])[..|log|] == log
    ensures op.Push? ==> Replayed(log + [op]) == Some(Replayed(log).value + op.items)
    ensures var s := Replayed(log).value;
            op.Pop? && s != [] && s[|s| - 1] == op.item ==> Replayed(log + [op]) == Some(s[..|s| - 1])
  {
    assert (log + [op])[..|log|] == log;
  }

  // ----- the invariant -----

  ghost predicate Slot(st: State, t: Top) {
    t.At? && -1 <= t.slot < |st.data|
  }

  /** The items below the top, which is what the stack holds. */
  ghost function Contents(st: State): seq<Item>
    requires Slot(st, Current(st))
  {
    st.data[..Current(st).slot + 1]
  }

  ghost predicate PusherOk(st: State) {
    && Slot(st, Current(st))
    && (st.top.Null? <==> st.pusher.Writing?)
    && (st.pusher.Writing? ==>
          var w, first := st.pusher, st.pusher.top.slot + 1;
          && w.written <= |w.items| && first + |w.items| <= |st.data|
          && st.data[first..first + w.written] == w.items[..w.written])
  }

  /** A snapshot with the current version is the current top, and its value is still there. */
  ghost predicate PopperOk(st: State, p: Popper)
    requires Slot(st, Current(st))
  {
    !p.Out? ==>
      && Slot(st, p.top) && p.top.slot >= 0
      && p.top.version <= Current(st).version
      && (p.top.version == Current(st).version ==>
            p.top == Current(st) && (p.Read? ==> p.value == st.data[p.top.slot]))
  }

  ghost predicate Inv(st: State) {
    && PusherOk(st)
    && (forall p :: 0 <= p < |st.poppers| ==> PopperOk(st, st.poppers[p]))
    && Replayed(st.log) == Some(Contents(st))
  }

  // ----- every step -----

  lemma PushWriteStep(st: State)
    requires Inv(st) && Enabled(st, PushWrite)
    ensures Inv(Next(st, PushWrite))
  {
    var st', w := Next(st, PushWrite), st.pusher;
    var first := w.top.slot + 1;
    assert st'.data[first..first + w.written + 1]
        == st.data[first..first + w.written] + [w.items[w.written]];
    assert w.items[..w.written + 1] == w.items[..w.written] + [w.items[w.written]];
    assert Contents(st') == Contents(st);
    forall p | 0 <= p < |st'.poppers| ensures PopperOk(st', st'.poppers[p]) {
      assert PopperOk(st, st.poppers[p]);
    }
  }

  /** Every snapshot taken so far is older than the version that the push stores. */
  lemma PushOutdatesPoppers(st: State, p: nat)
    requires Inv(st) && Enabled(st, PushStore) && p < |st.poppers|
    requires Slot(Next(st, PushStore), Current(Next(st, PushStore)))
    ensures PopperOk(Next(st, PushStore), st.poppers[p])
  {
    assert PopperOk(st, st.poppers[p]);
  }

  lemma PushStoreContents(st: State)
    requires PusherOk(st) && Enabled(st, PushStore)
    ensures PusherOk(Next(st, PushStore))
    ensures Contents(Next(st, PushStore)) == Contents(st) + st.pusher.items
  {
    var w := st.pusher;
    var first := w.top.slot + 1;
    var last := first + |w.items|;
    assert w.items[..|w.items|] == w.items;
    assert st.data[..last] == st.data[..first] + st.data[first..last];
  }

  lemma PushStoreStep(st: State)
    requires Inv(st) && Enabled(st, PushStore)
    ensures Inv(Next(st, PushStore))
    ensures Contents(Next(st, PushStore)) == Contents(st) + st.pusher.items
  {
    PushStoreContents(st);
    LogGrows(st.log, Push(st.pusher.items));
    forall p | 0 <= p < |st.poppers| ensures PopperOk(Next(st, PushStore), st.poppers[p]) {
      PushOutdatesPoppers(st, p);
    }
  }

  /** A winning pop returns the item that is on top at that moment, and removes it. */
  lemma PopCasStep(st: State, p: nat)
    requires Inv(st) && Enabled(st, PopCas(p))
    ensures Inv(Next(st, PopCas(p)))
    ensures st.top == st.poppers[p].top ==>
              var s := Contents(st);
              && s != [] && st.poppers[p].value == s[|s| - 1]
              && Contents(Next(st, PopCas(p))) == s[..|s| - 1]
  {
    var st', r := Next(st, PopCas(p)), st.poppers[p];
    assert PopperOk(st, r);
    if st.top == r.top {
      var s := Contents(st);
      assert s[|s| - 1] == st.data[r.top.slot];
      assert Contents(st') == s[..|s| - 1];
      LogGrows(st.log, Pop(r.value));
    }
    forall u | 0 <= u < |st'.poppers| ensures PopperOk(st', st'.poppers[u]) {
      assert PopperOk(st, st.poppers[u]);
    }
  }

  predicate Later(a: Top, b: Top) {
    a.At? && b.At? && (a == b || a.version < b.version)
  }

  lemma StepKeepsInv(st: State, step: Step)
    requires Inv(st) && Enabled(st, step)
    ensures Inv(Next(st, step))
    ensures Later(Current(st), Current(Next(st, step)))
  {
    var st' := Next(st, step);
    match step {
      case PushBegin(_) =>
        forall p | 0 <= p < |st'.poppers| ensures PopperOk(st', st'.poppers[p]) {
          assert PopperOk(st, st.poppers[p]);
        }
      case PushWrite => PushWriteStep(st);
      case PushStore => PushStoreStep(st);
      case PopLoad(q) =>
        forall p | 0 <= p < |st'.poppers| ensures PopperOk(st', st'.poppers[p]) {
          assert PopperOk(st, st.poppers[p]);
        }
      case PopRead(q) =>
        forall p | 0 <= p < |st'.poppers| ensures PopperOk(st', st'.poppers[p]) {
          assert PopperOk(st, st.poppers[p]);
        }
      case PopCas(p) => PopCasStep(st, p);
    }
  }

  // ----- runs -----

  ghost predicate Init(st: State) {
    st.top == At(-1, 0) && st.pusher.NoPush? && st.log == [] && forall p :: p in st.poppers ==> p.Out?
  }

  ghost predicate Run(sts: seq<State>, steps: seq<Step>) {
    && |sts| == |steps| + 1 && Init(sts[0])
    && forall i :: 0 <= i < |steps| ==> Enabled(sts[i], steps[i]) && sts[i + 1] == Next(sts[i], steps[i])
  }

  lemma {:induction false} RunsKeepInv(sts: seq<State>, steps: seq<Step>, n: nat)
    requires Run(sts, steps) && n < |sts|
    ensures Inv(sts[n])
  {
    if n > 0 {
      RunsKeepInv(sts, steps, n - 1);
      StepKeepsInv(sts[n - 1], steps[n - 1]);
    }
  }

  /** Every run is a last-in first-out history, and pushed items are popped plus remaining. */
  lemma RunsAreStacks(sts: seq<State>, steps: seq<Step>, n: nat)
    requires Run(sts, steps) && n < |sts|
    ensures Slot(sts[n], Current(sts[n])) && Replayed(sts[n].log) == Some(Contents(sts[n]))
    ensures Pushed(sts[n].log) == Popped(sts[n].log) + multiset(Contents(sts[n]))
  {
    RunsKeepInv(sts, steps, n);
    NothingLostOrDuplicated(sts[n].log);
  }

  lemma {:induction false} CurrentMovesOn(sts: seq<State>, steps: seq<Step>, i: nat, j: nat)
    requires Run(sts, steps) && i <= j < |sts|
    ensures Later(Current(sts[i]), Current(sts[j]))
    decreases j
  {
    RunsKeepInv(sts, steps, j);
    if i < j {
      CurrentMovesOn(sts, steps, i, j - 1);
      RunsKeepInv(sts, steps, j - 1);
      StepKeepsInv(sts[j - 1], steps[j - 1]);
    }
  }

  /** Versions of different non-null tops strictly increase along every run, although a
      null top in between carries none. */
  lemma VersionsIncrease(sts: seq<State>, steps: seq<Step>, i: nat, j: nat)
    requires Run(sts, steps) && i <= j < |sts| && sts[i].top.At? && sts[j].top.At?
    ensures sts[i].top == sts[j].top || sts[i].top.version < sts[j].top.version
  {
    RunsKeepInv(sts, steps, i);
    RunsKeepInv(sts, steps, j);
    CurrentMovesOn(sts, steps, i, j);
  }

  // ----- what an operation gives its caller -----

  /** The step is a pop's first load or a swap that it loses. */
  predicate LoadsTop(st: State, step: Step) {
    step.PopLoad? || (step.PopCas? && step.p < |st.poppers| && st.poppers[step.p].Read? && st.top != st.poppers[step.p].top)
  }

  /** In every run a pop reports an empty stack only when it is empty or a push is under way;
      otherwise it holds a snapshot of the current top, whether it loads or loses its swap. */
  lemma EmptyReportIsRight(sts: seq<State>, steps: seq<Step>, n: nat)
    requires Run(sts, steps) && n < |steps| && LoadsTop(sts[n], steps[n])
    ensures Slot(sts[n], Current(sts[n])) && steps[n].p < |sts[n + 1].poppers| && sts[n + 1].top == sts[n].top
    ensures var popper := sts[n + 1].poppers[steps[n].p];
            if sts[n].pusher.Writing? || Contents(sts[n]) == [] then popper == Out
            else popper == Loaded(sts[n].top)
  {
    RunsKeepInv(sts, steps, n);
  }

  /** In every run the slot that a pop reads next is inside the array, and a thread inside an
      operation always has a next step. */
  lemma NeverStuck(sts: seq<State>, steps: seq<Step>, n: nat, p: nat)
    requires Run(sts, steps) && n < |sts| && p < |sts[n].poppers|
    ensures sts[n].poppers[p].Loaded? ==> Enabled(sts[n], PopRead(p))
    ensures sts[n].poppers[p].Read? ==> Enabled(sts[n], PopCas(p))
    ensures sts[n].pusher.Writing? ==> Enabled(sts[n], PushWrite) || Enabled(sts[n], PushStore)
  {
    RunsKeepInv(sts, steps, n);
    assert PopperOk(sts[n], sts[n].poppers[p]);
  }

  /** Without a push or another pop in between, a pop on a stack that is not empty returns
      its last item and leaves the others. */
  lemma UncontendedPop(st: State, p: nat)
    requires Inv(st) && p < |st.poppers| && st.poppers[p].Out? && st.pusher.NoPush? && Contents(st) != []
    ensures var s := Contents(st);
            var st1 := Next(st, PopLoad(p));
            && Enabled(st1, PopRead(p))
            && var st2 := Next(st1, PopRead(p));
               && Enabled(st2, PopCas(p))
               && var st3 := Next(st2, PopCas(p));
                  && st3.log == st.log + [Pop(s[|s| - 1])] && st3.poppers[p].Out?
                  && Slot(st3, Current(st3)) && Contents(st3) == s[..|s| - 1]
  {
    var st1 := Next(st, PopLoad(p));
    StepKeepsInv(st, PopLoad(p));
    var st2 := Next(st1, PopRead(p));
    StepKeepsInv(st1, PopRead(p));
    PopCasStep(st2, p);
    assert st2.poppers[p].top == st2.top == st.top;
    assert Contents(st2) == Contents(st);
  }

  /** The pusher alone, from the first write to the store. */
  lemma {:induction false} UncontendedPush(st: State) returns (steps: seq<Step>, sts: seq<State>)
    requires Inv(st) && st.pusher.Writing?
    ensures |sts| == |steps| + 1 && sts[0] == st
    ensures forall i :: 0 <= i < |steps| ==>
              (steps[i].PushWrite? || steps[i].PushStore?) && Enabled(sts[i], steps[i]) && sts[i + 1] == Next(sts[i], steps[i])
    ensures var last := sts[|sts| - 1];
            && last.pusher.NoPush? && last.log == st.log + [Push(st.pusher.items)]
            && Slot(last, Current(last)) && Contents(last) == Contents(st) + st.pusher.items
    decreases |st.pusher.items| - st.pusher.written
  {
    if st.pusher.written == |st.pusher.items| {
      PushStoreContents(st);
      steps, sts := [PushStore], [st, Next(st, PushStore)];
    } else {
      var st1 := Next(st, PushWrite);
      PushWriteStep(st);
      assert Contents(st1) == Contents(st);
      var steps1, sts1 := UncontendedPush(st1);
      steps, sts := [PushWrite] + steps1, [st] + sts1;
    }
  }
}
