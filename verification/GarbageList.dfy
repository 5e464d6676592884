/** A thread's garbage list: a linked list behind a header node, appended at last_p and
    collected from the front up to the first entry that is too young. */
module GarbageList {

  const GC_NODE_COUNT_THRESHOLD: nat := 1024

  /** Address of a retired root; 0 is the null pointer in the header. */
  type NodePtr = nat

  datatype Entry = Entry(epoch: nat, node: NodePtr)

  ghost predicate Sorted(s: seq<Entry>) {
    forall i, j :: 0 <= i < j < |s| ==> s[i].epoch <= s[j].epoch
  }

  /** How many leading entries are older than the given epoch. */
  ghost function Older(s: seq<Entry>, epoch: nat): (n: nat)
    ensures n <= |s|
    ensures forall i :: 0 <= i < n ==> s[i].epoch < epoch
    ensures n < |s| ==> s[n].epoch >= epoch
  {
    if s == [] || s[0].epoch >= epoch then 0 else 1 + Older(s[1..], epoch)
  }

  /** Because the list is sorted, cutting the prefix separates the entries exactly. */
  lemma OlderIsExact(s: seq<Entry>, epoch: nat, i: nat)
    requires Sorted(s) && i < |s|
    ensures i < Older(s, epoch) <==> s[i].epoch < epoch
  {
    var n := Older(s, epoch);
    assert n < i ==> s[n].epoch <= s[i].epoch;
  }

  ghost function MinEpoch(active: seq<nat>): (m: nat)
    requires |active| >= 1
    ensures m in active && forall i :: 0 <= i < |active| ==> m <= active[i]
  {
    var last := active[|active| - 1];
    if |active| == 1 then last
    else var m := MinEpoch(active[..|active| - 1]); if last < m then last else m
  }

  /** SummarizeGCEpoch over the last active epochs of all threads. */
  method SummarizeGCEpoch(active: seq<nat>) returns (min: nat)
    requires |active| >= 1
    ensures min == MinEpoch(active)
  {
    min := active[0];
    for i := 1 to |active|
      invariant min == MinEpoch(active[..i])
    {
      var ts := active[i];
      assert active[..i + 1][..i] == active[..i];
      if ts < min {
        min := ts;
      }
    }
    assert active[..|active|] == active;
  }

  class GarbageNode {
    const deleteEpoch: nat
    const node: NodePtr
    var next: GarbageNode?

    constructor (deleteEpoch: nat, node: NodePtr)
      ensures this.deleteEpoch == deleteEpoch && this.node == node && next == null
    {
      this.deleteEpoch, this.node, this.next := deleteEpoch, node, null;
    }
  }

  /** GCMetaData without its last active epoch; the header's own entry has no meaning. */
  class GCMetaData {
    const header: GarbageNode
    var lastP: GarbageNode
    var nodeCount: nat
    ghost var cells: seq<GarbageNode>

    /** cells are the list's nodes in order, the header first; node_count counts the others. */
    ghost predicate Chained()
      reads this, cells
    {
      && |cells| == nodeCount + 1 && cells[0] == header
      && (forall i, j :: 0 <= i < j < |cells| ==> cells[i] != cells[j])
      && (forall i {:trigger cells[i].next} :: 0 <= i < nodeCount ==> cells[i].next == cells[i + 1])
      && cells[nodeCount].next == null
    }

    ghost predicate Linked()
      reads this, cells
    {
      Chained() && lastP == cells[nodeCount]
    }

    /** The list is in order of epochs, which is what lets a collection stop early. */
    ghost predicate Valid()
      reads this, cells
    {
      Linked() && Sorted(Entries())
    }

    ghost function Entries(): seq<Entry>
      reads this, cells
      requires Chained()
    {
      EntriesOf(cells[1..])
    }

    constructor ()
      ensures Valid() && Entries() == [] && fresh(cells)
    {
      var h := new GarbageNode(0, 0);
      header, lastP, nodeCount, cells := h, h, 0, [h];
    }

    /** Links a cell behind last_p. */
    method Link(epoch: nat, node: NodePtr)
      requires Linked()
      modifies this, cells
      ensures Linked() && Entries() == old(Entries()) + [Entry(epoch, node)]
      ensures exists cell :: fresh(cell) && cells == old(cells) + [cell]
    {
      var cell := new GarbageNode(epoch, node);
      lastP.next := cell;
      lastP := cell;
      nodeCount := nodeCount + 1;
      cells := cells + [cell];
      assert cells[1..] == old(cells)[1..] + [cell];
      EntriesAppend(old(cells)[1..], cell);
    }

    /** The entry's epoch is the global epoch just read, which never decreases. */
    method Append(epoch: nat, node: NodePtr)
      requires Valid() && forall i :: 0 <= i < |Entries()| ==> Entries()[i].epoch <= epoch
      modifies this, cells
      ensures Valid() && Entries() == old(Entries()) + [Entry(epoch, node)]
      ensures exists cell :: fresh(cell) && cells == old(cells) + [cell]
    {
      AppendKeepsSorted(Entries(), Entry(epoch, node));
      Link(epoch, node);
    }

    /** Unlinks the first cell behind the header. */
    method Unlink(first: GarbageNode)
      requires Chained() && nodeCount > 0 && first == cells[1]
      modifies this`nodeCount, this`cells, header
      ensures Chained() && cells == [header] + old(cells)[2..]
    {
      ghost var was := cells;
      header.next := first.next;
      nodeCount := nodeCount - 1;
      cells := [header] + was[2..];
      assert forall i {:trigger cells[i]} :: 1 <= i < |cells| ==> cells[i] == was[i + 1];
    }

    /** The first n cells are unlinked and the rest is still chained. */
    ghost predicate Collecting(was: seq<GarbageNode>, n: nat)
      reads this, cells
    {
      && Chained() && n < |was| && cells == [header] + was[n + 1..]
      && (nodeCount > 0 ==> lastP == cells[nodeCount])
    }

    lemma SameLast(was: seq<GarbageNode>, n: nat, now: seq<GarbageNode>)
      requires n + 2 < |was| && now == [header] + was[n + 2..]
      ensures ([header] + was[n + 1..])[|was| - n - 1] == now[|now| - 1]
    {
    }

    method CollectOne(first: GarbageNode, ghost was: seq<GarbageNode>, ghost n: nat)
      requires Collecting(was, n) && nodeCount > 0 && first == cells[1]
      modifies this`nodeCount, this`cells, header
      ensures Collecting(was, n + 1) && nodeCount == old(nodeCount) - 1
    {
      assert nodeCount == |was| - n - 1;
      Unlink(first);
      assert cells == [header] + was[n + 2..];
      if n + 2 < |was| {
        SameLast(was, n, cells);
      }
    }

    lemma FirstIs(was: seq<GarbageNode>, n: nat)
      requires Collecting(was, n)
      ensures header.next == if n + 1 < |was| then was[n + 1] else null
      ensures n + 1 < |was| ==> nodeCount > 0 && cells[1] == was[n + 1]
      ensures nodeCount == |was| - n - 1 && cells[1..] == was[n + 1..]
    {
      assert cells[0].next == header.next;
    }

    /** The loop: stops at the first entry that is not older than the minimum. */
    method CollectOlder(minEpoch: nat) returns (firstP: GarbageNode?, freed: seq<Entry>)
      requires Valid()
      modifies this`nodeCount, this`cells, header
      ensures Collecting(old(cells), |freed|) && firstP == header.next
      ensures OldPrefix(freed, old(cells)[1..], minEpoch)
      ensures firstP != null ==> firstP.deleteEpoch >= minEpoch
    {
      freed := [];
      firstP := header.next;
      ghost var was := cells;
      FirstIs(was, 0);
      while firstP != null && firstP.deleteEpoch < minEpoch
        invariant Collecting(was, |freed|) && firstP == header.next
        invariant OldPrefix(freed, was[1..], minEpoch)
        decreases nodeCount
      {
        FirstIs(was, |freed|);
        assert was[1..][|freed|] == firstP;
        OneMore(freed, was[1..], minEpoch);
        CollectOne(firstP, was, |freed|);
        freed := freed + [Entry(firstP.deleteEpoch, firstP.node)];
        firstP := header.next;
      }
    }

    /** PerformGC: frees exactly the entries older than the minimum epoch, in the order
        they were retired, and leaves last_p and node_count right for the rest. */
    method PerformGC(minEpoch: nat) returns (freed: seq<Entry>)
      requires Valid()
      modifies this, header
      ensures Valid() && SplitAtEpoch(old(Entries()), freed, Entries(), minEpoch)
    {
      ghost var was, entries := cells, Entries();
      var firstP: GarbageNode?;
      firstP, freed := CollectOlder(minEpoch);
      FirstIs(was, |freed|);
      if firstP == null {
        lastP := header;
      }
      CollectedPrefix(freed, was[1..], minEpoch);
      assert was[1..][|freed|..] == cells[1..];
      PrefixSplits(entries, freed, Entries(), minEpoch);
    }

    /** AddGarbageNode: appends, and once more than the threshold is queued frees exactly
        the entries older than every thread's last active epoch. */
    method AddGarbageNode(epoch: nat, node: NodePtr, active: seq<nat>) returns (freed: seq<Entry>)
      requires Valid() && |active| >= 1
      requires forall i :: 0 <= i < |Entries()| ==> Entries()[i].epoch <= epoch
      modifies this, cells
      ensures Valid()
      ensures var all := old(Entries()) + [Entry(epoch, node)];
              if |all| > GC_NODE_COUNT_THRESHOLD
              then SplitAtEpoch(all, freed, Entries(), MinEpoch(active))
              else freed == [] && Entries() == all
    {
      Append(epoch, node);
      freed := [];
      if nodeCount > GC_NODE_COUNT_THRESHOLD {
        var min := SummarizeGCEpoch(active);
        freed := PerformGC(min);
      }
    }
  }

  /** freed are the entries older than the epoch, in order, and rest are the others. */
  ghost predicate SplitAtEpoch(all: seq<Entry>, freed: seq<Entry>, rest: seq<Entry>, epoch: nat) {
    && freed + rest == all
    && (forall i :: 0 <= i < |freed| ==> freed[i].epoch < epoch)
    && (forall i :: 0 <= i < |rest| ==> rest[i].epoch >= epoch)
  }

  lemma PrefixSplits(all: seq<Entry>, freed: seq<Entry>, rest: seq<Entry>, epoch: nat)
    requires Sorted(all) && freed + rest == all && |freed| == Older(all, epoch)
    ensures SplitAtEpoch(all, freed, rest, epoch) && Sorted(rest)
  {
    forall i | 0 <= i < |rest| ensures rest[i].epoch >= epoch {
      assert rest[i] == all[|freed| + i];
      OlderIsExact(all, epoch, |freed| + i);
    }
    forall i | 0 <= i < |freed| ensures freed[i].epoch < epoch {
      assert freed[i] == all[i];
    }
    forall i, j | 0 <= i < j < |rest| ensures rest[i].epoch <= rest[j].epoch {
      assert rest[i] == all[|freed| + i] && rest[j] == all[|freed| + j];
    }
  }

  ghost function EntriesOf(nodes: seq<GarbageNode>): (s: seq<Entry>)
    ensures |s| == |nodes|
    ensures forall i :: 0 <= i < |s| ==> s[i] == Entry(nodes[i].deleteEpoch, nodes[i].node)
  {
    seq(|nodes|, i requires 0 <= i < |nodes| => Entry(nodes[i].deleteEpoch, nodes[i].node))
  }

  lemma EntriesAppend(nodes: seq<GarbageNode>, cell: GarbageNode)
    ensures EntriesOf(nodes + [cell]) == EntriesOf(nodes) + [Entry(cell.deleteEpoch, cell.node)]
  {
  }

  /** freed are the first entries of the cells, all of them older than the epoch. */
  ghost predicate OldPrefix(freed: seq<Entry>, nodes: seq<GarbageNode>, epoch: nat) {
    freed <= EntriesOf(nodes) && forall i :: 0 <= i < |freed| ==> freed[i].epoch < epoch
  }

  lemma OneMore(freed: seq<Entry>, nodes: seq<GarbageNode>, epoch: nat)
    requires OldPrefix(freed, nodes, epoch)
    requires |freed| < |nodes| && nodes[|freed|].deleteEpoch < epoch
    ensures var cell := nodes[|freed|];
            OldPrefix(freed + [Entry(cell.deleteEpoch, cell.node)], nodes, epoch)
  {
  }

  lemma CollectedPrefix(freed: seq<Entry>, nodes: seq<GarbageNode>, epoch: nat)
    requires OldPrefix(freed, nodes, epoch)
    requires |freed| < |nodes| ==> nodes[|freed|].deleteEpoch >= epoch
    ensures |freed| <= |nodes| && EntriesOf(nodes) == freed + EntriesOf(nodes[|freed|..])
    ensures Older(EntriesOf(nodes), epoch) == |freed|
  {
    var s, n := EntriesOf(nodes), |freed|;
    assert s[n..] == EntriesOf(nodes[n..]);
    assert s == s[..n] + s[n..];
    OlderIs(s, epoch, n);
  }

  lemma {:induction false} OlderIs(s: seq<Entry>, epoch: nat, n: nat)
    requires n <= |s| && (forall i :: 0 <= i < n ==> s[i].epoch < epoch)
    requires n < |s| ==> s[n].epoch >= epoch
    ensures Older(s, epoch) == n
  {
    var m := Older(s, epoch);
  }

  /** Appending the current global epoch keeps the list sorted, so PerformGC's stopping at
      the first young entry never leaves an old one behind. */
  lemma AppendKeepsSorted(s: seq<Entry>, e: Entry)
    requires Sorted(s) && forall i :: 0 <= i < |s| ==> s[i].epoch <= e.epoch
    ensures Sorted(s + [e])
  {
  }
}
