/** AllocationMeta as one thread sees it: without contention Allocate always returns. */
module ChunkChain {
  import opened Wrappers
  import opened ChunkAllocator

  class AllocationMeta {
    const top: int
    const limit: int
    var tail: int
    var next: AllocationMeta?

    constructor (tail: int, limit: int)
      ensures this.tail == this.top == tail && this.limit == limit && next == null
    {
      this.tail, this.top, this.limit, this.next := tail, tail, limit, null;
    }

    /** None once the tail has gone below the limit, or now goes below it. */
    method TryAllocate(size: nat) returns (p: Option<int>)
      modifies this`tail
      ensures old(tail) >= limit && old(tail) - size >= limit ==> p == Some(old(tail) - size) && tail == old(tail) - size
      ensures old(tail) < limit || old(tail) - size < limit ==> p == None && tail < limit && tail <= old(tail)
    {
      if tail < limit {
        return None;
      }
      tail := tail - size;
      if tail < limit {
        return None;
      }
      return Some(tail);
    }

    /** The successor, linked on first use; newChunk is what operator new returns. */
    method GrowChunk(chunkSize: nat, newChunk: int) returns (meta: AllocationMeta)
      modifies this`next
      ensures next == meta && (old(next) != null ==> meta == old(next))
      ensures old(next) == null ==>
                && fresh(meta) && meta.next == null && meta.tail == meta.top == newChunk + chunkSize
                && meta.limit == newChunk + META_SIZE
    {
      if next != null {
        return next;
      }
      meta := new AllocationMeta(newChunk + chunkSize, newChunk + META_SIZE);
      next := meta;
    }
  }

  /** The chunks reachable from the first one, in order. */
  ghost predicate Chain(cs: seq<AllocationMeta>)
    reads cs
  {
    && cs != []
    && (forall i, j :: 0 <= i < j < |cs| ==> cs[i] != cs[j])
    && (forall i {:trigger cs[i].next} :: 0 <= i < |cs| - 1 ==> cs[i].next == cs[i + 1])
    && cs[|cs| - 1].next == null
  }

  ghost predicate Exhausted(c: AllocationMeta)
    reads c
  {
    c.tail < c.limit
  }

  /** One round that failed in chunk i: the next chunk is there, at most one was added. */
  method Advance(meta: AllocationMeta, chunkSize: nat, newChunk: int, ghost cs: seq<AllocationMeta>, ghost i: nat)
    returns (m: AllocationMeta, ghost cs': seq<AllocationMeta>)
    requires Chain(cs) && i < |cs| && cs[i] == meta
    modifies meta`next
    ensures Chain(cs') && cs <= cs' && i + 1 < |cs'| && cs'[i + 1] == m
    ensures i + 1 < |cs| ==> cs' == cs
    ensures i + 1 == |cs| ==>
              && cs' == cs + [m] && fresh(m) && m.tail == m.top == newChunk + chunkSize
              && m.limit == newChunk + META_SIZE
  {
    assert i + 1 < |cs| ==> cs[i].next == cs[i + 1];
    m := meta.GrowChunk(chunkSize, newChunk);
    cs' := if i + 1 < |cs| then cs else cs + [m];
  }

  /** Allocate: for any size that fits an empty chunk the loop ends, with the bytes right
      below the old tail of the first chunk that has room, or of one added chunk. */
  method Allocate(head: AllocationMeta, size: nat, chunkSize: nat, newChunk: int, ghost cs: seq<AllocationMeta>)
    returns (p: int, ghost at: nat, ghost cs': seq<AllocationMeta>)
    requires Chain(cs) && head == cs[0]
    requires META_SIZE + size <= chunkSize
    modifies cs
    ensures Chain(cs') && cs <= cs' && |cs'| <= |cs| + 1 && at < |cs'|
    ensures cs'[at].limit <= p && cs'[at].tail == p
    ensures at < |cs| ==> p + size == old(cs[at].tail)
    ensures at == |cs| ==> p + size == cs'[at].top == newChunk + chunkSize
    ensures forall i :: 0 <= i < at ==> Exhausted(cs'[i])
    ensures forall i :: 0 <= i < |cs| && i < at ==> old(cs[i].tail) - size < cs[i].limit
    ensures forall i :: at < i < |cs| ==> cs[i].tail == old(cs[i].tail)
  {
    var meta := head;
    at, cs' := 0, cs;
    while true
      invariant Chain(cs') && cs <= cs' && at < |cs'| <= |cs| + 1 && meta == cs'[at]
      invariant at == |cs| ==> fresh(meta) && meta.tail == meta.top == newChunk + chunkSize
                               && meta.limit == newChunk + META_SIZE
      invariant at < |cs| ==> cs' == cs
      invariant forall i :: 0 <= i < at ==> Exhausted(cs'[i])
      invariant forall i :: 0 <= i < |cs| && i < at ==> old(cs[i].tail) - size < cs[i].limit
      invariant forall i :: at <= i < |cs| ==> cs[i].tail == old(cs[i].tail)
      invariant forall c :: c in cs' ==> c in cs || fresh(c)
      decreases |cs| - at
    {
      var r := meta.TryAllocate(size);
      if r.Some? {
        p := r.value;
        return;
      }
      meta, cs' := Advance(meta, chunkSize, newChunk, cs', at);
      at := at + 1;
    }
  }
}
