/** BloomFilter: a 256-bit filter in front of a linear array of the inserted
    values. The bit test only ever short-cuts a negative answer. */
module BloomFilter {

  const FILTER_SIZE := 32

  /** (hash & BYTE_OFFSET_MASK) >> 3 */
  function ByteIndex(h: bv64): (i: nat)
    ensures i < FILTER_SIZE
  {
    ((h & 0xF8) >> 3) as nat
  }

  /** 0x1 << (hash & BIT_OFFSET_MASK) */
  function BitMask(h: bv64): (m: bv8)
    ensures m != 0
  {
    (1 as bv8) << ((h & 0x07) as bv4)
  }

  ghost predicate RespectsEquality<T(!new)>(eq: (T, T) -> bool, hash: T -> bv64) {
    forall a, b :: eq(a, b) ==> hash(a) == hash(b)
  }

  /** The XOR hash of a key-value pair respects component-wise equality. */
  lemma PairHashRespects<K(!new), V(!new)>(keq: (K, K) -> bool, khash: K -> bv64,
                                           veq: (V, V) -> bool, vhash: V -> bv64)
    requires RespectsEquality(keq, khash) && RespectsEquality(veq, vhash)
    ensures RespectsEquality((a: (K, V), b: (K, V)) => keq(a.0, b.0) && veq(a.1, b.1),
                             (a: (K, V)) => khash(a.0) ^ vhash(a.1))
  {
    forall a: (K, V), b: (K, V) | keq(a.0, b.0) && veq(a.1, b.1)
      ensures khash(a.0) ^ vhash(a.1) == khash(b.0) ^ vhash(b.1)
    {
      assert khash(a.0) == khash(b.0) && vhash(a.1) == vhash(b.1);
    }
  }

  lemma OrKeepsBits(x: bv8, y: bv8, m: bv8)
    requires m != 0
    ensures x & m != 0 ==> (x | y) & m != 0
    ensures (x | m) & m != 0
  {
  }

  class Filter<T(!new)> {
    const bits: array<bv8>
    const data: array<T>
    var count: nat
    const eq: (T, T) -> bool
    const hash: T -> bv64

    /** Every inserted value has its bit set: the filter has no false negative. */
    ghost predicate Valid()
      reads this, bits, data
    {
      && bits.Length == FILTER_SIZE && bits as object != data
      && count <= data.Length
      && RespectsEquality(eq, hash)
      && forall i :: 0 <= i < count ==> bits[ByteIndex(hash(data[i]))] & BitMask(hash(data[i])) != 0
    }

    function Contents(): (s: seq<T>)
      reads this, data
      requires count <= data.Length
    {
      data[..count]
    }

    constructor (data: array<T>, eq: (T, T) -> bool, hash: T -> bv64)
      requires RespectsEquality(eq, hash)
      ensures Valid() && fresh(bits) && Contents() == []
      ensures this.data == data && this.eq == eq && this.hash == hash && count == 0
    {
      this.bits := new bv8[FILTER_SIZE](_ => 0);
      this.data := data;
      this.count := 0;
      this.eq, this.hash := eq, hash;
    }

    method Insert(value: T)
      requires Valid() && count < data.Length
      modifies this`count, data, bits
      ensures Valid() && count == old(count) + 1
      ensures Contents() == old(Contents()) + [value]
    {
      var h := hash(value);
      data[count] := value;
      count := count + 1;
      var b := ByteIndex(h);
      bits[b] := bits[b] | BitMask(h);
      forall i | 0 <= i < count
        ensures bits[ByteIndex(hash(data[i]))] & BitMask(hash(data[i])) != 0
      {
        OrKeepsBits(old(bits[b]), BitMask(h), BitMask(hash(data[i])));
      }
    }

    /** The answer is exactly membership up to eq, whatever the hash collides on. */
    method Exists(value: T) returns (found: bool)
      requires Valid()
      ensures found <==> exists x :: x in Contents() && eq(value, x)
    {
      var h := hash(value);
      if bits[ByteIndex(h)] & BitMask(h) == 0 {
        return false;
      }
      for i := 0 to count
        invariant forall j :: 0 <= j < i ==> !eq(value, data[j])
      {
        if eq(value, data[i]) {
          assert data[i] in Contents();
          return true;
        }
      }
      return false;
    }
  }
}
