/**
  Loads of 32 bytes from a ring buffer, as if its content were contiguous.
 */
module SimdIterators {
  import opened Bytes
  import opened RingBuffers

  const VECTOR_SIZE: nat := 32

  /** What follows the left block's first bytes past the end of the buffer is a copy of them. */
  ghost predicate IsMirrored(ring: RingBuffer)
    requires ring.Valid()
    reads ring, ring.buffer
  {
    forall k :: 0 <= k < VECTOR_SIZE && k < ring.leftSize ==> ring.buffer[ring.currentCapacity + k] == ring.buffer[k]
  }

  /** A window shows the bytes from `i` on; what it holds past their end is stale. */
  ghost predicate IsWindow(w: seq<Byte>, s: seq<Byte>, i: nat) {
    |w| == VECTOR_SIZE && forall k :: 0 <= k < VECTOR_SIZE && i + k < |s| ==> w[k] == s[i + k]
  }

  /** Where the load starts, the bytes that follow are those of the content, across the end of the buffer too. */
  lemma WindowInLayout(b: seq<Byte>, at: nat, right: nat, left: nat, capacity: nat, index: nat)
    requires at + right <= capacity && capacity + VECTOR_SIZE <= |b| && left <= at && index <= right + left
    requires left > 0 ==> at + right == capacity
    requires forall k :: 0 <= k < VECTOR_SIZE && k < left ==> b[capacity + k] == b[k]
    ensures var first := if index < right then at + index else index - right;
      first + VECTOR_SIZE <= |b| && IsWindow(b[first..first + VECTOR_SIZE], Laid(b, at, right, left), index)
  {
    var first, s := if index < right then at + index else index - right, Laid(b, at, right, left);
    var w := b[first..first + VECTOR_SIZE];
    forall k | 0 <= k < VECTOR_SIZE && index + k < |s| ensures w[k] == s[index + k] {
      LaidAt(b, at, right, left, index + k);
      assert w[k] == b[first + k];
    }
  }

  lemma LaidAt(b: seq<Byte>, at: nat, right: nat, left: nat, i: nat)
    requires at + right <= |b| && left <= |b| && i < right + left
    ensures Laid(b, at, right, left)[i] == if i < right then b[at + i] else b[i - right]
  {
  }

  class SimdIterator {
    const ring: RingBuffer

    constructor (ring: RingBuffer)
      requires ring.Valid() && ring.currentCapacity >= VECTOR_SIZE
      modifies ring.buffer
      ensures this.ring == ring && ring.Valid() && IsMirrored(ring) && ring.Contents() == old(ring.Contents())
    {
      this.ring := ring;
      new;
      MirrorStart(ring);
    }

    /** The bytes from `index` on, as far as there are any; the load stays inside the buffer. */
    function NextAt(index: nat): (r: seq<Byte>)
      requires ring.Valid() && IsMirrored(ring) && index <= ring.Size()
      reads ring, ring.buffer
      ensures IsWindow(r, ring.Contents(), index)
    {
      WindowInLayout(ring.buffer[..], ring.data, ring.rightSize, ring.leftSize, ring.currentCapacity, index);
      if index < ring.rightSize then ring.buffer[..][ring.data + index..ring.data + index + VECTOR_SIZE]
      else ring.buffer[..][index - ring.rightSize..index - ring.rightSize + VECTOR_SIZE]
    }
  }

  method MirrorStart(ring: RingBuffer)
    requires ring.Valid() && ring.currentCapacity >= VECTOR_SIZE
    modifies ring.buffer
    ensures ring.Valid() && IsMirrored(ring) && ring.Contents() == old(ring.Contents())
  {
    var buffer, end := ring.buffer, ring.currentCapacity;
    ghost var before := buffer[..];
    CopyInto(buffer, end, buffer[..VECTOR_SIZE]);
    CopiedBehind(before, end, VECTOR_SIZE);
    LaidBelow(before, buffer[..], end, ring.data, ring.rightSize, ring.leftSize);
    forall k | 0 <= k < VECTOR_SIZE ensures buffer[end + k] == buffer[k] {
      assert buffer[..][end + k] == buffer[..][k];
    }
  }

  lemma CopiedBehind(b: seq<Byte>, end: nat, n: nat)
    requires n <= end && end + n <= |b|
    ensures var b' := Overwritten(b, end, b[..n]);
      (forall i :: 0 <= i < end ==> b'[i] == b[i]) && (forall k :: 0 <= k < n ==> b'[end + k] == b'[k])
  {
  }

  lemma LaidBelow(b: seq<Byte>, b': seq<Byte>, end: nat, at: nat, right: nat, left: nat)
    requires |b| == |b'| && at + right <= end <= |b| && left <= end
    requires forall i :: 0 <= i < end ==> b[i] == b'[i]
    ensures Laid(b, at, right, left) == Laid(b', at, right, left)
  {
    assert b[at..at + right] == b'[at..at + right];
  }
}
