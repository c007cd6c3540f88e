/**
  The ring buffer: a right block that starts at `data` and a left block at the buffer's start.
  Whatever the layout, it is a plain sequence of bytes.
 */
module RingBuffers {
  import opened Bytes

  const EXTRA_SIZE_AT_BUFFER_END: nat := 64
  const DEFAULT_CAPACITY: nat := 128

  predicate IsPowerOfTwo(x: nat) {
    x == 1 || (x > 1 && x % 2 == 0 && IsPowerOfTwo(x / 2))
  }

  /** The least power of two that is at least `x`. */
  function BitCeil(x: nat): (r: nat)
    ensures r >= x && IsPowerOfTwo(r)
  {
    if x <= 1 then 1 else 2 * BitCeil((x + 1) / 2)
  }

  lemma {:induction false} BitCeilIsLeast(x: nat, p: nat)
    requires IsPowerOfTwo(p) && p >= x
    ensures BitCeil(x) <= p
    decreases x
  {
    if x > 1 {
      BitCeilIsLeast((x + 1) / 2, p / 2);
    }
  }

  /** The bytes of a layout: a block of `right` bytes from `at` on, then the first `left` bytes. */
  function Laid(b: seq<Byte>, at: nat, right: nat, left: nat): (s: seq<Byte>)
    requires at + right <= |b| && left <= |b|
    ensures |s| == right + left
  {
    b[at..at + right] + b[..left]
  }

  lemma DroppedFromRight(b: seq<Byte>, at: nat, right: nat, left: nat, n: nat)
    requires n <= right && at + right <= |b| && left <= |b|
    ensures Laid(b, at + n, right - n, left) == Laid(b, at, right, left)[n..]
  {
    assert b[at..at + right][n..] == b[at + n..at + right];
  }

  lemma DroppedFromLeft(b: seq<Byte>, at: nat, right: nat, left: nat, n: nat)
    requires n <= left && at + right <= |b| && left <= |b|
    ensures Laid(b, n, left - n, 0) == Laid(b, at, right, left)[right + n..]
  {
    assert b[..left][n..] == b[n..left];
  }

  lemma AppendedToRight(b: seq<Byte>, at: nat, right: nat, left: nat, s: seq<Byte>)
    requires left <= at && at + right + |s| <= |b| && (left == 0 || s == [])
    ensures Laid(Overwritten(b, at + right, s), at, right + |s|, left) == Laid(b, at, right, left) + s
  {
    var b' := Overwritten(b, at + right, s);
    assert b'[at..at + right] == b[at..at + right] && b'[at + right..at + right + |s|] == s && b'[..left] == b[..left];
    SliceInTwoSteps(b', at, at + right, at + right + |s|);
  }

  lemma AppendedToLeft(b: seq<Byte>, at: nat, right: nat, left: nat, s: seq<Byte>)
    requires left + |s| <= at && at + right <= |b|
    ensures Laid(Overwritten(b, left, s), at, right, left + |s|) == Laid(b, at, right, left) + s
  {
    var b' := Overwritten(b, left, s);
    TakeFromFirst(b[..left] + s, b[left + |s|..], left + |s|);
    var x, y := b'[at..at + right], b[at..at + right];
    assert forall i :: 0 <= i < right ==> x[i] == b'[at + i] == b[at + i] == y[i];
  }

  lemma SliceOfRight(b: seq<Byte>, at: nat, right: nat, left: nat, pos: nat, end: nat)
    requires pos <= end <= right && at + right <= |b| && left <= |b|
    ensures Laid(b, at, right, left)[pos..end] == b[at + pos..at + end]
  {
    SliceOfSlice(b, at, at + right, pos, end);
  }

  lemma SliceOfLeft(b: seq<Byte>, at: nat, right: nat, left: nat, pos: nat, end: nat)
    requires right <= pos <= end <= right + left && at + right <= |b| && left <= |b|
    ensures Laid(b, at, right, left)[pos..end] == b[pos - right..end - right]
  {
    SliceOfSlice(b, 0, left, pos - right, end - right);
  }

  class RingBuffer {
    var buffer: array<Byte>
    var data: nat             // where the right block starts
    var rightSize: nat
    var rightSpace: nat       // free bytes after the right block
    var leftSize: nat
    var currentCapacity: nat
    var capacity: nat         // zero for no limit

    ghost predicate Valid()
      reads this
    {
      && buffer.Length == currentCapacity + EXTRA_SIZE_AT_BUFFER_END
      && data + rightSize + rightSpace == currentCapacity
      && leftSize <= data
      && (leftSize > 0 ==> rightSpace == 0)
      && currentCapacity > 0
      && (capacity > 0 ==> currentCapacity <= capacity)
    }

    ghost function Contents(): (s: seq<Byte>)
      requires Valid()
      reads this, buffer
      ensures |s| == Size()
    {
      Laid(buffer[..], data, rightSize, leftSize)
    }

    function Size(): nat
      reads this
    {
      rightSize + leftSize
    }

    predicate IsEmpty()
      reads this
    {
      Size() == 0
    }

    predicate IsFull()
      reads this
    {
      capacity > 0 && Size() == capacity
    }

    constructor (capacity: nat)
      ensures Valid() && fresh(buffer) && Contents() == [] && this.capacity == capacity
    {
      var current := if capacity > 0 then Min(capacity, DEFAULT_CAPACITY) else DEFAULT_CAPACITY;
      this.capacity := capacity;
      currentCapacity := current;
      rightSpace := current;
      buffer := new Byte[current + EXTRA_SIZE_AT_BUFFER_END];
      data, rightSize, leftSize := 0, 0, 0;
    }

    /** Less than the right block goes. */
    method DropFromRight(n: nat)
      requires Valid() && n <= rightSize
      modifies this`data, this`rightSize
      ensures Valid() && Contents() == old(Contents())[n..]
    {
      DroppedFromRight(buffer[..], data, rightSize, leftSize, n);
      data := data + n;
      rightSize := rightSize - n;
    }

    /** The right block goes, and the left block without its first bytes becomes the right one. */
    method DropRightBlock(fromLeft: nat)
      requires Valid() && fromLeft <= leftSize
      modifies this`data, this`rightSize, this`rightSpace, this`leftSize
      ensures Valid() && Contents() == old(Contents())[old(rightSize) + fromLeft..]
    {
      DroppedFromLeft(buffer[..], data, rightSize, leftSize, fromLeft);
      var remaining := Size() - rightSize - fromLeft;
      data := fromLeft;
      rightSize := leftSize - fromLeft;
      rightSpace := currentCapacity - leftSize;
      leftSize := 0;
      if remaining == 0 {
        rightSpace := currentCapacity;
        data := 0;
      }
    }

    method PopFront(maxSize: nat) returns (n: nat)
      requires Valid()
      modifies this`data, this`rightSize, this`rightSpace, this`leftSize
      ensures Valid() && n == Min(maxSize, old(Size())) && Contents() == old(Contents())[n..]
    {
      if rightSize > maxSize {
        n := maxSize;
        DropFromRight(n);
      } else {
        n := Min(maxSize, Size());
        DropRightBlock(n - rightSize);
      }
    }

    method Read(maxSize: nat) returns (bytes: seq<Byte>)
      requires Valid()
      modifies this`data, this`rightSize, this`rightSpace, this`leftSize
      ensures Valid() && bytes == old(Contents())[..Min(maxSize, old(Size()))]
      ensures Contents() == old(Contents())[|bytes|..]
    {
      if rightSize > maxSize {
        bytes := CopyFromRight(0, maxSize);
        DropFromRight(maxSize);
      } else {
        var n := Min(maxSize, Size());
        bytes := CopyFromBoth(0, n);
        DropRightBlock(n - rightSize);
      }
    }

    /** Whatever the sink accepts is gone from the front, and nothing else. */
    method ReadToSink(sink: DataSink) returns (n: nat)
      requires Valid()
      modifies this`data, this`rightSize, this`rightSpace, this`leftSize, sink
      ensures Valid() && n <= old(Size())
      ensures sink.accepted == old(sink.accepted) + old(Contents())[..n] && Contents() == old(Contents())[n..]
      ensures old(sink.limits) == [] ==> n == old(Size())
    {
      n := RightToSink(sink);
      if rightSize > n {
        DropFromRight(n);
      } else {
        n := RestToSink(sink, old(sink.accepted));
      }
    }

    /** The right block has gone to the sink; the left one follows. */
    method RestToSink(sink: DataSink, ghost before: seq<Byte>) returns (n: nat)
      requires Valid() && sink.accepted == before + Contents()[..rightSize]
      modifies this`data, this`rightSize, this`rightSpace, this`leftSize, sink
      ensures Valid() && n <= old(Size())
      ensures sink.accepted == before + old(Contents())[..n] && Contents() == old(Contents())[n..]
      ensures old(sink.limits) == [] ==> n == old(Size())
    {
      var right := rightSize;
      ghost var contents := Contents();
      var fromLeft := LeftToSink(sink);
      AppendInTwoSteps(before, contents, right, right + fromLeft);
      n := right + fromLeft;
    }

    method RightToSink(sink: DataSink) returns (n: nat)
      requires Valid()
      modifies sink
      ensures n <= rightSize && sink.accepted == old(sink.accepted) + Contents()[..n]
      ensures old(sink.limits) == [] ==> n == rightSize && sink.limits == []
    {
      n := sink.Write(buffer[..][data..data + rightSize]);
      SliceOfRight(buffer[..], data, rightSize, leftSize, 0, n);
    }

    method LeftToSink(sink: DataSink) returns (fromLeft: nat)
      requires Valid()
      modifies this`data, this`rightSize, this`rightSpace, this`leftSize, sink
      ensures Valid() && fromLeft <= old(leftSize)
      ensures sink.accepted == old(sink.accepted) + old(Contents())[old(rightSize)..old(rightSize) + fromLeft]
      ensures Contents() == old(Contents())[old(rightSize) + fromLeft..]
      ensures old(sink.limits) == [] ==> fromLeft == old(leftSize)
    {
      fromLeft := sink.Write(buffer[..][..leftSize]);
      SliceOfLeft(buffer[..], data, rightSize, leftSize, rightSize, rightSize + fromLeft);
      assert buffer[..][..leftSize][..fromLeft] == buffer[..][..fromLeft];
      DropRightBlock(fromLeft);
    }

    /** The content is laid out from the start of a new buffer. */
    method Relocate(newCapacity: nat)
      requires Valid() && Size() <= newCapacity && newCapacity > 0 && (capacity > 0 ==> newCapacity <= capacity)
      modifies this`buffer, this`data, this`rightSize, this`rightSpace, this`leftSize, this`currentCapacity
      ensures Valid() && fresh(buffer) && Contents() == old(Contents()) && currentCapacity == newCapacity
      ensures data == 0 && leftSize == 0
    {
      buffer := NewBuffer(newCapacity + EXTRA_SIZE_AT_BUFFER_END, buffer[..][data..data + rightSize],
        buffer[..][..leftSize]);
      data := 0;
      currentCapacity := newCapacity;
      rightSize := rightSize + leftSize;
      leftSize := 0;
      rightSpace := currentCapacity - rightSize;
    }

    method TryToEnlargeBuffer(count: nat) returns (enlarged: bool)
      requires Valid() && count > 0
      modifies this`buffer, this`data, this`rightSize, this`rightSpace, this`leftSize, this`currentCapacity
      ensures Valid() && Contents() == old(Contents())
      ensures buffer == old(buffer) || fresh(buffer)
      ensures enlarged <==> old(currentCapacity) != capacity
      ensures enlarged ==> currentCapacity >= (if capacity > 0 then Min(capacity, old(currentCapacity) + count)
        else old(currentCapacity) + count)
      ensures !enlarged ==> currentCapacity == old(currentCapacity)
    {
      if currentCapacity == capacity {
        return false;
      }
      var powerOfTwo := BitCeil(currentCapacity + count);
      var newCapacity := if capacity > 0 then Min(capacity, powerOfTwo) else powerOfTwo;
      assert newCapacity > currentCapacity;
      Relocate(newCapacity);
      enlarged := true;
    }

    /** A write appends all it can: everything, or as much as the capacity leaves room for. */
    method Write(bytes: seq<Byte>) returns (n: nat)
      requires Valid()
      modifies this`buffer, this`data, this`rightSize, this`rightSpace, this`leftSize, this`currentCapacity, buffer
      ensures Valid() && (buffer == old(buffer) || fresh(buffer))
      ensures n == if capacity == 0 then |bytes| else Min(|bytes|, capacity - old(Size()))
      ensures Contents() == old(Contents()) + bytes[..n]
    {
      var available := currentCapacity - Size();
      if available < |bytes| {
        var _ := TryToEnlargeBuffer(|bytes| - available);
      }
      n := Append(bytes);
    }

    method Append(bytes: seq<Byte>) returns (n: nat)
      requires Valid()
      modifies this`rightSize, this`rightSpace, this`leftSize, buffer
      ensures Valid() && n == Min(|bytes|, currentCapacity - old(Size()))
      ensures Contents() == old(Contents()) + bytes[..n]
    {
      if rightSpace > |bytes| {
        AppendToRight(bytes);
        n := |bytes|;
      } else {
        n := Min(|bytes|, currentCapacity - Size());
        var space := rightSpace;
        AppendInTwoSteps(Contents(), bytes, space, n);
        AppendToRight(bytes[..space]);
        AppendToLeft(bytes[space..n]);
      }
    }

    method AppendToRight(bytes: seq<Byte>)
      requires Valid() && |bytes| <= rightSpace
      modifies this`rightSize, this`rightSpace, buffer
      ensures Valid() && rightSpace == old(rightSpace) - |bytes| && rightSize == old(rightSize) + |bytes|
      ensures Contents() == old(Contents()) + bytes
    {
      AppendedToRight(buffer[..], data, rightSize, leftSize, bytes);
      CopyInto(buffer, data + rightSize, bytes);
      rightSize := rightSize + |bytes|;
      rightSpace := rightSpace - |bytes|;
    }

    method AppendToLeft(bytes: seq<Byte>)
      requires Valid() && rightSpace == 0 && leftSize + |bytes| <= data
      modifies this`leftSize, buffer
      ensures Valid() && Contents() == old(Contents()) + bytes
    {
      AppendedToLeft(buffer[..], data, rightSize, leftSize, bytes);
      CopyInto(buffer, leftSize, bytes);
      leftSize := leftSize + |bytes|;
    }

    /** What the source yields is appended in order and stays within the capacity. */
    method WriteFromSource(source: DataSource) returns (n: nat)
      requires Valid()
      modifies this`buffer, this`data, this`rightSize, this`rightSpace, this`leftSize, this`currentCapacity, buffer
      modifies source
      ensures Valid() && (buffer == old(buffer) || fresh(buffer))
      ensures n <= |old(source.pending)| && source.pending == old(source.pending)[n..]
      ensures Contents() == old(Contents()) + old(source.pending)[..n]
      ensures old(source.limits) == [] && old(source.announced) == |old(source.pending)| ==>
        n == if capacity == 0 then |old(source.pending)| else Min(|old(source.pending)|, capacity - old(Size()))
    {
      var available := currentCapacity - Size();
      if available < source.announced {
        var _ := TryToEnlargeBuffer(source.announced - available);
      }
      n := AppendFromSource(source);
    }

    method AppendFromSource(source: DataSource) returns (n: nat)
      requires Valid()
      modifies this`rightSize, this`rightSpace, this`leftSize, buffer, source
      ensures Valid()
      ensures n <= |old(source.pending)| && source.pending == old(source.pending)[n..]
      ensures Contents() == old(Contents()) + old(source.pending)[..n]
      ensures old(source.limits) == [] ==> n == Min(|old(source.pending)|, currentCapacity - old(Size()))
    {
      ghost var contents, pending := Contents(), source.pending;
      n := AppendToRightFromSource(source);
      if rightSpace == 0 {
        n := AppendRestFromSource(source, n, contents, pending);
      }
    }

    /** The right block is full; the left one takes the rest. */
    method AppendRestFromSource(source: DataSource, first: nat, ghost contents: seq<Byte>, ghost pending: seq<Byte>)
      returns (n: nat)
      requires Valid() && rightSpace == 0 && first <= |pending|
      requires source.pending == pending[first..] && Contents() == contents + pending[..first]
      modifies this`leftSize, buffer, source
      ensures Valid() && n <= |pending| && source.pending == pending[n..] && Contents() == contents + pending[..n]
      ensures old(source.limits) == [] ==> n == first + Min(currentCapacity - old(Size()), |pending| - first)
    {
      ghost var middle := Contents();
      var second := AppendToLeftFromSource(source);
      MoveInTwoSteps(contents, middle, Contents(), pending, first, second);
      n := first + second;
    }

    method AppendToRightFromSource(source: DataSource) returns (n: nat)
      requires Valid()
      modifies this`rightSize, this`rightSpace, buffer, source
      ensures Valid() && n <= |old(source.pending)| && n <= old(rightSpace)
      ensures source.pending == old(source.pending)[n..]
      ensures rightSpace == old(rightSpace) - n && Contents() == old(Contents()) + old(source.pending)[..n]
      ensures old(source.limits) == [] ==> source.limits == [] && n == Min(old(rightSpace), |old(source.pending)|)
    {
      var bytes := source.Read(rightSpace);
      AppendToRight(bytes);
      n := |bytes|;
    }

    method AppendToLeftFromSource(source: DataSource) returns (n: nat)
      requires Valid() && rightSpace == 0
      modifies this`leftSize, buffer, source
      ensures Valid() && n <= |old(source.pending)| && source.pending == old(source.pending)[n..]
      ensures Contents() == old(Contents()) + old(source.pending)[..n]
      ensures old(source.limits) == [] ==> n == Min(currentCapacity - old(Size()), |old(source.pending)|)
    {
      var bytes := source.Read(currentCapacity - Size());
      AppendToLeft(bytes);
      n := |bytes|;
    }

    function PeekChar(index: nat): Byte
      requires Valid() && index < Size()
      reads this, buffer
      ensures PeekChar(index) == Contents()[index]
    {
      if index < rightSize then buffer[data + index] else buffer[index - rightSize]
    }

    method CopyFromRight(pos: nat, end: nat) returns (bytes: seq<Byte>)
      requires Valid() && pos <= end <= rightSize
      ensures bytes == Contents()[pos..end]
    {
      bytes := buffer[..][data + pos..data + end];
      SliceOfRight(buffer[..], data, rightSize, leftSize, pos, end);
    }

    method CopyFromLeft(pos: nat, end: nat) returns (bytes: seq<Byte>)
      requires Valid() && rightSize <= pos <= end <= Size()
      ensures bytes == Contents()[pos..end]
    {
      bytes := buffer[..][pos - rightSize..end - rightSize];
      SliceOfLeft(buffer[..], data, rightSize, leftSize, pos, end);
    }

    method CopyFromBoth(pos: nat, end: nat) returns (bytes: seq<Byte>)
      requires Valid() && pos <= rightSize <= end <= Size()
      ensures bytes == Contents()[pos..end]
    {
      var fromRight := CopyFromRight(pos, rightSize);
      var fromLeft := CopyFromLeft(rightSize, end);
      bytes := fromRight + fromLeft;
      SliceInTwoSteps(Contents(), pos, rightSize, end);
    }

    /**
      A slice is the bytes asked for, in whatever block they lie; without a scratch buffer the content is relocated.
     */
    method Slice(pos: nat, count: nat, hasScratch: bool) returns (bytes: seq<Byte>)
      requires Valid() && count > 0 && pos + count <= Size()
      modifies this`buffer, this`data, this`rightSize, this`rightSpace, this`leftSize, this`currentCapacity
      ensures Valid() && (buffer == old(buffer) || fresh(buffer))
      ensures Contents() == old(Contents()) && currentCapacity == old(currentCapacity)
      ensures bytes == old(Contents())[pos..pos + count]
      ensures unchanged(this) || leftSize == 0
    {
      if pos + count <= rightSize {
        bytes := CopyFromRight(pos, pos + count);
      } else if pos >= rightSize {
        bytes := CopyFromLeft(pos, pos + count);
      } else if hasScratch {
        bytes := CopyFromBoth(pos, pos + count);
      } else {
        Relocate(currentCapacity);
        bytes := CopyFromRight(pos, pos + count);
      }
    }

    method ReadAll(hasScratch: bool) returns (bytes: seq<Byte>)
      requires Valid()
      modifies this`buffer, this`data, this`rightSize, this`rightSpace, this`leftSize, this`currentCapacity
      ensures Valid() && (buffer == old(buffer) || fresh(buffer))
      ensures bytes == old(Contents()) && Contents() == []
    {
      bytes := [];
      if !IsEmpty() {
        bytes := Slice(0, Size(), hasScratch);
      }
      data := 0;
      rightSize := 0;
      rightSpace := currentCapacity;
      leftSize := 0;
    }

    /** The capacity can be set unless the content would not fit. */
    method SetCapacity(newCapacity: nat) returns (ok: bool)
      requires Valid()
      modifies this`buffer, this`data, this`rightSize, this`rightSpace, this`leftSize, this`currentCapacity
      modifies this`capacity
      ensures Valid() && (buffer == old(buffer) || fresh(buffer))
      ensures Contents() == old(Contents())
      ensures !ok <==> 0 < newCapacity < Size()
      ensures capacity == if ok then newCapacity else old(capacity)
    {
      if newCapacity >= currentCapacity || newCapacity == 0 {
        capacity := newCapacity;
        ok := true;
      } else if Size() > newCapacity {
        ok := false;
      } else {
        capacity := 0;
        Relocate(Min(newCapacity, Max(DEFAULT_CAPACITY, BitCeil(Size()))));
        capacity := newCapacity;
        ok := true;
      }
    }

    method Clear()
      requires Valid()
      modifies this`buffer, this`data, this`rightSize, this`rightSpace, this`leftSize, this`currentCapacity
      ensures Valid() && (buffer == old(buffer) || fresh(buffer)) && Contents() == []
    {
      if currentCapacity > DEFAULT_CAPACITY {
        currentCapacity := DEFAULT_CAPACITY;
        buffer := new Byte[currentCapacity + EXTRA_SIZE_AT_BUFFER_END];
      }
      data := 0;
      rightSize := 0;
      rightSpace := currentCapacity;
      leftSize := 0;
    }

    method Reset() returns (ok: bool)
      requires Valid()
      modifies this`buffer, this`data, this`rightSize, this`rightSpace, this`leftSize, this`currentCapacity
      ensures Valid() && (buffer == old(buffer) || fresh(buffer)) && Contents() == old(Contents())
      ensures ok <==> Contents() == []
    {
      ok := IsEmpty();
      if ok {
        Clear();
      }
    }
  }
}
