/**
  A buffered channel over a source and a sink that may be short: no byte is lost, repeated or reordered.
 */
module IOChannels {
  import opened Bytes
  import opened RingBuffers

  lemma MovedAcross<T>(a: seq<T>, b: seq<T>, c: seq<T>, n: nat)
    requires n <= |b|
    ensures (a + b[..n]) + b[n..] == a + b && (a + b[..n]) + b[n..] + c == a + b + c
  {
    assert (a + b[..n]) + b[n..] == a + b;
  }

  lemma BothParts<T>(a: seq<T>, b: seq<T>, n: nat)
    requires n <= |b|
    ensures (a + b[..n]) + b[n..] == a + b
  {
  }

  lemma MovedIn<T>(a: seq<T>, b: seq<T>, c: seq<T>, n: nat)
    requires n <= |c|
    ensures a + (b + c[..n]) + c[n..] == a + b + c
  {
  }

  lemma AllMovedAcross<T>(a: seq<T>, b: seq<T>, c: seq<T>)
    ensures (a + b) + [] == a + b && (a + b) + [] + c == a + b + c && (a + []) + b == a + b
  {
  }

  class IOChannel {
    const readBuffer: RingBuffer
    const writeBuffer: RingBuffer
    const source: DataSource
    const sink: DataSink
    var isReadNotificationEnabled: bool
    var isWriteNotificationEnabled: bool
    ghost var written: seq<Byte>      // everything written to the channel
    ghost var incoming: seq<Byte>     // everything the source has yielded or will yield
    ghost var consumed: seq<Byte>     // everything read from the channel

    ghost predicate Valid()
      reads this, readBuffer, readBuffer.buffer, writeBuffer, writeBuffer.buffer, source, sink
    {
      ValidOut() && ValidIn() && writeBuffer != readBuffer && writeBuffer.buffer != readBuffer.buffer
    }

    /** What the sink has accepted and what waits for it are the bytes written, in order. */
    ghost predicate ValidOut()
      reads this, writeBuffer, writeBuffer.buffer, sink
    {
      writeBuffer.Valid() && writeBuffer.capacity == 0 && sink.accepted + writeBuffer.Contents() == written
    }

    /** What was read, what waits to be read and what the source still holds are the incoming bytes, in order. */
    ghost predicate ValidIn()
      reads this, readBuffer, readBuffer.buffer, source
    {
      readBuffer.Valid() && consumed + readBuffer.Contents() + source.pending == incoming
    }

    constructor (readBufferCapacity: nat, source: DataSource, sink: DataSink)
      requires sink.accepted == []
      ensures Valid() && fresh(readBuffer) && fresh(readBuffer.buffer) && fresh(writeBuffer)
      ensures fresh(writeBuffer.buffer)
      ensures this.source == source && this.sink == sink && readBuffer.capacity == readBufferCapacity
      ensures written == [] && consumed == [] && incoming == source.pending
      ensures isReadNotificationEnabled && isWriteNotificationEnabled
    {
      readBuffer := new RingBuffer(readBufferCapacity);
      writeBuffer := new RingBuffer(0);
      this.source := source;
      this.sink := sink;
      isReadNotificationEnabled, isWriteNotificationEnabled := true, true;
      written, incoming, consumed := [], source.pending, [];
    }

    /** Exactly these bytes have been written since. */
    twostate predicate HasWritten(bytes: seq<Byte>)
      reads this, writeBuffer, writeBuffer.buffer, sink
    {
      && ValidOut() && written == old(written) + bytes
      && (writeBuffer.buffer == old(writeBuffer.buffer) || fresh(writeBuffer.buffer))
    }

    /** Writing never fails, and asks for write notifications exactly when something is left to send. */
    method Write(bytes: seq<Byte>)
      requires ValidOut()
      modifies this`isWriteNotificationEnabled, this`written, writeBuffer, writeBuffer.buffer, sink
      ensures ValidOut() && (old(Valid()) ==> Valid())
      ensures (writeBuffer.buffer == old(writeBuffer.buffer) || fresh(writeBuffer.buffer))
      ensures written == old(written) + bytes
      ensures isWriteNotificationEnabled <==> !writeBuffer.IsEmpty()
      ensures old(sink.limits) == [] && old(writeBuffer.IsEmpty()) ==> writeBuffer.IsEmpty()
    {
      var bytesWritten := SendDirectly(bytes);
      Enqueue(bytes, bytesWritten);
      BothParts(old(written), bytes, bytesWritten);
      isWriteNotificationEnabled := !writeBuffer.IsEmpty();
    }

    /** Bytes go to the sink at once only while no others wait for it. */
    method SendDirectly(bytes: seq<Byte>) returns (n: nat)
      requires ValidOut()
      modifies this`written, sink
      ensures ValidOut() && n <= |bytes| && written == old(written) + bytes[..n]
      ensures old(sink.limits) == [] && writeBuffer.IsEmpty() ==> n == |bytes|
    {
      n := 0;
      if writeBuffer.IsEmpty() {
        AllMovedAcross(sink.accepted, [], []);
        n := sink.Write(bytes);
        AllMovedAcross(old(sink.accepted), bytes[..n], []);
        written := written + bytes[..n];
      }
    }

    method Enqueue(bytes: seq<Byte>, sent: nat)
      requires ValidOut() && sent <= |bytes|
      modifies this`written, writeBuffer, writeBuffer.buffer
      ensures ValidOut() && (writeBuffer.buffer == old(writeBuffer.buffer) || fresh(writeBuffer.buffer))
      ensures written == old(written) + bytes[sent..]
      ensures sent == |bytes| ==> writeBuffer.Size() == old(writeBuffer.Size())
    {
      if sent < |bytes| {
        var n := writeBuffer.Write(bytes[sent..]);
        assert bytes[sent..][..n] == bytes[sent..];
      }
      written := written + bytes[sent..];
    }

    method WriteDataToChannel() returns (sent: nat)
      requires ValidOut()
      modifies this`isWriteNotificationEnabled, writeBuffer, sink
      ensures ValidOut() && (old(Valid()) ==> Valid())
      ensures writeBuffer.buffer == old(writeBuffer.buffer)
      ensures sent <= old(writeBuffer.Size())
      ensures sink.accepted == old(sink.accepted) + old(writeBuffer.Contents())[..sent]
      ensures isWriteNotificationEnabled <==> !writeBuffer.IsEmpty()
      ensures old(sink.limits) == [] ==> writeBuffer.IsEmpty()
    {
      sent := 0;
      if !writeBuffer.IsEmpty() {
        ghost var accepted, waiting := sink.accepted, writeBuffer.Contents();
        sent := writeBuffer.ReadToSink(sink);
        MovedAcross(accepted, waiting, [], sent);
      }
      isWriteNotificationEnabled := !writeBuffer.IsEmpty();
    }

    /** Reading from the channel stops being asked for exactly when the read buffer is full. */
    method ReadDataFromChannel() returns (n: nat)
      requires ValidIn()
      modifies this`isReadNotificationEnabled, readBuffer, readBuffer.buffer, source
      ensures ValidIn() && (old(Valid()) ==> Valid())
      ensures readBuffer.buffer == old(readBuffer.buffer) || fresh(readBuffer.buffer)
      ensures n <= |old(source.pending)|
      ensures readBuffer.Contents() == old(readBuffer.Contents()) + old(source.pending)[..n]
      ensures readBuffer.capacity == old(readBuffer.capacity)
      ensures isReadNotificationEnabled <==> !readBuffer.IsFull()
      ensures old(source.limits) == [] && old(source.announced) == |old(source.pending)| ==>
        source.pending == [] || readBuffer.IsFull()
    {
      ghost var waiting, pending := readBuffer.Contents(), source.pending;
      n := readBuffer.WriteFromSource(source);
      MovedIn(consumed, waiting, pending, n);
      isReadNotificationEnabled := !readBuffer.IsFull();
    }

    method Read(maxSize: nat) returns (bytes: seq<Byte>)
      requires ValidIn()
      modifies this`isReadNotificationEnabled, this`consumed, readBuffer
      ensures ValidIn() && (old(Valid()) ==> Valid())
      ensures readBuffer.buffer == old(readBuffer.buffer)
      ensures bytes == old(readBuffer.Contents())[..Min(maxSize, old(readBuffer.Size()))]
      ensures consumed == old(consumed) + bytes
      ensures readBuffer.capacity == old(readBuffer.capacity)
      ensures isReadNotificationEnabled <==> !readBuffer.IsFull()
    {
      var isFull := readBuffer.IsFull();
      ghost var waiting := readBuffer.Contents();
      bytes := readBuffer.Read(maxSize);
      Consume(waiting, |bytes|);
      isReadNotificationEnabled := |bytes| > 0 || !isFull;
    }

    /** What has left the read buffer has been read. */
    ghost method Consume(waiting: seq<Byte>, n: nat)
      requires readBuffer.Valid() && n <= |waiting| && readBuffer.Contents() == waiting[n..]
      requires consumed + waiting + source.pending == incoming
      modifies this`consumed
      ensures ValidIn() && consumed == old(consumed) + waiting[..n]
    {
      MovedAcross(consumed, waiting, source.pending, n);
      consumed := consumed + waiting[..n];
    }

    method Skip(maxSize: nat) returns (n: nat)
      requires ValidIn()
      modifies this`isReadNotificationEnabled, this`consumed, readBuffer
      ensures ValidIn() && (old(Valid()) ==> Valid())
      ensures readBuffer.buffer == old(readBuffer.buffer)
      ensures n == Min(maxSize, old(readBuffer.Size())) && consumed == old(consumed) + old(readBuffer.Contents())[..n]
      ensures readBuffer.capacity == old(readBuffer.capacity)
      ensures isReadNotificationEnabled <==> !readBuffer.IsFull()
    {
      var isFull := readBuffer.IsFull();
      ghost var waiting := readBuffer.Contents();
      n := readBuffer.PopFront(maxSize);
      Consume(waiting, n);
      isReadNotificationEnabled := n > 0 || !isFull;
    }

    method ReadAll(hasScratch: bool) returns (bytes: seq<Byte>)
      requires ValidIn()
      modifies this`isReadNotificationEnabled, this`consumed, readBuffer
      ensures ValidIn() && (old(Valid()) ==> Valid())
      ensures readBuffer.buffer == old(readBuffer.buffer) || fresh(readBuffer.buffer)
      ensures bytes == old(readBuffer.Contents()) && readBuffer.Contents() == [] && consumed == old(consumed) + bytes
      ensures readBuffer.capacity == old(readBuffer.capacity)
      ensures isReadNotificationEnabled <==> old(isReadNotificationEnabled || readBuffer.IsFull())
    {
      var hasToEnableReadNotification := readBuffer.IsFull();
      ghost var waiting := readBuffer.Contents();
      bytes := readBuffer.ReadAll(hasScratch);
      AllMovedAcross(consumed, waiting, source.pending);
      consumed := consumed + bytes;
      if hasToEnableReadNotification {
        isReadNotificationEnabled := true;
      }
    }

    /**
      Changing the capacity keeps the bytes but not the notification: it agrees with the buffer afterwards
      exactly when the change leaves the buffer as full, or as little full, as it was.
     */
    method SetReadBufferCapacity(capacity: nat) returns (ok: bool)
      requires Valid()
      modifies readBuffer
      ensures Valid()
      ensures readBuffer.buffer == old(readBuffer.buffer) || fresh(readBuffer.buffer)
      ensures !ok <==> 0 < capacity < readBuffer.Size()
      ensures readBuffer.Contents() == old(readBuffer.Contents())
      ensures readBuffer.IsFull() <==> (if ok then 0 < capacity == readBuffer.Size() else old(readBuffer.IsFull()))
      ensures old(isReadNotificationEnabled == !readBuffer.IsFull()) ==>
        (isReadNotificationEnabled == !readBuffer.IsFull() <==> readBuffer.IsFull() == old(readBuffer.IsFull()))
    {
      ok := readBuffer.SetCapacity(capacity);
    }
  }

  /** A channel over a source of one byte that has read it. */
  method ReadOneByte(readBufferCapacity: nat) returns (channel: IOChannel)
    requires readBufferCapacity <= 1
    ensures fresh(channel) && fresh(channel.readBuffer) && fresh(channel.readBuffer.buffer) && channel.Valid()
    ensures channel.readBuffer.capacity == readBufferCapacity && channel.readBuffer.Size() == 1
    ensures channel.isReadNotificationEnabled <==> readBufferCapacity == 0
  {
    var source := new DataSource([0x41], 1, []);
    var sink := new DataSink([]);
    channel := new IOChannel(readBufferCapacity, source, sink);
    assert channel.readBuffer.Contents() == [];
    var n := channel.ReadDataFromChannel();
    assert channel.readBuffer.Contents() == [0x41][..n];
    assert source.pending == [0x41][n..];
  }

  /**
    Where a change of the capacity goes wrong: a buffer limited to its size is full and reading is still asked for;
    a full buffer whose limit is raised has room and reading is not asked for.
   */
  method StaleNotificationExample() returns (isFull: bool, isAsked: bool, hasRoom: bool, isStalled: bool)
    ensures isFull && isAsked && hasRoom && isStalled
  {
    var limited := ReadOneByte(0);
    var _ := limited.SetReadBufferCapacity(1);
    isFull, isAsked := limited.readBuffer.IsFull(), limited.isReadNotificationEnabled;
    var raised := ReadOneByte(1);
    var _ := raised.SetReadBufferCapacity(2);
    hasRoom, isStalled := !raised.readBuffer.IsFull(), !raised.isReadNotificationEnabled;
  }
}
