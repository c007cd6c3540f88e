/**
  From the calls on a broker to what a receiver reads: the response that is read says what the calls were given.
 */
module HttpExchanges {
  import opened Bytes
  import opened ChunkMetadata
  import opened ChunkStreams
  import opened HttpBrokers
  import opened HttpFields
  import opened HttpResponses
  import opened Options

  // ---------- Responses of known length ----------

  /** The first fields of every response. */
  function FirstFields(date: seq<Byte>, closes: bool): seq<Field> {
    [Field(Text("Server"), Text("Kourier")), Field(Text("Date"), date)]
    + (if closes then [Field(Text("Connection"), Text("close"))] else [])
  }

  function TypeFields(mimeType: seq<Byte>): seq<Field> {
    if mimeType == [] then [] else [Field(Text("Content-Type"), mimeType)]
  }

  /** What a receiver is to read of a response of known length, with its length in `size`. */
  function PlainMessage(statusLine: seq<Byte>, date: seq<Byte>, closes: bool, size: seq<Byte>, mimeType: seq<Byte>,
      headers: seq<Field>, body: seq<Byte>): Message
    requires |statusLine| >= 2
  {
    Message(statusLine[..|statusLine| - 2],
            FirstFields(date, closes) + [Field(Text("Content-Length"), size)] + TypeFields(mimeType) + headers,
            body, [])
  }

  /** What it is to read of a chunked one. */
  function ChunkedMessage(statusLine: seq<Byte>, date: seq<Byte>, closes: bool, mimeType: seq<Byte>,
      headers: seq<Field>, names: seq<seq<Byte>>, body: seq<Byte>, trailers: seq<Field>): Message
    requires |statusLine| >= 2
  {
    Message(statusLine[..|statusLine| - 2],
            FirstFields(date, closes) + TypeFields(mimeType) + [Field(Text("Transfer-Encoding"), Text("chunked"))]
            + (if names == [] then [] else [Field(Text("Trailer"), Joined(names))]) + headers,
            body, trailers)
  }

  /** What is read is the message, and what has been written before is as it was. */
  ghost predicate Adds(before: State, after: State, m: Message) {
    && PrintedLog(before.log) <= PrintedLog(after.log)
    && ReadMessage(PrintedLog(after.log)[|PrintedLog(before.log)|..]) == Some(Reading(m, []))
  }

  lemma AddedIsRead(before: State, after: State, r: Response)
    requires after.log == before.log + [r] && IsComplete(r) && IsStatusLine(r.head.statusLine) && IsClean(r)
    ensures Adds(before, after, MessageOf(r))
  {
    PrintedLogAppend(before.log, r);
    ResponseIsReadBackExactly(r, []);
    assert Printed(r) + [] == Printed(r);
    assert PrintedLog(after.log)[|PrintedLog(before.log)|..] == Printed(r);
  }

  /**
    A response of known length, written when none is open or complete: status line, the common fields, the length of
    the body, its type, the headers given, and the body given.
   */
  lemma {:induction false} PlainResponseIsRead(st: State, statusLine: seq<Byte>, date: seq<Byte>, mimeType: seq<Byte>,
      headers: seq<Field>, body: seq<Byte>) returns (size: seq<Byte>)
    requires InStep(st) && !st.isWriting && !st.wrote
    requires IsStatusLine(statusLine) && IsCleanValue(date) && IsCleanValue(mimeType) && AreCleanFields(headers)
    requires if IsBodyless(WithoutEnd(statusLine)) then body == [] else !IsChunked(headers)
    ensures IsDecimal(size) && DecimalNumber(size) == |body|
    ensures Adds(st, Step(st, WriteResponse(statusLine, date, mimeType, headers, body)),
      PlainMessage(statusLine, date, st.close, size, mimeType, headers, body))
  {
    size := Decimal(|body|);
    DecimalReadBack(|body|);
    DecimalIsDecimal(|body|);
    var head := Head(statusLine, date, st.close, mimeType, headers);
    FieldsOfPlain(head, body);
    AddedIsRead(st, Step(st, WriteResponse(statusLine, date, mimeType, headers, body)), Plain(head, body));
  }

  lemma FieldsOfPlain(head: Head, body: seq<Byte>)
    ensures Fields(Plain(head, body)) ==
      FirstFields(head.date, head.closes) + [Field(Text("Content-Length"), Decimal(|body|))]
      + TypeFields(head.mimeType) + head.headers
  {
    TwoAppends(FirstFields(head.date, head.closes), [ContentLength(|body|)], TypeFields(head.mimeType));
  }

  // ---------- Chunked responses ----------

  /** Calls that leave an open response open. */
  predicate IsBetween(call: Call) {
    call.WriteChunk? || call.CloseConnectionAfterResponding? || call.ResetResponseWriting?
  }

  predicate AreBetween(calls: seq<Call>) {
    forall i :: 0 <= i < |calls| ==> IsBetween(calls[i])
  }

  /** The data of the chunks written. */
  ghost function DataOf(calls: seq<Call>): seq<Byte> {
    if calls == [] then [] else
      var last := calls[|calls| - 1];
      DataOf(calls[..|calls| - 1]) + (if last.WriteChunk? then last.data else [])
  }

  /** Their chunks; data of no bytes makes none. */
  ghost function ChunksOf(calls: seq<Call>): seq<seq<Byte>> {
    if calls == [] then [] else
      var last := calls[|calls| - 1];
      ChunksOf(calls[..|calls| - 1]) + (if last.WriteChunk? && last.data != [] then [last.data] else [])
  }

  lemma {:induction false} FlattenMore(chunks: seq<seq<Byte>>, data: seq<Byte>)
    ensures Flatten(chunks + [data]) == Flatten(chunks) + data
  {
    if chunks == [] {
      assert [data][1..] == [] && [] + [data] == [data];
    } else {
      FlattenMore(chunks[1..], data);
      assert (chunks + [data])[1..] == chunks[1..] + [data];
    }
  }

  lemma {:induction false} ChunksAreTheData(calls: seq<Call>)
    ensures Flatten(ChunksOf(calls)) == DataOf(calls)
    ensures (forall i :: 0 <= i < |calls| && calls[i].WriteChunk? ==> |calls[i].data| < MAX_CHUNK_SIZE) ==>
      AreReadable(ChunksOf(calls))
    decreases |calls|
  {
    if calls != [] {
      var last := calls[|calls| - 1];
      ChunksAreTheData(calls[..|calls| - 1]);
      var chunks, data := ChunksOf(calls[..|calls| - 1]), DataOf(calls[..|calls| - 1]);
      assert chunks + [] == chunks && data + [] == data;
      if last.WriteChunk? && last.data != [] {
        FlattenMore(chunks, last.data);
      }
    }
  }

  /** The open response, with these chunks so far, is the last one after the responses before. */
  ghost predicate IsWriting(st: State, log: seq<Response>, head: Head, names: seq<seq<Byte>>, chunks: seq<seq<Byte>>) {
    st.isWriting && st.log == log + [Chunked(head, names, chunks, None)]
  }

  lemma {:induction false} ChunksAreAdded(st: State, calls: seq<Call>, log: seq<Response>, head: Head,
      names: seq<seq<Byte>>)
    requires InStep(st) && AreBetween(calls) && IsWriting(st, log, head, names, [])
    ensures IsWriting(Run(st, calls), log, head, names, ChunksOf(calls))
    decreases |calls|
  {
    if calls != [] {
      var init, last := calls[..|calls| - 1], calls[|calls| - 1];
      ChunksAreAdded(st, init, log, head, names);
      assert IsBetween(last);
      ChunkIsAdded(Run(st, init), last, log, head, names, ChunksOf(init));
    }
  }

  lemma ChunkIsAdded(st: State, call: Call, log: seq<Response>, head: Head, names: seq<seq<Byte>>,
      chunks: seq<seq<Byte>>)
    requires InStep(st) && IsBetween(call) && IsWriting(st, log, head, names, chunks)
    ensures IsWriting(Step(st, call), log, head, names,
      chunks + if call.WriteChunk? && call.data != [] then [call.data] else [])
  {
    assert st.log[..|st.log| - 1] == log;
    assert chunks + [] == chunks;
  }

  /** What ends an open response, and with which trailers: the calls for a new one end it, too. */
  predicate IsEnd(call: Call) {
    call.WriteLastChunk? || call.WriteResponse? || call.WriteChunkedResponse?
  }

  function TrailersOf(call: Call): seq<Field> {
    if call.WriteLastChunk? then call.trailers else []
  }

  lemma {:induction false} RunOfThree(st: State, first: Call, calls: seq<Call>, last: Call)
    requires InStep(st)
    ensures InStep(Step(st, first)) && Run(st, [first] + calls + [last]) == Step(Run(Step(st, first), calls), last)
    decreases |calls|
  {
    StepKeepsInStep(st, first);
    RunAfterFirst(st, first, calls);
    RunOneMore(st, [first] + calls, last);
  }

  lemma RunOneMore(st: State, calls: seq<Call>, last: Call)
    requires InStep(st)
    ensures Run(st, calls + [last]) == Step(Run(st, calls), last)
  {
    assert (calls + [last])[..|calls|] == calls;
  }

  lemma {:induction false} RunAfterFirst(st: State, first: Call, calls: seq<Call>)
    requires InStep(st) && InStep(Step(st, first))
    ensures Run(st, [first] + calls) == Run(Step(st, first), calls)
    decreases |calls|
  {
    if calls == [] {
      assert [first] + calls == [] + [first];
      RunOneMore(st, [], first);
    } else {
      var init, last := calls[..|calls| - 1], calls[|calls| - 1];
      assert [first] + calls == [first] + init + [last];
      RunAfterFirst(st, first, init);
      RunOneMore(st, [first] + init, last);
    }
  }

  lemma {:induction false} EndedResponse(st: State, calls: seq<Call>, last: Call, log: seq<Response>, head: Head,
      names: seq<seq<Byte>>)
    requires InStep(st) && AreBetween(calls) && IsEnd(last) && IsWriting(st, log, head, names, [])
    ensures Step(Run(st, calls), last).log == log + [Chunked(head, names, ChunksOf(calls), Some(TrailersOf(last)))]
  {
    ChunksAreAdded(st, calls, log, head, names);
    var open := Run(st, calls);
    assert open.log[..|open.log| - 1] == log;
  }

  /**
    A chunked response: the head from the call that opens it, the body from all the chunks written in between, the
    trailers from the call that ends it.
   */
  lemma {:induction false} ChunkedResponseIsRead(st: State, statusLine: seq<Byte>, date: seq<Byte>,
      mimeType: seq<Byte>, headers: seq<Field>, names: seq<seq<Byte>>, calls: seq<Call>, last: Call)
    requires InStep(st) && !st.isWriting && !st.wrote && AreBetween(calls) && IsEnd(last)
    requires IsStatusLine(statusLine) && IsCleanValue(date) && IsCleanValue(mimeType) && AreCleanFields(headers)
    requires !IsBodyless(WithoutEnd(statusLine)) && (names != [] ==> IsCleanValue(Joined(names)))
    requires forall i :: 0 <= i < |calls| && calls[i].WriteChunk? ==> |calls[i].data| < MAX_CHUNK_SIZE
    requires AreCleanFields(TrailersOf(last))
    ensures Adds(st, Run(st, [WriteChunkedResponse(statusLine, date, mimeType, headers, names)] + calls + [last]),
      ChunkedMessage(statusLine, date, st.close, mimeType, headers, names, DataOf(calls),
                     if last.WriteLastChunk? then last.trailers else []))
  {
    var first := WriteChunkedResponse(statusLine, date, mimeType, headers, names);
    var head := Head(statusLine, date, st.close, mimeType, headers);
    RunOfThree(st, first, calls, last);
    EndedResponse(Step(st, first), calls, last, st.log, head, names);
    ChunksAreTheData(calls);
    var r := Chunked(head, names, ChunksOf(calls), Some(TrailersOf(last)));
    FieldsOfChunked(head, names, r);
    AddedIsRead(st, Run(st, [first] + calls + [last]), r);
  }

  lemma FieldsOfChunked(head: Head, names: seq<seq<Byte>>, r: Response)
    requires r.Chunked? && r.head == head && r.trailerNames == names
    ensures Fields(r) == FirstFields(head.date, head.closes) + TypeFields(head.mimeType)
      + [Field(Text("Transfer-Encoding"), Text("chunked"))]
      + (if names == [] then [] else [Field(Text("Trailer"), Joined(names))]) + head.headers
  {
    ThreeAppends(FirstFields(head.date, head.closes), TypeFields(head.mimeType), [CHUNKED], TrailerFields(names));
  }

  /** The names of trailers, with commas between them. */
  lemma {:induction false} JoinedNames(names: seq<seq<Byte>>)
    requires names != []
    ensures Joined(names) == if |names| == 1 then names[0] else names[0] + Text(", ") + Joined(names[1..])
    decreases |names|
  {
    var last := |names| - 1;
    if last > 1 {
      JoinedNames(names[..last]);
      assert names[..last][1..] == names[1..][..last - 1];
    } else if last == 1 {
      assert names[..1] == [names[0]] && names[1..] == [names[1]];
    }
  }

  // ---------- Calls that write nothing ----------

  /** Once a response is complete, nothing is written until writing is reset, and never after a closing one. */
  lemma NothingMoreIsWritten(st: State, call: Call)
    requires InStep(st) && st.wrote
    ensures Step(st, call).log == st.log
    ensures Step(st, call).wrote <==> !call.ResetResponseWriting? || st.hasClosed
  {
  }

  /** While no response is open, chunks and ends write nothing. */
  lemma NothingIsOpen(st: State, call: Call)
    requires InStep(st) && !st.isWriting && !call.WriteResponse? && !call.WriteChunkedResponse?
    ensures Step(st, call).log == st.log
  {
  }

  // ---------- The broker ----------

  /** The bytes that a channel has written since are read as exactly this message. */
  twostate predicate HasSent(b: HttpBrokerPrivate, m: Message)
    reads b.channel
  {
    && old(b.channel.written) <= b.channel.written
    && ReadMessage(b.channel.written[|old(b.channel.written)|..]) == Some(Reading(m, []))
  }

  lemma SentIsAdded(prefix: seq<Byte>, before: State, after: State, m: Message)
    requires Adds(before, after, m)
    ensures var start, end := prefix + PrintedLog(before.log), prefix + PrintedLog(after.log);
      start <= end && ReadMessage(end[|start|..]) == Some(Reading(m, []))
  {
    SliceBehindPrefix(prefix, PrintedLog(before.log), PrintedLog(after.log));
  }

  lemma SliceBehindPrefix(prefix: seq<Byte>, a: seq<Byte>, b: seq<Byte>)
    requires a <= b
    ensures prefix + a <= prefix + b && (prefix + b)[|prefix + a|..] == b[|a|..]
  {
  }

  /** The broker writes a response of known length. */
  method Respond(b: HttpBrokerPrivate, statusLine: seq<Byte>, date: seq<Byte>, mimeType: seq<Byte>,
      headers: seq<Field>, body: seq<Byte>) returns (ghost size: seq<Byte>)
    requires b.Valid() && !b.isWritingChunkedResponse && !b.wroteResponse
    requires IsStatusLine(statusLine) && IsCleanValue(date) && IsCleanValue(mimeType) && AreCleanFields(headers)
    requires if IsBodyless(WithoutEnd(statusLine)) then body == [] else !IsChunked(headers)
    modifies b`isWritingChunkedResponse, b`wroteResponse, b`hasWrittenCloseConnectionHeader, b`log
    modifies b.channel`isWriteNotificationEnabled, b.channel`written, b.channel.writeBuffer
    modifies b.channel.writeBuffer.buffer, b.channel.sink
    ensures b.Valid() && IsDecimal(size) && DecimalNumber(size) == |body|
    ensures HasSent(b, PlainMessage(statusLine, date, b.closeAfterResponding, size, mimeType, headers, body))
  {
    ghost var before := b.Abs();
    size := PlainResponseIsRead(before, statusLine, date, mimeType, headers, body);
    b.WriteResponse(statusLine, date, mimeType, headers, body);
    SentIsAdded(b.before, before, b.Abs(),
      PlainMessage(statusLine, date, b.closeAfterResponding, size, mimeType, headers, body));
  }

  /** The calls that write these chunks. */
  ghost function ChunkCalls(data: seq<seq<Byte>>): seq<Call> {
    seq(|data|, i requires 0 <= i < |data| => WriteChunk(data[i]))
  }

  lemma {:induction false} DataOfChunkCalls(data: seq<seq<Byte>>)
    ensures DataOf(ChunkCalls(data)) == Flatten(data)
    decreases |data|
  {
    if data != [] {
      var init, last := data[..|data| - 1], data[|data| - 1];
      DataOfChunkCalls(init);
      FlattenMore(init, last);
      assert data == init + [last] && ChunkCalls(data)[..|data| - 1] == ChunkCalls(init);
    }
  }

  /** The broker writes a response in chunks. */
  method RespondInChunks(b: HttpBrokerPrivate, statusLine: seq<Byte>, date: seq<Byte>, mimeType: seq<Byte>,
      headers: seq<Field>, names: seq<seq<Byte>>, data: seq<seq<Byte>>, trailers: seq<Field>)
    requires b.Valid() && !b.isWritingChunkedResponse && !b.wroteResponse
    requires IsStatusLine(statusLine) && IsCleanValue(date) && IsCleanValue(mimeType) && AreCleanFields(headers)
    requires !IsBodyless(WithoutEnd(statusLine)) && (names != [] ==> IsCleanValue(Joined(names)))
    requires AreReadable(data) && AreCleanFields(trailers)
    modifies b`isWritingChunkedResponse, b`wroteResponse, b`hasWrittenCloseConnectionHeader, b`log
    modifies b.channel`isWriteNotificationEnabled, b.channel`written, b.channel.writeBuffer
    modifies b.channel.writeBuffer.buffer, b.channel.sink
    ensures b.Valid()
    ensures HasSent(b, ChunkedMessage(statusLine, date, b.closeAfterResponding, mimeType, headers, names,
                                      Flatten(data), trailers))
  {
    ghost var before := b.Abs();
    ChunkedResponseOf(before, statusLine, date, mimeType, headers, names, data, trailers);
    WriteInChunks(b, statusLine, date, mimeType, headers, names, data, trailers);
    SentIsAdded(b.before, before, b.Abs(), ChunkedMessage(statusLine, date, b.closeAfterResponding, mimeType, headers,
                                                          names, Flatten(data), trailers));
  }

  ghost function CallsFor(statusLine: seq<Byte>, date: seq<Byte>, mimeType: seq<Byte>, headers: seq<Field>,
      names: seq<seq<Byte>>, data: seq<seq<Byte>>, trailers: seq<Field>): seq<Call> {
    [WriteChunkedResponse(statusLine, date, mimeType, headers, names)] + ChunkCalls(data) + [WriteLastChunk(trailers)]
  }

  lemma ChunkedResponseOf(st: State, statusLine: seq<Byte>, date: seq<Byte>, mimeType: seq<Byte>,
      headers: seq<Field>, names: seq<seq<Byte>>, data: seq<seq<Byte>>, trailers: seq<Field>)
    requires InStep(st) && !st.isWriting && !st.wrote
    requires IsStatusLine(statusLine) && IsCleanValue(date) && IsCleanValue(mimeType) && AreCleanFields(headers)
    requires !IsBodyless(WithoutEnd(statusLine)) && (names != [] ==> IsCleanValue(Joined(names)))
    requires AreReadable(data) && AreCleanFields(trailers)
    ensures Adds(st, Run(st, CallsFor(statusLine, date, mimeType, headers, names, data, trailers)),
      ChunkedMessage(statusLine, date, st.close, mimeType, headers, names, Flatten(data), trailers))
  {
    DataOfChunkCalls(data);
    ChunkedResponseIsRead(st, statusLine, date, mimeType, headers, names, ChunkCalls(data), WriteLastChunk(trailers));
  }

  method WriteInChunks(b: HttpBrokerPrivate, statusLine: seq<Byte>, date: seq<Byte>, mimeType: seq<Byte>,
      headers: seq<Field>, names: seq<seq<Byte>>, data: seq<seq<Byte>>, trailers: seq<Field>)
    requires b.Valid()
    modifies b`isWritingChunkedResponse, b`wroteResponse, b`hasWrittenCloseConnectionHeader, b`log
    modifies b.channel`isWriteNotificationEnabled, b.channel`written, b.channel.writeBuffer
    modifies b.channel.writeBuffer.buffer, b.channel.sink
    ensures b.Valid()
    ensures b.Abs() == Run(old(b.Abs()), CallsFor(statusLine, date, mimeType, headers, names, data, trailers))
  {
    RunOfThree(b.Abs(), Call.WriteChunkedResponse(statusLine, date, mimeType, headers, names), ChunkCalls(data),
      Call.WriteLastChunk(trailers));
    b.WriteChunkedResponse(statusLine, date, mimeType, headers, names);
    WriteChunks(b, data);
    b.WriteLastChunk(trailers);
  }

  method WriteChunks(b: HttpBrokerPrivate, data: seq<seq<Byte>>)
    requires b.Valid()
    modifies b`log
    modifies b.channel`isWriteNotificationEnabled, b.channel`written, b.channel.writeBuffer
    modifies b.channel.writeBuffer.buffer, b.channel.sink
    ensures b.Valid() && b.Abs() == Run(old(b.Abs()), ChunkCalls(data))
    ensures b.channel.writeBuffer.buffer == old(b.channel.writeBuffer.buffer) || fresh(b.channel.writeBuffer.buffer)
  {
    ghost var before := b.Abs();
    for i := 0 to |data|
      invariant b.Valid() && b.Abs() == Run(before, ChunkCalls(data[..i]))
      invariant b.channel.writeBuffer.buffer == old(b.channel.writeBuffer.buffer)
        || fresh(b.channel.writeBuffer.buffer)
    {
      b.WriteChunk(data[i]);
      RunOneMore(before, ChunkCalls(data[..i]), WriteChunk(data[i]));
      assert ChunkCalls(data[..i + 1]) == ChunkCalls(data[..i]) + [WriteChunk(data[i])];
    }
    assert data[..|data|] == data;
  }
}
