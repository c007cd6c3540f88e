/**
  Writing responses to a channel: whatever is called in whatever order, what goes out is a sequence of complete
  responses and at most one chunked response still open at its end.
 */
module HttpBrokers {
  import opened Bytes
  import opened ChunkMetadata
  import opened ChunkStreams
  import opened HttpFields
  import opened IOChannels
  import opened Options

  // ---------- The wire format ----------

  function Text(s: string): seq<Byte> {
    seq(|s|, i requires 0 <= i < |s| => (s[i] as int % 256) as Byte)
  }

  function PrintedField(f: Field): seq<Byte> {
    f.name + Text(": ") + f.value + CRLF
  }

  function PrintedFields(fields: seq<Field>): seq<Byte> {
    if fields == [] then [] else PrintedFields(fields[..|fields| - 1]) + PrintedField(fields[|fields| - 1])
  }

  function Decimal(n: nat): (s: seq<Byte>)
    ensures |s| > 0 && forall i :: 0 <= i < |s| ==> IsHexDigit(s[i])
  {
    if n < 10 then [HexDigit(n)] else Decimal(n / 10) + [HexDigit(n % 10)]
  }

  function DecimalNumber(s: seq<Byte>): nat
    requires forall i :: 0 <= i < |s| ==> IsHexDigit(s[i])
  {
    if s == [] then 0 else 10 * DecimalNumber(s[..|s| - 1]) + HexValue(s[|s| - 1])
  }

  /** The length a response announces is read back as the length of its body. */
  lemma {:induction false} DecimalReadBack(n: nat)
    ensures DecimalNumber(Decimal(n)) == n
  {
    var s := Decimal(n);
    if n >= 10 {
      DecimalReadBack(n / 10);
      assert s[..|s| - 1] == Decimal(n / 10);
    } else {
      assert s[..0] == [] && DecimalNumber(s) == 10 * DecimalNumber(s[..0]) + HexValue(s[0]);
    }
  }

  function Joined(names: seq<seq<Byte>>): seq<Byte>
    requires names != []
  {
    if |names| == 1 then names[0] else Joined(names[..|names| - 1]) + Text(", ") + names[|names| - 1]
  }

  datatype Head = Head(statusLine: seq<Byte>, date: seq<Byte>, closes: bool, mimeType: seq<Byte>, headers: seq<Field>)

  /** A response with a body of known length, or in chunks; a chunked one is open until its trailers are there. */
  datatype Response =
    | Plain(head: Head, body: seq<Byte>)
    | Chunked(head: Head, trailerNames: seq<seq<Byte>>, chunks: seq<seq<Byte>>, trailers: Option<seq<Field>>)

  const SERVER: Field := Field(Text("Server"), Text("Kourier"))
  const CLOSE: Field := Field(Text("Connection"), Text("close"))
  const CHUNKED: Field := Field(Text("Transfer-Encoding"), Text("chunked"))

  function ContentLength(size: nat): Field {
    Field(Text("Content-Length"), Decimal(size))
  }

  function CommonFields(head: Head): seq<Field> {
    [SERVER, Field(Text("Date"), head.date)] + (if head.closes then [CLOSE] else [])
  }

  function MimeTypeFields(mimeType: seq<Byte>): seq<Field> {
    if mimeType == [] then [] else [Field(Text("Content-Type"), mimeType)]
  }

  function TrailerFields(names: seq<seq<Byte>>): seq<Field> {
    if names == [] then [] else [Field(Text("Trailer"), Joined(names))]
  }

  function PlainFields(size: nat, mimeType: seq<Byte>): seq<Field> {
    [ContentLength(size)] + MimeTypeFields(mimeType)
  }

  function ChunkedFields(mimeType: seq<Byte>, names: seq<seq<Byte>>): seq<Field> {
    MimeTypeFields(mimeType) + [CHUNKED] + TrailerFields(names)
  }

  function Fields(r: Response): seq<Field> {
    match r
    case Plain(head, body) =>
      CommonFields(head) + PlainFields(|body|, head.mimeType) + head.headers
    case Chunked(head, names, _, _) =>
      CommonFields(head) + ChunkedFields(head.mimeType, names) + head.headers
  }

  function PrintedHead(r: Response): seq<Byte> {
    r.head.statusLine + PrintedFields(Fields(r)) + CRLF
  }

  function Printed(r: Response): seq<Byte> {
    PrintedHead(r) + PrintedBody(r)
  }

  function PrintedBody(r: Response): seq<Byte> {
    match r
    case Plain(_, body) => body
    case Chunked(_, _, chunks, None) => PrintedChunks(chunks)
    case Chunked(_, _, chunks, Some(trailers)) => PrintedChunks(chunks) + PrintedEnd(trailers)
  }

  function PrintedEnd(trailers: seq<Field>): seq<Byte> {
    [0x30] + CRLF + PrintedFields(trailers) + CRLF
  }

  function PrintedLog(log: seq<Response>): seq<Byte> {
    if log == [] then [] else PrintedLog(log[..|log| - 1]) + Printed(log[|log| - 1])
  }

  /** A chunked response that has no chunks yet. */
  function Opened(head: Head, trailerNames: seq<seq<Byte>>): Response {
    Chunked(head, trailerNames, [], None)
  }

  predicate IsComplete(r: Response) {
    r.Plain? || r.trailers.Some?
  }

  lemma FourAppends<T>(s: seq<T>, a: seq<T>, b: seq<T>, c: seq<T>, d: seq<T>)
    ensures (((s + a) + b) + c) + d == s + (a + b + c + d)
  {
  }

  lemma TwoAppends<T>(s: seq<T>, a: seq<T>, b: seq<T>)
    ensures (s + a) + b == s + (a + b)
  {
  }

  lemma ThreeAppends<T>(s: seq<T>, a: seq<T>, b: seq<T>, c: seq<T>)
    ensures ((s + a) + b) + c == s + (a + (b + c))
  {
  }

  lemma PrintedFieldsAppend(fields: seq<Field>, f: Field)
    ensures PrintedFields(fields + [f]) == PrintedFields(fields) + PrintedField(f)
  {
    assert (fields + [f])[..|fields|] == fields;
  }

  lemma PrintedFieldsOfOne(f: Field)
    ensures PrintedFields([f]) == PrintedField(f)
  {
    PrintedFieldsAppend([], f);
    assert [] + [f] == [f] && [] + PrintedField(f) == PrintedField(f);
  }

  lemma {:induction false} PrintedFieldsConcat(a: seq<Field>, b: seq<Field>)
    ensures PrintedFields(a + b) == PrintedFields(a) + PrintedFields(b)
  {
    if b == [] {
      assert a + b == a;
    } else {
      var last := |b| - 1;
      PrintedFieldsConcat(a, b[..last]);
      assert (a + b)[..|a + b| - 1] == a + b[..last];
      TwoAppends(PrintedFields(a), PrintedFields(b[..last]), PrintedField(b[last]));
    }
  }

  lemma HeadOfThree<T>(w: seq<T>, s: seq<T>, a: seq<T>, b: seq<T>, c: seq<T>, d: seq<T>)
    ensures ((w + (s + a)) + b) + (c + d) == w + (s + (a + b + c) + d)
  {
  }

  /** A head is written in three parts. */
  lemma {:induction false} PrintedHeadInParts(w: seq<Byte>, r: Response, middle: seq<Field>)
    requires Fields(r) == CommonFields(r.head) + middle + r.head.headers
    ensures ((w + (r.head.statusLine + PrintedFields(CommonFields(r.head)))) + PrintedFields(middle))
      + (PrintedFields(r.head.headers) + CRLF) == w + PrintedHead(r)
  {
    var a := CommonFields(r.head);
    PrintedFieldsConcat(a, middle);
    PrintedFieldsConcat(a + middle, r.head.headers);
    HeadOfThree(w, r.head.statusLine, PrintedFields(a), PrintedFields(middle), PrintedFields(r.head.headers), CRLF);
  }

  lemma {:induction false} PrintedChunkedFields(w: seq<Byte>, mimeType: seq<Byte>, names: seq<seq<Byte>>)
    ensures ((w + PrintedFields(MimeTypeFields(mimeType))) + PrintedFields([CHUNKED]))
      + PrintedFields(TrailerFields(names))
      == w + PrintedFields(ChunkedFields(mimeType, names))
  {
    PrintedFieldsConcat(MimeTypeFields(mimeType), [CHUNKED]);
    PrintedFieldsConcat(MimeTypeFields(mimeType) + [CHUNKED], TrailerFields(names));
    ThreeAppends(w, PrintedFields(MimeTypeFields(mimeType)), PrintedFields([CHUNKED]),
      PrintedFields(TrailerFields(names)));
    TwoAppends(PrintedFields(MimeTypeFields(mimeType)), PrintedFields([CHUNKED]), PrintedFields(TrailerFields(names)));
  }

  lemma JoinedAppend(w: seq<Byte>, names: seq<seq<Byte>>, name: seq<Byte>)
    requires names != []
    ensures (w + Joined(names)) + (Text(", ") + name) == w + Joined(names + [name])
  {
    assert (names + [name])[..|names|] == names;
  }

  lemma PrintedLogAppend(log: seq<Response>, r: Response)
    ensures PrintedLog(log + [r]) == PrintedLog(log) + Printed(r)
  {
    assert (log + [r])[..|log|] == log;
  }

  lemma PrintedChunksFirst(chunk: seq<Byte>, more: seq<seq<Byte>>)
    ensures PrintedChunks([chunk] + more) == PrintedChunk(chunk) + PrintedChunks(more)
  {
    assert ([chunk] + more)[1..] == more;
  }

  lemma {:induction false} PrintedChunksAppend(chunks: seq<seq<Byte>>, data: seq<Byte>)
    ensures PrintedChunks(chunks + [data]) == PrintedChunks(chunks) + PrintedChunk(data)
  {
    if chunks == [] {
      PrintedChunksFirst(data, []);
      assert chunks + [data] == [data] + [] && PrintedChunk(data) + [] == PrintedChunk(data);
    } else {
      var first, more := chunks[0], chunks[1..];
      PrintedChunksAppend(more, data);
      PrintedChunksFirst(first, more);
      PrintedChunksFirst(first, more + [data]);
      assert chunks == [first] + more && chunks + [data] == [first] + (more + [data]);
      TwoAppends(PrintedChunk(first), PrintedChunks(more), PrintedChunk(data));
    }
  }

  // ---------- What the calls make of the responses ----------

  /** The flags of the broker, the responses so far, and how often response writing was reset. */
  datatype State = State(isWriting: bool, wrote: bool, close: bool, hasClosed: bool, log: seq<Response>, resets: nat)

  const IDLE: State := State(false, false, false, false, [], 0)

  datatype Call =
    | WriteResponse(statusLine: seq<Byte>, date: seq<Byte>, mimeType: seq<Byte>, headers: seq<Field>, body: seq<Byte>)
    | WriteChunkedResponse(statusLine: seq<Byte>, date: seq<Byte>, mimeType: seq<Byte>, headers: seq<Field>,
      names: seq<seq<Byte>>)
    | WriteChunk(data: seq<Byte>)
    | WriteLastChunk(trailers: seq<Field>)
    | CloseConnectionAfterResponding
    | ResetResponseWriting

  predicate IsOpen(log: seq<Response>) {
    log != [] && !IsComplete(log[|log| - 1])
  }

  predicate IsClosing(log: seq<Response>) {
    log != [] && log[|log| - 1].head.closes
  }

  /** How the flags follow the responses. */
  predicate InStep(st: State) {
    && (forall i :: 0 <= i < |st.log| - 1 ==> IsComplete(st.log[i]) && !st.log[i].head.closes)
    && (st.isWriting <==> IsOpen(st.log))
    && (st.hasClosed <==> IsClosing(st.log))
    && (st.hasClosed && !st.isWriting ==> st.wrote)
    && !(st.isWriting && st.wrote)
    && |st.log| <= st.resets + (if st.isWriting || st.wrote then 1 else 0)
  }

  /** After a response that closes the connection nothing more is written. */
  predicate IsSilent(st: State) {
    st.hasClosed && st.wrote
  }

  /** One response more, which is complete or open. */
  function WithResponse(st: State, r: Response): State {
    st.(isWriting := !IsComplete(r), wrote := IsComplete(r), hasClosed := st.hasClosed || r.head.closes,
        log := st.log + [r])
  }

  /** The open response, which is the last one, gets its end. */
  function Ended(st: State, trailers: seq<Field>): State
    requires IsOpen(st.log)
  {
    var last := st.log[|st.log| - 1];
    st.(isWriting := false, wrote := true, log := st.log[..|st.log| - 1] + [last.(trailers := Some(trailers))])
  }

  /** The open response gets one chunk more. */
  function Continued(st: State, data: seq<Byte>): State
    requires IsOpen(st.log)
  {
    var last := st.log[|st.log| - 1];
    st.(log := st.log[..|st.log| - 1] + [last.(chunks := last.chunks + [data])])
  }

  function Step(st: State, call: Call): State
    requires InStep(st)
  {
    match call
    case WriteResponse(statusLine, date, mimeType, headers, body) =>
      if st.wrote then st
      else if st.isWriting then Ended(st, [])
      else
        WithResponse(st, Plain(Head(statusLine, date, st.close, mimeType, headers), body))
    case WriteChunkedResponse(statusLine, date, mimeType, headers, names) =>
      if st.wrote then st
      else if st.isWriting then Ended(st, [])
      else
        WithResponse(st, Opened(Head(statusLine, date, st.close, mimeType, headers), names))
    case WriteChunk(data) => if st.isWriting && data != [] then Continued(st, data) else st
    case WriteLastChunk(trailers) => if st.isWriting then Ended(st, trailers) else st
    case CloseConnectionAfterResponding => st.(close := true)
    case ResetResponseWriting => st.(wrote := st.wrote && st.hasClosed, resets := st.resets + 1)
  }

  lemma WithResponseInStep(st: State, r: Response)
    requires InStep(st) && !st.wrote && !st.isWriting
    ensures InStep(WithResponse(st, r))
  {
    assert forall i :: 0 <= i < |st.log| ==> IsComplete(st.log[i]) && !st.log[i].head.closes;
  }

  /** The flags keep following the responses. */
  lemma StepKeepsInStep(st: State, call: Call)
    requires InStep(st)
    ensures InStep(Step(st, call)) && Step(st, call).resets == st.resets + (if call.ResetResponseWriting? then 1 else 0)
  {
  }

  function Run(st: State, calls: seq<Call>): (end: State)
    requires InStep(st)
    ensures InStep(end)
  {
    if calls == [] then st else
      var before := Run(st, calls[..|calls| - 1]);
      StepKeepsInStep(before, calls[|calls| - 1]);
      Step(before, calls[|calls| - 1])
  }

  lemma PrintedOpen(r: Response)
    requires r.Chunked? && r.chunks == [] && r.trailers == None
    ensures Printed(r) == PrintedHead(r)
  {
  }

  lemma {:induction false} PrintedEnded(st: State, trailers: seq<Field>)
    requires IsOpen(st.log)
    ensures PrintedLog(Ended(st, trailers).log) == PrintedLog(st.log) + PrintedEnd(trailers)
  {
    var init, last := st.log[..|st.log| - 1], st.log[|st.log| - 1];
    PrintedLogAppend(init, last.(trailers := Some(trailers)));
    ThreeAppends(PrintedLog(init), PrintedHead(last), PrintedChunks(last.chunks), PrintedEnd(trailers));
    TwoAppends(PrintedLog(init), PrintedHead(last), PrintedChunks(last.chunks));
  }

  lemma {:induction false} PrintedContinued(st: State, data: seq<Byte>)
    requires IsOpen(st.log)
    ensures PrintedLog(Continued(st, data).log) == PrintedLog(st.log) + PrintedChunk(data)
  {
    var init, last := st.log[..|st.log| - 1], st.log[|st.log| - 1];
    PrintedLogAppend(init, last.(chunks := last.chunks + [data]));
    PrintedChunksAppend(last.chunks, data);
    ThreeAppends(PrintedLog(init), PrintedHead(last), PrintedChunks(last.chunks), PrintedChunk(data));
    TwoAppends(PrintedLog(init), PrintedHead(last), PrintedChunks(last.chunks));
  }

  lemma {:induction false} EndedKeepsInStep(st: State, trailers: seq<Field>)
    requires InStep(st) && IsOpen(st.log)
    ensures InStep(Ended(st, trailers)) && st.isWriting
  {
    var log := Ended(st, trailers).log;
    assert log[|log| - 1].trailers.Some?;
    assert forall i :: 0 <= i < |log| - 1 ==> log[i] == st.log[i];
  }

  /** Bytes that have gone out stay as they are. */
  lemma {:induction false} OutputOnlyGrows(st: State, call: Call)
    requires InStep(st)
    ensures PrintedLog(st.log) <= PrintedLog(Step(st, call).log)
  {
    if st.isWriting {
      PrintedEnded(st, if call.WriteLastChunk? then call.trailers else []);
      if call.WriteChunk? {
        PrintedContinued(st, call.data);
      }
    } else {
      NewOutput(st, call);
    }
  }

  lemma {:induction false} NewOutput(st: State, call: Call)
    requires InStep(st) && !st.isWriting
    ensures PrintedLog(st.log) <= PrintedLog(Step(st, call).log)
  {
    var log := Step(st, call).log;
    if log != st.log {
      assert log == st.log + [log[|st.log|]];
      PrintedLogAppend(st.log, log[|st.log|]);
    }
  }

  /**
    Over any calls, what has been written is a sequence of complete responses, and one open one at its end exactly
    while a chunked response is being written; there is at most one response per reset, and one more.
   */
  lemma OutputIsResponses(calls: seq<Call>)
    ensures var st := Run(IDLE, calls);
      && (forall i :: 0 <= i < |st.log| ==> IsComplete(st.log[i]) || (i == |st.log| - 1 && st.isWriting))
      && (forall i :: 0 <= i < |st.log| ==> st.log[i].head.closes ==> i == |st.log| - 1)
      && |st.log| <= Resets(calls) + 1
  {
    RunCountsResets(calls);
  }

  function Resets(calls: seq<Call>): nat {
    if calls == [] then 0
      else Resets(calls[..|calls| - 1]) + (if calls[|calls| - 1].ResetResponseWriting? then 1 else 0)
  }

  lemma {:induction false} RunCountsResets(calls: seq<Call>)
    ensures Run(IDLE, calls).resets == Resets(calls)
    decreases |calls|
  {
    if calls != [] {
      RunCountsResets(calls[..|calls| - 1]);
      StepKeepsInStep(Run(IDLE, calls[..|calls| - 1]), calls[|calls| - 1]);
    }
  }

  /** Once a response that closes the connection is complete, no call writes another byte. */
  lemma {:induction false} SilentForever(st: State, calls: seq<Call>)
    requires InStep(st) && IsClosing(st.log) && !st.isWriting
    ensures Run(st, calls).log == st.log && IsSilent(Run(st, calls))
    decreases |calls|
  {
    if calls != [] {
      SilentForever(st, calls[..|calls| - 1]);
    }
  }

  // ---------- The broker ----------

  class HttpBrokerPrivate {
    const channel: IOChannel
    var isWritingChunkedResponse: bool
    var wroteResponse: bool
    var closeAfterResponding: bool
    var hasWrittenCloseConnectionHeader: bool
    ghost const before: seq<Byte>     // what the channel had written before
    ghost var log: seq<Response>
    ghost var resets: nat

    ghost function Abs(): State
      reads this
    {
      State(isWritingChunkedResponse, wroteResponse, closeAfterResponding, hasWrittenCloseConnectionHeader, log, resets)
    }

    /** What the channel has written is the responses, in the wire format. */
    ghost predicate Valid()
      reads this, channel, channel.writeBuffer, channel.writeBuffer.buffer, channel.sink
    {
      channel.ValidOut() && channel.written == before + PrintedLog(log) && InStep(Abs())
    }

    constructor (channel: IOChannel)
      requires channel.ValidOut()
      ensures Valid() && this.channel == channel && Abs() == IDLE && before == channel.written
    {
      this.channel := channel;
      isWritingChunkedResponse, wroteResponse, closeAfterResponding, hasWrittenCloseConnectionHeader :=
        false, false, false, false;
      log, before, resets := [], channel.written, 0;
    }

    method WriteField(f: Field)
      requires channel.ValidOut()
      modifies channel`isWriteNotificationEnabled, channel`written, channel.writeBuffer, channel.writeBuffer.buffer
      modifies channel.sink
      ensures channel.HasWritten(PrintedField(f))
    {
      channel.Write(f.name);
      channel.Write(Text(": "));
      channel.Write(f.value);
      channel.Write(CRLF);
      FourAppends(old(channel.written), f.name, Text(": "), f.value, CRLF);
    }

    method WriteFields(fields: seq<Field>)
      requires channel.ValidOut()
      modifies channel`isWriteNotificationEnabled, channel`written, channel.writeBuffer, channel.writeBuffer.buffer
      modifies channel.sink
      ensures channel.HasWritten(PrintedFields(fields))
    {
      ghost var start := channel.written;
      for i := 0 to |fields|
        invariant channel.ValidOut() && channel.written == start + PrintedFields(fields[..i])
        invariant channel.writeBuffer.buffer == old(channel.writeBuffer.buffer) || fresh(channel.writeBuffer.buffer)
      {
        WriteNextField(fields, i, start);
      }
      assert fields[..|fields|] == fields;
    }

    method WriteNextField(fields: seq<Field>, i: nat, ghost start: seq<Byte>)
      requires channel.ValidOut() && i < |fields| && channel.written == start + PrintedFields(fields[..i])
      modifies channel`isWriteNotificationEnabled, channel`written, channel.writeBuffer, channel.writeBuffer.buffer
      modifies channel.sink
      ensures channel.ValidOut() && channel.written == start + PrintedFields(fields[..i + 1])
      ensures channel.writeBuffer.buffer == old(channel.writeBuffer.buffer) || fresh(channel.writeBuffer.buffer)
    {
      WriteField(fields[i]);
      PrintedFieldsAppend(fields[..i], fields[i]);
      assert fields[..i + 1] == fields[..i] + [fields[i]];
      TwoAppends(start, PrintedFields(fields[..i]), PrintedField(fields[i]));
    }

    method WriteCloseConnectionHeaderIfNecessary()
      requires channel.ValidOut()
      modifies this`hasWrittenCloseConnectionHeader
      modifies channel`isWriteNotificationEnabled, channel`written, channel.writeBuffer, channel.writeBuffer.buffer
      modifies channel.sink
      ensures channel.HasWritten(PrintedFields(if closeAfterResponding then [CLOSE] else []))
      ensures hasWrittenCloseConnectionHeader <==> old(hasWrittenCloseConnectionHeader) || closeAfterResponding
    {
      if closeAfterResponding {
        hasWrittenCloseConnectionHeader := true;
        WriteFields([CLOSE]);
      }
    }

    /** The status line and the fields every response starts with. */
    method WriteStart(statusLine: seq<Byte>, date: seq<Byte>, ghost head: Head)
      requires channel.ValidOut() && head.date == date && head.closes == closeAfterResponding
      modifies this`hasWrittenCloseConnectionHeader
      modifies channel`isWriteNotificationEnabled, channel`written, channel.writeBuffer, channel.writeBuffer.buffer
      modifies channel.sink
      ensures channel.HasWritten(statusLine + PrintedFields(CommonFields(head)))
      ensures hasWrittenCloseConnectionHeader <==> old(hasWrittenCloseConnectionHeader) || closeAfterResponding
    {
      ghost var close := if closeAfterResponding then [CLOSE] else [];
      channel.Write(statusLine);
      var common := [SERVER, Field(Text("Date"), date)];
      WriteFields(common);
      WriteCloseConnectionHeaderIfNecessary();
      PrintedFieldsConcat(common, close);
      ThreeAppends(old(channel.written), statusLine, PrintedFields(common), PrintedFields(close));
    }

    method WriteContentLengthHeader(size: nat)
      requires channel.ValidOut()
      modifies channel`isWriteNotificationEnabled, channel`written, channel.writeBuffer, channel.writeBuffer.buffer
      modifies channel.sink
      ensures channel.HasWritten(PrintedFields([ContentLength(size)]))
    {
      if size > 0 {
        WriteFields([Field(Text("Content-Length"), Decimal(size))]);
      } else {
        WriteFields([Field(Text("Content-Length"), [0x30])]);
      }
    }

    method WriteMimeType(mimeType: seq<Byte>)
      requires channel.ValidOut()
      modifies channel`isWriteNotificationEnabled, channel`written, channel.writeBuffer, channel.writeBuffer.buffer
      modifies channel.sink
      ensures channel.HasWritten(PrintedFields(MimeTypeFields(mimeType)))
    {
      if mimeType != [] {
        WriteFields([Field(Text("Content-Type"), mimeType)]);
      }
    }

    method WriteTrailerNames(names: seq<seq<Byte>>)
      requires channel.ValidOut()
      modifies channel`isWriteNotificationEnabled, channel`written, channel.writeBuffer, channel.writeBuffer.buffer
      modifies channel.sink
      ensures channel.HasWritten(PrintedFields(TrailerFields(names)))
    {
      if names != [] {
        channel.Write(Text("Trailer"));
        channel.Write(Text(": "));
        WriteJoined(names);
        channel.Write(CRLF);
        FourAppends(old(channel.written), Text("Trailer"), Text(": "), Joined(names), CRLF);
        PrintedFieldsOfOne(Field(Text("Trailer"), Joined(names)));
      }
    }

    method WriteSeparated(name: seq<Byte>)
      requires channel.ValidOut()
      modifies channel`isWriteNotificationEnabled, channel`written, channel.writeBuffer, channel.writeBuffer.buffer
      modifies channel.sink
      ensures channel.HasWritten(Text(", ") + name)
    {
      channel.Write(Text(", "));
      channel.Write(name);
      TwoAppends(old(channel.written), Text(", "), name);
    }

    method WriteJoined(names: seq<seq<Byte>>)
      requires channel.ValidOut() && names != []
      modifies channel`isWriteNotificationEnabled, channel`written, channel.writeBuffer, channel.writeBuffer.buffer
      modifies channel.sink
      ensures channel.HasWritten(Joined(names))
    {
      ghost var start := channel.written;
      channel.Write(names[0]);
      for i := 1 to |names|
        invariant channel.ValidOut() && channel.written == start + Joined(names[..i])
        invariant channel.writeBuffer.buffer == old(channel.writeBuffer.buffer) || fresh(channel.writeBuffer.buffer)
      {
        WriteNextName(names, i, start);
      }
      assert names[..|names|] == names;
    }

    method WriteNextName(names: seq<seq<Byte>>, i: nat, ghost start: seq<Byte>)
      requires channel.ValidOut() && 0 < i < |names| && channel.written == start + Joined(names[..i])
      modifies channel`isWriteNotificationEnabled, channel`written, channel.writeBuffer, channel.writeBuffer.buffer
      modifies channel.sink
      ensures channel.ValidOut() && channel.written == start + Joined(names[..i + 1])
      ensures channel.writeBuffer.buffer == old(channel.writeBuffer.buffer) || fresh(channel.writeBuffer.buffer)
    {
      WriteSeparated(names[i]);
      JoinedAppend(start, names[..i], names[i]);
      assert names[..i + 1] == names[..i] + [names[i]];
    }

    /** The end of the head: the fields given, and an empty line. */
    method WriteEndOfHead(headers: seq<Field>)
      requires channel.ValidOut()
      modifies channel`isWriteNotificationEnabled, channel`written, channel.writeBuffer, channel.writeBuffer.buffer
      modifies channel.sink
      ensures channel.HasWritten(PrintedFields(headers) + CRLF)
    {
      WriteFields(headers);
      channel.Write(CRLF);
      TwoAppends(old(channel.written), PrintedFields(headers), CRLF);
    }

    method WritePlainFields(size: nat, mimeType: seq<Byte>)
      requires channel.ValidOut()
      modifies channel`isWriteNotificationEnabled, channel`written, channel.writeBuffer, channel.writeBuffer.buffer
      modifies channel.sink
      ensures channel.HasWritten(PrintedFields(PlainFields(size, mimeType)))
    {
      WriteContentLengthHeader(size);
      WriteMimeType(mimeType);
      PrintedFieldsConcat([ContentLength(size)], MimeTypeFields(mimeType));
      TwoAppends(old(channel.written), PrintedFields([ContentLength(size)]), PrintedFields(MimeTypeFields(mimeType)));
    }

    method WriteChunkedFields(mimeType: seq<Byte>, names: seq<seq<Byte>>)
      requires channel.ValidOut()
      modifies channel`isWriteNotificationEnabled, channel`written, channel.writeBuffer, channel.writeBuffer.buffer
      modifies channel.sink
      ensures channel.HasWritten(PrintedFields(ChunkedFields(mimeType, names)))
    {
      WriteMimeType(mimeType);
      WriteFields([CHUNKED]);
      WriteTrailerNames(names);
      PrintedChunkedFields(old(channel.written), mimeType, names);
    }

    method FinishResponseWriting()
      modifies this`isWritingChunkedResponse, this`wroteResponse
      ensures !isWritingChunkedResponse && wroteResponse
    {
      isWritingChunkedResponse := false;
      wroteResponse := true;
    }

    method FinishWritingChunkedResponse(trailers: seq<Field>)
      requires Valid() && isWritingChunkedResponse
      modifies this`isWritingChunkedResponse, this`wroteResponse, this`log
      modifies channel`isWriteNotificationEnabled, channel`written, channel.writeBuffer, channel.writeBuffer.buffer
      modifies channel.sink
      ensures Valid()
      ensures channel.writeBuffer.buffer == old(channel.writeBuffer.buffer) || fresh(channel.writeBuffer.buffer)
      ensures Abs() == Ended(old(Abs()), trailers)
    {
      ghost var st, start := Abs(), channel.written;
      assert start == before + PrintedLog(st.log);
      WriteEnd(trailers);
      assert channel.written == start + PrintedEnd(trailers);
      FinishResponseWriting();
      LogEnd(st, trailers);
    }

    ghost method LogEnd(st: State, trailers: seq<Field>)
      requires InStep(st) && IsOpen(st.log) && st.log == log && !isWritingChunkedResponse && wroteResponse
      requires closeAfterResponding == st.close && hasWrittenCloseConnectionHeader == st.hasClosed
      requires resets == st.resets
      modifies this`log
      ensures InStep(Abs()) && Abs() == Ended(st, trailers)
      ensures before + PrintedLog(log) == (before + PrintedLog(st.log)) + PrintedEnd(trailers)
    {
      log := Ended(st, trailers).log;
      EndedInStep(before, st, trailers);
      assert Abs() == Ended(st, trailers);
    }

    method WriteEnd(trailers: seq<Field>)
      requires channel.ValidOut()
      modifies channel`isWriteNotificationEnabled, channel`written, channel.writeBuffer, channel.writeBuffer.buffer
      modifies channel.sink
      ensures channel.HasWritten(PrintedEnd(trailers))
    {
      ghost var line := [0x30] + CRLF;
      channel.Write([0x30] + CRLF);
      WriteEndOfHead(trailers);
      TwoAppends(old(channel.written), line, PrintedFields(trailers) + CRLF);
      TwoAppends(line, PrintedFields(trailers), CRLF);
    }

    method WritePlainHead(ghost r: Response, statusLine: seq<Byte>, date: seq<Byte>, size: nat, mimeType: seq<Byte>,
        headers: seq<Field>)
      requires channel.ValidOut() && r.Plain? && size == |r.body|
      requires r.head == Head(statusLine, date, closeAfterResponding, mimeType, headers)
      modifies this`hasWrittenCloseConnectionHeader
      modifies channel`isWriteNotificationEnabled, channel`written, channel.writeBuffer, channel.writeBuffer.buffer
      modifies channel.sink
      ensures channel.HasWritten(PrintedHead(r))
      ensures hasWrittenCloseConnectionHeader <==> old(hasWrittenCloseConnectionHeader) || closeAfterResponding
    {
      WriteStart(statusLine, date, r.head);
      WritePlainFields(size, mimeType);
      WriteEndOfHead(headers);
      PrintedHeadInParts(old(channel.written), r, PlainFields(size, mimeType));
    }

    /** The bytes of a response of known length. */
    method WritePlain(ghost r: Response, statusLine: seq<Byte>, date: seq<Byte>, mimeType: seq<Byte>,
        headers: seq<Field>, body: seq<Byte>)
      requires channel.ValidOut() && r == Plain(Head(statusLine, date, closeAfterResponding, mimeType, headers), body)
      modifies this`hasWrittenCloseConnectionHeader
      modifies channel`isWriteNotificationEnabled, channel`written, channel.writeBuffer, channel.writeBuffer.buffer
      modifies channel.sink
      ensures channel.HasWritten(Printed(r))
      ensures hasWrittenCloseConnectionHeader <==> old(hasWrittenCloseConnectionHeader) || closeAfterResponding
    {
      WritePlainHead(r, statusLine, date, |body|, mimeType, headers);
      if body != [] {
        channel.Write(body);
      }
      TwoAppends(old(channel.written), PrintedHead(r), body);
    }

    method WriteResponse(statusLine: seq<Byte>, date: seq<Byte>, mimeType: seq<Byte>, headers: seq<Field>,
        body: seq<Byte>)
      requires Valid()
      modifies this`isWritingChunkedResponse, this`wroteResponse, this`hasWrittenCloseConnectionHeader, this`log
      modifies channel`isWriteNotificationEnabled, channel`written, channel.writeBuffer, channel.writeBuffer.buffer
      modifies channel.sink
      ensures Valid()
      ensures channel.writeBuffer.buffer == old(channel.writeBuffer.buffer) || fresh(channel.writeBuffer.buffer)
      ensures Abs() == Step(old(Abs()), Call.WriteResponse(statusLine, date, mimeType, headers, body))
    {
      if !wroteResponse {
        if isWritingChunkedResponse {
          FinishWritingChunkedResponse([]);
        } else {
          WriteNewResponse(statusLine, date, mimeType, headers, body);
        }
      }
    }

    method WriteNewResponse(statusLine: seq<Byte>, date: seq<Byte>, mimeType: seq<Byte>, headers: seq<Field>,
        body: seq<Byte>)
      requires Valid() && !wroteResponse && !isWritingChunkedResponse
      modifies this`isWritingChunkedResponse, this`wroteResponse, this`hasWrittenCloseConnectionHeader, this`log
      modifies channel`isWriteNotificationEnabled, channel`written, channel.writeBuffer, channel.writeBuffer.buffer
      modifies channel.sink
      ensures Valid()
      ensures channel.writeBuffer.buffer == old(channel.writeBuffer.buffer) || fresh(channel.writeBuffer.buffer)
      ensures Abs() ==
        WithResponse(old(Abs()), Plain(Head(statusLine, date, closeAfterResponding, mimeType, headers), body))
    {
      ghost var st, r := Abs(), Plain(Head(statusLine, date, closeAfterResponding, mimeType, headers), body);
      WritePlain(r, statusLine, date, mimeType, headers, body);
      FinishResponseWriting();
      LogResponse(st, r);
    }

    ghost method LogResponse(st: State, r: Response)
      requires InStep(st) && !st.wrote && !st.isWriting && r.head.closes == st.close && st.log == log
      requires isWritingChunkedResponse == !IsComplete(r) && wroteResponse == IsComplete(r)
      requires closeAfterResponding == st.close
      requires hasWrittenCloseConnectionHeader == (st.hasClosed || r.head.closes) && resets == st.resets
      modifies this`log
      ensures InStep(Abs()) && Abs() == WithResponse(st, r)
      ensures before + PrintedLog(log) == (before + PrintedLog(st.log)) + Printed(r)
    {
      log := log + [r];
      AddedInStep(before, st, r);
      assert Abs() == WithResponse(st, r);
    }

    method WriteChunkedResponse(statusLine: seq<Byte>, date: seq<Byte>, mimeType: seq<Byte>, headers: seq<Field>,
        names: seq<seq<Byte>>)
      requires Valid()
      modifies this`isWritingChunkedResponse, this`wroteResponse, this`hasWrittenCloseConnectionHeader, this`log
      modifies channel`isWriteNotificationEnabled, channel`written, channel.writeBuffer, channel.writeBuffer.buffer
      modifies channel.sink
      ensures Valid()
      ensures channel.writeBuffer.buffer == old(channel.writeBuffer.buffer) || fresh(channel.writeBuffer.buffer)
      ensures Abs() == Step(old(Abs()), Call.WriteChunkedResponse(statusLine, date, mimeType, headers, names))
    {
      if !wroteResponse {
        if isWritingChunkedResponse {
          FinishWritingChunkedResponse([]);
        } else {
          OpenChunkedResponse(statusLine, date, mimeType, headers, names);
        }
      }
    }

    /** The bytes of a chunked response that has no chunks yet. */
    method WriteOpening(ghost r: Response, statusLine: seq<Byte>, date: seq<Byte>, mimeType: seq<Byte>,
        names: seq<seq<Byte>>, headers: seq<Field>)
      requires channel.ValidOut() && r == Opened(Head(statusLine, date, closeAfterResponding, mimeType, headers), names)
      modifies this`isWritingChunkedResponse, this`hasWrittenCloseConnectionHeader
      modifies channel`isWriteNotificationEnabled, channel`written, channel.writeBuffer, channel.writeBuffer.buffer
      modifies channel.sink
      ensures channel.HasWritten(Printed(r)) && isWritingChunkedResponse
      ensures hasWrittenCloseConnectionHeader <==> old(hasWrittenCloseConnectionHeader) || closeAfterResponding
    {
      isWritingChunkedResponse := true;
      WriteStart(statusLine, date, r.head);
      WriteChunkedFields(mimeType, names);
      WriteEndOfHead(headers);
      PrintedHeadInParts(old(channel.written), r, ChunkedFields(mimeType, names));
      PrintedOpen(r);
    }

    method OpenChunkedResponse(statusLine: seq<Byte>, date: seq<Byte>, mimeType: seq<Byte>, headers: seq<Field>,
        names: seq<seq<Byte>>)
      requires Valid() && !wroteResponse && !isWritingChunkedResponse
      modifies this`isWritingChunkedResponse, this`hasWrittenCloseConnectionHeader, this`log
      modifies channel`isWriteNotificationEnabled, channel`written, channel.writeBuffer, channel.writeBuffer.buffer
      modifies channel.sink
      ensures Valid()
      ensures channel.writeBuffer.buffer == old(channel.writeBuffer.buffer) || fresh(channel.writeBuffer.buffer)
      ensures Abs() ==
        WithResponse(old(Abs()), Opened(Head(statusLine, date, closeAfterResponding, mimeType, headers), names))
    {
      ghost var st, r := Abs(), Opened(Head(statusLine, date, closeAfterResponding, mimeType, headers), names);
      ghost var start := channel.written;
      assert start == before + PrintedLog(st.log) && !IsComplete(r);
      WriteOpening(r, statusLine, date, mimeType, names, headers);
      assert channel.written == start + Printed(r);
      LogResponse(st, r);
    }

    method WriteChunk(data: seq<Byte>)
      requires Valid()
      modifies this`log
      modifies channel`isWriteNotificationEnabled, channel`written, channel.writeBuffer, channel.writeBuffer.buffer
      modifies channel.sink
      ensures Valid()
      ensures channel.writeBuffer.buffer == old(channel.writeBuffer.buffer) || fresh(channel.writeBuffer.buffer)
      ensures Abs() == Step(old(Abs()), Call.WriteChunk(data))
    {
      if isWritingChunkedResponse && data != [] {
        WriteOneChunk(data);
        LogChunk(data);
      }
    }

    ghost method LogChunk(data: seq<Byte>)
      requires InStep(Abs()) && isWritingChunkedResponse && data != []
      modifies this`log
      ensures InStep(Abs()) && Abs() == Continued(old(Abs()), data)
      ensures before + PrintedLog(log) == (before + PrintedLog(old(log))) + PrintedChunk(data)
    {
      ghost var st, next := Abs(), Continued(Abs(), data);
      ContinuedInStep(before, st, data);
      log := next.log;
      assert Abs() == next;
    }

    method WriteOneChunk(data: seq<Byte>)
      requires channel.ValidOut() && data != []
      modifies channel`isWriteNotificationEnabled, channel`written, channel.writeBuffer, channel.writeBuffer.buffer
      modifies channel.sink
      ensures channel.HasWritten(PrintedChunk(data))
    {
      ghost var w, header := channel.written, Header(|data|);
      WriteChunkMetadata(|data|);
      assert channel.written == w + header;
      channel.Write(data);
      channel.Write(CRLF);
      ThreeAppends(w, header, data, CRLF);
      TwoAppends(header, data, CRLF);
    }

    method WriteChunkMetadata(size: nat)
      requires channel.ValidOut()
      modifies channel`isWriteNotificationEnabled, channel`written, channel.writeBuffer, channel.writeBuffer.buffer
      modifies channel.sink
      ensures channel.HasWritten(Header(size))
    {
      var digits := HexDigits(size);
      channel.Write(digits);
      channel.Write(CRLF);
      TwoAppends(old(channel.written), digits, CRLF);
    }

    method WriteLastChunk(trailers: seq<Field>)
      requires Valid()
      modifies this`isWritingChunkedResponse, this`wroteResponse, this`log
      modifies channel`isWriteNotificationEnabled, channel`written, channel.writeBuffer, channel.writeBuffer.buffer
      modifies channel.sink
      ensures Valid()
      ensures channel.writeBuffer.buffer == old(channel.writeBuffer.buffer) || fresh(channel.writeBuffer.buffer)
      ensures Abs() == Step(old(Abs()), Call.WriteLastChunk(trailers))
    {
      if isWritingChunkedResponse {
        FinishWritingChunkedResponse(trailers);
      }
    }

    method CloseConnectionAfterResponding()
      requires Valid()
      modifies this`closeAfterResponding
      ensures Valid() && Abs() == Step(old(Abs()), Call.CloseConnectionAfterResponding) && closeAfterResponding
    {
      closeAfterResponding := true;
    }

    method ResetResponseWriting()
      requires Valid()
      modifies this`wroteResponse, this`resets
      ensures Valid() && Abs() == Step(old(Abs()), Call.ResetResponseWriting)
      ensures wroteResponse <==> old(wroteResponse) && hasWrittenCloseConnectionHeader
    {
      ghost var st := Abs();
      StepKeepsInStep(st, Call.ResetResponseWriting);
      if !hasWrittenCloseConnectionHeader {
        wroteResponse := false;
      }
      resets := resets + 1;
      assert Abs() == Step(st, Call.ResetResponseWriting);
    }
  }

  lemma {:induction false} EndedInStep(before: seq<Byte>, st: State, trailers: seq<Field>)
    requires InStep(st) && IsOpen(st.log)
    ensures InStep(Ended(st, trailers))
    ensures before + PrintedLog(Ended(st, trailers).log) == (before + PrintedLog(st.log)) + PrintedEnd(trailers)
  {
    PrintedEnded(st, trailers);
    TwoAppends(before, PrintedLog(st.log), PrintedEnd(trailers));
    EndedKeepsInStep(st, trailers);
  }

  lemma {:induction false} ContinuedInStep(before: seq<Byte>, st: State, data: seq<Byte>)
    requires InStep(st) && IsOpen(st.log) && data != []
    ensures InStep(Continued(st, data))
    ensures before + PrintedLog(Continued(st, data).log) == (before + PrintedLog(st.log)) + PrintedChunk(data)
  {
    PrintedContinued(st, data);
    TwoAppends(before, PrintedLog(st.log), PrintedChunk(data));
    StepKeepsInStep(st, Call.WriteChunk(data));
  }

  lemma {:induction false} AddedInStep(before: seq<Byte>, st: State, r: Response)
    requires InStep(st) && !st.wrote && !st.isWriting && r.head.closes == st.close
    ensures InStep(WithResponse(st, r))
    ensures before + PrintedLog(st.log + [r]) == (before + PrintedLog(st.log)) + Printed(r)
  {
    WithResponseInStep(st, r);
    PrintedLogAppend(st.log, r);
    TwoAppends(before, PrintedLog(st.log), Printed(r));
  }

  // ---------- What the receiver makes of a chunked body ----------

  /** The chunks of a closed response without trailers are what a receiver gets, in whatever pieces it arrives. */
  lemma {:induction false} ChunkedBodyArrives(r: Response, later: seq<Byte>, pieces: seq<seq<Byte>>)
    requires r.Chunked? && r.trailers == Some([]) && Flatten(pieces) == PrintedBody(r) + later
    ensures var got := Receive(DecodeStep, START, pieces);
      if AreReadable(r.chunks) then got == Decoded(Decoder(Done, later), Flatten(r.chunks))
        else got.decoder.mode == Broken
  {
    assert PrintedEnd([]) == LAST_CHUNK;
    ChunkedMessageArrives(r.chunks, later, pieces);
  }
}
