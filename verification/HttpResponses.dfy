/**
  What a receiver reads from what a broker writes: exactly the complete responses, in order, with their fields, bodies
  and trailers.
 */
module HttpResponses {
  import opened Bytes
  import opened ChunkMetadata
  import opened ChunkStreams
  import opened HttpBrokers
  import opened HttpFields
  import opened Options

  // ---------- The receiver ----------

  datatype Message = Message(statusLine: seq<Byte>, fields: seq<Field>, body: seq<Byte>, trailers: seq<Field>)

  /** Something read, and the bytes after it. */
  datatype Reading<T> = Reading(item: T, rest: seq<Byte>)

  /** The first CR LF from `i` on, or the end. */
  function LineEnd(s: seq<Byte>, i: nat): (n: nat)
    requires i <= |s|
    ensures i <= n <= |s| && (forall k :: i <= k < n ==> !CrlfAt(s, k)) && (n < |s| ==> CrlfAt(s, n))
    decreases |s| - i
  {
    if i == |s| || CrlfAt(s, i) then i else LineEnd(s, i + 1)
  }

  function ReadLine(s: seq<Byte>): (r: Option<Reading<seq<Byte>>>)
    ensures r.Some? ==> |r.value.rest| < |s|
  {
    var n := LineEnd(s, 0);
    if n + 2 <= |s| then Some(Reading(s[..n], s[n + 2..])) else None
  }

  /** The first colon from `i` on, or the end. */
  function NameEnd(line: seq<Byte>, i: nat): (n: nat)
    requires i <= |line|
    ensures i <= n <= |line| && (forall k :: i <= k < n ==> line[k] != 0x3A) && (n < |line| ==> line[n] == 0x3A)
    decreases |line| - i
  {
    if i == |line| || line[i] == 0x3A then i else NameEnd(line, i + 1)
  }

  /** A name, a colon, and a value with whitespace around it (section 5 of RFC 9112). */
  function ReadField(line: seq<Byte>): Option<Field> {
    var n := NameEnd(line, 0);
    if n < |line| then Some(Field(line[..n], Trimmed(line[n + 1..]))) else None
  }

  /** Field lines up to the empty line. */
  function ReadFields(s: seq<Byte>): (r: Option<Reading<seq<Field>>>)
    ensures r.Some? ==> |r.value.rest| < |s|
    decreases |s|
  {
    match ReadLine(s)
    case None => None
    case Some(line) =>
      if line.item == [] then Some(Reading([], line.rest))
      else
        match (ReadField(line.item), ReadFields(line.rest))
        case (Some(f), Some(more)) => Some(Reading([f] + more.item, more.rest))
        case _ => None
  }

  /** The value of the first field with a name. */
  ghost function ValueOf(fields: seq<Field>, name: seq<Byte>): Option<seq<Byte>> {
    if fields == [] then None
    else if IsSameName(fields[0].name, name) then Some(fields[0].value)
    else ValueOf(fields[1..], name)
  }

  predicate IsDecimal(s: seq<Byte>) {
    s != [] && forall i :: 0 <= i < |s| ==> 0x30 <= s[i] <= 0x39
  }

  /** A body, and the trailers after it. */
  datatype Body = Body(data: seq<Byte>, trailers: seq<Field>)

  function ReadChunks(s: seq<Byte>): (r: Option<Reading<Body>>)
    ensures r.Some? ==> |r.value.rest| <= |s|
  {
    DrainedIsNoLonger(Decoder(Metadata, s));
    AfterChunks(Drain(DecodeStep, Decoder(Metadata, s)))
  }

  function AfterChunks(got: Decoded): (r: Option<Reading<Body>>)
    ensures r.Some? ==> |r.value.rest| <= |got.decoder.rest|
  {
    match got.decoder.mode
    case Done => Some(Reading(Body(got.body, []), got.decoder.rest))
    case Trailers =>
      (match ReadFields(got.decoder.rest)
       case Some(trailers) => Some(Reading(Body(got.body, trailers.item), trailers.rest))
       case None => None)
    case _ => None
  }

  /** Responses with these status codes have no body (section 6.3 of RFC 9112). */
  predicate IsBodyless(statusLine: seq<Byte>) {
    && |statusLine| >= 12
    && (statusLine[9] == 0x31 || statusLine[9..12] == [0x32, 0x30, 0x34] || statusLine[9..12] == [0x33, 0x30, 0x34])
  }

  /** The coding is named in any case (section 7 of RFC 9112); of several such fields this reader takes the first. */
  ghost predicate IsChunked(fields: seq<Field>) {
    var coding := ValueOf(fields, CHUNKED.name);
    coding.Some? && IsSameName(coding.value, CHUNKED.value)
  }

  /** The fields tell how long a body is (section 6.3 of RFC 9112). */
  ghost function ReadBody(statusLine: seq<Byte>, fields: seq<Field>, s: seq<Byte>): (r: Option<Reading<Body>>)
    ensures r.Some? ==> |r.value.rest| <= |s|
  {
    if IsBodyless(statusLine) then Some(Reading(Body([], []), s))
    else if IsChunked(fields) then ReadChunks(s)
    else
      match ValueOf(fields, Text("Content-Length"))
      case Some(value) =>
        if IsDecimal(value) && DecimalNumber(value) <= |s|
        then Some(Reading(Body(s[..DecimalNumber(value)], []), s[DecimalNumber(value)..]))
        else None
      case None => None
  }

  ghost function ReadMessage(s: seq<Byte>): (r: Option<Reading<Message>>)
    ensures r.Some? ==> |r.value.rest| < |s|
  {
    match ReadLine(s)
    case None => None
    case Some(line) =>
      match ReadFields(line.rest)
      case None => None
      case Some(head) =>
        match ReadBody(line.item, head.item, head.rest)
        case None => None
        case Some(body) => Some(Reading(Message(line.item, head.item, body.item.data, body.item.trailers), body.rest))
  }

  /** As many messages as are complete. */
  ghost function ReadMessages(s: seq<Byte>): seq<Message>
    decreases |s|
  {
    match ReadMessage(s)
    case None => []
    case Some(r) => [r.item] + ReadMessages(r.rest)
  }

  lemma {:induction false} DrainedIsNoLonger(d: Decoder)
    ensures |Drain(DecodeStep, d).decoder.rest| <= |d.rest|
    decreases |d.rest|
  {
    var r := DecodeStep(d);
    if |r.decoder.rest| < |d.rest| {
      DrainedIsNoLonger(r.decoder);
    }
  }

  // ---------- Responses whose texts can be told apart ----------

  predicate HasNoCrlf(s: seq<Byte>) {
    forall i :: 0 <= i < |s| ==> !CrlfAt(s, i)
  }

  predicate IsCleanValue(value: seq<Byte>) {
    && HasNoCrlf(value)
    && (value != [] ==> !IsWhitespace(value[0]) && !IsWhitespace(value[|value| - 1]))
  }

  predicate IsCleanField(f: Field) {
    HasNoCrlf(f.name) && 0x3A !in f.name && IsCleanValue(f.value)
  }

  predicate AreCleanFields(fields: seq<Field>) {
    forall i :: 0 <= i < |fields| ==> IsCleanField(fields[i])
  }

  /** A line without its CR LF. */
  function WithoutEnd(line: seq<Byte>): seq<Byte> {
    if |line| < 2 then [] else line[..|line| - 2]
  }

  /** What the table of status lines holds. */
  predicate IsStatusLine(line: seq<Byte>) {
    |line| >= 2 && line[|line| - 2..] == CRLF && HasNoCrlf(line[..|line| - 2])
  }

  predicate AreCleanTexts(r: Response) {
    && IsCleanValue(r.head.date) && IsCleanValue(r.head.mimeType) && AreCleanFields(r.head.headers)
    && (r.Chunked? && r.trailerNames != [] ==> IsCleanValue(Joined(r.trailerNames)))
  }

  /**
    What a response says about its body is what its body is: there is none after some status codes, no header of a
    plain response says that it is chunked, chunks are not too large, and trailers can be told apart.
   */
  ghost predicate IsFramed(r: Response) {
    match r
    case Plain(head, body) =>
      if IsBodyless(WithoutEnd(head.statusLine)) then body == [] else !IsChunked(head.headers)
    case Chunked(head, _, chunks, trailers) =>
      && !IsBodyless(WithoutEnd(head.statusLine)) && AreReadable(chunks)
      && (trailers.Some? ==> AreCleanFields(trailers.value))
  }

  /** A response that can be told apart from what is around it. */
  ghost predicate IsClean(r: Response) {
    AreCleanTexts(r) && IsFramed(r)
  }

  /** What a call is given can be told apart. */
  ghost predicate IsCleanCall(call: Call) {
    match call
    case WriteResponse(statusLine, date, mimeType, headers, body) =>
      IsStatusLine(statusLine) && IsClean(Plain(Head(statusLine, date, false, mimeType, headers), body))
    case WriteChunkedResponse(statusLine, date, mimeType, headers, names) =>
      IsStatusLine(statusLine) && IsClean(Opened(Head(statusLine, date, false, mimeType, headers), names))
    case WriteChunk(data) => |data| < MAX_CHUNK_SIZE
    case WriteLastChunk(trailers) => AreCleanFields(trailers)
    case _ => true
  }

  /** What a complete response says. */
  function MessageOf(r: Response): Message
    requires IsComplete(r)
  {
    match r
    case Plain(head, body) => Message(WithoutEnd(head.statusLine), Fields(r), body, [])
    case Chunked(head, _, chunks, trailers) =>
      Message(WithoutEnd(head.statusLine), Fields(r), Flatten(chunks), trailers.value)
  }

  /** What the complete ones among responses say. */
  function MessagesOf(log: seq<Response>): seq<Message> {
    if log == [] then []
    else (if IsComplete(log[0]) then [MessageOf(log[0])] else []) + MessagesOf(log[1..])
  }

  // ---------- Lines and fields are read back ----------

  lemma {:induction false} LineIsReadBack(line: seq<Byte>, t: seq<Byte>)
    requires HasNoCrlf(line)
    ensures ReadLine(line + CRLF + t) == Some(Reading(line, t))
  {
    var s, n := line + CRLF + t, LineEnd(line + CRLF + t, 0);
    assert CrlfAt(s, |line|);
    assert n < |line| ==> !CrlfAt(line, n);
    assert s[..|line|] == line && s[|line| + 2..] == t;
  }

  lemma ColonAndSpace()
    ensures Text(": ") == [0x3A, 0x20]
  {
    var s := Text(": ");
    assert s[0] == 0x3A && s[1] == 0x20;
  }

  function LineOf(f: Field): seq<Byte> {
    f.name + [0x3A] + ([0x20] + f.value)
  }

  lemma {:induction false} LineHasNoCrlf(f: Field)
    requires HasNoCrlf(f.name) && HasNoCrlf(f.value)
    ensures HasNoCrlf(LineOf(f))
  {
    var line, n := LineOf(f), |f.name|;
    assert line[n] == 0x3A && line[n + 1] == 0x20 && line[..n] == f.name && line[n + 2..] == f.value;
    forall i | 0 <= i < |line| ensures !CrlfAt(line, i) {
      if i + 2 <= n {
        assert !CrlfAt(f.name, i);
      } else if i >= n + 2 {
        assert !CrlfAt(f.value, i - n - 2);
      }
    }
  }

  lemma {:induction false} FieldIsReadBack(f: Field)
    requires IsCleanField(f)
    ensures ReadField(LineOf(f)) == Some(f)
  {
    var line, n := LineOf(f), |f.name|;
    assert line[n] == 0x3A && forall i :: 0 <= i < n ==> line[i] == f.name[i] != 0x3A;
    assert NameEnd(line, 0) == n && line[..n] == f.name && line[n + 1..] == [0x20] + f.value;
    assert ([0x20 as Byte] + f.value)[1..] == f.value;
    assert Trimmed(f.value) == f.value;
  }

  /** The first field is a line of its own. */
  lemma {:induction false} FirstFieldFirst(fields: seq<Field>, t: seq<Byte>)
    requires fields != []
    ensures PrintedFields(fields) + CRLF + t == LineOf(fields[0]) + CRLF + (PrintedFields(fields[1..]) + CRLF + t)
  {
    var f, more := fields[0], PrintedFields(fields[1..]);
    ColonAndSpace();
    assert fields == [f] + fields[1..];
    PrintedFieldsConcat([f], fields[1..]);
    PrintedFieldsOfOne(f);
    assert PrintedField(f) == LineOf(f) + CRLF;
    FirstOfFour(PrintedField(f), more, CRLF, t);
  }

  lemma {:induction false} FieldsAreReadBack(fields: seq<Field>, t: seq<Byte>)
    requires AreCleanFields(fields)
    ensures ReadFields(PrintedFields(fields) + CRLF + t) == Some(Reading(fields, t))
  {
    if fields == [] {
      assert PrintedFields(fields) + CRLF + t == [] + CRLF + t;
      LineIsReadBack([], t);
    } else {
      var f := fields[0];
      FirstFieldFirst(fields, t);
      LineHasNoCrlf(f);
      LineIsReadBack(LineOf(f), PrintedFields(fields[1..]) + CRLF + t);
      FieldIsReadBack(f);
      FieldsAreReadBack(fields[1..], t);
      assert [f] + fields[1..] == fields;
    }
  }

  lemma {:induction false} PartHasNoCrlf(s: seq<Byte>, a: nat, b: nat)
    requires a <= b <= |s| && HasNoCrlf(s)
    ensures HasNoCrlf(s[a..b])
  {
    forall i | 0 <= i < b - a ensures !CrlfAt(s[a..b], i) {
      assert !CrlfAt(s, a + i);
    }
  }

  lemma {:induction false} ReadFieldIsClean(line: seq<Byte>)
    requires HasNoCrlf(line) && ReadField(line).Some?
    ensures IsCleanField(ReadField(line).value)
  {
    var n := NameEnd(line, 0);
    var raw := line[n + 1..|line|];
    PartHasNoCrlf(line, 0, n);
    PartHasNoCrlf(line, n + 1, |line|);
    TrimmedIsClean(raw);
    assert line[n + 1..] == raw && line[0..n] == line[..n];
  }

  lemma {:induction false} TrimmedIsClean(raw: seq<Byte>)
    requires HasNoCrlf(raw)
    ensures IsCleanValue(Trimmed(raw))
  {
    TrimmedIsTrimmed(raw);
    var a, b :| IsCutAt(raw, Trimmed(raw), a, b);
    PartHasNoCrlf(raw, a, b);
  }

  /** Whatever the bytes are, only fields that can be told apart are read. */
  lemma {:induction false} ReadFieldsAreClean(s: seq<Byte>)
    requires ReadFields(s).Some?
    ensures AreCleanFields(ReadFields(s).value.item)
    decreases |s|
  {
    var line := ReadLine(s).value;
    if line.item != [] {
      PartHasNoCrlfUpTo(s, LineEnd(s, 0));
      ReadFieldIsClean(line.item);
      ReadFieldsAreClean(line.rest);
    }
  }

  lemma PartHasNoCrlfUpTo(s: seq<Byte>, n: nat)
    requires n <= |s| && forall i :: 0 <= i < n ==> !CrlfAt(s, i)
    ensures HasNoCrlf(s[..n])
  {
    forall i | 0 <= i < n ensures !CrlfAt(s[..n], i) {
      assert !CrlfAt(s, i);
    }
  }

  /**
    Fields are read back, whatever follows them, if and only if no name has a colon, no name or value has CR LF, and
    no value has whitespace around it.
   */
  lemma {:induction false} FieldsAreReadBackExactly(fields: seq<Field>, t: seq<Byte>)
    ensures ReadFields(PrintedFields(fields) + CRLF + t) == Some(Reading(fields, t)) <==> AreCleanFields(fields)
  {
    if AreCleanFields(fields) {
      FieldsAreReadBack(fields, t);
    } else if ReadFields(PrintedFields(fields) + CRLF + t).Some? {
      ReadFieldsAreClean(PrintedFields(fields) + CRLF + t);
    }
  }

  /** A value with CR LF in it is read as two fields. */
  lemma {:induction false} SplitFieldExample(t: seq<Byte>)
    ensures var value := [0x78] + CRLF + [0x62, 0x3A, 0x20, 0x79];
      ReadFields(PrintedFields([Field([0x61], value)]) + CRLF + t)
      == Some(Reading([Field([0x61], [0x78]), Field([0x62], [0x79])], t))
  {
    var f := Field([0x61], [0x78] + CRLF + [0x62, 0x3A, 0x20, 0x79]);
    var a, b := Field([0x61], [0x78]), Field([0x62], [0x79]);
    FirstFieldFirst([f], t);
    FirstFieldFirst([a, b], t);
    FirstFieldFirst([b], t);
    assert [f][1..] == [] && [a, b][1..] == [b] && [b][1..] == [];
    var end := PrintedFields([]) + CRLF + t;
    assert LineOf(f) + CRLF + end == LineOf(a) + CRLF + (LineOf(b) + CRLF + end);
    FieldsAreReadBack([a, b], t);
  }

  // ---------- The fields of a response ----------

  lemma {:induction false} ValueIsAt(fields: seq<Field>, name: seq<Byte>, k: nat)
    requires k < |fields| && IsSameName(fields[k].name, name)
    requires forall i :: 0 <= i < k ==> !IsSameName(fields[i].name, name)
    ensures ValueOf(fields, name) == Some(fields[k].value)
  {
    if k > 0 {
      ValueIsAt(fields[1..], name, k - 1);
    }
  }

  lemma {:induction false} ValueIsLater(fields: seq<Field>, later: seq<Field>, name: seq<Byte>)
    requires forall i :: 0 <= i < |fields| ==> !IsSameName(fields[i].name, name)
    ensures ValueOf(fields + later, name) == ValueOf(later, name)
  {
    if fields == [] {
      assert fields + later == later;
    } else {
      ValueIsLater(fields[1..], later, name);
      assert (fields + later)[1..] == fields[1..] + later;
    }
  }

  /** The broker's own field names and values. */
  lemma OwnByte(c: char)
    requires 'A' <= c <= 'Z' || 'a' <= c <= 'z' || c == '-'
    ensures var b := (c as int % 256) as Byte; b != CR && b != 0x3A && !IsWhitespace(b)
  {
    var b := (c as int % 256) as Byte;
    assert b as int == c as int;
  }

  lemma OwnText(s: string)
    requires s != "" && forall i :: 0 <= i < |s| ==> 'A' <= s[i] <= 'Z' || 'a' <= s[i] <= 'z' || s[i] == '-'
    ensures IsCleanValue(Text(s)) && 0x3A !in Text(s)
  {
    forall i | 0 <= i < |s|
      ensures Text(s)[i] != CR && Text(s)[i] != 0x3A && !IsWhitespace(Text(s)[i])
    {
      OwnByte(s[i]);
    }
  }

  lemma {:induction false} DecimalIsDecimal(n: nat)
    ensures IsDecimal(Decimal(n)) && IsCleanValue(Decimal(n))
  {
    if n >= 10 {
      DecimalIsDecimal(n / 10);
    }
  }

  lemma CommonFieldsAreClean(head: Head)
    ensures AreCleanFields(CommonFields(head)) <==> IsCleanValue(head.date)
  {
    OwnText("Server");
    OwnText("Kourier");
    OwnText("Date");
    OwnText("Connection");
    OwnText("close");
    assert CommonFields(head)[1].value == head.date;
  }

  lemma MimeTypeFieldsAreClean(mimeType: seq<Byte>)
    ensures AreCleanFields(MimeTypeFields(mimeType)) <==> IsCleanValue(mimeType)
  {
    OwnText("Content-Type");
    assert mimeType != [] ==> MimeTypeFields(mimeType)[0].value == mimeType;
  }

  lemma TrailerFieldsAreClean(names: seq<seq<Byte>>)
    ensures AreCleanFields(TrailerFields(names)) <==> (names != [] ==> IsCleanValue(Joined(names)))
  {
    OwnText("Trailer");
    assert names != [] ==> TrailerFields(names)[0].value == Joined(names);
  }

  lemma OwnFieldsAreClean(size: nat)
    ensures IsCleanField(ContentLength(size)) && IsCleanField(CHUNKED)
  {
    OwnText("Content-Length");
    OwnText("Transfer-Encoding");
    OwnText("chunked");
    DecimalIsDecimal(size);
  }

  lemma CleanFieldsConcat(a: seq<Field>, b: seq<Field>)
    ensures AreCleanFields(a + b) <==> AreCleanFields(a) && AreCleanFields(b)
  {
    assert forall i :: 0 <= i < |a| ==> (a + b)[i] == a[i];
    assert forall i :: 0 <= i < |b| ==> (a + b)[|a| + i] == b[i];
  }

  /** The fields can be told apart exactly if the texts they are made from can. */
  lemma {:induction false} FieldsAreClean(r: Response)
    ensures AreCleanFields(Fields(r)) <==> AreCleanTexts(r)
  {
    var common, mimeType := CommonFields(r.head), MimeTypeFields(r.head.mimeType);
    CommonFieldsAreClean(r.head);
    MimeTypeFieldsAreClean(r.head.mimeType);
    if r.Plain? {
      OwnFieldsAreClean(|r.body|);
      CleanFieldsConcat([ContentLength(|r.body|)], mimeType);
      CleanFieldsConcat(common, PlainFields(|r.body|, r.head.mimeType));
      CleanFieldsConcat(common + PlainFields(|r.body|, r.head.mimeType), r.head.headers);
    } else {
      OwnFieldsAreClean(0);
      TrailerFieldsAreClean(r.trailerNames);
      CleanFieldsConcat(mimeType, [CHUNKED]);
      CleanFieldsConcat(mimeType + [CHUNKED], TrailerFields(r.trailerNames));
      CleanFieldsConcat(common, ChunkedFields(r.head.mimeType, r.trailerNames));
      CleanFieldsConcat(common + ChunkedFields(r.head.mimeType, r.trailerNames), r.head.headers);
    }
  }

  /** A response of known length announces its length, and is chunked only if one of its headers says so. */
  lemma {:induction false} PlainFraming(r: Response)
    requires r.Plain?
    ensures IsChunked(Fields(r)) <==> IsChunked(r.head.headers)
    ensures ValueOf(Fields(r), Text("Content-Length")) == Some(Decimal(|r.body|))
  {
    ValueIsLater(CommonFields(r.head) + PlainFields(|r.body|, r.head.mimeType), r.head.headers, CHUNKED.name);
    ValueIsAt(Fields(r), Text("Content-Length"), |CommonFields(r.head)|);
  }

  lemma {:induction false} ChunkedFraming(r: Response)
    requires r.Chunked?
    ensures IsChunked(Fields(r))
  {
    ValueIsAt(Fields(r), CHUNKED.name, |CommonFields(r.head)| + |MimeTypeFields(r.head.mimeType)|);
  }

  // ---------- Bodies are read back ----------

  lemma {:induction false} ChunksAreReadBack(chunks: seq<seq<Byte>>, end: seq<Byte>)
    ensures var later, got := Drain(DecodeStep, Decoder(Metadata, end)),
        Drain(DecodeStep, Decoder(Metadata, PrintedChunks(chunks) + end));
      if AreReadable(chunks) then got == Prefixed(Flatten(chunks), later) else got.decoder.mode == Broken
  {
    var later := Drain(DecodeStep, Decoder(Metadata, end));
    if chunks == [] {
      assert PrintedChunks(chunks) + end == end && [] + later.body == later.body;
    } else {
      var more := PrintedChunks(chunks[1..]) + end;
      ReadableOneByOne(chunks);
      TwoAppends(PrintedChunk(chunks[0]), PrintedChunks(chunks[1..]), end);
      if |chunks[0]| < MAX_CHUNK_SIZE {
        ChunksAreReadBack(chunks[1..], end);
        DrainedPrintedChunk(chunks[0], more);
        TwoAppends(chunks[0], Flatten(chunks[1..]), later.body);
      } else {
        OversizeChunkIsRejected(chunks[0], more);
      }
    }
  }

  /** What is left of the bytes after the last chunk. */
  function AfterLastChunk(rest: seq<Byte>): Decoder
    requires |rest| >= 2
  {
    if CrlfAt(rest, 0) then Decoder(Done, rest[2..]) else Decoder(Trailers, rest)
  }

  /** After the last chunk what follows is left to be read, unless it is the empty line. */
  lemma {:induction false} LastHeaderIsRead(rest: seq<Byte>)
    requires |rest| >= 2
    ensures Drain(DecodeStep, Decoder(Metadata, [0x30] + CRLF + rest))
      == Decoded(AfterLastChunk(rest), [])
  {
    var line, x := [0x30 as Byte] + CRLF, [0x30] + CRLF + rest;
    LeadingHexDigitsIs(line, 1);
    assert line[..1] == [0x30] && HexNumber(line[..1]) == 0 by {
      HexDigitsReadBack(0);
    }
    assert IsHeader(line) && HeaderSize(line) == 0;
    assert x[..3] == line && x[3..] == rest && x[5..] == rest[2..] && (CrlfAt(x, 3) <==> CrlfAt(rest, 0));
    AcceptedExactlyAfterAHeader(x, 0, 3);
  }

  lemma {:induction false} EndIsRead(trailers: seq<Field>, t: seq<Byte>)
    ensures var rest := PrintedFields(trailers) + CRLF + t;
      Drain(DecodeStep, Decoder(Metadata, PrintedEnd(trailers) + t))
      == Decoded(AfterLastChunk(rest), [])
  {
    assert PrintedEnd(trailers) + t == [0x30] + CRLF + (PrintedFields(trailers) + CRLF + t);
    LastHeaderIsRead(PrintedFields(trailers) + CRLF + t);
  }

  /** Trailers that can be told apart are not taken for the empty line. */
  lemma {:induction false} TrailersFollow(trailers: seq<Field>, t: seq<Byte>)
    requires AreCleanFields(trailers)
    ensures var rest := PrintedFields(trailers) + CRLF + t;
      (CrlfAt(rest, 0) <==> trailers == []) && (trailers == [] ==> rest[2..] == t)
  {
    if trailers != [] {
      FirstFieldFirst(trailers, t);
      LineHasNoCrlf(trailers[0]);
      assert !CrlfAt(LineOf(trailers[0]), 0);
    }
  }

  /** Chunks and trailers are read back if and only if no chunk is too large and the trailers can be told apart. */
  lemma {:induction false} ChunkedBodyIsReadBack(r: Response, t: seq<Byte>)
    requires r.Chunked? && IsComplete(r)
    ensures ReadChunks(PrintedBody(r) + t) == Some(Reading(Body(Flatten(r.chunks), r.trailers.value), t)) <==>
      AreReadable(r.chunks) && AreCleanFields(r.trailers.value)
  {
    CompleteBodyIsRead(r, t);
    if AreReadable(r.chunks) {
      TrailersAreReadBack(Flatten(r.chunks), r.trailers.value, t);
    }
  }

  /** The chunks of a complete body are read, and the decoder is then after the last of them. */
  lemma {:induction false} CompleteBodyIsRead(r: Response, t: seq<Byte>)
    requires r.Chunked? && IsComplete(r)
    ensures var rest := PrintedFields(r.trailers.value) + CRLF + t;
      var got := Drain(DecodeStep, Decoder(Metadata, PrintedBody(r) + t));
      if AreReadable(r.chunks) then got == Prefixed(Flatten(r.chunks), Decoded(AfterLastChunk(rest), []))
      else got.decoder.mode == Broken
  {
    var trailers := r.trailers.value;
    TwoAppends(PrintedChunks(r.chunks), PrintedEnd(trailers), t);
    ChunksAreReadBack(r.chunks, PrintedEnd(trailers) + t);
    EndIsRead(trailers, t);
  }

  lemma {:induction false} TrailersAreReadBack(data: seq<Byte>, trailers: seq<Field>, t: seq<Byte>)
    ensures var rest := PrintedFields(trailers) + CRLF + t;
      var got := AfterChunks(Prefixed(data, Decoded(AfterLastChunk(rest), [])));
      got == Some(Reading(Body(data, trailers), t)) <==> AreCleanFields(trailers)
  {
    var rest := PrintedFields(trailers) + CRLF + t;
    assert data + [] == data;
    if AreCleanFields(trailers) {
      TrailersFollow(trailers, t);
      FieldsAreReadBack(trailers, t);
    } else if ReadFields(rest).Some? {
      ReadFieldsAreClean(rest);
    }
  }

  lemma {:induction false} OpenBodyIsNotRead(r: Response)
    requires !IsComplete(r)
    ensures ReadChunks(PrintedBody(r)) == None
  {
    ChunksAreReadBack(r.chunks, []);
    assert PrintedBody(r) + [] == PrintedBody(r);
  }

  /** A body in chunks is shorter than its bytes. */
  lemma {:induction false} DrainedIsShorter(d: Decoder)
    ensures var got := Drain(DecodeStep, d);
      && |got.body| + |got.decoder.rest| <= |d.rest|
      && (d.mode == Metadata && (got.decoder.mode == Done || got.decoder.mode == Trailers) ==>
        |got.body| + |got.decoder.rest| < |d.rest|)
    decreases |d.rest|
  {
    var r := DecodeStep(d);
    if |r.decoder.rest| < |d.rest| {
      DrainedIsShorter(r.decoder);
    }
  }

  lemma {:induction false} ReadChunksAreShorter(s: seq<Byte>)
    requires ReadChunks(s).Some?
    ensures |ReadChunks(s).value.item.data| + |ReadChunks(s).value.rest| < |s|
  {
    DrainedIsShorter(Decoder(Metadata, s));
  }

  // ---------- Responses are read back ----------

  /** What the body of a response is read as, once its fields are. */
  lemma {:induction false} BodyIsReadBack(r: Response, t: seq<Byte>)
    requires IsComplete(r)
    ensures var body := Body(MessageOf(r).body, MessageOf(r).trailers);
      var got := ReadBody(WithoutEnd(r.head.statusLine), Fields(r), PrintedBody(r) + t);
      got == Some(Reading(body, t)) <==> IsFramed(r)
  {
    if r.Plain? {
      PlainBodyIsReadBack(r, t);
    } else {
      ChunkedFraming(r);
      ChunkedBodyIsReadBack(r, t);
      if IsBodyless(WithoutEnd(r.head.statusLine)) {
        assert |PrintedBody(r) + t| > |t|;
      }
    }
  }

  lemma {:induction false} PlainBodyIsReadBack(r: Response, t: seq<Byte>)
    requires r.Plain?
    ensures var got := ReadBody(WithoutEnd(r.head.statusLine), Fields(r), r.body + t);
      got == Some(Reading(Body(r.body, []), t)) <==> IsFramed(r)
  {
    var s := r.body + t;
    PlainFraming(r);
    DecimalReadBack(|r.body|);
    DecimalIsDecimal(|r.body|);
    assert s[..|r.body|] == r.body && s[|r.body|..] == t;
    if ReadChunks(s).Some? {
      ReadChunksAreShorter(s);
    }
  }

  lemma {:induction false} HeadIsRead(r: Response, t: seq<Byte>)
    requires IsStatusLine(r.head.statusLine)
    ensures var more := PrintedFields(Fields(r)) + CRLF + t;
      ReadLine(PrintedHead(r) + t) == Some(Reading(WithoutEnd(r.head.statusLine), more))
  {
    var line, more := WithoutEnd(r.head.statusLine), PrintedFields(Fields(r)) + CRLF + t;
    assert r.head.statusLine == line + CRLF;
    FourAppends([], line + CRLF, PrintedFields(Fields(r)), CRLF, t);
    assert PrintedHead(r) + t == line + CRLF + more;
    LineIsReadBack(line, more);
  }

  /** A complete response is read back, whatever follows it, if and only if it can be told apart. */
  lemma {:induction false} ResponseIsReadBackExactly(r: Response, t: seq<Byte>)
    requires IsStatusLine(r.head.statusLine) && IsComplete(r)
    ensures ReadMessage(Printed(r) + t) == Some(Reading(MessageOf(r), t)) <==> IsClean(r)
  {
    var fields := PrintedFields(Fields(r)) + CRLF + (PrintedBody(r) + t);
    TwoAppends(PrintedHead(r), PrintedBody(r), t);
    HeadIsRead(r, PrintedBody(r) + t);
    FieldsAreClean(r);
    if AreCleanTexts(r) {
      FieldsAreReadBack(Fields(r), PrintedBody(r) + t);
      BodyIsReadBack(r, t);
    } else if ReadFields(fields).Some? {
      ReadFieldsAreClean(fields);
    }
  }

  lemma {:induction false} OpenResponseIsNotRead(r: Response)
    requires IsStatusLine(r.head.statusLine) && IsClean(r) && !IsComplete(r)
    ensures ReadMessage(Printed(r)) == None
  {
    HeadIsRead(r, PrintedBody(r));
    FieldsAreClean(r);
    FieldsAreReadBack(Fields(r), PrintedBody(r));
    ChunkedFraming(r);
    OpenBodyIsNotRead(r);
  }

  /** Responses one after the other, in any format. */
  function Sent(format: Response -> seq<Byte>, log: seq<Response>): seq<Byte> {
    if log == [] then [] else Sent(format, log[..|log| - 1]) + format(log[|log| - 1])
  }

  lemma {:induction false} FirstSentFirst(format: Response -> seq<Byte>, log: seq<Response>)
    requires log != []
    ensures Sent(format, log) == format(log[0]) + Sent(format, log[1..])
    decreases |log|
  {
    var last := |log| - 1;
    if last == 0 {
      assert log[..0] == [] && log[1..] == [];
    } else {
      FirstSentFirst(format, log[..last]);
      assert log[..last][1..] == log[1..][..last - 1];
      TwoAppends(format(log[0]), Sent(format, log[1..][..last - 1]), format(log[last]));
    }
  }

  lemma {:induction false} PrintedLogIsSent(log: seq<Response>)
    ensures PrintedLog(log) == Sent(Printed, log)
    decreases |log|
  {
    if log != [] {
      PrintedLogIsSent(log[..|log| - 1]);
    }
  }

  lemma {:induction false} FirstResponseFirst(log: seq<Response>)
    requires log != []
    ensures PrintedLog(log) == Printed(log[0]) + PrintedLog(log[1..])
  {
    PrintedLogIsSent(log);
    PrintedLogIsSent(log[1..]);
    FirstSentFirst(Printed, log);
  }

  /** Complete responses, and at most one open one after them. */
  predicate IsSequence(log: seq<Response>) {
    forall i :: 0 <= i < |log| - 1 ==> IsComplete(log[i])
  }

  ghost predicate AreClean(log: seq<Response>) {
    forall i :: 0 <= i < |log| ==> IsStatusLine(log[i].head.statusLine) && IsClean(log[i])
  }

  lemma RestIsClean(log: seq<Response>)
    requires log != [] && AreClean(log) && IsSequence(log)
    ensures AreClean(log[1..]) && IsSequence(log[1..])
  {
  }

  /** A receiver splits the bytes back into exactly the complete responses. */
  lemma {:induction false} ResponsesAreReadBack(log: seq<Response>)
    requires AreClean(log) && IsSequence(log)
    ensures ReadMessages(PrintedLog(log)) == MessagesOf(log)
    decreases |log|
  {
    if log != [] {
      FirstResponseFirst(log);
      RestIsClean(log);
      ResponsesAreReadBack(log[1..]);
      if IsComplete(log[0]) {
        ResponseIsReadBackExactly(log[0], PrintedLog(log[1..]));
      } else {
        assert log[1..] == [] && Printed(log[0]) + [] == Printed(log[0]);
        OpenResponseIsNotRead(log[0]);
      }
    }
  }

  // ---------- A receiver that has only part of the bytes ----------

  lemma {:induction false} LineOfMore(s: seq<Byte>, x: seq<Byte>)
    requires ReadLine(s).Some?
    ensures ReadLine(s + x) == Some(Reading(ReadLine(s).value.item, ReadLine(s).value.rest + x))
  {
    var n, m := LineEnd(s, 0), LineEnd(s + x, 0);
    assert CrlfAt(s, n) && CrlfAt(s + x, n);
    assert m < n ==> !CrlfAt(s, m);
    assert (s + x)[..n] == s[..n] && (s + x)[n + 2..] == s[n + 2..] + x;
  }

  lemma {:induction false} FieldsOfMore(s: seq<Byte>, x: seq<Byte>)
    requires ReadFields(s).Some?
    ensures ReadFields(s + x) == Some(Reading(ReadFields(s).value.item, ReadFields(s).value.rest + x))
    decreases |s|
  {
    LineOfMore(s, x);
    var line := ReadLine(s).value;
    if line.item != [] {
      FieldsOfMore(line.rest, x);
    }
  }

  lemma {:induction false} ChunksOfMore(s: seq<Byte>, x: seq<Byte>)
    requires ReadChunks(s).Some?
    ensures ReadChunks(s + x) == Some(Reading(ReadChunks(s).value.item, ReadChunks(s).value.rest + x))
  {
    var d := Decoder(Metadata, s);
    var got := Drain(DecodeStep, d);
    DecodeStepIsLawful();
    DrainingFirstDoesNotMatter(DecodeStep, d, x);
    assert Drain(DecodeStep, Arrived(got.decoder, x)) == Decoded(Arrived(got.decoder, x), []);
    assert got.body + [] == got.body;
    if got.decoder.mode == Trailers {
      FieldsOfMore(got.decoder.rest, x);
    }
  }

  lemma {:induction false} BodyOfMore(statusLine: seq<Byte>, fields: seq<Field>, s: seq<Byte>, x: seq<Byte>)
    requires ReadBody(statusLine, fields, s).Some?
    ensures var r := ReadBody(statusLine, fields, s).value;
      ReadBody(statusLine, fields, s + x) == Some(Reading(r.item, r.rest + x))
  {
    if !IsBodyless(statusLine) {
      if IsChunked(fields) {
        ChunksOfMore(s, x);
      } else {
        var n := DecimalNumber(ValueOf(fields, Text("Content-Length")).value);
        assert (s + x)[..n] == s[..n] && (s + x)[n..] == s[n..] + x;
      }
    }
  }

  /** A message that is read stays as it is when more bytes arrive. */
  lemma {:induction false} MessageOfMore(s: seq<Byte>, x: seq<Byte>)
    requires ReadMessage(s).Some?
    ensures ReadMessage(s + x) == Some(Reading(ReadMessage(s).value.item, ReadMessage(s).value.rest + x))
  {
    LineOfMore(s, x);
    var line := ReadLine(s).value;
    FieldsOfMore(line.rest, x);
    var head := ReadFields(line.rest).value;
    BodyOfMore(line.item, head.item, head.rest, x);
  }

  lemma {:induction false} MessagesOfMore(s: seq<Byte>, x: seq<Byte>)
    ensures ReadMessages(s) <= ReadMessages(s + x)
    decreases |s|
  {
    if ReadMessage(s).Some? {
      MessageOfMore(s, x);
      MessagesOfMore(ReadMessage(s).value.rest, x);
    }
  }

  lemma {:induction false} MessagesOfPrefix(arrived: seq<Byte>, s: seq<Byte>)
    requires arrived <= s
    ensures ReadMessages(arrived) <= ReadMessages(s)
  {
    MessagesOfMore(arrived, s[|arrived|..]);
    assert s == arrived + s[|arrived|..];
  }

  // ---------- What is read of what any calls write ----------

  lemma {:induction false} CallsKeepClean(calls: seq<Call>)
    requires forall i :: 0 <= i < |calls| ==> IsCleanCall(calls[i])
    ensures AreClean(Run(IDLE, calls).log)
    decreases |calls|
  {
    if calls != [] {
      var last := |calls| - 1;
      CallsKeepClean(calls[..last]);
      StepKeepsClean(Run(IDLE, calls[..last]), calls[last]);
    }
  }

  lemma LogWithCleanLast(log: seq<Response>, r: Response)
    requires AreClean(log) && IsStatusLine(r.head.statusLine) && IsClean(r)
    ensures AreClean(log + [r]) && (log != [] ==> AreClean(log[..|log| - 1] + [r]))
  {
  }

  lemma EndedIsClean(r: Response, trailers: seq<Field>)
    requires r.Chunked? && IsClean(r) && AreCleanFields(trailers)
    ensures IsClean(r.(trailers := Some(trailers)))
  {
  }

  lemma ContinuedIsClean(r: Response, data: seq<Byte>)
    requires r.Chunked? && IsClean(r) && |data| < MAX_CHUNK_SIZE
    ensures IsClean(r.(chunks := r.chunks + [data]))
  {
  }

  lemma {:induction false} StepKeepsClean(st: State, call: Call)
    requires InStep(st) && AreClean(st.log) && IsCleanCall(call)
    ensures AreClean(Step(st, call).log)
  {
    if IsOpen(st.log) {
      var last := st.log[|st.log| - 1];
      var trailers := if call.WriteLastChunk? then call.trailers else [];
      EndedIsClean(last, trailers);
      LogWithCleanLast(st.log, last.(trailers := Some(trailers)));
      if call.WriteChunk? {
        ContinuedIsClean(last, call.data);
        LogWithCleanLast(st.log, last.(chunks := last.chunks + [call.data]));
      }
    } else if Step(st, call).log != st.log {
      LogWithCleanLast(st.log, Step(st, call).log[|st.log|]);
    }
  }

  /**
    Whatever is called in whatever order, with texts that can be told apart: what a receiver reads from the bytes
    written is exactly the complete responses, in order, each with its status line, fields, body and trailers; and
    what it reads from the bytes that have arrived so far is the first of them.
   */
  lemma {:induction false} WrittenResponsesAreRead(calls: seq<Call>, arrived: seq<Byte>)
    requires forall i :: 0 <= i < |calls| ==> IsCleanCall(calls[i])
    requires arrived <= PrintedLog(Run(IDLE, calls).log)
    ensures var log := Run(IDLE, calls).log;
      && ReadMessages(PrintedLog(log)) == MessagesOf(log)
      && ReadMessages(arrived) <= MessagesOf(log)
  {
    var log := Run(IDLE, calls).log;
    CallsKeepClean(calls);
    OutputIsResponses(calls);
    ResponsesAreReadBack(log);
    MessagesOfPrefix(arrived, PrintedLog(log));
  }

  /** A status code without a body, written with one: the body is read as the start of the next message. */
  lemma {:induction false} BodyAfterNoContentIsLeft(r: Response, t: seq<Byte>)
    requires IsStatusLine(r.head.statusLine) && r.Plain? && r.body != [] && AreCleanTexts(r)
    requires IsBodyless(WithoutEnd(r.head.statusLine))
    ensures ReadMessage(Printed(r) + t) == Some(Reading(MessageOf(r).(body := []), r.body + t))
  {
    TwoAppends(PrintedHead(r), r.body, t);
    HeadIsRead(r, r.body + t);
    FieldsAreClean(r);
    FieldsAreReadBack(Fields(r), r.body + t);
  }
}
