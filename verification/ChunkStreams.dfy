/**
  A chunked message from end to end: what the sender prints, and what the receiver recovers from it when the
  bytes arrive in any pieces.
 */
module ChunkStreams {
  import opened Bytes
  import opened ChunkMetadata

  // ---------- The sender ----------

  /** What is written for one chunk; nothing for an empty one. */
  function PrintedChunk(data: seq<Byte>): seq<Byte> {
    if data == [] then [] else Header(|data|) + data + CRLF
  }

  function PrintedChunks(chunks: seq<seq<Byte>>): seq<Byte> {
    if chunks == [] then [] else PrintedChunk(chunks[0]) + PrintedChunks(chunks[1..])
  }

  /** The last chunk without trailers. */
  const LAST_CHUNK: seq<Byte> := [0x30, 0x0D, 0x0A, 0x0D, 0x0A]

  function Flatten(parts: seq<seq<Byte>>): seq<Byte> {
    if parts == [] then [] else parts[0] + Flatten(parts[1..])
  }

  /** Every chunk's size can be read back. */
  predicate AreReadable(chunks: seq<seq<Byte>>) {
    forall i :: 0 <= i < |chunks| ==> |chunks[i]| < MAX_CHUNK_SIZE
  }

  // ---------- The receiver ----------

  type Positive = n: nat | n > 0 witness 1

  datatype Mode = Metadata | Data(pending: Positive) | Done | Trailers | Broken

  /** What the receiver expects, and the bytes that have arrived but are not consumed. */
  datatype Decoder = Decoder(mode: Mode, rest: seq<Byte>)

  datatype Decoded = Decoded(decoder: Decoder, body: seq<Byte>)

  /** One step: a header, or a part of the body. The last two bytes are kept until the end of the data is known. */
  function DecodeStep(d: Decoder): (r: Decoded)
    ensures |r.decoder.rest| <= |d.rest|
    ensures |r.decoder.rest| == |d.rest| ==> r.body == [] && r.decoder.rest == d.rest
  {
    match d.mode
    case Metadata => Decoded(DecodeMetadata(d.rest), [])
    case Data(pending) => DecodeData(d.rest, pending)
    case _ => Decoded(d, [])
  }

  function DecodeMetadata(rest: seq<Byte>): (d: Decoder)
    ensures |d.rest| < |rest| || d.rest == rest
  {
    AfterOutcome(ParseBytes(rest), rest)
  }

  function AfterOutcome(o: Outcome, rest: seq<Byte>): (d: Decoder)
    requires o.metadataSize <= |rest| && (o.status == ExpectingChunkData ==> o.dataSize > 0)
    ensures |d.rest| <= |rest| && (|d.rest| == |rest| ==> d.rest == rest)
  {
    match o.status
    case ExpectingChunkData => Decoder(Data(o.dataSize), rest[o.metadataSize..])
    case ParsedRequest => Decoder(Done, rest[o.metadataSize..])
    case ExpectingTrailer => Decoder(Trailers, rest[o.metadataSize..])
    case NeedsMoreData => Decoder(Metadata, rest)
    case Failed => Decoder(Broken, rest)
  }

  function DecodeData(rest: seq<Byte>, pending: Positive): (r: Decoded)
    ensures |r.decoder.rest| <= |rest|
    ensures |r.decoder.rest| == |rest| ==> r.body == [] && r.decoder.rest == rest
  {
    if |rest| < 3 then
      Decoded(Decoder(Data(pending), rest), [])
    else if pending + 2 > |rest| then
      Decoded(Decoder(Data(pending - (|rest| - 2)), rest[|rest| - 2..]), rest[..|rest| - 2])
    else if CrlfAt(rest, pending) then
      Decoded(Decoder(Metadata, rest[pending + 2..]), rest[..pending])
    else
      Decoded(Decoder(Broken, rest), [])
  }

  /** As many steps as the bytes at hand allow. */
  function Drain(step: Decoder -> Decoded, d: Decoder): Decoded
    decreases |d.rest|
  {
    var r := step(d);
    if |r.decoder.rest| < |d.rest| then Prefixed(r.body, Drain(step, r.decoder)) else r
  }

  function Prefixed(body: seq<Byte>, r: Decoded): Decoded {
    Decoded(r.decoder, body + r.body)
  }

  function Arrived(d: Decoder, bytes: seq<Byte>): Decoder {
    Decoder(d.mode, d.rest + bytes)
  }

  /** The bytes arrive piece by piece, and the decoder goes as far as it can after each. */
  function Receive(step: Decoder -> Decoded, d: Decoder, pieces: seq<seq<Byte>>): Decoded
    decreases |pieces|
  {
    if pieces == [] then Decoded(d, [])
    else
      var first := Drain(step, Arrived(d, pieces[0]));
      Prefixed(first.body, Receive(step, first.decoder, pieces[1..]))
  }

  /**
    The same reading: the same state and body, unless the message is malformed, where the body of a broken chunk
    may have been delivered in part.
   */
  predicate SameReading(atOnce: Decoded, inPieces: Decoded) {
    && atOnce.decoder.mode == inPieces.decoder.mode
    && (atOnce.decoder.mode == Broken ==> atOnce.body <= inPieces.body)
    && (atOnce.decoder.mode != Broken ==> atOnce == inPieces)
  }

  // ---------- Draining, for any step with the laws above ----------

  /** Nothing happens, or the same happens when more bytes have arrived, or a partial step is carried on. */
  predicate IsLawful(step: Decoder -> Decoded, d: Decoder, bytes: seq<Byte>) {
    var r := step(d);
    || r == Decoded(d, [])
    || IsWholeStep(step, d, bytes)
    || IsPartialStep(step, d, bytes)
  }

  predicate IsWholeStep(step: Decoder -> Decoded, d: Decoder, bytes: seq<Byte>) {
    var r := step(d);
    && step(Arrived(d, bytes)) == Decoded(Arrived(r.decoder, bytes), r.body)
    && (|r.decoder.rest| < |d.rest| || r.decoder == Decoder(Broken, d.rest))
  }

  predicate IsPartialStep(step: Decoder -> Decoded, d: Decoder, bytes: seq<Byte>) {
    var r, x := step(d), step(Arrived(d, bytes));
    var next := step(Arrived(r.decoder, bytes));
    && |r.decoder.rest| < |d.rest| && step(r.decoder) == Decoded(r.decoder, [])
    && (bytes != [] ==>
      && (x.decoder.mode == next.decoder.mode == Broken || |next.decoder.rest| < |r.decoder.rest| + |bytes|)
      && SameReading(x, Prefixed(r.body, next)))
  }

  lemma SameAfterTheSamePart(part: seq<Byte>, body: seq<Byte>, a: Decoded, b: Decoded)
    requires SameReading(a, Prefixed(body, b))
    ensures SameReading(Prefixed(part, a), Prefixed(part + body, b))
  {
    assert part + (body + b.body) == (part + body) + b.body;
  }

  predicate StopsIfBroken(step: Decoder -> Decoded, d: Decoder) {
    d.mode == Broken ==> step(d) == Decoded(d, [])
  }

  ghost predicate IsLawfulStep(step: Decoder -> Decoded) {
    && (forall d, bytes {:trigger IsLawful(step, d, bytes)} :: IsLawful(step, d, bytes))
    && (forall d {:trigger StopsIfBroken(step, d)} :: StopsIfBroken(step, d))
  }

  /** Draining before more bytes arrive changes nothing. */
  lemma {:induction false} DrainingFirstDoesNotMatter(step: Decoder -> Decoded, d: Decoder, bytes: seq<Byte>)
    requires IsLawfulStep(step)
    ensures var r := Drain(step, d);
      SameReading(Drain(step, Arrived(d, bytes)), Prefixed(r.body, Drain(step, Arrived(r.decoder, bytes))))
    decreases |d.rest|
  {
    assert IsLawful(step, d, bytes);
    var r := step(d);
    if r == Decoded(d, []) {
      assert Drain(step, d) == r;
    } else if IsWholeStep(step, d, bytes) {
      if |r.decoder.rest| < |d.rest| {
        DrainingFirstDoesNotMatter(step, r.decoder, bytes);
        var more := Drain(step, r.decoder);
        SameAfterTheSamePart(r.body, more.body, Drain(step, Arrived(r.decoder, bytes)),
          Drain(step, Arrived(more.decoder, bytes)));
      } else {
        assert StopsIfBroken(step, Arrived(r.decoder, bytes));
      }
    } else {
      PartialStepFirst(step, d, bytes);
    }
  }

  lemma {:induction false} PartialStepFirst(step: Decoder -> Decoded, d: Decoder, bytes: seq<Byte>)
    requires IsLawfulStep(step) && IsPartialStep(step, d, bytes)
    ensures var r := Drain(step, d);
      SameReading(Drain(step, Arrived(d, bytes)), Prefixed(r.body, Drain(step, Arrived(r.decoder, bytes))))
  {
    var r := step(d);
    assert Drain(step, d) == Prefixed(r.body, Decoded(r.decoder, []));
    if bytes == [] {
      assert Arrived(d, bytes) == d && Arrived(r.decoder, bytes) == r.decoder;
    } else {
      var x, next := step(Arrived(d, bytes)), step(Arrived(r.decoder, bytes));
      assert StopsIfBroken(step, x.decoder) && StopsIfBroken(step, next.decoder);
      if x.decoder.mode != Broken {
        SameAfterTheSamePart(r.body, next.body, Prefixed(next.body, Drain(step, next.decoder)),
          Drain(step, next.decoder));
      }
    }
  }

  // ---------- The pieces do not matter ----------

  /** The same bytes give the same reading in one piece and in many. */
  lemma {:induction false} PiecesDoNotMatter(step: Decoder -> Decoded, d: Decoder, pieces: seq<seq<Byte>>)
    requires IsLawfulStep(step) && step(d) == Decoded(d, [])
    ensures SameReading(Drain(step, Arrived(d, Flatten(pieces))), Receive(step, d, pieces))
    decreases |pieces|
  {
    if pieces == [] {
      assert Arrived(d, []) == d;
    } else {
      var first := Drain(step, Arrived(d, pieces[0]));
      DrainedIsStuck(step, Arrived(d, pieces[0]));
      PiecesDoNotMatter(step, first.decoder, pieces[1..]);
      var later := Flatten(pieces[1..]);
      DrainingFirstDoesNotMatter(step, Arrived(d, pieces[0]), later);
      assert Arrived(Arrived(d, pieces[0]), later) == Arrived(d, Flatten(pieces)) by {
        assert (d.rest + pieces[0]) + later == d.rest + (pieces[0] + later);
      }
      SameAfterTheSamePart(first.body, [], Drain(step, Arrived(first.decoder, later)),
        Receive(step, first.decoder, pieces[1..]));
    }
  }

  lemma {:induction false} DrainedIsStuck(step: Decoder -> Decoded, d: Decoder)
    requires IsLawfulStep(step)
    ensures var end := Drain(step, d).decoder; step(end) == Decoded(end, [])
    decreases |d.rest|
  {
    var r := step(d);
    assert IsLawful(step, d, []) && StopsIfBroken(step, r.decoder);
    if |r.decoder.rest| < |d.rest| {
      DrainedIsStuck(step, r.decoder);
    }
  }

  // ---------- The decoder's step has the laws ----------

  lemma {:induction false} WholeStep(d: Decoder, bytes: seq<Byte>)
    requires d.mode.Data? ==> d.mode.pending + 2 <= |d.rest|
    requires d.mode.Metadata? ==> ParseBytes(d.rest).status != NeedsMoreData
    requires d.mode.Data? || d.mode.Metadata?
    ensures IsWholeStep(DecodeStep, d, bytes)
  {
    if d.mode.Data? {
      WholeDataStep(d.rest, d.mode.pending, bytes);
    } else {
      WholeMetadataStep(d.rest, bytes);
    }
  }

  lemma {:induction false} WholeMetadataStep(rest: seq<Byte>, bytes: seq<Byte>)
    requires ParseBytes(rest).status != NeedsMoreData
    ensures DecodeMetadata(rest + bytes) == Arrived(DecodeMetadata(rest), bytes)
    ensures |DecodeMetadata(rest).rest| < |rest| || DecodeMetadata(rest) == Decoder(Broken, rest)
  {
    DecidedOutcomeIsFinal(rest, bytes);
    MoreAfterOutcome(ParseBytes(rest), rest, bytes);
  }

  lemma {:induction false} MoreAfterOutcome(o: Outcome, rest: seq<Byte>, bytes: seq<Byte>)
    requires o.metadataSize <= |rest| && (o.status == ExpectingChunkData ==> o.dataSize > 0)
    requires o.status != NeedsMoreData && (o.status != Failed ==> o.metadataSize > 0)
    ensures AfterOutcome(o, rest + bytes) == Arrived(AfterOutcome(o, rest), bytes)
    ensures |AfterOutcome(o, rest).rest| < |rest| || AfterOutcome(o, rest) == Decoder(Broken, rest)
  {
    assert (rest + bytes)[o.metadataSize..] == rest[o.metadataSize..] + bytes;
  }

  lemma {:induction false} WholeDataStep(rest: seq<Byte>, pending: Positive, bytes: seq<Byte>)
    requires pending + 2 <= |rest|
    ensures var r := DecodeData(rest, pending);
      DecodeData(rest + bytes, pending) == Decoded(Arrived(r.decoder, bytes), r.body)
  {
    var x := rest + bytes;
    assert x[pending + 2..] == rest[pending + 2..] + bytes;
    assert x[..pending] == rest[..pending];
  }

  /** After a partial step, the next one carries on where a single step would have got to. */
  lemma {:induction false} PartialStep(rest: seq<Byte>, pending: Positive, bytes: seq<Byte>)
    requires 3 <= |rest| < pending + 2 && bytes != []
    ensures var r := DecodeData(rest, pending);
      var x, next := DecodeData(rest + bytes, pending), DecodeData(rest[|rest| - 2..] + bytes, pending - (|rest| - 2));
      && (x.decoder.mode == next.decoder.mode == Broken || |next.decoder.rest| < 2 + |bytes|)
      && SameReading(x, Prefixed(r.body, next))
  {
    var k, x := |rest| - 2, rest + bytes;
    var y := rest[k..] + bytes;
    assert y == x[k..] && rest[..k] == x[..k];
    if pending + 2 <= |x| {
      assert y[pending - k] == x[pending] && y[pending - k + 1] == x[pending + 1];
      CutTwice(x, k, pending);
      CutTwice(x, k, pending + 2);
    } else {
      CutTwice(x, k, |x| - 2);
    }
  }

  lemma CutTwice<T>(x: seq<T>, k: nat, n: nat)
    requires k <= n <= |x|
    ensures x[..n] == x[..k] + x[k..][..n - k] && x[n..] == x[k..][n - k..]
  {
  }

  lemma {:induction false} OneStepIsLawful(d: Decoder, bytes: seq<Byte>)
    ensures IsLawful(DecodeStep, d, bytes)
  {
    if d.mode.Data? && 3 <= |d.rest| < d.mode.pending + 2 {
      if bytes != [] {
        PartialStep(d.rest, d.mode.pending, bytes);
      }
      assert IsPartialStep(DecodeStep, d, bytes);
    } else if (d.mode.Data? && d.mode.pending + 2 <= |d.rest|) ||
      (d.mode.Metadata? && ParseBytes(d.rest).status != NeedsMoreData) {
      WholeStep(d, bytes);
    }
  }

  lemma {:induction false} DecodeStepIsLawful()
    ensures IsLawfulStep(DecodeStep)
  {
    forall d, bytes ensures IsLawful(DecodeStep, d, bytes) {
      OneStepIsLawful(d, bytes);
    }
    forall d ensures StopsIfBroken(DecodeStep, d) {
    }
  }

  // ---------- Round trip ----------

  const START: Decoder := Decoder(Metadata, [])

  lemma AfterFirst<T>(a: seq<T>, b: seq<T>)
    ensures (a + b)[|a|..] == b
  {
  }

  lemma AfterData(data: seq<Byte>, t: seq<Byte>)
    ensures var x := data + CRLF + t; CrlfAt(x, |data|) && x[|data| + 2..] == t && x[..|data|] == data
  {
  }

  lemma {:induction false} PrintedChunkIsReadBack(data: seq<Byte>, t: seq<Byte>)
    requires 0 < |data| < MAX_CHUNK_SIZE
    ensures DecodeStep(Decoder(Metadata, PrintedChunk(data) + t)) == Decoded(Decoder(Data(|data|), data + CRLF + t), [])
    ensures DecodeStep(Decoder(Data(|data|), data + CRLF + t)) == Decoded(Decoder(Metadata, t), data)
  {
    var header, x := Header(|data|), data + CRLF + t;
    assert PrintedChunk(data) + t == header + x;
    PrintedHeaderIsReadBack(|data|, x);
    AfterFirst(header, x);
    AfterData(data, t);
  }

  lemma {:induction false} DrainedPrintedChunk(data: seq<Byte>, t: seq<Byte>)
    requires |data| < MAX_CHUNK_SIZE
    ensures Drain(DecodeStep, Decoder(Metadata, PrintedChunk(data) + t))
      == Prefixed(data, Drain(DecodeStep, Decoder(Metadata, t)))
  {
    var more := Drain(DecodeStep, Decoder(Metadata, t));
    if data == [] {
      assert PrintedChunk(data) + t == t && [] + more.body == more.body;
    } else {
      PrintedChunkIsReadBack(data, t);
      OneStepOfDrain(DecodeStep, Decoder(Metadata, PrintedChunk(data) + t));
      OneStepOfDrain(DecodeStep, Decoder(Data(|data|), data + CRLF + t));
      assert [] + (data + more.body) == data + more.body;
    }
  }

  lemma OneStepOfDrain(step: Decoder -> Decoded, d: Decoder)
    requires |step(d).decoder.rest| < |d.rest|
    ensures Drain(step, d) == Prefixed(step(d).body, Drain(step, step(d).decoder))
  {
  }

  lemma {:induction false} LastChunkIsReadBack(t: seq<Byte>)
    ensures Drain(DecodeStep, Decoder(Metadata, LAST_CHUNK + t)) == Decoded(Decoder(Done, t), [])
  {
    var line, x := [0x30 as Byte] + CRLF, LAST_CHUNK + t;
    LeadingHexDigitsIs(line, 1);
    assert line[..1] == [0x30] && HexNumber(line[..1]) == 0 by {
      HexDigitsReadBack(0);
    }
    assert IsHeader(line) && HeaderSize(line) == 0;
    assert x[..3] == line && CrlfAt(x, 3) && x[5..] == t;
    AcceptedExactlyAfterAHeader(x, 0, 3);
  }

  lemma FirstOfFour<T>(a: seq<T>, b: seq<T>, c: seq<T>, d: seq<T>)
    ensures a + b + c + d == a + (b + c + d)
  {
  }

  lemma ReadableOneByOne(chunks: seq<seq<Byte>>)
    requires chunks != []
    ensures AreReadable(chunks) <==> |chunks[0]| < MAX_CHUNK_SIZE && AreReadable(chunks[1..])
  {
    assert forall i :: 0 < i < |chunks| ==> chunks[i] == chunks[1..][i - 1];
  }

  /** Read at once, the printed message is the chunks' data, provided that every chunk can be read back. */
  lemma {:induction false} PrintedMessageIsReadBack(chunks: seq<seq<Byte>>, t: seq<Byte>)
    ensures var r := Drain(DecodeStep, Decoder(Metadata, PrintedChunks(chunks) + LAST_CHUNK + t));
      if AreReadable(chunks) then r == Decoded(Decoder(Done, t), Flatten(chunks)) else r.decoder.mode == Broken
  {
    if chunks == [] {
      assert PrintedChunks(chunks) + LAST_CHUNK + t == LAST_CHUNK + t;
      LastChunkIsReadBack(t);
    } else {
      var more := PrintedChunks(chunks[1..]) + LAST_CHUNK + t;
      FirstOfFour(PrintedChunk(chunks[0]), PrintedChunks(chunks[1..]), LAST_CHUNK, t);
      ReadableOneByOne(chunks);
      if |chunks[0]| < MAX_CHUNK_SIZE {
        DrainedPrintedChunk(chunks[0], more);
        PrintedMessageIsReadBack(chunks[1..], t);
      } else {
        OversizeChunkIsRejected(chunks[0], more);
      }
    }
  }

  lemma {:induction false} OversizeChunkIsRejected(data: seq<Byte>, t: seq<Byte>)
    requires |data| >= MAX_CHUNK_SIZE
    ensures Drain(DecodeStep, Decoder(Metadata, PrintedChunk(data) + t)).decoder.mode == Broken
  {
    assert PrintedChunk(data) + t == Header(|data|) + (data + CRLF + t);
    PrintedHeaderIsReadBack(|data|, data + CRLF + t);
  }

  // ---------- Exactly what is read as a body ----------

  /** A header of this length; then its bytes, CR LF and the rest of the body, or, for no bytes, the end. */
  ghost predicate IsBodyAfter(s: seq<Byte>, m: nat, data: seq<Byte>, rest: seq<Byte>, hasTrailers: bool)
    decreases |s|, 0
  {
    && m <= |s| && IsHeader(s[..m])
    && var n := HeaderSize(s[..m]);
      if n == 0
      then data == [] && m + 2 <= |s| && hasTrailers == !CrlfAt(s, m) && rest == s[if hasTrailers then m else m + 2..]
      else
        && m + n + 2 <= |s| && CrlfAt(s, m + n) && n <= |data| && data[..n] == s[m..m + n]
        && IsBody(s[m + n + 2..], data[n..], rest, hasTrailers)
  }

  /** A body in chunks (section 7.1 of RFC 9112), and the bytes behind it, which may start with trailers. */
  ghost predicate IsBody(s: seq<Byte>, data: seq<Byte>, rest: seq<Byte>, hasTrailers: bool)
    decreases |s|, 1
  {
    exists m: nat :: IsBodyAfter(s, m, data, rest, hasTrailers)
  }

  ghost predicate IsRead(got: Decoded, data: seq<Byte>, rest: seq<Byte>, hasTrailers: bool) {
    got == Decoded(Decoder(if hasTrailers then Trailers else Done, rest), data)
  }

  /** Data that is not all there, or not followed by CR LF, is not read. */
  lemma {:induction false} DataIsReadExactly(s: seq<Byte>, n: Positive, data: seq<Byte>, rest: seq<Byte>,
      hasTrailers: bool)
    ensures IsRead(Drain(DecodeStep, Decoder(Data(n), s)), data, rest, hasTrailers) <==>
      && n + 2 <= |s| && CrlfAt(s, n) && n <= |data| && data[..n] == s[..n]
      && IsRead(Drain(DecodeStep, Decoder(Metadata, s[n + 2..])), data[n..], rest, hasTrailers)
  {
    var d := Decoder(Data(n), s);
    if |s| >= 3 && n + 2 > |s| {
      var left := DecodeStep(d).decoder;
      assert |left.rest| == 2;
      assert Drain(DecodeStep, left).decoder == left;
    } else if n + 2 <= |s| && CrlfAt(s, n) {
      var more := Drain(DecodeStep, Decoder(Metadata, s[n + 2..]));
      assert Drain(DecodeStep, d) == Decoded(more.decoder, s[..n] + more.body);
      assert n <= |data| && data[..n] == s[..n] && more.body == data[n..] ==> s[..n] + more.body == data;
    }
  }

  /** There is only one header that a body can start with. */
  lemma {:induction false} BodyOfOutcome(s: seq<Byte>, data: seq<Byte>, rest: seq<Byte>, hasTrailers: bool)
    ensures IsBody(s, data, rest, hasTrailers) <==>
      IsAccepted(s) && IsBodyAfter(s, LineSize(ParseBytes(s)), data, rest, hasTrailers)
  {
    if IsAccepted(s) {
      AcceptedLineIsAHeader(s);
    }
    if m: nat :| IsBodyAfter(s, m, data, rest, hasTrailers) {
      AcceptedExactlyAfterAHeader(s, HeaderSize(s[..m]), m);
    }
  }

  lemma {:induction false} EndIsReadExactly(s: seq<Byte>, data: seq<Byte>, rest: seq<Byte>, hasTrailers: bool)
    requires ParseBytes(s).status != ExpectingChunkData
    ensures IsRead(Drain(DecodeStep, Decoder(Metadata, s)), data, rest, hasTrailers) <==>
      IsAccepted(s) && IsBodyAfter(s, LineSize(ParseBytes(s)), data, rest, hasTrailers)
  {
    if IsAccepted(s) {
      var m := LineSize(ParseBytes(s));
      AcceptedLineIsAHeader(s);
      AcceptedExactlyAfterAHeader(s, 0, m);
    }
  }

  /** A receiver reads a body to its end if and only if it is one, and then exactly its data and what is behind it. */
  lemma {:induction false} BodyIsReadExactly(s: seq<Byte>, data: seq<Byte>, rest: seq<Byte>, hasTrailers: bool)
    ensures IsRead(Drain(DecodeStep, Decoder(Metadata, s)), data, rest, hasTrailers) <==>
      IsBody(s, data, rest, hasTrailers)
    decreases |s|
  {
    var o := ParseBytes(s);
    if o.status != ExpectingChunkData {
      BodyOfOutcome(s, data, rest, hasTrailers);
      EndIsReadExactly(s, data, rest, hasTrailers);
    } else {
      var m, n := o.metadataSize, o.dataSize;
      FirstChunkOfBody(s, m, n, data, rest, hasTrailers);
      FirstChunkIsRead(s, m, n, data, rest, hasTrailers);
      if m + n + 2 <= |s| && n <= |data| {
        BodyIsReadExactly(s[m + n + 2..], data[n..], rest, hasTrailers);
      }
    }
  }

  lemma FirstChunkOfBody(s: seq<Byte>, m: nat, n: Positive, data: seq<Byte>, rest: seq<Byte>, hasTrailers: bool)
    requires ParseBytes(s) == Outcome(ExpectingChunkData, n, m)
    ensures IsBody(s, data, rest, hasTrailers) <==>
      && m + n + 2 <= |s| && CrlfAt(s, m + n) && n <= |data| && data[..n] == s[m..m + n]
      && IsBody(s[m + n + 2..], data[n..], rest, hasTrailers)
  {
    BodyOfOutcome(s, data, rest, hasTrailers);
    AcceptedExactlyAfterAHeader(s, n, m);
    ChunkAfterHeader(s, m, n, data, rest, hasTrailers);
    assert LineSize(ParseBytes(s)) == m;
  }

  lemma ChunkAfterHeader(s: seq<Byte>, m: nat, n: Positive, data: seq<Byte>, rest: seq<Byte>, hasTrailers: bool)
    requires m <= |s| && IsHeader(s[..m]) && HeaderSize(s[..m]) == n
    ensures IsBodyAfter(s, m, data, rest, hasTrailers) <==>
      && m + n + 2 <= |s| && CrlfAt(s, m + n) && n <= |data| && data[..n] == s[m..m + n]
      && IsBody(s[m + n + 2..], data[n..], rest, hasTrailers)
  {
  }

  lemma {:induction false} FirstChunkIsRead(s: seq<Byte>, m: nat, n: Positive, data: seq<Byte>, rest: seq<Byte>,
      hasTrailers: bool)
    requires ParseBytes(s) == Outcome(ExpectingChunkData, n, m)
    ensures IsRead(Drain(DecodeStep, Decoder(Metadata, s)), data, rest, hasTrailers) <==>
      && m + n + 2 <= |s| && CrlfAt(s, m + n) && n <= |data| && data[..n] == s[m..m + n]
      && IsRead(Drain(DecodeStep, Decoder(Metadata, s[m + n + 2..])), data[n..], rest, hasTrailers)
  {
    DrainAfterHeader(s, m, n);
    DataIsReadExactly(s[m..], n, data, rest, hasTrailers);
    PartsAfterHeader(s, m, n);
  }

  lemma PartsAfterHeader(s: seq<Byte>, m: nat, n: nat)
    requires m <= |s|
    ensures CrlfAt(s[m..], n) <==> CrlfAt(s, m + n)
    ensures m + n + 2 <= |s| ==> s[m..][n + 2..] == s[m + n + 2..] && s[m..][..n] == s[m..m + n]
  {
  }

  lemma DrainAfterHeader(s: seq<Byte>, m: nat, n: Positive)
    requires ParseBytes(s) == Outcome(ExpectingChunkData, n, m)
    ensures Drain(DecodeStep, Decoder(Metadata, s)) == Drain(DecodeStep, Decoder(Data(n), s[m..]))
  {
    var got := Drain(DecodeStep, Decoder(Data(n), s[m..]));
    assert [] + got.body == got.body;
  }

  /**
    However the bytes of a printed message are cut into pieces, the receiver ends with exactly the chunks' data and
    with the bytes that follow the message untouched; unless a chunk is too large, and only then, the message is
    malformed for it.
   */
  lemma {:induction false} ChunkedMessageArrives(chunks: seq<seq<Byte>>, t: seq<Byte>, pieces: seq<seq<Byte>>)
    requires Flatten(pieces) == PrintedChunks(chunks) + LAST_CHUNK + t
    ensures var r := Receive(DecodeStep, START, pieces);
      if AreReadable(chunks) then r == Decoded(Decoder(Done, t), Flatten(chunks)) else r.decoder.mode == Broken
  {
    DecodeStepIsLawful();
    PiecesDoNotMatter(DecodeStep, START, pieces);
    PrintedMessageIsReadBack(chunks, t);
    assert Arrived(START, Flatten(pieces)) == Decoder(Metadata, Flatten(pieces));
  }

  lemma {:induction false} ReceiveInTwo(step: Decoder -> Decoded, d: Decoder, early: seq<seq<Byte>>,
      late: seq<seq<Byte>>)
    ensures var r := Receive(step, d, early);
      Receive(step, d, early + late) == Prefixed(r.body, Receive(step, r.decoder, late))
    decreases |early|
  {
    if early == [] {
      assert early + late == late;
      var r := Receive(step, d, late);
      assert [] + r.body == r.body;
    } else {
      var first := Drain(step, Arrived(d, early[0]));
      assert (early + late)[1..] == early[1..] + late;
      ReceiveInTwo(step, first.decoder, early[1..], late);
      var r := Receive(step, first.decoder, early[1..]);
      assert first.body + (r.body + Receive(step, r.decoder, late).body)
        == (first.body + r.body) + Receive(step, r.decoder, late).body;
    }
  }

  /** At any time, what has been delivered is the beginning of what was sent. */
  lemma {:induction false} DeliveredIsAPrefix(chunks: seq<seq<Byte>>, t: seq<Byte>, early: seq<seq<Byte>>,
      late: seq<seq<Byte>>)
    requires AreReadable(chunks) && Flatten(early + late) == PrintedChunks(chunks) + LAST_CHUNK + t
    ensures Receive(DecodeStep, START, early).body <= Flatten(chunks)
  {
    ChunkedMessageArrives(chunks, t, early + late);
    ReceiveInTwo(DecodeStep, START, early, late);
  }
}
