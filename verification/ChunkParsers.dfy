/**
  The vectorised reading of a chunk header over a ring buffer, and its agreement with the byte-at-a-time one.
 */
module ChunkParsers {
  import opened Bytes
  import opened ChunkMetadata
  import opened RingBuffers
  import opened SimdIterators

  // ---------- Vectors of 32 lanes ----------

  type Vector = v: seq<bv8> | |v| == VECTOR_SIZE witness seq(VECTOR_SIZE, i => 0)

  /** A lane that compares true is all ones; lanes compare as signed numbers. */
  function GreaterLane(a: bv8, b: bv8): bv8 {
    if a ^ 0x80 > b ^ 0x80 then 0xFF else 0
  }

  function EqualLane(a: bv8, b: bv8): bv8 {
    if a == b then 0xFF else 0
  }

  function Broadcast(b: bv8): Vector {
    seq(VECTOR_SIZE, i => b)
  }

  function Greater(a: Vector, b: Vector): Vector {
    seq(VECTOR_SIZE, i requires 0 <= i < VECTOR_SIZE => GreaterLane(a[i], b[i]))
  }

  function Equal(a: Vector, b: Vector): Vector {
    seq(VECTOR_SIZE, i requires 0 <= i < VECTOR_SIZE => EqualLane(a[i], b[i]))
  }

  function And(a: Vector, b: Vector): Vector {
    seq(VECTOR_SIZE, i requires 0 <= i < VECTOR_SIZE => a[i] & b[i])
  }

  function Or(a: Vector, b: Vector): Vector {
    seq(VECTOR_SIZE, i requires 0 <= i < VECTOR_SIZE => a[i] | b[i])
  }

  function AndNot(a: Vector, b: Vector): Vector {
    seq(VECTOR_SIZE, i requires 0 <= i < VECTOR_SIZE => !a[i] & b[i])
  }

  /** The highest bit of every lane. */
  function MoveMask(v: Vector): (m: seq<bool>)
    ensures |m| == VECTOR_SIZE
  {
    seq(VECTOR_SIZE, i requires 0 <= i < VECTOR_SIZE => v[i] & 0x80 != 0)
  }

  /** The number of trailing zeros of a mask: the first lane whose bit is set, or their number. */
  function CountTrailingZeros(m: seq<bool>): (n: nat)
    ensures n <= |m| && (forall i :: 0 <= i < n ==> !m[i]) && (n < |m| ==> m[n])
  {
    if m == [] || m[0] then 0 else 1 + CountTrailingZeros(m[1..])
  }

  /** The lanes that are not hexadecimal digits: no decimal digit, and in upper case no letter up to F. */
  function NotHexDigit(data: Vector): Vector {
    var isNotDigit := Or(Greater(Broadcast(0x30), data), Greater(data, Broadcast(0x39)));
    var upper := And(data, Broadcast(0xDF));
    var isNotAlpha := Or(Greater(Broadcast(0x41), upper), Greater(upper, Broadcast(0x46)));
    And(isNotDigit, isNotAlpha)
  }

  /** The lanes that are control characters: DEL, or not negative, below space and no HTAB. */
  function ControlCharacter(data: Vector): Vector {
    var isLow := And(Greater(data, Broadcast(0xFF)), Greater(Broadcast(0x20), data));
    Or(Equal(Broadcast(0x7F), data), AndNot(Equal(Broadcast(0x09), data), isLow))
  }

  lemma HexLane(x: bv8)
    ensures var upper := x & 0xDF;
      ((GreaterLane(0x30, x) | GreaterLane(x, 0x39))
        & (GreaterLane(0x41, upper) | GreaterLane(upper, 0x46))) & 0x80 != 0
      <==> !IsHexDigit(x)
  {
  }

  lemma ControlLane(x: bv8)
    ensures (EqualLane(0x7F, x) | (!EqualLane(0x09, x) & (GreaterLane(x, 0xFF) & GreaterLane(0x20, x)))) & 0x80 != 0
      <==> IsControl(x)
  {
  }

  /** The first lane of the mask is the first byte that is not a hexadecimal digit. */
  lemma FirstNonHexLane(data: Vector)
    ensures CountTrailingZeros(MoveMask(NotHexDigit(data))) == LeadingHexDigits(data)
  {
    forall i | 0 <= i < VECTOR_SIZE ensures MoveMask(NotHexDigit(data))[i] <==> !IsHexDigit(data[i]) {
      HexLane(data[i]);
    }
    LeadingHexDigitsIs(data, CountTrailingZeros(MoveMask(NotHexDigit(data))));
  }

  lemma FirstControlLane(data: Vector)
    ensures CountTrailingZeros(MoveMask(ControlCharacter(data))) == NextControl(data, 0)
  {
    forall i | 0 <= i < VECTOR_SIZE ensures MoveMask(ControlCharacter(data))[i] <==> IsControl(data[i]) {
      ControlLane(data[i]);
    }
    NextControlIs(data, 0, CountTrailingZeros(MoveMask(ControlCharacter(data))));
  }

  // ---------- Windows ----------

  /** Stale bytes can only add digits past the last byte but one. */
  lemma HexDigitsInWindow(w: seq<Byte>, s: seq<Byte>)
    requires IsWindow(w, s, 0) && |s| > 0
    ensures Min(|s| - 1, LeadingHexDigits(w)) == Min(|s| - 1, Min(VECTOR_SIZE, LeadingHexDigits(s)))
  {
    var h := LeadingHexDigits(s);
    if h < VECTOR_SIZE && h < |s| {
      LeadingHexDigitsIs(w, h);
    }
  }

  /** A step over a window skips no control character, and stops early only at one or at the last but one byte. */
  lemma StepOverWindow(w: Vector, s: seq<Byte>, i: nat)
    requires IsWindow(w, s, i) && i + 2 <= |s|
    ensures var n := Min(|s| - 2 - i, CountTrailingZeros(MoveMask(ControlCharacter(w))));
      && (forall k :: i <= k < i + n ==> !IsControl(s[k]))
      && (n < VECTOR_SIZE ==> i + n + 2 == |s| || IsControl(s[i + n]))
  {
    FirstControlLane(w);
    forall k | i <= k < i + Min(|s| - 2 - i, NextControl(w, 0)) ensures !IsControl(s[k]) {
      assert w[k - i] == s[k];
    }
  }

  lemma LineEndIs(s: seq<Byte>, h: nat, p: nat)
    requires h <= p && p + 2 <= |s| && forall k :: h <= k < p ==> !IsControl(s[k])
    requires p + 2 == |s| || IsControl(s[p])
    ensures p == Min(NextControl(s, h), |s| - 2)
  {
  }

  lemma SliceIsCrlf(s: seq<Byte>, p: nat)
    requires p + 2 <= |s|
    ensures s[p..p + 2] == CRLF <==> CrlfAt(s, p)
  {
    assert s[p..p + 2] == [s[p], s[p + 1]];
  }

  lemma ParseBytesFromSize(s: seq<Byte>, h: nat, digits: seq<Byte>)
    requires h == LeadingHexDigits(s) && 0 < h <= MAX_HEX_DIGITS && h + 2 <= |s| && digits == s[0..h]
    ensures forall i :: 0 <= i < |digits| ==> IsHexDigit(digits[i])
    ensures ParseBytes(s) == ParseAfterSize(s, HexNumber(digits), Min(NextControl(s, h), |s| - 2))
  {
    assert digits == s[..h];
  }

  // ---------- The parser ----------

  method UncontrolledIn(data: Vector, ghost s: seq<Byte>, p: nat, size: nat) returns (n: nat)
    requires size == |s| && p + 2 <= size && IsWindow(data, s, p)
    ensures n <= VECTOR_SIZE && p + n + 2 <= |s| && forall k :: p <= k < p + n ==> !IsControl(s[k])
    ensures n < VECTOR_SIZE ==> p + n + 2 == |s| || IsControl(s[p + n])
  {
    StepOverWindow(data, s, p);
    var matches := CountTrailingZeros(MoveMask(ControlCharacter(data)));
    n := Min(size - 2 - p, matches);
  }

  /** The bytes of one window that can be stepped over. */
  method CountUncontrolled(it: SimdIterator, p: nat, ghost s: seq<Byte>) returns (n: nat)
    requires it.ring.Valid() && IsMirrored(it.ring) && s == it.ring.Contents() && p + 2 <= |s|
    ensures n <= VECTOR_SIZE && p + n + 2 <= |s| && forall k :: p <= k < p + n ==> !IsControl(s[k])
    ensures n < VECTOR_SIZE ==> p + n + 2 == |s| || IsControl(s[p + n])
  {
    var data := it.NextAt(p);
    n := UncontrolledIn(data, s, p, it.ring.Size());
  }

  /** From the digits on: 32 bytes a step, to the first control character or the last but one byte. */
  method SkipToLineEnd(it: SimdIterator, h: nat) returns (p: nat)
    requires it.ring.Valid() && IsMirrored(it.ring) && h + 2 <= it.ring.Size()
    ensures p == Min(NextControl(it.ring.Contents(), h), it.ring.Size() - 2)
  {
    ghost var s := it.ring.Contents();
    p := h;
    var matchCount := VECTOR_SIZE;
    while matchCount == VECTOR_SIZE
      invariant h <= p && p + 2 <= |s| && forall k :: h <= k < p ==> !IsControl(s[k])
      invariant matchCount < VECTOR_SIZE ==> p + 2 == |s| || IsControl(s[p])
      invariant matchCount <= VECTOR_SIZE
      decreases |s| - 2 - p, matchCount
    {
      matchCount := CountUncontrolled(it, p, s);
      p := p + matchCount;
    }
    LineEndIs(s, h, p);
  }

  method IsCrlfAt(ring: RingBuffer, hasScratch: bool, p: nat, ghost s: seq<Byte>) returns (found: bool)
    requires ring.Valid() && IsMirrored(ring) && s == ring.Contents() && p + 2 <= |s|
    modifies ring`buffer, ring`data, ring`rightSize, ring`rightSpace, ring`leftSize, ring`currentCapacity
    ensures ring.Valid() && IsMirrored(ring) && ring.Contents() == s
    ensures ring.buffer == old(ring.buffer) || fresh(ring.buffer)
    ensures found <==> CrlfAt(s, p)
  {
    SliceIsCrlf(s, p);
    var line := ring.Slice(p, 2, hasScratch);
    found := line == CRLF;
  }

  /** What the parser decides at the end of the line. */
  method ParseLineEnd(ring: RingBuffer, hasScratch: bool, dataSize: nat, p: nat, ghost s: seq<Byte>)
    returns (status: Status, metadataSize: nat)
    requires ring.Valid() && IsMirrored(ring) && s == ring.Contents() && p + 2 <= |s|
    modifies ring`buffer, ring`data, ring`rightSize, ring`rightSpace, ring`leftSize, ring`currentCapacity
    ensures ring.Valid() && ring.Contents() == s && (ring.buffer == old(ring.buffer) || fresh(ring.buffer))
    ensures ParseAfterSize(s, dataSize, p) == Outcome(status, dataSize, metadataSize)
  {
    var isLine := IsCrlfAt(ring, hasScratch, p, s);
    if isLine {
      if dataSize > 0 {
        status, metadataSize := ExpectingChunkData, p + 2;
      } else {
        status, metadataSize := ParseLastLineEnd(ring, hasScratch, p, s);
      }
    } else if p + 2 == ring.Size() && ring.PeekChar(p) != CR {
      status, metadataSize := NeedsMoreData, p;
    } else {
      status, metadataSize := Failed, 0;
    }
  }

  method ParseLastLineEnd(ring: RingBuffer, hasScratch: bool, p: nat, ghost s: seq<Byte>)
    returns (status: Status, metadataSize: nat)
    requires ring.Valid() && IsMirrored(ring) && s == ring.Contents() && CrlfAt(s, p)
    modifies ring`buffer, ring`data, ring`rightSize, ring`rightSpace, ring`leftSize, ring`currentCapacity
    ensures ring.Valid() && ring.Contents() == s && (ring.buffer == old(ring.buffer) || fresh(ring.buffer))
    ensures ParseAfterSize(s, 0, p) == Outcome(status, 0, metadataSize)
  {
    if p + 4 > ring.Size() {
      return NeedsMoreData, p + 2;
    }
    var isEnd := IsCrlfAt(ring, hasScratch, p + 2, s);
    if isEnd {
      status, metadataSize := ParsedRequest, p + 4;
    } else {
      status, metadataSize := ExpectingTrailer, p + 2;
    }
  }

  /** The vectorised parser says what reading byte by byte says, wherever the content lies in the ring. */
  method Parse(ring: RingBuffer, hasScratch: bool) returns (status: Status, chunkDataSize: nat, chunkMetadataSize: nat)
    requires ring.Valid() && (ring.Size() < 3 || ring.currentCapacity >= VECTOR_SIZE)
    modifies ring`buffer, ring`data, ring`rightSize, ring`rightSpace, ring`leftSize, ring`currentCapacity, ring.buffer
    ensures ring.Valid() && ring.Contents() == old(ring.Contents())
    ensures ring.buffer == old(ring.buffer) || fresh(ring.buffer)
    ensures Outcome(status, chunkDataSize, chunkMetadataSize) == ParseBytes(ring.Contents())
  {
    ghost var s := ring.Contents();
    chunkDataSize, chunkMetadataSize := 0, 0;
    if ring.Size() < 3 {
      return NeedsMoreData, 0, 0;
    }
    var it := new SimdIterator(ring);
    var rawData := it.NextAt(0);
    FirstNonHexLane(rawData);
    HexDigitsInWindow(rawData, s);
    var hexDigitCount := Min(ring.Size() - 1, CountTrailingZeros(MoveMask(NotHexDigit(rawData))));
    if 0 < hexDigitCount <= MAX_HEX_DIGITS && hexDigitCount + 1 < ring.Size() {
      chunkDataSize, chunkMetadataSize, status := ParseFromSize(it, hasScratch, hexDigitCount, s);
    } else if hexDigitCount > MAX_HEX_DIGITS || hexDigitCount == 0 {
      status := Failed;
    } else {
      status := NeedsMoreData;
    }
  }

  method ParseFromSize(it: SimdIterator, hasScratch: bool, h: nat, ghost s: seq<Byte>)
    returns (dataSize: nat, metadataSize: nat, status: Status)
    requires it.ring.Valid() && IsMirrored(it.ring) && s == it.ring.Contents() && h == LeadingHexDigits(s)
    requires 0 < h <= MAX_HEX_DIGITS && h + 2 <= |s|
    modifies it.ring`buffer, it.ring`data, it.ring`rightSize, it.ring`rightSpace, it.ring`leftSize
    modifies it.ring`currentCapacity
    ensures it.ring.Valid() && it.ring.Contents() == s
    ensures it.ring.buffer == old(it.ring.buffer) || fresh(it.ring.buffer)
    ensures Outcome(status, dataSize, metadataSize) == ParseBytes(s)
  {
    dataSize := ReadSize(it.ring, hasScratch, h, s);
    var p := SkipToLineEnd(it, h);
    status, metadataSize := ParseLineEnd(it.ring, hasScratch, dataSize, p, s);
  }

  method ReadSize(ring: RingBuffer, hasScratch: bool, h: nat, ghost s: seq<Byte>) returns (dataSize: nat)
    requires ring.Valid() && IsMirrored(ring) && s == ring.Contents() && h == LeadingHexDigits(s)
    requires 0 < h <= MAX_HEX_DIGITS && h + 2 <= |s|
    modifies ring`buffer, ring`data, ring`rightSize, ring`rightSpace, ring`leftSize, ring`currentCapacity
    ensures ring.Valid() && IsMirrored(ring) && ring.Contents() == s
    ensures ring.buffer == old(ring.buffer) || fresh(ring.buffer)
    ensures ParseBytes(s) == ParseAfterSize(s, dataSize, Min(NextControl(s, h), |s| - 2))
  {
    var digits := ring.Slice(0, h, hasScratch);
    ParseBytesFromSize(s, h, digits);
    dataSize := HexNumber(digits);
  }
}
