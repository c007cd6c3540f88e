/**
  The header of a chunk (section 7.1 of RFC 9112), read one byte at a time, and what its outcomes mean:
  which inputs are headers, that a decided outcome is final, and how soon a malformed header is rejected.
 */
module ChunkMetadata {
  import opened Bytes

  const CR: Byte := 0x0D
  const CRLF: seq<Byte> := [0x0D, 0x0A]
  const MAX_HEX_DIGITS: nat := 12

  datatype Status = ExpectingChunkData | ParsedRequest | ExpectingTrailer | NeedsMoreData | Failed

  datatype Outcome = Outcome(status: Status, dataSize: nat, metadataSize: nat)

  predicate IsHexDigit(b: Byte) {
    0x30 <= b <= 0x39 || 0x41 <= b <= 0x46 || 0x61 <= b <= 0x66
  }

  function HexValue(b: Byte): (v: nat)
    requires IsHexDigit(b)
    ensures v < 16
  {
    if b <= 0x39 then (b - 0x30) as nat else if b <= 0x46 then (b - 0x37) as nat else (b - 0x57) as nat
  }

  /** A control character other than HTAB. */
  predicate IsControl(b: Byte) {
    b == 0x7F || (b < 0x20 && b != 0x09)
  }

  function LeadingHexDigits(s: seq<Byte>): (n: nat)
    ensures n <= |s| && (forall i :: 0 <= i < n ==> IsHexDigit(s[i])) && (n < |s| ==> !IsHexDigit(s[n]))
  {
    if s == [] || !IsHexDigit(s[0]) then 0 else 1 + LeadingHexDigits(s[1..])
  }

  function HexNumber(s: seq<Byte>): (v: nat)
    requires forall i :: 0 <= i < |s| ==> IsHexDigit(s[i])
  {
    if s == [] then 0 else 16 * HexNumber(s[..|s| - 1]) + HexValue(s[|s| - 1])
  }

  /** The first control character from `i` on, or the end. */
  function NextControl(s: seq<Byte>, i: nat): (p: nat)
    requires i <= |s|
    ensures i <= p <= |s| && (forall k :: i <= k < p ==> !IsControl(s[k])) && (p < |s| ==> IsControl(s[p]))
    decreases |s| - i
  {
    if i == |s| || IsControl(s[i]) then i else NextControl(s, i + 1)
  }

  /** The text starts with CR LF at `i`. */
  predicate CrlfAt(s: seq<Byte>, i: nat) {
    i + 2 <= |s| && s[i] == 0x0D && s[i + 1] == 0x0A
  }

  /** The reference reading of a chunk header. */
  function ParseBytes(s: seq<Byte>): (o: Outcome)
    ensures o.metadataSize <= |s| && (o.status == ExpectingChunkData ==> o.dataSize > 0)
    ensures o.status != NeedsMoreData && o.status != Failed ==> o.metadataSize > 0
  {
    var h := LeadingHexDigits(s);
    if |s| < 3 then
      Outcome(NeedsMoreData, 0, 0)
    else if h == 0 || (h > MAX_HEX_DIGITS && |s| > MAX_HEX_DIGITS + 1) then
      Outcome(Failed, 0, 0)
    else if h + 2 > |s| then
      Outcome(NeedsMoreData, 0, 0)
    else
      ParseAfterSize(s, HexNumber(s[..h]), Min(NextControl(s, h), |s| - 2))
  }

  /** The reading from the end of the line on, `p` being its first control character or the last but one byte. */
  function ParseAfterSize(s: seq<Byte>, size: nat, p: nat): Outcome
    requires p + 2 <= |s|
  {
    if CrlfAt(s, p) then
      if size > 0 then
        Outcome(ExpectingChunkData, size, p + 2)
      else if p + 4 > |s| then
        Outcome(NeedsMoreData, 0, p + 2)
      else if CrlfAt(s, p + 2) then
        Outcome(ParsedRequest, 0, p + 4)
      else
        Outcome(ExpectingTrailer, 0, p + 2)
    else if p + 2 == |s| && s[p] != CR then
      Outcome(NeedsMoreData, size, p)
    else
      Outcome(Failed, size, 0)
  }

  // ---------- Scans over a longer input ----------

  lemma {:induction false} LeadingHexDigitsOfExtension(s: seq<Byte>, t: seq<Byte>)
    ensures LeadingHexDigits(s) < |s| ==> LeadingHexDigits(s + t) == LeadingHexDigits(s)
    ensures LeadingHexDigits(s) == |s| ==> LeadingHexDigits(s + t) == |s| + LeadingHexDigits(t)
  {
    if s == [] {
      assert s + t == t;
    } else if IsHexDigit(s[0]) {
      LeadingHexDigitsOfExtension(s[1..], t);
      assert (s + t)[1..] == s[1..] + t;
    }
  }

  lemma LeadingHexDigitsIs(s: seq<Byte>, h: nat)
    requires h <= |s| && (forall i :: 0 <= i < h ==> IsHexDigit(s[i])) && (h < |s| ==> !IsHexDigit(s[h]))
    ensures LeadingHexDigits(s) == h
  {
  }

  lemma NextControlIs(s: seq<Byte>, i: nat, p: nat)
    requires i <= p <= |s| && (forall k :: i <= k < p ==> !IsControl(s[k])) && (p < |s| ==> IsControl(s[p]))
    ensures NextControl(s, i) == p
  {
  }

  // ---------- Which inputs are headers ----------

  /** One to twelve hexadecimal digits, anything but control characters, CR LF; nothing after it. */
  predicate IsHeader(line: seq<Byte>) {
    var h := LeadingHexDigits(line);
    && 1 <= h <= MAX_HEX_DIGITS && h + 2 <= |line|
    && (forall k :: h <= k < |line| - 2 ==> !IsControl(line[k]))
    && CrlfAt(line, |line| - 2)
  }

  function HeaderSize(line: seq<Byte>): nat
    requires IsHeader(line)
  {
    HexNumber(line[..LeadingHexDigits(line)])
  }

  /** A header is found where it ends, whatever comes after it. */
  lemma {:induction false} HeaderIsFound(line: seq<Byte>, t: seq<Byte>)
    requires IsHeader(line)
    ensures ParseBytes(line + t) == ParseAfterSize(line + t, HeaderSize(line), |line| - 2)
    ensures CrlfAt(line + t, |line| - 2)
  {
    var h, s := LeadingHexDigits(line), line + t;
    LeadingHexDigitsOfExtension(line, t);
    NextControlIs(s, h, |line| - 2);
    assert s[..h] == line[..h];
  }

  /** The line an accepting outcome has read. */
  function LineSize(o: Outcome): int {
    if o.status == ParsedRequest then o.metadataSize - 2 else o.metadataSize
  }

  predicate IsAccepted(s: seq<Byte>) {
    var status := ParseBytes(s).status;
    status == ExpectingChunkData || status == ParsedRequest || status == ExpectingTrailer
  }

  /** Whatever is accepted starts with a header. */
  lemma {:induction false} AcceptedLineIsAHeader(s: seq<Byte>)
    requires IsAccepted(s)
    ensures var o := ParseBytes(s);
      0 <= LineSize(o) <= |s| && IsHeader(s[..LineSize(o)]) && HeaderSize(s[..LineSize(o)]) == o.dataSize
  {
    var h := LeadingHexDigits(s);
    var line := s[..LineSize(ParseBytes(s))];
    LeadingHexDigitsIs(line, h);
    assert line[..h] == s[..h];
  }

  lemma {:induction false} HeaderPrefix(s: seq<Byte>, m: nat)
    requires m <= |s| && IsHeader(s[..m])
    ensures m >= 3 && CrlfAt(s, m - 2) && ParseBytes(s) == ParseAfterSize(s, HeaderSize(s[..m]), m - 2)
  {
    HeaderIsFound(s[..m], s[m..]);
    assert s == s[..m] + s[m..];
  }

  /**
    Data is expected exactly after a header with a positive size, a trailer exactly after a header with size zero
    and something else than CR LF, and the message ends exactly after a header with size zero and CR LF.
   */
  lemma {:induction false} AcceptedExactlyAfterAHeader(s: seq<Byte>, n: nat, m: nat)
    ensures ParseBytes(s) == Outcome(ExpectingChunkData, n, m)
       <==> m <= |s| && IsHeader(s[..m]) && HeaderSize(s[..m]) == n > 0
    ensures ParseBytes(s) == Outcome(ExpectingTrailer, 0, m)
       <==> m + 2 <= |s| && IsHeader(s[..m]) && HeaderSize(s[..m]) == 0 && !CrlfAt(s, m)
    ensures ParseBytes(s) == Outcome(ParsedRequest, 0, m + 2)
       <==> m + 2 <= |s| && IsHeader(s[..m]) && HeaderSize(s[..m]) == 0 && CrlfAt(s, m)
  {
    if m <= |s| && IsHeader(s[..m]) {
      HeaderPrefix(s, m);
    } else if IsAccepted(s) {
      AcceptedLineIsAHeader(s);
    }
  }

  // ---------- A decided outcome is final ----------

  /** Only NeedsMoreData can change when more bytes arrive. */
  lemma {:induction false} DecidedOutcomeIsFinal(s: seq<Byte>, t: seq<Byte>)
    requires ParseBytes(s).status != NeedsMoreData
    ensures ParseBytes(s + t) == ParseBytes(s)
  {
    var h, x := LeadingHexDigits(s), s + t;
    LeadingHexDigitsOfExtension(s, t);
    if 0 < h <= MAX_HEX_DIGITS {
      var p := NextControl(s, h);
      assert x[..h] == s[..h];
      NextControlIs(x, h, p);
    }
  }

  // ---------- What can still become a header ----------

  /** No byte so far rules out a header: its digits are few enough, and its first control character starts CR LF. */
  predicate IsLive(s: seq<Byte>) {
    var h := LeadingHexDigits(s);
    var p := NextControl(s, h);
    && (h == 0 ==> s == []) && h <= MAX_HEX_DIGITS
    && (p < |s| ==> s[p] == CR) && (p + 1 < |s| ==> s[p + 1] == 0x0A)
  }

  /** What completes a live input. */
  function Completion(s: seq<Byte>): seq<Byte> {
    var p := NextControl(s, LeadingHexDigits(s));
    if s == [] then [0x30] + CRLF + CRLF
    else if p == |s| then CRLF + CRLF
    else if p + 1 == |s| then [0x0A] + CRLF
    else CRLF
  }

  lemma LineIsAccepted(x: seq<Byte>, p: nat)
    requires 1 <= LeadingHexDigits(x) <= MAX_HEX_DIGITS && p == NextControl(x, LeadingHexDigits(x))
    requires CrlfAt(x, p) && p + 4 <= |x|
    ensures IsAccepted(x)
  {
  }

  lemma {:induction false} LiveInputCanBeCompleted(s: seq<Byte>)
    requires IsLive(s)
    ensures IsAccepted(s + Completion(s))
    decreases s == []
  {
    var x := s + Completion(s);
    if s == [] {
      LiveInputCanBeCompleted([0x30]);
      assert x == [0x30] + Completion([0x30]);
    } else {
      var h := LeadingHexDigits(s);
      var p := NextControl(s, h);
      LeadingHexDigitsOfExtension(s, Completion(s));
      LeadingHexDigitsIs(x, h);
      NextControlIs(x, h, p);
      LineIsAccepted(x, p);
    }
  }

  lemma {:induction false} DeadInputIsNeverAccepted(s: seq<Byte>, t: seq<Byte>)
    requires !IsLive(s)
    ensures !IsAccepted(s + t)
    ensures |t| >= 2 ==> ParseBytes(s + t).status == Failed
  {
    var h, x := LeadingHexDigits(s), s + t;
    LeadingHexDigitsOfExtension(s, t);
    if 0 < h <= MAX_HEX_DIGITS {
      var p := NextControl(s, h);
      NextControlIs(x, h, p);
    }
  }

  /** When an input is rejected: the size is no number or too long, or the line ends in anything but CR LF. */
  lemma {:induction false} FailedExactly(s: seq<Byte>)
    ensures var h := LeadingHexDigits(s);
      var p := NextControl(s, h);
      ParseBytes(s).status == Failed <==>
        || (h == 0 && |s| >= 3)
        || (h > MAX_HEX_DIGITS && |s| > MAX_HEX_DIGITS + 1)
        || (1 <= h <= MAX_HEX_DIGITS && p + 1 < |s| && s[p] == CR && s[p + 1] != 0x0A)
        || (1 <= h <= MAX_HEX_DIGITS && p + 2 < |s| && s[p] != CR)
  {
    var h := LeadingHexDigits(s);
    var p := NextControl(s, h);
    if 1 <= h <= MAX_HEX_DIGITS && h + 2 <= |s| && p + 2 > |s| {
      assert !IsControl(s[|s| - 2]);
    }
  }

  /**
    Which inputs that are ruled out are still answered with NeedsMoreData: those of one or two bytes without a digit,
    thirteen digits and nothing else, and those with a wrong control character as the last byte or the last but one.
   */
  lemma {:induction false} DeadButNotRejected(s: seq<Byte>)
    ensures var h := LeadingHexDigits(s);
      var p := NextControl(s, h);
      !IsLive(s) && ParseBytes(s).status == NeedsMoreData <==>
        || (h == 0 && 1 <= |s| <= 2)
        || h == |s| == MAX_HEX_DIGITS + 1
        || (1 <= h <= MAX_HEX_DIGITS && p < |s| <= p + 2 && s[p] != CR)
  {
    FailedExactly(s);
    if !IsLive(s) {
      DeadInputIsNeverAccepted(s, []);
      assert s + [] == s;
    }
  }

  /** "5;" and a control character can never become a header, and more data is asked for. */
  lemma {:induction false} DeadButNotRejectedExample()
    ensures !IsLive([0x35, 0x3B, 0x01]) && ParseBytes([0x35, 0x3B, 0x01]).status == NeedsMoreData
  {
    var s: seq<Byte> := [0x35, 0x3B, 0x01];
    LeadingHexDigitsIs(s, 1);
    NextControlIs(s, 1, 2);
    DeadButNotRejected(s);
  }

  /** An input can be completed exactly when it is live. */
  lemma {:induction false} CompletableExactlyWhenLive(s: seq<Byte>)
    ensures IsLive(s) <==> exists t :: IsAccepted(s + t)
  {
    if IsLive(s) {
      LiveInputCanBeCompleted(s);
    } else {
      forall t ensures !IsAccepted(s + t) {
        DeadInputIsNeverAccepted(s, t);
      }
    }
  }

  // ---------- Printing ----------

  function HexDigit(d: nat): (b: Byte)
    requires d < 16
    ensures IsHexDigit(b) && HexValue(b) == d
  {
    [0x30, 0x31, 0x32, 0x33, 0x34, 0x35, 0x36, 0x37, 0x38, 0x39, 0x61, 0x62, 0x63, 0x64, 0x65, 0x66][d]
  }

  /** A number in lower-case hexadecimal, without leading zeros. */
  function HexDigits(n: nat): (s: seq<Byte>)
    ensures |s| > 0 && forall i :: 0 <= i < |s| ==> IsHexDigit(s[i])
  {
    if n < 16 then [HexDigit(n)] else HexDigits(n / 16) + [HexDigit(n % 16)]
  }

  function Pow16(k: nat): (p: nat)
    ensures p > 0
  {
    if k == 0 then 1 else 16 * Pow16(k - 1)
  }

  lemma HexNumberOfMore(s: seq<Byte>, b: Byte)
    requires IsHexDigit(b) && forall i :: 0 <= i < |s| ==> IsHexDigit(s[i])
    ensures HexNumber(s + [b]) == 16 * HexNumber(s) + HexValue(b)
  {
    assert (s + [b])[..|s|] == s;
  }

  /** Digits in either case, the first one of the highest value: 1aF0. */
  lemma HexNumberExample()
    ensures HexNumber([] + [0x31] + [0x61] + [0x46] + [0x30]) == 0x1AF0
  {
    HexNumberOfMore([], 0x31);
    HexNumberOfMore([] + [0x31], 0x61);
    HexNumberOfMore([] + [0x31] + [0x61], 0x46);
    HexNumberOfMore([] + [0x31] + [0x61] + [0x46], 0x30);
  }

  lemma {:induction false} HexDigitsReadBack(n: nat)
    ensures HexNumber(HexDigits(n)) == n
  {
    var s := HexDigits(n);
    if n >= 16 {
      HexDigitsReadBack(n / 16);
      assert s[..|s| - 1] == HexDigits(n / 16);
    } else {
      assert s[..0] == [] && HexNumber(s) == 16 * HexNumber(s[..0]) + HexValue(s[0]);
    }
  }

  /** A number has at most `k` digits exactly when it is below the k-th power of sixteen. */
  lemma {:induction false} HexDigitsLength(n: nat, k: nat)
    requires k > 0
    ensures |HexDigits(n)| <= k <==> n < Pow16(k)
    decreases k
  {
    if k == 1 {
      assert Pow16(1) == 16 * Pow16(0);
    } else if n >= 16 {
      HexDigitsLength(n / 16, k - 1);
    } else {
      assert Pow16(k) >= 16;
    }
  }

  /** Twelve digits fit the 64-bit size they are read into. */
  lemma {:induction false} HexNumberIsBelow(s: seq<Byte>)
    requires forall i :: 0 <= i < |s| ==> IsHexDigit(s[i])
    ensures HexNumber(s) < Pow16(|s|)
  {
    if s != [] {
      HexNumberIsBelow(s[..|s| - 1]);
    }
  }

  function Header(n: nat): seq<Byte> {
    HexDigits(n) + CRLF
  }

  const MAX_CHUNK_SIZE: nat := 0x1_0000_0000_0000

  lemma {:induction false} MaxChunkSizeIsTwelveDigits()
    ensures Pow16(MAX_HEX_DIGITS) == MAX_CHUNK_SIZE
  {
    assert Pow16(4) == 0x1_0000 by {
      assert Pow16(2) == 256;
    }
    assert Pow16(8) == 0x1_0000_0000 by {
      assert Pow16(6) == 0x100_0000;
    }
    assert Pow16(10) == 0x100_0000_0000;
  }

  /**
    A printed header is read back exactly, whatever comes after it, when its size is below 2^48; a larger one is
    rejected.
   */
  lemma {:induction false} PrintedHeaderIsReadBack(n: nat, t: seq<Byte>)
    requires n > 0
    ensures n < MAX_CHUNK_SIZE ==> ParseBytes(Header(n) + t) == Outcome(ExpectingChunkData, n, |Header(n)|)
    ensures n >= MAX_CHUNK_SIZE ==> ParseBytes(Header(n) + t) == Outcome(Failed, 0, 0)
  {
    var digits, line := HexDigits(n), Header(n);
    MaxChunkSizeIsTwelveDigits();
    HexDigitsLength(n, MAX_HEX_DIGITS);
    LeadingHexDigitsIs(line, |digits|);
    if n < MAX_CHUNK_SIZE {
      HexDigitsReadBack(n);
      assert line[..|digits|] == digits;
      HeaderIsFound(line, t);
    } else {
      LeadingHexDigitsOfExtension(line, t);
    }
  }
}
