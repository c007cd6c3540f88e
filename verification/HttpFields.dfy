/**
  Header fields: names, and values without the whitespace around them.
 */
module HttpFields {
  import opened Bytes

  datatype Field = Field(name: seq<Byte>, value: seq<Byte>)

  predicate IsWhitespace(b: Byte) {
    b == 0x20 || b == 0x09
  }

  function Lower(b: Byte): Byte {
    if 0x41 <= b <= 0x5A then b + 0x20 else b
  }

  /** Bytes that differ only in the case of a letter, and no others, are taken for the same. */
  lemma SameButForCase(a: Byte, b: Byte)
    ensures Lower(a) == Lower(b) <==>
      a == b || (0x41 <= a <= 0x5A && b == a + 0x20) || (0x41 <= b <= 0x5A && a == b + 0x20)
  {
  }

  /** The same name, of a field or a coding, whatever the case of its letters (section 5.1 of RFC 9110). */
  ghost predicate IsSameName(a: seq<Byte>, b: seq<Byte>) {
    |a| == |b| && forall i :: 0 <= i < |a| ==> Lower(a[i]) == Lower(b[i])
  }

  /** What is left of a value from `a` to `b` when there is only whitespace before and after it. */
  ghost predicate IsCutAt(value: seq<Byte>, r: seq<Byte>, a: nat, b: nat) {
    && a <= b <= |value| && r == value[a..b]
    && (forall i :: 0 <= i < a || b <= i < |value| ==> IsWhitespace(value[i]))
    && (r != [] ==> !IsWhitespace(value[a]) && !IsWhitespace(value[b - 1]))
  }

  /** The value without the whitespace around it (section 5.5 of RFC 9110). */
  ghost predicate IsTrimmed(value: seq<Byte>, r: seq<Byte>) {
    exists a, b :: IsCutAt(value, r, a, b)
  }

  /** The value without the whitespace around it, walking from either side. */
  function Trimmed(value: seq<Byte>): seq<Byte> {
    if value != [] && IsWhitespace(value[0]) then Trimmed(value[1..])
    else if value != [] && IsWhitespace(value[|value| - 1]) then Trimmed(value[..|value| - 1])
    else value
  }

  /** Spaces and tabs go from both ends, and stay inside. */
  lemma BlanksExample()
    ensures IsTrimmed([0x20, 0x09, 0x61, 0x20, 0x62, 0x09, 0x20], [0x61, 0x20, 0x62])
  {
    assert IsCutAt([0x20, 0x09, 0x61, 0x20, 0x62, 0x09, 0x20], [0x61, 0x20, 0x62], 2, 5);
  }

  lemma {:induction false} TrimmedIsUnique(value: seq<Byte>, r: seq<Byte>, r': seq<Byte>)
    requires IsTrimmed(value, r) && IsTrimmed(value, r')
    ensures r == r'
  {
    var a, b :| IsCutAt(value, r, a, b);
    var c, d :| IsCutAt(value, r', c, d);
    if r != [] || r' != [] {
      assert r != [] && r' != [];
      assert a == c && b == d;
    }
  }

  lemma {:induction false} TrimmedIsTrimmed(value: seq<Byte>)
    ensures IsTrimmed(value, Trimmed(value))
  {
    var r := Trimmed(value);
    if value != [] && IsWhitespace(value[0]) {
      TrimmedIsTrimmed(value[1..]);
      var a, b :| IsCutAt(value[1..], r, a, b);
      CutAfterWhitespace(value, r, a, b);
    } else if value != [] && IsWhitespace(value[|value| - 1]) {
      TrimmedIsTrimmed(value[..|value| - 1]);
      var a, b :| IsCutAt(value[..|value| - 1], r, a, b);
      assert IsCutAt(value, r, a, b);
    } else {
      assert IsCutAt(value, r, 0, |value|);
    }
  }

  lemma CutAfterWhitespace(value: seq<Byte>, r: seq<Byte>, a: nat, b: nat)
    requires value != [] && IsWhitespace(value[0]) && IsCutAt(value[1..], r, a, b)
    ensures IsCutAt(value, r, a + 1, b + 1)
  {
    forall i | 0 <= i < a + 1 || b + 1 <= i < |value| ensures IsWhitespace(value[i]) {
      assert i > 0 ==> value[i] == value[1..][i - 1];
    }
  }
}
