/**
  Header fields found again in the text from the sizes of their names and values alone.
 */
module HttpFieldBlocks {
  import opened Bytes
  import opened HttpFields
  import opened RingBuffers

  const MAX_FIELD_LINES: nat := 128
  const MAX_SIZE: nat := 0x1_0000

  // ---------- The text of the fields ----------

  function PrintedLine(line: Field): seq<Byte> {
    line.name + [0x3A] + line.value + [0x0D, 0x0A]
  }

  function PrintedLines(lines: seq<Field>): seq<Byte> {
    if lines == [] then [] else PrintedLines(lines[..|lines| - 1]) + PrintedLine(lines[|lines| - 1])
  }

  /** The text has these lines, one after the other, from `start` on. */
  ghost predicate HasLines(text: seq<Byte>, start: nat, lines: seq<Field>) {
    start + |PrintedLines(lines)| <= |text| && text[start..start + |PrintedLines(lines)|] == PrintedLines(lines)
  }

  /** The lines with a name, in order. */
  ghost function Matching(lines: seq<Field>, name: seq<Byte>): (m: seq<Field>)
    ensures |m| <= |lines|
  {
    if lines == [] then [] else
      Matching(lines[..|lines| - 1], name)
      + (if name != [] && IsSameName(lines[|lines| - 1].name, name) then [lines[|lines| - 1]] else [])
  }

  lemma {:induction false} PrintedLinesTake(lines: seq<Field>, i: nat)
    requires i <= |lines|
    ensures |PrintedLines(lines[..i])| <= |PrintedLines(lines)|
    ensures PrintedLines(lines)[..|PrintedLines(lines[..i])|] == PrintedLines(lines[..i])
  {
    if i < |lines| {
      var init := lines[..|lines| - 1];
      PrintedLinesTake(init, i);
      assert init[..i] == lines[..i];
    } else {
      assert lines[..i] == lines;
    }
  }

  lemma {:induction false} PrintedLineIsAt(text: seq<Byte>, start: nat, lines: seq<Field>, i: nat)
    requires HasLines(text, start, lines) && i < |lines|
    ensures var p, n := start + |PrintedLines(lines[..i])|, |PrintedLine(lines[i])|;
      p + n <= |text| && text[p..p + n] == PrintedLine(lines[i]) && p + n == start + |PrintedLines(lines[..i + 1])|
  {
    var all, before, line := PrintedLines(lines), PrintedLines(lines[..i]), PrintedLine(lines[i]);
    PrintedLinesTake(lines, i + 1);
    PrintedLinesStep(lines, i);
    PartIsAt(text, start, all, before, line);
  }

  lemma PartIsAt<T>(text: seq<T>, start: nat, all: seq<T>, before: seq<T>, part: seq<T>)
    requires start + |all| <= |text| && text[start..start + |all|] == all
    requires |before| + |part| <= |all| && all[..|before| + |part|] == before + part
    ensures text[start + |before|..start + |before| + |part|] == part
  {
    SliceOfPrefix(all, before, part);
    SliceOfSlice(text, start, start + |all|, |before|, |before| + |part|);
  }

  lemma PrintedLinesStep(lines: seq<Field>, i: nat)
    requires i < |lines|
    ensures PrintedLines(lines[..i + 1]) == PrintedLines(lines[..i]) + PrintedLine(lines[i])
  {
    assert lines[..i + 1][..i] == lines[..i];
  }

  lemma PartsOfLine(text: seq<Byte>, p: nat, line: Field)
    requires p + |PrintedLine(line)| <= |text| && text[p..p + |PrintedLine(line)|] == PrintedLine(line)
    ensures var n, v := |line.name|, |line.value|;
      text[p..p + n] == line.name && text[p + n + 1..p + n + 1 + v] == line.value
  {
    var n, v, printed := |line.name|, |line.value|, PrintedLine(line);
    SliceOfSlice(text, p, p + |printed|, 0, n);
    SliceOfSlice(text, p, p + |printed|, n + 1, n + 1 + v);
    assert printed[0..n] == line.name && printed[n + 1..n + 1 + v] == line.value;
  }

  /** Where a line's name and value are. */
  lemma {:induction false} LineIsAt(text: seq<Byte>, start: nat, lines: seq<Field>, i: nat)
    requires HasLines(text, start, lines) && i < |lines|
    ensures var p, n, v := start + |PrintedLines(lines[..i])|, |lines[i].name|, |lines[i].value|;
      && p + n + v + 3 <= |text|
      && text[p..p + n] == lines[i].name && text[p + n + 1..p + n + 1 + v] == lines[i].value
      && p + n + v + 3 == start + |PrintedLines(lines[..i + 1])|
  {
    PrintedLineIsAt(text, start, lines, i);
    PartsOfLine(text, start + |PrintedLines(lines[..i])|, lines[i]);
  }

  lemma SliceOfPrefix<T>(all: seq<T>, a: seq<T>, b: seq<T>)
    requires |a| + |b| <= |all| && all[..|a| + |b|] == a + b
    ensures all[|a|..|a| + |b|] == b
  {
    assert all[|a|..|a| + |b|] == all[..|a| + |b|][|a|..];
  }

  lemma MatchingStep(lines: seq<Field>, i: nat, name: seq<Byte>)
    requires i < |lines|
    ensures Matching(lines[..i + 1], name) == Matching(lines[..i], name)
      + (if name != [] && IsSameName(lines[i].name, name) then [lines[i]] else [])
  {
    assert lines[..i + 1][..i] == lines[..i];
  }

  lemma {:induction false} MatchingPrefix(lines: seq<Field>, i: nat, name: seq<Byte>)
    requires i <= |lines|
    ensures Matching(lines[..i], name) <= Matching(lines, name)
    decreases |lines| - i
  {
    if i < |lines| {
      MatchingStep(lines, i, name);
      MatchingPrefix(lines, i + 1, name);
    } else {
      assert lines[..i] == lines;
    }
  }

  /** The matching lines are exactly those whose name is the same, in order; an empty name matches none. */
  lemma {:induction false} MatchingIsExact(lines: seq<Field>, name: seq<Byte>) returns (places: seq<nat>)
    ensures |places| == |Matching(lines, name)|
    ensures forall k :: 0 <= k < |places| ==> places[k] < |lines| && Matching(lines, name)[k] == lines[places[k]]
    ensures forall k, l :: 0 <= k < l < |places| ==> places[k] < places[l]
    ensures forall i: nat :: i < |lines| ==> (i in places <==> name != [] && IsSameName(lines[i].name, name))
    decreases |lines|
  {
    places := [];
    if lines != [] {
      var last := |lines| - 1;
      var before := MatchingIsExact(lines[..last], name);
      places := before;
      if name != [] && IsSameName(lines[last].name, name) {
        places := before + [last];
      }
      forall i: nat | i < |lines| ensures i in places <==> name != [] && IsSameName(lines[i].name, name) {
        assert i < last ==> (i in before <==> name != [] && IsSameName(lines[..last][i].name, name));
      }
    }
  }

  /** A line is the one at this position, counted from one, among those with the name. */
  ghost predicate IsMatch(lines: seq<Field>, name: seq<Byte>, pos: int, i: nat)
    requires i < |lines|
  {
    1 <= pos <= |Matching(lines, name)| && Matching(lines, name)[pos - 1] == lines[i]
  }

  lemma MatchIsHere(lines: seq<Field>, i: nat, name: seq<Byte>)
    requires i < |lines| && Matching(lines[..i + 1], name) == Matching(lines[..i], name) + [lines[i]]
    ensures IsMatch(lines, name, |Matching(lines[..i + 1], name)|, i)
  {
    MatchingPrefix(lines, i + 1, name);
  }

  /** How far a search for a position has got: it has found it, or has not reached it among the lines before. */
  ghost predicate IsSearch(lines: seq<Field>, name: seq<Byte>, pos: int, i: nat, currentPos: nat, isFound: bool)
    requires i <= |lines|
  {
    if isFound then i < |lines| && IsMatch(lines, name, pos, i)
    else currentPos == |Matching(lines[..i], name)| && (pos < 1 || currentPos < pos)
  }

  lemma SearchGoesOn(lines: seq<Field>, name: seq<Byte>, pos: int, i: nat, currentPos: nat, isMatch: bool)
    requires i < |lines| && IsSearch(lines, name, pos, i, currentPos, false)
    requires Matching(lines[..i + 1], name) == Matching(lines[..i], name) + (if isMatch then [lines[i]] else [])
    ensures var n := if isMatch then currentPos + 1 else currentPos;
      if isMatch && n == pos then IsSearch(lines, name, pos, i, n, true)
        else IsSearch(lines, name, pos, i + 1, n, false)
  {
    if isMatch {
      MatchIsHere(lines, i, name);
    }
  }

  lemma {:induction false} NothingMatchesEmptyName(lines: seq<Field>)
    ensures Matching(lines, []) == []
  {
    if lines != [] {
      NothingMatchesEmptyName(lines[..|lines| - 1]);
    }
  }

  // ---------- Comparing and trimming ----------

  /** The comparison of a number of characters that stops where both have a zero. */
  function EqualIgnoringCase(a: seq<Byte>, b: seq<Byte>): bool
    requires |a| == |b|
  {
    a == [] || (Lower(a[0]) == Lower(b[0]) && (a[0] == 0 || EqualIgnoringCase(a[1..], b[1..])))
  }

  /** Field names are tokens, and have no zeros. */
  predicate IsFieldName(name: seq<Byte>) {
    name != [] && 0 !in name
  }

  lemma {:induction false} EqualIgnoringCaseIsSameName(a: seq<Byte>, b: seq<Byte>)
    requires |a| == |b| && 0 !in a
    ensures EqualIgnoringCase(a, b) <==> IsSameName(a, b)
  {
    if a != [] {
      EqualIgnoringCaseIsSameName(a[1..], b[1..]);
      if IsSameName(a[1..], b[1..]) && Lower(a[0]) == Lower(b[0]) {
        forall i | 0 <= i < |a| ensures Lower(a[i]) == Lower(b[i]) {
          assert i > 0 ==> a[i] == a[1..][i - 1] && b[i] == b[1..][i - 1];
        }
      }
      if IsSameName(a, b) {
        assert forall i :: 0 <= i < |a| - 1 ==> a[1..][i] == a[i + 1] && b[1..][i] == b[i + 1];
      }
    }
  }

  /** The walks from the end and from the start of a raw value, which is not empty. */
  method Trim(raw: seq<Byte>) returns (r: seq<Byte>)
    requires raw != []
    ensures IsTrimmed(raw, r) && r == Trimmed(raw)
  {
    var begin, end := 0, |raw| - 1;
    while begin < end && IsWhitespace(raw[end])
      invariant begin == 0 <= end < |raw|
      invariant forall i :: end < i < |raw| ==> IsWhitespace(raw[i])
    {
      end := end - 1;
    }
    while begin < end && IsWhitespace(raw[begin])
      invariant 0 <= begin <= end < |raw| && (end > 0 ==> begin == end || !IsWhitespace(raw[end]))
      invariant forall i :: 0 <= i < begin || end < i < |raw| ==> IsWhitespace(raw[i])
    {
      begin := begin + 1;
    }
    if end > begin || !IsWhitespace(raw[begin]) {
      r := raw[begin..end + 1];
      assert IsCutAt(raw, r, begin, end + 1);
    } else {
      r := [];
      assert IsCutAt(raw, r, begin, begin);
    }
    TrimmedIsTrimmed(raw);
    TrimmedIsUnique(raw, r, Trimmed(raw));
  }

  // ---------- The index ----------

  datatype Sizes = Sizes(nameSize: nat, valueSize: nat)

  ghost predicate AreIndexed(entries: seq<Sizes>, lines: seq<Field>) {
    |entries| == |lines| && forall i :: 0 <= i < |lines| ==>
      IsFieldName(lines[i].name) && entries[i] == Sizes(|lines[i].name|, |lines[i].value|)
  }

  /** The sizes of what lies between two positions, in sixteen bits. */
  function SizesOf(nameStart: nat, nameEnd: nat, valueStart: nat, valueEnd: nat): Sizes {
    var valueSize := if valueEnd >= valueStart then 1 + valueEnd - valueStart else 0;
    Sizes((1 + nameEnd - nameStart) % MAX_SIZE, valueSize % MAX_SIZE)
  }

  lemma SizesThatFit(n: nat, v: nat)
    ensures Sizes(n % MAX_SIZE, v % MAX_SIZE) == Sizes(n, v) <==> n < MAX_SIZE && v < MAX_SIZE
  {
  }

  lemma OneMoreIndexed(entries: seq<Sizes>, lines: seq<Field>, sizes: Sizes, line: Field)
    requires AreIndexed(entries, lines) && IsFieldName(line.name)
    ensures AreIndexed(entries + [sizes], lines + [line]) <==> sizes == Sizes(|line.name|, |line.value|)
  {
    assert (entries + [sizes])[|lines|] == sizes && (lines + [line])[|lines|] == line;
  }

  class HttpFieldBlock {
    const ring: RingBuffer
    var start: nat
    var count: nat
    var entries: array<Sizes>
    ghost var lines: seq<Field>

    ghost predicate Valid()
      reads this, entries, ring, ring.buffer
    {
      && ring.Valid() && entries as object != ring.buffer as object
      && entries.Length == MAX_FIELD_LINES && count == |lines| < MAX_FIELD_LINES
      && HasLines(ring.Contents(), start, lines) && AreIndexed(entries[..count], lines)
    }

    constructor (ring: RingBuffer)
      requires ring.Valid()
      ensures Valid() && this.ring == ring && lines == [] && start == 0 && fresh(entries)
    {
      this.ring := ring;
      start, count, lines := 0, 0, [];
      entries := new Sizes[MAX_FIELD_LINES](i => Sizes(0, 0));
    }

    method Reset(newStart: nat)
      requires Valid() && newStart <= ring.Size()
      modifies this`start, this`count, this`lines
      ensures Valid() && lines == [] && start == newStart
    {
      start := newStart;
      count := 0;
      lines := [];
    }

    /**
      The next line is recorded by its sizes, each kept in sixteen bits: the index finds the lines again exactly if
      neither size needs more.
     */
    method AddFieldLine(nameStart: nat, nameEnd: nat, valueStart: nat, valueEnd: nat, ghost line: Field)
      requires Valid() && count < MAX_FIELD_LINES - 1 && IsFieldName(line.name)
      requires HasLines(ring.Contents(), start, lines + [line])
      requires nameStart == start + |PrintedLines(lines)| && nameEnd == nameStart + |line.name| - 1
      requires valueStart == nameEnd + 2 && valueEnd == valueStart + |line.value| - 1
      modifies this`count, this`lines, entries
      ensures lines == old(lines) + [line] && count == old(count) + 1
      ensures entries[..count] == old(entries[..count]) + [Sizes(|line.name| % MAX_SIZE, |line.value| % MAX_SIZE)]
      ensures Valid() <==> |line.name| < MAX_SIZE && |line.value| < MAX_SIZE
    {
      var sizes := SizesOf(nameStart, nameEnd, valueStart, valueEnd);
      SizesThatFit(|line.name|, |line.value|);
      assert sizes == Sizes(|line.name| % MAX_SIZE, |line.value| % MAX_SIZE);
      AddSizes(sizes, line);
    }

    method AddSizes(sizes: Sizes, ghost line: Field)
      requires Valid() && count < MAX_FIELD_LINES - 1 && IsFieldName(line.name)
      requires HasLines(ring.Contents(), start, lines + [line])
      modifies this`count, this`lines, entries
      ensures lines == old(lines) + [line] && count == old(count) + 1
      ensures entries[..count] == old(entries[..count]) + [sizes]
      ensures Valid() <==> sizes == Sizes(|line.name|, |line.value|)
    {
      SetNextEntry(sizes);
      OneMoreIndexed(entries[..count], lines, sizes, line);
      assert entries[..count + 1] == entries[..count] + [entries[count]];
      count := count + 1;
      lines := lines + [line];
    }

    method SetNextEntry(sizes: Sizes)
      requires Valid()
      modifies entries
      ensures Valid() && entries[count] == sizes && entries[..count] == old(entries[..count])
      ensures ring.Contents() == old(ring.Contents())
    {
      ghost var before := entries[..count];
      entries[count] := sizes;
      assert entries[..count] == before;
    }

    /** The lookups' step: whether the line whose name starts here has the name, and where the next line starts. */
    method Look(i: nat, nameStart: nat, fieldName: seq<Byte>, hasScratch: bool) returns (found: bool, next: nat)
      requires Valid() && i < count && nameStart == start + |PrintedLines(lines[..i])| && fieldName != []
      modifies ring`buffer, ring`data, ring`rightSize, ring`rightSpace, ring`leftSize, ring`currentCapacity
      ensures Valid() && ring.Contents() == old(ring.Contents()) && next == start + |PrintedLines(lines[..i + 1])|
      ensures Matching(lines[..i + 1], fieldName)
        == Matching(lines[..i], fieldName) + (if found then [lines[i]] else [])
    {
      LineIsAt(ring.Contents(), start, lines, i);
      MatchingStep(lines, i, fieldName);
      next := nameStart + entries[i].nameSize + entries[i].valueSize + 3;
      found := IsNameAt(i, nameStart, fieldName, hasScratch);
    }

    method IsNameAt(i: nat, nameStart: nat, fieldName: seq<Byte>, hasScratch: bool) returns (found: bool)
      requires Valid() && i < count && nameStart == start + |PrintedLines(lines[..i])|
      modifies ring`buffer, ring`data, ring`rightSize, ring`rightSpace, ring`leftSize, ring`currentCapacity
      ensures Valid() && ring.Contents() == old(ring.Contents())
      ensures found <==> IsSameName(lines[i].name, fieldName)
    {
      LineIsIndexed(i);
      if |fieldName| != entries[i].nameSize {
        return false;
      }
      var name := NameAt(i, nameStart, hasScratch);
      EqualIgnoringCaseIsSameName(name, fieldName);
      found := EqualIgnoringCase(name, fieldName);
    }

    lemma LineIsIndexed(i: nat)
      requires Valid() && i < count
      ensures entries[i] == Sizes(|lines[i].name|, |lines[i].value|) && IsFieldName(lines[i].name)
    {
      assert entries[..count][i] == entries[i];
    }

    method NameAt(i: nat, nameStart: nat, hasScratch: bool) returns (name: seq<Byte>)
      requires Valid() && i < count && nameStart == start + |PrintedLines(lines[..i])|
      modifies ring`buffer, ring`data, ring`rightSize, ring`rightSpace, ring`leftSize, ring`currentCapacity
      ensures Valid() && ring.Contents() == old(ring.Contents()) && name == lines[i].name
    {
      LineIsIndexed(i);
      LineIsAt(ring.Contents(), start, lines, i);
      name := ring.Slice(nameStart, entries[i].nameSize, hasScratch);
    }

    method HasField(fieldName: seq<Byte>, hasScratch: bool) returns (found: bool)
      requires Valid()
      modifies ring`buffer, ring`data, ring`rightSize, ring`rightSpace, ring`leftSize, ring`currentCapacity
      ensures Valid() && ring.Contents() == old(ring.Contents())
      ensures found <==> Matching(lines, fieldName) != []
    {
      NothingMatchesEmptyName(lines);
      found := false;
      if fieldName != [] {
        var nameStart, i: nat := start, 0;
        while i < count && !found
          invariant Valid() && ring.Contents() == old(ring.Contents()) && i <= count
          invariant nameStart == start + |PrintedLines(lines[..i])| &&
            (found <==> Matching(lines[..i], fieldName) != [])
        {
          found, nameStart := Look(i, nameStart, fieldName, hasScratch);
          i := i + 1;
        }
        MatchingPrefix(lines, i, fieldName);
        assert i == count ==> lines[..i] == lines;
      }
    }

    method FieldCount(fieldName: seq<Byte>, hasScratch: bool) returns (matchCount: nat)
      requires Valid()
      modifies ring`buffer, ring`data, ring`rightSize, ring`rightSpace, ring`leftSize, ring`currentCapacity
      ensures Valid() && ring.Contents() == old(ring.Contents())
      ensures matchCount == |Matching(lines, fieldName)|
    {
      NothingMatchesEmptyName(lines);
      matchCount := 0;
      if fieldName != [] {
        var nameStart := start;
        for i := 0 to count
          invariant Valid() && ring.Contents() == old(ring.Contents())
          invariant nameStart == start + |PrintedLines(lines[..i])| && matchCount == |Matching(lines[..i], fieldName)|
        {
          matchCount, nameStart := CountLine(i, nameStart, matchCount, fieldName, hasScratch);
        }
        assert lines[..count] == lines;
      }
    }

    method CountLine(i: nat, nameStart: nat, matchCount: nat, fieldName: seq<Byte>, hasScratch: bool)
      returns (n: nat, next: nat)
      requires Valid() && i < count && nameStart == start + |PrintedLines(lines[..i])| && fieldName != []
      requires matchCount == |Matching(lines[..i], fieldName)|
      modifies ring`buffer, ring`data, ring`rightSize, ring`rightSpace, ring`leftSize, ring`currentCapacity
      ensures Valid() && ring.Contents() == old(ring.Contents()) && next == start + |PrintedLines(lines[..i + 1])|
      ensures n == |Matching(lines[..i + 1], fieldName)|
    {
      var found;
      found, next := Look(i, nameStart, fieldName, hasScratch);
      n := if found then matchCount + 1 else matchCount;
    }

    /** The trimmed value of the line, or nothing if it has none. */
    method ValueAt(i: nat, nameStart: nat, hasScratch: bool) returns (value: seq<Byte>)
      requires Valid() && i < count && nameStart == start + |PrintedLines(lines[..i])|
      modifies ring`buffer, ring`data, ring`rightSize, ring`rightSpace, ring`leftSize, ring`currentCapacity
      ensures Valid() && ring.Contents() == old(ring.Contents()) && IsTrimmed(lines[i].value, value)
    {
      if entries[i].valueSize > 0 {
        var raw := RawValueAt(i, nameStart, hasScratch);
        value := Trim(raw);
      } else {
        value := [];
        assert IsCutAt(lines[i].value, value, 0, 0);
      }
    }

    method RawValueAt(i: nat, nameStart: nat, hasScratch: bool) returns (raw: seq<Byte>)
      requires Valid() && i < count && nameStart == start + |PrintedLines(lines[..i])| && entries[i].valueSize > 0
      modifies ring`buffer, ring`data, ring`rightSize, ring`rightSpace, ring`leftSize, ring`currentCapacity
      ensures Valid() && ring.Contents() == old(ring.Contents()) && raw == lines[i].value
    {
      LineIsAt(ring.Contents(), start, lines, i);
      raw := ring.Slice(nameStart + entries[i].nameSize + 1, entries[i].valueSize, hasScratch);
    }

    method FieldValue(fieldName: seq<Byte>, pos: int, hasScratch: bool) returns (value: seq<Byte>)
      requires Valid()
      modifies ring`buffer, ring`data, ring`rightSize, ring`rightSpace, ring`leftSize, ring`currentCapacity
      ensures Valid() && ring.Contents() == old(ring.Contents())
      ensures if 1 <= pos <= |Matching(lines, fieldName)|
        then IsTrimmed(Matching(lines, fieldName)[pos - 1].value, value) else value == []
    {
      NothingMatchesEmptyName(lines);
      value := [];
      if fieldName != [] {
        var i, nameStart := FindMatch(fieldName, pos, hasScratch);
        if i < count {
          value := ValueAt(i, nameStart, hasScratch);
        }
      }
    }

    /** The line of the pos-th match and where it starts; the number of lines if there is none. */
    method FindMatch(fieldName: seq<Byte>, pos: int, hasScratch: bool) returns (i: nat, nameStart: nat)
      requires Valid() && fieldName != []
      modifies ring`buffer, ring`data, ring`rightSize, ring`rightSpace, ring`leftSize, ring`currentCapacity
      ensures Valid() && ring.Contents() == old(ring.Contents()) && i <= count
      ensures if i < count then IsMatch(lines, fieldName, pos, i) else pos < 1 || pos > |Matching(lines, fieldName)|
      ensures nameStart == start + |PrintedLines(lines[..i])|
    {
      ghost var all := lines;
      assert all[..|all|] == all;
      i, nameStart := 0, start;
      var currentPos: nat, isFound := 0, false;
      while i < count && !isFound
        invariant Valid() && ring.Contents() == old(ring.Contents()) && lines == all
        invariant i <= |all| && nameStart == start + |PrintedLines(all[..i])|
        invariant IsSearch(all, fieldName, pos, i, currentPos, isFound)
        decreases !isFound, count - i
      {
        i, nameStart, currentPos, isFound := SearchLine(i, nameStart, fieldName, pos, currentPos, hasScratch);
      }
    }

    /** One line of the search, which stays at the line that it has found. */
    method SearchLine(i: nat, nameStart: nat, fieldName: seq<Byte>, pos: int, currentPos: nat, hasScratch: bool)
      returns (next: nat, nextStart: nat, newPos: nat, isFound: bool)
      requires Valid() && i < count && nameStart == start + |PrintedLines(lines[..i])| && fieldName != []
      requires IsSearch(lines, fieldName, pos, i, currentPos, false)
      modifies ring`buffer, ring`data, ring`rightSize, ring`rightSpace, ring`leftSize, ring`currentCapacity
      ensures Valid() && ring.Contents() == old(ring.Contents()) && next == if isFound then i else i + 1
      ensures nextStart == start + |PrintedLines(lines[..next])|
      ensures IsSearch(lines, fieldName, pos, next, newPos, isFound)
    {
      var isMatch;
      isMatch, nextStart := Look(i, nameStart, fieldName, hasScratch);
      SearchGoesOn(lines, fieldName, pos, i, currentPos, isMatch);
      newPos := if isMatch then currentPos + 1 else currentPos;
      isFound := isMatch && newPos == pos;
      next, nextStart := if isFound then i else i + 1, if isFound then nameStart else nextStart;
    }
  }
}
