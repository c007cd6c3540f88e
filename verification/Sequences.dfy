/**
  Facts about sequences that the lists of the model share.
 */
module Sequences {

  ghost predicate Distinct<T>(s: seq<T>) {
    forall i, j :: 0 <= i < |s| && 0 <= j < |s| && i != j ==> s[i] != s[j]
  }

  ghost function IndexOf<T>(s: seq<T>, x: T): (k: nat)
    requires x in s
    ensures k < |s| && s[k] == x
  {
    var k :| 0 <= k < |s| && s[k] == x; k
  }

  /** The sequence without one occurrence of the element. */
  ghost function Without<T>(s: seq<T>, x: T): seq<T>
    requires x in s
  {
    var k := IndexOf(s, x);
    s[..k] + s[k + 1..]
  }

  /** The sequence without one occurrence of the element, if there is one. */
  ghost function WithoutOne<T>(s: seq<T>, x: T): seq<T> {
    if x in s then Without(s, x) else s
  }

  /** Taking an element out of a sequence that holds it once. */
  method TakeOut<T(==)>(s: seq<T>, x: T) returns (r: seq<T>)
    requires x in s && Distinct(s)
    ensures r == Without(s, x)
  {
    var k := 0;
    while s[k] != x
      invariant k <= IndexOf(s, x)
      decreases |s| - k
    {
      k := k + 1;
    }
    r := s[..k] + s[k + 1..];
  }

  lemma WithoutMembers<T>(s: seq<T>, x: T)
    requires x in s && Distinct(s)
    ensures Distinct(Without(s, x)) && |Without(s, x)| == |s| - 1
    ensures forall y :: y in Without(s, x) <==> y in s && y != x
    ensures forall i {:trigger Without(s, x)[i]} :: 0 <= i < |s| - 1 ==>
      Without(s, x)[i] == s[if i < IndexOf(s, x) then i else i + 1]
  {
    var k := IndexOf(s, x);
    forall y | y in s && y != x
      ensures y in Without(s, x)
    {
      var j := IndexOf(s, y);
      assert Without(s, x)[if j < k then j else j - 1] == y;
    }
  }

  lemma ConcatDistinct<T>(a: seq<T>, b: seq<T>)
    requires Distinct(a) && Distinct(b) && forall x :: x in a ==> x !in b
    ensures Distinct(a + b)
  {
    forall i, j | 0 <= i < |a + b| && 0 <= j < |a + b| && i != j
      ensures (a + b)[i] != (a + b)[j]
    {
      assert i < |a| ==> a[i] in a;
      assert j < |a| ==> a[j] in a;
    }
  }

  lemma DistinctParts<T>(a: seq<T>, b: seq<T>)
    requires Distinct(a + b)
    ensures Distinct(a) && Distinct(b) && forall x :: x in a ==> x !in b
  {
    forall i, j | 0 <= i < |a| && 0 <= j < |b|
      ensures a[i] != b[j]
    {
      assert (a + b)[i] == a[i] && (a + b)[|a| + j] == b[j];
    }
    assert forall i :: 0 <= i < |a| ==> a[i] == (a + b)[i];
    assert forall j :: 0 <= j < |b| ==> b[j] == (a + b)[|a| + j];
  }

  /** Number of elements of all sequences together. */
  ghost function Total<T>(ss: seq<seq<T>>): nat {
    if ss == [] then 0 else |ss[0]| + Total(ss[1..])
  }

  lemma {:induction false} TotalUpdate<T>(ss: seq<seq<T>>, i: nat, s: seq<T>)
    requires i < |ss|
    ensures Total(ss[i := s]) == Total(ss) - |ss[i]| + |s|
    decreases |ss|
  {
    if i > 0 {
      assert ss[i := s][1..] == ss[1..][i - 1 := s];
      TotalUpdate(ss[1..], i - 1, s);
    }
  }

  lemma {:induction false} TotalIsZero<T>(ss: seq<seq<T>>)
    ensures Total(ss) == 0 <==> forall i :: 0 <= i < |ss| ==> ss[i] == []
    decreases |ss|
  {
    if ss != [] {
      TotalIsZero(ss[1..]);
      assert forall i :: 1 <= i < |ss| ==> ss[i] == ss[1..][i - 1];
    }
  }

  /** Elements left out, the others in the same order. */
  ghost predicate IsSubsequence<T>(a: seq<T>, b: seq<T>) {
    a == [] || (b != [] && (if a[0] == b[0] then IsSubsequence(a[1..], b[1..]) else IsSubsequence(a, b[1..])))
  }

  lemma {:induction false} SubsequenceIsReflexive<T>(a: seq<T>)
    ensures IsSubsequence(a, a)
  {
    if a != [] {
      SubsequenceIsReflexive(a[1..]);
    }
  }

  lemma {:induction false} SubsequenceMembers<T>(a: seq<T>, b: seq<T>)
    requires IsSubsequence(a, b)
    ensures forall x :: x in a ==> x in b
    decreases |b|
  {
    if a != [] {
      if a[0] == b[0] {
        SubsequenceMembers(a[1..], b[1..]);
        assert a == [a[0]] + a[1..];
      } else {
        SubsequenceMembers(a, b[1..]);
      }
      assert forall x :: x in b[1..] ==> x in b;
    }
  }

  lemma {:induction false} SubsequenceIsShorter<T>(a: seq<T>, b: seq<T>)
    requires IsSubsequence(a, b)
    ensures |a| <= |b|
    decreases |b|
  {
    if a != [] {
      SubsequenceIsShorter(if a[0] == b[0] then a[1..] else a, b[1..]);
    }
  }

  /** Nothing is delivered twice where nothing is listed twice. */
  lemma {:induction false} SubsequenceIsDistinct<T>(a: seq<T>, b: seq<T>)
    requires IsSubsequence(a, b) && Distinct(b)
    ensures Distinct(a)
    decreases |b|
  {
    if a != [] {
      assert Distinct(b[1..]);
      if a[0] == b[0] {
        SubsequenceIsDistinct(a[1..], b[1..]);
        SubsequenceMembers(a[1..], b[1..]);
        assert b[0] !in b[1..];
        ConcatDistinct([a[0]], a[1..]);
        assert a == [a[0]] + a[1..];
      } else {
        SubsequenceIsDistinct(a, b[1..]);
      }
    }
  }

  /** Leaving out one element leaves a subsequence. */
  lemma {:induction false} SubsequenceWithout<T>(a: seq<T>, b: seq<T>, k: nat)
    requires IsSubsequence(a, b) && k < |a|
    ensures IsSubsequence(a[..k] + a[k + 1..], b)
    decreases |b|
  {
    var r := a[..k] + a[k + 1..];
    if a[0] != b[0] {
      SubsequenceWithout(a, b[1..], k);
      if r != [] && r[0] == b[0] {
        SubsequenceOfTail(r, b[1..]);
      }
    } else if k > 0 {
      SubsequenceWithout(a[1..], b[1..], k - 1);
      assert r[0] == a[0] && r[1..] == a[1..][..k - 1] + a[1..][k..];
    } else {
      assert r == a[1..];
      if r != [] && r[0] == b[0] {
        SubsequenceOfTail(r, b[1..]);
      }
    }
  }

  lemma {:induction false} SubsequenceOfTail<T>(a: seq<T>, b: seq<T>)
    requires IsSubsequence(a, b) && a != []
    ensures IsSubsequence(a[1..], b)
    decreases |b|
  {
    if a[0] != b[0] {
      SubsequenceOfTail(a, b[1..]);
      if |a| > 1 && a[1] == b[0] {
        SubsequenceOfTail(a[1..], b[1..]);
      }
    } else if |a| > 1 && a[1] == b[0] {
      SubsequenceOfTail(a[1..], b[1..]);
    }
  }

  lemma {:induction false} SubsequenceIsTransitive<T>(a: seq<T>, b: seq<T>, c: seq<T>)
    requires IsSubsequence(a, b) && IsSubsequence(b, c)
    ensures IsSubsequence(a, c)
    decreases |c|
  {
    if a != [] {
      if b[0] != c[0] {
        SubsequenceIsTransitive(a, b, c[1..]);
        if a[0] == c[0] {
          SubsequenceOfTail(a, c[1..]);
        }
      } else if a[0] == b[0] {
        SubsequenceIsTransitive(a[1..], b[1..], c[1..]);
      } else {
        SubsequenceIsTransitive(a, b[1..], c[1..]);
      }
    }
  }

  lemma {:induction false} SubsequenceAfterPrefix<T>(prefix: seq<T>, a: seq<T>, b: seq<T>)
    requires IsSubsequence(a, b)
    ensures IsSubsequence(prefix + a, prefix + b)
    decreases |prefix|
  {
    if prefix == [] {
      assert prefix + a == a && prefix + b == b;
    } else {
      SubsequenceAfterPrefix(prefix[1..], a, b);
      assert (prefix + a)[1..] == prefix[1..] + a && (prefix + b)[1..] == prefix[1..] + b;
    }
  }
}
