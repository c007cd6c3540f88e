/**
  Bytes, memcpy, and sources and sinks that may be short on any call.
 */
module Bytes {

  type Byte = bv8

  function Min(a: nat, b: nat): nat {
    if a < b then a else b
  }

  function Max(a: nat, b: nat): nat {
    if a < b then b else a
  }

  lemma AppendInTwoSteps<T>(c: seq<T>, s: seq<T>, a: nat, b: nat)
    requires a <= b <= |s|
    ensures (c + s[..a]) + s[a..b] == c + s[..b]
  {
  }

  lemma TakeFromFirst<T>(x: seq<T>, y: seq<T>, k: nat)
    requires k <= |x|
    ensures (x + y)[..k] == x[..k]
  {
  }

  lemma SliceOfSlice<T>(s: seq<T>, lo: nat, hi: nat, pos: nat, end: nat)
    requires lo <= hi <= |s| && pos <= end <= hi - lo
    ensures s[lo..hi][pos..end] == s[lo + pos..lo + end]
  {
    var x, y := s[lo..hi][pos..end], s[lo + pos..lo + end];
    assert forall i :: 0 <= i < end - pos ==> x[i] == s[lo + pos + i] == y[i];
  }

  lemma SliceInTwoSteps<T>(x: seq<T>, pos: nat, mid: nat, end: nat)
    requires pos <= mid <= end <= |x|
    ensures x[pos..mid] + x[mid..end] == x[pos..end]
  {
  }

  lemma MoveInTwoSteps<T>(c: seq<T>, c': seq<T>, c'': seq<T>, s: seq<T>, a: nat, b: nat)
    requires a + b <= |s| && c' == c + s[..a] && c'' == c' + s[a..][..b]
    ensures c'' == c + s[..a + b] && s[a..][b..] == s[a + b..]
  {
    assert s[..a + b] == s[..a] + s[a..][..b];
  }

  /** What memcpy leaves: `src` in place of the bytes from `at` on. */
  function Overwritten(b: seq<Byte>, at: nat, src: seq<Byte>): (r: seq<Byte>)
    requires at + |src| <= |b|
    ensures |r| == |b|
  {
    b[..at] + src + b[at + |src|..]
  }

  method CopyInto(dst: array<Byte>, at: nat, src: seq<Byte>)
    requires at + |src| <= dst.Length
    modifies dst
    ensures dst[..] == Overwritten(old(dst[..]), at, src)
  {
    forall i | 0 <= i < |src| {
      dst[at + i] := src[i];
    }
    ghost var x, y := dst[..], Overwritten(old(dst[..]), at, src);
    assert |x| == |y| && forall i :: 0 <= i < |x| ==> x[i] == y[i];
  }

  /** A new buffer that starts with two blocks, one after the other. */
  method NewBuffer(length: nat, first: seq<Byte>, second: seq<Byte>) returns (buffer: array<Byte>)
    requires |first| + |second| <= length
    ensures fresh(buffer) && buffer.Length == length && buffer[..|first| + |second|] == first + second
  {
    buffer := new Byte[length];
    CopyInto(buffer, 0, first);
    ghost var zeros := buffer[..];
    CopyInto(buffer, |first|, second);
  }

  /** A sink that accepts, on each call, at most what `limits` says, and everything once that is used up. */
  class DataSink {
    var accepted: seq<Byte>
    var limits: seq<nat>

    constructor (limits: seq<nat>)
      ensures accepted == [] && this.limits == limits
    {
      accepted := [];
      this.limits := limits;
    }

    method Write(bytes: seq<Byte>) returns (n: nat)
      modifies this
      ensures n <= |bytes| && accepted == old(accepted) + bytes[..n]
      ensures n == if old(limits) == [] then |bytes| else Min(|bytes|, old(limits)[0])
      ensures limits == if old(limits) == [] then [] else old(limits)[1..]
    {
      n := |bytes|;
      if limits != [] {
        n := Min(n, limits[0]);
        limits := limits[1..];
      }
      accepted := accepted + bytes[..n];
    }
  }

  /** A source that yields, on each call, at most what `limits` says; what it announces may be wrong. */
  class DataSource {
    var pending: seq<Byte>
    var announced: nat
    var limits: seq<nat>

    constructor (pending: seq<Byte>, announced: nat, limits: seq<nat>)
      ensures this.pending == pending && this.announced == announced && this.limits == limits
    {
      this.pending := pending;
      this.announced := announced;
      this.limits := limits;
    }

    method Read(count: nat) returns (bytes: seq<Byte>)
      modifies this
      ensures bytes + pending == old(pending) && |bytes| <= count
      ensures announced == old(announced) && limits == if old(limits) == [] then [] else old(limits)[1..]
      ensures |bytes| == Min(count, Min(|old(pending)|, if old(limits) == [] then count else old(limits)[0]))
    {
      var n := Min(count, |pending|);
      if limits != [] {
        n := Min(n, limits[0]);
        limits := limits[1..];
      }
      bytes := pending[..n];
      pending := pending[n..];
    }
  }
}
