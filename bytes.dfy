/** Go bytes, and the two byte-slice helpers declared at the top of the
    evaluator (no evaluation step of this model calls them). */
module Bytes {

  /** A Go `byte`. */
  newtype byte = x: int | 0 <= x < 256

  /** The chars of a byte string, one char per byte (Go's `string(b)`). */
  function Chars(bs: seq<byte>): (s: string)
    ensures |s| == |bs|
    ensures forall i :: 0 <= i < |bs| ==> s[i] as int == bs[i] as int
  {
    seq(|bs|, i requires 0 <= i < |bs| => (bs[i] as int) as char)
  }

  /** `zeroExtend`: a slice of at least `max` bytes that starts with `s` and
      is padded with zero bytes. The source hands back `s` itself when it is
      long enough, and otherwise a freshly allocated buffer. */
  method ZeroExtend(s: seq<byte>, max: int) returns (r: seq<byte>)
    ensures max <= |s| ==> r == s
    ensures max > |s| ==> |r| == max && r[..|s|] == s
    ensures max > |s| ==> forall i :: |s| <= i < max ==> r[i] == 0
  {
    if max <= |s| {
      return s;
    }
    var extended := new byte[max](_ => 0);
    for i := 0 to |s|
      invariant extended[..i] == s[..i]
      invariant forall j :: |s| <= j < max ==> extended[j] == 0
    {
      extended[i] := s[i];
    }
    r := extended[..];
    assert r[..|s|] == extended[..|s|];
  }

  /** `maxLen`: the larger of the two lengths. */
  function MaxLen(a: seq<byte>, b: seq<byte>): (r: nat)
    ensures r >= |a| && r >= |b|
    ensures r == |a| || r == |b|
  {
    if |a| < |b| then |b| else |a|
  }
}
