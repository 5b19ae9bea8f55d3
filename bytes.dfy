/** Bytes as the C code handles them: `char` buffers, C strings, and the
    span of a byte class that both the strcspn cut and the white-space skip
    of strtoull and strtol measure. */
module Bytes {
  newtype byte = x: int | 0 <= x < 256

  const NUL: byte := 0
  const NEWLINE: byte := 10
  const SLASH: byte := 47

  /** BUFFER_SIZE: the size of every buffer the program reads into. */
  const BUFFER_SIZE: nat := 128

  function Min(a: int, b: int): int
  {
    if a < b then a else b
  }

  /** Length of the longest prefix of `s` all of whose bytes satisfy `p`:
      strcspn for the complement of a set of rejected bytes, and the
      white-space skip of strtoull and strtol for the white-space bytes. */
  function Span(s: seq<byte>, p: byte -> bool): (k: nat)
    ensures k <= |s|
    ensures forall j :: 0 <= j < k ==> p(s[j])
    ensures k < |s| ==> !p(s[k])
  {
    if s == [] || !p(s[0]) then 0 else 1 + Span(s[1..], p)
  }

  /** A span stops exactly at the end of a run that is followed by a byte
      outside the accepted set. */
  lemma {:induction false} SpanOfConcat(a: seq<byte>, b: seq<byte>, p: byte -> bool)
    requires forall j :: 0 <= j < |a| ==> p(a[j])
    requires b == [] || !p(b[0])
    ensures Span(a + b, p) == |a|
  {
    if a == [] {
      assert a + b == b;
    } else {
      assert (a + b)[0] == a[0];
      assert (a + b)[1..] == a[1..] + b;
      SpanOfConcat(a[1..], b, p);
    }
  }
}
