/** Base-10 conversion as strtoull(buffer, &end, 10) and strtol(buffer, &end, 10)
    perform it: leading white space, an optional sign, then a maximal run of
    digits. The end pointer is modelled as the number of bytes consumed, so
    `end == buffer` is `consumed == 0`. */
module Decimal {
  import opened Wrappers
  import opened Bytes

  const U64_MODULUS: int := 0x1_0000_0000_0000_0000
  const ULLONG_MAX: int := U64_MODULUS - 1
  const LONG_MAX: int := 0x7FFF_FFFF_FFFF_FFFF
  const LONG_MIN: int := -0x8000_0000_0000_0000

  /** size_t, unsigned long long */
  type u64 = x: int | 0 <= x < U64_MODULUS
  /** long */
  type i64 = x: int | LONG_MIN <= x <= LONG_MAX

  const PLUS: byte := 43
  const MINUS: byte := 45
  const ZERO: byte := 48

  /** isspace in the C locale: ' ', '\t', '\n', '\v', '\f', '\r'. */
  predicate IsSpace(b: byte)
  {
    b == 32 || 9 <= b <= 13
  }

  predicate IsDigit(b: byte)
  {
    ZERO <= b <= ZERO + 9
  }

  predicate IsSign(b: byte)
  {
    b == PLUS || b == MINUS
  }

  predicate AllDigits(ds: seq<byte>)
  {
    forall i :: 0 <= i < |ds| ==> IsDigit(ds[i])
  }

  function DigitValue(b: byte): (d: nat)
    requires IsDigit(b)
    ensures d < 10
  {
    (b - ZERO) as nat
  }

  function DigitByte(d: nat): (b: byte)
    requires d < 10
    ensures IsDigit(b) && DigitValue(b) == d
  {
    ZERO + d as byte
  }

  /** The number a run of decimal digits denotes. */
  function DecimalValue(ds: seq<byte>): nat
    requires AllDigits(ds)
  {
    if ds == [] then 0 else 10 * DecimalValue(ds[..|ds| - 1]) + DigitValue(ds[|ds| - 1])
  }

  /** The decimal text of `n`, as the kernel writes a counter with "%llu". */
  function ToDecimal(n: nat): (ds: seq<byte>)
    ensures 0 < |ds| && AllDigits(ds)
    ensures DecimalValue(ds) == n
  {
    if n < 10 then [DigitByte(n)]
    else
      var ds := ToDecimal(n / 10) + [DigitByte(n % 10)];
      assert ds[..|ds| - 1] == ToDecimal(n / 10);
      ds
  }

  /** The decimal text of a signed value, as "%ld" writes it. */
  function FormatSigned(v: int): seq<byte>
  {
    if v < 0 then [MINUS] + ToDecimal(-v) else ToDecimal(v)
  }

  function Pow10(k: nat): nat
  {
    if k == 0 then 1 else 10 * Pow10(k - 1)
  }

  /** A number below 10^k takes at most k digits. */
  lemma {:induction false} ToDecimalLength(n: nat, k: nat)
    requires 0 < k && n < Pow10(k)
    ensures |ToDecimal(n)| <= k
  {
    if n >= 10 {
      assert k != 1;
      ToDecimalLength(n / 10, k - 1);
    }
  }

  /** A 64-bit value takes at most 20 digits, so a counter line always fits
      the 127 bytes the samplers read. */
  lemma ToDecimalOfU64(n: nat)
    requires n <= ULLONG_MAX
    ensures |ToDecimal(n)| <= 20
  {
    assert Pow10(5) == 100_000;
    assert Pow10(10) == 10_000_000_000;
    assert Pow10(15) == 1_000_000_000_000_000;
    assert Pow10(20) == 100_000_000_000_000_000_000;
    ToDecimalLength(n, 20);
  }

  /** The condition under which strto* converts anything: after the white
      space, a digit, or a sign followed by a digit. */
  predicate StartsWithNumber(s: seq<byte>)
  {
    var t := s[Span(s, IsSpace)..];
    (|t| > 0 && IsDigit(t[0])) || (|t| > 1 && IsSign(t[0]) && IsDigit(t[1]))
  }

  /** The subject sequence strto* recognises: its sign, its digits, and how
      many bytes it spans from the start of the buffer. */
  datatype Scan = Scan(negative: bool, digits: seq<byte>, consumed: nat)

  function ScanDecimal(s: seq<byte>): (r: Option<Scan>)
    ensures r.Some? ==> 0 < r.value.consumed <= |s| && AllDigits(r.value.digits)
  {
    ScanFrom(s, Span(s, IsSpace))
  }

  /** The subject sequence that starts after the first ws bytes: an optional
      sign, then a run of digits. */
  function ScanFrom(s: seq<byte>, ws: nat): (r: Option<Scan>)
    requires ws <= |s|
    ensures r.Some? ==> ws < r.value.consumed <= |s| && AllDigits(r.value.digits)
  {
    var signLen := if ws < |s| && IsSign(s[ws]) then 1 else 0;
    var start := ws + signLen;
    var digits := Span(s[start..], IsDigit);
    if digits == 0 then None
    else Some(Scan(signLen == 1 && s[ws] == MINUS, s[start..start + digits], start + digits))
  }

  /** A number is recognised exactly when the text starts with one, and the
      scan ends on the last digit of a maximal run of digits. */
  lemma ScanDecimalShape(s: seq<byte>)
    ensures ScanDecimal(s).None? <==> !StartsWithNumber(s)
    ensures ScanDecimal(s).Some? ==>
      var n := ScanDecimal(s).value.consumed;
      IsDigit(s[n - 1]) && (n == |s| || !IsDigit(s[n]))
  {
  }

  /** The result of a conversion: the value returned and the bytes consumed
      (the distance from buffer to end). */
  datatype Conversion = Conversion(value: int, consumed: nat)

  /** strtoull: a magnitude above ULLONG_MAX saturates to ULLONG_MAX; a
      minus sign negates the value modulo 2^64. */
  function Strtoull(s: seq<byte>): (r: Conversion)
    ensures 0 <= r.value <= ULLONG_MAX
    ensures r.consumed <= |s|
    ensures r.consumed == 0 ==> r.value == 0
  {
    match ScanDecimal(s)
    case None => Conversion(0, 0)
    case Some(sc) =>
      var m: int := DecimalValue(sc.digits);
      var v: int :=
        if m > ULLONG_MAX then ULLONG_MAX
        else if sc.negative then (U64_MODULUS - m) % U64_MODULUS
        else m;
      Conversion(v, sc.consumed)
  }

  /** strtol: the value saturates to LONG_MIN or LONG_MAX when it does not
      fit a long. */
  function Strtol(s: seq<byte>): (r: Conversion)
    ensures LONG_MIN <= r.value <= LONG_MAX
    ensures r.consumed <= |s|
    ensures r.consumed == 0 ==> r.value == 0
  {
    match ScanDecimal(s)
    case None => Conversion(0, 0)
    case Some(sc) =>
      var m: int := DecimalValue(sc.digits);
      var v: int :=
        if sc.negative then (if m > -LONG_MIN then LONG_MIN else -m)
        else (if m > LONG_MAX then LONG_MAX else m);
      Conversion(v, sc.consumed)
  }

  /** end == buffer: strtoull and strtol consume nothing exactly when the
      text does not start with a number, and otherwise stop right after the
      last digit. */
  lemma ConversionEnd(s: seq<byte>)
    ensures Strtoull(s).consumed == Strtol(s).consumed
    ensures Strtoull(s).consumed == 0 <==> !StartsWithNumber(s)
    ensures Strtoull(s).consumed > 0 ==>
      var n := Strtoull(s).consumed;
      IsDigit(s[n - 1]) && (n == |s| || !IsDigit(s[n]))
  {
    ScanDecimalShape(s);
  }

  /** A run of digits followed by a byte that is not a digit scans as
      exactly that run. */
  lemma ScanOfDigits(ds: seq<byte>, tail: seq<byte>)
    requires 0 < |ds| && AllDigits(ds)
    requires tail == [] || !IsDigit(tail[0])
    ensures ScanDecimal(ds + tail) == Some(Scan(false, ds, |ds|))
  {
    assert [] + [] + ds + tail == ds + tail;
    ScanOfText([], [], ds, tail);
  }

  /** Round trip: strtoull reads back the decimal text of any 64-bit value,
      consuming exactly its digits. */
  lemma StrtoullOfDecimal(n: nat, tail: seq<byte>)
    requires n <= ULLONG_MAX
    requires tail == [] || !IsDigit(tail[0])
    ensures Strtoull(ToDecimal(n) + tail) == Conversion(n, |ToDecimal(n)|)
  {
    ScanOfDigits(ToDecimal(n), tail);
  }

  /** A minus sign followed by a run of digits and a byte that is not a
      digit scans as the negated run. */
  lemma ScanOfNegative(ds: seq<byte>, tail: seq<byte>)
    requires 0 < |ds| && AllDigits(ds)
    requires tail == [] || !IsDigit(tail[0])
    ensures ScanDecimal([MINUS] + ds + tail) == Some(Scan(true, ds, 1 + |ds|))
  {
    assert [] + [MINUS] + ds + tail == [MINUS] + ds + tail;
    ScanOfText([], [MINUS], ds, tail);
  }

  /** The general subject sequence: white space, an optional sign, a run of
      digits and a byte that is not a digit scan as the signed run, consuming
      everything up to the last digit. */
  lemma ScanOfText(ws: seq<byte>, sign: seq<byte>, ds: seq<byte>, tail: seq<byte>)
    requires forall j :: 0 <= j < |ws| ==> IsSpace(ws[j])
    requires sign == [] || sign == [PLUS] || sign == [MINUS]
    requires 0 < |ds| && AllDigits(ds)
    requires tail == [] || !IsDigit(tail[0])
    ensures ScanDecimal(ws + sign + ds + tail) ==
      Some(Scan(sign == [MINUS], ds, |ws| + |sign| + |ds|))
  {
    var s := ws + sign + ds + tail;
    var r := Some(Scan(sign == [MINUS], ds, |ws| + |sign| + |ds|));
    assert Span(s, IsSpace) == |ws| by {
      var rest := sign + ds + tail;
      assert s == ws + rest;
      assert rest[0] == if sign == [] then ds[0] else sign[0];
      SpanOfConcat(ws, rest, IsSpace);
    }
    assert ScanFrom(s, |ws|) == r by {
      ScanFromParts(s, ws, sign, ds, tail);
    }
  }

  /** After any prefix, an optional sign and a run of digits followed by a
      byte that is not a digit scan as the signed run. */
  lemma ScanFromParts(s: seq<byte>, pre: seq<byte>, sign: seq<byte>, ds: seq<byte>, tail: seq<byte>)
    requires sign == [] || sign == [PLUS] || sign == [MINUS]
    requires 0 < |ds| && AllDigits(ds)
    requires tail == [] || !IsDigit(tail[0])
    requires s == pre + sign + ds + tail
    ensures ScanFrom(s, |pre|) == Some(Scan(sign == [MINUS], ds, |pre| + |sign| + |ds|))
  {
    var w := |pre|;
    var n := |sign|;
    var k := |ds|;
    assert w + n + k <= |s| && n <= 1 && (n == 1 <==> IsSign(s[w])) && (n == 1 && s[w] == MINUS <==> sign == [MINUS]) by {
      Regroup(pre, sign, ds, tail);
    }
    assert Span(s[w + n..], IsDigit) == k && s[w + n..w + n + k] == ds by {
      Regroup(pre, sign, ds, tail);
      DigitRun(ds, tail);
    }
    ScanAfterSpace(s, w, n, ds, sign == [MINUS]);
  }

  /** Where the parts of a concatenation sit in it. */
  lemma Regroup(pre: seq<byte>, sign: seq<byte>, ds: seq<byte>, tail: seq<byte>)
    ensures |pre + sign + ds + tail| == |pre| + |sign| + |ds| + |tail|
    ensures (pre + sign + ds + tail)[|pre| + |sign|..] == ds + tail
    ensures (pre + sign + ds + tail)[|pre| + |sign|..|pre| + |sign| + |ds|] == ds
    ensures sign != [] ==> (pre + sign + ds + tail)[|pre|] == sign[0]
    ensures sign == [] && ds != [] ==> (pre + sign + ds + tail)[|pre|] == ds[0]
  {
  }

  /** The scan over text whose white space spans w bytes, followed by a sign
      of signLen bytes and the run of digits ds. */
  lemma ScanAfterSpace(s: seq<byte>, w: nat, signLen: nat, ds: seq<byte>, negative: bool)
    requires w + signLen + |ds| <= |s| && 0 < |ds| && signLen <= 1
    requires signLen == 1 <==> IsSign(s[w])
    requires negative <==> signLen == 1 && s[w] == MINUS
    requires Span(s[w + signLen..], IsDigit) == |ds|
    requires s[w + signLen..w + signLen + |ds|] == ds
    ensures ScanFrom(s, w) == Some(Scan(negative, ds, w + signLen + |ds|))
  {
  }

  /** strtoull over any subject sequence: the magnitude saturates at
      ULLONG_MAX, a minus sign negates it modulo 2^64, and the conversion
      ends after the last digit. */
  lemma StrtoullOfText(ws: seq<byte>, sign: seq<byte>, ds: seq<byte>, tail: seq<byte>)
    requires forall j :: 0 <= j < |ws| ==> IsSpace(ws[j])
    requires sign == [] || sign == [PLUS] || sign == [MINUS]
    requires 0 < |ds| && AllDigits(ds)
    requires tail == [] || !IsDigit(tail[0])
    ensures Strtoull(ws + sign + ds + tail).consumed == |ws| + |sign| + |ds|
    ensures DecimalValue(ds) > ULLONG_MAX ==> Strtoull(ws + sign + ds + tail).value == ULLONG_MAX
    ensures DecimalValue(ds) <= ULLONG_MAX && sign != [MINUS] ==>
      Strtoull(ws + sign + ds + tail).value == DecimalValue(ds)
    ensures 0 < DecimalValue(ds) <= ULLONG_MAX && sign == [MINUS] ==>
      Strtoull(ws + sign + ds + tail).value == U64_MODULUS - DecimalValue(ds)
    ensures DecimalValue(ds) == 0 ==> Strtoull(ws + sign + ds + tail).value == 0
  {
    ScanOfText(ws, sign, ds, tail);
    var m := DecimalValue(ds);
    if m <= ULLONG_MAX {
      Negate(m);
    }
  }

  /** " +42\n" converts to 42, consuming the blank, the sign and both digits. */
  lemma PaddedExample()
    ensures Strtoull([32, PLUS, 52, 50, NEWLINE]) == Conversion(42, 4)
    ensures Strtol([32, PLUS, 52, 50, NEWLINE]) == Conversion(42, 4)
  {
    var ds: seq<byte> := [52, 50];
    assert DecimalValue(ds) == 42 by {
      var d: seq<byte> := [52];
      assert ds[..1] == d;
      assert DecimalValue(d) == 4 by {
        assert d[..0] == [];
      }
    }
    assert [32, PLUS, 52, 50, NEWLINE] == [32] + [PLUS] + ds + [NEWLINE];
    StrtoullOfText([32], [PLUS], ds, [NEWLINE]);
    StrtolOfText([32], [PLUS], ds, [NEWLINE]);
  }

  /** Negation modulo 2^64 of a 64-bit magnitude. */
  lemma Negate(m: nat)
    requires m <= ULLONG_MAX
    ensures (U64_MODULUS - m) % U64_MODULUS == if m == 0 then 0 else U64_MODULUS - m
  {
  }

  /** strtol over any subject sequence: the signed run of digits, saturated
      at LONG_MIN and LONG_MAX, ending after the last digit. */
  lemma StrtolOfText(ws: seq<byte>, sign: seq<byte>, ds: seq<byte>, tail: seq<byte>)
    requires forall j :: 0 <= j < |ws| ==> IsSpace(ws[j])
    requires sign == [] || sign == [PLUS] || sign == [MINUS]
    requires 0 < |ds| && AllDigits(ds)
    requires tail == [] || !IsDigit(tail[0])
    ensures Strtol(ws + sign + ds + tail).consumed == |ws| + |sign| + |ds|
    ensures sign != [MINUS] ==>
      Strtol(ws + sign + ds + tail).value == Min(DecimalValue(ds), LONG_MAX)
    ensures sign == [MINUS] ==>
      Strtol(ws + sign + ds + tail).value == -Min(DecimalValue(ds), -LONG_MIN)
  {
    ScanOfText(ws, sign, ds, tail);
  }

  /** A run of digits followed by a non-digit spans exactly the run. */
  lemma DigitRun(ds: seq<byte>, tail: seq<byte>)
    requires AllDigits(ds)
    requires tail == [] || !IsDigit(tail[0])
    ensures Span(ds + tail, IsDigit) == |ds|
    ensures (ds + tail)[..|ds|] == ds
  {
    SpanOfConcat(ds, tail, IsDigit);
  }

  /** Round trip: strtol reads back the signed decimal text of any long. */
  lemma StrtolOfSigned(v: int, tail: seq<byte>)
    requires LONG_MIN <= v <= LONG_MAX
    requires tail == [] || !IsDigit(tail[0])
    ensures Strtol(FormatSigned(v) + tail) == Conversion(v, |FormatSigned(v)|)
  {
    if v < 0 {
      ScanOfNegative(ToDecimal(-v), tail);
      assert FormatSigned(v) + tail == [MINUS] + ToDecimal(-v) + tail;
    } else {
      ScanOfDigits(ToDecimal(v), tail);
    }
  }

  /** strtoull accepts a minus sign and wraps: "-n" reads as 2^64 - n. */
  lemma StrtoullOfNegative(n: nat, tail: seq<byte>)
    requires 0 < n <= ULLONG_MAX
    requires tail == [] || !IsDigit(tail[0])
    ensures Strtoull([MINUS] + ToDecimal(n) + tail).value == U64_MODULUS - n
  {
    ScanOfNegative(ToDecimal(n), tail);
    var m := U64_MODULUS - n;
    assert 0 <= m < U64_MODULUS;
    assert m % U64_MODULUS == m;
  }
}
