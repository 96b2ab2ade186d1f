/** Integer widths of the two value models and Rust's decimal rendering of
    an integer (`i128::to_string`). */
module Numbers {
  import opened Results

  const MinI64: int := -0x8000_0000_0000_0000
  const MaxI64: int := 0x7fff_ffff_ffff_ffff
  const MinI128: int := -0x8000_0000_0000_0000_0000_0000_0000_0000
  const MaxI128: int := 0x7fff_ffff_ffff_ffff_ffff_ffff_ffff_ffff

  /** The payload of a KDL integer literal. */
  type I128 = x: int | MinI128 <= x <= MaxI128

  /** The payload of a Nushell integer. */
  type I64 = x: int | MinI64 <= x <= MaxI64

  /** Whether `i128 -> i64` (`TryInto`) succeeds. */
  predicate FitsI64(i: int) {
    MinI64 <= i <= MaxI64
  }

  /** The first integer of `xs` that does not fit in `i64`, if any. */
  function FirstOutOfRange(xs: seq<int>): (r: Option<int>)
    ensures r.None? <==> forall k :: 0 <= k < |xs| ==> FitsI64(xs[k])
    ensures r.Some? ==>
      exists k :: 0 <= k < |xs| && xs[k] == r.value && !FitsI64(r.value) &&
        forall j :: 0 <= j < k ==> FitsI64(xs[j])
  {
    if |xs| == 0 then None
    else if !FitsI64(xs[0]) then Some(xs[0])
    else FirstOutOfRange(xs[1..])
  }

  /** Scanning a concatenation finds the first offender of the left part,
      and looks at the right part only when the left part has none. */
  lemma {:induction false} FirstOutOfRangeAppend(a: seq<int>, b: seq<int>)
    ensures FirstOutOfRange(a + b) ==
      if FirstOutOfRange(a).Some? then FirstOutOfRange(a) else FirstOutOfRange(b)
  {
    if |a| > 0 {
      assert (a + b)[0] == a[0];
      assert (a + b)[1..] == a[1..] + b;
      FirstOutOfRangeAppend(a[1..], b);
    } else {
      assert a + b == b;
    }
  }

  /** An IEEE-754 double, carried as its bit pattern: the model copies it and
      never computes with it. */
  datatype F64 = F64(bits: bv64)

  predicate IsDigit(c: char) {
    '0' <= c <= '9'
  }

  function DigitChar(d: nat): (c: char)
    requires d < 10
    ensures IsDigit(c)
  {
    ('0' as int + d) as char
  }

  function DigitValue(c: char): (d: nat)
    requires IsDigit(c)
    ensures d < 10 && DigitChar(d) == c
  {
    c as int - '0' as int
  }

  predicate AllDigits(s: string) {
    forall k :: 0 <= k < |s| ==> IsDigit(s[k])
  }

  /** Decimal digits of `n`, most significant first, without leading zeros. */
  function NatText(n: nat): (r: string)
    ensures 0 < |r| && AllDigits(r)
    ensures r[0] == '0' <==> n == 0
    ensures n == 0 ==> r == "0"
  {
    if n < 10 then [DigitChar(n)] else NatText(n / 10) + [DigitChar(n % 10)]
  }

  /** Rust's `Display` of a signed integer: a minus sign for negative values,
      then the digits of the magnitude. */
  function DecimalText(i: int): (r: string)
    ensures 0 < |r|
    ensures r[0] == '-' <==> i < 0
    ensures i < 0 ==> 1 < |r| && AllDigits(r[1..]) && r[1] != '0'
    ensures 0 <= i ==> AllDigits(r)
    ensures r[if i < 0 then 1 else 0] == '0' <==> i == 0
  {
    if i < 0 then "-" + NatText(-i) else NatText(i)
  }

  /** Value of a digit string (the empty string reads as zero). */
  function ParseNat(s: string): nat
    requires AllDigits(s)
  {
    if |s| == 0 then 0 else ParseNat(s[..|s| - 1]) * 10 + DigitValue(s[|s| - 1])
  }

  /** Inverse of `DecimalText`: an optional minus sign followed by at least
      one digit. */
  function ParseDecimal(s: string): (r: Option<int>)
    ensures r.Some? ==> 0 < |s|
  {
    if 1 < |s| && s[0] == '-' && AllDigits(s[1..]) then
      var magnitude: int := ParseNat(s[1..]);
      Some(-magnitude)
    else if 0 < |s| && AllDigits(s) then Some(ParseNat(s))
    else None
  }

  lemma {:induction false} NatTextRoundTrip(n: nat)
    ensures ParseNat(NatText(n)) == n
  {
    if n >= 10 {
      var r := NatText(n);
      var p := NatText(n / 10);
      assert r == p + [DigitChar(n % 10)];
      assert r[..|r| - 1] == p;
      NatTextRoundTrip(n / 10);
    }
  }

  /** The text placed in a conversion error reads back as the integer it
      was made from. */
  lemma DecimalTextRoundTrip(i: int)
    ensures ParseDecimal(DecimalText(i)) == Some(i)
  {
    if i < 0 {
      var r := DecimalText(i);
      assert r[1..] == NatText(-i);
      NatTextRoundTrip(-i);
    } else {
      NatTextRoundTrip(i);
    }
  }

  /** Distinct integers are reported with distinct texts. */
  lemma DecimalTextInjective(i: int, j: int)
    ensures DecimalText(i) == DecimalText(j) ==> i == j
  {
    DecimalTextRoundTrip(i);
    DecimalTextRoundTrip(j);
  }
}
