/**
  Rust's decimal rendering of an unsigned integer (`{}` and `{:04}` in a format
  string) and its parser (`str::parse::<u64>`). The program formats durations and
  frame file names with the first and reads ffprobe's frame count with the second.
*/
module Decimal {
  import opened Outcomes
  import opened Basics

  /** One more than `u64::MAX`. */
  const U64Limit: nat := 0x1_0000_0000_0000_0000

  predicate IsDigit(c: char) { '0' <= c <= '9' }

  function DigitValue(c: char): (d: nat)
    requires IsDigit(c)
    ensures d < 10
  {
    c as int - '0' as int
  }

  function DigitChar(d: nat): (c: char)
    requires d < 10
    ensures IsDigit(c) && DigitValue(c) == d
  {
    ('0' as int + d) as char
  }

  predicate AllDigits(s: string) {
    forall i :: 0 <= i < |s| ==> IsDigit(s[i])
  }

  /** The number a string of decimal digits denotes, most significant digit first. */
  function Value(s: string): nat
    requires AllDigits(s)
    decreases |s|
  {
    if s == [] then 0 else Value(s[..|s| - 1]) * 10 + DigitValue(s[|s| - 1])
  }

  /** `format!("{}", n)`: the shortest decimal numeral of `n`. */
  function Decimal(n: nat): (s: string)
    ensures |s| >= 1 && AllDigits(s)
    ensures s[0] == '0' ==> n == 0
    decreases n
  {
    if n < 10 then [DigitChar(n)] else Decimal(n / 10) + [DigitChar(n % 10)]
  }

  lemma {:induction false} ValueOfDecimal(n: nat)
    ensures Value(Decimal(n)) == n
    decreases n
  {
    if n >= 10 {
      var s := Decimal(n);
      assert s[..|s| - 1] == Decimal(n / 10);
      ValueOfDecimal(n / 10);
    }
  }

  /** Distinct numbers render as distinct numerals. */
  lemma DecimalInjective(a: nat, b: nat)
    requires Decimal(a) == Decimal(b)
    ensures a == b
  {
    ValueOfDecimal(a);
    ValueOfDecimal(b);
  }

  /** `k` zeros, the padding `{:0w}` puts in front of a short numeral. */
  function Zeros(k: nat): (z: string)
    ensures |z| == k && AllDigits(z)
  {
    Repeat('0', k)
  }

  /** `format!("{:0w}", n)` applied to the numeral `s`: left-padded with '0' to width `w`. */
  function ZeroPad(s: string, width: nat): (p: string)
  {
    if |s| >= width then s else Zeros(width - |s|) + s
  }

  lemma {:induction false} ValueOfZeros(k: nat)
    ensures Value(Zeros(k)) == 0
  {
    if k > 0 {
      assert Zeros(k)[..k - 1] == Zeros(k - 1);
      ValueOfZeros(k - 1);
    }
  }

  /** Leading zeros do not change the value of a numeral. */
  lemma {:induction false} ValueIgnoresLeadingZeros(k: nat, s: string)
    requires AllDigits(s)
    ensures AllDigits(Zeros(k) + s) && Value(Zeros(k) + s) == Value(s)
    decreases |s|
  {
    var t := Zeros(k) + s;
    if s == [] {
      assert t == Zeros(k);
      ValueOfZeros(k);
    } else {
      assert t[..|t| - 1] == Zeros(k) + s[..|s| - 1];
      ValueIgnoresLeadingZeros(k, s[..|s| - 1]);
    }
  }

  /** A zero-padded numeral still denotes the number it renders. */
  lemma ValueOfPadded(n: nat, width: nat)
    ensures AllDigits(ZeroPad(Decimal(n), width))
    ensures Value(ZeroPad(Decimal(n), width)) == n
  {
    var d := Decimal(n);
    ValueOfDecimal(n);
    if |d| < width {
      ValueIgnoresLeadingZeros(width - |d|, d);
    }
  }

  /** Zero-padding to a fixed width keeps distinct numbers distinct. */
  lemma PaddedDecimalInjective(a: nat, b: nat, width: nat)
    requires ZeroPad(Decimal(a), width) == ZeroPad(Decimal(b), width)
    ensures a == b
  {
    ValueOfPadded(a, width);
    ValueOfPadded(b, width);
  }

  // ---------------------------------------------------------------------------
  // `str::parse::<u64>`

  datatype ParseIntError = Empty | InvalidDigit | PosOverflow

  /**
    Rust's `u64::from_str`: an empty string is `Empty`; a lone sign is
    `InvalidDigit`; one leading '+' is skipped; then the digits are read left to
    right, a non-digit giving `InvalidDigit` and a value past `u64::MAX` giving
    `PosOverflow`, whichever comes first.
  */
  function ParseU64(s: string): (r: Result<nat, ParseIntError>)
  {
    if s == [] then Err(Empty)
    else if (s[0] == '+' || s[0] == '-') && |s| == 1 then Err(InvalidDigit)
    else Accumulate(if s[0] == '+' then s[1..] else s, 0)
  }

  function Accumulate(ds: string, acc: nat): Result<nat, ParseIntError>
    decreases |ds|
  {
    if ds == [] then Ok(acc)
    else if !IsDigit(ds[0]) then Err(InvalidDigit)
    else
      var next := acc * 10 + DigitValue(ds[0]);
      if next >= U64Limit then Err(PosOverflow) else Accumulate(ds[1..], next)
  }

  /** The digits `ParseU64` reads: the text without one leading '+'. */
  function Unsigned(s: string): string {
    if |s| > 0 && s[0] == '+' then s[1..] else s
  }

  /** The texts `ParseU64` accepts. */
  predicate IsU64Text(s: string) {
    var ds := Unsigned(s);
    |ds| > 0 && AllDigits(ds) && Value(ds) < U64Limit
  }

  lemma {:induction false} ValueGrows(p: string, q: string)
    requires AllDigits(p + q)
    ensures AllDigits(p) && Value(p + q) >= Value(p)
    decreases |q|
  {
    assert forall i :: 0 <= i < |p| ==> (p + q)[i] == p[i];
    if q != [] {
      var t := p + q;
      assert t[..|t| - 1] == p + q[..|q| - 1];
      ValueGrows(p, q[..|q| - 1]);
    } else {
      assert p + q == p;
    }
  }

  lemma {:induction false} AccumulateDigits(done: string, ds: string)
    requires AllDigits(done + ds)
    ensures AllDigits(done) && AllDigits(ds)
    ensures Value(done) < U64Limit ==>
      Accumulate(ds, Value(done)) ==
        if Value(done + ds) < U64Limit then Ok(Value(done + ds)) else Err(PosOverflow)
    decreases |ds|
  {
    assert forall i :: 0 <= i < |done| ==> (done + ds)[i] == done[i];
    assert forall i :: 0 <= i < |ds| ==> (done + ds)[|done| + i] == ds[i];
    if ds == [] {
      assert done + ds == done;
    } else if Value(done) < U64Limit {
      var done' := done + [ds[0]];
      assert done' + ds[1..] == done + ds;
      assert done'[..|done'| - 1] == done;
      if Value(done') >= U64Limit {
        ValueGrows(done', ds[1..]);
      } else {
        AccumulateDigits(done', ds[1..]);
      }
    }
  }

  lemma {:induction false} AccumulateReadsDigits(ds: string, acc: nat)
    requires Accumulate(ds, acc).Ok?
    ensures AllDigits(ds)
    decreases |ds|
  {
    if ds != [] {
      AccumulateReadsDigits(ds[1..], acc * 10 + DigitValue(ds[0]));
    }
  }

  /** `ParseU64` accepts exactly the optionally '+'-signed numerals below 2^64, and returns their value. */
  lemma ParseU64Accepts(s: string)
    ensures ParseU64(s).Ok? <==> IsU64Text(s)
    ensures ParseU64(s).Ok? ==> ParseU64(s).value == Value(Unsigned(s)) < U64Limit
  {
    var ds := Unsigned(s);
    if s != [] && !((s[0] == '+' || s[0] == '-') && |s| == 1) {
      assert Accumulate(ds, 0) == ParseU64(s);
      if ParseU64(s).Ok? {
        AccumulateReadsDigits(ds, 0);
      }
      if AllDigits(ds) {
        assert [] + ds == ds;
        AccumulateDigits([], ds);
      }
    } else if s != [] && s[0] == '-' {
      assert !IsDigit(ds[0]);
    }
  }

  /** Parsing the rendering of any `u64` gives the number back. */
  lemma ParseDecimal(n: nat)
    requires n < U64Limit
    ensures ParseU64(Decimal(n)) == Ok(n)
  {
    ValueOfDecimal(n);
    ParseU64Accepts(Decimal(n));
  }
}
