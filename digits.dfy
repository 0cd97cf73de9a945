/** ASCII digit runs (the `\d` of both patterns) and `str::parse::<i32>` on them. */
module Digits {
  import opened Results

  /** The largest value of a Rust `i32`. */
  const I32_MAX: int := 0x7fff_ffff

  predicate IsDigit(c: char) {
    '0' <= c <= '9'
  }

  predicate AllDigits(w: string) {
    forall j :: 0 <= j < |w| ==> IsDigit(w[j])
  }

  /** A string `\d+` matches in full. */
  predicate IsDigitRun(w: string) {
    |w| > 0 && AllDigits(w)
  }

  /** The end of the maximal run of digits that starts at `i` (greedy `\d*` from `i`). */
  function DigitRunEnd(s: string, i: nat): (k: nat)
    requires i <= |s|
    ensures i <= k <= |s|
    ensures k == |s| || !IsDigit(s[k])
    decreases |s| - i
  {
    if i < |s| && IsDigit(s[i]) then DigitRunEnd(s, i + 1) else i
  }

  /** The run really is made of digits; with DigitRunEnd's contract it is the longest digit
      run starting at `i`. */
  lemma {:induction false} DigitRun(s: string, i: nat)
    requires i <= |s|
    ensures forall j :: i <= j < DigitRunEnd(s, i) ==> IsDigit(s[j])
    decreases |s| - i
  {
    if i < |s| && IsDigit(s[i]) {
      DigitRun(s, i + 1);
    }
  }

  function DigitValue(c: char): nat
    requires IsDigit(c)
  {
    c as int - '0' as int
  }

  /** The decimal value of a string of digits, most significant digit first. */
  function DigitsValue(w: string): (v: nat)
    requires AllDigits(w)
  {
    if |w| == 0 then 0 else DigitsValue(w[..|w| - 1]) * 10 + DigitValue(w[|w| - 1])
  }

  function DigitChar(n: nat): (c: char)
    requires n < 10
    ensures IsDigit(c) && DigitValue(c) == n
  {
    ('0' as int + n) as char
  }

  /** The shortest decimal rendering of `n`, as Rust's `Display` for integers writes it. */
  function Decimal(n: nat): (w: string)
    ensures IsDigitRun(w)
  {
    if n < 10 then [DigitChar(n)] else Decimal(n / 10) + [DigitChar(n % 10)]
  }

  /** `z` zero digits. */
  function Zeros(z: nat): (w: string)
    ensures |w| == z && forall j :: 0 <= j < z ==> w[j] == '0'
  {
    seq(z, _ => '0')
  }

  /** `w.parse::<i32>()` on the unsigned digit texts the patterns capture (an optional sign,
      which Rust also accepts, is not modelled): a non-empty run of ASCII digits whose value
      fits in an `i32` parses to that value; anything else (empty, a non-digit, overflow) is
      an error.
      ParseI32Canonical and ParseI32Padded say which texts these are. */
  function ParseI32(w: string): (r: Result<int>)
    ensures r.Ok? <==> IsDigitRun(w) && DigitsValue(w) <= I32_MAX
    ensures r.Ok? ==> 0 <= r.value <= I32_MAX && r.value == DigitsValue(w)
    ensures r.Err? ==> r.error == InvalidNumber(w)
  {
    if IsDigitRun(w) && DigitsValue(w) <= I32_MAX then Ok(DigitsValue(w)) else Err(InvalidNumber(w))
  }

  /** An accepted text is its value's decimal rendering after some leading zeros. */
  lemma ParseI32Canonical(w: string)
    ensures ParseI32(w).Ok? ==>
      |Decimal(ParseI32(w).value)| <= |w| &&
      w == Zeros(|w| - |Decimal(ParseI32(w).value)|) + Decimal(ParseI32(w).value)
  {
    if ParseI32(w).Ok? {
      DigitRunCanonical(w);
    }
  }

  /** Every digit run is its value's decimal rendering after some leading zeros. */
  lemma {:induction false} DigitRunCanonical(w: string)
    requires IsDigitRun(w)
    ensures |Decimal(DigitsValue(w))| <= |w|
    ensures w == Zeros(|w| - |Decimal(DigitsValue(w))|) + Decimal(DigitsValue(w))
    decreases |w|
  {
    var init, c := w[..|w| - 1], w[|w| - 1];
    var v, d := DigitsValue(w), DigitValue(c);
    assert DigitChar(d) == c;
    if |w| == 1 {
      assert init == [] && DigitsValue(init) == 0;
      assert v == d && Decimal(v) == [c];
      assert w == Zeros(0) + [c];
    } else {
      assert IsDigitRun(init);
      DigitRunCanonical(init);
      var vi := DigitsValue(init);
      var k := |init| - |Decimal(vi)|;
      assert init == Zeros(k) + Decimal(vi);
      assert w == init + [c];
      assert v == vi * 10 + d;
      if vi == 0 {
        assert Decimal(v) == [c];
        assert w == Zeros(k + 1) + [c];
      } else {
        assert v / 10 == vi && v % 10 == d;
        assert Decimal(v) == Decimal(vi) + [c];
        assert w == Zeros(k) + Decimal(v);
      }
    }
  }

  /** Reading back a rendered number gives the number. */
  lemma {:induction false} DecimalRoundTrip(n: nat)
    ensures DigitsValue(Decimal(n)) == n
  {
    if n >= 10 {
      var w := Decimal(n);
      assert w[..|w| - 1] == Decimal(n / 10);
      DecimalRoundTrip(n / 10);
    }
  }

  /** Every value of `0..=i32::MAX`, written in decimal, parses back to itself; every larger
      value is rejected. */
  lemma ParseI32Decimal(n: nat)
    ensures n <= I32_MAX ==> ParseI32(Decimal(n)) == Ok(n)
    ensures n > I32_MAX ==> ParseI32(Decimal(n)) == Err(InvalidNumber(Decimal(n)))
  {
    DecimalRoundTrip(n);
  }

  /** Conversely, any number of leading zeros before a rendered value is accepted: the text
      parses to the value when it fits in an `i32` and is rejected otherwise. */
  lemma ParseI32Padded(z: nat, n: nat)
    ensures ParseI32(Zeros(z) + Decimal(n)) ==
      if n <= I32_MAX then Ok(n) else Err(InvalidNumber(Zeros(z) + Decimal(n)))
  {
    ZerosValue(z, Decimal(n));
    DecimalRoundTrip(n);
  }

  /** Leading zeros before digits leave the value unchanged. */
  lemma {:induction false} ZerosValue(z: nat, w: string)
    requires AllDigits(w)
    ensures AllDigits(Zeros(z) + w) && DigitsValue(Zeros(z) + w) == DigitsValue(w)
    decreases z
  {
    if z == 0 {
      assert Zeros(z) + w == w;
    } else {
      assert Zeros(z) + w == "0" + (Zeros(z - 1) + w);
      ZerosValue(z - 1, w);
      LeadingZero(Zeros(z - 1) + w);
    }
  }

  /** Leading zeros do not change the value, so "007" parses like "7". */
  lemma {:induction false} LeadingZero(w: string)
    requires AllDigits(w)
    ensures AllDigits("0" + w) && DigitsValue("0" + w) == DigitsValue(w)
    decreases |w|
  {
    var z := "0" + w;
    if |w| > 0 {
      assert z[..|z| - 1] == "0" + w[..|w| - 1];
      LeadingZero(w[..|w| - 1]);
    } else {
      assert z == "0";
    }
  }
}
