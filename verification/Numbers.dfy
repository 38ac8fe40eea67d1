// Numbers as the rows print and parse them.
module Numbers {
  import opened Csv
  import opened Values

  predicate IsDigit(c: char) {
    '0' <= c <= '9'
  }

  predicate AllDigits(s: string) {
    forall k :: 0 <= k < |s| ==> IsDigit(s[k])
  }

  function Digit(d: nat): (c: char)
    requires d < 10
    ensures IsDigit(c) && DigitValue(c) == d
  {
    ('0' as int + d) as char
  }

  function DigitValue(c: char): (d: nat)
    requires IsDigit(c)
    ensures d < 10
  {
    c as int - '0' as int
  }

  function PrintNat(n: nat): (s: string)
    ensures |s| > 0 && AllDigits(s)
  {
    if n < 10 then [Digit(n)] else PrintNat(n / 10) + [Digit(n % 10)]
  }

  function DigitsValue(s: string): nat
    requires AllDigits(s)
  {
    if |s| == 0 then 0 else 10 * DigitsValue(s[..|s| - 1]) + DigitValue(s[|s| - 1])
  }

  function LeadingDigits(s: string): (digits: string)
    ensures AllDigits(digits) && |digits| <= |s|
  {
    if |s| == 0 || !IsDigit(s[0]) then "" else [s[0]] + LeadingDigits(s[1..])
  }

  function ParseNat(s: string): nat {
    DigitsValue(LeadingDigits(s))
  }

  function PrintInt(n: int): string {
    if n < 0 then "-" + PrintNat(-n) else PrintNat(n)
  }

  function ParseInt(s: string): int {
    if |s| > 0 && s[0] == '-' then 0 - ParseNat(s[1..]) else ParseNat(s)
  }

  lemma {:induction false} PrintedValue(n: nat)
    ensures DigitsValue(PrintNat(n)) == n
  {
    if n >= 10 {
      PrintedValue(n / 10);
      assert PrintNat(n)[..|PrintNat(n)| - 1] == PrintNat(n / 10);
    }
  }

  // A printed number that has lost digits at its end is another one, except that nothing at all
  // reads as zero.
  lemma {:induction false} CutDigits(n: nat, m: nat)
    requires m < |PrintNat(n)|
    ensures ParseNat(PrintNat(n)[..m]) <= n / 10
    ensures ParseNat(PrintNat(n)[..m]) == n <==> n == 0
  {
    LeadingDigitsOf(PrintNat(n)[..m], "");
    assert PrintNat(n)[..m] + "" == PrintNat(n)[..m];
    if n >= 10 {
      var front := PrintNat(n / 10);
      assert PrintNat(n)[..m] == front[..m];
      if m < |front| {
        CutDigits(n / 10, m);
      } else {
        assert front[..m] == front;
        NatRoundTrip(n / 10, "");
      }
    }
  }

  lemma {:induction false} LeadingDigitsOf(digits: string, rest: string)
    requires AllDigits(digits) && (|rest| > 0 ==> !IsDigit(rest[0]))
    ensures LeadingDigits(digits + rest) == digits
  {
    if |digits| == 0 {
      assert digits + rest == rest;
    } else {
      assert (digits + rest)[1..] == digits[1..] + rest;
      LeadingDigitsOf(digits[1..], rest);
    }
  }

  // Parsing reads a printed number back, whatever follows it.
  lemma NatRoundTrip(n: nat, rest: string)
    requires |rest| > 0 ==> !IsDigit(rest[0])
    ensures ParseNat(PrintNat(n) + rest) == n && ParseNat(PrintNat(n)) == n
  {
    PrintedValue(n);
    LeadingDigitsOf(PrintNat(n), rest);
    LeadingDigitsOf(PrintNat(n), "");
    assert PrintNat(n) + "" == PrintNat(n);
  }

  lemma IntRoundTrip(n: int)
    ensures ParseInt(PrintInt(n)) == n
  {
    if n < 0 {
      NatRoundTrip(-n, "");
      assert PrintInt(n)[1..] == PrintNat(-n);
    } else {
      NatRoundTrip(n, "");
      assert IsDigit(PrintNat(n)[0]);
    }
  }

  lemma PrintedIsPlain(n: int)
    ensures NoSeparator(PrintInt(n)) && NoTerminator(PrintInt(n))
    ensures n >= 0 ==> NoSeparator(PrintNat(n)) && NoTerminator(PrintNat(n))
  {
  }

  // ---- Six decimals ----

  const MICRO: nat := 1000000

  function Millionths(r: real): int {
    Round(r * 1000000.0)
  }

  // The last w digits, leading zeros included.
  function PrintPadded(n: nat, w: nat): (s: string)
    ensures |s| == w && AllDigits(s)
  {
    if w == 0 then "" else PrintPadded(n / 10, w - 1) + [Digit(n % 10)]
  }

  function PrintUnsigned(size: nat): (s: string)
    ensures |s| > 0 && IsDigit(s[0])
  {
    PrintNat(size / MICRO) + ("." + PrintPadded(size % MICRO, 6))
  }

  function PrintMillionths(m: int): string {
    if m < 0 then "-" + PrintUnsigned(-m) else PrintUnsigned(m)
  }

  // What printf makes of a number with the format %f.
  function PrintFixed(r: real): string {
    PrintMillionths(Millionths(r))
  }

  function ParseUnsigned(s: string): real {
    var whole := LeadingDigits(s);
    var rest := s[|whole|..];
    var fraction := if |rest| > 0 && rest[0] == '.' then LeadingDigits(rest[1..]) else "";
    DigitsValue(whole) as real + DigitsValue(fraction) as real / PowerOfTen(|fraction|) as real
  }

  function ParseReal(s: string): real {
    if |s| > 0 && s[0] == '-' then -ParseUnsigned(s[1..]) else ParseUnsigned(s)
  }

  lemma FewerDigits(n: nat, power: nat)
    requires n < 10 * power
    ensures n / 10 < power && n == 10 * (n / 10) + n % 10
  {
  }

  lemma {:induction false} PaddedValue(n: nat, w: nat)
    requires n < PowerOfTen(w)
    ensures DigitsValue(PrintPadded(n, w)) == n
  {
    if w > 0 {
      FewerDigits(n, PowerOfTen(w - 1));
      PaddedValue(n / 10, w - 1);
      assert PrintPadded(n, w)[..w - 1] == PrintPadded(n / 10, w - 1);
    }
  }

  lemma MicroIsPower()
    ensures PowerOfTen(6) == MICRO
  {
    assert PowerOfTen(1) == 10;
    assert PowerOfTen(2) == 100;
    assert PowerOfTen(3) == 1000;
    assert PowerOfTen(4) == 10000;
    assert PowerOfTen(5) == 100000;
  }

  lemma UnsignedRoundTrip(n: nat)
    ensures ParseUnsigned(PrintUnsigned(n)) == InMillionths(n)
  {
    var whole, fraction := PrintNat(n / MICRO), PrintPadded(n % MICRO, 6);
    MicroIsPower();
    PaddedValue(n % MICRO, 6);
    PrintedValue(n / MICRO);
    LeadingDigitsOf(whole, "." + fraction);
    assert PrintUnsigned(n)[|whole|..] == "." + fraction;
    assert ("." + fraction)[1..] == fraction;
    LeadingDigitsOf(fraction, "");
    assert fraction + "" == fraction;
    assert n == n / MICRO * MICRO + n % MICRO;
  }

  lemma SignIsParsed(s: string)
    ensures ParseReal("-" + s) == -ParseUnsigned(s)
    ensures |s| > 0 && IsDigit(s[0]) ==> ParseReal(s) == ParseUnsigned(s)
  {
    assert ("-" + s)[1..] == s;
  }

  function InMillionths(m: int): real {
    m as real / 1000000.0
  }

  lemma NegatedMillionths(m: int)
    ensures InMillionths(-m) == -InMillionths(m)
  {
  }

  lemma MillionthsRoundTrip(m: int)
    ensures ParseReal(PrintMillionths(m)) == InMillionths(m)
  {
    var size := if m < 0 then -m else m;
    UnsignedRoundTrip(size);
    SignIsParsed(PrintUnsigned(size));
    NegatedMillionths(size);
  }

  lemma UnsignedIsPlain(n: nat)
    ensures NoSeparator(PrintUnsigned(n)) && NoTerminator(PrintUnsigned(n))
  {
  }

  lemma PrintedMillionthsArePlain(m: int)
    ensures NoSeparator(PrintMillionths(m)) && NoTerminator(PrintMillionths(m))
  {
    UnsignedIsPlain(if m < 0 then -m else m);
  }

  lemma FloorOf(k: int, d: real)
    requires 0.0 <= d < 1.0
    ensures (k as real + d).Floor == k
  {
  }

  lemma RoundOfWhole(x: real)
    ensures Round(x) as real == x <==> x.Floor as real == x
  {
    if x.Floor as real == x {
      FloorOf(x.Floor, 0.5);
      FloorOf(-x.Floor, 0.5);
    } else {
      FloorOf(Round(x), 0.0);
    }
  }

  lemma Scaling(m: int, r: real)
    ensures InMillionths(m) == r <==> m as real == r * 1000000.0
  {
  }

  lemma WholeMillionths(r: real)
    ensures InMillionths(Millionths(r)) == r <==> (r * 1000000.0).Floor as real == r * 1000000.0
  {
    RoundOfWhole(r * 1000000.0);
    Scaling(Millionths(r), r);
  }

  // A printed number is read back if and only if six decimals hold it.
  lemma FixedRoundTrip(r: real)
    ensures ParseReal(PrintFixed(r)) == InMillionths(Millionths(r))
    ensures ParseReal(PrintFixed(r)) == r <==> (r * 1000000.0).Floor as real == r * 1000000.0
  {
    MillionthsRoundTrip(Millionths(r));
    WholeMillionths(r);
  }

  // ---- The digits ----

  lemma DigitsAreDecimal()
    ensures [Digit(0), Digit(1), Digit(2), Digit(3), Digit(4)] == "01234"
    ensures [Digit(5), Digit(6), Digit(7), Digit(8), Digit(9)] == "56789"
  {
  }

  lemma MillionthsAreNear(r: real)
    ensures -0.5 <= r * 1000000.0 - Millionths(r) as real <= 0.5
  {
  }

  // The digits stand in the usual order, with the sign and the point in front of theirs.
  lemma PrintedNumbers(n: nat)
    ensures n >= 10 ==> PrintNat(n) == PrintNat(n / 10) + PrintNat(n % 10)
    ensures n > 0 ==> PrintInt(0 - n) == "-" + PrintInt(n)
    ensures PrintInt(n) == PrintNat(n)
  {
  }

  lemma PrintedOneAndAHalf()
    ensures PrintFixed(1.5) == "1.500000" && PrintFixed(-1.5) == "-1.500000"
  {
    assert 1.5 * 1000000.0 == 1500000.0 && -1.5 * 1000000.0 == -1500000.0;
    assert Millionths(1.5) == 1500000 && Millionths(-1.5) == -1500000;
    PaddedFive();
    assert PrintUnsigned(1500000) == "1" + ("." + PrintPadded(500000, 6));
  }

  lemma PrintedZero()
    ensures PrintFixed(0.0) == "0.000000" && PrintInt(0) == "0"
  {
    assert Millionths(0.0) == 0;
    assert PrintPadded(0, 3) == "000" by {
      assert PrintPadded(0, 1) == "0" by {
        assert PrintPadded(0, 0) == "";
      }
      assert PrintPadded(0, 2) == PrintPadded(0, 1) + "0";
    }
    assert PrintPadded(0, 4) == PrintPadded(0, 3) + "0";
    assert PrintPadded(0, 5) == PrintPadded(0, 4) + "0";
    assert PrintPadded(0, 6) == PrintPadded(0, 5) + "0";
    assert PrintUnsigned(0) == "0" + ("." + PrintPadded(0, 6));
  }

  lemma PaddedFive()
    ensures PrintPadded(500000, 6) == "500000"
  {
    assert PrintPadded(5, 1) == "5" by {
      assert PrintPadded(0, 0) == "";
    }
    assert PrintPadded(50, 2) == PrintPadded(5, 1) + "0";
    assert PrintPadded(500, 3) == PrintPadded(50, 2) + "0";
    assert PrintPadded(5000, 4) == PrintPadded(500, 3) + "0";
    assert PrintPadded(50000, 5) == PrintPadded(5000, 4) + "0";
    assert PrintPadded(500000, 6) == PrintPadded(50000, 5) + "0";
  }
}
