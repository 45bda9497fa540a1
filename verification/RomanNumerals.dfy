module RomanNumerals {
  // Roman numerals of the spoken text: greedy writing, additive reading, and acceptance of canonical numerals only.
  import opened Options

  const TABLE: seq<(int, string)> := [
    (1000, "M"), (900, "CM"), (500, "D"), (400, "CD"), (100, "C"), (90, "XC"), (50, "L"), (40, "XL"),
    (10, "X"), (9, "IX"), (5, "V"), (4, "IV"), (1, "I")]

  predicate IsRomanLetter(c: char) { c in "IVXLCDM" }

  function LetterValue(c: char): int {
    match c
    case 'I' => 1
    case 'V' => 5
    case 'X' => 10
    case 'L' => 50
    case 'C' => 100
    case 'D' => 500
    case 'M' => 1000
    case _ => 0
  }

  /** The greedy numeral of n, using the table from row k on. */
  function RomanFrom(n: int, k: nat): string
    requires k <= |TABLE|
    decreases |TABLE| - k, n
  {
    if k == |TABLE| then ""
    else if n >= TABLE[k].0 then TABLE[k].1 + RomanFrom(n - TABLE[k].0, k)
    else RomanFrom(n, k + 1)
  }

  function Roman(n: int): string { RomanFrom(n, 0) }

  /** Contribution of the first letter: negative before a larger one. */
  function FirstTerm(s: string): int
    requires s != ""
  {
    var value := LetterValue(s[0]);
    var next := if |s| > 1 then LetterValue(s[1]) else 0;
    if value < next then -value else value
  }

  function Sum(s: string): int {
    if s == "" then 0 else FirstTerm(s) + Sum(s[1..])
  }

  method IntToRoman(n: int) returns (out: string)
    ensures out == Roman(n)
  {
    out := "";
    var rest := n;
    for k := 0 to |TABLE|
      invariant out + RomanFrom(rest, k) == Roman(n)
    {
      var (value, symbol) := TABLE[k];
      while rest >= value
        invariant out + RomanFrom(rest, k) == Roman(n)
        decreases rest
      {
        assert out + (symbol + RomanFrom(rest - value, k)) == (out + symbol) + RomanFrom(rest - value, k);
        out := out + symbol;
        rest := rest - value;
      }
    }
  }

  /** Value of a canonical numeral, None for anything else. */
  function ValueOf(roman: string): Option<int> {
    if roman != "" && (forall i :: 0 <= i < |roman| ==> IsRomanLetter(roman[i])) && Roman(Sum(roman)) == roman then Some(Sum(roman)) else None
  }

  method RomanToInt(roman: string) returns (r: Option<int>)
    ensures r == ValueOf(roman)
  {
    if roman == "" || exists i :: 0 <= i < |roman| && !IsRomanLetter(roman[i]) { return None; }
    var total := 0;
    for i := 0 to |roman|
      invariant total + Sum(roman[i..]) == Sum(roman)
    {
      var value := LetterValue(roman[i]);
      var next := if i + 1 < |roman| then LetterValue(roman[i + 1]) else 0;
      assert roman[i..][1..] == roman[i + 1..];
      total := total + if value < next then -value else value;
    }
    var canonical := IntToRoman(total);
    r := if canonical == roman then Some(total) else None;
  }

  /** Largest letter value that can start a numeral written from row k on. */
  function TopValue(k: nat): nat {
    if k == 0 then 1000 else if k <= 2 then 500 else if k <= 4 then 100 else if k <= 6 then 50 else if k <= 8 then 10 else if k <= 10 then 5 else 1
  }

  lemma {:induction false} StartsLow(n: int, k: nat)
    requires k <= |TABLE|
    ensures RomanFrom(n, k) == "" || LetterValue(RomanFrom(n, k)[0]) <= TopValue(k)
    ensures forall i :: 0 <= i < |RomanFrom(n, k)| ==> IsRomanLetter(RomanFrom(n, k)[i])
    decreases |TABLE| - k, n
  {
    if k < |TABLE| {
      if n >= TABLE[k].0 { StartsLow(n - TABLE[k].0, k); } else { StartsLow(n, k + 1); }
    }
  }

  lemma SumOne(c: char, rest: string)
    requires rest == "" || LetterValue(rest[0]) <= LetterValue(c)
    ensures Sum([c] + rest) == LetterValue(c) + Sum(rest)
  {
    assert ([c] + rest)[1..] == rest;
  }

  lemma SumTwo(c: char, d: char, rest: string)
    requires LetterValue(c) < LetterValue(d) && (rest == "" || LetterValue(rest[0]) <= LetterValue(d))
    ensures Sum([c, d] + rest) == LetterValue(d) - LetterValue(c) + Sum(rest)
  {
    assert ([c, d] + rest)[1..] == [d] + rest;
    SumOne(d, rest);
  }

  /** Reading back what was written, from any row of the table. */
  lemma {:induction false} SumOfRoman(n: int, k: nat)
    requires k <= |TABLE| && n >= 0
    ensures k < |TABLE| ==> Sum(RomanFrom(n, k)) == n
    decreases |TABLE| - k, n
  {
    if k < |TABLE| {
      if n >= TABLE[k].0 {
        var symbol, rest := TABLE[k].1, RomanFrom(n - TABLE[k].0, k);
        SumOfRoman(n - TABLE[k].0, k);
        StartsLow(n - TABLE[k].0, k);
        if |symbol| == 1 { assert symbol == [symbol[0]]; SumOne(symbol[0], rest); }
        else { assert symbol == [symbol[0], symbol[1]]; SumTwo(symbol[0], symbol[1], rest); }
      } else {
        SumOfRoman(n, k + 1);
      }
    }
  }

  /** romanToInt inverts intToRoman on every positive number. */
  lemma RomanRoundTrip(n: int)
    requires n >= 1
    ensures ValueOf(Roman(n)) == Some(n)
  {
    SumOfRoman(n, 0);
    StartsLow(n, 0);
    assert Roman(n) != "";
  }

  /** A string is accepted exactly when it is the numeral of a positive number, and of one only. */
  lemma AcceptedIsCanonical(s: string, n: int)
    ensures ValueOf(s) == Some(n) <==> n >= 1 && s == Roman(n)
  {
    if ValueOf(s) == Some(n) {
      if n < 1 { NothingBelowOne(n, 0); }
    } else if n >= 1 {
      RomanRoundTrip(n);
    }
  }

  lemma {:induction false} NothingBelowOne(n: int, k: nat)
    requires n < 1 && k <= |TABLE|
    ensures RomanFrom(n, k) == ""
    decreases |TABLE| - k
  {
    if k < |TABLE| { NothingBelowOne(n, k + 1); }
  }

  // ---------- digit by digit ----------

  function Repeated(s: string, n: nat): string { if n == 0 then "" else s + Repeated(s, n - 1) }

  /** A decimal digit in the letters for one, five and ten. */
  function DigitNumeral(d: nat, one: string, five: string, ten: string): string
    requires d < 10
  {
    if d == 9 then one + ten
    else if d >= 5 then five + Repeated(one, d - 5)
    else if d == 4 then one + five
    else Repeated(one, d)
  }

  /** Rows k to k + 3 of the table write the digit of unit u. */
  predicate WritesDigit(k: nat, u: nat, one: string, five: string, ten: string) {
    && k + 4 <= |TABLE| && u > 0
    && TABLE[k] == (9 * u, one + ten) && TABLE[k + 1] == (5 * u, five) && TABLE[k + 2] == (4 * u, one + five) && TABLE[k + 3] == (u, one)
  }

  lemma Skips(n: int, k: nat)
    requires k < |TABLE| && n < TABLE[k].0
    ensures RomanFrom(n, k) == RomanFrom(n, k + 1)
  {
  }

  lemma {:induction false} WritesOnes(n: nat, k: nat, u: nat, one: string, m: nat, rest: nat)
    requires k < |TABLE| && u > 0 && TABLE[k] == (u, one) && n == m * u + rest && rest < u
    ensures RomanFrom(n, k) == Repeated(one, m) + RomanFrom(rest, k + 1)
    decreases m
  {
    if m > 0 {
      assert n - u == (m - 1) * u + rest && n >= u;
      WritesOnes(n - u, k, u, one, m - 1, rest);
      assert one + (Repeated(one, m - 1) + RomanFrom(rest, k + 1)) == (one + Repeated(one, m - 1)) + RomanFrom(rest, k + 1);
    } else {
      assert n == rest;
    }
  }

  lemma WritesNine(k: nat, u: nat, rest: nat, one: string, five: string, ten: string)
    requires WritesDigit(k, u, one, five, ten) && rest < u
    ensures RomanFrom(9 * u + rest, k) == one + ten + RomanFrom(rest, k + 4)
  {
    Skips(rest, k);
    Skips(rest, k + 1);
    Skips(rest, k + 2);
    Skips(rest, k + 3);
  }

  lemma WritesFive(k: nat, u: nat, d: nat, rest: nat, one: string, five: string, ten: string)
    requires WritesDigit(k, u, one, five, ten) && 5 <= d < 9 && rest < u
    ensures RomanFrom(d * u + rest, k) == five + Repeated(one, d - 5) + RomanFrom(rest, k + 4)
  {
    var n := d * u + rest;
    assert 5 * u <= d * u <= 8 * u && n - 5 * u == (d - 5) * u + rest && (d - 5) * u <= 3 * u;
    Skips(n, k);
    Skips(n - 5 * u, k + 1);
    Skips(n - 5 * u, k + 2);
    WritesOnes(n - 5 * u, k + 3, u, one, d - 5, rest);
    assert five + (Repeated(one, d - 5) + RomanFrom(rest, k + 4)) == (five + Repeated(one, d - 5)) + RomanFrom(rest, k + 4);
  }

  lemma WritesFour(k: nat, u: nat, rest: nat, one: string, five: string, ten: string)
    requires WritesDigit(k, u, one, five, ten) && rest < u
    ensures RomanFrom(4 * u + rest, k) == one + five + RomanFrom(rest, k + 4)
  {
    Skips(4 * u + rest, k);
    Skips(4 * u + rest, k + 1);
    Skips(rest, k + 2);
    Skips(rest, k + 3);
  }

  lemma WritesFew(k: nat, u: nat, d: nat, rest: nat, one: string, five: string, ten: string)
    requires WritesDigit(k, u, one, five, ten) && d < 4 && rest < u
    ensures RomanFrom(d * u + rest, k) == Repeated(one, d) + RomanFrom(rest, k + 4)
  {
    var n := d * u + rest;
    assert d * u <= 3 * u;
    Skips(n, k);
    Skips(n, k + 1);
    Skips(n, k + 2);
    WritesOnes(n, k + 3, u, one, d, rest);
  }

  lemma WritesOneDigit(n: nat, k: nat, u: nat, d: nat, rest: nat, one: string, five: string, ten: string)
    requires WritesDigit(k, u, one, five, ten) && d < 10 && rest < u && n == d * u + rest
    ensures RomanFrom(n, k) == DigitNumeral(d, one, five, ten) + RomanFrom(rest, k + 4)
  {
    if d == 9 { WritesNine(k, u, rest, one, five, ten); }
    else if d >= 5 { WritesFive(k, u, d, rest, one, five, ten); }
    else if d == 4 { WritesFour(k, u, rest, one, five, ten); }
    else { WritesFew(k, u, d, rest, one, five, ten); }
  }

  lemma RowsWriteDigits()
    ensures WritesDigit(1, 100, "C", "D", "M") && WritesDigit(5, 10, "X", "L", "C") && WritesDigit(9, 1, "I", "V", "X")
  {
    assert "C" + "M" == "CM" && "C" + "D" == "CD" && "X" + "C" == "XC" && "X" + "L" == "XL" && "I" + "X" == "IX" && "I" + "V" == "IV";
  }

  /** The numeral of a number is one M per thousand, and then the numerals of its hundreds, tens and ones. */
  lemma RomanIsByDigits(n: nat)
    ensures Roman(n) == Repeated("M", n / 1000)
      + (DigitNumeral(n / 100 % 10, "C", "D", "M") + (DigitNumeral(n / 10 % 10, "X", "L", "C") + DigitNumeral(n % 10, "I", "V", "X")))
  {
    DecimalDigits(n);
    WritesOnes(n, 0, 1000, "M", n / 1000, n % 1000);
    HundredsTensOnes(n % 1000, n / 100 % 10, n / 10 % 10, n % 10);
  }

  lemma DecimalDigits(n: nat)
    ensures n == n / 1000 * 1000 + n % 1000 && n % 1000 == 100 * (n / 100 % 10) + 10 * (n / 10 % 10) + n % 10
  {
    var tens, hundreds := n / 10, n / 100;
    assert n == 10 * tens + n % 10 && tens == 10 * hundreds + tens % 10 && hundreds == 10 * (n / 1000) + hundreds % 10;
  }

  lemma HundredsTensOnes(n: nat, h: nat, d: nat, o: nat)
    requires h < 10 && d < 10 && o < 10 && n == 100 * h + 10 * d + o
    ensures RomanFrom(n, 1) == DigitNumeral(h, "C", "D", "M") + (DigitNumeral(d, "X", "L", "C") + DigitNumeral(o, "I", "V", "X"))
  {
    RowsWriteDigits();
    WritesOneDigit(n, 1, 100, h, 10 * d + o, "C", "D", "M");
    WritesOneDigit(10 * d + o, 5, 10, d, o, "X", "L", "C");
    WritesOneDigit(o, 9, 1, o, 0, "I", "V", "X");
    assert RomanFrom(0, 13) == "";
  }
}
