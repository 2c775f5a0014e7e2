/** Decimal text of the duration formatters: `n.toString()` for a non-negative
    integer, `padStart(2, '0')`, and the inverse direction (reading the digits
    back and splitting a clock string at its colons) that the round-trip
    lemmas of both formatters are stated with. */
module DurationText {

  predicate IsDigit(c: char)
  {
    '0' <= c <= '9'
  }

  predicate AllDigits(s: string)
  {
    forall i :: 0 <= i < |s| ==> IsDigit(s[i])
  }

  function DigitChar(d: nat): (c: char)
    requires d < 10
    ensures IsDigit(c) && c as int - '0' as int == d
  {
    ('0' as int + d) as char
  }

  /** `n.toString()`: the shortest decimal numeral of `n`. */
  function ToDecimal(n: nat): (s: string)
    ensures 1 <= |s| && AllDigits(s)
    ensures |s| == 1 <==> n < 10
    ensures n >= 10 ==> s[0] != '0'
  {
    if n < 10 then [DigitChar(n)] else ToDecimal(n / 10) + [DigitChar(n % 10)]
  }

  /** `s.padStart(2, '0')`. */
  function PadStart2(s: string): string
  {
    if |s| == 0 then "00" else if |s| == 1 then "0" + s else s
  }

  /** One field of a formatted duration: `n.toString().padStart(2, '0')`. */
  function Field(n: nat): string
  {
    PadStart2(ToDecimal(n))
  }

  /** The number a string of decimal digits denotes (leading zeros allowed). */
  function Value(s: string): nat
    requires AllDigits(s)
  {
    if s == [] then 0 else Value(s[..|s| - 1]) * 10 + (s[|s| - 1] as int - '0' as int)
  }

  lemma {:induction false} ValueOfDecimal(n: nat)
    ensures Value(ToDecimal(n)) == n
  {
    if n >= 10 {
      ValueOfDecimal(n / 10);
      var s := ToDecimal(n);
      assert s[..|s| - 1] == ToDecimal(n / 10);
    }
  }

  lemma {:induction false} LeadingZero(s: string)
    requires AllDigits(s)
    ensures AllDigits("0" + s) && Value("0" + s) == Value(s)
  {
    if s != [] {
      var t := "0" + s;
      assert t[..|t| - 1] == "0" + s[..|s| - 1];
      LeadingZero(s[..|s| - 1]);
    }
  }

  /** A padded field reads back as the number it was made from; it has at
      least two digits, and exactly two when the number is below 100. */
  lemma FieldRoundTrip(n: nat)
    ensures AllDigits(Field(n)) && 2 <= |Field(n)|
    ensures |Field(n)| == 2 <==> n < 100
    ensures Value(Field(n)) == n
  {
    ValueOfDecimal(n);
    var d := ToDecimal(n);
    if |d| == 1 {
      LeadingZero(d);
    } else if n >= 100 {
      assert ToDecimal(n) == ToDecimal(n / 10) + [DigitChar(n % 10)];
      assert |ToDecimal(n / 10)| >= 2;
    }
  }

  lemma NoColonInDigits(s: string)
    requires AllDigits(s)
    ensures ':' !in s
  {
  }

  /** `s.split(':')`. */
  function SplitColons(s: string): (fields: seq<string>)
    ensures |fields| >= 1
  {
    if s == [] then [[]]
    else
      var rest := SplitColons(s[1..]);
      if s[0] == ':' then [[]] + rest else [[s[0]] + rest[0]] + rest[1..]
  }

  lemma {:induction false} SplitWithoutColon(a: string)
    requires ':' !in a
    ensures SplitColons(a) == [a]
  {
    if a != [] {
      SplitWithoutColon(a[1..]);
      assert [a[0]] + a[1..] == a;
    }
  }

  lemma {:induction false} SplitAtColon(a: string, b: string)
    requires ':' !in a
    ensures SplitColons(a + ":" + b) == [a] + SplitColons(b)
  {
    if a == [] {
      assert (a + ":" + b)[1..] == b;
    } else {
      SplitAtColon(a[1..], b);
      assert (a + ":" + b)[1..] == a[1..] + ":" + b;
      assert [a[0]] + a[1..] == a;
    }
  }
}
