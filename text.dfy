/** String helpers the request builder relies on: joining with a separator and
  * Java's `String.valueOf(int)`. */
module Text {

  /** The parts separated by `sep`: `Join(["a", "b", "c"], "&") == "a&b&c"`. */
  function Join(parts: seq<string>, sep: string): string
  {
    if |parts| == 0 then ""
    else if |parts| == 1 then parts[0]
    else Join(parts[..|parts| - 1], sep) + sep + parts[|parts| - 1]
  }

  /** Appending one more part adds the separator and the part at the end. */
  lemma JoinSnoc(parts: seq<string>, last: string, sep: string)
    requires |parts| > 0
    ensures Join(parts + [last], sep) == Join(parts, sep) + sep + last
  {
    assert (parts + [last])[..|parts|] == parts;
  }

  /** Putting one more part in front adds the part and the separator at the start. */
  lemma {:induction false} JoinCons(first: string, parts: seq<string>, sep: string)
    requires |parts| > 0
    ensures Join([first] + parts, sep) == first + sep + Join(parts, sep)
  {
    if |parts| == 1 {
      assert [first] + parts == [first, parts[0]];
      assert [first, parts[0]][..1] == [first];
    } else {
      var init := parts[..|parts| - 1];
      var last := parts[|parts| - 1];
      assert parts == init + [last];
      assert [first] + parts == ([first] + init) + [last];
      JoinSnoc([first] + init, last, sep);
      JoinCons(first, init, sep);
      JoinSnoc(init, last, sep);
    }
  }

  /** The decimal digit character for 0..9. */
  function DigitChar(d: nat): char
    requires d < 10
  {
    "0123456789"[d]
  }

  /** The value of a decimal digit character. */
  function DigitValue(c: char): nat
  {
    if '0' <= c <= '9' then (c as int - '0' as int) else 0
  }

  predicate IsDigit(c: char)
  {
    '0' <= c <= '9'
  }

  /** The decimal digits of `n`, most significant first, without leading zeros. */
  function Digits(n: nat): string
  {
    if n < 10 then [DigitChar(n)] else Digits(n / 10) + [DigitChar(n % 10)]
  }

  /** Java's `String.valueOf(int)`: a `-` for negative numbers, then the digits. */
  function DecimalString(n: int): string
  {
    if n < 0 then "-" + Digits(-n) else Digits(n)
  }

  /** The number a string of decimal digits denotes. */
  function DigitsValue(s: string): nat
  {
    if |s| == 0 then 0 else DigitsValue(s[..|s| - 1]) * 10 + DigitValue(s[|s| - 1])
  }

  /** Reads back a decimal string: an optional `-`, then digits. */
  function ParseDecimal(s: string): int
  {
    if |s| > 0 && s[0] == '-' then -(DigitsValue(s[1..]) as int) else DigitsValue(s)
  }

  /** `Digits` writes only digit characters, with no leading zero, and reads back as `n`. */
  lemma {:induction false} DigitsRoundTrip(n: nat)
    ensures |Digits(n)| > 0
    ensures forall i :: 0 <= i < |Digits(n)| ==> IsDigit(Digits(n)[i])
    ensures Digits(n)[0] == '0' ==> n == 0
    ensures DigitsValue(Digits(n)) == n
  {
    if n >= 10 {
      DigitsRoundTrip(n / 10);
      var s := Digits(n / 10) + [DigitChar(n % 10)];
      assert s[..|s| - 1] == Digits(n / 10);
    }
  }

  /** `String.valueOf(int)` produces a string that reads back as the same number,
    * made of an optional leading `-` and decimal digits. */
  lemma DecimalRoundTrip(n: int)
    ensures ParseDecimal(DecimalString(n)) == n
    ensures |DecimalString(n)| > 0
    ensures forall i :: 0 <= i < |DecimalString(n)| ==>
              IsDigit(DecimalString(n)[i]) || (i == 0 && n < 0 && DecimalString(n)[i] == '-')
  {
    var s := DecimalString(n);
    var d := Digits(if n < 0 then -n else n);
    DigitsRoundTrip(if n < 0 then -n else n);
    if n < 0 {
      assert s == "-" + d && s[1..] == d;
    } else {
      assert s == d && IsDigit(s[0]);
    }
    forall i | 0 <= i < |s|
      ensures IsDigit(s[i]) || (i == 0 && n < 0 && s[i] == '-')
    {
      if n < 0 && i > 0 {
        assert s[i] == d[i - 1];
      }
    }
  }
}
