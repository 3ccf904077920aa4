/** Numerals and splitting, as the scripts' string methods do them. */
module Text {

  /** What Unicode says of a character: a decimal digit with its value, a digit of another kind
      (a superscript, say), or no digit. */
  datatype DigitKind = Decimal(value: nat) | OtherDigit | NoDigit

  type Digits = char -> DigitKind

  const ASCII: Digits := c => if '0' <= c <= '9' then Decimal(c as int - '0' as int) else NoDigit

  /** `int` refuses longer numerals. */
  const MAX_DIGITS := 4300

  function DigitOf(d: nat): char
    requires d < 10
  {
    ('0' as int + d) as char
  }

  /** The ten ASCII digits are decimal digits, whatever else is. */
  ghost predicate ExtendsAscii(digits: Digits) {
    forall d :: 0 <= d < 10 ==> digits(DigitOf(d)) == Decimal(d)
  }

  predicate AllDecimal(digits: Digits, s: string) {
    forall i :: 0 <= i < |s| ==> digits(s[i]).Decimal?
  }

  function ToNat(digits: Digits, s: string): nat
    requires AllDecimal(digits, s)
  {
    if s == "" then 0 else ToNat(digits, s[..|s| - 1]) * 10 + digits(s[|s| - 1]).value
  }

  datatype Numeral = NotDigits | Unconvertible | Number(n: nat)

  /** `int(s)` guarded by `s.isdigit()`. The guard lets through more than the conversion takes. */
  function ReadNumeral(digits: Digits, s: string): Numeral {
    if s == "" || exists i :: 0 <= i < |s| && digits(s[i]).NoDigit? then NotDigits
    else if AllDecimal(digits, s) && |s| <= MAX_DIGITS then Number(ToNat(digits, s))
    else Unconvertible
  }

  predicate IsAsciiDigit(c: char) {
    '0' <= c <= '9'
  }

  /** `str(n)`. */
  function OfNat(n: nat): (s: string)
    ensures s != "" && forall i :: 0 <= i < |s| ==> IsAsciiDigit(s[i])
  {
    if n < 10 then [DigitOf(n)] else OfNat(n / 10) + [DigitOf(n % 10)]
  }

  lemma {:induction false} NumeralRoundTrip(digits: Digits, n: nat)
    requires ExtendsAscii(digits)
    ensures AllDecimal(digits, OfNat(n)) && ToNat(digits, OfNat(n)) == n
  {
    if n >= 10 {
      NumeralRoundTrip(digits, n / 10);
      assert OfNat(n)[..|OfNat(n)| - 1] == OfNat(n / 10);
      assert digits(DigitOf(n % 10)) == Decimal(n % 10);
    } else {
      assert digits(DigitOf(n)) == Decimal(n);
      assert OfNat(n)[..0] == "";
    }
  }

  /** `s.split(sep)`: always at least one piece. */
  function Split(s: string, sep: char): (pieces: seq<string>)
    ensures |pieces| > 0
  {
    if s == "" then [""]
    else if s[0] == sep then [""] + Split(s[1..], sep)
    else
      var rest := Split(s[1..], sep);
      [[s[0]] + rest[0]] + rest[1..]
  }

  lemma {:induction false} SplitPiece(piece: string, rest: string, sep: char)
    requires sep !in piece
    ensures Split(piece + [sep] + rest, sep) == [piece] + Split(rest, sep)
    ensures Split(piece, sep) == [piece]
  {
    if piece == "" {
      assert ("" + [sep] + rest)[1..] == rest;
    } else {
      SplitPiece(piece[1..], rest, sep);
      assert (piece + [sep] + rest)[1..] == piece[1..] + [sep] + rest;
      assert [piece[0]] + piece[1..] == piece;
    }
  }
}
