/** Decimal numerals as fmt prints them and as fmt.Sscanf reads them. */
module Decimal {
  import opened Wrappers
  import Text

  const DIGITS := "0123456789"

  predicate IsDigit(c: char) {
    '0' <= c <= '9'
  }

  function DigitChar(d: nat): char
    requires d < 10
  {
    DIGITS[d]
  }

  function DigitValue(c: char): nat
    requires IsDigit(c)
  {
    (c - '0') as nat
  }

  /** %d of a non-negative number. */
  function Print(n: nat): (s: string)
    ensures s != "" && forall i :: 0 <= i < |s| ==> IsDigit(s[i])
  {
    if n < 10 then [DigitChar(n)] else Print(n / 10) + [DigitChar(n % 10)]
  }

  function Value(s: string): nat
    requires forall i :: 0 <= i < |s| ==> IsDigit(s[i])
  {
    if s == "" then 0 else 10 * Value(s[..|s| - 1]) + DigitValue(s[|s| - 1])
  }

  lemma DigitRoundTrip(d: nat)
    requires d < 10
    ensures IsDigit(DigitChar(d)) && DigitValue(DigitChar(d)) == d
  {
    assert DIGITS[0] == '0' && DIGITS[1] == '1' && DIGITS[2] == '2' && DIGITS[3] == '3' && DIGITS[4] == '4';
    assert DIGITS[5] == '5' && DIGITS[6] == '6' && DIGITS[7] == '7' && DIGITS[8] == '8' && DIGITS[9] == '9';
  }

  lemma {:induction false} ValueOfPrint(n: nat)
    ensures Value(Print(n)) == n
  {
    var s := Print(n);
    DigitRoundTrip(n % 10);
    if n < 10 {
      assert s[..|s| - 1] == "";
    } else {
      ValueOfPrint(n / 10);
      assert s[..|s| - 1] == Print(n / 10) && s[|s| - 1] == DigitChar(n % 10);
    }
  }

  // ----- scanning -----

  /** The longest run of digits at the front. */
  function DigitRun(s: string): (n: nat)
    ensures n <= |s| && forall i :: 0 <= i < n ==> IsDigit(s[i])
    ensures n < |s| ==> !IsDigit(s[n])
  {
    if s != "" && IsDigit(s[0]) then 1 + DigitRun(s[1..]) else 0
  }

  /** What a scan leaves: the value read and the unread rest, or an error. */
  datatype Scan = Scanned(value: int, rest: string) | ScanError

  const INT_LIMIT: int := 0x8000_0000_0000_0000

  function SkipSpaces(s: string): string {
    if s != "" && s[0] != '\n' && Text.GoSpace(s[0]) then SkipSpaces(s[1..]) else s
  }

  /** At least one digit, and a value within 64 bits. */
  function ScanDigits(body: string, negative: bool): Scan {
    var n := DigitRun(body);
    if n == 0 then ScanError
    else
      var magnitude: int := Value(body[..n]);
      var value := if negative then -magnitude else magnitude;
      if -INT_LIMIT <= value < INT_LIMIT then Scanned(value, body[n..]) else ScanError
  }

  /** One optional sign before the digits. */
  function ScanSigned(t: string): Scan {
    if t != "" && t[0] in {'+', '-'} then ScanDigits(t[1..], t[0] == '-') else ScanDigits(t, false)
  }

  /** Sscanf's %d into an int: leading spaces but no newline, then the signed digits. */
  function ScanInt(s: string): Scan {
    ScanSigned(SkipSpaces(s))
  }

  /** A literal of the format must be matched by the same characters of the input. */
  function ScanLiteral(s: string, literal: string): Option<string> {
    if literal <= s then Some(s[|literal|..]) else None
  }

  lemma {:induction false} DigitRunOf(digits: string, rest: string)
    requires forall i :: 0 <= i < |digits| ==> IsDigit(digits[i])
    requires rest == "" || !IsDigit(rest[0])
    ensures DigitRun(digits + rest) == |digits|
  {
    if digits == "" {
      assert digits + rest == rest;
    } else {
      assert (digits + rest)[1..] == digits[1..] + rest;
      DigitRunOf(digits[1..], rest);
    }
  }

  /** Scanning a printed number followed by a non-digit reads exactly the number. */
  lemma ScanOfPrint(n: nat, rest: string)
    requires n < INT_LIMIT && (rest == "" || !IsDigit(rest[0]))
    ensures ScanInt(Print(n) + rest) == Scanned(n, rest)
  {
    var s := Print(n) + rest;
    assert IsDigit(s[0]) && SkipSpaces(s) == s;
    DigitRunOf(Print(n), rest);
    ValueOfPrint(n);
    assert s[..|Print(n)|] == Print(n) && s[|Print(n)|..] == rest;
  }

  // ----- exactly what a scan accepts -----

  predicate AllDigits(s: string) {
    forall i :: 0 <= i < |s| ==> IsDigit(s[i])
  }

  /** Spaces other than a newline. */
  predicate Padding(s: string) {
    forall i :: 0 <= i < |s| ==> s[i] != '\n' && Text.GoSpace(s[i])
  }

  /** The input is padding, an optional sign, at least one digit, and a rest that does not go on with a digit. */
  ghost predicate ReadsAs(s: string, pad: string, sign: string, digits: string, rest: string) {
    && s == pad + (sign + (digits + rest)) && Padding(pad) && sign in {"", "+", "-"}
    && digits != "" && AllDigits(digits) && (rest != "" ==> !IsDigit(rest[0]))
  }

  function Signed(sign: string, digits: string): int
    requires AllDigits(digits)
  {
    if sign == "-" then -(Value(digits) as int) else Value(digits)
  }

  lemma {:induction false} SkipOfPadding(pad: string, t: string)
    requires Padding(pad) && (t != "" ==> t[0] == '\n' || !Text.GoSpace(t[0]))
    ensures SkipSpaces(pad + t) == t
  {
    if pad == "" {
      assert pad + t == t;
    } else {
      assert (pad + t)[1..] == pad[1..] + t;
      SkipOfPadding(pad[1..], t);
    }
  }

  lemma {:induction false} SkippedIsPadding(s: string) returns (pad: string)
    ensures s == pad + SkipSpaces(s) && Padding(pad)
  {
    pad := "";
    if s != "" && s[0] != '\n' && Text.GoSpace(s[0]) {
      var more := SkippedIsPadding(s[1..]);
      pad := [s[0]] + more;
      assert s == [s[0]] + s[1..];
    }
  }

  lemma SignOrDigitIsNoSpace(c: char)
    requires IsDigit(c) || c in {'+', '-'}
    ensures !Text.GoSpace(c)
  {
  }

  lemma DigitsScan(digits: string, rest: string, negative: bool)
    requires digits != "" && AllDigits(digits) && (rest != "" ==> !IsDigit(rest[0]))
    ensures var v := if negative then -(Value(digits) as int) else Value(digits);
            ScanDigits(digits + rest, negative) == if -INT_LIMIT <= v < INT_LIMIT then Scanned(v, rest) else ScanError
  {
    DigitRunOf(digits, rest);
    assert (digits + rest)[..|digits|] == digits && (digits + rest)[|digits|..] == rest;
  }

  lemma SignedScan(sign: string, digits: string, rest: string)
    requires sign in {"", "+", "-"} && digits != "" && AllDigits(digits) && (rest != "" ==> !IsDigit(rest[0]))
    ensures ScanSigned(sign + (digits + rest)) == ScanDigits(digits + rest, sign == "-")
  {
    var t := sign + (digits + rest);
    if sign == "" {
      assert t == digits + rest && IsDigit(t[0]);
    } else {
      assert t[1..] == digits + rest && t[0] == sign[0];
    }
  }

  /** Such an input scans to the signed number, if that fits 64 bits. */
  lemma ReadInputScans(s: string, pad: string, sign: string, digits: string, rest: string)
    requires ReadsAs(s, pad, sign, digits, rest)
    ensures var v := Signed(sign, digits);
            ScanInt(s) == if -0x8000_0000_0000_0000 <= v < 0x8000_0000_0000_0000 then Scanned(v, rest) else ScanError
  {
    var t := sign + (digits + rest);
    assert s == pad + t;
    assert t[0] == if sign == "" then digits[0] else sign[0];
    SignOrDigitIsNoSpace(t[0]);
    SkipOfPadding(pad, t);
    SignedScan(sign, digits, rest);
    DigitsScan(digits, rest, sign == "-");
  }

  lemma ScannedDigits(body: string, negative: bool) returns (digits: string, rest: string)
    requires ScanDigits(body, negative).Scanned?
    ensures body == digits + rest && digits != "" && AllDigits(digits) && (rest != "" ==> !IsDigit(rest[0]))
  {
    var n := DigitRun(body);
    digits, rest := body[..n], body[n..];
  }

  lemma ScannedSigned(t: string) returns (sign: string, digits: string, rest: string)
    requires ScanSigned(t).Scanned?
    ensures t == sign + (digits + rest) && sign in {"", "+", "-"}
    ensures digits != "" && AllDigits(digits) && (rest != "" ==> !IsDigit(rest[0]))
  {
    if t != "" && t[0] in {'+', '-'} {
      sign := if t[0] == '+' then "+" else "-";
      digits, rest := ScannedDigits(t[1..], t[0] == '-');
      assert t == sign + t[1..];
    } else {
      sign := "";
      digits, rest := ScannedDigits(t, false);
    }
  }

  /** And whatever scans is such an input. */
  lemma ScannedInputReads(s: string) returns (pad: string, sign: string, digits: string, rest: string)
    requires ScanInt(s).Scanned?
    ensures ReadsAs(s, pad, sign, digits, rest)
  {
    pad := SkippedIsPadding(s);
    sign, digits, rest := ScannedSigned(SkipSpaces(s));
  }

  /** A scan gives a value and a rest exactly for the inputs that read so. */
  lemma ScanIntIff(s: string, v: int, rest: string)
    ensures ScanInt(s) == Scanned(v, rest) <==>
            && -0x8000_0000_0000_0000 <= v < 0x8000_0000_0000_0000
            && exists pad, sign, digits :: ReadsAs(s, pad, sign, digits, rest) && v == Signed(sign, digits)
  {
    if ScanInt(s) == Scanned(v, rest) {
      var pad, sign, digits, rest' := ScannedInputReads(s);
      ReadInputScans(s, pad, sign, digits, rest');
    }
    forall pad, sign, digits | ReadsAs(s, pad, sign, digits, rest)
      ensures ScanInt(s) == if -0x8000_0000_0000_0000 <= Signed(sign, digits) < 0x8000_0000_0000_0000
                            then Scanned(Signed(sign, digits), rest) else ScanError
    {
      ReadInputScans(s, pad, sign, digits, rest);
    }
  }
}
