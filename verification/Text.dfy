/** Strings as the portal reads them: stripping, digits, decimal numerals. */
module Text {
  import opened Basics

  type Digit = d: nat | d < 10

  /** What Python's `str` and `unicodedata` say about single characters.
      The model quantifies over every such table rather than copying Unicode's. */
  datatype Unicode = Unicode(
    digit: char -> Option<Digit>,  // unicodedata.digit
    decimal: char -> bool,         // may it be read by int()
    space: char -> bool,           // removed by str.strip()
    lower: char -> string)         // str.lower(), one character at a time

  predicate IsAsciiDigit(c: char) {
    '0' <= c <= '9'
  }

  function DigitOf(c: char): Digit
    requires IsAsciiDigit(c)
  {
    c as int - '0' as int
  }

  function DigitChar(d: Digit): char {
    ('0' as int + d) as char
  }

  /** The facts about Unicode the proofs rely on. */
  ghost predicate Sane(u: Unicode) {
    && (forall c :: u.digit(c).Some? ==> !u.space(c))
    && (forall c :: u.decimal(c) ==> u.digit(c).Some?)
    && (forall c :: IsAsciiDigit(c) ==> u.decimal(c) && u.digit(c) == Some(DigitOf(c)))
    && (forall c :: 'a' <= c <= 'z' || c == '_' ==> !u.space(c) && u.digit(c).None?)
    && (forall c :: u.space(c) ==> u.lower(c) == [c])
  }

  /** `str.strip()`. */
  function Strip(u: Unicode, s: string): string
    decreases |s|
  {
    if s == [] then []
    else if u.space(s[0]) then Strip(u, s[1..])
    else if u.space(s[|s| - 1]) then Strip(u, s[..|s| - 1])
    else s
  }

  predicate AllDigits(s: string) {
    forall i :: 0 <= i < |s| ==> IsAsciiDigit(s[i])
  }

  /** The number a run of ASCII digits denotes. */
  function DigitsValue(s: string): nat
    requires AllDigits(s)
  {
    if s == [] then 0 else 10 * DigitsValue(s[..|s| - 1]) + DigitOf(s[|s| - 1])
  }

  /** `str(n)` for a non-negative integer. */
  function NatToString(n: nat): string {
    (if n < 10 then [] else NatToString(n / 10)) + [DigitChar(n % 10)]
  }

  lemma DigitsValueSnoc(s: string, d: Digit)
    requires AllDigits(s)
    ensures AllDigits(s + [DigitChar(d)])
    ensures DigitsValue(s + [DigitChar(d)]) == 10 * DigitsValue(s) + d
  {
    var t := s + [DigitChar(d)];
    assert t[..|t| - 1] == s;
  }

  /** Printing an integer loses nothing: the printed digits denote it. */
  lemma {:induction false} NatToStringValue(n: nat)
    ensures NatToString(n) != []
    ensures AllDigits(NatToString(n))
    ensures DigitsValue(NatToString(n)) == n
  {
    var front := if n < 10 then [] else NatToString(n / 10);
    if n >= 10 {
      NatToStringValue(n / 10);
    }
    DigitsValueSnoc(front, n % 10);
    assert NatToString(n) == front + [DigitChar(n % 10)];
  }

  lemma NatToStringInjective(m: nat, n: nat)
    requires NatToString(m) == NatToString(n)
    ensures m == n
  {
    NatToStringValue(m);
    NatToStringValue(n);
  }

  /** How Python's `isdigit()` test followed by `int()` reads a string. */
  datatype Integer = NotDigits | Unreadable | Number(value: nat)

  /** `int(raw)`: every character must be a decimal, most significant first. */
  function DecimalsValue(u: Unicode, s: string): Option<nat> {
    if s == [] then Some(0)
    else
      match (DecimalsValue(u, s[..|s| - 1]), u.digit(s[|s| - 1]))
      case (Some(n), Some(d)) => if u.decimal(s[|s| - 1]) then Some(10 * n + d) else None
      case _ => None
  }

  /** `raw.isdigit()` admits characters, such as superscripts, that `int(raw)` then raises on. */
  function ReadInteger(u: Unicode, raw: string): Integer {
    if raw == [] || exists i :: 0 <= i < |raw| && u.digit(raw[i]).None? then NotDigits
    else
      match DecimalsValue(u, raw)
      case Some(n) => Number(n)
      case None => Unreadable
  }

  lemma {:induction false} DecimalsValueOfDigits(u: Unicode, s: string)
    requires Sane(u) && AllDigits(s)
    ensures DecimalsValue(u, s) == Some(DigitsValue(s))
  {
    if s != [] {
      assert AllDigits(s[..|s| - 1]);
      DecimalsValueOfDigits(u, s[..|s| - 1]);
    }
  }

  /** A printed primary key is read back as itself. */
  lemma ReadIntegerOfNat(u: Unicode, n: nat)
    requires Sane(u)
    ensures ReadInteger(u, NatToString(n)) == Number(n)
  {
    NatToStringValue(n);
    DecimalsValueOfDigits(u, NatToString(n));
  }

  /** A string with no space at either end is its own strip. */
  lemma StripNothing(u: Unicode, s: string)
    requires s != [] ==> !u.space(s[0]) && !u.space(s[|s| - 1])
    ensures Strip(u, s) == s
  {
  }

  lemma StripNat(u: Unicode, n: nat)
    requires Sane(u)
    ensures Strip(u, NatToString(n)) == NatToString(n)
  {
    NatToStringValue(n);
    var s := NatToString(n);
    assert IsAsciiDigit(s[0]) && IsAsciiDigit(s[|s| - 1]);
    StripNothing(u, s);
  }

  /** Spaces at either end are stripped, however many. */
  lemma {:induction false} StripSkips(u: Unicode, before: string, s: string, after: string)
    requires forall i :: 0 <= i < |before| ==> u.space(before[i])
    requires forall i :: 0 <= i < |after| ==> u.space(after[i])
    ensures Strip(u, before + s + after) == Strip(u, s)
    decreases |before| + |after| + |s|
  {
    var whole := before + s + after;
    if before != [] {
      assert whole[1..] == before[1..] + s + after;
      StripSkips(u, before[1..], s, after);
    } else if s != [] && u.space(s[0]) {
      assert whole[1..] == before + s[1..] + after;
      StripSkips(u, before, s[1..], after);
    } else if after != [] {
      var shorter := after[..|after| - 1];
      assert whole[..|whole| - 1] == before + s + shorter;
      StripSkips(u, before, s, shorter);
      if s == [] {
        assert whole == after && whole[1..] == before + s + after[1..];
        StripSkips(u, before, s, after[1..]);
      }
    } else {
      assert whole == s;
    }
  }
}
