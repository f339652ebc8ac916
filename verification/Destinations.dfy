/** Where a withdrawal is paid to: the client's own account number. */
module Destinations {
  import opened Basics
  import opened Text

  const SEPARATORS: set<char> := {
    ' ', '\t', '-', '\U{2013}', '\U{2014}', '_', '.', '\U{060C}', ',', '/', '\\', '|',
    '(', ')', '[', ']', '\U{00A0}', '\U{2009}', '\U{202F}', '\U{2007}', '\U{200E}',
    '\U{200F}', '\U{061C}', '\U{2066}', '\U{2067}', '\U{2068}', '\U{2069}', '\U{066C}'
  }

  /** The configured length band, counted in digits. */
  datatype Band = Band(minimum: nat, maximum: nat)

  datatype DestinationError =
    DestinationMissing | DestinationInvalid | DestinationTooShort | DestinationTooLong

  /** The further fact about Unicode this module relies on. */
  ghost predicate DigitTable(u: Unicode) {
    Sane(u) && forall c :: c in SEPARATORS ==> u.digit(c).None?
  }

  // --------------------------------------------------------------- normalise --

  /** The digits of `text` as ASCII, or None when something is neither digit nor separator. */
  function Scan(u: Unicode, text: string): Option<string> {
    if text == [] then Some([])
    else
      match Scan(u, text[..|text| - 1])
      case None => None
      case Some(before) =>
        var c := text[|text| - 1];
        if c in SEPARATORS then Some(before)
        else
          match u.digit(c)
          case None => None
          case Some(d) => Some(before + [DigitChar(d)])
  }

  function InBand(band: Band, number: string): Result<string, DestinationError> {
    if |number| < band.minimum then Refused(DestinationTooShort)
    else if |number| > band.maximum then Refused(DestinationTooLong)
    else Ok(number)
  }

  function Normalised(u: Unicode, band: Band, raw: string): Result<string, DestinationError> {
    var text := Strip(u, raw);
    if text == [] then Refused(DestinationMissing)
    else
      match Scan(u, text)
      case None => Refused(DestinationInvalid)
      case Some(number) => InBand(band, number)
  }

  lemma {:induction false} ScanStopsAtFirst(u: Unicode, text: string, i: nat)
    requires i <= |text| && Scan(u, text[..i]).None?
    ensures Scan(u, text).None?
    decreases |text| - i
  {
    if i < |text| {
      assert text[..i + 1][..i] == text[..i];
      ScanStopsAtFirst(u, text, i + 1);
    } else {
      assert text[..i] == text;
    }
  }

  /** `normalise`: collects digits and stops at the first character that is neither. */
  method Normalise(u: Unicode, band: Band, raw: string) returns (r: Result<string, DestinationError>)
    ensures r == Normalised(u, band, raw)
  {
    var text := Strip(u, raw);
    if text == [] {
      return Refused(DestinationMissing);
    }
    var digits := [];
    for i := 0 to |text|
      invariant Scan(u, text[..i]) == Some(digits)
    {
      assert text[..i + 1][..i] == text[..i];
      var c := text[i];
      if c !in SEPARATORS {
        match u.digit(c)
        case None =>
          ScanStopsAtFirst(u, text, i + 1);
          return Refused(DestinationInvalid);
        case Some(d) =>
          digits := digits + [DigitChar(d)];
      }
    }
    assert text[..|text|] == text;
    if |digits| < band.minimum {
      return Refused(DestinationTooShort);
    }
    if |digits| > band.maximum {
      return Refused(DestinationTooLong);
    }
    return Ok(digits);
  }

  // ----------------------------------------------------------------- grouped --

  /** `grouped`: the digits in reading groups of `size`. */
  function Grouped(number: string, size: nat): string
    requires size >= 1
  {
    if |number| <= size then number else number[..size] + " " + Grouped(number[size..], size)
  }

  lemma {:induction false} ScanAppend(u: Unicode, a: string, b: string)
    requires Scan(u, a).Some? && Scan(u, b).Some?
    ensures Scan(u, a + b) == Some(Scan(u, a).value + Scan(u, b).value)
  {
    if b == [] {
      assert a + b == a;
      assert Scan(u, a).value + [] == Scan(u, a).value;
    } else {
      var c := b[|b| - 1];
      assert (a + b)[..|a + b| - 1] == a + b[..|b| - 1] && (a + b)[|a + b| - 1] == c;
      ScanAppend(u, a, b[..|b| - 1]);
      var x, y := Scan(u, a).value, Scan(u, b[..|b| - 1]).value;
      if c !in SEPARATORS {
        var d := DigitChar(u.digit(c).value);
        assert (x + y) + [d] == x + (y + [d]);
      }
    }
  }

  lemma {:induction false} ScanDigits(u: Unicode, s: string)
    requires DigitTable(u) && AllDigits(s)
    ensures Scan(u, s) == Some(s)
  {
    if s != [] {
      ScanDigits(u, s[..|s| - 1]);
      assert s == s[..|s| - 1] + [s[|s| - 1]];
    }
  }

  lemma {:induction false} ScanGrouped(u: Unicode, number: string, size: nat)
    requires DigitTable(u) && AllDigits(number) && size >= 1
    ensures Scan(u, Grouped(number, size)) == Some(number)
    ensures number != [] ==> Grouped(number, size) != []
    ensures number != [] ==> IsAsciiDigit(Grouped(number, size)[0])
    ensures number != [] ==> IsAsciiDigit(Grouped(number, size)[|Grouped(number, size)| - 1])
    decreases |number|
  {
    if |number| <= size {
      ScanDigits(u, number);
    } else {
      ScanDigits(u, number[..size]);
      ScanGrouped(u, number[size..], size);
      assert " "[..0] == [];
      assert Scan(u, " ") == Some([]);
      ScanAppend(u, number[..size], " ");
      ScanAppend(u, number[..size] + " ", Grouped(number[size..], size));
      assert number[..size] + [] + number[size..] == number;
    }
  }

  /** The number shown back in groups, typed again, is the number that was stored. */
  lemma GroupedRoundTrip(u: Unicode, band: Band, number: string, size: nat)
    requires DigitTable(u) && AllDigits(number) && size >= 1
    requires 1 <= band.minimum <= |number| <= band.maximum
    ensures Normalised(u, band, Grouped(number, size)) == Ok(number)
  {
    ScanGrouped(u, number, size);
    StripNothing(u, Grouped(number, size));
  }

  // ---------------------------------------------------------- same account --

  /** The digit values of `text` in order, whatever script and separators were used. */
  function DigitValues(u: Unicode, text: string): seq<Digit> {
    if text == [] then []
    else
      DigitValues(u, text[..|text| - 1])
      + (match u.digit(text[|text| - 1]) case Some(d) => [d] case None => [])
  }

  function Printed(values: seq<Digit>): string {
    seq(|values|, i requires 0 <= i < |values| => DigitChar(values[i]))
  }

  lemma {:induction false} ScanIsPrinted(u: Unicode, text: string)
    requires DigitTable(u) && Scan(u, text).Some?
    ensures Scan(u, text).value == Printed(DigitValues(u, text))
  {
    if text != [] {
      ScanIsPrinted(u, text[..|text| - 1]);
    }
  }

  lemma PrintedInjective(a: seq<Digit>, b: seq<Digit>)
    requires Printed(a) == Printed(b)
    ensures a == b
  {
    assert |Printed(a)| == |a| && |Printed(b)| == |b|;
    forall i | 0 <= i < |a|
      ensures a[i] == b[i]
    {
      assert Printed(a)[i] == DigitChar(a[i]) && Printed(b)[i] == DigitChar(b[i]);
    }
  }

  /** Stripping never removes a digit. */
  lemma {:induction false} StripKeepsDigits(u: Unicode, s: string)
    requires Sane(u)
    ensures DigitValues(u, Strip(u, s)) == DigitValues(u, s)
    decreases |s|
  {
    if s == [] {
    } else if u.space(s[0]) {
      StripKeepsDigits(u, s[1..]);
      DigitValuesAppend(u, [s[0]], s[1..]);
      assert s == [s[0]] + s[1..];
      assert DigitValues(u, [s[0]]) == DigitValues(u, [s[0]][..0]) + [];
    } else if u.space(s[|s| - 1]) {
      StripKeepsDigits(u, s[..|s| - 1]);
    }
  }

  lemma {:induction false} DigitValuesAppend(u: Unicode, a: string, b: string)
    ensures DigitValues(u, a + b) == DigitValues(u, a) + DigitValues(u, b)
  {
    if b == [] {
      assert a + b == a;
    } else {
      assert (a + b)[..|a + b| - 1] == a + b[..|b| - 1];
      DigitValuesAppend(u, a, b[..|b| - 1]);
    }
  }

  /** Two accepted destinations are stored as one string exactly when they are
      the same account: the same digits in the same order. */
  lemma SameAccountIff(u: Unicode, band: Band, a: string, b: string)
    requires DigitTable(u)
    requires Normalised(u, band, a).Ok? && Normalised(u, band, b).Ok?
    ensures Normalised(u, band, a) == Normalised(u, band, b) <==> DigitValues(u, a) == DigitValues(u, b)
  {
    ScanIsPrinted(u, Strip(u, a));
    ScanIsPrinted(u, Strip(u, b));
    StripKeepsDigits(u, a);
    StripKeepsDigits(u, b);
    if Normalised(u, band, a) == Normalised(u, band, b) {
      PrintedInjective(DigitValues(u, a), DigitValues(u, b));
    }
  }

  /** What is stored is digits and nothing else, within the band. */
  lemma StoredIsDigits(u: Unicode, band: Band, raw: string)
    requires DigitTable(u) && Normalised(u, band, raw).Ok?
    ensures AllDigits(Normalised(u, band, raw).value)
    ensures band.minimum <= |Normalised(u, band, raw).value| <= band.maximum
  {
    ScanIsPrinted(u, Strip(u, raw));
  }
}
