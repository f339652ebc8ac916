/** Reading the dollar amount a client typed, in whatever script they typed it. */
module NumberEntry {
  import opened Basics
  import opened Text

  /** Characters that ride along with a typed figure and mean nothing. */
  const NOISE: set<char> := {
    '\U{066C}', ' ', '\U{00A0}', '\U{202F}', '\U{2009}', '\U{200E}', '\U{200F}',
    '\U{2066}', '\U{2067}', '\U{2068}', '\U{2069}', '\U{061C}', '_', ',', '\''
  }

  const DECIMAL_SEPARATORS: set<char> := {'.', '\U{066B}'}

  /** The further facts about Unicode this module relies on. */
  ghost predicate NumericTable(u: Unicode) {
    && Sane(u)
    && (forall c :: c in NOISE ==> u.digit(c).None?)
    && (forall c :: c in DECIMAL_SEPARATORS ==> u.digit(c).None? && !u.space(c))
  }

  // -------------------------------------------------------- normalise_number --

  function CleanChar(u: Unicode, c: char): string {
    if c in NOISE then []
    else if c in DECIMAL_SEPARATORS then ['.']
    else
      match u.digit(c)
      case Some(d) => [DigitChar(d)]
      case None => [c]
  }

  function Clean(u: Unicode, s: string): string {
    if s == [] then [] else CleanChar(u, s[0]) + Clean(u, s[1..])
  }

  function NormaliseNumber(u: Unicode, raw: string): string {
    Clean(u, Strip(u, raw))
  }

  /** `normalise_number`, character by character. */
  method Normalise(u: Unicode, raw: string) returns (out: string)
    ensures out == NormaliseNumber(u, raw)
  {
    var text := Strip(u, raw);
    out := [];
    var i := 0;
    while i < |text|
      invariant 0 <= i <= |text|
      invariant out + Clean(u, text[i..]) == Clean(u, text)
    {
      var c := text[i];
      assert text[i..][1..] == text[i + 1..];
      assert out + (CleanChar(u, c) + Clean(u, text[i + 1..])) == (out + CleanChar(u, c)) + Clean(u, text[i + 1..]);
      if c !in NOISE {
        if c in DECIMAL_SEPARATORS {
          out := out + ['.'];
        } else {
          match u.digit(c)
          case Some(d) => out := out + [DigitChar(d)];
          case None => out := out + [c];
        }
      }
      i := i + 1;
    }
  }

  /** One typed character standing for one canonical character. */
  predicate Glyph(u: Unicode, typed: char, canonical: char) {
    if canonical == '.' then typed in DECIMAL_SEPARATORS
    else IsAsciiDigit(canonical) && u.digit(typed) == Some(DigitOf(canonical))
  }

  /** `text` is `canonical` typed in any mix of digit scripts and separators,
      with any noise inserted anywhere. */
  predicate Renders(u: Unicode, text: string, canonical: string) {
    if text == [] then canonical == []
    else if text[0] in NOISE then Renders(u, text[1..], canonical)
    else canonical != [] && Glyph(u, text[0], canonical[0]) && Renders(u, text[1..], canonical[1..])
  }

  lemma {:induction false} CleanAppend(u: Unicode, a: string, b: string)
    ensures Clean(u, a + b) == Clean(u, a) + Clean(u, b)
  {
    if a == [] {
      assert a + b == b;
    } else {
      assert (a + b)[1..] == a[1..] + b;
      CleanAppend(u, a[1..], b);
    }
  }

  /** Stripping removes only noise from a rendering, so cleaning sees no difference. */
  lemma {:induction false} CleanIgnoresStrip(u: Unicode, s: string)
    requires forall i :: 0 <= i < |s| && u.space(s[i]) ==> s[i] in NOISE
    ensures Clean(u, Strip(u, s)) == Clean(u, s)
    decreases |s|
  {
    if s == [] {
    } else if u.space(s[0]) {
      CleanIgnoresStrip(u, s[1..]);
    } else if u.space(s[|s| - 1]) {
      var init := s[..|s| - 1];
      CleanIgnoresStrip(u, init);
      assert s == init + [s[|s| - 1]];
      CleanAppend(u, init, [s[|s| - 1]]);
    }
  }

  lemma {:induction false} RenderingCleans(u: Unicode, text: string, canonical: string)
    requires NumericTable(u) && Renders(u, text, canonical)
    ensures Clean(u, text) == canonical
    ensures forall i :: 0 <= i < |text| && u.space(text[i]) ==> text[i] in NOISE
  {
    if text != [] {
      if text[0] in NOISE {
        RenderingCleans(u, text[1..], canonical);
      } else {
        RenderingCleans(u, text[1..], canonical[1..]);
      }
    }
  }

  /** Every way of typing a figure normalises to the one canonical spelling. */
  lemma RenderingNormalises(u: Unicode, text: string, canonical: string)
    requires NumericTable(u) && Renders(u, text, canonical)
    ensures NormaliseNumber(u, text) == canonical
  {
    RenderingCleans(u, text, canonical);
    CleanIgnoresStrip(u, text);
  }

  // ----------------------------------------------------------------- Decimal --

  /** coefficient x 10^exponent, as `Decimal.as_tuple` reports it. */
  datatype Decimal = Decimal(negative: bool, coefficient: nat, exponent: int)

  /** Length of the run of digits at the front. */
  function DigitRun(s: string): (n: nat)
    ensures n <= |s| && AllDigits(s[..n])
  {
    if s == [] || !IsAsciiDigit(s[0]) then 0 else 1 + DigitRun(s[1..])
  }

  /** An exponent part: empty, or e, an optional sign, and at least one digit. */
  function ReadExponent(tail: string): Option<int> {
    if tail == [] then Some(0)
    else if tail[0] !in {'e', 'E'} then None
    else
      var signed := |tail| > 1 && tail[1] in {'+', '-'};
      var digits := if signed then tail[2..] else tail[1..];
      if digits == [] || !AllDigits(digits) then None
      else
        var magnitude: int := DigitsValue(digits);
        Some(if signed && tail[1] == '-' then -magnitude else magnitude)
  }

  /** A numeral cut at its sign, its point and its exponent. */
  datatype Numeral = Numeral(negative: bool, whole: string, frac: string, tail: string)

  function Cut(t: string): (n: Numeral)
    ensures AllDigits(n.whole) && AllDigits(n.frac)
  {
    var signed := t != [] && t[0] in {'+', '-'};
    var body := if signed then t[1..] else t;
    var whole := DigitRun(body);
    var pointed := whole < |body| && body[whole] == '.';
    var rest := if pointed then body[whole + 1..] else body[whole..];
    var frac := if pointed then DigitRun(rest) else 0;
    Numeral(signed && t[0] == '-', body[..whole], rest[..frac], rest[frac..])
  }

  /** The finite numerals `Decimal(text)` accepts; anything else is None. */
  function ReadDecimal(u: Unicode, text: string): Option<Decimal> {
    var n := Cut(Strip(u, text));
    if |n.whole| + |n.frac| == 0 then None
    else
      match ReadExponent(n.tail)
      case None => None
      case Some(e) => Some(Decimal(n.negative, DigitsValue(n.whole + n.frac), e - |n.frac|))
  }

  // -------------------------------------------------------- parse_amount_usd --

  datatype AmountError = AmountMissing | AmountInvalid | AmountPrecision | AmountBelowMin | AmountAboveMax

  /** A direction's floor and ceiling, in cents. */
  datatype Bounds = Bounds(minimum: nat, maximum: nat)

  function Pow10(n: nat): (p: nat)
    ensures p >= 1
  {
    if n == 0 then 1 else 10 * Pow10(n - 1)
  }

  function Within(bounds: Bounds, cents: int): Result<nat, AmountError> {
    if cents < bounds.minimum then Refused(AmountBelowMin)
    else if cents > bounds.maximum then Refused(AmountAboveMax)
    else Ok(cents)
  }

  /** The exact value of a numeral no finer than a cent. */
  function Cents(n: Decimal): int
    requires n.exponent >= -2
  {
    (if n.negative then -1 else 1) * n.coefficient * Pow10(n.exponent + 2)
  }

  function Decide(bounds: Bounds, n: Decimal): Result<nat, AmountError> {
    if n.exponent < -2 then Refused(AmountPrecision) else Within(bounds, Cents(n))
  }

  function ParseAmount(u: Unicode, bounds: Bounds, raw: string): Result<nat, AmountError> {
    var text := NormaliseNumber(u, raw);
    if text == [] then Refused(AmountMissing)
    else
      match ReadDecimal(u, text)
      case None => Refused(AmountInvalid)
      case Some(n) => Decide(bounds, n)
  }

  lemma {:induction false} DigitRunStops(digits: string, rest: string)
    requires AllDigits(digits)
    requires rest == [] || !IsAsciiDigit(rest[0])
    ensures DigitRun(digits + rest) == |digits|
  {
    if digits == [] {
      assert digits + rest == rest;
    } else {
      assert (digits + rest)[1..] == digits[1..] + rest;
      DigitRunStops(digits[1..], rest);
    }
  }

  /** The canonical spelling of a plain decimal: digits, then perhaps a point and digits. */
  function Plain(whole: string, point: bool, frac: string): string {
    whole + (if point then ['.'] + frac else [])
  }

  lemma CutPlain(whole: string, point: bool, frac: string)
    requires AllDigits(whole) && AllDigits(frac)
    requires !point ==> frac == []
    ensures Cut(Plain(whole, point, frac)) == Numeral(false, whole, frac, [])
  {
    var t := Plain(whole, point, frac);
    var tail := if point then ['.'] + frac else [];
    DigitRunStops(whole, tail);
    assert t == whole + tail && t[..|whole|] == whole && t[|whole|..] == tail;
    assert t != [] ==> IsAsciiDigit(t[0]) || t[0] == '.';
    if point {
      assert t[|whole|] == '.' && t[|whole| + 1..] == frac;
      DigitRunStops(frac, []);
      assert frac + [] == frac;
    }
  }

  lemma ReadCut(u: Unicode, text: string, whole: string, frac: string)
    requires AllDigits(whole) && AllDigits(frac) && |whole| + |frac| > 0
    requires Cut(Strip(u, text)) == Numeral(false, whole, frac, [])
    ensures AllDigits(whole + frac)
    ensures ReadDecimal(u, text) == Some(Decimal(false, DigitsValue(whole + frac), 0 - |frac|))
  {
  }

  lemma ReadPlain(u: Unicode, whole: string, point: bool, frac: string)
    requires Sane(u) && !u.space('.')
    requires AllDigits(whole) && AllDigits(frac) && whole + frac != []
    requires !point ==> frac == []
    ensures AllDigits(whole + frac)
    ensures ReadDecimal(u, Plain(whole, point, frac)) == Some(Decimal(false, DigitsValue(whole + frac), 0 - |frac|))
  {
    var t := Plain(whole, point, frac);
    assert Strip(u, t) == t by {
      assert forall i :: 0 <= i < |t| ==> IsAsciiDigit(t[i]) || t[i] == '.';
      assert !u.space(t[0]) && !u.space(t[|t| - 1]);
      StripNothing(u, t);
    }
    CutPlain(whole, point, frac);
    ReadCut(u, t, whole, frac);
  }

  /** Whatever was typed, an amount that is accepted lies within the bounds. */
  lemma AcceptedIsWithinBounds(u: Unicode, bounds: Bounds, raw: string)
    requires ParseAmount(u, bounds, raw).Ok?
    ensures bounds.minimum <= ParseAmount(u, bounds, raw).value <= bounds.maximum
  {
    hide NormaliseNumber, ReadDecimal, Cents;
  }

  /** What the parser decides about every plain decimal, however it was typed: more than
      two places is refused outright, anything else is its exact cents, refused under
      the floor, refused over the ceiling, and accepted as it is between them. */
  lemma ParsePlain(u: Unicode, bounds: Bounds, whole: string, point: bool, frac: string, text: string)
    requires NumericTable(u)
    requires AllDigits(whole) && AllDigits(frac) && whole + frac != []
    requires !point ==> frac == []
    requires Renders(u, text, Plain(whole, point, frac))
    ensures AllDigits(whole + frac)
    ensures ParseAmount(u, bounds, text)
      == if |frac| > 2 then Refused(AmountPrecision)
         else
           var cents := DigitsValue(whole + frac) * (if |frac| == 2 then 1 else if |frac| == 1 then 10 else 100);
           if cents < bounds.minimum then Refused(AmountBelowMin)
           else if cents > bounds.maximum then Refused(AmountAboveMax)
           else Ok(cents)
  {
    Pow10Is();
    hide Pow10, Clean, Renders, DigitsValue;
    var t := Plain(whole, point, frac);
    RenderingNormalises(u, text, t);
    ReadPlain(u, whole, point, frac);
    DecidePlain(bounds, DigitsValue(whole + frac), |frac|);
  }

  lemma Pow10Is()
    ensures Pow10(0) == 1 && Pow10(1) == 10 && Pow10(2) == 100
  {
  }

  lemma DecidePlain(bounds: Bounds, coefficient: nat, places: nat)
    ensures Decide(bounds, Decimal(false, coefficient, 0 - places))
      == if places > 2 then Refused(AmountPrecision) else Within(bounds, coefficient * Pow10(2 - places))
  {
  }

  // ---------------------------------------------------- signs and exponents --

  /** A sign, if any; digits; an exponent, if any: what else `Decimal` reads. */
  datatype Spelling = Spelling(sign: string, whole: string, point: bool, frac: string, exponent: string)

  predicate Numerical(s: Spelling) {
    && s.sign in {"", "+", "-"}
    && AllDigits(s.whole) && AllDigits(s.frac) && s.whole + s.frac != [] && (!s.point ==> s.frac == [])
    && (s.exponent == "" || (|s.exponent| >= 2 && s.exponent[0] in {'e', 'E'}
                             && (s.exponent[1] in {'+', '-'} ==> |s.exponent| >= 3)
                             && AllDigits(ExponentDigits(s))))
  }

  function ExponentDigits(s: Spelling): string {
    if |s.exponent| < 2 then ""
    else if s.exponent[1] in {'+', '-'} then s.exponent[2..]
    else s.exponent[1..]
  }

  function ExponentValue(s: Spelling): int
    requires Numerical(s)
  {
    var magnitude: int := DigitsValue(ExponentDigits(s));
    if s.exponent != "" && s.exponent[1] == '-' then -magnitude else magnitude
  }

  function Spelt(s: Spelling): string {
    s.sign + (Plain(s.whole, s.point, s.frac) + s.exponent)
  }

  /** The characters of a spelling are left alone by normalising. */
  ghost predicate NumeralTable(u: Unicode) {
    && NumericTable(u)
    && forall c :: c in {'+', '-', 'e', 'E'} ==> u.digit(c).None? && !u.space(c)
  }

  lemma {:induction false} CleanLeavesAlone(u: Unicode, t: string)
    requires NumeralTable(u)
    requires forall i :: 0 <= i < |t| ==> IsAsciiDigit(t[i]) || t[i] in {'.', '+', '-', 'e', 'E'}
    ensures Clean(u, t) == t
  {
    if t != [] {
      CleanLeavesAlone(u, t[1..]);
      assert t == [t[0]] + t[1..];
      if IsAsciiDigit(t[0]) {
        assert u.digit(t[0]) == Some(DigitOf(t[0])) && t[0] !in NOISE && t[0] !in DECIMAL_SEPARATORS;
      }
    }
  }

  /** Where the digits of an unsigned spelling end. */
  lemma RunsOfBody(s: Spelling)
    requires Numerical(s)
    ensures var body, n, k := Plain(s.whole, s.point, s.frac) + s.exponent, |s.whole|, |s.frac|;
      && DigitRun(body) == n && body[..n] == s.whole
      && (n < |body| && body[n] == '.' <==> s.point)
      && (s.point ==> body[n + 1..] == s.frac + s.exponent
                      && DigitRun(body[n + 1..]) == k
                      && body[n + 1..][..k] == s.frac && body[n + 1..][k..] == s.exponent)
      && (!s.point ==> body[n..] == s.exponent)
  {
    hide DigitRun, Numerical, AllDigits;
    SpeltHasDigits(s);
    var body := Plain(s.whole, s.point, s.frac) + s.exponent;
    if s.point {
      RunStops(s.whole, ['.'] + s.frac + s.exponent);
      RunStops(s.frac, s.exponent);
      assert body == s.whole + (['.'] + s.frac + s.exponent);
      assert (['.'] + s.frac + s.exponent)[1..] == s.frac + s.exponent;
      assert body[|s.whole| + 1..] == s.frac + s.exponent;
    } else {
      RunStops(s.whole, s.exponent);
      assert body == s.whole + s.exponent;
    }
  }

  lemma RunStops(digits: string, rest: string)
    requires AllDigits(digits) && (rest == [] || !IsAsciiDigit(rest[0]))
    ensures DigitRun(digits + rest) == |digits|
    ensures (digits + rest)[..|digits|] == digits && (digits + rest)[|digits|..] == rest
  {
    DigitRunStops(digits, rest);
  }

  lemma CutSpelt(s: Spelling)
    requires Numerical(s)
    ensures Cut(Spelt(s)) == Numeral(s.sign == "-", s.whole, s.frac, s.exponent)
  {
    var body, t := Plain(s.whole, s.point, s.frac) + s.exponent, Spelt(s);
    RunsOfBody(s);
    SignOfSpelt(s);
    hide DigitRun, AllDigits, Plain, Spelt, ExponentDigits;
    assert body[|s.whole|..][..0] == "" && body[|s.whole|..][0..] == body[|s.whole|..];
    assert s.sign == "-" || s.sign == "+" || s.sign == "";
  }

  lemma SignOfSpelt(s: Spelling)
    requires Numerical(s)
    ensures var body, t := Plain(s.whole, s.point, s.frac) + s.exponent, Spelt(s);
      && t != [] && (s.sign == "" <==> t[0] !in {'+', '-'})
      && (s.sign == "" ==> t == body)
      && (s.sign != "" ==> t[1..] == body && t[0] == s.sign[0])
      && (s.sign == "-" <==> t[0] == '-')
  {
    var body := Plain(s.whole, s.point, s.frac) + s.exponent;
    assert body != [] && (IsAsciiDigit(body[0]) || body[0] == '.');
    if s.sign == "" {
      assert Spelt(s) == body;
    } else {
      assert s.sign == [s.sign[0]];
      assert Spelt(s)[1..] == body;
    }
    hide AllDigits;
  }

  lemma ReadExponentSpelt(s: Spelling)
    requires Numerical(s)
    ensures ReadExponent(s.exponent) == Some(ExponentValue(s))
  {
    if s.exponent != "" && s.exponent[1] !in {'+', '-'} {
      assert ExponentDigits(s) == s.exponent[1..];
    }
  }

  /** What the parser decides about a number written with a sign or an exponent: finer
      than a cent is refused outright, whatever its value, and anything else is its exact
      cents, a negative one falling under the floor. */
  lemma ParseSpelt(u: Unicode, bounds: Bounds, s: Spelling)
    requires NumeralTable(u) && Numerical(s)
    ensures AllDigits(s.whole + s.frac)
    ensures var places := |s.frac| - ExponentValue(s);
      ParseAmount(u, bounds, Spelt(s)) ==
        if places > 2 then Refused(AmountPrecision)
        else
          var cents := (if s.sign == "-" then -1 else 1) * DigitsValue(s.whole + s.frac) * Pow10(2 - places);
          if cents < bounds.minimum then Refused(AmountBelowMin)
          else if cents > bounds.maximum then Refused(AmountAboveMax)
          else Ok(cents)
  {
    hide *;
    SpeltIsClean(u, s);
    ReadSpelt(u, s);
    DecideSpelt(u, bounds, Spelt(s), s.sign == "-", DigitsValue(s.whole + s.frac), |s.frac| - ExponentValue(s));
  }

  lemma ReadSpelt(u: Unicode, s: Spelling)
    requires Numerical(s) && Strip(u, Spelt(s)) == Spelt(s)
    ensures AllDigits(s.whole + s.frac)
    ensures ReadDecimal(u, Spelt(s))
         == Some(Decimal(s.sign == "-", DigitsValue(s.whole + s.frac), ExponentValue(s) - |s.frac|))
  {
    hide *;
    CutSpelt(s);
    ReadExponentSpelt(s);
    SpeltHasDigits(s);
    ReadOfCut(u, Spelt(s), s.sign == "-", s.whole, s.frac, s.exponent, ExponentValue(s));
  }

  lemma SpeltHasDigits(s: Spelling)
    requires Numerical(s)
    ensures AllDigits(s.whole) && AllDigits(s.frac) && |s.whole| + |s.frac| > 0
    ensures s.exponent != "" ==> s.exponent[0] in {'e', 'E'} && !IsAsciiDigit(s.exponent[0])
    ensures !s.point ==> s.frac == []
  {
    assert s.whole + s.frac == [] <==> |s.whole| + |s.frac| == 0;
    hide AllDigits;
  }

  lemma ReadOfCut(u: Unicode, t: string, negative: bool, whole: string, frac: string, tail: string, e: int)
    requires AllDigits(whole) && AllDigits(frac) && |whole| + |frac| > 0
    requires Cut(Strip(u, t)) == Numeral(negative, whole, frac, tail) && ReadExponent(tail) == Some(e)
    ensures AllDigits(whole + frac)
    ensures ReadDecimal(u, t) == Some(Decimal(negative, DigitsValue(whole + frac), e - |frac|))
  {
    hide Cut, ReadExponent, Strip, DigitsValue;
  }

  lemma DecideSpelt(u: Unicode, bounds: Bounds, t: string, negative: bool, coefficient: nat, places: int)
    requires t != [] && Strip(u, t) == t && Clean(u, t) == t
    requires ReadDecimal(u, t) == Some(Decimal(negative, coefficient, 0 - places))
    ensures ParseAmount(u, bounds, t) ==
            if places > 2 then Refused(AmountPrecision)
            else
              var cents := (if negative then -1 else 1) * coefficient * Pow10(2 - places);
              if cents < bounds.minimum then Refused(AmountBelowMin)
              else if cents > bounds.maximum then Refused(AmountAboveMax)
              else Ok(cents)
  {
    hide ReadDecimal, Strip, Clean, Pow10;
  }

  lemma SpeltIsClean(u: Unicode, s: Spelling)
    requires NumeralTable(u) && Numerical(s)
    ensures Spelt(s) != [] && Strip(u, Spelt(s)) == Spelt(s) && Clean(u, Spelt(s)) == Spelt(s)
  {
    var t := Spelt(s);
    SpeltCharacters(s);
    assert forall i :: 0 <= i < |t| && IsAsciiDigit(t[i]) ==> u.digit(t[i]).Some?;
    assert !u.space(t[0]) && !u.space(t[|t| - 1]);
    StripNothing(u, t);
    CleanLeavesAlone(u, t);
  }

  lemma SpeltCharacters(s: Spelling)
    requires Numerical(s)
    ensures Spelt(s) != []
    ensures forall i :: 0 <= i < |Spelt(s)| ==> IsAsciiDigit(Spelt(s)[i]) || Spelt(s)[i] in {'.', '+', '-', 'e', 'E'}
  {
    var tail := s.exponent;
    assert forall i :: 0 <= i < |tail| ==> IsAsciiDigit(tail[i]) || tail[i] in {'+', '-', 'e', 'E'} by {
      forall i | 0 <= i < |tail|
        ensures IsAsciiDigit(tail[i]) || tail[i] in {'+', '-', 'e', 'E'}
      {
        var digits := ExponentDigits(s);
        if i >= 2 {
          assert tail[i] == digits[i - (|tail| - |digits|)];
        } else if i == 1 && tail[1] !in {'+', '-'} {
          assert tail[1] == digits[0];
        }
      }
    }
  }

  // -------------------------------------------------------------- round trip --

  /** `f"{amount:.2f}"`. */
  function PrintCents(cents: nat): string {
    NatToString(cents / 100) + ['.', DigitChar(cents / 10 % 10), DigitChar(cents % 10)]
  }

  /** The printed digits, with the point left out, are the number of cents. */
  lemma PrintedDigits(cents: nat)
    ensures var whole, frac := NatToString(cents / 100), [DigitChar(cents / 10 % 10), DigitChar(cents % 10)];
      && AllDigits(whole) && AllDigits(frac) && AllDigits(whole + frac) && whole != []
      && DigitsValue(whole + frac) == cents
  {
    var whole := NatToString(cents / 100);
    NatToStringValue(cents / 100);
    hide NatToString, DigitsValue;
    DigitsValueSnoc(whole, cents / 10 % 10);
    var front := whole + [DigitChar(cents / 10 % 10)];
    DigitsValueSnoc(front, cents % 10);
    assert front + [DigitChar(cents % 10)] == whole + [DigitChar(cents / 10 % 10), DigitChar(cents % 10)];
    assert 10 * (10 * (cents / 100) + cents / 10 % 10) + cents % 10 == cents;
  }

  lemma PrintedPoint(cents: nat)
    ensures PrintCents(cents)
          == Plain(NatToString(cents / 100), true, [DigitChar(cents / 10 % 10), DigitChar(cents % 10)])
  {
    hide NatToString, DigitChar;
    assert ['.'] + [DigitChar(cents / 10 % 10), DigitChar(cents % 10)]
          == ['.', DigitChar(cents / 10 % 10), DigitChar(cents % 10)];
  }

  /** Any in-range amount, printed and then typed back in any script, with either
      separator and noise anywhere, is read as exactly that amount. */
  lemma AmountRoundTrip(u: Unicode, bounds: Bounds, cents: nat, text: string)
    requires NumericTable(u)
    requires bounds.minimum <= cents <= bounds.maximum
    requires Renders(u, text, PrintCents(cents))
    ensures ParseAmount(u, bounds, text) == Ok(cents)
  {
    PrintedDigits(cents);
    PrintedPoint(cents);
    hide PrintCents, NatToString, DigitsValue, DigitChar, Plain, Renders, ParseAmount;
    var whole, frac := NatToString(cents / 100), [DigitChar(cents / 10 % 10), DigitChar(cents % 10)];
    ParsePlain(u, bounds, whole, true, frac, text);
    assert Pow10(0) == 1;
  }

  /** Amounts that print differently are never confused by the parser. */
  lemma AmountsStayApart(u: Unicode, bounds: Bounds, a: nat, b: nat, text: string)
    requires NumericTable(u)
    requires bounds.minimum <= a <= bounds.maximum && bounds.minimum <= b <= bounds.maximum
    requires Renders(u, text, PrintCents(a)) && Renders(u, text, PrintCents(b))
    ensures a == b
  {
    AmountRoundTrip(u, bounds, a, text);
    AmountRoundTrip(u, bounds, b, text);
  }
}
