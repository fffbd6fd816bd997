/**
 * Python's `float(x)` applied to a decoded JSON value, as `calculate_iai`
 * applies it to a sub-index score: `None` stands for the `TypeError` or
 * `ValueError` that `calculate_iai` catches and turns into a score of 0.
 */
module Coercion {
  import opened Wrappers
  import opened Text
  import opened FloatSpace
  import opened Records

  predicate IsDigit(c: char) {
    '0' <= c <= '9'
  }

  predicate AllDigits(s: string) {
    forall i :: 0 <= i < |s| ==> IsDigit(s[i])
  }

  /** The value of a string of decimal digits ("" counts as 0). */
  function DigitsValue(s: string): nat
    requires AllDigits(s)
  {
    if s == [] then 0 else DigitsValue(s[..|s| - 1]) * 10 + (s[|s| - 1] as int - '0' as int)
  }

  function Pow10(k: nat): (p: nat)
    ensures p >= 1
  {
    if k == 0 then 1 else 10 * Pow10(k - 1)
  }

  /** The index of the first '.' in `s`, or |s| when there is none. */
  function DotIndex(s: string): (i: nat)
    ensures i <= |s|
    ensures i < |s| ==> s[i] == '.'
    ensures forall j :: 0 <= j < i ==> s[j] != '.'
  {
    if s == [] then 0 else if s[0] == '.' then 0 else 1 + DotIndex(s[1..])
  }

  /** The value of the decimal with whole digits `whole` and fraction digits `fraction`. */
  function UnsignedValue(whole: string, fraction: string): (x: real)
    requires AllDigits(whole) && AllDigits(fraction)
    ensures x >= 0.0
  {
    DigitsValue(whole) as real + DigitsValue(fraction) as real / Pow10(|fraction|) as real
  }

  /** An unsigned decimal `ddd`, `ddd.ddd`, `ddd.` or `.ddd` with at least one digit. */
  function ParseUnsigned(s: string): (r: Option<real>)
    ensures r.Some? ==> r.value >= 0.0
  {
    var i := DotIndex(s);
    var whole := s[..i];
    var fraction := if i < |s| then s[i + 1..] else [];
    if AllDigits(whole) && AllDigits(fraction) && |whole| + |fraction| > 0 then
      Some(UnsignedValue(whole, fraction))
    else
      None
  }

  /** An optional sign, then an unsigned decimal; only a minus sign gives a negative value. */
  function ParseSigned(t: string): (r: Option<real>)
    ensures r.Some? ==> t != []
    ensures r.Some? && r.value < 0.0 ==> t[0] == '-'
  {
    if t != [] && t[0] == '-' then
      match ParseUnsigned(t[1..])
      case Some(x) => Some(-x)
      case None => None
    else if t != [] && t[0] == '+' then ParseUnsigned(t[1..])
    else ParseUnsigned(t)
  }

  /**
   * `float(text)` for a string: surrounding whitespace, an optional sign, a
   * decimal. Text that is all whitespace never converts, and only a leading
   * minus sign gives a negative value.
   */
  function ParseFloat(text: string): (r: Option<real>)
    ensures r.Some? ==> !IsBlank(text)
    ensures r.Some? && r.value < 0.0 ==> Strip(text)[0] == '-'
  {
    ParsedTextFacts(text);
    ParseSigned(FloatStrip(text))
  }

  /**
   * What a successful read says about the text: it has a character that is not
   * whitespace, and a negative value starts with a minus sign once stripped.
   */
  lemma ParsedTextFacts(text: string)
    ensures var r := ParseSigned(FloatStrip(text));
      r.Some? ==> !IsBlank(text) && (r.value < 0.0 ==> Strip(text) != [] && Strip(text)[0] == '-')
  {
    var t := FloatStrip(text);
    if ParseSigned(t).Some? {
      if IsSpace(t[0]) {
        SignedRefusesStray(t, 0);
      }
      FloatStripStartsStrip(text);
    }
  }

  /**
   * `float(v)`: numbers as they are, booleans as 1 and 0, strings parsed, the
   * rest refused. Only strings can be refused besides null, lists and objects.
   */
  function ToFloat(v: JsonValue): (r: Option<real>)
    ensures v.Null? || v.Array? || v.Object? ==> r.None?
    ensures r.None? ==> v.Null? || v.Array? || v.Object? || v.Str?
    ensures v.Number? ==> r == Some(v.number)
    ensures v.Bool? ==> r.Some? && (r.value == 1.0 <==> v.flag) && (r.value == 0.0 <==> !v.flag)
  {
    match v
    case Number(x) => Some(x)
    case Bool(b) => Some(if b then 1.0 else 0.0)
    case Str(t) => ParseFloat(t)
    case Null => None
    case Array(_) => None
    case Object(_) => None
  }

  /** The decimal digit for `d`. */
  function DigitChar(d: nat): (c: char)
    requires d < 10
    ensures IsDigit(c) && c as int - '0' as int == d
  {
    ('0' as int + d) as char
  }

  /** `str(n)` for a natural number: its decimal digits, most significant first. */
  function Digits(n: nat): (s: string)
    ensures |s| >= 1 && AllDigits(s)
    decreases n
  {
    if n < 10 then [DigitChar(n)] else Digits(n / 10) + [DigitChar(n % 10)]
  }

  /** Reading back the digits of `n` gives `n`. */
  lemma {:induction false} DigitsValueOfDigits(n: nat)
    ensures DigitsValue(Digits(n)) == n
    decreases n
  {
    var s := Digits(n);
    if n < 10 {
      assert s[..0] == [];
    } else {
      assert s[..|s| - 1] == Digits(n / 10);
      DigitsValueOfDigits(n / 10);
    }
  }

  lemma DigitsHaveNoDot(s: string)
    requires AllDigits(s)
    ensures DotIndex(s) == |s|
  {
    if DotIndex(s) < |s| {
      assert IsDigit(s[DotIndex(s)]);
    }
  }

  lemma DigitsAreTrimmed(s: string)
    requires |s| >= 1 && AllDigits(s)
    ensures Strip(s) == s && FloatStrip(s) == s
  {
    assert IsDigit(s[0]) && IsDigit(s[|s| - 1]);
    StripTrimmed(s);
    FloatStripTrimmed(s);
  }

  /** The digits of `n` read as an unsigned decimal give `n`. */
  lemma ParseUnsignedOfDigits(n: nat)
    ensures ParseUnsigned(Digits(n)) == Some(n as real)
  {
    var s := Digits(n);
    DigitsHaveNoDot(s);
    DigitsValueOfDigits(n);
    assert s[..|s|] == s;
  }

  /** A score written as a whole number in a string converts to that number: `float(str(n)) == n`. */
  lemma ParseFloatOfDigits(n: nat)
    ensures ParseFloat(Digits(n)) == Some(n as real)
    ensures ToFloat(Str(Digits(n))) == Some(n as real)
  {
    var s := Digits(n);
    DigitsAreTrimmed(s);
    UnsignedFloat(s);
    ParseUnsignedOfDigits(n);
  }

  lemma NegativeDigitsShape(s: string)
    requires |s| >= 1 && AllDigits(s)
    ensures var t := "-" + s; t[0] == '-' && t[1..] == s && Strip(t) == t && FloatStrip(t) == t
  {
    var t := "-" + s;
    assert IsDigit(s[|s| - 1]) && t[|t| - 1] == s[|s| - 1];
    StripTrimmed(t);
    FloatStripTrimmed(t);
    assert t[1..] == s;
  }

  /** A leading minus sign negates: `float("-" + str(n)) == -n`. */
  lemma ParseFloatOfNegativeDigits(n: nat)
    ensures ParseFloat("-" + Digits(n)) == Some(-(n as real))
  {
    ParseUnsignedOfDigits(n);
    NegativeDigitsFloat(Digits(n), n as real);
  }

  lemma NegativeDigitsFloat(s: string, x: real)
    requires |s| >= 1 && AllDigits(s) && ParseUnsigned(s) == Some(x)
    ensures ParseFloat("-" + s) == Some(-x)
  {
    NegativeDigitsShape(s);
    NegatedFloat("-" + s, s, x);
  }

  /** Text with no outer whitespace, a minus sign and an unsigned decimal converts to minus its value. */
  lemma NegatedFloat(t: string, s: string, x: real)
    requires FloatStrip(t) == t && t != [] && t[0] == '-' && t[1..] == s
    requires ParseUnsigned(s) == Some(x)
    ensures ParseFloat(t) == Some(-x)
  {
    NegatedSigned(t, s, x);
  }

  /** A minus sign and then an unsigned decimal gives minus its value. */
  lemma NegatedSigned(t: string, s: string, x: real)
    requires t != [] && t[0] == '-' && t[1..] == s
    requires ParseUnsigned(s) == Some(x)
    ensures ParseSigned(t) == Some(-x)
  {
  }

  /** The whitespace `float()` skips around a string score makes no difference to the value. */
  lemma ParseFloatIgnoresOuterSpace(text: string)
    ensures ParseFloat(FloatStrip(text)) == ParseFloat(text)
    ensures ToFloat(Str(FloatStrip(text))) == ToFloat(Str(text))
  {
    FloatStripIdempotent(text);
  }

  /** Where the point sits in `w + "." + f`, and the two pieces around it. */
  lemma DecimalShape(w: string, f: string)
    requires AllDigits(w) && AllDigits(f)
    ensures var s := w + "." + f; DotIndex(s) == |w| && s[..|w|] == w && s[|w| + 1..] == f
  {
    var s := w + "." + f;
    assert s[|w|] == '.';
    assert s[..|w|] == w;
    assert s[|w| + 1..] == f;
  }

  /** The value `n.d` of a decimal with whole part `n` and fraction digits `d`. */
  function DecimalValue(n: nat, d: nat): real {
    n as real + d as real / Pow10(|Digits(d)|) as real
  }

  /** `str(n) + "." + str(d)` read as an unsigned decimal gives the whole part plus the fraction. */
  lemma ParseUnsignedOfDecimal(n: nat, d: nat)
    ensures ParseUnsigned(Digits(n) + "." + Digits(d)) == Some(DecimalValue(n, d))
  {
    var w, f := Digits(n), Digits(d);
    DecimalShape(w, f);
    UnsignedOfPieces(w + "." + f, w, f);
    DigitsValueOfDigits(n);
    DigitsValueOfDigits(d);
  }

  /** An unsigned decimal read from its whole digits and its fraction digits. */
  lemma UnsignedOfPieces(s: string, w: string, f: string)
    requires AllDigits(w) && AllDigits(f) && |w| + |f| > 0
    requires DotIndex(s) == |w| < |s| && s[..|w|] == w && s[|w| + 1..] == f
    ensures ParseUnsigned(s) == Some(UnsignedValue(w, f))
  {
  }

  lemma DecimalIsTrimmed(w: string, f: string)
    requires |w| >= 1 && AllDigits(w) && |f| >= 1 && AllDigits(f)
    ensures var s := w + "." + f; IsDigit(s[0]) && Strip(s) == s && FloatStrip(s) == s
  {
    var s := w + "." + f;
    assert s[0] == w[0] && s[|s| - 1] == f[|f| - 1];
    assert IsDigit(s[0]) && IsDigit(s[|s| - 1]);
    StripTrimmed(s);
    FloatStripTrimmed(s);
  }

  /** A score written with a decimal point converts to its value: `float("7.5") == 7.5`. */
  lemma ParseFloatOfDecimal(n: nat, d: nat)
    ensures ParseFloat(Digits(n) + "." + Digits(d)) == Some(DecimalValue(n, d))
  {
    var s := Digits(n) + "." + Digits(d);
    DecimalIsTrimmed(Digits(n), Digits(d));
    UnsignedFloat(s);
    ParseUnsignedOfDecimal(n, d);
  }

  /** Text with no outer whitespace that starts with a digit converts as an unsigned decimal. */
  lemma UnsignedFloat(s: string)
    requires FloatStrip(s) == s && s != [] && IsDigit(s[0])
    ensures ParseFloat(s) == ParseUnsigned(s)
  {
  }

  /** The decimal 7.5 has the value 7.5. */
  lemma DecimalValueExample()
    ensures DecimalValue(7, 5) == 7.5
  {
    assert Digits(5) == "5";
  }

  /** An unsigned decimal is refused when it holds a character that is neither a digit nor the point. */
  lemma UnsignedRefusesStray(s: string, i: nat)
    requires i < |s| && !IsDigit(s[i]) && s[i] != '.'
    ensures ParseUnsigned(s) == None
  {
    var d := DotIndex(s);
    if i < d {
      assert s[..d][i] == s[i];
    } else {
      assert s[d + 1..][i - d - 1] == s[i];
    }
  }

  /** An unsigned decimal is refused when it holds a second point. */
  lemma UnsignedRefusesTwoDots(s: string, i: nat, j: nat)
    requires i < j < |s| && s[i] == '.' && s[j] == '.'
    ensures ParseUnsigned(s) == None
  {
    var d := DotIndex(s);
    assert d <= i;
    assert s[d + 1..][j - d - 1] == s[j];
  }

  /** An unsigned decimal without a single digit is refused. */
  lemma UnsignedNeedsDigit(s: string)
    requires forall i :: 0 <= i < |s| ==> !IsDigit(s[i])
    ensures ParseUnsigned(s) == None
  {
    var d := DotIndex(s);
    var whole := s[..d];
    var fraction := if d < |s| then s[d + 1..] else [];
    assert whole == [] || whole[0] == s[0];
    assert fraction == [] || fraction[0] == s[d + 1];
  }

  /**
   * A signed decimal is refused when it holds a character that is neither a
   * digit nor the point, unless that character is a leading sign.
   */
  lemma SignedRefusesStray(t: string, i: nat)
    requires i < |t| && !IsDigit(t[i]) && t[i] != '.'
    requires i > 0 || (t[i] != '+' && t[i] != '-')
    ensures ParseSigned(t) == None
  {
    if t[0] == '-' || t[0] == '+' {
      UnsignedRefusesStray(t[1..], i - 1);
    } else {
      UnsignedRefusesStray(t, i);
    }
  }

  lemma SignedRefusesTwoDots(t: string, i: nat, j: nat)
    requires i < j < |t| && t[i] == '.' && t[j] == '.'
    ensures ParseSigned(t) == None
  {
    if t[0] == '-' || t[0] == '+' {
      UnsignedRefusesTwoDots(t[1..], i - 1, j - 1);
    } else {
      UnsignedRefusesTwoDots(t, i, j);
    }
  }

  lemma SignedNeedsDigit(t: string)
    requires forall i :: 0 <= i < |t| ==> !IsDigit(t[i])
    ensures ParseSigned(t) == None
  {
    if t != [] && (t[0] == '-' || t[0] == '+') {
      UnsignedNeedsDigit(t[1..]);
    } else {
      UnsignedNeedsDigit(t);
    }
  }

  /**
   * `float()` raises on a string whose stripped text holds a character other
   * than a digit or the point, a sign in first place aside: "n/a" and
   * "нет данных" are refused.
   */
  lemma ParseFloatRefusesStray(text: string, i: nat)
    requires i < |FloatStrip(text)| && !IsDigit(FloatStrip(text)[i]) && FloatStrip(text)[i] != '.'
    requires i > 0 || (FloatStrip(text)[i] != '+' && FloatStrip(text)[i] != '-')
    ensures ParseFloat(text) == None
  {
    SignedRefusesStray(FloatStrip(text), i);
  }

  /** `float()` raises on a string with two decimal points. */
  lemma ParseFloatRefusesTwoDots(text: string, i: nat, j: nat)
    requires i < j < |FloatStrip(text)| && FloatStrip(text)[i] == '.' && FloatStrip(text)[j] == '.'
    ensures ParseFloat(text) == None
  {
    SignedRefusesTwoDots(FloatStrip(text), i, j);
  }

  /** `float()` raises on a string without a digit, such as "", "." or "-". */
  lemma ParseFloatNeedsDigit(text: string)
    requires forall i :: 0 <= i < |FloatStrip(text)| ==> !IsDigit(FloatStrip(text)[i])
    ensures ParseFloat(text) == None
  {
    SignedNeedsDigit(FloatStrip(text));
  }

  /** The score "нет данных" ("no data") is refused. */
  lemma ParseFloatOfNoData()
    ensures ParseFloat("нет данных") == None
  {
    var text := "нет данных";
    assert text[0] == 'н' && text[|text| - 1] == 'х';
    TrimmedWordRefused(text);
  }

  /** Text without outer whitespace that starts with a letter-like character is refused. */
  lemma TrimmedWordRefused(text: string)
    requires text != [] && IsTrimmed(text)
    requires !IsDigit(text[0]) && text[0] != '.' && text[0] != '+' && text[0] != '-'
    ensures ParseFloat(text) == None
  {
    TrimmedIsFloatTrimmed(text);
    ParseFloatRefusesStray(text, 0);
  }

  /**
   * `float()` raises on a string holding an information separator anywhere,
   * even at either end where `strip()` would have removed it: `float("\x1c5")`
   * raises although `"\x1c5".strip() == "5"`.
   */
  lemma ParseFloatRefusesSeparator(text: string, i: nat)
    requires i < |text| && IsSeparator(text[i])
    ensures ParseFloat(text) == None
  {
    var j := SeparatorIsRead(text, i);
    SignedRefusesStray(FloatStrip(text), j);
  }

  /** The score "\x1c5" is refused, whereas the 5 left after `strip()` would convert. */
  lemma SeparatorScoreRefused()
    ensures ToFloat(Str("\U{1C}5")) == None
  {
    ParseFloatRefusesSeparator("\U{1C}5", 0);
  }

  /** Without information separators, `float(text.strip()) == float(text)`. */
  lemma ParseFloatIgnoresStrip(text: string)
    requires HasNoSeparator(text)
    ensures ParseFloat(Strip(text)) == ParseFloat(text)
  {
    FloatStripIsStrip(text);
    TrimmedIsFloatTrimmed(Strip(text));
  }
}
