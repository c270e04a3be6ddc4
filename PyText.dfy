/**
 * The Python text built-ins the quiz server leans on: `str.isspace`, `str.strip`,
 * `str.lower` (as far as the server's comparisons can tell), `str(int)`, `int(str)`,
 * `float(str)` and `int(float)`. Only ASCII digits are recognised; see README.
 */
module PyText {
  import opened Base

  // ---------------------------------------------------------------- whitespace

  /** `c.isspace()`: the characters `str.strip()` skips. */
  predicate IsSpace(c: char) {
    || c == ' '
    || '\t' <= c <= '\r'
    || IsSeparator(c)
    || c == '\U{85}' || c == '\U{A0}' || c == '\U{1680}'
    || '\U{2000}' <= c <= '\U{200A}'
    || c == '\U{2028}' || c == '\U{2029}' || c == '\U{202F}' || c == '\U{205F}' || c == '\U{3000}'
  }

  /** The file, group, record and unit separators U+001C to U+001F: whitespace to
      `str.isspace`, but not skipped by `int()` and `float()`. */
  predicate IsSeparator(c: char) {
    '\U{1C}' <= c <= '\U{1F}'
  }

  /** Whether a strip skips `c`: `str.strip()` skips all whitespace, the number readers
      (`numeric`) all of it but the four separators. */
  predicate Skips(c: char, numeric: bool) {
    IsSpace(c) && !(numeric && IsSeparator(c))
  }

  predicate AllSpace(s: string) {
    forall i :: 0 <= i < |s| ==> IsSpace(s[i])
  }

  /** How many skipped characters `s` starts with. */
  function LeadingSpaces(s: string, numeric: bool := false): (n: nat)
    ensures n <= |s|
    ensures forall k :: 0 <= k < n ==> Skips(s[k], numeric)
    ensures n == |s| || !Skips(s[n], numeric)
  {
    if s != [] && Skips(s[0], numeric) then
      var n := LeadingSpaces(s[1..], numeric);
      assert forall k :: 1 <= k < n + 1 ==> s[k] == s[1..][k - 1];
      n + 1
    else 0
  }

  /** How many skipped characters `s` ends with. */
  function TrailingSpaces(s: string, numeric: bool := false): (n: nat)
    ensures n <= |s|
    ensures forall k :: |s| - n <= k < |s| ==> Skips(s[k], numeric)
    ensures n == |s| || !Skips(s[|s| - n - 1], numeric)
  {
    if s != [] && Skips(s[|s| - 1], numeric) then
      TrailingSpaces(s[..|s| - 1], numeric) + 1
    else 0
  }

  /** `s.strip()`, or with `numeric` the whitespace `int()` and `float()` skip around a
      number: the leading skipped characters are dropped, then the trailing ones of the
      rest. What is kept neither starts nor ends with a skipped character, and everything
      cut off is skipped. */
  function Strip(s: string, numeric: bool := false): (r: string)
    ensures LeadingSpaces(s, numeric) + |r| <= |s|
    ensures forall k :: 0 <= k < |r| ==> r[k] == s[LeadingSpaces(s, numeric) + k]
    ensures forall k :: LeadingSpaces(s, numeric) + |r| <= k < |s| ==> Skips(s[k], numeric)
    ensures r == [] || (!Skips(r[0], numeric) && !Skips(r[|r| - 1], numeric))
  {
    var rest := s[LeadingSpaces(s, numeric)..];
    rest[..|rest| - TrailingSpaces(rest, numeric)]
  }

  /** The blank test of the importer: a value is empty after `strip()` exactly when
      every character of it is whitespace. */
  lemma StripEmptyIffAllSpace(s: string)
    ensures Strip(s) == [] <==> AllSpace(s)
  {
  }

  /** A text with no skipped character at either end comes back from a strip unchanged. */
  lemma StripUntrimmed(s: string, numeric: bool := false)
    requires s == [] || (!Skips(s[0], numeric) && !Skips(s[|s| - 1], numeric))
    ensures Strip(s, numeric) == s
  {
  }

  // ---------------------------------------------------------------- case

  function LowerChar(c: char): char {
    if 'A' <= c <= 'Z' then (c as int + 32) as char else c
  }

  /**
   * `s.lower()` restricted to the ASCII letters. The server only ever compares a lowered
   * value with "none" or with an entry of the extension set, all plain ASCII, and no
   * other character lowers to an ASCII letter those words contain, so the outcome of
   * each such comparison is the same as with Python's full Unicode mapping.
   */
  function LowerAscii(s: string): (r: string)
    ensures |r| == |s|
  {
    seq(|s|, i requires 0 <= i < |s| => LowerChar(s[i]))
  }

  // ---------------------------------------------------------------- integers as text

  predicate IsDigit(c: char) {
    '0' <= c <= '9'
  }

  function DigitChar(d: nat): (c: char)
    requires d < 10
    ensures IsDigit(c)
  {
    ('0' as int + d) as char
  }

  function DigitValue(c: char): (d: nat)
    requires IsDigit(c)
    ensures d < 10
  {
    c as int - '0' as int
  }

  function Pow10(n: nat): (r: nat)
    ensures r >= 1
  {
    if n == 0 then 1 else 10 * Pow10(n - 1)
  }

  /** `str(n)` for a non-negative `n`: its decimal digits, without leading zeros. */
  function NatStr(n: nat): (r: string)
    ensures 1 <= |r| && forall i :: 0 <= i < |r| ==> IsDigit(r[i])
    ensures r[0] == '0' ==> n == 0
  {
    if n < 10 then [DigitChar(n)] else NatStr(n / 10) + [DigitChar(n % 10)]
  }

  /** `str(n)` */
  function Str(n: int): string {
    if n < 0 then "-" + NatStr(-n) else NatStr(n)
  }

  /** Python's `digitpart`: ASCII digits, where a single `_` may stand between two digits. */
  predicate IsDigitPart(s: string) {
    |s| > 0 && forall i :: 0 <= i < |s| ==> DigitPartAt(s, i)
  }

  /** Position `i` of `s` holds a digit, or a `_` between two digits. */
  predicate DigitPartAt(s: string, i: nat)
    requires i < |s|
  {
    IsDigit(s[i]) || (s[i] == '_' && 0 < i < |s| - 1 && IsDigit(s[i - 1]) && IsDigit(s[i + 1]))
  }

  /** The number a digitpart denotes, the underscores being ignored. */
  function DigitsValue(s: string): nat {
    if s == [] then 0
    else if IsDigit(s[|s| - 1]) then DigitsValue(s[..|s| - 1]) * 10 + DigitValue(s[|s| - 1])
    else DigitsValue(s[..|s| - 1])
  }

  /** How many digits (not underscores) a digitpart holds. */
  function DigitCount(s: string): nat {
    if s == [] then 0 else DigitCount(s[..|s| - 1]) + (if IsDigit(s[|s| - 1]) then 1 else 0)
  }

  /** An optionally signed digitpart, as `int()` and the exponent of `float()` accept it. */
  function ParseSigned(t: string): Option<int> {
    if t != [] && (t[0] == '+' || t[0] == '-') then
      if IsDigitPart(t[1..]) then
        Some(if t[0] == '-' then -(DigitsValue(t[1..]) as int) else DigitsValue(t[1..]) as int)
      else None
    else if IsDigitPart(t) then Some(DigitsValue(t) as int)
    else None
  }

  /** `int(s)` for a str `s`; `None` where Python raises ValueError. */
  function ParseInt(s: string): Option<int> {
    ParseSigned(Strip(s, true))
  }

  lemma {:induction false} DigitsValueOfNatStr(n: nat)
    ensures IsDigitPart(NatStr(n)) && DigitsValue(NatStr(n)) == n
  {
    var s := NatStr(n);
    if n >= 10 {
      DigitsValueOfNatStr(n / 10);
      assert s[..|s| - 1] == NatStr(n / 10);
    }
  }

  /** `str(n)` has no whitespace at either end. */
  lemma StripStr(n: int)
    ensures Strip(Str(n), true) == Str(n)
  {
    var m := if n < 0 then -n else n;
    var s := Str(n);
    assert s[|s| - 1] == NatStr(m)[|NatStr(m)| - 1];
    StripUntrimmed(s, true);
  }

  lemma ParseSignedStr(n: int)
    ensures ParseSigned(Str(n)) == Some(n)
  {
    var m := if n < 0 then -n else n;
    var digits := NatStr(m);
    DigitsValueOfNatStr(m);
    assert IsDigit(digits[0]);
    if n < 0 {
      var t := "-" + digits;
      assert Str(n) == t && t[0] == '-' && t[1..] == digits;
    } else {
      assert Str(n) == digits && digits[0] != '+' && digits[0] != '-';
    }
  }

  /** `int(str(n)) == n`: rendering an int and reading it back loses nothing. */
  lemma ParseIntStr(n: int)
    ensures ParseInt(Str(n)) == Some(n)
  {
    StripStr(n);
    ParseSignedStr(n);
  }

  /** Distinct ints render as distinct strings. */
  lemma StrInjective(a: int, b: int)
    requires Str(a) == Str(b)
    ensures a == b
  {
    ParseIntStr(a);
    ParseIntStr(b);
  }

  // ---------------------------------------------------------------- floats as text

  /** What `float(s)` can produce: a finite value, written exactly as
      (-1)^negative * mantissa * 10^exponent, an infinity or a NaN. */
  datatype PyFloat = Finite(negative: bool, mantissa: nat, exponent: int) | Infinite(negative: bool) | NaN

  /** The first position of `s` holding one of `cs`. */
  function Find(s: string, cs: set<char>): (r: Option<nat>)
    ensures r.Some? ==> r.value < |s| && s[r.value] in cs && forall j :: 0 <= j < r.value ==> s[j] !in cs
    ensures r.None? ==> forall j :: 0 <= j < |s| ==> s[j] !in cs
  {
    if s == [] then None
    else if s[0] in cs then Some(0)
    else match Find(s[1..], cs)
      case None => None
      case Some(i) => Some(i + 1)
  }

  /** Python's `number ::= [digitpart] "." digitpart | digitpart ["."]`, as a mantissa
      and the power of ten it is scaled by. */
  function ParseNumber(m: string): Option<(nat, int)> {
    match Find(m, {'.'})
    case None =>
      if IsDigitPart(m) then Some((DigitsValue(m), 0)) else None
    case Some(i) =>
      var whole, frac := m[..i], m[i + 1..];
      if frac == [] then
        if IsDigitPart(whole) then Some((DigitsValue(whole), 0)) else None
      else if IsDigitPart(frac) && (whole == [] || IsDigitPart(whole)) then
        Some((DigitsValue(whole) * Pow10(DigitCount(frac)) + DigitsValue(frac), -(DigitCount(frac) as int)))
      else None
  }

  /** Python's `floatnumber ::= number [exponent]`, unsigned. */
  function ParseFloatNumber(body: string): Option<(nat, int)> {
    match Find(body, {'e', 'E'})
    case None => ParseNumber(body)
    case Some(i) =>
      match ParseNumber(body[..i])
      case None => None
      case Some((m, e)) =>
        match ParseSigned(body[i + 1..])
        case None => None
        case Some(x) => Some((m, e + x))
  }

  /** The spellings of infinity and NaN that `float()` accepts, in any case. */
  predicate IsInfinityWord(body: string) {
    var word := LowerAscii(body);
    word == "inf" || word == "infinity"
  }

  predicate IsNaNWord(body: string) {
    LowerAscii(body) == "nan"
  }

  /** `float(s)`; `None` where Python raises ValueError. */
  function ParseFloat(s: string): Option<PyFloat> {
    ParseStrippedFloat(Strip(s, true))
  }

  /** `int()` keeps a separator in front of digits and refuses the text, where
      `str.strip()` would drop it (`StripDropsSeparator`). */
  lemma IntRefusesSeparator(d: string)
    requires |d| >= 1 && forall i :: 0 <= i < |d| ==> IsDigit(d[i])
    ensures ParseInt("\U{1C}" + d) == None
  {
    NumberStripKeepsSeparator(d);
    SeparatorNoInt("\U{1C}" + d);
  }

  /** `float()` keeps a separator in front of digits and refuses the text. */
  lemma FloatRefusesSeparator(d: string)
    requires |d| >= 1 && forall i :: 0 <= i < |d| ==> IsDigit(d[i])
    ensures ParseFloat("\U{1C}" + d) == None
  {
    NumberStripKeepsSeparator(d);
    SeparatorNoFloat("\U{1C}" + d);
  }

  /** The number readers' strip keeps a separator in front of digits. */
  lemma NumberStripKeepsSeparator(d: string)
    requires |d| >= 1 && IsDigit(d[|d| - 1])
    ensures Strip("\U{1C}" + d, true) == "\U{1C}" + d
  {
    var s := "\U{1C}" + d;
    assert s[0] == '\U{1C}' && s[|s| - 1] == d[|d| - 1];
    StripUntrimmed(s, true);
  }

  /** `str.strip()` drops a separator in front of a text with no outer whitespace. */
  lemma StripDropsSeparator(d: string)
    requires d != [] && !IsSpace(d[0]) && !IsSpace(d[|d| - 1])
    ensures Strip("\U{1C}" + d) == d
  {
    var s := "\U{1C}" + d;
    assert s[1..] == d;
    assert LeadingSpaces(s) == 1;
    var rest := s[1..];
    assert TrailingSpaces(rest) == 0;
  }

  /** No digitpart, and so no int, starts with a separator. */
  lemma SeparatorNoInt(t: string)
    requires t != [] && IsSeparator(t[0])
    ensures !IsDigitPart(t) && ParseSigned(t) == None
  {
    assert !DigitPartAt(t, 0);
  }

  /** No number starts with a separator. */
  lemma SeparatorNoNumber(t: string)
    requires t != [] && IsSeparator(t[0])
    ensures ParseNumber(t) == None
  {
    SeparatorNoInt(t);
    var dot := Find(t, {'.'});
    if dot.Some? {
      var whole := t[..dot.value];
      assert whole != [] && whole[0] == t[0];
      SeparatorNoInt(whole);
    }
  }

  /** No float starts with a separator. */
  lemma SeparatorNoFloat(t: string)
    requires t != [] && IsSeparator(t[0])
    ensures ParseStrippedFloat(t) == None
  {
    assert SplitSign(t) == (false, t);
    assert LowerAscii(t)[0] == t[0];
    SeparatorNoNumber(t);
    var e := Find(t, {'e', 'E'});
    if e.Some? {
      var mantissa := t[..e.value];
      assert mantissa != [] && mantissa[0] == t[0];
      SeparatorNoNumber(mantissa);
    }
  }

  /** An optional leading sign: whether it is '-', and the text after it. */
  function SplitSign(t: string): (bool, string) {
    if t != [] && (t[0] == '+' || t[0] == '-') then (t[0] == '-', t[1..]) else (false, t)
  }

  /** `float(t)` for a `t` with no whitespace at either end. */
  function ParseStrippedFloat(t: string): Option<PyFloat> {
    var (negative, body) := SplitSign(t);
    if IsInfinityWord(body) then Some(Infinite(negative))
    else if IsNaNWord(body) then Some(NaN)
    else match ParseFloatNumber(body)
      case None => None
      case Some((m, e)) => Some(Finite(negative, m, e))
  }

  datatype IntConversionError = CannotConvertNaN | CannotConvertInfinity

  function ScaleUp(m: nat, k: nat): nat {
    m * Pow10(k)
  }

  function ScaleDown(m: nat, k: nat): nat {
    DivisionStaysNatural(m, Pow10(k));
    m / Pow10(k)
  }

  lemma DivisionStaysNatural(m: int, p: int)
    requires m >= 0 && p >= 1
    ensures m / p >= 0
  {
  }

  /** |m * 10^e| rounded toward zero. */
  function Magnitude(m: nat, e: int): nat {
    if e >= 0 then ScaleUp(m, e) else ScaleDown(m, -e)
  }

  /** `int(f)` for a float: truncation toward zero; a NaN raises ValueError and an
      infinity raises OverflowError. */
  function TruncateFloat(f: PyFloat): (r: Result<int, IntConversionError>)
    ensures f.Finite? ==> r.Ok? && (f.negative ==> r.value <= 0) && (!f.negative ==> r.value >= 0)
    ensures f.NaN? ==> r == Err(CannotConvertNaN)
    ensures f.Infinite? ==> r == Err(CannotConvertInfinity)
  {
    match f
    case NaN => Err(CannotConvertNaN)
    case Infinite(_) => Err(CannotConvertInfinity)
    case Finite(negative, m, e) =>
      var magnitude := Magnitude(m, e);
      Ok(if negative then -(magnitude as int) else magnitude as int)
  }

  /** `int(f)` drops the fraction: for a finite value with a fractional scale, the result's
      magnitude is the whole number of times the scale fits into the mantissa. */
  lemma TruncatesTowardZero(negative: bool, mantissa: nat, exponent: int)
    requires exponent < 0
    ensures var r := TruncateFloat(Finite(negative, mantissa, exponent)).value;
            var magnitude := if negative then -r else r;
            && magnitude >= 0
            && magnitude * Pow10(-exponent) <= mantissa < (magnitude + 1) * Pow10(-exponent)
  {
    var p := Pow10(-exponent);
    var q := mantissa / p;
    assert mantissa == q * p + mantissa % p;
    assert (q + 1) * p == q * p + p;
  }

  /** A run of digits is no spelling of infinity or NaN. */
  lemma DigitsAreNoWord(body: string)
    requires |body| >= 1 && forall i :: 0 <= i < |body| ==> IsDigit(body[i])
    ensures !IsInfinityWord(body) && !IsNaNWord(body)
  {
    assert LowerAscii(body)[0] == LowerChar(body[0]);
  }

  /** A run of digits is a `number` without fraction. */
  lemma DigitsAreANumber(body: string)
    requires |body| >= 1 && forall i :: 0 <= i < |body| ==> IsDigit(body[i])
    ensures ParseNumber(body) == Some((DigitsValue(body), 0))
  {
    assert Find(body, {'.'}) == None;
    assert IsDigitPart(body);
  }

  /** A run of digits is a `floatnumber` without exponent. */
  lemma DigitsAreAFloatNumber(body: string)
    requires |body| >= 1 && forall i :: 0 <= i < |body| ==> IsDigit(body[i])
    ensures ParseFloatNumber(body) == Some((DigitsValue(body), 0))
  {
    assert Find(body, {'e', 'E'}) == None;
    DigitsAreANumber(body);
  }

  lemma ParseUnsignedDigits(body: string)
    requires |body| >= 1 && forall i :: 0 <= i < |body| ==> IsDigit(body[i])
    ensures ParseStrippedFloat(body) == Some(Finite(false, DigitsValue(body), 0))
  {
    assert SplitSign(body) == (false, body);
    DigitsAreNoWord(body);
    DigitsAreAFloatNumber(body);
  }

  lemma ParseNegatedDigits(body: string)
    requires |body| >= 1 && forall i :: 0 <= i < |body| ==> IsDigit(body[i])
    ensures ParseStrippedFloat("-" + body) == Some(Finite(true, DigitsValue(body), 0))
  {
    assert SplitSign("-" + body) == (true, body);
    DigitsAreNoWord(body);
    DigitsAreAFloatNumber(body);
  }

  /** `int(float(str(n))) == n` */
  lemma TruncateFloatStr(n: int)
    ensures ParseFloat(Str(n)).Some? && TruncateFloat(ParseFloat(Str(n)).value) == Ok(n)
  {
    var m := if n < 0 then -n else n;
    var digits := NatStr(m);
    DigitsValueOfNatStr(m);
    assert ParseFloat(Str(n)) == ParseStrippedFloat(Str(n)) by { StripStr(n); }
    assert ParseStrippedFloat(Str(n)) == Some(Finite(n < 0, m, 0)) by {
      if n < 0 {
        assert Str(n) == "-" + digits;
        ParseNegatedDigits(digits);
      } else {
        assert Str(n) == digits;
        ParseUnsignedDigits(digits);
      }
    }
    assert Magnitude(m, 0) == m;
  }

  /** "4.5" is the number 45 scaled by a tenth. */
  lemma FourAndAHalfNumber()
    ensures ParseNumber("4.5") == Some((45, -1))
  {
    var t := "4.5";
    assert t[0] !in {'.'} && t[1] in {'.'};
    assert Find(t, {'.'}) == Some(1);
    assert t[..1] == "4" && t[2..] == "5";
    assert IsDigit(t[0]) && IsDigit(t[2]);
    assert |t[2..]| == 1 && t[2..][0] == t[2] && t[..1][0] == t[0];
    assert IsDigitPart(t[..1]) && IsDigitPart(t[2..]);
    assert DigitsValue("4") == 4 && DigitsValue("5") == 5 && DigitCount("5") == 1;
  }

  /** "4.5" has no exponent and is not a word. */
  lemma FourAndAHalfStripped()
    ensures ParseStrippedFloat("4.5") == Some(Finite(false, 45, -1))
  {
    var t := "4.5";
    assert SplitSign(t) == (false, t);
    assert LowerAscii(t)[0] == '4';
    assert !IsInfinityWord(t) && !IsNaNWord(t);
    assert t[0] !in {'e', 'E'} && t[1] !in {'e', 'E'} && t[2] !in {'e', 'E'};
    assert Find(t, {'e', 'E'}) == None;
    FourAndAHalfNumber();
  }

  /** `float("4.5")` is 45 tenths, and `int()` of it is 4. */
  lemma FourAndAHalf()
    ensures ParseFloat("4.5") == Some(Finite(false, 45, -1))
    ensures TruncateFloat(Finite(false, 45, -1)) == Ok(4)
  {
    FourAndAHalfRead();
    FourAndAHalfTruncated();
  }

  lemma FourAndAHalfTruncated()
    ensures TruncateFloat(Finite(false, 45, -1)) == Ok(4)
  {
    assert Pow10(1) == 10 * Pow10(0) == 10;
    assert ScaleDown(45, 1) == 45 / 10;
    assert Magnitude(45, -1) == 4;
  }

  lemma FourAndAHalfRead()
    ensures ParseFloat("4.5") == Some(Finite(false, 45, -1))
  {
    var t := "4.5";
    assert t[0] == '4' && t[|t| - 1] == '5';
    StripUntrimmed(t, true);
    FourAndAHalfStripped();
  }

  /** `float("NaN")` is a NaN, which `int()` refuses. */
  lemma NaNWord()
    ensures ParseFloat("NaN") == Some(NaN)
  {
    var t := "NaN";
    assert t[0] == 'N' && t[|t| - 1] == 'N';
    StripUntrimmed(t, true);
    NaNStripped();
  }

  /** "NaN", once stripped, is the NaN word and no number. */
  lemma NaNStripped()
    ensures ParseStrippedFloat("NaN") == Some(NaN)
  {
    var t := "NaN";
    assert SplitSign(t) == (false, t);
    var lower := LowerAscii(t);
    assert |lower| == 3 && lower[0] == 'n' && lower[1] == 'a' && lower[2] == 'n';
    assert lower == "nan";
    assert !IsInfinityWord(t);
  }
}
