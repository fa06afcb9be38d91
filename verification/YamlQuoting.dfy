/**
 What the writer's patterns mean: which texts they take for numbers, and exactly which strings and
 keys are printed without quotes.
 */
module YamlQuoting {
  import opened Decimal
  import opened Text
  import opened YamlWriter

  // ---------- Digits of any script ----------

  predicate IsInRun(code: int, start: int) {
    start <= code <= start + 9
  }

  lemma {:induction false} InRunsMeans(code: int, starts: seq<int>)
    ensures InRuns(code, starts) <==> exists x <- starts :: IsInRun(code, x)
  {
    if starts != [] {
      InRunsMeans(code, starts[1..]);
      if x :| x in starts && IsInRun(code, x) {
        assert x == starts[0] || x in starts[1..];
      }
      if x :| x in starts[1..] && IsInRun(code, x) {
        assert x in starts;
      }
      assert starts[0] in starts;
    }
  }

  lemma BasicScripts(x: int)
    requires x in BASIC_DIGITS
    ensures 0x660 <= x && x + 9 < 0x1100
  {
  }

  lemma AsianScripts(x: int)
    requires x in ASIAN_DIGITS
    ensures (0x660 <= x && x + 9 < 0x1100) || (0x17E0 <= x && x + 9 < 0x1D00) || (0xA620 <= x && x + 9 < 0xABFA)
  {
  }

  lemma PlaneScripts(x: int)
    requires x in PLANE_DIGITS
    ensures (0xA620 <= x && x + 9 < 0xABFA) || (0xFF10 <= x && x + 9 < 0xFF1A) || 0x10000 <= x
  {
  }

  lemma LateScripts(x: int)
    requires x in LATE_DIGITS
    ensures 0x10000 <= x
  {
  }

  lemma RunsLieInScripts(code: int, start: int)
    requires start in OTHER_DIGITS && IsInRun(code, start)
    ensures IsOtherScript(code)
  {
    if start in BASIC_DIGITS {
      BasicScripts(start);
    } else if start in ASIAN_DIGITS {
      AsianScripts(start);
    } else if start in PLANE_DIGITS {
      PlaneScripts(start);
    } else {
      LateScripts(start);
    }
  }

  /** A decimal digit is an ASCII one or lies in a run of another script. */
  lemma DigitExactly(c: char)
    ensures IsAnyDigit(c) <==> '0' <= c <= '9' || exists x <- OTHER_DIGITS :: IsInRun(c as int, x)
  {
    InRunsMeans(c as int, OTHER_DIGITS);
    if x :| x in OTHER_DIGITS && IsInRun(c as int, x) {
      RunsLieInScripts(c as int, x);
    }
  }

  // ---------- Numbers ----------

  predicate AllDigits(t: string) {
    forall i | 0 <= i < |t| :: IsAnyDigit(t[i])
  }

  predicate IsSign(t: string) {
    t == "" || t == "+" || t == "-"
  }

  predicate IsPowerOf(t: string, letter: string, sign: string, digits: string) {
    && t == letter + (sign + digits)
    && (letter == "e" || letter == "E") && IsSign(sign) && digits != "" && AllDigits(digits)
  }

  ghost predicate IsPower(t: string) {
    t == "" || exists letter, sign, digits :: IsPowerOf(t, letter, sign, digits)
  }

  /** A sign, digits with a point among them or after them or before them, and a power. */
  ghost predicate IsNumberOf(s: string, sign: string, whole: string, point: string, fraction: string, power: string) {
    && s == sign + (whole + (point + (fraction + power)))
    && IsSign(sign) && AllDigits(whole) && AllDigits(fraction) && IsPower(power)
    && (|| (point == "" && whole != "" && fraction == "")
        || (point == "." && (whole != "" || fraction != "")))
  }

  ghost predicate IsNumber(s: string) {
    exists sign, whole, point, fraction, power :: IsNumberOf(s, sign, whole, point, fraction, power)
  }

  lemma {:induction false} DigitsThen(digits: string, rest: string)
    requires AllDigits(digits) && (rest == "" || !IsAnyDigit(rest[0]))
    ensures LeadingDigits(digits + rest) == |digits| && (digits + rest)[|digits|..] == rest
  {
    if digits == "" {
      assert digits + rest == rest;
    } else {
      assert (digits + rest)[1..] == digits[1..] + rest;
      DigitsThen(digits[1..], rest);
    }
  }

  lemma {:induction false} StopsAtOther(s: string)
    ensures LeadingDigits(s) < |s| ==> !IsAnyDigit(s[LeadingDigits(s)])
  {
    if s != "" && IsAnyDigit(s[0]) {
      StopsAtOther(s[1..]);
    }
  }

  lemma SignThen(sign: string, rest: string)
    requires IsSign(sign) && rest != "" && rest[0] != '+' && rest[0] != '-'
    ensures DropSign(sign + rest) == rest
  {
    assert sign == "" ==> sign + rest == rest;
    assert sign != "" ==> (sign + rest)[0] == sign[0] && (sign + rest)[1..] == rest;
  }

  lemma SignOf(s: string) returns (sign: string)
    ensures IsSign(sign) && s == sign + DropSign(s)
  {
    sign := s[..|s| - |DropSign(s)|];
    assert s == sign + DropSign(s);
  }

  lemma DigitsWhole(s: string)
    ensures IsDigits(s) <==> s != "" && AllDigits(s)
  {
    if AllDigits(s) {
      DigitsThen(s, "");
      assert s + "" == s;
    }
  }

  lemma PowerIff(t: string)
    ensures IsExponent(t) <==> IsPower(t)
  {
    if t != "" && IsExponent(t) {
      var sign := SignOf(t[1..]);
      DigitsWhole(DropSign(t[1..]));
      assert t == [t[0]] + t[1..];
      assert IsPowerOf(t, [t[0]], sign, DropSign(t[1..]));
    }
    if letter, sign, digits :| IsPowerOf(t, letter, sign, digits) {
      DigitsWhole(digits);
      assert t[1..] == sign + digits && IsAnyDigit(digits[0]);
      SignThen(sign, digits);
    }
  }

  lemma PowerStart(power: string)
    requires IsPower(power) && power != ""
    ensures !IsAnyDigit(power[0]) && power[0] != '.'
  {
    PowerIff(power);
  }

  lemma NumericHasParts(s: string)
    requires IsNumeric(s)
    ensures IsNumber(s)
  {
    var sign := SignOf(s);
    var u := DropSign(s);
    var k := LeadingDigits(u);
    var rest := u[k..];
    var whole := u[..k];
    assert u == whole + rest;
    assert AllDigits(whole);
    if rest != "" && rest[0] == '.' {
      PointedHasParts(s, sign, whole, rest);
    } else {
      WholeHasParts(s, sign, whole, rest);
    }
  }

  lemma WholeHasParts(s: string, sign: string, whole: string, rest: string)
    requires s == sign + (whole + rest) && IsSign(sign) && AllDigits(whole) && whole != "" && IsExponent(rest)
    ensures IsNumber(s)
  {
    PowerIff(rest);
    assert rest == "" + ("" + rest);
    assert IsNumberOf(s, sign, whole, "", "", rest);
  }

  lemma PointedHasParts(s: string, sign: string, whole: string, rest: string)
    requires s == sign + (whole + rest) && IsSign(sign) && AllDigits(whole) && rest != "" && rest[0] == '.'
    requires var m := LeadingDigits(rest[1..]); |whole| + m > 0 && IsExponent(rest[1..][m..])
    ensures IsNumber(s)
  {
    var m := LeadingDigits(rest[1..]);
    var fraction, power := rest[1..][..m], rest[1..][m..];
    PowerIff(power);
    assert rest == "." + (fraction + power);
    assert IsNumberOf(s, sign, whole, ".", fraction, power);
  }

  lemma PartsAreNumeric(s: string, sign: string, whole: string, point: string, fraction: string, power: string)
    requires IsNumberOf(s, sign, whole, point, fraction, power)
    ensures IsNumeric(s)
  {
    var tail := fraction + power;
    var rest := point + tail;
    var u := whole + rest;
    PowerIff(power);
    if power != "" {
      PowerStart(power);
    }
    assert u[0] == if whole != "" then whole[0] else '.';
    SignThen(sign, u);
    if point == "." {
      DigitsThen(whole, rest);
      DigitsThen(fraction, power);
      assert rest[1..] == tail;
    } else {
      assert rest == power;
      DigitsThen(whole, rest);
    }
  }

  /** The pattern for numbers. */
  lemma NumericIff(s: string)
    ensures IsNumeric(s) <==> IsNumber(s)
  {
    if IsNumeric(s) {
      NumericHasParts(s);
    }
    if sign, whole, point, fraction, power :| IsNumberOf(s, sign, whole, point, fraction, power) {
      PartsAreNumeric(s, sign, whole, point, fraction, power);
    }
  }

  // ---------- What is printed bare ----------

  /** The words that other types are spelled with, in any case. */
  predicate IsTypeWord(s: string) {
    var w := Lower(s);
    || w == "true" || w == "yes" || w == "on" || w == "y"
    || w == "false" || w == "no" || w == "off" || w == "n"
    || w == "null" || w == "none" || w == "~"
  }

  predicate IsTemplate(s: string) {
    |s| >= 2 && s[0] == '{' && (s[1] == '{' || s[1] == '%')
  }

  ghost predicate IsNumberLine(s: string) {
    IsNumber(s) || (s != "" && s[|s| - 1] == '\n' && IsNumber(s[..|s| - 1]))
  }

  predicate IsTokenChar(c: char) {
    || 'a' <= c <= 'z' || 'A' <= c <= 'Z' || '0' <= c <= '9'
    || c == '_' || c == '.' || c == '/' || c == '@' || c == '+' || c == '-'
  }

  /** A name or path. */
  predicate IsToken(s: string) {
    && s != "" && (forall i | 0 <= i < |s| :: IsTokenChar(s[i]))
    && s[0] != '.' && s[0] != '/' && s[0] != '@' && s[0] != '+' && s[0] != '-'
  }

  predicate IsIndicator(c: char) {
    || c == '-' || c == '?' || c == ':' || c == ',' || c == '[' || c == ']' || c == '{' || c == '}' || c == '#'
    || c == '&' || c == '*' || c == '!' || c == '|' || c == '>' || c == '\'' || c == '\"' || c == '%' || c == '@' || c == '`'
  }

  /** No white space at its ends, no indicator in front, nothing in it that opens a mapping or a comment. */
  predicate IsPhrase(s: string) {
    && s != "" && !IsSpace(s[0]) && !IsSpace(s[|s| - 1]) && !IsIndicator(s[0]) && s[|s| - 1] != ':'
    && (forall i | 0 <= i < |s| :: s[i] != '\n' && s[i] != '\t')
    && (forall i | 0 < i < |s| :: !(s[i - 1] == ':' && s[i] == ' ') && !(s[i - 1] == ' ' && s[i] == '#'))
  }

  lemma WordIff(s: string)
    ensures IsAmbiguous(s) <==> s == "" || IsTypeWord(s)
  {
    assert |Lower(s)| == |s|;
  }

  lemma IndicatorIff(c: char)
    ensures c in LEADING_INDICATORS <==> IsIndicator(c)
  {
  }

  lemma PhraseIff(s: string)
    ensures IsPlainPhrase(s) <==> IsPhrase(s)
  {
    if s != "" {
      IndicatorIff(s[0]);
    }
    if IsPlainPhrase(s) {
      forall i | 0 < i < |s| ensures !(s[i - 1] == ':' && s[i] == ' ') && !(s[i - 1] == ' ' && s[i] == '#') {
        assert 0 <= i - 1 < |s| - 1;
      }
      forall i | 0 <= i < |s| ensures s[i] != '\n' && s[i] != '\t' {
        assert s[i] in s;
      }
    }
  }

  lemma TokenIff(s: string)
    ensures IsPlainSafe(s) <==> IsToken(s)
  {
    if IsPlainSafe(s) {
      forall i | 0 <= i < |s| ensures IsTokenChar(s[i]) {
        assert s[i] in s && IsSafeChar(s[i]);
      }
    }
  }

  lemma NumberLineIff(s: string)
    ensures MatchesNumeric(s) <==> IsNumberLine(s)
  {
    NumericIff(s);
    if s != "" {
      NumericIff(s[..|s| - 1]);
    }
  }

  lemma SafeLineIff(s: string)
    ensures MatchesPlainSafe(s) && '\n' !in s <==> IsToken(s)
  {
    TokenIff(s);
    if s != "" {
      assert s[|s| - 1] in s;
    }
  }

  lemma EscapeNotShorter(s: string)
    ensures "\"" + Escape(s) + "\"" != s
  {
    EscapedLength(s);
  }

  lemma {:induction false} LongerReplaced(s: string, c: char, replacement: string)
    requires replacement != ""
    ensures |ReplaceChar(s, c, replacement)| >= |s|
  {
    if s != "" {
      LongerReplaced(s[1..], c, replacement);
    }
  }

  lemma EscapedLength(s: string)
    ensures |Escape(s)| >= |s|
  {
    var first := ReplaceChar(s, '\\', "\\\\");
    LongerReplaced(s, '\\', "\\\\");
    LongerReplaced(first, '\"', "\\\"");
    LongerReplaced(ReplaceChar(first, '\"', "\\\""), '\n', "\\n");
  }

  /** A string is printed without quotes exactly when it opens no template, spells no other type and
      no number, and is a token or a phrase. */
  lemma PrintedBareIff(s: string)
    ensures StringScalar(s) == s <==>
            !IsTemplate(s) && !IsTypeWord(s) && !IsNumberLine(s) && (IsToken(s) || IsPhrase(s))
  {
    WordIff(s);
    NumberLineIff(s);
    SafeLineIff(s);
    PhraseIff(s);
    EscapeNotShorter(s);
    TemplateIff(s);
    assert "\"" + s + "\"" != s;
  }

  lemma TemplateIff(s: string)
    ensures StartsWith(s, "{{") || StartsWith(s, "{%") <==> IsTemplate(s)
  {
    if |s| >= 2 {
      assert s[..2] == [s[0], s[1]];
    }
  }

  /** A key is printed without quotes exactly when it is a token, or one before a line break. */
  lemma KeyBareIff(k: string)
    ensures Key(k) == k <==> IsToken(k) || (k != "" && k[|k| - 1] == '\n' && IsToken(k[..|k| - 1]))
  {
    TokenIff(k);
    if k != "" {
      TokenIff(k[..|k| - 1]);
    }
    EscapeNotShorter(k);
  }

  // ---------- Floats ----------

  predicate AllAsciiDigits(t: string) {
    forall i | 0 <= i < |t| :: '0' <= t[i] <= '9'
  }

  predicate IsFloatPower(t: string, sign: string, digits: string) {
    t == "e" + (sign + digits) && (sign == "+" || sign == "-") && digits != "" && AllAsciiDigits(digits)
  }

  /** Digits with a point inside, or a power, or both. */
  ghost predicate IsFloatOf(u: string, whole: string, fraction: string, power: string) {
    && whole != "" && AllAsciiDigits(whole) && AllAsciiDigits(fraction)
    && (power == "" || exists sign, digits :: IsFloatPower(power, sign, digits))
    && (|| (fraction != "" && u == whole + ("." + (fraction + power)))
        || (fraction == "" && power != "" && u == whole + power))
  }

  ghost predicate IsFloat(t: string) {
    exists minus, u :: t == minus + u && (minus == "" || minus == "-") && IsUnsigned(u)
  }

  ghost predicate IsUnsigned(u: string) {
    u == "inf" || u == "nan" || exists whole, fraction, power :: IsFloatOf(u, whole, fraction, power)
  }

  lemma AsciiDigits(t: string)
    requires IsAscii(t)
    ensures AllDigits(t) <==> AllAsciiDigits(t)
  {
    forall i | 0 <= i < |t| ensures IsAnyDigit(t[i]) <==> '0' <= t[i] <= '9' {
      assert t[i] in t;
    }
  }

  lemma FloatPowerIff(t: string)
    requires IsAscii(t)
    ensures IsExponentText(t) <==> exists sign, digits :: IsFloatPower(t, sign, digits)
  {
    if |t| > 2 {
      AsciiPart(t, 2);
      DigitsWhole(t[2..]);
      AsciiDigits(t[2..]);
    }
    if IsExponentText(t) {
      assert t == "e" + ([t[1]] + t[2..]);
      assert IsFloatPower(t, [t[1]], t[2..]);
    }
    if sign, digits :| IsFloatPower(t, sign, digits) {
      assert t[2..] == digits;
    }
  }

  lemma AsciiPart(t: string, i: nat)
    requires IsAscii(t) && i <= |t|
    ensures IsAscii(t[i..]) && IsAscii(t[..i])
  {
    forall c | c in t[i..] || c in t[..i] ensures c < 0x80 as char {
      assert c in t;
    }
  }

  lemma UnsignedHasParts(u: string)
    requires IsAscii(u) && IsUnsignedFloat(u)
    ensures IsUnsigned(u)
  {
    var k := LeadingDigits(u);
    AsciiPart(u, k);
    AsciiDigits(u[..k]);
    assert u == u[..k] + u[k..];
    if 0 < k < |u| && u[k] == '.' && IsFractionText(u[k + 1..]) {
      FractionHasParts(u, u[..k], u[k..]);
    } else if 0 < k && IsExponentText(u[k..]) {
      FloatPowerIff(u[k..]);
      assert IsFloatOf(u, u[..k], "", u[k..]);
    }
  }

  lemma FractionHasParts(u: string, whole: string, rest: string)
    requires u == whole + rest && whole != "" && AllAsciiDigits(whole) && IsAscii(rest)
    requires rest != "" && rest[0] == '.' && IsFractionText(rest[1..])
    ensures IsUnsigned(u)
  {
    var t := rest[1..];
    var m := LeadingDigits(t);
    AsciiPart(rest, 1);
    AsciiPart(t, m);
    AsciiDigits(t[..m]);
    FloatPowerIff(t[m..]);
    assert rest == "." + (t[..m] + t[m..]);
    assert IsFloatOf(u, whole, t[..m], t[m..]);
  }

  lemma PartsAreUnsigned(u: string, whole: string, fraction: string, power: string)
    requires IsAscii(u) && IsFloatOf(u, whole, fraction, power)
    ensures IsUnsignedFloat(u)
  {
    assert forall c <- power :: c in u;
    FloatPowerIff(power);
    if fraction != "" {
      FractionIs(fraction, power);
      DigitsThen(whole, "." + (fraction + power));
      assert u[|whole| + 1..] == fraction + power;
    } else {
      DigitsThen(whole, power);
    }
  }

  lemma FractionIs(fraction: string, power: string)
    requires fraction != "" && AllAsciiDigits(fraction) && (power == "" || IsExponentText(power))
    ensures IsFractionText(fraction + power)
  {
    DigitsThen(fraction, power);
  }

  /** How floats are taken to print. */
  lemma FloatTextIff(t: string)
    ensures IsFloatText(t) <==> IsAscii(t) && IsFloat(t)
  {
    if IsFloatText(t) {
      FloatHasParts(t);
    }
    if minus, u :| IsAscii(t) && t == minus + u && (minus == "" || minus == "-") && IsUnsigned(u) {
      assert u == t[|minus|..];
      AsciiPart(t, |minus|);
      PartsAreFloat(t, minus, u);
    }
  }

  lemma FloatHasParts(t: string)
    requires IsFloatText(t)
    ensures IsFloat(t)
  {
    var minus := if t != "" && t[0] == '-' then "-" else "";
    var u := t[|minus|..];
    AsciiPart(t, |minus|);
    UnsignedHasParts(u);
    assert t == minus + u;
  }

  lemma PartsAreFloat(t: string, minus: string, u: string)
    requires IsAscii(t) && IsAscii(u) && t == minus + u && (minus == "" || minus == "-") && IsUnsigned(u)
    ensures IsFloatText(t)
  {
    if whole, fraction, power :| IsFloatOf(u, whole, fraction, power) {
      PartsAreUnsigned(u, whole, fraction, power);
      assert u[0] == whole[0];
    }
    assert u[0] != '-';
    assert minus == "" ==> t == u;
    assert minus == "-" ==> t[1..] == u;
  }
}
