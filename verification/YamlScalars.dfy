/** Reading one scalar or key back from its printed text. */
module YamlScalars {
  import opened Decimal
  import opened Wrappers
  import opened Text
  import opened YamlWriter
  import opened YamlReader

  // ---------- Quoted text ----------

  function EscapeChar(c: char): string {
    if c == '\\' then "\\\\" else if c == '\"' then "\\\"" else if c == '\n' then "\\n" else [c]
  }

  function EscapeEach(s: string): string {
    if s == "" then "" else EscapeChar(s[0]) + EscapeEach(s[1..])
  }

  lemma EscapeOneChar(c: char)
    ensures Escape([c]) == EscapeChar(c)
  {
    ReplaceCharOne(c, '\\', "\\\\");
    if c == '\\' {
      ReplaceCharAbsent("\\\\", '\"', "\\\"");
      ReplaceCharAbsent("\\\\", '\n', "\\n");
    } else {
      ReplaceCharOne(c, '\"', "\\\"");
      if c == '\"' {
        ReplaceCharAbsent("\\\"", '\n', "\\n");
      } else {
        ReplaceCharOne(c, '\n', "\\n");
      }
    }
  }

  lemma EscapeConcat(s: string, t: string)
    ensures Escape(s + t) == Escape(s) + Escape(t)
  {
    ReplaceCharConcat(s, t, '\\', "\\\\");
    var s1, t1 := ReplaceChar(s, '\\', "\\\\"), ReplaceChar(t, '\\', "\\\\");
    ReplaceCharConcat(s1, t1, '\"', "\\\"");
    ReplaceCharConcat(ReplaceChar(s1, '\"', "\\\""), ReplaceChar(t1, '\"', "\\\""), '\n', "\\n");
  }

  lemma {:induction false} EscapeIsEach(s: string)
    ensures Escape(s) == EscapeEach(s)
  {
    if s != "" {
      assert s == [s[0]] + s[1..];
      EscapeConcat([s[0]], s[1..]);
      EscapeOneChar(s[0]);
      EscapeIsEach(s[1..]);
    }
  }

  /** Characters that no line may hold and that the writer has no escape for: carriage returns,
      control characters, the Unicode line breaks. */
  predicate HasUnescaped(s: string) {
    exists c <- s :: !IsReadableChar(c)
  }

  predicate IsReadableChar(c: char) {
    IsLineChar(c) || c == '\n'
  }

  lemma EscapedCharReads(c: char, rest: string)
    ensures ReadQuoted(EscapeChar(c) + rest) == if IsReadableChar(c) then Prefixed(c, ReadQuoted(rest)) else None
  {
    var t := EscapeChar(c) + rest;
    if |EscapeChar(c)| == 2 {
      assert t[2..] == rest;
    } else {
      assert t[1..] == rest;
    }
  }

  lemma FirstUnescaped(s: string)
    requires s != ""
    ensures HasUnescaped(s) <==> !IsReadableChar(s[0]) || HasUnescaped(s[1..])
    ensures s == [s[0]] + s[1..]
  {
  }

  lemma {:induction false} EscapedReads(s: string, after: string)
    ensures ReadQuoted(EscapeEach(s) + "\"" + after) == if HasUnescaped(s) then None else Some(Quoted(s, after))
  {
    if s == "" {
      assert EscapeEach(s) + "\"" + after == "\"" + after;
      assert ("\"" + after)[1..] == after;
    } else {
      EscapedReads(s[1..], after);
      FirstUnescaped(s);
      assert EscapeEach(s) + "\"" + after == EscapeChar(s[0]) + (EscapeEach(s[1..]) + "\"" + after);
      EscapedCharReads(s[0], EscapeEach(s[1..]) + "\"" + after);
    }
  }

  lemma QuotedReads(s: string, after: string)
    ensures ReadQuoted(Escape(s) + "\"" + after) == if HasUnescaped(s) then None else Some(Quoted(s, after))
  {
    EscapeIsEach(s);
    EscapedReads(s, after);
  }

  predicate NeedsNoEscape(s: string) {
    forall c <- s :: c != '\"' && c != '\\' && IsLineChar(c)
  }

  lemma {:induction false} NoEscape(s: string)
    requires NeedsNoEscape(s)
    ensures EscapeEach(s) == s
  {
    if s != "" {
      NoEscape(s[1..]);
      assert s[0] in s;
      assert s == [s[0]] + s[1..];
    }
  }

  lemma RawReads(s: string, after: string)
    requires NeedsNoEscape(s)
    ensures ReadQuoted(s + "\"" + after) == Some(Quoted(s, after))
  {
    NoEscape(s);
    EscapedReads(s, after);
  }

  /** Without its closing quote nothing is read. */
  lemma {:induction false} Unclosed(s: string)
    requires NeedsNoEscape(s)
    ensures ReadQuoted(s).None?
  {
    if s != "" {
      assert s[0] in s;
      Unclosed(s[1..]);
    }
  }

  /** What was read as quoted text holds nothing forbidden. */
  lemma {:induction false} QuotedHasNoForbidden(t: string)
    requires ReadQuoted(t).Some? && !HasForbidden(ReadQuoted(t).value.after)
    ensures !HasForbidden(t)
    decreases |t|
  {
    if t[0] == '\"' {
      assert t == [t[0]] + t[1..];
    } else if t[0] == '\\' {
      QuotedHasNoForbidden(t[2..]);
      assert t == [t[0], t[1]] + t[2..];
    } else {
      QuotedHasNoForbidden(t[1..]);
      assert t == [t[0]] + t[1..];
    }
  }

  // ---------- Numbers and reserved words ----------

  predicate IsNumberChar(c: char) {
    IsAnyDigit(c) || c == '+' || c == '-' || c == '.' || c == 'e' || c == 'E'
  }

  lemma NumberCharIsPlain(c: char)
    requires IsNumberChar(c)
    ensures IsLineChar(c) && !IsSpace(c) && c != '\"' && c != '\\' && c != ':' && c != '#' && c != '~' && c != '{' && c != '['
    ensures IsLetter(c) ==> c == 'e' || c == 'E'
  {
  }

  lemma NumberCharLeads(c: char)
    requires IsNumberChar(c)
    ensures c in LEADING_INDICATORS ==> c == '-'
  {
  }

  predicate AllNumberChars(s: string) {
    forall c <- s :: IsNumberChar(c)
  }

  lemma SplitChars(s: string, k: nat)
    requires k <= |s| && AllNumberChars(s[..k]) && AllNumberChars(s[k..])
    ensures AllNumberChars(s)
  {
    assert s == s[..k] + s[k..];
  }

  lemma LeadingDigitChars(s: string)
    ensures AllNumberChars(s[..LeadingDigits(s)])
  {
  }

  lemma DropSignChars(s: string)
    requires AllNumberChars(DropSign(s))
    ensures AllNumberChars(s)
  {
    if DropSign(s) != s {
      assert s == [s[0]] + s[1..];
    }
  }

  lemma ExponentChars(s: string)
    requires IsExponent(s)
    ensures AllNumberChars(s)
  {
    if s != "" {
      LeadingDigitChars(DropSign(s[1..]));
      assert DropSign(s[1..])[..|DropSign(s[1..])|] == DropSign(s[1..]);
      DropSignChars(s[1..]);
      assert s == [s[0]] + s[1..];
    }
  }

  lemma NumericChars(s: string)
    requires IsNumeric(s)
    ensures AllNumberChars(s)
  {
    var u := DropSign(s);
    var k := LeadingDigits(u);
    var rest := u[k..];
    LeadingDigitChars(u);
    if rest != "" && rest[0] == '.' {
      var m := LeadingDigits(rest[1..]);
      LeadingDigitChars(rest[1..]);
      ExponentChars(rest[1..][m..]);
      SplitChars(rest[1..], m);
      assert rest == [rest[0]] + rest[1..];
    } else {
      ExponentChars(rest);
    }
    SplitChars(u, k);
    DropSignChars(s);
  }

  lemma {:induction false} AllDigitsLead(s: string)
    requires forall c <- s :: IsAnyDigit(c)
    ensures LeadingDigits(s) == |s|
  {
    if s != "" {
      assert s[0] in s;
      AllDigitsLead(s[1..]);
    }
  }

  lemma IntegerIsNumeric(t: string)
    requires IsIntegerText(t)
    ensures IsNumeric(t)
  {
    var u := DropSign(t);
    AllDigitsLead(u);
    assert u[|u|..] == "";
  }

  lemma AmbiguousChars(s: string)
    requires IsAmbiguous(s)
    ensures forall i :: 0 <= i < |s| ==> IsLetter(LowerChar(s[i])) || s[i] == '~'
  {
    var lower := Lower(s);
    assert forall i :: 0 <= i < |lower| ==> IsLetter(lower[i]) || lower[i] == '~';
    assert forall i :: 0 <= i < |s| ==> lower[i] == LowerChar(s[i]);
  }

  lemma AmbiguousNeedsNoEscape(s: string)
    requires IsAmbiguous(s)
    ensures NeedsNoEscape(s)
  {
    AmbiguousChars(s);
  }

  // ---------- Text on one line ----------

  /** A one-line text that is neither a sequence nor a mapping entry and reads as `v`. */
  predicate ReadsAs(t: string, v: Value) {
    t != "" && !IsSpace(t[0]) && t[0] != '#' && !IsDash(t) && t != "---"
    && SplitEntry(t).None? && ReadInline(t) == Some(v)
  }

  lemma {:induction false} NoSeparator(t: string, from: nat)
    requires t != "" && !HasPair(t, ':', ' ') && t[|t| - 1] != ':'
    ensures FindSeparator(t, from).None?
    decreases |t| - from
  {
    if from < |t| {
      NoSeparator(t, from + 1);
    }
  }

  lemma PlainReadsAs(t: string)
    requires IsPlain(t) && t[0] != '\"' && t[0] != '#' && !IsDash(t) && t != "---" && t != "{}" && t != "[]"
    requires Resolve(t).Some?
    ensures ReadsAs(t, Resolve(t).value)
  {
    NoSeparator(t, 0);
  }

  lemma QuotedReadsAs(body: string, content: string)
    requires ReadQuoted(body + "\"") == Some(Quoted(content, ""))
    ensures ReadsAs("\"" + body + "\"", Str(content))
  {
    var t := "\"" + body + "\"";
    assert t[1..] == body + "\"";
  }

  /** The string is printed without quotes. */
  predicate IsBare(s: string) {
    && s != "" && !StartsWith(s, "{{") && !StartsWith(s, "{%") && !IsAmbiguous(s) && !MatchesNumeric(s)
    && ((MatchesPlainSafe(s) && '\n' !in s) || IsPlainPhrase(s))
  }

  lemma BareIsPrintedBare(s: string)
    ensures IsBare(s) ==> StringScalar(s) == s
    ensures !IsBare(s) ==> StringScalar(s) != "" && StringScalar(s)[0] == '\"'
  {
  }

  /** The text is printed bare, but some version takes it for a number, a date or a mark. */
  predicate IsMisread(s: string) {
    IsBare(s) && IsForeign(s)
  }

  /** The string is printed on one line and in characters a quoted or plain scalar may hold. */
  predicate IsLineSafe(s: string) {
    !HasUnescaped(s) && !(MatchesNumeric(s) && '\n' in s)
  }

  /** The versions disagree about the printed text. */
  predicate IsDisputed(s: string) {
    IsBare(s) && Resolve(s).None?
  }

  function ReadBack(s: string): Value
    requires !IsDisputed(s)
  {
    if IsBare(s) then Resolve(s).value else Str(s)
  }

  lemma WordIsAmbiguous(s: string)
    requires !IsAmbiguous(s)
    ensures !IsWord(s, {"null", "~"}) && !IsWord(s, {"true"}) && !IsWord(s, {"false"})
    ensures !IsWord(s, {"true", "yes", "on", "y"}) && !IsWord(s, {"false", "no", "off", "n"})
  {
    var lower := Lower(s);
    assert lower !in NULL_WORDS && lower !in TRUE_WORDS && lower !in FALSE_WORDS;
  }

  /** What the versions make of a bare string is that string or a number with its text. */
  lemma BareValues(s: string)
    requires !IsAmbiguous(s) && !MatchesNumeric(s)
    ensures CoreValue(s) == Str(s) || CoreValue(s) == Other(s)
    ensures OldValue(s) == Str(s) || OldValue(s) == Other(s)
    ensures Resolve(s) == Some(Str(s)) <==> !IsForeign(s)
    ensures IsForeign(s) && Resolve(s).Some? ==> Resolve(s) == Some(Other(s))
  {
    WordIsAmbiguous(s);
    if IsIntegerText(s) {
      IntegerIsNumeric(s);
    }
  }

  lemma NoIndicator(c: char)
    requires c !in LEADING_INDICATORS
    ensures c != '\"' && c != '#' && c != '-' && c != '{' && c != '['
  {
    assert '\"' in LEADING_INDICATORS && '#' in LEADING_INDICATORS && '-' in LEADING_INDICATORS
        && '{' in LEADING_INDICATORS && '[' in LEADING_INDICATORS;
  }

  lemma BarePlain(s: string)
    requires !IsAmbiguous(s) && !MatchesNumeric(s)
    requires IsPlain(s) && s[0] !in LEADING_INDICATORS
    ensures ReadInline(s) == Resolve(s)
    ensures Resolve(s).Some? ==> ReadsAs(s, Resolve(s).value)
  {
    NoIndicator(s[0]);
    if Resolve(s).Some? {
      PlainReadsAs(s);
    }
  }

  lemma SafeIsPlain(s: string)
    requires IsPlainSafe(s)
    ensures IsPlain(s) && s[0] !in LEADING_INDICATORS
  {
    assert forall i :: 0 <= i < |s| ==> s[i] in s && IsSafeChar(s[i]);
    WordCharLeads(s[0]);
  }

  lemma WordCharLeads(c: char)
    requires IsWordChar(c)
    ensures c !in LEADING_INDICATORS
  {
  }

  lemma PhraseIsPlain(s: string)
    requires IsPlainPhrase(s) && !HasUnescaped(s)
    ensures IsPlain(s) && s[0] !in LEADING_INDICATORS
  {
  }

  lemma {:induction false} NumberNeedsNoEscape(s: string)
    requires AllNumberChars(s)
    ensures NeedsNoEscape(s)
  {
    forall c | c in s ensures c != '\"' && c != '\\' && IsLineChar(c) {
      NumberCharIsPlain(c);
    }
  }

  lemma NumericNeedsNoEscape(s: string)
    requires MatchesNumeric(s) && '\n' !in s
    ensures NeedsNoEscape(s)
  {
    LastInside(s);
    NumericChars(s);
    NumberNeedsNoEscape(s);
  }

  lemma LastInside(s: string)
    ensures s != "" ==> s[|s| - 1] in s
  {
  }

  lemma BareIsPlain(s: string)
    requires !HasUnescaped(s) && IsBare(s)
    ensures IsPlain(s) && s[0] !in LEADING_INDICATORS
  {
    LastInside(s);
    if IsPlainSafe(s) {
      SafeIsPlain(s);
    } else {
      PhraseIsPlain(s);
    }
  }

  lemma RawReadsAs(s: string)
    requires NeedsNoEscape(s)
    ensures ReadsAs("\"" + s + "\"", Str(s))
  {
    RawReads(s, "");
    assert s + "\"" + "" == s + "\"";
    QuotedReadsAs(s, s);
  }

  lemma EscapedReadsAs(s: string)
    requires !HasUnescaped(s)
    ensures ReadsAs("\"" + Escape(s) + "\"", Str(s))
  {
    QuotedReads(s, "");
    assert Escape(s) + "\"" + "" == Escape(s) + "\"";
    QuotedReadsAs(Escape(s), s);
  }

  /** Printed in quotes without escapes. */
  predicate IsRaw(s: string) {
    s != "" && !StartsWith(s, "{{") && !StartsWith(s, "{%") && (IsAmbiguous(s) || MatchesNumeric(s))
  }

  lemma RawPrinted(s: string)
    requires IsRaw(s)
    ensures StringScalar(s) == "\"" + s + "\"" && !IsBare(s)
  {
  }

  lemma EscapedPrinted(s: string)
    requires !IsBare(s) && !IsRaw(s) && s != ""
    ensures StringScalar(s) == "\"" + Escape(s) + "\""
  {
  }

  /** A line-safe string is read: in quotes as itself, bare as what the versions agree on. */
  lemma StringReadsBack(s: string)
    requires IsLineSafe(s) && !IsDisputed(s)
    ensures ReadsAs(StringScalar(s), ReadBack(s))
  {
    BareIsPrintedBare(s);
    if IsBare(s) {
      BareIsPlain(s);
      BarePlain(s);
    } else if s == "" {
      RawReadsAs("");
      assert "\"" + "" + "\"" == "\"\"";
    } else if IsRaw(s) {
      if IsAmbiguous(s) {
        AmbiguousNeedsNoEscape(s);
      } else {
        NumericNeedsNoEscape(s);
      }
      RawReadsAs(s);
    } else {
      EscapedReadsAs(s);
    }
  }

  lemma BrokenQuotesRefused(body: string)
    requires HasForbidden(body)
    ensures ReadInline("\"" + body + "\"").None?
  {
    var t := "\"" + body + "\"";
    var c :| c in body && !IsLineChar(c);
    assert t[1..] == body + "\"" && c in t[1..];
    if ReadQuoted(t[1..]).Some? && ReadQuoted(t[1..]).value.after == "" {
      QuotedHasNoForbidden(t[1..]);
    }
  }

  lemma {:induction false} EscapeKeepsForbidden(s: string)
    requires HasUnescaped(s)
    ensures HasForbidden(EscapeEach(s))
  {
    assert s == [s[0]] + s[1..];
    if !IsLineChar(s[0]) && s[0] != '\n' {
      assert EscapeEach(s)[0] == s[0];
    } else {
      EscapeKeepsForbidden(s[1..]);
    }
  }

  lemma ForbiddenRefused(t: string)
    requires t != "" && t[0] != '\"' && HasForbidden(t)
    ensures ReadInline(t).None?
  {
    assert forall c <- "{}" :: IsLineChar(c);
    assert forall c <- "[]" :: IsLineChar(c);
  }

  lemma BareStart(s: string)
    requires IsBare(s)
    ensures s[0] != '\"'
  {
    if IsPlainPhrase(s) {
      assert '\"' in LEADING_INDICATORS;
    }
  }

  /** The numeric case quotes without escaping, so a line break there breaks the line in two;
      other characters that need an escape have none. */
  lemma UnsafeFails(s: string)
    requires !IsLineSafe(s)
    ensures ReadInline(StringScalar(s)).None?
  {
    if MatchesNumeric(s) && '\n' in s {
      NumericNotTemplate(s);
      RawPrinted(s);
      BrokenQuotesRefused(s);
    } else if IsBare(s) {
      BareIsPrintedBare(s);
      BareStart(s);
      ForbiddenRefused(s);
    } else if IsRaw(s) {
      RawPrinted(s);
      BrokenQuotesRefused(s);
    } else {
      EscapedPrinted(s);
      EscapeIsEach(s);
      EscapeKeepsForbidden(s);
      BrokenQuotesRefused(Escape(s));
    }
  }

  /** A string survives exactly when it holds no character the writer cannot put on a line and its
      bare text is a number, a date or a mark in neither version. */
  lemma StringReadsBackIff(s: string)
    ensures ReadInline(StringScalar(s)) == Some(Str(s)) <==> IsLineSafe(s) && !IsMisread(s)
  {
    if !IsLineSafe(s) {
      UnsafeFails(s);
    } else if IsBare(s) {
      BareValues(s);
      BareIsPrintedBare(s);
      BareIsPlain(s);
      BarePlain(s);
    } else {
      StringReadsBack(s);
    }
  }

  lemma NumericNotTemplate(s: string)
    requires MatchesNumeric(s)
    ensures s != "" && s[0] != '{'
  {
    if IsNumeric(s) {
      NumericChars(s);
      assert s[0] in s;
    } else {
      NumericChars(s[..|s| - 1]);
      assert s[..|s| - 1][0] == s[0] && s[..|s| - 1][0] in s[..|s| - 1];
    }
    NumberCharIsPlain(s[0]);
  }

  // ---------- Strings that do not survive ----------

  lemma DigitStart(s: string)
    requires s != "" && IsDigit(s[0])
    ensures !IsAmbiguous(s) && !IsSpecialFloat(s) && !StartsWith(s, "{{") && !StartsWith(s, "{%") && DropSign(s) == s
  {
    assert Lower(s)[0] == s[0];
  }

  lemma HexadecimalForms()
    ensures var s := "0x1F"; IsPlainSafe(s) && !MatchesNumeric(s) && IsCoreNumber(s) && IsOldInteger(s) && !IsOldDecimal(s)
  {
    var s := "0x1F";
    assert s[1..] == "x1F" && LeadingDigits("x1F") == 0 && LeadingDigits(s) == 1;
    assert s[2..] == "1F" && DropSign(s) == s && s[1] == 'x' && s[3] == 'F';
  }

  lemma BareReads(s: string)
    requires IsBare(s) && !HasUnescaped(s)
    ensures ReadInline(StringScalar(s)) == Resolve(s)
  {
    BareIsPlain(s);
    BarePlain(s);
    BareIsPrintedBare(s);
  }

  lemma NumberOfBoth(s: string)
    requires !IsAmbiguous(s) && !MatchesNumeric(s) && IsCoreNumber(s) && IsOldInteger(s)
    ensures Resolve(s) == Some(Other(s))
  {
    WordIsAmbiguous(s);
    BareValues(s);
  }

  /** The misreading happens: hexadecimal text is printed bare. */
  lemma HexadecimalIsMisread()
    ensures ReadInline(StringScalar("0x1F")) == Some(Other("0x1F"))
  {
    HexadecimalForms();
    AgreedNumberReads("0x1F");
  }

  lemma AgreedNumberReads(s: string)
    requires IsPlainSafe(s) && IsDigit(s[0]) && !MatchesNumeric(s) && IsCoreNumber(s) && IsOldInteger(s)
    ensures ReadInline(StringScalar(s)) == Some(Other(s))
  {
    DigitStart(s);
    NumberOfBoth(s);
    SafeIsPlain(s);
    BareReads(s);
  }

  lemma SixtiesRead()
    ensures AfterSixties(":34:56:12:34:56") == ""
  {
    assert ":34:56:12:34:56"[3..] == ":56:12:34:56" && ":56:12:34:56"[3..] == ":12:34:56";
    assert ":12:34:56"[3..] == ":34:56" && ":34:56"[3..] == ":56" && ":56"[3..] == "";
    assert AfterSixties(":34:56") == "" && AfterSixties(":56:12:34:56") == "";
  }

  lemma TwoDigitsLead(s: string, tail: string)
    requires |s| > 2 && '1' <= s[0] <= '9' && IsDigit(s[1]) && tail == s[2..] && tail[0] == ':'
    ensures LeadingSpaced(s) == 2 && LeadingDigits(s) == 2
  {
    assert s[1..][0] == s[1] && s[1..][1..] == tail;
    assert LeadingSpaced(tail) == 0 && LeadingDigits(tail) == 0;
    assert LeadingSpaced(s[1..]) == 1 && LeadingDigits(s[1..]) == 1;
  }

  lemma BaseSixty(s: string, tail: string)
    requires |s| > 2 && '1' <= s[0] <= '9' && IsDigit(s[1]) && tail == s[2..] && tail[0] == ':' && AfterSixties(tail) == ""
    ensures IsOldInteger(s) && !IsNumeric(s)
  {
    TwoDigitsLead(s, tail);
  }

  lemma HardwareAddressIsOldInteger(s: string)
    requires s == "12:34:56:12:34:56"
    ensures IsOldInteger(s) && !IsNumeric(s)
  {
    var tail := s[2..];
    assert tail == ":34:56:12:34:56";
    SixtiesRead();
    BaseSixty(s, tail);
  }

  lemma HardwareAddressIsPhrase(s: string)
    requires s == "12:34:56:12:34:56"
    ensures IsPlainPhrase(s) && !HasUnescaped(s)
  {
    WordCharLeads(s[0]);
    assert forall c <- s :: IsDigit(c) || c == ':';
  }

  lemma NotOfCore(s: string)
    requires !IsAmbiguous(s) && !IsNumeric(s) && !IsSpecialFloat(s) && |s| > 1 && s[1] != 'x' && s[1] != 'o'
    ensures CoreValue(s) == Str(s)
  {
    WordIsAmbiguous(s);
    NotAnInteger(s);
  }

  lemma OldIntegerDisputed(s: string)
    requires CoreValue(s) == Str(s) && IsOldInteger(s)
    ensures Resolve(s).None?
  {
  }

  /** A hardware address of decimal digits is a number in base sixty under version 1.1, and text
      under the core schema. */
  lemma HardwareAddressIsDisputed()
    ensures ReadInline(StringScalar("12:34:56:12:34:56")).None?
  {
    HardwareAddressFails("12:34:56:12:34:56");
  }

  lemma HardwareAddressFails(s: string)
    requires s == "12:34:56:12:34:56"
    ensures ReadInline(StringScalar(s)).None?
  {
    HardwareAddressIsOldInteger(s);
    HardwareAddressIsPhrase(s);
    DigitStart(s);
    NotOfCore(s);
    OldIntegerDisputed(s);
    BareReads(s);
  }

  lemma NotAnInteger(s: string)
    requires !IsNumeric(s)
    ensures !IsIntegerText(s)
  {
    if IsIntegerText(s) {
      IntegerIsNumeric(s);
    }
  }

  /** A control character has no escape here. */
  lemma BellIsRefused()
    ensures ReadInline(StringScalar([7 as char])).None?
  {
    var s := [7 as char];
    assert s[0] in s && !IsLineChar(s[0]);
    UnsafeFails(s);
  }

  /** A numeric string that ends in a line break is broken in two. */
  lemma NumericLineBreaks()
    ensures ReadInline(StringScalar("7\n")).None?
  {
    var s := "7\n";
    assert s[..1] == "7" && "7"[1..] == "" && LeadingDigits("7") == 1;
    assert s[1] == '\n';
    UnsafeFails(s);
  }

  // ---------- Other scalars ----------

  predicate IsPrintableScalar(v: Value) {
    match v
    case Other(text) => IsFloatText(text) && '.' in text
    case Str(content) => IsLineSafe(content) && !IsDisputed(content)
    case _ => true
  }

  function ScalarBack(v: Value): Value
    requires !v.IsNonEmptyContainer() && IsPrintableScalar(v)
  {
    match v
    case Str(content) => ReadBack(content)
    case List(_) => Str("[]")
    case Dict(_) => Str("{}")
    case _ => v
  }

  /** Text of digits, sign, point and exponent that begins and ends well is a plain scalar. */
  lemma NumberIsPlain(t: string)
    requires t != "" && AllNumberChars(t) && (t[0] == '-' ==> |t| > 1)
    ensures IsPlain(t) && t[0] != '\"' && t[0] != '#' && t != "{}" && t != "[]" && t[0] != ' '
    ensures t != "-" && !StartsWith(t, "- ")
  {
    forall i | 0 <= i < |t|
      ensures IsLineChar(t[i]) && !IsSpace(t[i]) && t[i] != ':' && t[i] != '#' && t[i] != '\"' && t[i] != '{' && t[i] != '['
    {
      assert t[i] in t;
      NumberCharIsPlain(t[i]);
    }
    NumberCharLeads(t[0]);
  }

  lemma NumericLength(t: string)
    requires IsNumeric(t)
    ensures t != "" && (t[0] == '-' ==> |t| > 1 && t[1] != '-')
    ensures IsAnyDigit(t[0]) || t[0] == '+' || t[0] == '-' || t[0] == '.'
  {
  }

  lemma NumberNotWord(t: string)
    requires IsNumeric(t)
    ensures !IsAmbiguous(t)
  {
    NumericLength(t);
    NumberCharIsPlain(t[0]);
    if IsAmbiguous(t) {
      AmbiguousChars(t);
    }
  }

  lemma AsciiDigit(c: char)
    requires IsAnyDigit(c) && c < 0x80 as char
    ensures IsDigit(c)
  {
  }

  lemma AsciiPart(t: string, from: nat)
    requires IsAscii(t) && from <= |t|
    ensures IsAscii(t[from..])
  {
    forall c | c in t[from..] ensures c < 0x80 as char {
      assert c in t;
    }
  }

  /** In ASCII the runs of digits are the same for the writer and for both versions. */
  lemma {:induction false} SameRuns(t: string)
    requires IsAscii(t) && (LeadingDigits(t) < |t| ==> t[LeadingDigits(t)] != '_')
    ensures LeadingSpaced(t) == LeadingDecimals(t) == LeadingDigits(t)
  {
    if t != "" && IsAnyDigit(t[0]) {
      assert t[0] in t;
      AsciiDigit(t[0]);
      AsciiPart(t, 1);
      SameRuns(t[1..]);
    }
  }

  lemma {:induction false} AllAsciiDigits(t: string)
    requires IsAscii(t) && IsDigits(t)
    ensures forall c <- t :: IsDigit(c)
  {
    forall c | c in t ensures IsDigit(c) {
      AsciiDigit(c);
    }
  }

  lemma ExponentText(t: string)
    requires IsAscii(t) && IsExponentText(t)
    ensures IsExponent(t) && forall c <- t[2..] :: IsDigit(c)
  {
    assert DropSign(t[1..]) == t[2..];
    AsciiPart(t, 2);
    AllAsciiDigits(t[2..]);
    assert IsExponent(t);
  }

  lemma FractionText(t: string)
    requires IsAscii(t) && IsFractionText(t)
    ensures IsOldFraction(t) && LeadingDigits(t) > 0 && IsExponent(t[LeadingDigits(t)..])
  {
    var k := LeadingDigits(t);
    SameRuns(t);
    AsciiPart(t, k);
    if k < |t| {
      ExponentText(t[k..]);
    }
  }

  /** Digits, perhaps none, and then a letter that is in no number form of version 1.1. */
  predicate IsLettered(u: string) {
    var k := LeadingSpaced(u);
    LeadingDecimals(u) == k < |u| && (u[k] == 'e' || u[k] == 'i' || u[k] == 'n')
  }

  lemma LetteredIsNoInteger(t: string)
    requires IsLettered(DropSign(t))
    ensures !IsOldInteger(t)
  {
    var u := DropSign(t);
    var k := LeadingSpaced(u);
    assert k >= 1 ==> u[k] in u[1..];
    assert k >= 1 ==> IsSpacedDigit(u[1]) || u[1] == u[k];
    assert u[k..] != "" && u[k..][0] == u[k];
  }

  lemma NotSpecial(t: string)
    requires '.' !in t
    ensures !IsSpecialFloat(t)
  {
    assert t != "" ==> t[0] != '.';
    assert |t| > 1 ==> t[1] != '.';
  }

  lemma LetteredIsNoFloat(t: string)
    requires IsLettered(DropSign(t)) && '.' !in t
    ensures !IsOldFloat(t)
  {
    var u := DropSign(t);
    NotSpecial(t);
    assert u[LeadingSpaced(u)..][0] == u[LeadingSpaced(u)];
  }

  lemma LetteredIsNoDate(t: string)
    requires IsLettered(DropSign(t))
    ensures !IsTimestamp(t) && t != "<<" && t != "="
  {
    var u := DropSign(t);
    if t == u {
      assert u[LeadingSpaced(u)..][0] == u[LeadingSpaced(u)];
    } else {
      assert LeadingDecimals(t) == 0;
    }
  }

  lemma PointlessIsLettered(t: string)
    requires IsFloatText(t) && '.' !in t
    ensures IsLettered(DropSign(t))
  {
    AsciiPart(t, if t[0] == '-' then 1 else 0);
    SameRuns(DropSign(t));
  }

  /** A float without a point is text under version 1.1; infinities and the like are text under both. */
  lemma PointlessFloat(t: string)
    requires IsFloatText(t) && '.' !in t
    ensures OldValue(t) != Other(t)
  {
    PointlessIsLettered(t);
    LetteredIsNoInteger(t);
    LetteredIsNoFloat(t);
    LetteredIsNoDate(t);
    NoOldNumber(t);
  }

  lemma NoOldNumber(t: string)
    requires !IsOldInteger(t) && !IsOldFloat(t) && !IsTimestamp(t) && t != "<<" && t != "="
    ensures OldValue(t) != Other(t)
  {
  }

  lemma PointUnsigned(t: string)
    requires IsFloatText(t) && '.' in t
    ensures '.' in DropSign(t) && IsAscii(DropSign(t)) && IsUnsignedFloat(DropSign(t))
  {
    AsciiPart(t, if t[0] == '-' then 1 else 0);
    assert t == if t[0] == '-' then ['-'] + t[1..] else t;
  }

  lemma PointedParts(t: string) returns (u: string, k: nat)
    requires IsFloatText(t) && '.' in t
    ensures u == DropSign(t) && IsAscii(u) && k == LeadingDigits(u) == LeadingSpaced(u)
    ensures 0 < k < |u| && u[k] == '.' && IsFractionText(u[k + 1..]) && IsAscii(u[k + 1..])
  {
    u := DropSign(t);
    k := LeadingDigits(u);
    PointUnsigned(t);
    PointAfterDigits(u);
    SameRuns(u);
    AsciiPart(u, k + 1);
  }

  lemma PointedIsCore(t: string)
    requires IsFloatText(t) && '.' in t
    ensures IsNumeric(t) && !IsIntegerText(t)
  {
    var u, k := PointedParts(t);
    FractionText(u[k + 1..]);
    assert u[k..][0] == '.' && u[k..][1..] == u[k + 1..];
    assert u[k] in u;
  }

  lemma PointedIsOld(t: string)
    requires IsFloatText(t) && '.' in t
    ensures IsOldFloat(t)
  {
    var u, k := PointedParts(t);
    FractionText(u[k + 1..]);
    AsciiDigit(u[0]);
  }

  /** A float with a point is one under both versions. */
  lemma PointedFloat(t: string)
    requires IsFloatText(t) && '.' in t
    ensures IsNumeric(t) && Resolve(t) == Some(Other(t))
  {
    PointedIsCore(t);
    PointedIsOld(t);
    NumberNotWord(t);
    WordIsAmbiguous(t);
  }

  lemma NoPointInExponent(t: string)
    requires IsAscii(t) && IsExponentText(t)
    ensures '.' !in t
  {
    ExponentText(t);
    assert t == [t[0], t[1]] + t[2..];
  }

  lemma ExponentAfterDigits(u: string)
    requires IsAscii(u)
    ensures IsExponentText(u[LeadingDigits(u)..]) ==> '.' !in u
  {
    var k := LeadingDigits(u);
    if IsExponentText(u[k..]) {
      AsciiPart(u, k);
      NoPointInExponent(u[k..]);
      assert u == u[..k] + u[k..];
    }
  }

  lemma PointAfterDigits(u: string)
    requires '.' in u && IsAscii(u) && IsUnsignedFloat(u)
    ensures 0 < LeadingDigits(u) < |u| && u[LeadingDigits(u)] == '.' && IsFractionText(u[LeadingDigits(u) + 1..])
  {
    ExponentAfterDigits(u);
  }

  /** A float survives exactly when its text has a point. */
  lemma FloatReadsBackIff(t: string)
    requires IsFloatText(t)
    ensures ReadInline(t) == Some(Other(t)) <==> '.' in t
    ensures '.' in t ==> ReadsAs(t, Other(t))
  {
    if '.' in t {
      PointedFloat(t);
      NumericChars(t);
      NumericLength(t);
      NumberIsPlain(t);
      PlainReadsAs(t);
    } else {
      PointlessFloat(t);
    }
  }

  lemma IntForms(n: int)
    ensures IsOldDecimal(IntText(n)) && ParseInt(IntText(n)) == n
  {
    var digits := if n < 0 then Digits(-n) else Digits(n);
    DigitsParse(if n < 0 then -n else n);
    DigitsCanonical(if n < 0 then -n else n);
    assert digits[0] in digits;
    assert DropSign(IntText(n)) == digits;
  }

  lemma IntegerResolves(t: string)
    requires IsOldDecimal(t)
    ensures IsNumeric(t) && Resolve(t) == Some(Int(ParseInt(t)))
  {
    IntegerIsNumeric(t);
    NumberNotWord(t);
    WordIsAmbiguous(t);
  }

  lemma IntReadsAs(n: int)
    ensures ReadsAs(IntText(n), Int(n))
  {
    var t := IntText(n);
    IntForms(n);
    IntegerResolves(t);
    NumericChars(t);
    NumericLength(t);
    NumberIsPlain(t);
    PlainReadsAs(t);
  }

  lemma WordReadsAs(t: string, v: Value)
    requires (t == "null" && v == Null) || (t == "true" && v == Bool(true)) || (t == "false" && v == Bool(false))
    ensures ReadsAs(t, v)
  {
    assert Lower(t) == t;
    SafeIsPlain(t);
    PlainReadsAs(t);
  }

  /** Any printable scalar reads back, an empty container inside a list as the text it was turned
      into. */
  lemma ScalarReadsAs(v: Value)
    requires !v.IsNonEmptyContainer() && IsPrintableScalar(v)
    ensures ReadsAs(Scalar(v), ScalarBack(v))
  {
    match v
    case Null => WordReadsAs("null", Null);
    case Bool(flag) => WordReadsAs(if flag then "true" else "false", Bool(flag));
    case Int(number) => IntReadsAs(number);
    case Other(text) => FloatReadsBackIff(text);
    case Str(content) => StringReadsBack(content);
    case List(_) => BracketsRead("[]");
    case Dict(_) => BracketsRead("{}");
  }

  lemma IndicatorNotBare(s: string)
    requires s != "" && s[0] in LEADING_INDICATORS && !IsWordChar(s[0])
    ensures !IsBare(s)
  {
  }

  lemma BracketsLineSafe(s: string)
    requires s == "[]" || s == "{}"
    ensures IsLineSafe(s)
  {
    assert forall c <- s :: c == '[' || c == ']' || c == '{' || c == '}';
  }

  lemma BracketsRead(s: string)
    requires s == "[]" || s == "{}"
    ensures ReadsAs(StringScalar(s), Str(s))
  {
    IndicatorNotBare(s);
    BracketsLineSafe(s);
    StringReadsBack(s);
  }

  // ---------- Keys ----------

  /** A key that is read as the text it is. A bare key must not be a number, a date, a boolean or a
      null in either version; a quoted one must not need an escape that the writer lacks. */
  predicate IsReadableKey(k: string) {
    && |Key(k)| <= LONGEST_KEY
    && if MatchesPlainSafe(k) then '\n' !in k && !IsForeign(k) else !HasUnescaped(k)
  }

  predicate IsEntryTail(after: string) {
    after == "" || after[0] == ' '
  }

  lemma {:induction false} FirstSeparator(k: string, after: string, from: nat)
    requires ':' !in k && IsEntryTail(after) && from <= |k|
    ensures FindSeparator(k + ":" + after, from) == Some(|k|)
    decreases |k| - from
  {
    var t := k + ":" + after;
    if from < |k| {
      assert t[from] == k[from] && k[from] in k;
      FirstSeparator(k, after, from + 1);
    } else {
      assert t[|k|] == ':' && (after != "" ==> t[|k| + 1] == after[0]);
    }
  }

  /** A printed key never starts like a list item, a comment or an indented line. */
  lemma KeyStart(k: string)
    ensures Key(k) != "" && !IsSpace(Key(k)[0]) && Key(k)[0] != '#' && Key(k)[0] != '-' && Key(k)[0] != '.'
    ensures Key(k)[0] != '{' && Key(k)[0] != '['
  {
    if MatchesPlainSafe(k) {
      assert IsWordChar(k[0]);
    }
  }

  /** Splitting a printed entry at its colon gives the key back exactly when the key is readable;
      otherwise the line is no entry at all. */
  lemma KeyReadsBackIff(k: string, after: string)
    requires IsEntryTail(after)
    ensures SplitEntry(Key(k) + ":" + after) == if IsReadableKey(k) then Some(Split(k, after)) else None
  {
    if MatchesPlainSafe(k) {
      PlainKeyReadsBack(k, after);
    } else {
      QuotedKeyReadsBack(k, after);
    }
  }

  lemma PlainKeyReadsBack(k: string, after: string)
    requires MatchesPlainSafe(k) && IsEntryTail(after)
    ensures SplitEntry(k + ":" + after) == if IsReadableKey(k) then Some(Split(k, after)) else None
  {
    var t := k + ":" + after;
    LastInside(k);
    NoColon(k);
    FirstSeparator(k, after, 0);
    assert t[0] == k[0] && t[..|k|] == k && t[|k| + 1..] == after;
    if '\n' in k {
      assert HasForbidden(k);
    } else {
      SafeIsPlain(k);
    }
  }

  lemma NoColon(k: string)
    requires MatchesPlainSafe(k)
    ensures ':' !in k && k != "" && k[0] != '\"'
  {
    if !IsPlainSafe(k) {
      assert k == k[..|k| - 1] + [k[|k| - 1]];
      assert k[0] == k[..|k| - 1][0];
    }
  }

  lemma QuotedKeyReadsBack(k: string, after: string)
    requires !MatchesPlainSafe(k) && IsEntryTail(after)
    ensures SplitEntry(Key(k) + ":" + after) == if IsReadableKey(k) then Some(Split(k, after)) else None
  {
    var t := Key(k) + ":" + after;
    QuotedReads(k, ":" + after);
    QuotedKeyText(Escape(k), after);
    QuotedEntry(t);
    ColonAfterQuote(k, after, |t|);
  }

  lemma QuotedKeyText(body: string, after: string)
    ensures ("\"" + body + "\"" + ":" + after)[0] == '\"'
    ensures ("\"" + body + "\"" + ":" + after)[1..] == body + "\"" + (":" + after)
  {
  }

  lemma QuotedEntry(t: string)
    requires t != "" && t[0] == '\"'
    ensures SplitEntry(t) == SplitQuoted(ReadQuoted(t[1..]), |t|)
  {
  }

  lemma ColonAfterQuote(content: string, after: string, length: nat)
    requires IsEntryTail(after)
    ensures SplitQuoted(Some(Quoted(content, ":" + after)), length)
            == if length - |after| - 1 <= LONGEST_KEY then Some(Split(content, after)) else None
  {
    assert (":" + after)[1..] == after;
  }

  lemma TypedKeys(k: string)
    requires k == "10" || k == "yes" || k == "null" || k == "0x1F"
    ensures IsPlainSafe(k) && IsForeign(k)
  {
    if k == "yes" {
      assert Lower("yes") == "yes";
      assert IsWord("yes", {"true", "yes", "on", "y"});
    } else if k == "null" {
      assert Lower("null") == "null";
      assert IsWord("null", {"null", "~"});
    } else {
      DigitStart(k);
      WordIsAmbiguous(k);
      if k == "10" {
        assert IsIntegerText(k);
      } else {
        HexadecimalForms();
      }
    }
  }

  /** Keys of digits and keys that spell a boolean or a null are printed bare and are no text. */
  lemma TypedKeysAreRefused(k: string, after: string)
    requires (k == "10" || k == "yes" || k == "null" || k == "0x1F") && IsEntryTail(after)
    ensures Key(k) == k && SplitEntry(Key(k) + ":" + after).None?
  {
    TypedKeys(k);
    KeyReadsBackIff(k, after);
  }
}
