/**
 Escaping text for an HCL double-quoted literal (Template Literals in the HCL Native Syntax
 Specification), and the left-to-right reading of such a literal.
 */
module Hcl {
  import opened Wrappers
  import opened Text

  /** Seven replacements, one after the other. */
  function Escape(text: string): string {
    ReplacePair(ReplacePair(EscapeControls(text), '$', '{', "$${"), '%', '{', "%%{")
  }

  function EscapeControls(text: string): string {
    ReplaceChar(ReplaceChar(ReplaceChar(ReplaceChar(ReplaceChar(
      text, '\\', "\\\\"), '\"', "\\\""), '\n', "\\n"), '\r', "\\r"), '\t', "\\t")
  }

  // ---------- One pass ----------

  function EscapeOne(c: char): string {
    if c == '\\' then "\\\\"
    else if c == '\"' then "\\\""
    else if c == '\n' then "\\n"
    else if c == '\r' then "\\r"
    else if c == '\t' then "\\t"
    else [c]
  }

  predicate StartsTemplate(s: string, mark: char) {
    |s| >= 2 && s[0] == mark && s[1] == '{'
  }

  /** Each character once, with one character of lookahead: a template introducer has its mark
      doubled. */
  function OnePass(s: string): string {
    if s == "" then ""
    else if StartsTemplate(s, '$') || StartsTemplate(s, '%') then [s[0], s[0]] + OnePass(s[1..])
    else EscapeOne(s[0]) + OnePass(s[1..])
  }

  /** The same pass with some of the marks doubled only. */
  function Pass(s: string, marks: set<char>): string {
    if s == "" then ""
    else if |s| >= 2 && s[1] == '{' && s[0] in marks then [s[0], s[0]] + Pass(s[1..], marks)
    else EscapeOne(s[0]) + Pass(s[1..], marks)
  }

  lemma ControlsOne(c: char)
    ensures EscapeControls([c]) == EscapeOne(c)
  {
    ReplaceCharOne(c, '\\', "\\\\");
    var s1 := ReplaceChar([c], '\\', "\\\\");
    if c == '\\' {
      ReplaceCharAbsent(s1, '\"', "\\\"");
      ReplaceCharAbsent(s1, '\n', "\\n");
      ReplaceCharAbsent(s1, '\r', "\\r");
      ReplaceCharAbsent(s1, '\t', "\\t");
    } else {
      ReplaceCharOne(c, '\"', "\\\"");
      var s2 := ReplaceChar(s1, '\"', "\\\"");
      ReplaceCharOne(c, '\n', "\\n");
      var s3 := ReplaceChar(s2, '\n', "\\n");
      if c == '\"' {
        ReplaceCharAbsent(s2, '\n', "\\n");
      }
      ReplaceCharOne(c, '\r', "\\r");
      var s4 := ReplaceChar(s3, '\r', "\\r");
      if c == '\"' || c == '\n' {
        ReplaceCharAbsent(s3, '\r', "\\r");
      }
      ReplaceCharOne(c, '\t', "\\t");
      if c == '\"' || c == '\n' || c == '\r' {
        ReplaceCharAbsent(s4, '\t', "\\t");
      }
    }
  }

  lemma ControlsConcat(s: string, t: string)
    ensures EscapeControls(s + t) == EscapeControls(s) + EscapeControls(t)
  {
    ReplaceCharConcat(s, t, '\\', "\\\\");
    var s1, t1 := ReplaceChar(s, '\\', "\\\\"), ReplaceChar(t, '\\', "\\\\");
    ReplaceCharConcat(s1, t1, '\"', "\\\"");
    var s2, t2 := ReplaceChar(s1, '\"', "\\\""), ReplaceChar(t1, '\"', "\\\"");
    ReplaceCharConcat(s2, t2, '\n', "\\n");
    var s3, t3 := ReplaceChar(s2, '\n', "\\n"), ReplaceChar(t2, '\n', "\\n");
    ReplaceCharConcat(s3, t3, '\r', "\\r");
    ReplaceCharConcat(ReplaceChar(s3, '\r', "\\r"), ReplaceChar(t3, '\r', "\\r"), '\t', "\\t");
  }

  lemma {:induction false} ControlsIsPass(s: string)
    ensures EscapeControls(s) == Pass(s, {})
  {
    if s != "" {
      assert s == [s[0]] + s[1..];
      ControlsConcat([s[0]], s[1..]);
      ControlsOne(s[0]);
      ControlsIsPass(s[1..]);
    }
  }

  /** A pass starts with a brace exactly when its input does. */
  lemma PassStart(s: string, marks: set<char>)
    requires marks <= {'$', '%'}
    ensures Pass(s, marks) != "" <==> s != ""
    ensures s != "" ==> (Pass(s, marks)[0] == '{' <==> s[0] == '{')
  {
  }

  lemma PassBrace(s: string, marks: set<char>)
    requires marks <= {'$', '%'} && s != "" && s[0] == '{'
    ensures Pass(s, marks) == "{" + Pass(s[1..], marks)
  {
  }

  ghost predicate MarkAdded(s: string, marks: set<char>, mark: char)
    requires mark != '{'
  {
    ReplacePair(Pass(s, marks), mark, '{', [mark, mark, '{']) == Pass(s, marks + {mark})
  }

  lemma PassTemplate(s: string, marks: set<char>, mark: char)
    requires marks <= {'$', '%'} && mark in {'$', '%'} && StartsTemplate(s, mark)
    ensures Pass(s, marks) == (if mark in marks then [mark, mark, '{'] else [mark, '{']) + Pass(s[2..], marks)
  {
    PassBrace(s[1..], marks);
    assert s[1..][1..] == s[2..];
    Regroup(mark, Pass(s[2..], marks));
  }

  lemma Regroup(mark: char, rest: string)
    ensures [mark] + ("{" + rest) == [mark, '{'] + rest
    ensures [mark, mark] + ("{" + rest) == [mark, mark, '{'] + rest
  {
  }

  lemma MarkAddedAtTemplate(s: string, marks: set<char>, mark: char)
    requires marks <= {'$', '%'} && mark in {'$', '%'} && mark !in marks
    requires StartsTemplate(s, mark) && MarkAdded(s[2..], marks, mark)
    ensures MarkAdded(s, marks, mark)
  {
    PassTemplate(s, marks, mark);
    PassTemplate(s, marks + {mark}, mark);
    ReplacePairHit(Pass(s[2..], marks), mark, '{', [mark, mark, '{']);
  }

  lemma MarkAddedAtMark(s: string, marks: set<char>, mark: char)
    requires marks <= {'$', '%'} && mark in {'$', '%'} && mark !in marks
    requires s != "" && s[0] == mark && !StartsTemplate(s, mark) && MarkAdded(s[1..], marks, mark)
    ensures MarkAdded(s, marks, mark)
  {
    PassStart(s[1..], marks);
    ReplacePairMiss(Pass(s[1..], marks), mark, '{', [mark, mark, '{']);
  }

  lemma MarkAddedElsewhere(s: string, marks: set<char>, mark: char)
    requires marks <= {'$', '%'} && mark in {'$', '%'} && mark !in marks
    requires s != "" && s[0] != mark && MarkAdded(s[1..], marks, mark)
    ensures MarkAdded(s, marks, mark)
  {
    var first := if |s| >= 2 && s[1] == '{' && s[0] in marks then [s[0], s[0]] else EscapeOne(s[0]);
    ReplacePairSkip(first, Pass(s[1..], marks), mark, '{', [mark, mark, '{']);
  }

  /** Doubling one more mark is one more pair replacement. */
  lemma {:induction false} PairAddsMark(s: string, marks: set<char>, mark: char)
    requires marks <= {'$', '%'} && mark in {'$', '%'} && mark !in marks
    ensures MarkAdded(s, marks, mark)
  {
    if s == "" {
    } else if StartsTemplate(s, mark) {
      PairAddsMark(s[2..], marks, mark);
      MarkAddedAtTemplate(s, marks, mark);
    } else {
      PairAddsMark(s[1..], marks, mark);
      if s[0] == mark {
        MarkAddedAtMark(s, marks, mark);
      } else {
        MarkAddedElsewhere(s, marks, mark);
      }
    }
  }

  lemma {:induction false} OnePassIsPass(s: string)
    ensures OnePass(s) == Pass(s, {'$', '%'})
  {
    if s != "" {
      OnePassIsPass(s[1..]);
    }
  }

  /** The seven replacements do not disturb each other: together they are one pass. */
  lemma EscapeIsOnePass(text: string)
    ensures Escape(text) == OnePass(text)
  {
    ControlsIsPass(text);
    PairAddsMark(text, {}, '$');
    assert {} + {'$'} == {'$'} && {'$'} + {'%'} == {'$', '%'};
    PairAddsMark(text, {'$'}, '%');
    OnePassIsPass(text);
  }

  // ---------- Reading the literal back ----------

  /** Read the inside of a quoted literal. Nothing is returned when the literal ends early, holds an
      unknown escape, or meets a template introducer. */
  function Decode(t: string): Option<string> {
    if t == "" then Some("")
    else if t[0] == '\"' || t[0] == '\n' then None
    else if t[0] == '\\' then
      if |t| < 2 then None
      else
        var c := Unescape(t[1]);
        if c.None? then None else Prepend([c.value], Decode(t[2..]))
    else if t[0] == '$' || t[0] == '%' then
      if |t| >= 3 && t[1] == t[0] && t[2] == '{' then Prepend([t[0], '{'], Decode(t[3..]))
      else if |t| >= 2 && t[1] == '{' then None
      else Prepend([t[0]], Decode(t[1..]))
    else Prepend([t[0]], Decode(t[1..]))
  }

  function Unescape(c: char): Option<char> {
    if c == '\\' || c == '\"' then Some(c)
    else if c == 'n' then Some('\n')
    else if c == 'r' then Some('\r')
    else if c == 't' then Some('\t')
    else None
  }

  function Prepend(s: string, rest: Option<string>): Option<string> {
    if rest.None? then None else Some(s + rest.value)
  }

  lemma DecodeEscaped(c: char, rest: string)
    requires c != '$' && c != '%'
    ensures Decode(EscapeOne(c) + rest) == Prepend([c], Decode(rest))
  {
    var t := EscapeOne(c) + rest;
    if |EscapeOne(c)| == 2 {
      assert t[2..] == rest;
    } else {
      assert t[1..] == rest;
    }
  }

  lemma DecodeDoubled(mark: char, rest: string)
    requires mark == '$' || mark == '%'
    ensures Decode([mark, mark, '{'] + rest) == Prepend([mark, '{'], Decode(rest))
  {
    var t := [mark, mark, '{'] + rest;
    assert t[3..] == rest;
  }

  lemma DecodeMark(mark: char, rest: string)
    requires mark == '$' || mark == '%'
    requires !(|rest| >= 2 && rest[0] == mark && rest[1] == '{') && !(rest != "" && rest[0] == '{')
    ensures Decode([mark] + rest) == Prepend([mark], Decode(rest))
  {
    var t := [mark] + rest;
    assert t[1..] == rest;
  }

  lemma {:induction false} OnePassDecodes(s: string)
    ensures Decode(OnePass(s)) == Some(s)
  {
    if s != "" {
      if StartsTemplate(s, '$') || StartsTemplate(s, '%') {
        OnePassDecodes(s[2..]);
        OnePassTemplate(s);
        DecodeDoubled(s[0], OnePass(s[2..]));
      } else {
        OnePassDecodes(s[1..]);
        assert s == [s[0]] + s[1..];
        if s[0] == '$' || s[0] == '%' {
          MarkNotDoubled(s);
          DecodeMark(s[0], OnePass(s[1..]));
        } else {
          DecodeEscaped(s[0], OnePass(s[1..]));
        }
      }
    }
  }

  lemma OnePassTemplate(s: string)
    requires StartsTemplate(s, '$') || StartsTemplate(s, '%')
    ensures OnePass(s) == [s[0], s[0], '{'] + OnePass(s[2..])
    ensures s == [s[0], '{'] + s[2..]
  {
    OnePassIsPass(s);
    OnePassIsPass(s[2..]);
    PassTemplate(s, {'$', '%'}, s[0]);
  }

  /** A mark that does not introduce a template is never read as the first half of a doubled one. */
  lemma MarkNotDoubled(s: string)
    requires s != "" && (s[0] == '$' || s[0] == '%') && !StartsTemplate(s, s[0])
    ensures var rest := OnePass(s[1..]);
            !(|rest| >= 2 && rest[0] == s[0] && rest[1] == '{') && !(rest != "" && rest[0] == '{')
  {
    var u := s[1..];
    OnePassIsPass(u);
    PassStart(u, {'$', '%'});
    if u != "" && u[0] == s[0] && !StartsTemplate(u, '$') && !StartsTemplate(u, '%') {
      assert OnePass(u) == [u[0]] + OnePass(u[1..]);
      OnePassIsPass(u[1..]);
      PassStart(u[1..], {'$', '%'});
    }
  }

  /** Whatever the text, the literal reads back as the text and never opens a template, a line or
      the end of the literal. */
  lemma EscapeRoundTrips(text: string)
    ensures Decode(Escape(text)) == Some(text)
  {
    EscapeIsOnePass(text);
    OnePassDecodes(text);
  }
}
