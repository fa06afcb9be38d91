/**
 When reading gives the printed tree back, and what goes wrong when it does not. The lines are
 taken as they stand in the file, so a line break that the writer failed to escape splits a line.
 */
module YamlFidelity {
  import opened Decimal
  import opened Lists
  import opened Text
  import opened Wrappers
  import opened YamlWriter
  import opened YamlReader
  import opened YamlScalars
  import opened YamlRoundTrip

  predicate OneLine(line: string) {
    line != "" && '\n' !in line
  }

  predicate OneLineEach(lines: seq<string>) {
    forall line <- lines :: OneLine(line)
  }

  // ---------- Every printed line is one line ----------

  lemma BreakIsForbidden(t: string)
    requires !HasForbidden(t)
    ensures '\n' !in t
  {
    assert !IsLineChar('\n');
  }

  lemma ReadTextOneLine(t: string, v: Value)
    requires ReadsAs(t, v)
    ensures OneLine(t)
  {
    if t[0] == '\"' {
      QuotedHasNoForbidden(t[1..]);
      BreakIsForbidden(t[1..]);
      assert t == [t[0]] + t[1..];
    } else if t != "{}" && t != "[]" {
      BreakIsForbidden(t);
    }
  }

  lemma KeyOneLine(k: string)
    requires IsReadableKey(k)
    ensures OneLine(Key(k))
  {
    KeyStart(k);
    if !MatchesPlainSafe(k) {
      EscapedReadsAs(k);
      ReadTextOneLine(Key(k), Str(k));
    }
  }

  lemma {:induction false} RenderOneLine(v: Value, indent: nat)
    requires IsPrintable(v)
    ensures OneLineEach(Render(v, indent))
    decreases v, 1
  {
    if v.Dict? && v.entries != [] {
      EntriesOneLine(v.entries, indent);
    } else if v.List? && v.items != [] {
      ItemsOneLine(v.items, indent);
    } else if v.List? || v.Dict? {
    } else {
      ScalarOneLine(v);
    }
  }

  lemma ScalarOneLine(v: Value)
    requires !v.IsNonEmptyContainer() && IsPrintableScalar(v)
    ensures OneLine(Scalar(v))
  {
    ScalarReadsAs(v);
    ReadTextOneLine(Scalar(v), ScalarBack(v));
  }

  lemma EntryOneLine(e: Entry, indent: nat)
    requires IsReadableKey(e.key) && IsPrintable(e.value)
    requires e.value.IsNonEmptyContainer() ==> OneLineEach(Render(e.value, indent + 1))
    ensures OneLineEach(RenderEntry(e, indent))
  {
    KeyOneLine(e.key);
    if !e.value.List? && !e.value.Dict? {
      ScalarOneLine(e.value);
    }
  }

  lemma ItemOneLine(v: Value, indent: nat)
    requires IsPrintable(v)
    requires v.IsNonEmptyContainer() ==> OneLineEach(Render(v, indent + 1))
    ensures OneLineEach(RenderItem(v, indent))
  {
    if v.IsNonEmptyContainer() {
      assert Render(v, indent + 1)[0] in Render(v, indent + 1);
      if v.Dict? {
        LStripOneLine(Render(v, indent + 1)[0]);
      }
    } else {
      ScalarOneLine(v);
    }
  }

  lemma {:induction false} EntriesOneLine(entries: seq<Entry>, indent: nat)
    requires EntriesPrintable(entries)
    ensures OneLineEach(RenderEntries(entries, indent))
    decreases entries, 0
  {
    if entries != [] {
      if entries[0].value.IsNonEmptyContainer() {
        RenderOneLine(entries[0].value, indent + 1);
      }
      EntryOneLine(entries[0], indent);
      EntriesOneLine(entries[1..], indent);
    }
  }

  lemma {:induction false} ItemsOneLine(items: seq<Value>, indent: nat)
    requires AllPrintable(items)
    ensures OneLineEach(RenderItems(items, indent))
    decreases items, 0
  {
    if items != [] {
      if items[0].IsNonEmptyContainer() {
        RenderOneLine(items[0], indent + 1);
      }
      ItemOneLine(items[0], indent);
      ItemsOneLine(items[1..], indent);
    }
  }

  lemma {:induction false} LStripOneLine(s: string)
    requires '\n' !in s
    ensures '\n' !in LStrip(s)
  {
    if s != "" && IsSpace(s[0]) {
      LStripOneLine(s[1..]);
    }
  }

  // ---------- The lines of the file ----------

  /** The rendered lines as they stand in the file. */
  function Physical(lines: seq<string>): seq<string> {
    if lines == [] then [] else SplitLines(lines[0]) + Physical(lines[1..])
  }

  lemma {:induction false} PhysicalConcat(a: seq<string>, b: seq<string>)
    ensures Physical(a + b) == Physical(a) + Physical(b)
  {
    if a == [] {
      assert a + b == b;
    } else {
      assert (a + b)[0] == a[0] && (a + b)[1..] == a[1..] + b;
      PhysicalConcat(a[1..], b);
    }
  }

  lemma OneLineStays(line: string)
    requires '\n' !in line
    ensures SplitLines(line) == [line]
  {
    assert FirstBreak(line) == |line|;
  }

  lemma {:induction false} PhysicalStays(lines: seq<string>)
    requires OneLineEach(lines)
    ensures Physical(lines) == lines
  {
    if lines != [] {
      assert lines[0] in lines && forall line <- lines[1..] :: line in lines;
      OneLineStays(lines[0]);
      PhysicalStays(lines[1..]);
      assert lines == [lines[0]] + lines[1..];
    }
  }

  lemma {:induction false} BreakAfter(pad: string, text: string)
    requires '\n' !in pad
    ensures FirstBreak(pad + text) == |pad| + FirstBreak(text)
  {
    if pad == "" {
      assert pad + text == text;
    } else {
      assert (pad + text)[0] == pad[0] && (pad + text)[1..] == pad[1..] + text;
      BreakAfter(pad[1..], text);
    }
  }

  lemma CutAfter(pad: string, text: string, i: nat)
    requires i <= |text|
    ensures (pad + text)[..|pad| + i] == pad + text[..i] && (pad + text)[|pad| + i..] == text[i..]
  {
  }

  /** Text without a line break stays in front of the first line of what follows. */
  lemma SplitAfter(pad: string, text: string)
    requires '\n' !in pad
    ensures SplitLines(pad + text) == [pad + SplitLines(text)[0]] + SplitLines(text)[1..]
  {
    var line, i := pad + text, FirstBreak(text);
    BreakAfter(pad, text);
    CutAfter(pad, text, i);
    if i < |text| {
      CutAfter(pad, text, i + 1);
    }
  }

  lemma PhysicalCons(line: string, below: seq<string>)
    ensures Physical([line] + below) == SplitLines(line) + Physical(below)
  {
    assert ([line] + below)[1..] == below;
  }

  lemma PhysicalHead(pad: string, text: string, below: seq<string>)
    requires '\n' !in pad
    ensures Physical([pad + text] + below)
            == [pad + SplitLines(text)[0]] + (SplitLines(text)[1..] + Physical(below))
  {
    SplitAfter(pad, text);
    PhysicalCons(pad + text, below);
    Associate([pad + SplitLines(text)[0]], SplitLines(text)[1..], Physical(below));
  }

  // ---------- Scalars ----------

  lemma {:induction false} EscapedOneLine(s: string)
    ensures '\n' !in EscapeEach(s)
  {
    if s != "" {
      EscapedOneLine(s[1..]);
    }
  }

  lemma UnlessRaw(s: string)
    requires !IsRaw(s)
    ensures '\n' !in StringScalar(s)
  {
    if IsBare(s) {
      BareIsPrintedBare(s);
    } else if s != "" {
      EscapedPrinted(s);
      EscapeIsEach(s);
      EscapedOneLine(s);
    }
  }

  lemma NumericBreaks(s: string)
    requires IsRaw(s) && '\n' in s
    ensures s[|s| - 1] == '\n' && IsNumeric(s[..|s| - 1])
  {
    if IsAmbiguous(s) {
      AmbiguousNeedsNoEscape(s);
      BreakIsForbidden(s);
    } else if IsNumeric(s) {
      NumericChars(s);
      NumberNeedsNoEscape(s);
      BreakIsForbidden(s);
    }
  }

  lemma InQuotes(s: string)
    ensures '\n' in "\"" + s + "\"" <==> '\n' in s
  {
  }

  /** A line break is printed raw only in a string that is quoted without escapes. */
  lemma OnlyRawBreaks(s: string)
    requires '\n' in StringScalar(s)
    ensures IsRaw(s) && '\n' in s
  {
    if IsRaw(s) {
      RawPrinted(s);
      InQuotes(s);
    } else {
      UnlessRaw(s);
    }
  }

  lemma RawBreaks(s: string) returns (w: string)
    requires IsRaw(s) && '\n' in s
    ensures s == w + "\n" && IsNumeric(w)
  {
    NumericBreaks(s);
    w := s[..|s| - 1];
    assert s == w + [s[|s| - 1]];
  }

  lemma FloatOneLine(t: string)
    requires IsFloatText(t)
    ensures '\n' !in t
  {
    var u := DropSign(t);
    if u != "inf" && u != "nan" {
      FloatIsNumeric(t);
      NumericChars(t);
      NumberNeedsNoEscape(t);
      BreakIsForbidden(t);
    }
  }

  lemma FloatIsNumeric(t: string)
    requires IsFloatText(t) && DropSign(t) != "inf" && DropSign(t) != "nan"
    ensures IsNumeric(t)
  {
    if '.' in t {
      PointedFloat(t);
    } else {
      var u := DropSign(t);
      AsciiPart(t, if t[0] == '-' then 1 else 0);
      AsciiPart(u, LeadingDigits(u));
      ExponentText(u[LeadingDigits(u)..]);
    }
  }

  predicate IsScalar(v: Value) {
    !v.List? && !v.Dict?
  }

  /** The first line of a scalar in the file reads as the scalar only when it is the whole of it
      and the scalar is one that survives. */
  lemma FirstLineReads(v: Value)
    requires IsScalar(v) && IsData(v) && ReadInline(SplitLines(Scalar(v))[0]) == Some(v)
    ensures '\n' !in Scalar(v) && IsPrintable(v) && IsFaithful(v)
  {
    if v.Other? {
      FloatOneLine(v.text);
      OneLineStays(v.text);
      FloatReadsBackIff(v.text);
    } else if v.Str? {
      FirstLineOfString(v.content);
    } else {
      ScalarReadsAs(v);
      ReadTextOneLine(Scalar(v), v);
    }
  }

  lemma FirstLineOfString(s: string)
    requires ReadInline(SplitLines(StringScalar(s))[0]) == Some(Str(s))
    ensures '\n' !in StringScalar(s) && IsLineSafe(s) && !IsMisread(s) && !IsDisputed(s)
  {
    if '\n' in StringScalar(s) {
      OnlyRawBreaks(s);
      RawPrinted(s);
      var w := RawBreaks(s);
      BrokenNumber(w);
    } else {
      OneLineStays(StringScalar(s));
      StringReadsBackIff(s);
      UndisputedUnlessForeign(s);
    }
  }

  lemma UndisputedUnlessForeign(s: string)
    requires !IsMisread(s)
    ensures !IsDisputed(s)
  {
    if IsBare(s) {
      BareValues(s);
    }
  }

  lemma BrokenNumber(w: string)
    requires IsNumeric(w)
    ensures ReadInline(SplitLines("\"" + (w + "\n") + "\"")[0]).None?
  {
    NumericChars(w);
    NumberNeedsNoEscape(w);
    BreakIsForbidden(w);
    BrokenQuote(w);
    Quotation(w);
  }

  lemma Quotation(w: string)
    ensures "\"" + (w + "\n") + "\"" == ("\"" + w) + "\n\""
  {
  }

  lemma BrokenQuote(w: string)
    requires NeedsNoEscape(w) && '\n' !in w
    ensures ReadInline(SplitLines(("\"" + w) + "\n\"")[0]).None?
  {
    var line := "\"" + w;
    Unclosed(w);
    assert line[1..] == w;
    SplitAfter(line, "\n\"");
    assert FirstBreak("\n\"") == 0 && SplitLines("\n\"")[0] == "";
    assert line + "" == line;
  }

  // ---------- When reading gives the tree back ----------

  /** No list holds an empty container, and no bare text is taken for a number. */
  predicate IsFaithful(v: Value)
    decreases v, 1
  {
    match v
    case Str(content) => !IsMisread(content)
    case List(items) => ItemsFaithful(items)
    case Dict(entries) => EntriesFaithful(entries)
    case _ => true
  }

  predicate ItemsFaithful(items: seq<Value>)
    decreases items, 0
  {
    items == [] || (!IsEmptyContainer(items[0]) && IsFaithful(items[0]) && ItemsFaithful(items[1..]))
  }

  predicate EntriesFaithful(entries: seq<Entry>)
    decreases entries, 0
  {
    entries == [] || (IsFaithful(entries[0].value) && EntriesFaithful(entries[1..]))
  }

  predicate IsEmptyContainer(v: Value) {
    v == List([]) || v == Dict([])
  }

  lemma ScalarBackSame(v: Value)
    requires IsScalar(v) && IsPrintable(v)
    ensures Back(v) == v <==> IsFaithful(v)
  {
    if v.Str? && IsBare(v.content) {
      BareValues(v.content);
    }
  }

  lemma {:induction false} BackIsSame(v: Value)
    requires IsPrintable(v)
    ensures Back(v) == v <==> IsFaithful(v)
    decreases v, 1
  {
    match v
    case List(items) => ItemsBackSame(items);
    case Dict(entries) => EntriesBackSame(entries);
    case _ => ScalarBackSame(v);
  }

  lemma {:induction false} ItemsBackSame(items: seq<Value>)
    requires AllPrintable(items)
    ensures ItemsBack(items) == items <==> ItemsFaithful(items)
    decreases items, 0
  {
    if items != [] {
      BackIsSame(items[0]);
      ItemsBackSame(items[1..]);
      assert items == [items[0]] + items[1..];
      var back := ItemsBack(items);
      assert back[0] == ItemBack(items[0]) && back[1..] == ItemsBack(items[1..]);
    }
  }

  lemma {:induction false} EntriesBackSame(entries: seq<Entry>)
    requires EntriesPrintable(entries)
    ensures EntriesBack(entries) == entries <==> EntriesFaithful(entries)
    decreases entries, 0
  {
    if entries != [] {
      BackIsSame(entries[0].value);
      EntriesBackSame(entries[1..]);
      assert entries == [entries[0]] + entries[1..];
      var back := EntriesBack(entries);
      assert back[0] == Entry(entries[0].key, Back(entries[0].value)) && back[1..] == EntriesBack(entries[1..]);
    }
  }

  /** In the file and with these lines after it, the value is read exactly, which leaves `next`. */
  predicate ReadsExactly(v: Value, indent: nat, rest: seq<string>, next: seq<string>) {
    ReadNode(Physical(Render(v, indent)) + rest, 2 * indent) == Some(Parsed(v, next))
  }

  /** A tree that survives leaves its lines as they are and is read exactly. */
  lemma SurvivorReads(v: Value, indent: nat, rest: seq<string>)
    requires IsPrintable(v) && IsFaithful(v) && Ends(rest, 2 * indent)
    ensures ReadsExactly(v, indent, rest, rest)
  {
    RenderOneLine(v, indent);
    PhysicalStays(Render(v, indent));
    NodeReads(v, indent, rest);
    BackIsSame(v);
  }

  // ---------- The first line of an entry ----------

  function EntryAfter(v: Value): (after: string)
    ensures after == "" || after[0] == ' '
  {
    if v.IsNonEmptyContainer() then "" else if v.Dict? then " {}" else if v.List? then " []" else " " + Scalar(v)
  }

  function EntryBelow(v: Value, indent: nat): seq<string> {
    if v.IsNonEmptyContainer() then Render(v, indent + 1) else []
  }

  lemma EntryParts(e: Entry, indent: nat)
    ensures RenderEntry(e, indent)
            == [Spaces(2 * indent) + (Key(e.key) + ":" + EntryAfter(e.value))] + EntryBelow(e.value, indent)
  {
    Regrouped(Spaces(2 * indent), Key(e.key), EntryAfter(e.value));
    if IsScalar(e.value) {
      SameLine(Spaces(2 * indent) + Key(e.key) + ":", Scalar(e.value));
    }
  }

  /** The lines of an entry in the file. */
  lemma PhysicalEntry(e: Entry, indent: nat)
    ensures var text := SplitLines(Key(e.key) + ":" + EntryAfter(e.value));
            Physical(RenderEntry(e, indent))
            == [Spaces(2 * indent) + text[0]] + (text[1..] + Physical(EntryBelow(e.value, indent)))
  {
    EntryParts(e, indent);
    PhysicalHead(Spaces(2 * indent), Key(e.key) + ":" + EntryAfter(e.value), EntryBelow(e.value, indent));
  }

  lemma TailStays(after: string)
    requires IsEntryTail(after)
    ensures IsEntryTail(SplitLines(after)[0])
  {
    if after != "" {
      assert FirstBreak(after) > 0;
    }
  }

  /** Only a bare key with a final line break is printed with a break inside. */
  lemma KeyBreaks(k: string)
    requires '\n' in Key(k)
    ensures MatchesPlainSafe(k) && Key(k) == k && k != "" && k[|k| - 1] == '\n' && IsPlainSafe(k[..|k| - 1])
  {
    if !MatchesPlainSafe(k) {
      EscapeIsEach(k);
      EscapedOneLine(k);
      InQuotes(Escape(k));
    } else if IsPlainSafe(k) {
      SafeIsPlain(k);
      BreakIsForbidden(k);
    }
  }

  /** What the reader makes of a line that should be an entry but has no readable key. */
  predicate IsNoEntry(text: string) {
    && text != "" && !IsSpace(text[0]) && text[0] != '{' && text[0] != '[' && !IsDash(text)
    && SplitEntry(text).None?
  }

  lemma SafeIsNoEntry(w: string)
    requires IsPlainSafe(w)
    ensures IsNoEntry(w)
  {
    SafeIsPlain(w);
    NoColon(w);
    KeyStart(w);
    NoSeparator(w, 0);
  }

  lemma BrokenKeyLine(k: string, after: string)
    requires '\n' in Key(k)
    ensures IsNoEntry(SplitLines(Key(k) + ":" + after)[0])
  {
    KeyBreaks(k);
    var w, tail := k[..|k| - 1], "\n:" + after;
    SafeIsNoEntry(w);
    SafeIsPlain(w);
    BreakIsForbidden(w);
    assert Key(k) + ":" + after == w + tail;
    SplitAfter(w, tail);
    assert FirstBreak(tail) == 0 && SplitLines(tail)[0] == "" && w + "" == w;
  }

  lemma WholeKeyLine(k: string, after: string)
    requires '\n' !in Key(k) && IsEntryTail(after)
    ensures SplitLines(Key(k) + ":" + after) == [Key(k) + ":" + SplitLines(after)[0]] + SplitLines(after)[1..]
    ensures IsEntryTail(SplitLines(after)[0])
  {
    SplitAfter(Key(k) + ":", after);
    TailStays(after);
  }

  lemma UnreadableKeyLine(k: string, after: string)
    requires !IsReadableKey(k) && IsEntryTail(after)
    ensures IsNoEntry(SplitLines(Key(k) + ":" + after)[0])
  {
    if '\n' in Key(k) {
      BrokenKeyLine(k, after);
    } else {
      WholeKeyLine(k, after);
      KeyStart(k);
      KeyReadsBackIff(k, SplitLines(after)[0]);
    }
  }

  lemma ReadableKeyOneLine(k: string)
    requires IsReadableKey(k)
    ensures '\n' !in Key(k)
  {
    KeyOneLine(k);
  }

  lemma ReadEntriesStops(line: string, below: seq<string>, col: nat)
    requires Indent(line) == col && SplitEntry(line[col..]).None?
    ensures ReadEntries([line] + below, col) == Some(Parsed([], [line] + below))
  {
  }

  /** Without a readable key the block of entries ends before this one. */
  lemma UnreadableStops(e: Entry, indent: nat, more: seq<string>)
    requires !IsReadableKey(e.key)
    ensures var lines := Physical(RenderEntry(e, indent)) + more;
            && ReadEntries(lines, 2 * indent) == Some(Parsed([], lines))
            && lines != [] && Indent(lines[0]) == 2 * indent && IsNoEntry(lines[0][2 * indent..])
  {
    var text := SplitLines(Key(e.key) + ":" + EntryAfter(e.value));
    PhysicalEntry(e, indent);
    UnreadableKeyLine(e.key, EntryAfter(e.value));
    LineStartsAt(2 * indent, text[0]);
    var tail := text[1..] + Physical(EntryBelow(e.value, indent));
    Associate([Spaces(2 * indent) + text[0]], tail, more);
    ReadEntriesStops(Spaces(2 * indent) + text[0], tail + more, 2 * indent);
  }

  lemma EntryThenParts(key: string, value: Option<Parsed<Value>>, col: nat, entries: seq<Entry>, r: seq<string>)
    requires entries != [] && EntryThen(key, value, col) == Some(Parsed(entries, r))
    ensures value.Some? && value.value.result == entries[0].value
    ensures ReadEntries(value.value.rest, col) == Some(Parsed(entries[1..], r))
  {
    var more := ReadEntries(value.value.rest, col);
    assert ([Entry(key, value.value.result)] + more.value.result)[1..] == more.value.result;
  }

  lemma ItemThenParts(value: Option<Parsed<Value>>, col: nat, items: seq<Value>, r: seq<string>)
    requires items != [] && ItemThen(value, col) == Some(Parsed(items, r))
    ensures value.Some? && value.value.result == items[0]
    ensures ReadItems(value.value.rest, col) == Some(Parsed(items[1..], r))
  {
    var more := ReadItems(value.value.rest, col);
    assert ([value.value.result] + more.value.result)[1..] == more.value.result;
  }

  // ---------- Values on the line of their key ----------

  /** The text of a value that stands on the line of its key. */
  function InlineText(v: Value): string
    requires !v.IsNonEmptyContainer()
  {
    if v.Dict? then "{}" else if v.List? then "[]" else Scalar(v)
  }

  lemma InlineFirstLine(v: Value)
    requires !v.IsNonEmptyContainer() && IsData(v) && ReadInline(SplitLines(InlineText(v))[0]) == Some(v)
    ensures '\n' !in InlineText(v) && IsPrintable(v) && IsFaithful(v)
  {
    if IsScalar(v) {
      FirstLineReads(v);
    }
  }

  lemma InlineTail(v: Value)
    requires !v.IsNonEmptyContainer()
    ensures var text := SplitLines(InlineText(v)); SplitLines(EntryAfter(v)) == [" " + text[0]] + text[1..]
  {
    assert EntryAfter(v) == " " + InlineText(v);
    SplitAfter(" ", InlineText(v));
  }

  lemma InlineEntryLines(e: Entry, indent: nat)
    requires IsReadableKey(e.key) && !e.value.IsNonEmptyContainer()
    ensures var text := SplitLines(InlineText(e.value));
            Physical(RenderEntry(e, indent)) == [Spaces(2 * indent) + Key(e.key) + ":" + (" " + text[0])] + text[1..]
  {
    var text, after := SplitLines(InlineText(e.value)), EntryAfter(e.value);
    InlineTail(e.value);
    LonePhysicalEntry(e, indent);
    ReadableKeyOneLine(e.key);
    WholeKeyLine(e.key, after);
    Regrouped(Spaces(2 * indent), Key(e.key), " " + text[0]);
    assert SplitLines(after)[0] == " " + text[0] && SplitLines(after)[1..] == text[1..];
  }

  lemma LonePhysicalEntry(e: Entry, indent: nat)
    requires !e.value.IsNonEmptyContainer()
    ensures var text := SplitLines(Key(e.key) + ":" + EntryAfter(e.value));
            Physical(RenderEntry(e, indent)) == [Spaces(2 * indent) + text[0]] + text[1..]
  {
    PhysicalEntry(e, indent);
  }

  lemma InlineEntrySurvives(e: Entry, entries: seq<Entry>, indent: nat, more: seq<string>, r: seq<string>)
    requires IsData(e.value) && IsReadableKey(e.key) && !e.value.IsNonEmptyContainer() && entries != [] && entries[0] == e
    requires ReadEntries(Physical(RenderEntry(e, indent)) + more, 2 * indent) == Some(Parsed(entries, r))
    ensures IsPrintable(e.value) && IsFaithful(e.value)
    ensures ReadEntries(more, 2 * indent) == Some(Parsed(entries[1..], r))
  {
    var text, col := SplitLines(InlineText(e.value)), 2 * indent;
    InlineEntryLines(e, indent);
    Associate([Spaces(col) + Key(e.key) + ":" + (" " + text[0])], text[1..], more);
    InlineEntryReads(e.key, text[0], col, text[1..] + more);
    EntryThenParts(e.key, Inline(text[0], text[1..] + more), col, entries, r);
    InlineFirstLine(e.value);
    OneLineStays(InlineText(e.value));
    assert text[1..] + more == more;
  }

  // ---------- The lines of nodes ----------

  /** The file's lines of a value start like its rendered lines. */
  lemma PhysicalStart(v: Value, indent: nat)
    requires v.IsNonEmptyContainer()
    ensures StartsAt(Physical(Render(v, indent)), 2 * indent)
  {
    if v.Dict? {
      PhysicalEntryStart(v.entries[0], indent);
      PhysicalConcat(RenderEntry(v.entries[0], indent), RenderEntries(v.entries[1..], indent));
    } else {
      PhysicalItemStart(v.items[0], indent);
      PhysicalConcat(RenderItem(v.items[0], indent), RenderItems(v.items[1..], indent));
    }
  }

  lemma SplitStart(text: string)
    requires text != "" && text[0] != '\n'
    ensures SplitLines(text)[0] != "" && SplitLines(text)[0][0] == text[0]
  {
    assert FirstBreak(text) > 0;
  }

  lemma PhysicalEntryStart(e: Entry, indent: nat)
    ensures StartsAt(Physical(RenderEntry(e, indent)), 2 * indent)
  {
    PhysicalEntry(e, indent);
    KeyStart(e.key);
    SplitStart(Key(e.key) + ":" + EntryAfter(e.value));
    LineStartsAt(2 * indent, SplitLines(Key(e.key) + ":" + EntryAfter(e.value))[0]);
  }

  /** What follows the dash of an item on its line. */
  function ItemAfter(v: Value, indent: nat): string {
    if v.Dict? && v.entries != [] then " " + LStrip(Render(v, indent + 1)[0])
    else if v.List? && v.items != [] then ""
    else " " + Scalar(v)
  }

  function ItemBelow(v: Value, indent: nat): seq<string> {
    if v.Dict? && v.entries != [] then Render(v, indent + 1)[1..]
    else if v.List? && v.items != [] then Render(v, indent + 1)
    else []
  }

  lemma ItemParts(v: Value, indent: nat)
    ensures RenderItem(v, indent) == [Spaces(2 * indent) + ("-" + ItemAfter(v, indent))] + ItemBelow(v, indent)
  {
    var pad := Spaces(2 * indent);
    assert "- " == "-" + " ";
    if v.Dict? && v.entries != [] {
      DashRegrouped(pad, LStrip(Render(v, indent + 1)[0]));
    } else if v.List? && v.items != [] {
      assert "-" + "" == "-";
    } else {
      DashRegrouped(pad, Scalar(v));
    }
  }

  lemma DashRegrouped(pad: string, text: string)
    ensures pad + "- " + text == pad + ("-" + (" " + text))
  {
  }

  lemma PhysicalItem(v: Value, indent: nat)
    ensures var text := SplitLines(ItemAfter(v, indent));
            Physical(RenderItem(v, indent))
            == [Spaces(2 * indent) + ("-" + text[0])] + (text[1..] + Physical(ItemBelow(v, indent)))
  {
    ItemParts(v, indent);
    SplitAfter("-", ItemAfter(v, indent));
    PhysicalHead(Spaces(2 * indent), "-" + ItemAfter(v, indent), ItemBelow(v, indent));
  }

  lemma PhysicalItemStart(v: Value, indent: nat)
    ensures StartsAt(Physical(RenderItem(v, indent)), 2 * indent)
    ensures IsDash(Physical(RenderItem(v, indent))[0][2 * indent..])
  {
    PhysicalItem(v, indent);
    var after := ItemAfter(v, indent);
    TailStays(after);
    var text := "-" + SplitLines(after)[0];
    LineStartsAt(2 * indent, text);
  }

  lemma EntriesEnd(entries: seq<Entry>, indent: nat, rest: seq<string>)
    requires Ends(rest, 2 * indent)
    ensures EndsAt(Physical(RenderEntries(entries, indent)) + rest, 2 * indent)
  {
    if entries != [] {
      PhysicalEntryStart(entries[0], indent);
      PhysicalConcat(RenderEntry(entries[0], indent), RenderEntries(entries[1..], indent));
    }
  }

  lemma ItemsEnd(items: seq<Value>, indent: nat, rest: seq<string>)
    requires Ends(rest, 2 * indent)
    ensures EndsAt(Physical(RenderItems(items, indent)) + rest, 2 * indent)
  {
    if items != [] {
      PhysicalItemStart(items[0], indent);
      PhysicalConcat(RenderItem(items[0], indent), RenderItems(items[1..], indent));
    }
  }

  // ---------- Scalars as nodes ----------

  lemma ScalarNodeReads(text: string, v: Value, below: seq<string>, col: nat, r: seq<string>)
    requires IsScalar(v) && text != "" && !IsSpace(text[0])
    requires ReadNode([Spaces(col) + text] + below, col) == Some(Parsed(v, r))
    ensures ReadInline(text) == Some(v) && r == below
  {
    LineStartsAt(col, text);
    var lines := [Spaces(col) + text] + below;
    assert lines[0][col..] == text && lines[1..] == below;
  }

  lemma ScalarSurvives(v: Value, below: seq<string>, col: nat, r: seq<string>)
    requires IsScalar(v) && IsData(v)
    requires var text := SplitLines(Scalar(v));
             ReadNode([Spaces(col) + text[0]] + (text[1..] + below), col) == Some(Parsed(v, r))
    ensures IsPrintable(v) && IsFaithful(v) && r == below
  {
    var text := SplitLines(Scalar(v));
    ScalarStart(v);
    SplitStart(Scalar(v));
    ScalarNodeReads(text[0], v, text[1..] + below, col, r);
    FirstLineReads(v);
    OneLineStays(Scalar(v));
    assert text[1..] + below == below;
  }

  lemma QuotedNodeReads(text: string, content: string, below: seq<string>, col: nat)
    requires ReadsAs(text, Str(content)) && '\n' !in text
    ensures var lines := SplitLines(text);
            ReadNode([Spaces(col) + lines[0]] + (lines[1..] + below), col) == Some(Parsed(Str(content), below))
  {
    OneLineStays(text);
    assert SplitLines(text)[1..] + below == below;
    InlineNodeReads(text, Str(content), col, below);
  }

  lemma EmptyItemFails(v: Value, below: seq<string>, col: nat)
    requires IsEmptyContainer(v)
    ensures var text := SplitLines(Scalar(v));
            var r := ReadNode([Spaces(col) + text[0]] + (text[1..] + below), col);
            r.Some? && IsScalar(r.value.result)
  {
    var content := if v.List? then "[]" else "{}";
    BracketsRead(content);
    ReadTextOneLine(StringScalar(content), Str(content));
    QuotedNodeReads(StringScalar(content), content, below, col);
  }

  // ---------- Whatever is read exactly was printed safely ----------

  lemma NestedEntryLines(e: Entry, indent: nat)
    requires IsReadableKey(e.key) && e.value.IsNonEmptyContainer()
    ensures Physical(RenderEntry(e, indent))
            == [Spaces(2 * indent) + Key(e.key) + ":"] + Physical(Render(e.value, indent + 1))
  {
    var line := Spaces(2 * indent) + Key(e.key) + ":";
    ReadableKeyOneLine(e.key);
    OneLineStays(line);
    PhysicalCons(line, Render(e.value, indent + 1));
  }

  lemma NestedEntryEquation(e: Entry, indent: nat, more: seq<string>)
    requires IsReadableKey(e.key) && e.value.IsNonEmptyContainer()
    ensures ReadEntries(Physical(RenderEntry(e, indent)) + more, 2 * indent)
            == EntryThen(e.key, ReadNode(Physical(Render(e.value, indent + 1)) + more, 2 * (indent + 1)), 2 * indent)
  {
    var nested := Physical(Render(e.value, indent + 1));
    NestedEntryLines(e, indent);
    Associate([Spaces(2 * indent) + Key(e.key) + ":"], nested, more);
    PhysicalStart(e.value, indent + 1);
    NestedEntryReads(e.key, nested + more, 2 * indent);
  }

  lemma NestedEntryFound(e: Entry, entries: seq<Entry>, indent: nat, more: seq<string>, r: seq<string>)
    returns (next: seq<string>)
    requires IsReadableKey(e.key) && e.value.IsNonEmptyContainer() && entries != [] && entries[0] == e
    requires ReadEntries(Physical(RenderEntry(e, indent)) + more, 2 * indent) == Some(Parsed(entries, r))
    ensures ReadsExactly(e.value, indent + 1, more, next)
    ensures ReadEntries(next, 2 * indent) == Some(Parsed(entries[1..], r))
  {
    NestedEntryEquation(e, indent, more);
    var value := ReadNode(Physical(Render(e.value, indent + 1)) + more, 2 * (indent + 1));
    EntryThenParts(e.key, value, 2 * indent, entries, r);
    next := value.value.rest;
  }

  lemma NestedSurvives(v: Value, indent: nat, more: seq<string>, next: seq<string>)
    requires IsData(v) && EndsAt(more, 2 * indent)
    requires ReadsExactly(v, indent + 1, more, next)
    ensures IsPrintable(v) && IsFaithful(v) && next == more
    decreases v, 2
  {
    NodeSurvives(v, indent + 1, more, next);
    SurvivorReads(v, indent + 1, more);
    ReadOnce(v, indent + 1, more, next);
  }

  lemma ReadOnce(v: Value, indent: nat, rest: seq<string>, next: seq<string>)
    requires ReadsExactly(v, indent, rest, next) && ReadsExactly(v, indent, rest, rest)
    ensures next == rest
  {
  }

  lemma EntrySurvives(e: Entry, entries: seq<Entry>, indent: nat, more: seq<string>, r: seq<string>)
    requires IsData(e.value) && entries != [] && entries[0] == e && EndsAt(more, 2 * indent)
    requires ReadEntries(Physical(RenderEntry(e, indent)) + more, 2 * indent) == Some(Parsed(entries, r))
    ensures IsReadableKey(e.key) && IsPrintable(e.value) && IsFaithful(e.value)
    ensures ReadEntries(more, 2 * indent) == Some(Parsed(entries[1..], r))
    decreases e.value, 3
  {
    if !IsReadableKey(e.key) {
      UnreadableStops(e, indent, more);
    } else if e.value.IsNonEmptyContainer() {
      var next := NestedEntryFound(e, entries, indent, more, r);
      NestedSurvives(e.value, indent, more, next);
    } else {
      InlineEntrySurvives(e, entries, indent, more, r);
    }
  }

  lemma EntriesApart(entries: seq<Entry>, indent: nat, rest: seq<string>)
    requires entries != []
    ensures Physical(RenderEntries(entries, indent)) + rest
            == Physical(RenderEntry(entries[0], indent)) + (Physical(RenderEntries(entries[1..], indent)) + rest)
  {
    PhysicalConcat(RenderEntry(entries[0], indent), RenderEntries(entries[1..], indent));
    Associate(Physical(RenderEntry(entries[0], indent)), Physical(RenderEntries(entries[1..], indent)), rest);
  }

  lemma ItemsApart(items: seq<Value>, indent: nat, rest: seq<string>)
    requires items != []
    ensures Physical(RenderItems(items, indent)) + rest
            == Physical(RenderItem(items[0], indent)) + (Physical(RenderItems(items[1..], indent)) + rest)
  {
    PhysicalConcat(RenderItem(items[0], indent), RenderItems(items[1..], indent));
    Associate(Physical(RenderItem(items[0], indent)), Physical(RenderItems(items[1..], indent)), rest);
  }

  lemma {:induction false} EntriesSurvive(entries: seq<Entry>, indent: nat, rest: seq<string>, r: seq<string>)
    requires EntriesAreData(entries) && Ends(rest, 2 * indent)
    requires ReadEntries(Physical(RenderEntries(entries, indent)) + rest, 2 * indent) == Some(Parsed(entries, r))
    ensures EntriesPrintable(entries) && EntriesFaithful(entries)
    decreases entries, 0
  {
    if entries != [] {
      EntriesApart(entries, indent, rest);
      EntriesEnd(entries[1..], indent, rest);
      EntrySurvives(entries[0], entries, indent, Physical(RenderEntries(entries[1..], indent)) + rest, r);
      EntriesSurvive(entries[1..], indent, rest, r);
    }
  }

  lemma ScalarItemLines(v: Value, indent: nat)
    requires !v.IsNonEmptyContainer()
    ensures var text := SplitLines(Scalar(v));
            Physical(RenderItem(v, indent)) == [Spaces(2 * indent) + "- " + text[0]] + text[1..]
  {
    var text := SplitLines(Scalar(v));
    PhysicalHead(Spaces(2 * indent) + "- ", Scalar(v), []);
    assert [Spaces(2 * indent) + "- " + Scalar(v)] + [] == RenderItem(v, indent);
    assert text[1..] + Physical([]) == text[1..];
  }

  lemma ScalarItemEquation(v: Value, indent: nat, more: seq<string>)
    requires !v.IsNonEmptyContainer()
    ensures ReadItems(Physical(RenderItem(v, indent)) + more, 2 * indent)
            == ItemThen(FileNode(v, more, 2 * indent + 2), 2 * indent)
  {
    var text := SplitLines(Scalar(v));
    ScalarItemLines(v, indent);
    Associate([Spaces(2 * indent) + "- " + text[0]], text[1..], more);
    DashItemReads(text[0], text[1..] + more, 2 * indent);
  }

  lemma ScalarItemSurvives(v: Value, items: seq<Value>, indent: nat, more: seq<string>, r: seq<string>)
    requires IsData(v) && !v.IsNonEmptyContainer() && items != [] && items[0] == v
    requires ReadItems(Physical(RenderItem(v, indent)) + more, 2 * indent) == Some(Parsed(items, r))
    ensures IsPrintable(v) && IsFaithful(v) && !IsEmptyContainer(v)
    ensures ReadItems(more, 2 * indent) == Some(Parsed(items[1..], r))
  {
    var col := 2 * indent;
    ScalarItemEquation(v, indent, more);
    ItemThenParts(FileNode(v, more, col + 2), col, items, r);
    ReadScalarSurvives(v, more, col + 2);
  }

  /** What is read where a scalar stands in the file. */
  function FileNode(v: Value, more: seq<string>, col: nat): Option<Parsed<Value>>
    requires !v.IsNonEmptyContainer()
  {
    var text := SplitLines(Scalar(v));
    ReadNode([Spaces(col) + text[0]] + (text[1..] + more), col)
  }

  lemma ReadScalarSurvives(v: Value, more: seq<string>, col: nat)
    requires IsData(v) && !v.IsNonEmptyContainer()
    requires FileNode(v, more, col).Some? && FileNode(v, more, col).value.result == v
    ensures IsPrintable(v) && IsFaithful(v) && !IsEmptyContainer(v) && FileNode(v, more, col).value.rest == more
  {
    if IsScalar(v) {
      ScalarSurvives(v, more, col, FileNode(v, more, col).value.rest);
    } else {
      EmptyItemFails(v, more, col);
    }
  }

  lemma NestedListEquation(v: Value, indent: nat, more: seq<string>)
    requires v.List? && v.items != []
    ensures ReadItems(Physical(RenderItem(v, indent)) + more, 2 * indent)
            == ItemThen(ReadNode(Physical(Render(v, indent + 1)) + more, 2 * (indent + 1)), 2 * indent)
  {
    var nested, line := Physical(Render(v, indent + 1)), Spaces(2 * indent) + "-";
    OneLineStays(line);
    PhysicalCons(line, Render(v, indent + 1));
    Associate([line], nested, more);
    PhysicalStart(v, indent + 1);
    NestedListReads(nested + more, 2 * indent);
  }

  lemma NestedListFound(v: Value, items: seq<Value>, indent: nat, more: seq<string>, r: seq<string>)
    returns (next: seq<string>)
    requires v.List? && v.items != [] && items != [] && items[0] == v
    requires ReadItems(Physical(RenderItem(v, indent)) + more, 2 * indent) == Some(Parsed(items, r))
    ensures ReadsExactly(v, indent + 1, more, next)
    ensures ReadItems(next, 2 * indent) == Some(Parsed(items[1..], r))
  {
    NestedListEquation(v, indent, more);
    var value := ReadNode(Physical(Render(v, indent + 1)) + more, 2 * (indent + 1));
    ItemThenParts(value, 2 * indent, items, r);
    next := value.value.rest;
  }

  /** The lines of a hoisted mapping are its own lines with the dash over the first indentation. */
  lemma HoistedLines(v: Value, indent: nat) returns (text: string, tail: seq<string>)
    requires v.Dict? && v.entries != []
    ensures Physical(RenderItem(v, indent)) == [Spaces(2 * indent) + "- " + text] + tail
    ensures Physical(Render(v, indent + 1)) == [Spaces(2 * indent + 2) + text] + tail
  {
    var col, below := 2 * indent, Render(v, indent + 1)[1..];
    var first := HoistedRendered(v, indent);
    text, tail := SplitLines(first)[0], SplitLines(first)[1..] + Physical(below);
    PhysicalHead(Spaces(col) + "- ", first, below);
    PhysicalHead(Spaces(col + 2), first, below);
  }

  lemma HoistedEquation(v: Value, indent: nat, more: seq<string>)
    requires v.Dict? && v.entries != []
    ensures ReadItems(Physical(RenderItem(v, indent)) + more, 2 * indent)
            == ItemThen(ReadNode(Physical(Render(v, indent + 1)) + more, 2 * (indent + 1)), 2 * indent)
  {
    var col := 2 * indent;
    var text, tail := HoistedLines(v, indent);
    Associate([Spaces(col) + "- " + text], tail, more);
    Associate([Spaces(col + 2) + text], tail, more);
    DashItemReads(text, tail + more, col);
  }

  lemma HoistedFound(v: Value, items: seq<Value>, indent: nat, more: seq<string>, r: seq<string>)
    returns (next: seq<string>)
    requires v.Dict? && v.entries != [] && items != [] && items[0] == v
    requires ReadItems(Physical(RenderItem(v, indent)) + more, 2 * indent) == Some(Parsed(items, r))
    ensures ReadsExactly(v, indent + 1, more, next)
    ensures ReadItems(next, 2 * indent) == Some(Parsed(items[1..], r))
  {
    HoistedEquation(v, indent, more);
    var value := ReadNode(Physical(Render(v, indent + 1)) + more, 2 * (indent + 1));
    ItemThenParts(value, 2 * indent, items, r);
    next := value.value.rest;
  }

  lemma NestedItemFound(v: Value, items: seq<Value>, indent: nat, more: seq<string>, r: seq<string>)
    returns (next: seq<string>)
    requires v.IsNonEmptyContainer() && items != [] && items[0] == v
    requires ReadItems(Physical(RenderItem(v, indent)) + more, 2 * indent) == Some(Parsed(items, r))
    ensures ReadsExactly(v, indent + 1, more, next)
    ensures ReadItems(next, 2 * indent) == Some(Parsed(items[1..], r))
  {
    if v.Dict? {
      next := HoistedFound(v, items, indent, more, r);
    } else {
      next := NestedListFound(v, items, indent, more, r);
    }
  }

  lemma ItemSurvives(v: Value, items: seq<Value>, indent: nat, more: seq<string>, r: seq<string>)
    requires IsData(v) && items != [] && items[0] == v && EndsAt(more, 2 * indent)
    requires ReadItems(Physical(RenderItem(v, indent)) + more, 2 * indent) == Some(Parsed(items, r))
    ensures IsPrintable(v) && IsFaithful(v) && !IsEmptyContainer(v)
    ensures ReadItems(more, 2 * indent) == Some(Parsed(items[1..], r))
    decreases v, 3
  {
    if v.IsNonEmptyContainer() {
      var next := NestedItemFound(v, items, indent, more, r);
      NestedSurvives(v, indent, more, next);
    } else {
      ScalarItemSurvives(v, items, indent, more, r);
    }
  }

  lemma {:induction false} ItemsSurvive(items: seq<Value>, indent: nat, rest: seq<string>, r: seq<string>)
    requires ItemsAreData(items) && Ends(rest, 2 * indent)
    requires ReadItems(Physical(RenderItems(items, indent)) + rest, 2 * indent) == Some(Parsed(items, r))
    ensures AllPrintable(items) && ItemsFaithful(items)
    decreases items, 0
  {
    if items != [] {
      ItemsApart(items, indent, rest);
      ItemsEnd(items[1..], indent, rest);
      ItemSurvives(items[0], items, indent, Physical(RenderItems(items[1..], indent)) + rest, r);
      ItemsSurvive(items[1..], indent, rest, r);
    }
  }

  lemma ScalarNodeLines(v: Value, indent: nat, rest: seq<string>)
    requires IsScalar(v)
    ensures ReadNode(Physical(Render(v, indent)) + rest, 2 * indent) == FileNode(v, rest, 2 * indent)
  {
    var text := SplitLines(Scalar(v));
    PhysicalHead(Spaces(2 * indent), Scalar(v), []);
    assert [Spaces(2 * indent) + Scalar(v)] + [] == Render(v, indent);
    Associate([Spaces(2 * indent) + text[0]], text[1..], rest);
    assert text[1..] + Physical([]) == text[1..];
  }

  lemma MappingFound(entries: seq<Entry>, lines: seq<string>, col: nat, r: seq<string>)
    requires entries != [] && lines != [] && Indent(lines[0]) == col && !IsDash(lines[0][col..])
    requires lines[0][col..] != "" && lines[0][col..] != "{}"
    requires ReadNode(lines, col) == Some(Parsed(Dict(entries), r))
    ensures ReadEntries(lines, col) == Some(Parsed(entries, r))
  {
  }

  lemma EntryLineStart(e: Entry, indent: nat)
    ensures var lines := Physical(RenderEntry(e, indent));
            && StartsAt(lines, 2 * indent) && !IsDash(lines[0][2 * indent..])
            && lines[0][2 * indent..] != "" && lines[0][2 * indent..] != "{}"
  {
    var text := Key(e.key) + ":" + EntryAfter(e.value);
    PhysicalEntry(e, indent);
    KeyStart(e.key);
    SplitStart(text);
    LineStartsAt(2 * indent, SplitLines(text)[0]);
  }

  lemma MappingNodeFound(entries: seq<Entry>, indent: nat, rest: seq<string>, r: seq<string>)
    requires entries != [] && ReadsExactly(Dict(entries), indent, rest, r)
    ensures ReadEntries(Physical(RenderEntries(entries, indent)) + rest, 2 * indent) == Some(Parsed(entries, r))
  {
    var head, more := Physical(RenderEntry(entries[0], indent)), Physical(RenderEntries(entries[1..], indent)) + rest;
    EntryLineStart(entries[0], indent);
    EntriesApart(entries, indent, rest);
    assert Render(Dict(entries), indent) == RenderEntries(entries, indent);
    assert (head + more)[0] == head[0];
    MappingFound(entries, head + more, 2 * indent, r);
  }

  lemma SequenceFound(items: seq<Value>, lines: seq<string>, col: nat, r: seq<string>)
    requires lines != [] && Indent(lines[0]) == col && IsDash(lines[0][col..])
    requires ReadNode(lines, col) == Some(Parsed(List(items), r))
    ensures ReadItems(lines, col) == Some(Parsed(items, r))
  {
  }

  lemma SequenceNodeFound(items: seq<Value>, indent: nat, rest: seq<string>, r: seq<string>)
    requires items != [] && ReadsExactly(List(items), indent, rest, r)
    ensures ReadItems(Physical(RenderItems(items, indent)) + rest, 2 * indent) == Some(Parsed(items, r))
  {
    PhysicalItemStart(items[0], indent);
    ItemsApart(items, indent, rest);
    SequenceFound(items, Physical(RenderItems(items, indent)) + rest, 2 * indent, r);
  }

  /** At every depth: a value that is read exactly has only keys and scalars that survive and no
      empty container in a list. */
  lemma {:induction false} NodeSurvives(v: Value, indent: nat, rest: seq<string>, r: seq<string>)
    requires IsData(v) && Ends(rest, 2 * indent)
    requires ReadsExactly(v, indent, rest, r)
    ensures IsPrintable(v) && IsFaithful(v)
    decreases v, 1
  {
    if v.Dict? && v.entries != [] {
      MappingNodeFound(v.entries, indent, rest, r);
      EntriesSurvive(v.entries, indent, rest, r);
    } else if v.List? && v.items != [] {
      SequenceNodeFound(v.items, indent, rest, r);
      ItemsSurvive(v.items, indent, rest, r);
    } else if IsScalar(v) {
      ScalarNodeLines(v, indent, rest);
      ReadScalarSurvives(v, rest, 2 * indent);
    }
  }

  // ---------- Document markers ----------

  /** The whole document is a bare text that starts with the document end marker. */
  predicate IsMarkerText(v: Value) {
    v.Str? && IsBare(v.content) && IsMarker(v.content)
  }

  predicate NoMarkers(lines: seq<string>) {
    forall line <- lines :: !IsMarker(line)
  }

  predicate AllIndented(lines: seq<string>) {
    forall line <- lines :: line != "" && line[0] == ' '
  }

  lemma PadFirst(n: nat, text: string)
    requires n > 0
    ensures Spaces(n) + text != "" && (Spaces(n) + text)[0] == ' '
  {
  }

  lemma EntryIndented(e: Entry, indent: nat)
    requires AllIndented(EntryBelow(e.value, indent))
    ensures indent > 0 ==> AllIndented(RenderEntry(e, indent))
    ensures indent == 0 ==> NoMarkers(RenderEntry(e, indent))
  {
    var text := Key(e.key) + ":" + EntryAfter(e.value);
    EntryParts(e, indent);
    KeyStart(e.key);
    if indent > 0 {
      PadFirst(2 * indent, text);
    } else {
      assert Spaces(0) + text == text && text[0] == Key(e.key)[0];
      assert !IsMarker(text);
    }
  }

  lemma ItemIndented(v: Value, indent: nat)
    requires AllIndented(ItemBelow(v, indent))
    ensures indent > 0 ==> AllIndented(RenderItem(v, indent))
    ensures indent == 0 ==> NoMarkers(RenderItem(v, indent))
  {
    var text := "-" + ItemAfter(v, indent);
    ItemParts(v, indent);
    if indent > 0 {
      PadFirst(2 * indent, text);
    } else {
      assert Spaces(0) + text == text;
      assert |text| > 1 ==> text[1] == ' ';
    }
  }

  lemma {:induction false} EntriesIndented(entries: seq<Entry>, indent: nat)
    ensures indent > 0 ==> AllIndented(RenderEntries(entries, indent))
    ensures indent == 0 ==> NoMarkers(RenderEntries(entries, indent))
    decreases entries, 0
  {
    if entries != [] {
      if entries[0].value.IsNonEmptyContainer() {
        BlockIndented(entries[0].value, indent + 1);
      }
      EntryIndented(entries[0], indent);
      EntriesIndented(entries[1..], indent);
    }
  }

  lemma {:induction false} ItemsIndented(items: seq<Value>, indent: nat)
    ensures indent > 0 ==> AllIndented(RenderItems(items, indent))
    ensures indent == 0 ==> NoMarkers(RenderItems(items, indent))
    decreases items, 0
  {
    if items != [] {
      if items[0].IsNonEmptyContainer() {
        BlockIndented(items[0], indent + 1);
      }
      ItemIndented(items[0], indent);
      ItemsIndented(items[1..], indent);
    }
  }

  /** No line of a block can be taken for a document marker. */
  lemma {:induction false} BlockIndented(v: Value, indent: nat)
    requires v.IsNonEmptyContainer()
    ensures indent > 0 ==> AllIndented(Render(v, indent))
    ensures indent == 0 ==> NoMarkers(Render(v, indent))
    decreases v, 1
  {
    if v.Dict? {
      EntriesIndented(v.entries, indent);
    } else {
      ItemsIndented(v.items, indent);
    }
  }

  lemma QuotedIsNoMarker(s: string)
    requires !IsBare(s)
    ensures !IsMarker(StringScalar(s))
  {
    BareIsPrintedBare(s);
  }

  lemma ScalarIsNoMarker(v: Value)
    requires IsScalar(v) && IsPrintable(v) && !IsMarkerText(v)
    ensures !IsMarker(Scalar(v))
  {
    ScalarReadsAs(v);
    if v.Str? {
      BareIsPrintedBare(v.content);
      if !IsBare(v.content) {
        QuotedIsNoMarker(v.content);
      }
    } else if v.Other? {
      FloatIsNoMarker(v.text);
    } else if v.Int? {
      IntIsNoMarker(v.number);
    }
  }

  lemma FloatIsNoMarker(t: string)
    requires IsFloatText(t) && '.' in t
    ensures !IsMarker(t)
  {
    PointedFloat(t);
    NumericLength(t);
    FloatStart(t);
  }

  lemma IntIsNoMarker(n: int)
    ensures !IsMarker(IntText(n))
  {
    var digits := Digits(if n < 0 then -n else n);
    DigitsParse(if n < 0 then -n else n);
    assert digits[0] in digits;
    assert n < 0 ==> IntText(n)[1] == digits[0];
  }

  lemma PrintedWithoutMarkers(v: Value)
    requires IsPrintable(v) && !IsMarkerText(v)
    ensures NoMarkers(Render(v, 0))
  {
    if v.IsNonEmptyContainer() {
      BlockIndented(v, 0);
    } else if IsScalar(v) {
      ScalarIsNoMarker(v);
      assert Spaces(0) + Scalar(v) == Scalar(v);
    } else {
      assert Render(v, 0)[0][0] == '{' || Render(v, 0)[0][0] == '[';
    }
  }

  lemma BareOneLine(s: string)
    requires IsBare(s)
    ensures '\n' !in s
  {
  }

  lemma MarkerTextRefused(v: Value)
    requires IsMarkerText(v)
    ensures ReadBlock(Physical(Render(v, 0))).None?
  {
    BareIsPrintedBare(v.content);
    BareOneLine(v.content);
    assert Spaces(0) + Scalar(v) == v.content;
    OneLineStays(v.content);
    PhysicalCons(v.content, []);
    assert Render(v, 0) == [v.content] + [];
    assert v.content in Physical(Render(v, 0));
  }

  /** The printed block of a printable value reads as what it comes back as. */
  lemma BlockReadsBack(v: Value)
    requires IsPrintable(v) && !IsMarkerText(v)
    ensures ReadBlock(Render(v, 0)) == Some(Back(v)) && Physical(Render(v, 0)) == Render(v, 0)
  {
    NodeReads(v, 0, []);
    assert Render(v, 0) + [] == Render(v, 0);
    PrintedWithoutMarkers(v);
    RenderOneLine(v, 0);
    PhysicalStays(Render(v, 0));
  }

  /** Whatever the generators hand to the writer is read back exactly when all its keys and scalars
      survive, no list directly holds an empty container, and the whole is no document marker. */
  lemma RoundTripIff(v: Value)
    requires IsData(v)
    ensures ReadBlock(Physical(Render(v, 0))) == Some(v) <==> IsPrintable(v) && IsFaithful(v) && !IsMarkerText(v)
  {
    var lines := Physical(Render(v, 0));
    if IsPrintable(v) && IsFaithful(v) && !IsMarkerText(v) {
      BlockReadsBack(v);
      BackIsSame(v);
    }
    if ReadBlock(lines) == Some(v) {
      if IsMarkerText(v) {
        MarkerTextRefused(v);
      }
      assert lines + [] == lines;
      NodeSurvives(v, 0, [], []);
    }
  }

  // ---------- Trees that do not survive ----------

  /** A mapping whose key is a number, a boolean or a null to the reader never comes back. */
  lemma TypedKeyLost(k: string, v: Value)
    requires IsData(v) && (k == "10" || k == "yes" || k == "null" || k == "0x1F")
    ensures ReadBlock(Physical(Render(Dict([Entry(k, v)]), 0))) != Some(Dict([Entry(k, v)]))
  {
    var entries := [Entry(k, v)];
    TypedKeys(k);
    assert entries[0].key == k && entries[1..] == [];
    assert !EntriesPrintable(entries);
    RoundTripIff(Dict(entries));
  }

  /** The text `...` ends the document instead of being its value. */
  lemma EndMarkerLost()
    ensures ReadBlock(Physical(Render(Str("..."), 0))).None?
  {
    EndMarkerIsBare("...");
    MarkerTextRefused(Str("..."));
  }

  lemma EndMarkerIsBare(s: string)
    requires s == "..."
    ensures IsBare(s) && IsMarker(s)
  {
    assert Lower(s)[0] == '.' && s[2] == '.';
    assert DropSign(s) == s && LeadingDigits(s) == 0 && s[1..][0] == '.' && LeadingDigits(s[1..]) == 0;
    assert s[0..] == s && s[1..][0..] == s[1..];
  }

  /** No string, safe or not, prints as the text of a null, a boolean or an integer. */
  lemma NoStringPrintsAsAnother(s: string, v: Value)
    requires v.Null? || v.Bool? || v.Int?
    ensures StringScalar(s) != Scalar(v)
  {
    ScalarReadsAs(v);
    StringReadsBackIff(s);
    if !IsLineSafe(s) {
      UnsafeFails(s);
    } else if IsBare(s) {
      BareValues(s);
      BareReads(s);
    }
  }
}
