/**
 The YAML writer used for playbooks, inventories and variable files: block style, keys in
 their given order, text quoted only where it must be.
 */
module YamlWriter {
  import opened Decimal
  import opened Text

  /** What the generators hand to the writer. `Other` is a number that is not an integer, known by
      its text. */
  datatype Value =
    | Null
    | Bool(flag: bool)
    | Int(number: int)
    | Other(text: string)
    | Str(content: string)
    | List(items: seq<Value>)
    | Dict(entries: seq<Entry>)
  {
    predicate IsNonEmptyContainer() {
      (List? && items != []) || (Dict? && entries != [])
    }
  }

  datatype Entry = Entry(key: string, value: Value)

  // ---------- Character classes ----------

  predicate IsLetter(c: char) {
    'a' <= c <= 'z' || 'A' <= c <= 'Z'
  }

  /** What `strip` removes. */
  predicate IsSpace(c: char) {
    || '\t' <= c <= '\r' || 0x1C as char <= c <= ' ' || c == 0x85 as char || c == 0xA0 as char
    || c == 0x1680 as char || 0x2000 as char <= c <= 0x200A as char || c == 0x2028 as char || c == 0x2029 as char
    || c == 0x202F as char || c == 0x205F as char || c == 0x3000 as char
  }

  // ---------- Scalars ----------

  const NULL_WORDS: set<string> := {"null", "none", "~", ""}
  const TRUE_WORDS: set<string> := {"true", "yes", "on", "y"}
  const FALSE_WORDS: set<string> := {"false", "no", "off", "n"}

  predicate IsAmbiguous(s: string) {
    var lower := Lower(s);
    lower in NULL_WORDS || lower in TRUE_WORDS || lower in FALSE_WORDS
  }

  /** The decimal digits beyond ASCII come in runs of ten, which start here (Unicode 14). */
  const OTHER_DIGITS: seq<int> := BASIC_DIGITS + ASIAN_DIGITS + PLANE_DIGITS + LATE_DIGITS

  const BASIC_DIGITS: seq<int> := [
    0x660, 0x6F0, 0x7C0, 0x966, 0x9E6, 0xA66, 0xAE6, 0xB66, 0xBE6, 0xC66, 0xCE6, 0xD66, 0xDE6, 0xE50, 0xED0, 0xF20]
  const ASIAN_DIGITS: seq<int> := [
    0x1040, 0x1090, 0x17E0, 0x1810, 0x1946, 0x19D0, 0x1A80, 0x1A90, 0x1B50, 0x1BB0, 0x1C40, 0x1C50, 0xA620, 0xA8D0,
    0xA900, 0xA9D0, 0xA9F0]
  const PLANE_DIGITS: seq<int> := [
    0xAA50, 0xABF0, 0xFF10, 0x104A0, 0x10D30, 0x11066, 0x110F0, 0x11136, 0x111D0, 0x112F0, 0x11450, 0x114D0, 0x11650,
    0x116C0, 0x11730, 0x118E0]
  const LATE_DIGITS: seq<int> := [
    0x11950, 0x11C50, 0x11D50, 0x11DA0, 0x16A60, 0x16AC0, 0x16B50, 0x1D7CE, 0x1D7D8, 0x1D7E2, 0x1D7EC, 0x1D7F6, 0x1E140,
    0x1E2F0, 0x1E950, 0x1FBF0]

  predicate InRuns(code: int, starts: seq<int>) {
    starts != [] && (starts[0] <= code < starts[0] + 10 || InRuns(code, starts[1..]))
  }

  /** What the pattern's `\d` matches. */
  predicate IsAnyDigit(c: char) {
    IsDigit(c) || (IsOtherScript(c as int) && InRuns(c as int, OTHER_DIGITS))
  }

  /** The ranges the runs lie in. */
  predicate IsOtherScript(code: int) {
    0x660 <= code < 0x1100 || 0x17E0 <= code < 0x1D00 || 0xA620 <= code < 0xABFA || 0xFF10 <= code < 0xFF1A || 0x10000 <= code
  }

  function LeadingDigits(s: string): (n: nat)
    ensures n <= |s| && forall i :: 0 <= i < n ==> IsAnyDigit(s[i])
  {
    if s != "" && IsAnyDigit(s[0]) then 1 + LeadingDigits(s[1..]) else 0
  }

  function DropSign(s: string): string {
    if s != "" && (s[0] == '+' || s[0] == '-') then s[1..] else s
  }

  predicate IsDigits(s: string) {
    s != "" && LeadingDigits(s) == |s|
  }

  predicate IsExponent(s: string) {
    s == "" || ((s[0] == 'e' || s[0] == 'E') && IsDigits(DropSign(s[1..])))
  }

  /** Sign, digits with at most one point, exponent. */
  predicate IsNumeric(s: string) {
    var u := DropSign(s);
    var k := LeadingDigits(u);
    var rest := u[k..];
    if rest != "" && rest[0] == '.' then
      var m := LeadingDigits(rest[1..]);
      k + m > 0 && IsExponent(rest[1..][m..])
    else k > 0 && IsExponent(rest)
  }

  /** The pattern's `$` also matches before a final line break. */
  predicate MatchesNumeric(s: string) {
    IsNumeric(s) || (s != "" && s[|s| - 1] == '\n' && IsNumeric(s[..|s| - 1]))
  }

  predicate IsWordChar(c: char) {
    IsLetter(c) || IsDigit(c) || c == '_'
  }

  predicate IsSafeChar(c: char) {
    IsWordChar(c) || c == '.' || c == '/' || c == '@' || c == '+' || c == '-'
  }

  predicate IsPlainSafe(s: string) {
    s != "" && IsWordChar(s[0]) && forall c <- s :: IsSafeChar(c)
  }

  predicate MatchesPlainSafe(s: string) {
    IsPlainSafe(s) || (s != "" && s[|s| - 1] == '\n' && IsPlainSafe(s[..|s| - 1]))
  }

  const LEADING_INDICATORS: string := "-?:,[]{}#&*!|>'\"%@`"

  predicate HasPair(s: string, a: char, b: char) {
    exists i :: 0 <= i < |s| - 1 && s[i] == a && s[i + 1] == b
  }

  /** A human phrase that cannot be misread when left unquoted. */
  predicate IsPlainPhrase(s: string) {
    && s != "" && !IsSpace(s[0]) && !IsSpace(s[|s| - 1])
    && s[0] !in LEADING_INDICATORS
    && !HasPair(s, ':', ' ') && !HasPair(s, ' ', '#') && '\n' !in s && '\t' !in s
    && s[|s| - 1] != ':'
  }

  function Escape(s: string): string {
    ReplaceChar(ReplaceChar(ReplaceChar(s, '\\', "\\\\"), '\"', "\\\""), '\n', "\\n")
  }

  predicate StartsWith(s: string, prefix: string) {
    prefix <= s
  }

  function IntText(n: int): string {
    if n < 0 then "-" + Digits(-n) else Digits(n)
  }

  function StringScalar(s: string): string {
    if s == "" then "\"\""
    else if StartsWith(s, "{{") || StartsWith(s, "{%") then "\"" + Escape(s) + "\""
    else if IsAmbiguous(s) || MatchesNumeric(s) then "\"" + s + "\""
    else if MatchesPlainSafe(s) && '\n' !in s then s
    else if IsPlainPhrase(s) then s
    else "\"" + Escape(s) + "\""
  }

  /** Any value that is not a non-empty container. An empty container inside a list gets here and
      is turned into text first. */
  function Scalar(v: Value): string
    requires !v.IsNonEmptyContainer()
  {
    match v
    case Null => "null"
    case Bool(flag) => if flag then "true" else "false"
    case Int(number) => IntText(number)
    case Other(text) => text
    case Str(content) => StringScalar(content)
    case List(_) => StringScalar("[]")
    case Dict(_) => StringScalar("{}")
  }

  predicate IsAscii(t: string) {
    forall c <- t :: c < 0x80 as char
  }

  /** How the source language prints a float. */
  predicate IsFloatText(t: string) {
    IsAscii(t) && IsUnsignedFloat(if t != "" && t[0] == '-' then t[1..] else t)
  }

  predicate IsUnsignedFloat(u: string) {
    var k := LeadingDigits(u);
    || u == "inf" || u == "nan"
    || (0 < k < |u| && u[k] == '.' && IsFractionText(u[k + 1..]))
    || (0 < k && IsExponentText(u[k..]))
  }

  predicate IsFractionText(t: string) {
    var k := LeadingDigits(t);
    0 < k && (k == |t| || IsExponentText(t[k..]))
  }

  predicate IsExponentText(t: string) {
    |t| > 2 && t[0] == 'e' && (t[1] == '+' || t[1] == '-') && IsDigits(t[2..])
  }

  /** What the generators can hand to the writer: every number that is not an integer is a float. */
  predicate IsData(v: Value)
    decreases v, 1
  {
    match v
    case Other(text) => IsFloatText(text)
    case List(items) => ItemsAreData(items)
    case Dict(entries) => EntriesAreData(entries)
    case _ => true
  }

  predicate ItemsAreData(items: seq<Value>)
    decreases items, 0
  {
    items == [] || (IsData(items[0]) && ItemsAreData(items[1..]))
  }

  predicate EntriesAreData(entries: seq<Entry>)
    decreases entries, 0
  {
    entries == [] || (IsData(entries[0].value) && EntriesAreData(entries[1..]))
  }

  function Key(k: string): string {
    if MatchesPlainSafe(k) then k else "\"" + Escape(k) + "\""
  }

  // ---------- Lines ----------

  function Spaces(n: nat): (s: string)
    ensures |s| == n && forall i :: 0 <= i < n ==> s[i] == ' '
  {
    seq(n, _ => ' ')
  }

  function LStrip(s: string): string {
    if s != "" && IsSpace(s[0]) then LStrip(s[1..]) else s
  }

  function Render(v: Value, indent: nat): (lines: seq<string>)
    ensures lines != []
    decreases v, 1
  {
    match v
    case Dict(entries) =>
      if entries == [] then [Spaces(2 * indent) + "{}"] else RenderEntries(entries, indent)
    case List(items) =>
      if items == [] then [Spaces(2 * indent) + "[]"] else RenderItems(items, indent)
    case _ => [Spaces(2 * indent) + Scalar(v)]
  }

  function RenderEntries(entries: seq<Entry>, indent: nat): (lines: seq<string>)
    ensures entries != [] ==> lines != []
    decreases entries, 0
  {
    if entries == [] then [] else RenderEntry(entries[0], indent) + RenderEntries(entries[1..], indent)
  }

  function RenderEntry(e: Entry, indent: nat): (lines: seq<string>)
    ensures lines != []
    decreases e, 0
  {
    var key := Spaces(2 * indent) + Key(e.key) + ":";
    if e.value.IsNonEmptyContainer() then [key] + Render(e.value, indent + 1)
    else if e.value.Dict? then [key + " {}"]
    else if e.value.List? then [key + " []"]
    else [key + " " + Scalar(e.value)]
  }

  function RenderItems(items: seq<Value>, indent: nat): (lines: seq<string>)
    ensures items != [] ==> lines != []
    decreases items, 0
  {
    if items == [] then [] else RenderItem(items[0], indent) + RenderItems(items[1..], indent)
  }

  /** One list item; the first key of a mapping is hoisted onto the dash line. */
  function RenderItem(v: Value, indent: nat): (lines: seq<string>)
    ensures lines != []
    decreases v, 2
  {
    var pad := Spaces(2 * indent);
    if v.Dict? && v.entries != [] then
      var nested := Render(v, indent + 1);
      [pad + "- " + LStrip(nested[0])] + nested[1..]
    else if v.List? && v.items != [] then [pad + "-"] + Render(v, indent + 1)
    else [pad + "- " + Scalar(v)]
  }

  /** The writer itself: lines appended in loops. */
  method RenderLines(v: Value, indent: nat) returns (lines: seq<string>)
    ensures lines == Render(v, indent)
    decreases v, 1
  {
    var pad := Spaces(2 * indent);
    if v.Dict? {
      if v.entries == [] {
        return [pad + "{}"];
      }
      lines := RenderDictLines(v.entries, indent);
    } else if v.List? {
      if v.items == [] {
        return [pad + "[]"];
      }
      lines := RenderListLines(v.items, indent);
    } else {
      lines := [pad + Scalar(v)];
    }
  }

  method RenderDictLines(entries: seq<Entry>, indent: nat) returns (lines: seq<string>)
    ensures lines == RenderEntries(entries, indent)
    decreases entries, 0
  {
    lines := [];
    for i := 0 to |entries|
      invariant lines + RenderEntries(entries[i..], indent) == RenderEntries(entries, indent)
    {
      var nested := EntryLines(entries[i], indent);
      AppendStep(lines, nested, RenderEntries(entries[i + 1..], indent));
      assert entries[i..][0] == entries[i] && entries[i..][1..] == entries[i + 1..];
      lines := lines + nested;
    }
    assert entries[|entries|..] == [];
  }

  method EntryLines(e: Entry, indent: nat) returns (lines: seq<string>)
    ensures lines == RenderEntry(e, indent)
    decreases e, 0
  {
    var key := Spaces(2 * indent) + Key(e.key) + ":";
    if e.value.IsNonEmptyContainer() {
      lines := [key];
      var nested := RenderLines(e.value, indent + 1);
      lines := lines + nested;
    } else if e.value.Dict? {
      lines := [key + " {}"];
    } else if e.value.List? {
      lines := [key + " []"];
    } else {
      lines := [key + " " + Scalar(e.value)];
    }
  }

  lemma AppendStep(a: seq<string>, b: seq<string>, c: seq<string>)
    ensures a + (b + c) == (a + b) + c
  {
  }

  method RenderListLines(items: seq<Value>, indent: nat) returns (lines: seq<string>)
    ensures lines == RenderItems(items, indent)
    decreases items, 0
  {
    lines := [];
    for i := 0 to |items|
      invariant lines + RenderItems(items[i..], indent) == RenderItems(items, indent)
    {
      var nested := ItemLines(items[i], indent);
      AppendStep(lines, nested, RenderItems(items[i + 1..], indent));
      assert items[i..][0] == items[i] && items[i..][1..] == items[i + 1..];
      lines := lines + nested;
    }
    assert items[|items|..] == [];
  }

  method ItemLines(v: Value, indent: nat) returns (lines: seq<string>)
    ensures lines == RenderItem(v, indent)
    decreases v, 2
  {
    var pad := Spaces(2 * indent);
    if v.Dict? && v.entries != [] {
      var nested := RenderLines(v, indent + 1);
      var first := LStrip(nested[0]);
      lines := [pad + "- " + first];
      lines := lines + nested[1..];
    } else if v.List? && v.items != [] {
      lines := [pad + "-"];
      var nested := RenderLines(v, indent + 1);
      lines := lines + nested;
    } else {
      lines := [pad + "- " + Scalar(v)];
    }
  }

  // ---------- The document ----------

  function Join(lines: seq<string>): string {
    if lines == [] then "" else if |lines| == 1 then lines[0] else lines[0] + "\n" + Join(lines[1..])
  }

  function RStripBreaks(s: string): string {
    if s != "" && s[|s| - 1] == '\n' then RStripBreaks(s[..|s| - 1]) else s
  }

  function HeaderLine(line: string): string {
    if line == "" then "#" else "# " + line
  }

  function CommentLines(header: seq<string>): seq<string> {
    seq(|header|, i requires 0 <= i < |header| => HeaderLine(header[i]))
  }

  function DocumentLines(data: Value, header: seq<string>, documentStart: bool): seq<string> {
    CommentLines(header)
    + (if documentStart then ["---"] else [])
    + Render(data, 0)
  }

  method DumpYaml(data: Value, header: seq<string>, documentStart: bool) returns (text: string)
    ensures text == RStripBreaks(Join(DocumentLines(data, header, documentStart))) + "\n"
  {
    var lines: seq<string> := [];
    for i := 0 to |header|
      invariant lines == CommentLines(header[..i])
    {
      lines := lines + [if header[i] == "" then "#" else "# " + header[i]];
    }
    assert header[..|header|] == header;
    if documentStart {
      lines := lines + ["---"];
    }
    var body := RenderLines(data, 0);
    lines := lines + body;
    assert lines == DocumentLines(data, header, documentStart);
    text := RStripBreaks(Join(lines)) + "\n";
  }
}
