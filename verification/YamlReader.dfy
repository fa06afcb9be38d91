/**
 An independent reader for block YAML: block sequences and block mappings (sections 8.2.1 and
 8.2.2 of YAML 1.2.2) told apart by indentation and dashes, double-quoted scalars with their
 escapes, and plain scalars. The files are read by tools that follow version 1.1 as well as by
 tools that follow version 1.2.2, so the reader takes a text only where both do, and gives a plain
 scalar a type only where the core schema (section 10.3.2) and the types of version 1.1 agree on
 its value. Anything else is refused, except that keys are not compared with each other.
 */
module YamlReader {
  import opened Decimal
  import opened Text
  import opened Wrappers
  import opened YamlWriter

  // ---------- Types of plain scalars ----------

  predicate IsIntegerText(t: string) {
    DropSign(t) != "" && forall c <- DropSign(t) :: IsDigit(c)
  }

  function ParseInt(t: string): int {
    var magnitude: int := ParseDigits(DropSign(t));
    if t != "" && t[0] == '-' then -magnitude else magnitude
  }

  /** One of the words, in lower case, capitalised or in upper case. */
  predicate IsWord(t: string, words: set<string>) {
    && t != "" && Lower(t) in words
    && ((forall c <- t[1..] :: !('A' <= c <= 'Z')) || (forall c <- t :: !('a' <= c <= 'z')))
  }

  predicate IsHexDigit(c: char) {
    IsDigit(c) || 'a' <= c <= 'f' || 'A' <= c <= 'F'
  }

  const INFINITIES: set<string> := {".inf", ".Inf", ".INF"}
  const NOT_NUMBERS: set<string> := {".nan", ".NaN", ".NAN"}

  predicate IsSpecialFloat(t: string) {
    DropSign(t) in INFINITIES || t in NOT_NUMBERS
  }

  // The core schema.

  /** Hexadecimal, octal and floating point forms. */
  predicate IsCoreNumber(t: string) {
    || (StartsWith(t, "0x") && |t| > 2 && forall c <- t[2..] :: IsHexDigit(c))
    || (StartsWith(t, "0o") && |t| > 2 && forall c <- t[2..] :: '0' <= c <= '7')
    || (IsNumeric(t) && IsAscii(t))
    || IsSpecialFloat(t)
  }

  function CoreValue(t: string): Value {
    if IsWord(t, {"null", "~"}) then Null
    else if IsWord(t, {"true"}) then Bool(true)
    else if IsWord(t, {"false"}) then Bool(false)
    else if IsIntegerText(t) then Int(ParseInt(t))
    else if IsCoreNumber(t) then Other(t)
    else Str(t)
  }

  // Version 1.1: underscores in numbers, base sixty, dates, merge and default keys.

  predicate IsSpacedDigit(c: char) {
    IsDigit(c) || c == '_'
  }

  function LeadingSpaced(t: string): (n: nat)
    ensures n <= |t| && forall i :: 0 <= i < n ==> IsSpacedDigit(t[i])
  {
    if t != "" && IsSpacedDigit(t[0]) then 1 + LeadingSpaced(t[1..]) else 0
  }

  /** A decimal integer without underscores or leading zeros. */
  predicate IsOldDecimal(t: string) {
    IsIntegerText(t) && (DropSign(t)[0] != '0' || |DropSign(t)| == 1)
  }

  /** What follows groups of the form `:59`. */
  function AfterSixties(t: string): (r: string)
    decreases |t|
  {
    if |t| > 2 && t[0] == ':' && '0' <= t[1] <= '5' && IsDigit(t[2]) then AfterSixties(t[3..])
    else if |t| > 1 && t[0] == ':' && IsDigit(t[1]) then AfterSixties(t[2..])
    else t
  }

  /** Binary, octal, decimal, hexadecimal and base sixty. */
  predicate IsOldInteger(t: string) {
    var u := DropSign(t);
    var tail := u[LeadingSpaced(u)..];
    || (StartsWith(u, "0b") && |u| > 2 && forall c <- u[2..] :: c == '0' || c == '1' || c == '_')
    || (StartsWith(u, "0x") && |u| > 2 && forall c <- u[2..] :: IsHexDigit(c) || c == '_')
    || (|u| > 1 && u[0] == '0' && forall c <- u[1..] :: '0' <= c <= '7' || c == '_')
    || (u != "" && '1' <= u[0] <= '9' && (tail == "" || (tail[0] == ':' && AfterSixties(tail) == "")))
  }

  predicate IsOldFraction(t: string) {
    var tail := t[LeadingSpaced(t)..];
    tail == ""
    || (|tail| > 2 && (tail[0] == 'e' || tail[0] == 'E') && (tail[1] == '+' || tail[1] == '-')
        && forall c <- tail[2..] :: IsDigit(c))
  }

  /** A point is required, and so is the sign of an exponent. */
  predicate IsOldFloat(t: string) {
    var u := DropSign(t);
    var k := LeadingSpaced(u);
    var sixties := AfterSixties(u[k..]);
    || IsSpecialFloat(t)
    || (k < |u| && u[k] == '.' && IsOldFraction(u[k + 1..])
        && (if k > 0 then IsDigit(u[0]) else |u| > 1 && IsDigit(u[1])))
    || (k > 0 && IsDigit(u[0]) && sixties != u[k..] && sixties != "" && sixties[0] == '.'
        && forall c <- sixties[1..] :: IsSpacedDigit(c))
  }

  function LeadingDecimals(t: string): (n: nat)
    ensures n <= |t|
  {
    if t != "" && IsDigit(t[0]) then 1 + LeadingDecimals(t[1..]) else 0
  }

  /** What follows between `least` and `most` digits. */
  function AfterDigits(t: Option<string>, least: nat, most: nat): Option<string> {
    if t.None? || !(least <= LeadingDecimals(t.value) <= most) then None
    else Some(t.value[LeadingDecimals(t.value)..])
  }

  function AfterChar(t: Option<string>, c: char): Option<string> {
    if t.None? || t.value == "" || t.value[0] != c then None else Some(t.value[1..])
  }

  function AfterBlanks(t: string): string {
    if t != "" && (t[0] == ' ' || t[0] == '\t') then AfterBlanks(t[1..]) else t
  }

  function AfterDate(t: string, least: nat): Option<string> {
    AfterDigits(AfterChar(AfterDigits(AfterChar(AfterDigits(Some(t), 4, 4), '-'), least, 2), '-'), least, 2)
  }

  function AfterClock(t: string): Option<string> {
    AfterDigits(AfterChar(AfterDigits(AfterChar(AfterDigits(Some(t), 1, 2), ':'), 2, 2), ':'), 2, 2)
  }

  predicate IsZone(t: string) {
    var zone := AfterBlanks(t);
    || t == "" || zone == "Z"
    || (zone != "" && (zone[0] == '+' || zone[0] == '-')
        && var hours := AfterDigits(Some(zone[1..]), 1, 2);
           hours == Some("") || AfterDigits(AfterChar(hours, ':'), 2, 2) == Some(""))
  }

  predicate IsClockText(t: string) {
    var rest := AfterClock(t);
    rest.Some? && IsZone(if StartsWith(rest.value, ".") then rest.value[1 + LeadingDecimals(rest.value[1..])..]
                         else rest.value)
  }

  /** A date, or a date and a time of day with an optional zone. */
  predicate IsTimestamp(t: string) {
    var day := AfterDate(t, 1);
    || AfterDate(t, 2) == Some("")
    || (day.Some? && day.value != ""
        && (|| ((day.value[0] == 'T' || day.value[0] == 't') && IsClockText(day.value[1..]))
            || (AfterBlanks(day.value) != day.value && IsClockText(AfterBlanks(day.value)))))
  }

  function OldValue(t: string): Value {
    if IsWord(t, {"null", "~"}) then Null
    else if IsWord(t, {"true", "yes", "on", "y"}) then Bool(true)
    else if IsWord(t, {"false", "no", "off", "n"}) then Bool(false)
    else if IsOldDecimal(t) then Int(ParseInt(t))
    else if IsOldInteger(t) || IsOldFloat(t) || IsTimestamp(t) || t == "<<" || t == "=" then Other(t)
    else Str(t)
  }

  /** The value of a plain scalar, where the versions agree. */
  function Resolve(t: string): Option<Value> {
    if CoreValue(t) == OldValue(t) then Some(CoreValue(t)) else None
  }

  /** Some version takes the text for something else than text. */
  predicate IsForeign(t: string) {
    !CoreValue(t).Str? || !OldValue(t).Str?
  }

  // ---------- Characters ----------

  /** What may stand inside a line: the printable characters (section 5.1) without the line breaks
      of either version and the byte order mark. */
  predicate IsLineChar(c: char) {
    || c == '\t' || ' ' <= c <= '~'
    || (0xA0 as char <= c <= 0xFFFD as char && c != 0x2028 as char && c != 0x2029 as char && c != 0xFEFF as char)
    || 0x10000 as char <= c
  }

  predicate HasForbidden(t: string) {
    exists c <- t :: !IsLineChar(c)
  }

  /** The characters a plain scalar may start with; a dash, question mark or colon only before
      something that is not a space. */
  predicate IsPlainStart(t: string) {
    && t != "" && !IsSpace(t[0])
    && (t[0] in LEADING_INDICATORS ==> (t[0] == '-' || t[0] == '?' || t[0] == ':') && |t| > 1 && t[1] != ' ')
  }

  predicate IsPlain(t: string) {
    && IsPlainStart(t) && !IsSpace(t[|t| - 1])
    && !HasPair(t, ':', ' ') && !HasPair(t, ' ', '#') && t[|t| - 1] != ':' && '\t' !in t
    && !HasForbidden(t)
  }

  // ---------- Quoted scalars ----------

  datatype Quoted = Quoted(content: string, after: string)

  /** Read up to the closing quote. */
  function ReadQuoted(t: string): Option<Quoted> {
    if t == "" || !IsLineChar(t[0]) then None
    else if t[0] == '\"' then Some(Quoted("", t[1..]))
    else if t[0] == '\\' then
      if |t| < 2 then None
      else if t[1] == '\\' || t[1] == '\"' then Prefixed(t[1], ReadQuoted(t[2..]))
      else if t[1] == 'n' then Prefixed('\n', ReadQuoted(t[2..]))
      else None
    else Prefixed(t[0], ReadQuoted(t[1..]))
  }

  function Prefixed(c: char, rest: Option<Quoted>): Option<Quoted> {
    if rest.None? then None else Some(Quoted([c] + rest.value.content, rest.value.after))
  }

  function ReadScalar(t: string): Option<Value> {
    if t != "" && t[0] == '\"' then
      var q := ReadQuoted(t[1..]);
      if q.Some? && q.value.after == "" then Some(Str(q.value.content)) else None
    else if IsPlain(t) then Resolve(t)
    else None
  }

  /** A value written on one line. */
  function ReadInline(t: string): Option<Value> {
    if t == "{}" then Some(Dict([])) else if t == "[]" then Some(List([])) else ReadScalar(t)
  }

  // ---------- Lines ----------

  function Indent(line: string): (n: nat)
    ensures n <= |line| && forall i :: 0 <= i < n ==> line[i] == ' '
  {
    if line != "" && line[0] == ' ' then 1 + Indent(line[1..]) else 0
  }

  predicate IsDash(t: string) {
    t == "-" || StartsWith(t, "- ")
  }

  datatype Split = Split(key: string, after: string)

  predicate IsSeparatorAt(t: string, i: nat) {
    i < |t| && t[i] == ':' && (i + 1 == |t| || t[i + 1] == ' ')
  }

  function FindSeparator(t: string, from: nat): (r: Option<nat>)
    ensures r.Some? ==> r.value < |t|
    decreases |t| - from
  {
    if from >= |t| then None
    else if IsSeparatorAt(t, from) then Some(from)
    else FindSeparator(t, from + 1)
  }

  /** The most characters the text of a key on one line may have (section 7.4.3). */
  const LONGEST_KEY := 1024

  /** A colon must follow the closing quote. */
  function SplitQuoted(q: Option<Quoted>, length: nat): Option<Split> {
    if q.Some? && IsSeparatorAt(q.value.after, 0) && length - |q.value.after| <= LONGEST_KEY
    then Some(Split(q.value.content, q.value.after[1..]))
    else None
  }

  /** A key is text: a plain key of another type is refused. */
  function SplitEntry(t: string): Option<Split> {
    if t != "" && t[0] == '\"' then
      SplitQuoted(ReadQuoted(t[1..]), |t|)
    else
      var i := FindSeparator(t, 0);
      if i.Some? && i.value <= LONGEST_KEY && IsPlain(t[..i.value]) && !IsForeign(t[..i.value])
      then Some(Split(t[..i.value], t[i.value + 1..]))
      else None
  }

  datatype Parsed<T> = Parsed(result: T, rest: seq<string>)

  /** One node whose first line is indented by exactly `col`. */
  function ReadNode(lines: seq<string>, col: nat): (r: Option<Parsed<Value>>)
    ensures r.Some? ==> |r.value.rest| < |lines|
    decreases |lines|, if lines == [] then 0 else |lines[0]| - col, 2
  {
    if lines == [] || Indent(lines[0]) != col then None
    else
      var text := lines[0][col..];
      if IsDash(text) then
        var items := ReadItems(lines, col);
        if items.None? then None else Some(Parsed(List(items.value.result), items.value.rest))
      else if SplitEntry(text).Some? then
        var entries := ReadEntries(lines, col);
        if entries.None? then None else Some(Parsed(Dict(entries.value.result), entries.value.rest))
      else
        var v := ReadInline(text);
        if v.None? then None else Some(Parsed(v.value, lines[1..]))
  }

  predicate ContinuesEntries(lines: seq<string>, col: nat) {
    lines != [] && Indent(lines[0]) == col && !IsDash(lines[0][col..]) && SplitEntry(lines[0][col..]).Some?
  }

  /** The entries of a block mapping, as long as lines continue it. */
  function ReadEntries(lines: seq<string>, col: nat): (r: Option<Parsed<seq<Entry>>>)
    ensures r.Some? ==> |r.value.rest| <= |lines| && (ContinuesEntries(lines, col) ==> |r.value.rest| < |lines|)
    decreases |lines|, if lines == [] then 0 else |lines[0]| - col, 1
  {
    if !ContinuesEntries(lines, col) then Some(Parsed([], lines))
    else
      var split := SplitEntry(lines[0][col..]).value;
      var value :=
        if split.after == "" then
          if |lines| > 1 && Indent(lines[1]) > col then ReadNode(lines[1..], Indent(lines[1])) else None
        else
          var inline := ReadInline(split.after[1..]);
          if inline.None? then None else Some(Parsed(inline.value, lines[1..]));
      if value.None? then None
      else
        var more := ReadEntries(value.value.rest, col);
        if more.None? then None
        else Some(Parsed([Entry(split.key, value.value.result)] + more.value.result, more.value.rest))
  }

  predicate ContinuesItems(lines: seq<string>, col: nat) {
    lines != [] && Indent(lines[0]) == col && IsDash(lines[0][col..])
  }

  /** The items of a block sequence. What follows `- ` stands two columns to the right, so a
      compact mapping continues there. */
  function ReadItems(lines: seq<string>, col: nat): (r: Option<Parsed<seq<Value>>>)
    ensures r.Some? ==> |r.value.rest| <= |lines| && (ContinuesItems(lines, col) ==> |r.value.rest| < |lines|)
    decreases |lines|, if lines == [] then 0 else |lines[0]| - col, 1
  {
    if !ContinuesItems(lines, col) then Some(Parsed([], lines))
    else
      var text := lines[0][col..];
      var value :=
        if text == "-" then
          if |lines| > 1 && Indent(lines[1]) > col then ReadNode(lines[1..], Indent(lines[1])) else None
        else ReadNode([Spaces(col + 2) + text[2..]] + lines[1..], col + 2);
      if value.None? then None
      else
        var more := ReadItems(value.value.rest, col);
        if more.None? then None
        else Some(Parsed([value.value.result] + more.value.result, more.value.rest))
  }

  /** A line that starts or ends a document (section 9.1.2): it may not stand inside one. */
  predicate IsMarker(line: string) {
    && (StartsWith(line, "---") || StartsWith(line, "..."))
    && (|line| == 3 || line[3] == ' ' || line[3] == '\t')
  }

  /** A whole block document: one node at the left margin and nothing after it. */
  function ReadBlock(lines: seq<string>): Option<Value> {
    var r := ReadNode(lines, 0);
    if r.Some? && r.value.rest == [] && !(exists line <- lines :: IsMarker(line)) then Some(r.value.result) else None
  }

  // ---------- Text ----------

  function SplitLines(text: string): seq<string>
    decreases |text|
  {
    var i := FirstBreak(text);
    if i == |text| then [text] else [text[..i]] + SplitLines(text[i + 1..])
  }

  function FirstBreak(text: string): (i: nat)
    ensures i <= |text| && (forall j :: 0 <= j < i ==> text[j] != '\n') && (i < |text| ==> text[i] == '\n')
  {
    if text == "" || text[0] == '\n' then 0 else 1 + FirstBreak(text[1..])
  }

  function SkipComments(lines: seq<string>): seq<string> {
    if lines != [] && StartsWith(lines[0], "#") && !HasForbidden(lines[0]) then SkipComments(lines[1..]) else lines
  }

  /** Leading comment lines and a document start marker are skipped; the final line break ends the
      last line. */
  function ReadDocument(text: string): Option<Value> {
    var lines := SplitLines(text);
    if lines[|lines| - 1] != "" then None
    else
      var body := SkipComments(lines[..|lines| - 1]);
      if body != [] && body[0] == "---" then ReadBlock(body[1..]) else ReadBlock(body)
  }
}
