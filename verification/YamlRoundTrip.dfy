/**
 Reading printed YAML back: for every nesting depth, the lines of a printable value read as that
 value, except that an empty container directly inside a list comes back as text and a bare number
 of both versions as a number.
 */
module YamlRoundTrip {
  import opened Decimal
  import opened Lists
  import opened Text
  import opened Wrappers
  import opened YamlWriter
  import opened YamlReader
  import opened YamlScalars

  // ---------- What comes back ----------

  /** Every scalar and key of the tree is printed on one line that is read: a key as the text it is,
      a scalar as itself or, for the bare text of a number, as that number. */
  predicate IsPrintable(v: Value)
    decreases v, 1
  {
    match v
    case List(items) => AllPrintable(items)
    case Dict(entries) => EntriesPrintable(entries)
    case _ => IsPrintableScalar(v)
  }

  predicate AllPrintable(items: seq<Value>)
    decreases items, 0
  {
    items == [] || (IsPrintable(items[0]) && AllPrintable(items[1..]))
  }

  predicate EntriesPrintable(entries: seq<Entry>)
    decreases entries, 0
  {
    entries == []
    || (IsReadableKey(entries[0].key) && IsPrintable(entries[0].value) && EntriesPrintable(entries[1..]))
  }

  /** The tree a reader gets back. */
  function Back(v: Value): Value
    requires IsPrintable(v)
    decreases v, 1
  {
    match v
    case List(items) => List(ItemsBack(items))
    case Dict(entries) => Dict(EntriesBack(entries))
    case _ => ScalarBack(v)
  }

  function ItemsBack(items: seq<Value>): seq<Value>
    requires AllPrintable(items)
    decreases items, 0
  {
    if items == [] then [] else [ItemBack(items[0])] + ItemsBack(items[1..])
  }

  function ItemBack(v: Value): Value
    requires IsPrintable(v)
    decreases v, 2
  {
    if v.IsNonEmptyContainer() then Back(v) else ScalarBack(v)
  }

  function EntriesBack(entries: seq<Entry>): seq<Entry>
    requires EntriesPrintable(entries)
    decreases entries, 0
  {
    if entries == [] then [] else [Entry(entries[0].key, Back(entries[0].value))] + EntriesBack(entries[1..])
  }

  // ---------- Lines ----------

  lemma {:induction false} IndentOf(n: nat, text: string)
    requires text == "" || text[0] != ' '
    ensures Indent(Spaces(n) + text) == n && (Spaces(n) + text)[n..] == text
  {
    var line := Spaces(n) + text;
    if n > 0 {
      IndentOf(n - 1, text);
      assert line[1..] == Spaces(n - 1) + text;
      assert line[0] == ' ';
    } else {
      assert line == text;
    }
  }

  /** What follows a block node is indented less than its column. */
  predicate Ends(rest: seq<string>, col: nat) {
    rest == [] || Indent(rest[0]) < col
  }

  /** What follows one entry or item of a block is indented no more than its column. */
  predicate EndsAt(rest: seq<string>, col: nat) {
    rest == [] || Indent(rest[0]) <= col
  }

  /** The first line of a printed value, split at its column. */
  predicate StartsAt(lines: seq<string>, col: nat) {
    lines != [] && |lines[0]| > col && Indent(lines[0]) == col && !IsSpace(lines[0][col])
  }

  lemma LineStartsAt(col: nat, text: string)
    requires text != "" && !IsSpace(text[0])
    ensures Indent(Spaces(col) + text) == col && (Spaces(col) + text)[col..] == text
    ensures StartsAt([Spaces(col) + text], col)
  {
    IndentOf(col, text);
  }

  lemma EntryStartsAt(e: Entry, indent: nat)
    ensures StartsAt(RenderEntry(e, indent), 2 * indent)
  {
    KeyStart(e.key);
    var lines := RenderEntry(e, indent);
    var text := lines[0][2 * indent..];
    assert lines[0] == Spaces(2 * indent) + text && text[0] == Key(e.key)[0];
    LineStartsAt(2 * indent, text);
  }

  lemma ItemStartsAt(v: Value, indent: nat)
    ensures StartsAt(RenderItem(v, indent), 2 * indent)
  {
    var lines := RenderItem(v, indent);
    var text := lines[0][2 * indent..];
    assert lines[0] == Spaces(2 * indent) + text && text[0] == '-';
    LineStartsAt(2 * indent, text);
  }

  lemma FloatStart(t: string)
    requires IsFloatText(t)
    ensures t != "" && !IsSpace(t[0]) && t[0] != '#' && t[0] != '.'
  {
    if IsAnyDigit(t[0]) {
      NumberCharIsPlain(t[0]);
    }
  }

  /** The text of any scalar starts with something visible. */
  lemma ScalarStart(v: Value)
    requires !v.IsNonEmptyContainer() && IsData(v)
    ensures Scalar(v) != "" && !IsSpace(Scalar(v)[0]) && Scalar(v)[0] != '#'
  {
    match v
    case Str(content) => StringStart(content);
    case List(_) => StringStart("[]");
    case Dict(_) => StringStart("{}");
    case Other(text) => FloatStart(text);
    case _ => ScalarReadsAs(v);
  }

  lemma StringStart(s: string)
    ensures StringScalar(s) != "" && !IsSpace(StringScalar(s)[0]) && StringScalar(s)[0] != '#'
  {
    BareIsPrintedBare(s);
    if IsBare(s) {
      BareHead(s);
    }
  }

  lemma BareHead(s: string)
    requires IsBare(s)
    ensures !IsSpace(s[0]) && s[0] != '#'
  {
    if IsPlainSafe(s) {
      WordCharLeads(s[0]);
    } else {
      assert '#' in LEADING_INDICATORS;
    }
  }

  lemma ContainerStartsAt(v: Value, indent: nat)
    requires v.IsNonEmptyContainer()
    ensures StartsAt(Render(v, indent), 2 * indent)
  {
    if v.Dict? {
      EntryStartsAt(v.entries[0], indent);
    } else {
      ItemStartsAt(v.items[0], indent);
    }
  }

  lemma {:induction false} LStripPad(n: nat, text: string)
    requires text != "" && !IsSpace(text[0])
    ensures LStrip(Spaces(n) + text) == text
  {
    var line := Spaces(n) + text;
    if n > 0 {
      LStripPad(n - 1, text);
      assert line[0] == ' ' && line[1..] == Spaces(n - 1) + text;
    } else {
      assert line == text;
    }
  }

  // ---------- Nodes, entries and items ----------

  /** A one-line text at its column is a node of its own. */
  lemma InlineNodeReads(text: string, v: Value, col: nat, rest: seq<string>)
    requires ReadsAs(text, v)
    ensures ReadNode([Spaces(col) + text] + rest, col) == Some(Parsed(v, rest))
  {
    LineStartsAt(col, text);
    var lines := [Spaces(col) + text] + rest;
    assert lines[0][col..] == text && lines[1..] == rest;
  }

  lemma EmptyReadsAs(text: string, v: Value)
    requires (text == "{}" && v == Dict([])) || (text == "[]" && v == List([]))
    ensures ReadsAs(text, v)
  {
    assert FindSeparator(text, 2).None? && FindSeparator(text, 1).None?;
  }

  function PrependEntry(e: Entry, r: Option<Parsed<seq<Entry>>>): Option<Parsed<seq<Entry>>> {
    if r.None? then None else Some(Parsed([e] + r.value.result, r.value.rest))
  }

  function PrependItem(v: Value, r: Option<Parsed<seq<Value>>>): Option<Parsed<seq<Value>>> {
    if r.None? then None else Some(Parsed([v] + r.value.result, r.value.rest))
  }

  function Inline(text: string, rest: seq<string>): Option<Parsed<Value>> {
    var v := ReadInline(text);
    if v.None? then None else Some(Parsed(v.value, rest))
  }

  /** A value has been read for this key: go on with the lines after it. */
  function EntryThen(key: string, value: Option<Parsed<Value>>, col: nat): Option<Parsed<seq<Entry>>> {
    if value.None? then None else PrependEntry(Entry(key, value.value.result), ReadEntries(value.value.rest, col))
  }

  function ItemThen(value: Option<Parsed<Value>>, col: nat): Option<Parsed<seq<Value>>> {
    if value.None? then None else PrependItem(value.value.result, ReadItems(value.value.rest, col))
  }

  // One step of each reading loop.

  lemma EntryStep(line: string, split: Split, col: nat, more: seq<string>)
    requires Indent(line) == col && !IsDash(line[col..]) && SplitEntry(line[col..]) == Some(split) && split.after != ""
    ensures ReadEntries([line] + more, col) == EntryThen(split.key, Inline(split.after[1..], more), col)
  {
    assert ([line] + more)[1..] == more;
  }

  lemma NestedEntryStep(line: string, split: Split, below: seq<string>, col: nat)
    requires Indent(line) == col && !IsDash(line[col..]) && SplitEntry(line[col..]) == Some(split) && split.after == ""
    requires below != [] && Indent(below[0]) > col
    ensures ReadEntries([line] + below, col) == EntryThen(split.key, ReadNode(below, Indent(below[0])), col)
  {
    assert ([line] + below)[1..] == below;
  }

  lemma ItemStep(line: string, below: seq<string>, col: nat)
    requires Indent(line) == col && IsDash(line[col..]) && line[col..] != "-"
    ensures ReadItems([line] + below, col)
            == ItemThen(ReadNode([Spaces(col + 2) + line[col..][2..]] + below, col + 2), col)
  {
    assert ([line] + below)[1..] == below;
  }

  lemma NestedItemStep(line: string, below: seq<string>, col: nat)
    requires Indent(line) == col && line[col..] == "-" && below != [] && Indent(below[0]) > col
    ensures ReadItems([line] + below, col) == ItemThen(ReadNode(below, Indent(below[0])), col)
  {
    assert ([line] + below)[1..] == below;
  }

  // The lines the writer prints.

  lemma EntryLine(key: string, after: string, col: nat)
    requires IsEntryTail(after)
    ensures var line := Spaces(col) + (Key(key) + ":" + after);
            && Indent(line) == col && !IsDash(line[col..]) && line[col..] == Key(key) + ":" + after
            && SplitEntry(line[col..]) == if IsReadableKey(key) then Some(Split(key, after)) else None
  {
    KeyReadsBackIff(key, after);
    KeyStart(key);
    LineStartsAt(col, Key(key) + ":" + after);
  }

  lemma Regrouped(pad: string, key: string, after: string)
    ensures pad + key + ":" + after == pad + (key + ":" + after)
    ensures pad + key + ":" == pad + (key + ":" + "")
  {
  }

  lemma InlineEntryReads(key: string, text: string, col: nat, more: seq<string>)
    requires IsReadableKey(key)
    ensures ReadEntries([Spaces(col) + Key(key) + ":" + (" " + text)] + more, col)
            == EntryThen(key, Inline(text, more), col)
  {
    EntryLine(key, " " + text, col);
    Regrouped(Spaces(col), Key(key), " " + text);
    assert (" " + text)[1..] == text;
    EntryStep(Spaces(col) + (Key(key) + ":" + (" " + text)), Split(key, " " + text), col, more);
  }

  lemma NestedEntryReads(key: string, below: seq<string>, col: nat)
    requires IsReadableKey(key) && below != [] && Indent(below[0]) == col + 2
    ensures ReadEntries([Spaces(col) + Key(key) + ":"] + below, col) == EntryThen(key, ReadNode(below, col + 2), col)
  {
    EntryLine(key, "", col);
    Regrouped(Spaces(col), Key(key), "");
    NestedEntryStep(Spaces(col) + (Key(key) + ":" + ""), Split(key, ""), below, col);
  }

  lemma SameLine(key: string, text: string)
    ensures key + (" " + text) == key + " " + text
  {
  }

  lemma InlineEntryPrinted(e: Entry, indent: nat, text: string, more: seq<string>)
    requires IsReadableKey(e.key) && IsPrintable(e.value) && ReadInline(text) == Some(Back(e.value))
    requires RenderEntry(e, indent) == [Spaces(2 * indent) + Key(e.key) + ":" + " " + text]
    ensures ReadEntries(RenderEntry(e, indent) + more, 2 * indent)
            == PrependEntry(Entry(e.key, Back(e.value)), ReadEntries(more, 2 * indent))
  {
    SameLine(Spaces(2 * indent) + Key(e.key) + ":", text);
    InlineEntryReads(e.key, text, 2 * indent, more);
  }

  lemma NestedEntryPrinted(e: Entry, indent: nat, more: seq<string>)
    requires IsReadableKey(e.key) && IsPrintable(e.value) && e.value.IsNonEmptyContainer()
    requires ReadNode(Render(e.value, indent + 1) + more, 2 * (indent + 1)) == Some(Parsed(Back(e.value), more))
    ensures ReadEntries(RenderEntry(e, indent) + more, 2 * indent)
            == PrependEntry(Entry(e.key, Back(e.value)), ReadEntries(more, 2 * indent))
  {
    var nested := Render(e.value, indent + 1);
    ContainerStartsAt(e.value, indent + 1);
    NestedEntryReads(e.key, nested + more, 2 * indent);
    Associate([Spaces(2 * indent) + Key(e.key) + ":"], nested, more);
  }

  lemma EntryReads(e: Entry, indent: nat, more: seq<string>)
    requires IsReadableKey(e.key) && IsPrintable(e.value)
    requires e.value.IsNonEmptyContainer() ==>
               ReadNode(Render(e.value, indent + 1) + more, 2 * (indent + 1)) == Some(Parsed(Back(e.value), more))
    ensures ReadEntries(RenderEntry(e, indent) + more, 2 * indent)
            == PrependEntry(Entry(e.key, Back(e.value)), ReadEntries(more, 2 * indent))
  {
    if e.value.IsNonEmptyContainer() {
      NestedEntryPrinted(e, indent, more);
    } else if e.value.Dict? {
      EmptyReadsAs("{}", Dict([]));
      assert " {}" == " " + "{}";
      SameLine(Spaces(2 * indent) + Key(e.key) + ":", "{}");
      InlineEntryPrinted(e, indent, "{}", more);
    } else if e.value.List? {
      EmptyReadsAs("[]", List([]));
      assert " []" == " " + "[]";
      SameLine(Spaces(2 * indent) + Key(e.key) + ":", "[]");
      InlineEntryPrinted(e, indent, "[]", more);
    } else {
      ScalarReadsAs(e.value);
      InlineEntryPrinted(e, indent, Scalar(e.value), more);
    }
  }

  /** What stands after `- ` is read two columns to the right, together with the lines below. */
  lemma DashItemReads(text: string, below: seq<string>, col: nat)
    ensures ReadItems([Spaces(col) + "- " + text] + below, col)
            == ItemThen(ReadNode([Spaces(col + 2) + text] + below, col + 2), col)
  {
    var line := Spaces(col) + ("- " + text);
    LineStartsAt(col, "- " + text);
    Associate(Spaces(col), "- ", text);
    assert ("- " + text)[2..] == text;
    ItemStep(line, below, col);
  }

  lemma NestedListReads(below: seq<string>, col: nat)
    requires below != [] && Indent(below[0]) == col + 2
    ensures ReadItems([Spaces(col) + "-"] + below, col) == ItemThen(ReadNode(below, col + 2), col)
  {
    LineStartsAt(col, "-");
    NestedItemStep(Spaces(col) + "-", below, col);
  }

  lemma ScalarItemReads(v: Value, indent: nat, more: seq<string>)
    requires !v.IsNonEmptyContainer() && IsPrintableScalar(v)
    ensures ReadItems(RenderItem(v, indent) + more, 2 * indent) == PrependItem(ScalarBack(v), ReadItems(more, 2 * indent))
  {
    ScalarReadsAs(v);
    InlineNodeReads(Scalar(v), ScalarBack(v), 2 * indent + 2, more);
    DashItemReads(Scalar(v), more, 2 * indent);
  }

  lemma NestedItemReads(v: Value, indent: nat, more: seq<string>)
    requires IsPrintable(v) && v.List? && v.items != []
    requires ReadNode(Render(v, indent + 1) + more, 2 * (indent + 1)) == Some(Parsed(Back(v), more))
    ensures ReadItems(RenderItem(v, indent) + more, 2 * indent) == PrependItem(Back(v), ReadItems(more, 2 * indent))
  {
    var col, nested := 2 * indent, Render(v, indent + 1);
    ContainerStartsAt(v, indent + 1);
    NestedListReads(nested + more, col);
    Associate([Spaces(col) + "-"], nested, more);
  }

  /** The first key of a mapping stands on the dash line, the rest below it. */
  lemma HoistedItemReads(v: Value, indent: nat, more: seq<string>)
    requires IsPrintable(v) && v.Dict? && v.entries != []
    requires ReadNode(Render(v, indent + 1) + more, 2 * (indent + 1)) == Some(Parsed(Back(v), more))
    ensures ReadItems(RenderItem(v, indent) + more, 2 * indent) == PrependItem(Back(v), ReadItems(more, 2 * indent))
  {
    var col, tail := 2 * indent, Render(v, indent + 1)[1..];
    var text := HoistedRendered(v, indent);
    Associate([Spaces(col + 2) + text], tail, more);
    Associate([Spaces(col) + "- " + text], tail, more);
    DashItemReads(text, tail + more, col);
  }

  /** The lines of a hoisted mapping are its own lines with the dash over the first indentation. */
  lemma HoistedRendered(v: Value, indent: nat) returns (text: string)
    requires v.Dict? && v.entries != []
    ensures RenderItem(v, indent) == [Spaces(2 * indent) + "- " + text] + Render(v, indent + 1)[1..]
    ensures Render(v, indent + 1) == [Spaces(2 * indent + 2) + text] + Render(v, indent + 1)[1..]
    ensures text != "" && !IsSpace(text[0])
  {
    var col, nested := 2 * indent, Render(v, indent + 1);
    ContainerStartsAt(v, indent + 1);
    text := nested[0][col + 2..];
    IndentIsPad(nested[0], col + 2);
    LStripPad(col + 2, text);
  }

  lemma IndentIsPad(line: string, col: nat)
    requires Indent(line) == col
    ensures line == Spaces(col) + line[col..]
  {
  }

  lemma ItemReads(v: Value, indent: nat, more: seq<string>)
    requires IsPrintable(v)
    requires v.IsNonEmptyContainer() ==>
               ReadNode(Render(v, indent + 1) + more, 2 * (indent + 1)) == Some(Parsed(Back(v), more))
    ensures ReadItems(RenderItem(v, indent) + more, 2 * indent) == PrependItem(ItemBack(v), ReadItems(more, 2 * indent))
  {
    if v.Dict? && v.entries != [] {
      HoistedItemReads(v, indent, more);
    } else if v.List? && v.items != [] {
      NestedItemReads(v, indent, more);
    } else {
      ScalarItemReads(v, indent, more);
    }
  }

  // ---------- The round trip ----------

  lemma EntriesStart(entries: seq<Entry>, indent: nat, rest: seq<string>)
    requires EntriesPrintable(entries) && Ends(rest, 2 * indent)
    ensures EndsAt(RenderEntries(entries, indent) + rest, 2 * indent)
  {
    if entries != [] {
      EntryStartsAt(entries[0], indent);
    }
  }

  lemma ItemsStart(items: seq<Value>, indent: nat, rest: seq<string>)
    requires Ends(rest, 2 * indent)
    ensures EndsAt(RenderItems(items, indent) + rest, 2 * indent)
  {
    if items != [] {
      ItemStartsAt(items[0], indent);
    }
  }

  lemma {:induction false} EntriesRead(entries: seq<Entry>, indent: nat, rest: seq<string>)
    requires EntriesPrintable(entries) && Ends(rest, 2 * indent)
    ensures ReadEntries(RenderEntries(entries, indent) + rest, 2 * indent) == Some(Parsed(EntriesBack(entries), rest))
    decreases entries, 0
  {
    if entries == [] {
      assert RenderEntries(entries, indent) + rest == rest;
    } else {
      var e := entries[0];
      var more := RenderEntries(entries[1..], indent) + rest;
      EntriesRead(entries[1..], indent, rest);
      EntriesStart(entries[1..], indent, rest);
      if e.value.IsNonEmptyContainer() {
        NodeReads(e.value, indent + 1, more);
      }
      EntryReads(e, indent, more);
      EntriesJoin(entries, indent, rest);
    }
  }

  lemma ItemsJoin(items: seq<Value>, indent: nat, rest: seq<string>)
    requires items != [] && AllPrintable(items)
    requires var more := RenderItems(items[1..], indent) + rest;
             && ReadItems(more, 2 * indent) == Some(Parsed(ItemsBack(items[1..]), rest))
             && ReadItems(RenderItem(items[0], indent) + more, 2 * indent)
                == PrependItem(ItemBack(items[0]), ReadItems(more, 2 * indent))
    ensures ReadItems(RenderItems(items, indent) + rest, 2 * indent) == Some(Parsed(ItemsBack(items), rest))
  {
    Associate(RenderItem(items[0], indent), RenderItems(items[1..], indent), rest);
  }

  lemma EntriesJoin(entries: seq<Entry>, indent: nat, rest: seq<string>)
    requires entries != [] && EntriesPrintable(entries)
    requires var more := RenderEntries(entries[1..], indent) + rest;
             && ReadEntries(more, 2 * indent) == Some(Parsed(EntriesBack(entries[1..]), rest))
             && ReadEntries(RenderEntry(entries[0], indent) + more, 2 * indent)
                == PrependEntry(Entry(entries[0].key, Back(entries[0].value)), ReadEntries(more, 2 * indent))
    ensures ReadEntries(RenderEntries(entries, indent) + rest, 2 * indent) == Some(Parsed(EntriesBack(entries), rest))
  {
    Associate(RenderEntry(entries[0], indent), RenderEntries(entries[1..], indent), rest);
  }

  lemma {:induction false} ItemsRead(items: seq<Value>, indent: nat, rest: seq<string>)
    requires AllPrintable(items) && Ends(rest, 2 * indent)
    ensures ReadItems(RenderItems(items, indent) + rest, 2 * indent) == Some(Parsed(ItemsBack(items), rest))
    decreases items, 0
  {
    if items == [] {
      assert RenderItems(items, indent) + rest == rest;
    } else {
      var v := items[0];
      var more := RenderItems(items[1..], indent) + rest;
      ItemsRead(items[1..], indent, rest);
      ItemsStart(items[1..], indent, rest);
      if v.IsNonEmptyContainer() {
        NodeReads(v, indent + 1, more);
      }
      ItemReads(v, indent, more);
      ItemsJoin(items, indent, rest);
    }
  }

  /** At every depth and with anything less indented after it, a printed value reads back. */
  lemma {:induction false} NodeReads(v: Value, indent: nat, rest: seq<string>)
    requires IsPrintable(v) && Ends(rest, 2 * indent)
    ensures ReadNode(Render(v, indent) + rest, 2 * indent) == Some(Parsed(Back(v), rest))
    decreases v, 1
  {
    var col := 2 * indent;
    if v.Dict? && v.entries != [] {
      EntriesRead(v.entries, indent, rest);
      MappingNode(v.entries, indent, rest);
    } else if v.List? && v.items != [] {
      ItemsRead(v.items, indent, rest);
      SequenceNode(v.items, indent, rest);
    } else if v.Dict? {
      EmptyReadsAs("{}", Dict([]));
      InlineNodeReads("{}", Dict([]), col, rest);
    } else if v.List? {
      EmptyReadsAs("[]", List([]));
      InlineNodeReads("[]", List([]), col, rest);
    } else {
      ScalarReadsAs(v);
      InlineNodeReads(Scalar(v), ScalarBack(v), col, rest);
    }
  }

  lemma MappingNode(entries: seq<Entry>, indent: nat, rest: seq<string>)
    requires entries != [] && EntriesPrintable(entries)
    requires ReadEntries(RenderEntries(entries, indent) + rest, 2 * indent) == Some(Parsed(EntriesBack(entries), rest))
    ensures ReadNode(RenderEntries(entries, indent) + rest, 2 * indent) == Some(Parsed(Dict(EntriesBack(entries)), rest))
  {
    var col, key := 2 * indent, Spaces(2 * indent) + Key(entries[0].key) + ":";
    var lines := RenderEntries(entries, indent) + rest;
    assert lines[0] == RenderEntry(entries[0], indent)[0];
    var after := lines[0][|key|..];
    assert IsEntryTail(after) && lines[0] == key + after;
    EntryLine(entries[0].key, after, col);
  }

  lemma SequenceNode(items: seq<Value>, indent: nat, rest: seq<string>)
    requires items != [] && AllPrintable(items)
    requires ReadItems(RenderItems(items, indent) + rest, 2 * indent) == Some(Parsed(ItemsBack(items), rest))
    ensures ReadNode(RenderItems(items, indent) + rest, 2 * indent) == Some(Parsed(List(ItemsBack(items)), rest))
  {
    var lines := RenderItems(items, indent) + rest;
    assert lines[0] == RenderItem(items[0], indent)[0];
    ItemStartsAt(items[0], indent);
    assert IsDash(lines[0][2 * indent..]);
  }
}
