/** Reading a whole printed document back: comment header, document start, block, final break. */
module YamlDocument {
  import opened Decimal
  import opened Lists
  import opened Text
  import opened Wrappers
  import opened YamlWriter
  import opened YamlReader
  import opened YamlScalars
  import opened YamlRoundTrip
  import opened YamlFidelity

  // ---------- Joining and splitting ----------

  /** Splitting at a line break that joins two texts splits them apart. */
  lemma {:induction false} SplitBoth(a: string, b: string)
    ensures SplitLines(a + "\n" + b) == SplitLines(a) + SplitLines(b)
    decreases |a|
  {
    var i := FirstBreak(a);
    if i == |a| {
      Associate(a, "\n", b);
      SplitOnce(a, b);
    } else {
      var head, tail := a[..i], a[i + 1..];
      assert a == head + ("\n" + tail);
      SplitBoth(tail, b);
      SplitOnce(head, tail);
      SplitOnce(head, tail + "\n" + b);
      Regroup(head, tail, b);
      Associate([head], SplitLines(tail), SplitLines(b));
    }
  }

  lemma Regroup(head: string, tail: string, b: string)
    ensures head + ("\n" + tail) + "\n" + b == head + ("\n" + (tail + "\n" + b))
  {
  }

  lemma BreakFirst(b: string)
    ensures SplitLines("\n" + b) == [""] + SplitLines(b)
  {
    assert FirstBreak("\n" + b) == 0 && ("\n" + b)[1..] == b;
  }

  lemma SplitOnce(head: string, tail: string)
    requires '\n' !in head
    ensures SplitLines(head + ("\n" + tail)) == [head] + SplitLines(tail)
  {
    SplitAfter(head, "\n" + tail);
    BreakFirst(tail);
    assert head + "" == head;
  }

  lemma {:induction false} SplitJoined(lines: seq<string>)
    requires lines != []
    ensures SplitLines(Join(lines)) == Physical(lines)
  {
    if |lines| == 1 {
      assert Physical(lines) == SplitLines(lines[0]) + Physical(lines[1..]) && Physical(lines[1..]) == [];
    } else {
      SplitJoined(lines[1..]);
      SplitBoth(lines[0], Join(lines[1..]));
    }
  }

  predicate EndsVisibly(line: string) {
    line != "" && line[|line| - 1] != '\n'
  }

  lemma {:induction false} JoinEnd(lines: seq<string>)
    requires lines != [] && EndsVisibly(lines[|lines| - 1])
    ensures EndsVisibly(Join(lines))
  {
    if |lines| > 1 {
      JoinEnd(lines[1..]);
    }
  }

  lemma JoinedReadsBack(lines: seq<string>)
    requires lines != [] && EndsVisibly(lines[|lines| - 1])
    ensures SplitLines(RStripBreaks(Join(lines)) + "\n") == Physical(lines) + [""]
  {
    JoinEnd(lines);
    SplitJoined(lines);
    SplitBoth(Join(lines), "");
    assert Join(lines) + "\n" + "" == Join(lines) + "\n";
  }

  // ---------- The last line ----------

  lemma StringEnd(s: string)
    ensures EndsVisibly(StringScalar(s))
  {
    if IsBare(s) {
      BareIsPrintedBare(s);
      BareOneLine(s);
      LastInside(s);
    } else if IsRaw(s) {
      RawPrinted(s);
    } else if s != "" {
      EscapedPrinted(s);
    }
  }

  lemma ScalarEnd(v: Value)
    requires !v.IsNonEmptyContainer() && IsData(v)
    ensures EndsVisibly(Scalar(v))
  {
    if v.Other? {
      FloatOneLine(v.text);
      FloatStart(v.text);
      LastInside(v.text);
    } else if v.Str? {
      StringEnd(v.content);
    } else if v.List? || v.Dict? {
      StringEnd(if v.List? then "[]" else "{}");
    } else {
      ScalarReadsAs(v);
      ReadTextOneLine(Scalar(v), v);
      LastInside(Scalar(v));
    }
  }

  lemma EndAfter(head: string, tail: string)
    requires EndsVisibly(tail)
    ensures EndsVisibly(head + tail)
  {
  }

  lemma {:induction false} EntriesEndVisibly(entries: seq<Entry>, indent: nat)
    requires entries != [] && EntriesAreData(entries)
    ensures EndsVisibly(RenderEntries(entries, indent)[|RenderEntries(entries, indent)| - 1])
    decreases entries, 0
  {
    var e := entries[0];
    if |entries| > 1 {
      EntriesEndVisibly(entries[1..], indent);
    } else {
      assert RenderEntries(entries, indent) == RenderEntry(e, indent);
      if e.value.IsNonEmptyContainer() {
        RenderEnd(e.value, indent + 1);
      } else if IsScalar(e.value) {
        ScalarEnd(e.value);
        EndAfter(Spaces(2 * indent) + Key(e.key) + ":" + " ", Scalar(e.value));
      }
    }
  }

  lemma {:induction false} ItemsEndVisibly(items: seq<Value>, indent: nat)
    requires items != [] && ItemsAreData(items)
    ensures EndsVisibly(RenderItems(items, indent)[|RenderItems(items, indent)| - 1])
    decreases items, 0
  {
    var v := items[0];
    if |items| > 1 {
      ItemsEndVisibly(items[1..], indent);
    } else {
      assert RenderItems(items, indent) == RenderItem(v, indent);
      if v.IsNonEmptyContainer() {
        RenderEnd(v, indent + 1);
        if v.Dict? {
          HoistedEnd(v, indent);
        }
      } else {
        ScalarEnd(v);
        EndAfter(Spaces(2 * indent) + "- ", Scalar(v));
      }
    }
  }

  lemma HoistedEnd(v: Value, indent: nat)
    requires v.Dict? && v.entries != []
    requires EndsVisibly(Render(v, indent + 1)[|Render(v, indent + 1)| - 1])
    ensures EndsVisibly(RenderItem(v, indent)[|RenderItem(v, indent)| - 1])
  {
    var text := HoistedRendered(v, indent);
    if |Render(v, indent + 1)| == 1 {
      assert (Spaces(2 * indent + 2) + text)[2 * indent + 1 + |text|] == text[|text| - 1];
      EndAfter(Spaces(2 * indent) + "- ", text);
    }
  }

  lemma {:induction false} RenderEnd(v: Value, indent: nat)
    requires IsData(v)
    ensures EndsVisibly(Render(v, indent)[|Render(v, indent)| - 1])
    decreases v, 1
  {
    if v.Dict? && v.entries != [] {
      EntriesEndVisibly(v.entries, indent);
    } else if v.List? && v.items != [] {
      ItemsEndVisibly(v.items, indent);
    } else if IsScalar(v) {
      ScalarEnd(v);
      EndAfter(Spaces(2 * indent), Scalar(v));
    }
  }

  // ---------- The document ----------

  lemma {:induction false} SkipHeader(header: seq<string>, body: seq<string>)
    requires forall line <- header :: StartsWith(line, "#") && !HasForbidden(line)
    requires body != [] && !StartsWith(body[0], "#")
    ensures SkipComments(header + body) == body
  {
    if header == [] {
      assert header + body == body;
    } else {
      SkipHeader(header[1..], body);
      assert (header + body)[1..] == header[1..] + body;
    }
  }

  /** The first line of a block is neither a comment nor a document marker. */
  predicate OpensBlock(line: string) {
    line != "" && line[0] != '#' && line != "---"
  }

  lemma NoDashes(s: string)
    ensures !StartsWith(StringScalar(s), "--")
  {
    BareIsPrintedBare(s);
    if IsBare(s) && !IsPlainSafe(s) {
      assert '-' in LEADING_INDICATORS;
    }
  }

  lemma ScalarOpens(v: Value)
    requires IsScalar(v) && IsData(v)
    ensures OpensBlock(SplitLines(Scalar(v))[0])
  {
    var text := Scalar(v);
    ScalarStart(v);
    SplitStart(text);
    if v.Str? {
      NoDashes(v.content);
      assert SplitLines(text)[0] == text[..FirstBreak(text)];
    } else if v.Other? {
      FloatOneLine(v.text);
      OneLineStays(v.text);
      FloatNoDashes(v.text);
    } else {
      ScalarReadsAs(v);
      ReadTextOneLine(text, v);
      OneLineStays(text);
    }
  }

  lemma FloatNoDashes(t: string)
    requires IsFloatText(t)
    ensures t != "---"
  {
  }

  lemma DashOpens(after: string)
    requires IsEntryTail(after)
    ensures OpensBlock(Spaces(0) + ("-" + after))
  {
    assert Spaces(0) + ("-" + after) == "-" + after;
    assert after != "" ==> ("-" + after)[1] == ' ';
  }

  lemma NoComment(line: string)
    requires line != "" && line[0] != '#'
    ensures !StartsWith(line, "#")
  {
  }

  lemma BlockOpens(v: Value)
    requires IsData(v)
    ensures Physical(Render(v, 0)) != [] && OpensBlock(Physical(Render(v, 0))[0])
  {
    if v.Dict? && v.entries != [] {
      var e := v.entries[0];
      PhysicalConcat(RenderEntry(e, 0), RenderEntries(v.entries[1..], 0));
      PhysicalEntry(e, 0);
      KeyStart(e.key);
      SplitStart(Key(e.key) + ":" + EntryAfter(e.value));
    } else if v.List? && v.items != [] {
      PhysicalConcat(RenderItem(v.items[0], 0), RenderItems(v.items[1..], 0));
      PhysicalItem(v.items[0], 0);
      TailStays(ItemAfter(v.items[0], 0));
      DashOpens(SplitLines(ItemAfter(v.items[0], 0))[0]);
    } else if IsScalar(v) {
      ScalarOpens(v);
      PhysicalHead(Spaces(0), Scalar(v), []);
      assert Render(v, 0) == [Spaces(0) + Scalar(v)] + [];
    } else {
      var text := if v.Dict? then "{}" else "[]";
      OneLineStays(text);
      PhysicalCons(text, []);
      assert Spaces(0) + text == text;
      assert Render(v, 0) == [text] + [];
    }
  }

  /** The header lines the writer is given: comment text on one line. */
  predicate IsHeader(header: seq<string>) {
    forall line <- header :: !HasForbidden(line)
  }

  lemma CommentsAreLines(header: seq<string>)
    requires IsHeader(header)
    ensures forall line <- CommentLines(header) :: StartsWith(line, "#") && !HasForbidden(line)
    ensures OneLineEach(CommentLines(header))
  {
    forall i | 0 <= i < |header| ensures var line := HeaderLine(header[i]); StartsWith(line, "#") && !HasForbidden(line) {
      assert header[i] in header;
    }
    forall line | line in CommentLines(header) ensures OneLine(line) {
      BreakIsForbidden(line);
    }
  }

  /** The text `dump_yaml` returns. */
  function DocumentText(data: Value, header: seq<string>, documentStart: bool): string {
    RStripBreaks(Join(DocumentLines(data, header, documentStart))) + "\n"
  }

  lemma DocumentInFile(data: Value, header: seq<string>, start: seq<string>)
    requires IsData(data) && IsHeader(header) && (start == [] || start == ["---"])
    ensures var lines := CommentLines(header) + start + Render(data, 0);
            SplitLines(RStripBreaks(Join(lines)) + "\n")
            == CommentLines(header) + (start + Physical(Render(data, 0))) + [""]
  {
    var comments, block := CommentLines(header), Render(data, 0);
    CommentsAreLines(header);
    RenderEnd(data, 0);
    JoinedReadsBack(comments + start + block);
    PhysicalConcat(comments + start, block);
    PhysicalConcat(comments, start);
    PhysicalStays(comments);
    PhysicalStays(start);
    Associate(comments, start, Physical(block));
  }

  /** Reading the whole text comes down to reading the block. */
  lemma DocumentIsBlock(data: Value, header: seq<string>, documentStart: bool)
    requires IsData(data) && IsHeader(header)
    ensures ReadDocument(DocumentText(data, header, documentStart)) == ReadBlock(Physical(Render(data, 0)))
  {
    var comments, start, block := CommentLines(header), if documentStart then ["---"] else [], Physical(Render(data, 0));
    DocumentInFile(data, header, start);
    CommentsAreLines(header);
    BlockOpens(data);
    assert (start + block)[0] == if documentStart then "---" else block[0];
    NoComment((start + block)[0]);
    SkipHeader(comments, start + block);
    assert (comments + (start + block) + [""])[..|comments + (start + block)|] == comments + (start + block);
    if documentStart {
      assert (start + block)[1..] == block;
    } else {
      assert start + block == block;
    }
  }

  /** With any header, the text of a printable value reads back as the value, up to the stated
      treatment of empty containers in lists and of numbers that were text. */
  lemma DocumentReadsBack(data: Value, header: seq<string>, documentStart: bool)
    requires IsPrintable(data) && IsData(data) && !IsMarkerText(data) && IsHeader(header)
    ensures ReadDocument(DocumentText(data, header, documentStart)) == Some(Back(data))
  {
    DocumentIsBlock(data, header, documentStart);
    BlockReadsBack(data);
  }

  /** The exact condition, for the whole text. */
  lemma DocumentRoundTripIff(data: Value, header: seq<string>, documentStart: bool)
    requires IsData(data) && IsHeader(header)
    ensures ReadDocument(DocumentText(data, header, documentStart)) == Some(data)
            <==> IsPrintable(data) && IsFaithful(data) && !IsMarkerText(data)
  {
    DocumentIsBlock(data, header, documentStart);
    RoundTripIff(data);
  }
}
