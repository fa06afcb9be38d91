/** Text operations as the standard library does them: replacement runs left to right, without
    overlap. */
module Text {
  import opened Lists

  function LowerChar(c: char): char {
    if 'A' <= c <= 'Z' then (c as int + 32) as char else c
  }

  function Lower(s: string): (r: string)
    ensures |r| == |s| && forall i :: 0 <= i < |s| ==> r[i] == LowerChar(s[i])
  {
    seq(|s|, i requires 0 <= i < |s| => LowerChar(s[i]))
  }

  /** Replace every occurrence of one character. */
  function ReplaceChar(s: string, c: char, replacement: string): string {
    if s == "" then "" else (if s[0] == c then replacement else [s[0]]) + ReplaceChar(s[1..], c, replacement)
  }

  /** Replace every occurrence of a pair of different characters. */
  function ReplacePair(s: string, a: char, b: char, replacement: string): string
    requires a != b
  {
    if |s| < 2 then s
    else if s[0] == a && s[1] == b then replacement + ReplacePair(s[2..], a, b, replacement)
    else [s[0]] + ReplacePair(s[1..], a, b, replacement)
  }

  lemma {:induction false} ReplaceCharConcat(s: string, t: string, c: char, replacement: string)
    ensures ReplaceChar(s + t, c, replacement) == ReplaceChar(s, c, replacement) + ReplaceChar(t, c, replacement)
  {
    if s == "" {
      assert s + t == t;
    } else {
      assert (s + t)[0] == s[0] && (s + t)[1..] == s[1..] + t;
      ReplaceCharConcat(s[1..], t, c, replacement);
    }
  }

  lemma ReplaceCharOne(x: char, c: char, replacement: string)
    ensures ReplaceChar([x], c, replacement) == if x == c then replacement else [x]
  {
    assert [x][1..] == "";
  }

  lemma {:induction false} ReplaceCharAbsent(s: string, c: char, replacement: string)
    requires c !in s
    ensures ReplaceChar(s, c, replacement) == s
  {
    if s != "" {
      ReplaceCharAbsent(s[1..], c, replacement);
      assert s == [s[0]] + s[1..];
    }
  }

  /** A prefix without the pair's first character is untouched. */
  lemma {:induction false} ReplacePairSkip(s: string, t: string, a: char, b: char, replacement: string)
    requires a != b && a !in s
    ensures ReplacePair(s + t, a, b, replacement) == s + ReplacePair(t, a, b, replacement)
  {
    var u := s + t;
    if s == "" {
      assert u == t;
    } else if |u| < 2 {
      assert t == "" && u == s;
    } else {
      assert u[0] == s[0] && u[1..] == s[1..] + t;
      ReplacePairSkip(s[1..], t, a, b, replacement);
      assert s == [s[0]] + s[1..];
    }
  }

  lemma ReplacePairHit(t: string, a: char, b: char, replacement: string)
    requires a != b
    ensures ReplacePair([a, b] + t, a, b, replacement) == replacement + ReplacePair(t, a, b, replacement)
  {
    assert ([a, b] + t)[2..] == t;
  }

  lemma ReplacePairMiss(t: string, a: char, b: char, replacement: string)
    requires a != b && (t == "" || t[0] != b)
    ensures ReplacePair([a] + t, a, b, replacement) == [a] + ReplacePair(t, a, b, replacement)
  {
    assert ([a] + t)[1..] == t;
  }

  // ---------- Collapsing and trimming ----------

  /** Every maximal run of characters that are not kept becomes one separator. */
  function Collapse(s: string, keep: char -> bool, sep: char): string
    decreases |s|
  {
    if s == "" then ""
    else if keep(s[0]) then [s[0]] + Collapse(s[1..], keep, sep)
    else [sep] + Collapse(DropOthers(s, keep), keep, sep)
  }

  function DropOthers(s: string, keep: char -> bool): (r: string)
    ensures |r| <= |s| && (s != "" && !keep(s[0]) ==> |r| < |s|)
  {
    if s != "" && !keep(s[0]) then DropOthers(s[1..], keep) else s
  }

  function TrimLeft(s: string, c: char): string {
    if s != "" && s[0] == c then TrimLeft(s[1..], c) else s
  }

  function TrimRight(s: string, c: char): string {
    if s != "" && s[|s| - 1] == c then TrimRight(s[..|s| - 1], c) else s
  }

  function Trim(s: string, c: char): string {
    TrimRight(TrimLeft(s, c), c)
  }

  predicate AllKept(s: string, keep: char -> bool) {
    forall i | 0 <= i < |s| :: keep(s[i])
  }

  lemma CollapseOne(c: char, rest: string, keep: char -> bool, sep: char)
    requires keep(c)
    ensures Collapse([c] + rest, keep, sep) == [c] + Collapse(rest, keep, sep)
  {
    assert ([c] + rest)[1..] == rest;
  }

  lemma {:induction false} CollapseWord(word: string, rest: string, keep: char -> bool, sep: char)
    requires AllKept(word, keep)
    ensures Collapse(word + rest, keep, sep) == word + Collapse(rest, keep, sep)
  {
    if word == "" {
      assert word + rest == rest;
    } else {
      var c, more := word[0], word[1..];
      CollapseWord(more, rest, keep, sep);
      CollapseOne(c, more + rest, keep, sep);
      assert word == [c] + more;
      Associate([c], more, rest);
      Associate([c], more, Collapse(rest, keep, sep));
    }
  }

  lemma {:induction false} CollapseKeeps(s: string, keep: char -> bool, sep: char)
    ensures forall c <- Collapse(s, keep, sep) :: keep(c) || c == sep
    decreases |s|
  {
    if s != "" {
      CollapseKeeps(if keep(s[0]) then s[1..] else DropOthers(s, keep), keep, sep);
    }
  }

  lemma {:induction false} TrimEnds(s: string, c: char)
    ensures forall x <- Trim(s, c) :: x in s
    ensures Trim(s, c) != "" ==> Trim(s, c)[0] != c && Trim(s, c)[|Trim(s, c)| - 1] != c
  {
    TrimLeftEnd(s, c);
    TrimRightEnd(TrimLeft(s, c), c);
  }

  lemma {:induction false} TrimLeftEnd(s: string, c: char)
    ensures forall x <- TrimLeft(s, c) :: x in s
    ensures TrimLeft(s, c) != "" ==> TrimLeft(s, c)[0] != c
  {
    if s != "" && s[0] == c {
      TrimLeftEnd(s[1..], c);
    }
  }

  lemma {:induction false} TrimRightEnd(s: string, c: char)
    ensures TrimRight(s, c) <= s
    ensures TrimRight(s, c) != "" ==> TrimRight(s, c)[|TrimRight(s, c)| - 1] != c
  {
    if s != "" && s[|s| - 1] == c {
      TrimRightEnd(s[..|s| - 1], c);
    }
  }

  predicate NoneKept(s: string, keep: char -> bool) {
    forall i | 0 <= i < |s| :: !keep(s[i])
  }

  lemma {:induction false} DropGap(gap: string, rest: string, keep: char -> bool)
    requires NoneKept(gap, keep) && (rest == "" || keep(rest[0]))
    ensures DropOthers(gap + rest, keep) == rest
  {
    if gap == "" {
      assert gap + rest == rest;
    } else {
      assert (gap + rest)[1..] == gap[1..] + rest;
      DropGap(gap[1..], rest, keep);
    }
  }

  /** A gap becomes one separator, however long. */
  lemma CollapseGap(gap: string, rest: string, keep: char -> bool, sep: char)
    requires gap != "" && NoneKept(gap, keep) && (rest == "" || keep(rest[0]))
    ensures Collapse(gap + rest, keep, sep) == [sep] + Collapse(rest, keep, sep)
  {
    DropGap(gap, rest, keep);
    assert !keep((gap + rest)[0]);
  }

  predicate AllOf(s: string, c: char) {
    forall i | 0 <= i < |s| :: s[i] == c
  }

  lemma {:induction false} TrimLeftOf(before: string, middle: string, c: char)
    requires AllOf(before, c) && (middle == "" || middle[0] != c)
    ensures TrimLeft(before + middle, c) == middle
  {
    if before == "" {
      assert before + middle == middle;
    } else {
      assert (before + middle)[1..] == before[1..] + middle;
      TrimLeftOf(before[1..], middle, c);
    }
  }

  lemma {:induction false} TrimRightOf(middle: string, after: string, c: char)
    requires AllOf(after, c) && (middle == "" || middle[|middle| - 1] != c)
    ensures TrimRight(middle + after, c) == middle
  {
    if after == "" {
      assert middle + after == middle;
    } else {
      var n := |middle + after| - 1;
      assert (middle + after)[..n] == middle + after[..|after| - 1];
      TrimRightOf(middle, after[..|after| - 1], c);
    }
  }

  /** Trimming takes away exactly what surrounds a text with other ends. */
  lemma TrimIs(before: string, middle: string, after: string, c: char)
    requires AllOf(before, c) && AllOf(after, c)
    requires middle != "" && middle[0] != c && middle[|middle| - 1] != c
    ensures Trim(before + (middle + after), c) == middle
  {
    TrimLeftOf(before, middle + after, c);
    TrimRightOf(middle, after, c);
  }

  lemma {:induction false} TrimNothing(s: string, c: char)
    requires AllOf(s, c)
    ensures Trim(s, c) == ""
  {
    TrimLeftOf(s, "", c);
    assert s + "" == s;
  }
}
