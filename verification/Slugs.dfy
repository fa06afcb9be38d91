/**
 The slug of a text, and why the slugs of IPv4 blocks never collide: each of the four octets and
 the prefix can be read back from it.
 */
module Slugs {
  import opened Wrappers
  import opened Decimal
  import opened Framing
  import Lists
  import opened Text
  import opened Addressing

  const DASH: char := '-'
  const MAX_LENGTH: nat := 48

  predicate IsSlugChar(c: char) {
    'a' <= c <= 'z' || IsDigit(c)
  }

  /** White space at the ends goes with the dashes it collapses to. */
  function Slugify(s: string): string {
    var slug := Trim(Collapse(Lower(s), IsSlugChar, DASH), DASH);
    var short := TrimRight(if |slug| > MAX_LENGTH then slug[..MAX_LENGTH] else slug, DASH);
    if short == "" then "unnamed" else short
  }

  // ---------- A slug is the words of its text ----------

  /** Words with gaps before, between and after them. */
  function Spaced(words: seq<string>, gaps: seq<string>): string
    requires |gaps| == |words| + 1
  {
    if words == [] then gaps[0] else gaps[0] + (words[0] + Spaced(words[1..], gaps[1..]))
  }

  predicate IsWord(w: string) {
    w != "" && forall i | 0 <= i < |w| :: 'a' <= w[i] <= 'z' || '0' <= w[i] <= '9'
  }

  predicate IsGap(g: string) {
    forall i | 0 <= i < |g| :: !('a' <= g[i] <= 'z') && !('0' <= g[i] <= '9')
  }

  /** The words are the longest ones. */
  predicate WellSpaced(words: seq<string>, gaps: seq<string>) {
    && |gaps| == |words| + 1
    && (forall k | 0 <= k < |words| :: IsWord(words[k]))
    && (forall k | 0 <= k < |gaps| :: IsGap(gaps[k]))
    && (forall k | 0 < k < |words| :: gaps[k] != "")
  }

  function DashFor(gap: string): string {
    if gap == "" then "" else [DASH]
  }

  lemma GapThen(gap: string, rest: string)
    requires IsGap(gap) && (rest == "" || IsSlugChar(rest[0]))
    ensures Collapse(gap + rest, IsSlugChar, DASH) == DashFor(gap) + Collapse(rest, IsSlugChar, DASH)
  {
    if gap == "" {
      assert gap + rest == rest;
    } else {
      CollapseGap(gap, rest, IsSlugChar, DASH);
    }
  }

  lemma {:induction false} CollapseSpaced(words: seq<string>, gaps: seq<string>)
    requires WellSpaced(words, gaps)
    ensures words == [] ==> Collapse(Spaced(words, gaps), IsSlugChar, DASH) == DashFor(gaps[0])
    ensures words != [] ==>
              Collapse(Spaced(words, gaps), IsSlugChar, DASH)
              == DashFor(gaps[0]) + (Joined(words, DASH) + DashFor(gaps[|words|]))
  {
    if words == [] {
      GapThen(gaps[0], "");
      assert gaps[0] + "" == gaps[0];
    } else {
      CollapseSpaced(words[1..], gaps[1..]);
      WordThen(words[0], gaps[0], Spaced(words[1..], gaps[1..]));
      JoinedFrom(words, DashFor(gaps[|words|]));
    }
  }

  lemma WordThen(word: string, gap: string, rest: string)
    requires IsWord(word) && IsGap(gap)
    ensures Collapse(gap + (word + rest), IsSlugChar, DASH)
            == DashFor(gap) + (word + Collapse(rest, IsSlugChar, DASH))
  {
    GapThen(gap, word + rest);
    CollapseWord(word, rest, IsSlugChar, DASH);
  }

  lemma JoinedFrom(words: seq<string>, tail: string)
    requires words != []
    ensures |words| > 1 ==> Joined(words, DASH) + tail == words[0] + ([DASH] + (Joined(words[1..], DASH) + tail))
    ensures |words| == 1 ==> Joined(words, DASH) + tail == words[0] + tail
  {
    if |words| > 1 {
      var rest := Joined(words[1..], DASH);
      Lists.Associate(words[0], [DASH], rest);
      Lists.Associate(words[0], [DASH] + rest, tail);
      Lists.Associate([DASH], rest, tail);
    }
  }

  lemma {:induction false} JoinedEnds(words: seq<string>)
    requires words != [] && forall k | 0 <= k < |words| :: IsWord(words[k])
    ensures var full := Joined(words, DASH);
      && full != "" && full[0] != DASH && full[|full| - 1] != DASH
      && forall k | 0 < k < |full| && full[k] == DASH :: full[k - 1] != DASH
  {
    if |words| > 1 {
      JoinedEnds(words[1..]);
      var full, rest := Joined(words, DASH), Joined(words[1..], DASH);
      assert full == words[0] + [DASH] + rest;
      assert forall k | 0 <= k < |words[0]| :: full[k] == words[0][k];
      forall k | 0 < k < |full| && full[k] == DASH ensures full[k - 1] != DASH {
        if k == |words[0]| {
          assert full[k - 1] == words[0][k - 1];
        } else if k > |words[0]| + 1 {
          assert full[k] == rest[k - |words[0]| - 1] && full[k - 1] == rest[k - |words[0]| - 2];
        }
      }
    }
  }

  lemma CutAt(full: string, limit: nat)
    requires limit > 1 && |full| > limit && full[0] != DASH
    requires forall k | 0 < k < |full| && full[k] == DASH :: full[k - 1] != DASH
    ensures TrimRight(full[..limit], DASH) == if full[limit - 1] == DASH then full[..limit - 1] else full[..limit]
  {
    if full[limit - 1] == DASH {
      assert full[..limit] == full[..limit - 1] + [DASH];
      TrimRightOf(full[..limit - 1], [DASH], DASH);
    }
  }

  /** The slug of a text joins its words by dashes, at most 48 characters of them and no dash at the
      end; a text without letters and digits is unnamed. */
  lemma SlugIsWords(s: string, words: seq<string>, gaps: seq<string>)
    requires WellSpaced(words, gaps) && Lower(s) == Spaced(words, gaps)
    ensures words == [] ==> Slugify(s) == "unnamed"
    ensures words != [] ==>
              var full := Joined(words, DASH);
              Slugify(s) == if |full| <= 48 then full else if full[47] == '-' then full[..47] else full[..48]
  {
    CollapseSpaced(words, gaps);
    if words == [] {
      TrimNothing(DashFor(gaps[0]), DASH);
    } else {
      var full := Joined(words, DASH);
      JoinedEnds(words);
      TrimIs(DashFor(gaps[0]), full, DashFor(gaps[|words|]), DASH);
      if |full| > 48 {
        CutAt(full, 48);
      } else {
        TrimRightOf(full, "", DASH);
        assert full + "" == full;
      }
    }
  }

  /** Every text has its words. */
  lemma {:induction false} WordsOf(s: string) returns (words: seq<string>, gaps: seq<string>)
    ensures WellSpaced(words, gaps) && Spaced(words, gaps) == s
  {
    if s == "" {
      words, gaps := [], [""];
    } else {
      words, gaps := WordsOf(s[1..]);
      assert s == [s[0]] + s[1..];
      if !IsSlugChar(s[0]) {
        gaps := [[s[0]] + gaps[0]] + gaps[1..];
      } else if words == [] || gaps[0] != "" {
        words, gaps := [[s[0]]] + words, [""] + gaps;
        assert Spaced(words, gaps) == "" + ([s[0]] + s[1..]);
      } else {
        assert gaps[0] == "";
        words := [[s[0]] + words[0]] + words[1..];
      }
    }
  }

  // ---------- The text of an IPv4 block ----------

  function Fields(s: SubnetSpec): (r: seq<string>)
    ensures |r| == 5
  {
    [Digits(s.base / 256 / 256 / 256), Digits(s.base / 256 / 256 % 256), Digits(s.base / 256 % 256),
     Digits(s.base % 256), Digits(s.length)]
  }

  function CidrText(s: SubnetSpec): string {
    var f := Fields(s);
    f[0] + "." + (f[1] + "." + (f[2] + "." + (f[3] + "/" + f[4])))
  }

  lemma CollapseSeparated(word: string, sep: string, rest: string)
    requires AllKept(word, IsSlugChar) && |sep| == 1 && !IsSlugChar(sep[0]) && rest != "" && IsSlugChar(rest[0])
    ensures Collapse(word + sep + rest, IsSlugChar, DASH) == word + [DASH] + Collapse(rest, IsSlugChar, DASH)
  {
    assert word + sep + rest == word + (sep + rest);
    CollapseWord(word, sep + rest, IsSlugChar, DASH);
    assert (sep + rest)[1..] == rest;
    assert DropOthers(rest, IsSlugChar) == rest;
  }

  lemma DigitsAreSlug(n: nat)
    ensures AllKept(Digits(n), IsSlugChar) && DASH !in Digits(n) && Digits(n) != ""
    ensures IsSlugChar(Digits(n)[0])
  {
    DigitsParse(n);
  }

  lemma CollapsedCidr(s: SubnetSpec)
    ensures Collapse(CidrText(s), IsSlugChar, DASH) == Joined(Fields(s), DASH)
    ensures AllFree(Fields(s), DASH)
  {
    var f := Fields(s);
    DigitsAreSlug(s.base / 256 / 256 / 256);
    DigitsAreSlug(s.base / 256 / 256 % 256);
    DigitsAreSlug(s.base / 256 % 256);
    DigitsAreSlug(s.base % 256);
    DigitsAreSlug(s.length);
    CollapseWord(f[4], "", IsSlugChar, DASH);
    assert f[4] + "" == f[4];
    CollapseSeparated(f[3], "/", f[4]);
    CollapseSeparated(f[2], ".", f[3] + "/" + f[4]);
    CollapseSeparated(f[1], ".", f[2] + "." + (f[3] + "/" + f[4]));
    CollapseSeparated(f[0], ".", f[1] + "." + (f[2] + "." + (f[3] + "/" + f[4])));
    FiveJoined(f);
  }

  lemma FiveJoined(f: seq<string>)
    requires |f| == 5
    ensures Joined(f, DASH) == f[0] + [DASH] + (f[1] + [DASH] + (f[2] + [DASH] + (f[3] + [DASH] + f[4])))
  {
    assert Joined(f[4..], DASH) == f[4];
    assert f[3..][1..] == f[4..] && Joined(f[3..], DASH) == f[3] + [DASH] + f[4];
    assert f[2..][1..] == f[3..] && Joined(f[2..], DASH) == f[2] + [DASH] + Joined(f[3..], DASH);
    assert f[1..][1..] == f[2..] && Joined(f[1..], DASH) == f[1] + [DASH] + Joined(f[2..], DASH);
  }

  lemma {:induction false} DigitsLength(n: nat, k: nat)
    requires n < Pow10(k) && k > 0
    ensures |Digits(n)| <= k
  {
    if n >= 10 {
      DigitsLength(n / 10, k - 1);
    }
  }

  function Pow10(k: nat): nat {
    if k == 0 then 1 else 10 * Pow10(k - 1)
  }

  lemma LowerConcat(s: string, t: string)
    ensures Lower(s + t) == Lower(s) + Lower(t)
  {
  }

  lemma LowerDigits(n: nat)
    ensures Lower(Digits(n)) == Digits(n)
  {
    DigitsParse(n);
  }

  /** Nothing is trimmed from an IPv4 block's text, and it is never cut short. */
  lemma CidrSlug(s: SubnetSpec)
    requires s.version.V4?
    ensures Slugify(CidrText(s)) == Joined(Fields(s), DASH)
  {
    var f := Fields(s);
    CollapsedCidr(s);
    FiveJoined(f);
    WordIsFull();
    DigitsAreSlug(s.base / 256 / 256 / 256);
    DigitsAreSlug(s.base / 256 / 256 % 256);
    DigitsAreSlug(s.base / 256 % 256);
    DigitsAreSlug(s.base % 256);
    DigitsAreSlug(s.length);
    assert Pow10(3) == 1000;
    DigitsLength(s.base / 256 / 256 / 256, 3);
    DigitsLength(s.base / 256 / 256 % 256, 3);
    DigitsLength(s.base / 256 % 256, 3);
    DigitsLength(s.base % 256, 3);
    DigitsLength(s.length, 3);
    LowerCidr(s);
    EndsUntouched(Joined(f, DASH));
  }

  lemma LowerStep(n: nat, sep: string, rest: string)
    requires Lower(rest) == rest && (sep == "." || sep == "/")
    ensures Lower(Digits(n) + sep + rest) == Digits(n) + sep + rest
  {
    LowerDigits(n);
    LowerConcat(Digits(n), sep);
    LowerConcat(Digits(n) + sep, rest);
  }

  lemma LowerCidr(s: SubnetSpec)
    ensures Lower(CidrText(s)) == CidrText(s)
  {
    var f := Fields(s);
    LowerDigits(s.length);
    LowerStep(s.base % 256, "/", f[4]);
    LowerStep(s.base / 256 % 256, ".", f[3] + "/" + f[4]);
    LowerStep(s.base / 256 / 256 % 256, ".", f[2] + "." + (f[3] + "/" + f[4]));
    LowerStep(s.base / 256 / 256 / 256, ".", f[1] + "." + (f[2] + "." + (f[3] + "/" + f[4])));
  }

  lemma EndsUntouched(slug: string)
    requires slug != "" && slug[0] != DASH && slug[|slug| - 1] != DASH
    ensures Trim(slug, DASH) == slug && TrimRight(slug, DASH) == slug
  {
  }

  lemma DigitsInjective(m: nat, n: nat)
    requires Digits(m) == Digits(n)
    ensures m == n
  {
    DigitsParse(m);
    DigitsParse(n);
  }

  /** Two IPv4 blocks with the same slug are the same block. */
  lemma IPv4SlugsApart(a: SubnetSpec, b: SubnetSpec)
    requires a.version.V4? && b.version.V4? && Slugify(CidrText(a)) == Slugify(CidrText(b))
    ensures a == b
  {
    CidrSlug(a);
    CidrSlug(b);
    CollapsedCidr(a);
    CollapsedCidr(b);
    JoinedInjective(Fields(a), Fields(b), DASH);
    SameFields(a, b);
  }

  lemma SameFields(a: SubnetSpec, b: SubnetSpec)
    requires a.version == b.version && Fields(a) == Fields(b)
    ensures a == b
  {
    FieldInjective(Fields(a), Fields(b), 0, a.base / 256 / 256 / 256, b.base / 256 / 256 / 256);
    FieldInjective(Fields(a), Fields(b), 1, a.base / 256 / 256 % 256, b.base / 256 / 256 % 256);
    FieldInjective(Fields(a), Fields(b), 2, a.base / 256 % 256, b.base / 256 % 256);
    FieldInjective(Fields(a), Fields(b), 3, a.base % 256, b.base % 256);
    FieldInjective(Fields(a), Fields(b), 4, a.length, b.length);
    OctetsDecide(a.base, b.base);
  }

  lemma FieldInjective(xs: seq<string>, ys: seq<string>, k: nat, m: nat, n: nat)
    requires xs == ys && k < |xs| && xs[k] == Digits(m) && ys[k] == Digits(n)
    ensures m == n
  {
    DigitsInjective(m, n);
  }

  lemma OctetsDecide(x: nat, y: nat)
    requires x % 256 == y % 256 && x / 256 % 256 == y / 256 % 256
    requires x / 256 / 256 % 256 == y / 256 / 256 % 256 && x / 256 / 256 / 256 == y / 256 / 256 / 256
    ensures x == y
  {
  }
}
