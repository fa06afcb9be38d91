/** Text fields joined by a separator, and how the fields can be told apart again. */
module Framing {

  function Joined(fields: seq<string>, sep: char): string {
    if fields == [] then ""
    else if |fields| == 1 then fields[0]
    else fields[0] + [sep] + Joined(fields[1..], sep)
  }

  predicate AllFree(fields: seq<string>, sep: char) {
    forall f <- fields :: sep !in f
  }

  lemma {:induction false} HeadSplit(x: string, a: string, y: string, b: string, sep: char)
    requires sep !in x && sep !in y && x + [sep] + a == y + [sep] + b
    ensures x == y && a == b
  {
    var s, t := x + [sep] + a, y + [sep] + b;
    assert s[|x|] == sep && forall i :: 0 <= i < |x| ==> s[i] == x[i];
    assert t[|y|] == sep && forall i :: 0 <= i < |y| ==> t[i] == y[i];
    assert |x| == |y|;
    assert s[..|x|] == x && t[..|y|] == y;
    assert s[|x| + 1..] == a && t[|y| + 1..] == b;
  }

  lemma JoinedHasSeparator(fields: seq<string>, sep: char)
    ensures |fields| > 1 ==> sep in Joined(fields, sep)
  {
    if |fields| > 1 {
      assert Joined(fields, sep)[|fields[0]|] == sep;
    }
  }

  /** Joining loses nothing: fields free of the separator can be read back. */
  lemma {:induction false} JoinedInjective(xs: seq<string>, ys: seq<string>, sep: char)
    requires xs != [] && ys != [] && AllFree(xs, sep) && AllFree(ys, sep)
    requires Joined(xs, sep) == Joined(ys, sep)
    ensures xs == ys
  {
    JoinedHasSeparator(xs, sep);
    JoinedHasSeparator(ys, sep);
    assert xs[0] in xs && ys[0] in ys;
    if |xs| > 1 && |ys| > 1 {
      HeadSplit(xs[0], Joined(xs[1..], sep), ys[0], Joined(ys[1..], sep), sep);
      JoinedInjective(xs[1..], ys[1..], sep);
      assert xs == [xs[0]] + xs[1..] && ys == [ys[0]] + ys[1..];
    }
  }

  lemma {:induction false} JoinedAppend(fields: seq<string>, last: string, sep: char)
    requires fields != []
    ensures Joined(fields + [last], sep) == Joined(fields, sep) + [sep] + last
  {
    var all := fields + [last];
    assert all[1..] == fields[1..] + [last];
    if |fields| > 1 {
      JoinedAppend(fields[1..], last, sep);
    }
  }
}
