/** Sorting by a text key, as the standard library does it: stable, by code point order. */
module Sorting {

  predicate Less(a: string, b: string) {
    b != "" && (a == "" || a[0] < b[0] || (a[0] == b[0] && Less(a[1..], b[1..])))
  }

  lemma {:induction false} LessTotal(a: string, b: string)
    ensures Less(a, b) || a == b || Less(b, a)
  {
    if a != "" && b != "" && a[0] == b[0] {
      LessTotal(a[1..], b[1..]);
      assert a == [a[0]] + a[1..] && b == [b[0]] + b[1..];
    }
  }

  lemma {:induction false} LessAsymmetric(a: string, b: string)
    requires Less(a, b)
    ensures !Less(b, a) && a != b
  {
    if a != "" && a[0] == b[0] {
      LessAsymmetric(a[1..], b[1..]);
    }
  }

  lemma {:induction false} LessTransitive(a: string, b: string, c: string)
    requires Less(a, b) && Less(b, c)
    ensures Less(a, c)
  {
    if a != "" && a[0] == b[0] && b[0] == c[0] {
      LessTransitive(a[1..], b[1..], c[1..]);
    }
  }

  /** No later element has a smaller key. */
  predicate Ascending<T>(xs: seq<T>, key: T -> string) {
    forall i, j :: 0 <= i < j < |xs| ==> !Less(key(xs[j]), key(xs[i]))
  }

  predicate DistinctKeys<T>(xs: seq<T>, key: T -> string) {
    forall i, j :: 0 <= i < j < |xs| ==> key(xs[i]) != key(xs[j])
  }

  function Insert<T>(x: T, xs: seq<T>, key: T -> string): (r: seq<T>)
    ensures multiset(r) == multiset(xs) + multiset{x}
  {
    if xs == [] || !Less(key(xs[0]), key(x)) then [x] + xs
    else
      assert xs == [xs[0]] + xs[1..];
      [xs[0]] + Insert(x, xs[1..], key)
  }

  /** Equal keys keep their order. */
  function SortBy<T>(xs: seq<T>, key: T -> string): (r: seq<T>)
    ensures multiset(r) == multiset(xs)
  {
    if xs == [] then []
    else
      assert xs == [xs[0]] + xs[1..];
      Insert(xs[0], SortBy(xs[1..], key), key)
  }

  lemma {:induction false} InsertAscending<T>(x: T, xs: seq<T>, key: T -> string)
    requires Ascending(xs, key)
    ensures Ascending(Insert(x, xs, key), key)
  {
    var r := Insert(x, xs, key);
    if xs == [] {
    } else if !Less(key(xs[0]), key(x)) {
      forall j | 0 <= j < |xs| ensures !Less(key(xs[j]), key(x)) {
        if j > 0 {
          NotLessTransitive(key(x), key(xs[0]), key(xs[j]));
        }
      }
    } else {
      InsertAscending(x, xs[1..], key);
      var rest := Insert(x, xs[1..], key);
      LessAsymmetric(key(xs[0]), key(x));
      forall j | 0 <= j < |rest| ensures !Less(key(rest[j]), key(xs[0])) {
        assert rest[j] in multiset(rest);
        if rest[j] != x {
          assert rest[j] in xs[1..];
        }
      }
    }
  }

  lemma NotLessTransitive(a: string, b: string, c: string)
    requires !Less(b, a) && !Less(c, b)
    ensures !Less(c, a)
  {
    LessTotal(a, b);
    LessTotal(b, c);
    if a == b || b == c {
    } else {
      LessTransitive(a, b, c);
      LessAsymmetric(a, c);
    }
  }

  lemma {:induction false} SortAscending<T>(xs: seq<T>, key: T -> string)
    ensures Ascending(SortBy(xs, key), key)
  {
    if xs != [] {
      SortAscending(xs[1..], key);
      InsertAscending(xs[0], SortBy(xs[1..], key), key);
    }
  }

  /** Two ascending arrangements of the same elements with distinct keys are the same. */
  lemma {:induction false} AscendingUnique<T>(xs: seq<T>, ys: seq<T>, key: T -> string)
    requires Ascending(xs, key) && Ascending(ys, key) && DistinctKeys(xs, key)
    requires multiset(xs) == multiset(ys)
    ensures xs == ys
  {
    assert |ys| == |multiset(ys)| && |xs| == |multiset(xs)|;
    if xs != [] {
      FirstIsLeast(xs, ys, key);
      RestOf(xs);
      RestOf(ys);
      forall i, j | 0 <= i < j < |ys[1..]| ensures !Less(key(ys[1..][j]), key(ys[1..][i])) {
        assert ys[1..][j] == ys[j + 1] && ys[1..][i] == ys[i + 1];
      }
      AscendingUnique(xs[1..], ys[1..], key);
    }
  }

  lemma RestOf<T>(xs: seq<T>)
    requires xs != []
    ensures xs == [xs[0]] + xs[1..] && multiset(xs[1..]) == multiset(xs) - multiset{xs[0]}
  {
    assert xs == [xs[0]] + xs[1..];
  }

  lemma FirstIsLeast<T>(xs: seq<T>, ys: seq<T>, key: T -> string)
    requires Ascending(xs, key) && Ascending(ys, key) && DistinctKeys(xs, key)
    requires multiset(xs) == multiset(ys) && xs != [] && ys != []
    ensures xs[0] == ys[0]
  {
    assert xs[0] in multiset(ys) && ys[0] in multiset(xs);
    var i :| 0 <= i < |ys| && ys[i] == xs[0];
    var j :| 0 <= j < |xs| && xs[j] == ys[0];
    if j > 0 && i > 0 {
      LessTotal(key(xs[0]), key(xs[j]));
    }
  }

  /** Sorting forgets the order of its input when keys are distinct. */
  lemma SortIgnoresOrder<T>(xs: seq<T>, ys: seq<T>, key: T -> string)
    requires DistinctKeys(xs, key) && multiset(xs) == multiset(ys)
    ensures SortBy(xs, key) == SortBy(ys, key)
  {
    SortAscending(xs, key);
    SortAscending(ys, key);
    DistinctKeysPermute(xs, SortBy(xs, key), key);
    AscendingUnique(SortBy(xs, key), SortBy(ys, key), key);
  }

  lemma DistinctKeysPermute<T>(xs: seq<T>, ys: seq<T>, key: T -> string)
    requires DistinctKeys(xs, key) && multiset(xs) == multiset(ys)
    ensures DistinctKeys(ys, key)
  {
    forall i, j | 0 <= i < j < |ys| ensures key(ys[i]) != key(ys[j]) {
      assert ys[i] in multiset(xs) && ys[j] in multiset(xs);
      if key(ys[i]) == key(ys[j]) {
        SameKeySameElement(xs, ys[i], ys[j], key);
        TwiceInMultiset(ys, i, j);
        OnceInMultiset(xs, ys[i], key);
      }
    }
  }

  lemma SameKeySameElement<T>(xs: seq<T>, a: T, b: T, key: T -> string)
    requires DistinctKeys(xs, key) && a in xs && b in xs && key(a) == key(b)
    ensures a == b
  {
    var i :| 0 <= i < |xs| && xs[i] == a;
    var j :| 0 <= j < |xs| && xs[j] == b;
  }

  lemma TwiceInMultiset<T>(ys: seq<T>, i: nat, j: nat)
    requires i < j < |ys| && ys[i] == ys[j]
    ensures multiset(ys)[ys[i]] >= 2
  {
    assert ys == ys[..j] + [ys[j]] + ys[j + 1..];
    assert ys[i] in multiset(ys[..j]) by {
      assert ys[..j][i] == ys[i];
    }
  }

  lemma {:induction false} OnceInMultiset<T>(xs: seq<T>, x: T, key: T -> string)
    requires DistinctKeys(xs, key)
    ensures multiset(xs)[x] <= 1
  {
    if xs != [] {
      OnceInMultiset(xs[1..], x, key);
      assert xs == [xs[0]] + xs[1..];
      if xs[0] == x {
        assert x !in xs[1..];
      }
    }
  }
}
