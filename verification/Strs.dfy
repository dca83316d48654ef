/** `sorted` on strings and `str.join`, with what their results determine. */
module Strs {
  import opened PyText

  // ----- sorting -----

  predicate Sorted(xs: seq<PyStr>) {
    forall i, j | 0 <= i < j < |xs| :: Leq(xs[i], xs[j])
  }

  function Insert(x: PyStr, xs: seq<PyStr>): (r: seq<PyStr>)
    ensures multiset(r) == multiset(xs) + multiset{x}
    ensures |r| == |xs| + 1
  {
    if xs == [] || Leq(x, xs[0]) then [x] + xs
    else
      assert xs == [xs[0]] + xs[1..];
      [xs[0]] + Insert(x, xs[1..])
  }

  /** `sorted(xs)`. */
  function Sort(xs: seq<PyStr>): (r: seq<PyStr>)
    ensures multiset(r) == multiset(xs)
  {
    if xs == [] then []
    else
      assert xs == [xs[0]] + xs[1..];
      Insert(xs[0], Sort(xs[1..]))
  }

  predicate Below(x: PyStr, xs: seq<PyStr>) {
    forall i | 0 <= i < |xs| :: Leq(x, xs[i])
  }

  lemma {:induction false} BelowInsert(b: PyStr, x: PyStr, xs: seq<PyStr>)
    requires Below(b, xs) && Leq(b, x)
    ensures Below(b, Insert(x, xs))
  {
    if xs != [] && !Leq(x, xs[0]) {
      BelowInsert(b, x, xs[1..]);
    }
  }

  lemma {:induction false} SortedCons(x: PyStr, xs: seq<PyStr>)
    ensures Sorted([x] + xs) <==> Below(x, xs) && Sorted(xs)
  {
    var all := [x] + xs;
    if Sorted(all) {
      forall i | 0 <= i < |xs| ensures Leq(x, xs[i]) { assert all[0] == x && all[i + 1] == xs[i]; }
      forall i, j | 0 <= i < j < |xs| ensures Leq(xs[i], xs[j]) {
        assert all[i + 1] == xs[i] && all[j + 1] == xs[j];
      }
    }
  }

  lemma {:induction false} SortedInsert(x: PyStr, xs: seq<PyStr>)
    requires Sorted(xs)
    ensures Sorted(Insert(x, xs))
  {
    if xs == [] {
    } else if Leq(x, xs[0]) {
      forall i | 0 <= i < |xs| ensures Leq(x, xs[i]) {
        if i > 0 { LeqTransitive(x, xs[0], xs[i]); }
      }
      SortedCons(x, xs);
    } else {
      LeqTotal(x, xs[0]);
      assert xs == [xs[0]] + xs[1..];
      SortedCons(xs[0], xs[1..]);
      SortedInsert(x, xs[1..]);
      BelowInsert(xs[0], x, xs[1..]);
      SortedCons(xs[0], Insert(x, xs[1..]));
    }
  }

  lemma {:induction false} SortSorts(xs: seq<PyStr>)
    ensures Sorted(Sort(xs))
  {
    if xs != [] {
      SortSorts(xs[1..]);
      SortedInsert(xs[0], Sort(xs[1..]));
    }
  }

  /** A multiset has one sorted arrangement. */
  lemma {:induction false} SortedUnique(xs: seq<PyStr>, ys: seq<PyStr>)
    requires Sorted(xs) && Sorted(ys) && multiset(xs) == multiset(ys)
    ensures xs == ys
  {
    hide Leq, Sorted;
    assert |xs| == |multiset(xs)| == |multiset(ys)| == |ys|;
    if xs != [] {
      SortedHead(xs, ys);
      SortedHead(ys, xs);
      LeqAntisymmetric(xs[0], ys[0]);
      SortedTail(xs);
      SortedTail(ys);
      SortedUnique(xs[1..], ys[1..]);
    }
  }

  lemma {:induction false} SortedTail(xs: seq<PyStr>)
    requires Sorted(xs) && xs != []
    ensures Sorted(xs[1..]) && xs == [xs[0]] + xs[1..] && multiset(xs[1..]) == multiset(xs) - multiset{xs[0]}
  {
    hide Leq;
    assert xs == [xs[0]] + xs[1..];
  }

  lemma {:induction false} SortedHead(xs: seq<PyStr>, ys: seq<PyStr>)
    requires Sorted(xs) && multiset(xs) == multiset(ys) && xs != [] && ys != []
    ensures Leq(xs[0], ys[0])
  {
    assert ys[0] in multiset(xs);
    var i :| 0 <= i < |xs| && xs[i] == ys[0];
    LeqTotal(xs[0], xs[0]);
  }

  /** Sorting forgets the order and nothing else. */
  lemma {:induction false} SortCanonical(xs: seq<PyStr>, ys: seq<PyStr>)
    ensures Sort(xs) == Sort(ys) <==> multiset(xs) == multiset(ys)
  {
    SortSorts(xs);
    SortSorts(ys);
    if multiset(xs) == multiset(ys) {
      SortedUnique(Sort(xs), Sort(ys));
    }
  }

  // ----- joining -----

  /** `sep.join(xs)` for a one-character separator. */
  function Join(sep: Code, xs: seq<PyStr>): PyStr {
    if xs == [] then [] else if |xs| == 1 then xs[0] else xs[0] + [sep] + Join(sep, xs[1..])
  }

  /** No element contains the separator. */
  predicate Free(sep: Code, xs: seq<PyStr>) {
    forall i | 0 <= i < |xs| :: sep !in xs[i]
  }

  predicate NonEmpty(xs: seq<PyStr>) {
    forall i | 0 <= i < |xs| :: xs[i] != []
  }

  /** The part before the first separator is determined. */
  lemma {:induction false} SplitUnique(sep: Code, a: PyStr, r: PyStr, b: PyStr, s: PyStr)
    requires sep !in a && sep !in b && a + [sep] + r == b + [sep] + s
    ensures a == b && r == s
  {
    var t := a + [sep] + r;
    assert t[|a|] == sep && t[|b|] == sep;
    assert forall i | 0 <= i < |a| :: t[i] == a[i];
    assert forall i | 0 <= i < |b| :: t[i] == b[i];
    assert |a| == |b|;
    assert t[..|a|] == a && t[..|b|] == b;
    assert t[|a| + 1..] == r && t[|b| + 1..] == s;
  }

  lemma {:induction false} NoSeparator(sep: Code, a: PyStr, b: PyStr, s: PyStr)
    requires sep !in a
    ensures a != b + [sep] + s
  {
    assert sep in b + [sep] + s by { assert (b + [sep] + s)[|b|] == sep; }
  }

  lemma {:induction false} JoinNonEmpty(sep: Code, xs: seq<PyStr>)
    ensures xs != [] && NonEmpty(xs) ==> Join(sep, xs) != []
  {
    if xs != [] && NonEmpty(xs) { assert xs[0] != []; }
  }

  /** Joining separator-free strings loses nothing, if none is empty or their number is known. */
  lemma {:induction false} JoinInjective(sep: Code, xs: seq<PyStr>, ys: seq<PyStr>)
    requires Free(sep, xs) && Free(sep, ys) && Join(sep, xs) == Join(sep, ys)
    requires |xs| == |ys| || (NonEmpty(xs) && NonEmpty(ys))
    ensures xs == ys
  {
    if xs == [] || ys == [] {
      JoinNonEmpty(sep, xs);
      JoinNonEmpty(sep, ys);
    } else if |xs| == 1 && |ys| == 1 {
      assert xs == [xs[0]] && ys == [ys[0]];
    } else if |xs| == 1 {
      NoSeparator(sep, xs[0], ys[0], Join(sep, ys[1..]));
    } else if |ys| == 1 {
      NoSeparator(sep, ys[0], xs[0], Join(sep, xs[1..]));
    } else {
      SplitUnique(sep, xs[0], Join(sep, xs[1..]), ys[0], Join(sep, ys[1..]));
      JoinInjective(sep, xs[1..], ys[1..]);
      assert xs == [xs[0]] + xs[1..] && ys == [ys[0]] + ys[1..];
    }
  }

  /** `text.split(sep)` for a one-character separator. */
  function Split(sep: Code, t: PyStr): (r: seq<PyStr>)
    ensures r != []
  {
    if t == [] then [[]]
    else
      var rest := Split(sep, t[1..]);
      if t[0] == sep then [[]] + rest else [[t[0]] + rest[0]] + rest[1..]
  }

  /** What a split is: joining the parts gives the text back, and no part holds the separator. */
  lemma {:induction false} SplitMeaning(sep: Code, t: PyStr)
    ensures Join(sep, Split(sep, t)) == t && Free(sep, Split(sep, t))
  {
    hide Split;
    SplitStep(sep, t);
    if t != [] {
      SplitMeaning(sep, t[1..]);
      var rest := Split(sep, t[1..]);
      if t[0] == sep {
        JoinPrepend(sep, [], rest);
      } else {
        JoinLonger(sep, t[0], rest);
      }
      assert t == [t[0]] + t[1..];
    }
  }

  lemma {:induction false} SplitStep(sep: Code, t: PyStr)
    ensures Split(sep, t)
            == if t == [] then [[]]
               else
                 var rest := Split(sep, t[1..]);
                 if t[0] == sep then [[]] + rest else [[t[0]] + rest[0]] + rest[1..]
  {}

  lemma {:induction false} JoinPrepend(sep: Code, x: PyStr, xs: seq<PyStr>)
    requires xs != []
    ensures Join(sep, [x] + xs) == x + [sep] + Join(sep, xs)
  {
    assert ([x] + xs)[1..] == xs;
  }

  lemma {:induction false} JoinLonger(sep: Code, c: Code, xs: seq<PyStr>)
    requires xs != []
    ensures Join(sep, [[c] + xs[0]] + xs[1..]) == [c] + Join(sep, xs)
  {
    var r := [[c] + xs[0]] + xs[1..];
    if |xs| > 1 {
      assert r[1..] == xs[1..];
      assert [c] + xs[0] + [sep] + Join(sep, xs[1..]) == [c] + (xs[0] + [sep] + Join(sep, xs[1..]));
    }
  }

  /** Splitting undoes joining. */
  lemma {:induction false} SplitJoin(sep: Code, xs: seq<PyStr>)
    requires Free(sep, xs) && xs != []
    ensures Split(sep, Join(sep, xs)) == xs
  {
    if |xs| == 1 {
      SplitFree(sep, xs[0]);
    } else {
      SplitJoin(sep, xs[1..]);
      SplitFirst(sep, xs[0], Join(sep, xs[1..]));
      assert xs == [xs[0]] + xs[1..];
    }
  }

  lemma {:induction false} SplitFirst(sep: Code, a: PyStr, rest: PyStr)
    requires sep !in a
    ensures Split(sep, a + [sep] + rest) == [a] + Split(sep, rest)
  {
    var t := a + [sep] + rest;
    if a == [] {
      assert t[1..] == rest;
    } else {
      assert t[1..] == a[1..] + [sep] + rest;
      SplitFirst(sep, a[1..], rest);
      assert [a[0]] + a[1..] == a;
    }
  }

  lemma {:induction false} SplitFree(sep: Code, a: PyStr)
    requires sep !in a
    ensures Split(sep, a) == [a]
  {
    if a != [] {
      SplitFree(sep, a[1..]);
      assert [a[0]] + a[1..] == a;
    }
  }
}
