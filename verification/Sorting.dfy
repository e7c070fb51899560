/** Sorting by the byte order of texts: what `sort_by(|a, b| a.cmp(b))` has to produce. */
module Sorting {
  import opened Dates

  lemma {:induction false} LexTotal(a: string, b: string)
    ensures LexLess(a, b) || LexLess(b, a) || a == b
    ensures !(LexLess(a, b) && LexLess(b, a))
  {
    if a != "" && b != "" {
      LexTotal(a[1..], b[1..]);
      assert a == [a[0]] + a[1..] && b == [b[0]] + b[1..];
    }
  }

  lemma {:induction false} LexTransitive(a: string, b: string, c: string)
    requires !LexLess(b, a) && !LexLess(c, b)
    ensures !LexLess(c, a)
  {
    if a != "" && b != "" && c != "" {
      if !LexLess(b[1..], a[1..]) && !LexLess(c[1..], b[1..]) {
        LexTransitive(a[1..], b[1..], c[1..]);
      }
    }
  }

  predicate Sorted(xs: seq<string>) {
    forall i, j :: 0 <= i < j < |xs| ==> !LexLess(xs[j], xs[i])
  }

  function Insert(x: string, xs: seq<string>): seq<string> {
    if xs == [] then [x]
    else if LexLess(xs[0], x) then [xs[0]] + Insert(x, xs[1..])
    else [x] + xs
  }

  function SortTexts(xs: seq<string>): (r: seq<string>)
    ensures |r| == |xs|
  {
    if xs == [] then [] else InsertSize(xs[0], SortTexts(xs[1..])); Insert(xs[0], SortTexts(xs[1..]))
  }

  lemma {:induction false} InsertSize(x: string, xs: seq<string>)
    ensures |Insert(x, xs)| == |xs| + 1
  {
    if xs != [] {
      InsertSize(x, xs[1..]);
    }
  }

  lemma InsertStep(x: string, xs: seq<string>)
    requires xs != []
    ensures Insert(x, xs) == if LexLess(xs[0], x) then [xs[0]] + Insert(x, xs[1..]) else [x] + xs
  {
  }

  lemma {:induction false} InsertPermutes(x: string, xs: seq<string>)
    ensures multiset(Insert(x, xs)) == multiset(xs) + multiset{x}
  {
    hide LexLess;
    if xs != [] {
      InsertPermutes(x, xs[1..]);
      hide Insert;
      InsertStep(x, xs);
      assert xs == [xs[0]] + xs[1..];
    }
  }

  /** What is not less than its head is not less than any text that is not less than that head. */
  lemma NoneLess(x: string, xs: seq<string>)
    requires Sorted(xs) && xs != [] && !LexLess(xs[0], x)
    ensures forall y :: y in multiset(xs) ==> !LexLess(y, x)
  {
    hide LexLess;
    forall y | y in multiset(xs)
      ensures !LexLess(y, x)
    {
      var k :| 0 <= k < |xs| && xs[k] == y;
      if k > 0 {
        LexTransitive(x, xs[0], y);
      }
    }
  }

  lemma HeadLeast(xs: seq<string>)
    requires Sorted(xs) && xs != []
    ensures Sorted(xs[1..]) && forall y :: y in multiset(xs[1..]) ==> !LexLess(y, xs[0])
  {
    hide LexLess;
    forall y | y in multiset(xs[1..])
      ensures !LexLess(y, xs[0])
    {
      var k :| 0 <= k < |xs[1..]| && xs[1..][k] == y;
      assert xs[k + 1] == y;
    }
  }

  lemma {:induction false} InsertSorted(x: string, xs: seq<string>)
    requires Sorted(xs)
    ensures Sorted(Insert(x, xs))
  {
    hide LexLess;
    if xs != [] {
      hide Insert, Sorted;
      var rest := xs[1..];
      InsertStep(x, xs);
      HeadLeast(xs);
      if LexLess(xs[0], x) {
        InsertSorted(x, rest);
        InsertPermutes(x, rest);
        LexTotal(xs[0], x);
        ConsSorted(xs[0], Insert(x, rest));
      } else {
        NoneLess(x, xs);
        ConsSorted(x, xs);
      }
    }
  }

  lemma ConsSorted(x: string, xs: seq<string>)
    requires Sorted(xs) && forall y :: y in multiset(xs) ==> !LexLess(y, x)
    ensures Sorted([x] + xs)
  {
    var ys := [x] + xs;
    forall i, j | 0 <= i < j < |ys|
      ensures !LexLess(ys[j], ys[i])
    {
      assert ys[j] == xs[j - 1] && xs[j - 1] in multiset(xs);
      if i > 0 {
        assert ys[i] == xs[i - 1];
      }
    }
  }

  lemma {:induction false} SortTextsSorts(xs: seq<string>)
    ensures Sorted(SortTexts(xs)) && multiset(SortTexts(xs)) == multiset(xs)
  {
    if xs != [] {
      SortTextsSorts(xs[1..]);
      InsertSorted(xs[0], SortTexts(xs[1..]));
      InsertPermutes(xs[0], SortTexts(xs[1..]));
      assert xs == [xs[0]] + xs[1..];
    }
  }

  /** The heads of two sorted permutations are the same. */
  lemma SameHead(a: seq<string>, b: seq<string>)
    requires Sorted(a) && Sorted(b) && multiset(a) == multiset(b) && a != [] && b != []
    ensures a[0] == b[0]
  {
    hide LexLess;
    assert a[0] in multiset(b) && b[0] in multiset(a);
    var i :| 0 <= i < |b| && b[i] == a[0];
    var j :| 0 <= j < |a| && a[j] == b[0];
    LexTotal(a[0], b[0]);
  }

  lemma TailPermutes(a: seq<string>, b: seq<string>)
    requires multiset(a) == multiset(b) && a != [] && b != [] && a[0] == b[0]
    ensures multiset(a[1..]) == multiset(b[1..])
  {
    assert a == [a[0]] + a[1..] && b == [b[0]] + b[1..];
    assert multiset(a[1..]) == multiset(a) - multiset{a[0]};
    assert multiset(b[1..]) == multiset(b) - multiset{b[0]};
  }

  /** There is only one sorted permutation, so it does not matter which sorting algorithm produced it. */
  lemma {:induction false} SortedPermutationIsUnique(a: seq<string>, b: seq<string>)
    requires Sorted(a) && Sorted(b) && multiset(a) == multiset(b)
    ensures a == b
  {
    hide Sorted;
    assert |multiset(a)| == |a| && |multiset(b)| == |b|;
    if a != [] {
      SameHead(a, b);
      TailPermutes(a, b);
      HeadLeast(a);
      HeadLeast(b);
      SortedPermutationIsUnique(a[1..], b[1..]);
      assert a == [a[0]] + a[1..] && b == [b[0]] + b[1..];
    }
  }

  lemma SortTextsIffSortedPermutation(xs: seq<string>, r: seq<string>)
    ensures r == SortTexts(xs) <==> Sorted(r) && multiset(r) == multiset(xs)
  {
    SortTextsSorts(xs);
    if Sorted(r) && multiset(r) == multiset(xs) {
      SortedPermutationIsUnique(r, SortTexts(xs));
    }
  }

  /** Sorted texts of calendar dates are in chronological order, and conversely. */
  lemma SortedIffChronological(texts: seq<string>, dates: seq<Date>)
    requires |texts| == |dates|
    requires forall i :: 0 <= i < |dates| ==> ValidDate(dates[i]) && texts[i] == FullDate(dates[i])
    ensures Sorted(texts) <==> forall i, j :: 0 <= i < j < |dates| ==> !Before(dates[j], dates[i])
  {
    forall i, j | 0 <= i < |dates| && 0 <= j < |dates|
      ensures LexLess(texts[j], texts[i]) <==> Before(dates[j], dates[i])
    {
      TextOrderIsCalendarOrder(dates[j], dates[i]);
    }
  }
}
