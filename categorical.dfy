/** pandas categorical coding (`astype('category')`): the categories of a
    column are its distinct values in ascending order, and each value's
    code is its category's position. */
module Categorical {
  import opened Seqs
  import Text

  ghost predicate IsStrictTotalOrder<T(!new)>(lt: (T, T) -> bool) {
    (forall a :: !lt(a, a)) &&
    (forall a, b, c :: lt(a, b) && lt(b, c) ==> lt(a, c)) &&
    (forall a, b :: a != b ==> lt(a, b) || lt(b, a))
  }

  predicate StrictlySorted<T>(s: seq<T>, lt: (T, T) -> bool) {
    forall i, j :: 0 <= i < j < |s| ==> lt(s[i], s[j])
  }

  /** The order pandas sorts string categories by. */
  function StringLess(a: string, b: string): bool {
    Text.LexLess(a, b)
  }

  /** The order pandas sorts integer categories by. */
  function IntLess(a: int, b: int): bool {
    a < b
  }

  lemma StringLessIsStrictTotalOrder()
    ensures IsStrictTotalOrder(StringLess)
  {
    forall a: string
      ensures !StringLess(a, a)
    {
      Text.LexLessIrreflexive(a);
    }
    forall a: string, b: string, c: string | StringLess(a, b) && StringLess(b, c)
      ensures StringLess(a, c)
    {
      Text.LexLessTransitive(a, b, c);
    }
    forall a: string, b: string | a != b
      ensures StringLess(a, b) || StringLess(b, a)
    {
      Text.LexLessTotal(a, b);
    }
  }

  lemma IntLessIsStrictTotalOrder()
    ensures IsStrictTotalOrder(IntLess)
  {
  }

  /** Adds `x` to a strictly sorted sequence unless it is already there. */
  function Insert<T(==,!new)>(s: seq<T>, x: T, lt: (T, T) -> bool): (r: seq<T>)
    requires IsStrictTotalOrder(lt) && StrictlySorted(s, lt)
    ensures StrictlySorted(r, lt)
    ensures forall y :: y in r <==> y in s || y == x
  {
    if |s| == 0 then [x]
    else if x == s[0] then s
    else if lt(x, s[0]) then
      assert forall j :: 0 <= j < |s| ==> lt(x, s[j]) by {
        forall j | 0 <= j < |s| ensures lt(x, s[j]) {
          if j > 0 { assert lt(s[0], s[j]); }
        }
      }
      [x] + s
    else
      var rest := Insert(s[1..], x, lt);
      assert forall y :: y in rest ==> lt(s[0], y) by {
        forall y | y in rest ensures lt(s[0], y) {
          if y != x {
            var j :| 0 <= j < |s[1..]| && s[1..][j] == y;
            assert s[j + 1] == y;
          }
        }
      }
      assert forall j :: 0 < j < |[s[0]] + rest| ==> ([s[0]] + rest)[j] in rest;
      [s[0]] + rest
  }

  /** The categories of `xs`: its distinct values in ascending order. */
  function Categories<T(==,!new)>(xs: seq<T>, lt: (T, T) -> bool): (cats: seq<T>)
    requires IsStrictTotalOrder(lt)
    ensures StrictlySorted(cats, lt)
    ensures forall x :: x in cats <==> x in xs
  {
    if |xs| == 0 then []
    else
      var init := Categories(xs[..|xs| - 1], lt);
      assert forall x :: x in xs <==> x in xs[..|xs| - 1] || x == xs[|xs| - 1] by {
        assert xs == xs[..|xs| - 1] + [xs[|xs| - 1]];
      }
      Insert(init, xs[|xs| - 1], lt)
  }

  /** Strictly sorted means each category is listed exactly once. */
  lemma SortedIsDistinct<T(!new)>(s: seq<T>, lt: (T, T) -> bool)
    requires IsStrictTotalOrder(lt) && StrictlySorted(s, lt)
    ensures Distinct(s)
  {
    forall i, j | 0 <= i < j < |s|
      ensures s[i] != s[j]
    {
      assert lt(s[i], s[j]);
    }
  }

  lemma HeadIsLeast<T>(s: seq<T>, x: T, lt: (T, T) -> bool)
    requires StrictlySorted(s, lt) && x in s
    ensures x == s[0] || lt(s[0], x)
  {
    var k :| 0 <= k < |s| && s[k] == x;
    if k > 0 {
      assert lt(s[0], s[k]);
    }
  }

  /** Two strictly sorted sequences with the same elements are equal: the
      category list is determined by the set of values alone. */
  lemma {:induction false} SortedSetUnique<T(!new)>(a: seq<T>, b: seq<T>, lt: (T, T) -> bool)
    requires IsStrictTotalOrder(lt)
    requires StrictlySorted(a, lt) && StrictlySorted(b, lt)
    requires forall x :: x in a <==> x in b
    ensures a == b
  {
    assert |a| > 0 ==> a[0] in b;
    assert |b| > 0 ==> b[0] in a;
    if |a| > 0 && |b| > 0 {
      // both heads are the least element
      HeadIsLeast(a, b[0], lt);
      HeadIsLeast(b, a[0], lt);
      assert a[0] == b[0];
      forall x
        ensures x in a[1..] <==> x in b[1..]
      {
        if x in a[1..] {
          var i :| 1 <= i < |a| && a[i] == x;
          assert lt(a[0], x) && x in b;
          var j :| 0 <= j < |b| && b[j] == x;
          assert j != 0 && b[1..][j - 1] == x;
        }
        if x in b[1..] {
          var j :| 1 <= j < |b| && b[j] == x;
          assert lt(b[0], x) && x in a;
          var i :| 0 <= i < |a| && a[i] == x;
          assert i != 0 && a[1..][i - 1] == x;
        }
      }
      SortedSetUnique(a[1..], b[1..], lt);
      assert a == [a[0]] + a[1..] && b == [b[0]] + b[1..];
    }
  }

  /** The categories do not depend on the order of the rows or on how often
      each value repeats. */
  lemma CategoriesIgnoreRowOrder<T(!new)>(xs: seq<T>, ys: seq<T>, lt: (T, T) -> bool)
    requires IsStrictTotalOrder(lt)
    requires forall x :: x in xs <==> x in ys
    ensures Categories(xs, lt) == Categories(ys, lt)
  {
    SortedSetUnique(Categories(xs, lt), Categories(ys, lt), lt);
  }

  /** `cat.codes`: each value's position among the categories. */
  function Codes<T(==)>(xs: seq<T>, cats: seq<T>): (codes: seq<nat>)
    requires forall i :: 0 <= i < |xs| ==> xs[i] in cats
    ensures |codes| == |xs|
    ensures forall i :: 0 <= i < |xs| ==> codes[i] < |cats| && cats[codes[i]] == xs[i]
  {
    seq(|xs|, i requires 0 <= i < |xs| => IndexOf(cats, xs[i]))
  }
}
