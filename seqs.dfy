/** Sequence operations the recommender is built from: boolean-mask
    selection (a pandas mask or a list comprehension with an `if`),
    Python's `s[:stop]` slice, and position lookup. */
module Seqs {

  /** The elements of `s` for which `keep` holds, in their original order. */
  function Filter<T(!new)>(s: seq<T>, keep: T -> bool): (r: seq<T>)
    ensures |r| <= |s|
    ensures forall x :: x in r <==> x in s && keep(x)
  {
    if |s| == 0 then []
    else (if keep(s[0]) then [s[0]] else []) + Filter(s[1..], keep)
  }

  /** A mask keeps every copy of an element it accepts and no copy of the
      others: repeated rows survive as often as they occur. */
  lemma {:induction false} FilterCounts<T(!new)>(s: seq<T>, keep: T -> bool)
    ensures forall x :: multiset(Filter(s, keep))[x] == if keep(x) then multiset(s)[x] else 0
  {
    if |s| > 0 {
      FilterCounts(s[1..], keep);
      assert s == [s[0]] + s[1..];
    }
  }

  /** `a` is obtained from `b` by deleting elements, keeping the order of the rest. */
  predicate IsSubsequence<T(==)>(a: seq<T>, b: seq<T>)
    decreases |b|
  {
    if |b| == 0 then |a| == 0
    else IsSubsequence(a, b[1..]) || (|a| > 0 && a[0] == b[0] && IsSubsequence(a[1..], b[1..]))
  }

  /** Selecting with a mask only deletes elements: order and values survive. */
  lemma {:induction false} FilterIsSubsequence<T(!new)>(s: seq<T>, keep: T -> bool)
    ensures IsSubsequence(Filter(s, keep), s)
  {
    if |s| > 0 {
      FilterIsSubsequence(s[1..], keep);
      var rest := Filter(s[1..], keep);
      if keep(s[0]) {
        assert Filter(s, keep) == [s[0]] + rest;
        assert ([s[0]] + rest)[1..] == rest;
      } else {
        assert Filter(s, keep) == rest;
      }
    }
  }

  /** A weaker mask keeps a subsequence of what a stronger mask keeps. */
  lemma {:induction false} FilterMonotone<T(!new)>(s: seq<T>, strict: T -> bool, loose: T -> bool)
    requires forall x :: x in s && strict(x) ==> loose(x)
    ensures IsSubsequence(Filter(s, strict), Filter(s, loose))
  {
    if |s| > 0 {
      FilterMonotone(s[1..], strict, loose);
      var a, b := Filter(s[1..], strict), Filter(s[1..], loose);
      if strict(s[0]) {
        assert Filter(s, strict) == [s[0]] + a;
        assert Filter(s, loose) == [s[0]] + b;
        assert ([s[0]] + a)[1..] == a;
        assert ([s[0]] + b)[1..] == b;
      } else if loose(s[0]) {
        assert Filter(s, strict) == a;
        assert Filter(s, loose) == [s[0]] + b;
        assert ([s[0]] + b)[1..] == b;
      } else {
        assert Filter(s, strict) == a;
        assert Filter(s, loose) == b;
      }
    }
  }

  /** A mask that holds everywhere keeps everything. */
  lemma {:induction false} FilterAll<T(!new)>(s: seq<T>, keep: T -> bool)
    requires forall x :: x in s ==> keep(x)
    ensures Filter(s, keep) == s
  {
    if |s| > 0 {
      FilterAll(s[1..], keep);
      assert s == [s[0]] + s[1..];
    }
  }

  /** Masking twice is masking once with both conditions (they need only
      agree on the elements of `s`). */
  lemma {:induction false} FilterTwice<T(!new)>(s: seq<T>, first: T -> bool, second: T -> bool, both: T -> bool)
    requires forall x :: x in s ==> both(x) == (first(x) && second(x))
    ensures Filter(Filter(s, first), second) == Filter(s, both)
  {
    if |s| > 0 {
      FilterTwice(s[1..], first, second, both);
      var once := Filter(s[1..], first);
      if first(s[0]) {
        assert Filter(s, first) == [s[0]] + once;
        assert ([s[0]] + once)[1..] == once;
      } else {
        assert Filter(s, first) == once;
      }
    }
  }

  /** Python's `s[:stop]`: the first `stop` elements, or, for a negative
      `stop`, all but the last `-stop`. */
  function SliceTo<T>(s: seq<T>, stop: int): (r: seq<T>)
    ensures 0 <= stop ==> |r| == if stop < |s| then stop else |s|
    ensures stop < 0 ==> |r| == if -stop < |s| then |s| + stop else 0
    ensures r == s[..|r|]
  {
    if 0 <= stop then (if stop < |s| then s[..stop] else s)
    else if -stop < |s| then s[..|s| + stop]
    else []
  }

  predicate Distinct<T(==)>(s: seq<T>) {
    forall i, j :: 0 <= i < j < |s| ==> s[i] != s[j]
  }

  /** Position of the first occurrence of `x` (pandas `Index.get_loc`). */
  function IndexOf<T(==)>(s: seq<T>, x: T): (i: nat)
    requires x in s
    ensures i < |s| && s[i] == x
    ensures forall j :: 0 <= j < i ==> s[j] != x
  {
    if s[0] == x then 0 else 1 + IndexOf(s[1..], x)
  }

  /** Over a sequence without repeats, positions and elements are in
      one-to-one correspondence. */
  lemma IndexOfBijection<T>(s: seq<T>)
    requires Distinct(s)
    ensures forall i :: 0 <= i < |s| ==> IndexOf(s, s[i]) == i
    ensures forall x :: x in s ==> s[IndexOf(s, x)] == x
  {
    forall i | 0 <= i < |s|
      ensures IndexOf(s, s[i]) == i
    {
      var k := IndexOf(s, s[i]);
      assert s[k] == s[i];
    }
  }
}
