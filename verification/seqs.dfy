/** Sequence vocabulary used by the collection merges: order-preserving
    filtering, first-occurrence deduplication, distinctness and subsequences.
    Every recursive definition peels off the LAST element, so that the
    left-to-right folds of the stores line up with them by induction. */
module Seqs {

  function Last<T>(s: seq<T>): T
    requires |s| > 0
  {
    s[|s| - 1]
  }

  function DropLast<T>(s: seq<T>): seq<T>
    requires |s| > 0
  {
    s[..|s| - 1]
  }

  /** The set of elements of a sequence. */
  function Elems<T>(s: seq<T>): set<T> {
    set x | x in s
  }

  /** No element occurs twice. */
  predicate Distinct<T(==)>(s: seq<T>) {
    forall i, j :: 0 <= i < j < |s| ==> s[i] != s[j]
  }

  /** In a sequence without repeats, what occurs in one part does not occur
      in the other. */
  lemma DistinctHalves<T>(a: seq<T>, b: seq<T>, x: T)
    requires Distinct(a + b) && x in a
    ensures x !in b
  {
    var i :| 0 <= i < |a| && a[i] == x;
    forall j | 0 <= j < |b| ensures b[j] != x {
      assert (a + b)[i] == x && (a + b)[|a| + j] == b[j];
    }
  }

  /** An element of the leading part of a sequence without repeats occurs
      in the prefix of that length and not after it. */
  lemma LeadingPart<T>(s: seq<T>, a: seq<T>, b: seq<T>, c: seq<T>, x: T)
    requires s == a + b + c && Distinct(s) && x in a
    ensures |a| <= |s| && x in s[..|a|] && x !in s[|a|..]
  {
    assert s == a + (b + c);
    assert s[..|a|] == a && s[|a|..] == b + c;
    DistinctHalves(a, b + c, x);
  }

  /** The membership test `x => !xs.includes(x)` against a fixed set. */
  function NotIn<T(==)>(xs: set<T>): T -> bool {
    x => x !in xs
  }

  /** The elements of `s` satisfying `p`, in their original order. */
  function Filter<T(!new)>(s: seq<T>, p: T -> bool): (r: seq<T>)
    ensures |r| <= |s|
    ensures forall x :: x in r <==> x in s && p(x)
  {
    if |s| == 0 then []
    else
      var init := Filter(DropLast(s), p);
      assert forall x :: x in s <==> x in DropLast(s) || x == Last(s);
      if p(Last(s)) then init + [Last(s)] else init
  }

  /** The first occurrences in `s` of the elements not in `seen`, in order of
      first occurrence: what inserting `s` one by one into a keyed collection
      that already holds `seen` adds at its end. */
  function Fresh<T(!new)>(s: seq<T>, seen: set<T>): (r: seq<T>)
    ensures Distinct(r)
    ensures forall x :: x in r <==> x in s && x !in seen
  {
    if |s| == 0 then []
    else
      var init := Fresh(DropLast(s), seen);
      assert forall x :: x in s <==> x in DropLast(s) || x == Last(s);
      if Last(s) in seen || Last(s) in DropLast(s) then init else init + [Last(s)]
  }

  /** `a` is obtained from `b` by deleting elements: relative order is kept. */
  ghost predicate IsSubsequence<T>(a: seq<T>, b: seq<T>)
    decreases |b|
  {
    |a| == 0 ||
    (|b| > 0 &&
     ((Last(a) == Last(b) && IsSubsequence(DropLast(a), DropLast(b))) ||
      IsSubsequence(a, DropLast(b))))
  }

  lemma {:induction false} FilterIsSubsequence<T(!new)>(s: seq<T>, p: T -> bool)
    ensures IsSubsequence(Filter(s, p), s)
    decreases |s|
  {
    if |s| > 0 {
      FilterIsSubsequence(DropLast(s), p);
      if p(Last(s)) {
        assert DropLast(Filter(s, p)) == Filter(DropLast(s), p);
      } else {
        SubsequenceOfDropLast(Filter(s, p), s);
      }
    }
  }

  lemma {:induction false} SubsequenceOfDropLast<T(!new)>(a: seq<T>, b: seq<T>)
    requires |b| > 0 && IsSubsequence(a, DropLast(b))
    ensures IsSubsequence(a, b)
  {
  }

  /** Filtering distributes over concatenation. */
  lemma {:induction false} FilterConcat<T(!new)>(a: seq<T>, b: seq<T>, p: T -> bool)
    ensures Filter(a + b, p) == Filter(a, p) + Filter(b, p)
    decreases |b|
  {
    if |b| == 0 {
      assert a + b == a;
    } else {
      assert DropLast(a + b) == a + DropLast(b);
      assert Last(a + b) == Last(b);
      FilterConcat(a, DropLast(b), p);
    }
  }

  /** Filtering keeps each surviving element with its multiplicity. */
  lemma {:induction false} FilterCount<T(!new)>(s: seq<T>, p: T -> bool, x: T)
    ensures multiset(Filter(s, p))[x] == if p(x) then multiset(s)[x] else 0
    decreases |s|
  {
    if |s| > 0 {
      FilterCount(DropLast(s), p, x);
      assert s == DropLast(s) + [Last(s)];
    }
  }

  /** Two filters against sets compose into one filter against their union. */
  lemma {:induction false} FilterNotInTwice<T(!new)>(s: seq<T>, a: set<T>, b: set<T>)
    ensures Filter(Filter(s, NotIn(a)), NotIn(b)) == Filter(s, NotIn(a + b))
    decreases |s|
  {
    if |s| > 0 {
      FilterNotInTwice(DropLast(s), a, b);
    }
  }

  /** A distinct sequence stays distinct under filtering. */
  lemma {:induction false} FilterDistinct<T(!new)>(s: seq<T>, p: T -> bool)
    requires Distinct(s)
    ensures Distinct(Filter(s, p))
    decreases |s|
  {
    if |s| > 0 {
      FilterDistinct(DropLast(s), p);
    }
  }

  /** Deduplicating a sequence that has no repeats only drops what was seen. */
  lemma {:induction false} FreshOfDistinct<T(!new)>(s: seq<T>, seen: set<T>)
    requires Distinct(s)
    ensures Fresh(s, seen) == Filter(s, NotIn(seen))
    decreases |s|
  {
    if |s| > 0 {
      FreshOfDistinct(DropLast(s), seen);
    }
  }

  /** Removing more elements afterwards is the same as having seen them. */
  lemma {:induction false} FilterFresh<T(!new)>(s: seq<T>, seen: set<T>, more: set<T>)
    ensures Filter(Fresh(s, seen), NotIn(more)) == Fresh(s, seen + more)
    decreases |s|
  {
    if |s| > 0 {
      FilterFresh(DropLast(s), seen, more);
      var init := Fresh(DropLast(s), seen);
      if !(Last(s) in seen || Last(s) in DropLast(s)) {
        FilterConcat(init, [Last(s)], NotIn(more));
      }
    }
  }
}
