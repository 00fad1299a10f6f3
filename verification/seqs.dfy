/**
 * Order-preserving filters over sequences: `Array.prototype.filter` with a
 * predicate on the element, and the same filter keyed on the position.
 */
module Seqs {

  /** `xs.filter(keep)`: the elements `keep` accepts, in their original order. */
  function Filter<T>(xs: seq<T>, keep: T -> bool): (r: seq<T>)
    ensures |r| <= |xs|
    ensures forall i :: 0 <= i < |r| ==> r[i] in xs && keep(r[i])
    ensures forall i :: 0 <= i < |xs| && keep(xs[i]) ==> xs[i] in r
  {
    if xs == [] then [] else (if keep(xs[0]) then [xs[0]] else []) + Filter(xs[1..], keep)
  }

  /** `a` can be obtained from `b` by deleting elements (order is kept). */
  ghost predicate IsSubsequence<T>(a: seq<T>, b: seq<T>)
    decreases |b|
  {
    a == [] || (b != [] && ((a[0] == b[0] && IsSubsequence(a[1..], b[1..])) || IsSubsequence(a, b[1..])))
  }

  /** Element `m` of a subsequence sits at a position of `b` no earlier than `m`. */
  lemma {:induction false} SubsequencePosition<T>(a: seq<T>, b: seq<T>, m: int)
    requires IsSubsequence(a, b)
    requires 0 <= m < |a|
    ensures exists j :: m <= j < |b| && b[j] == a[m]
    decreases |b|
  {
    if a[0] == b[0] && IsSubsequence(a[1..], b[1..]) {
      if m > 0 {
        SubsequencePosition(a[1..], b[1..], m - 1);
        var j :| m - 1 <= j < |b[1..]| && b[1..][j] == a[1..][m - 1];
        assert b[j + 1] == a[m];
      } else {
        assert b[0] == a[0];
      }
    } else {
      SubsequencePosition(a, b[1..], m);
      var j :| m <= j < |b[1..]| && b[1..][j] == a[m];
      assert b[j + 1] == a[m];
    }
  }

  /** A filter keeps each accepted value as often as it occurs, and drops every other value. */
  lemma {:induction false} FilterCount<T>(xs: seq<T>, keep: T -> bool)
    ensures forall x :: multiset(Filter(xs, keep))[x] == if keep(x) then multiset(xs)[x] else 0
  {
    if xs != [] {
      FilterCount(xs[1..], keep);
      assert xs == [xs[0]] + xs[1..];
    }
  }


  /** A filter keeps the relative order of what it keeps. */
  lemma {:induction false} FilterIsSubsequence<T>(xs: seq<T>, keep: T -> bool)
    ensures IsSubsequence(Filter(xs, keep), xs)
  {
    if xs != [] {
      FilterIsSubsequence(xs[1..], keep);
      if keep(xs[0]) {
        assert Filter(xs, keep) == [xs[0]] + Filter(xs[1..], keep);
      } else {
        assert Filter(xs, keep) == Filter(xs[1..], keep);
      }
    }
  }

  /** Filtering a concatenation filters each part. */
  lemma {:induction false} FilterAppend<T>(xs: seq<T>, ys: seq<T>, keep: T -> bool)
    ensures Filter(xs + ys, keep) == Filter(xs, keep) + Filter(ys, keep)
  {
    if xs == [] {
      assert xs + ys == ys;
    } else {
      var head := if keep(xs[0]) then [xs[0]] else [];
      assert (xs + ys)[0] == xs[0];
      assert (xs + ys)[1..] == xs[1..] + ys;
      FilterAppend(xs[1..], ys, keep);
      calc {
        Filter(xs + ys, keep);
        head + Filter(xs[1..] + ys, keep);
        head + (Filter(xs[1..], keep) + Filter(ys, keep));
        (head + Filter(xs[1..], keep)) + Filter(ys, keep);
      }
    }
  }

  /** A filter that accepts every element changes nothing. */
  lemma {:induction false} FilterKeepsAll<T>(xs: seq<T>, keep: T -> bool)
    ensures (forall x :: x in xs ==> keep(x)) ==> Filter(xs, keep) == xs
  {
    if xs != [] {
      FilterKeepsAll(xs[1..], keep);
      assert xs == [xs[0]] + xs[1..];
    }
  }

  /** Two predicates that agree on every element give the same filter. */
  lemma {:induction false} FilterCongruent<T>(xs: seq<T>, keep: T -> bool, keep': T -> bool)
    requires forall x :: x in xs ==> keep(x) == keep'(x)
    ensures Filter(xs, keep) == Filter(xs, keep')
  {
    if xs != [] {
      FilterCongruent(xs[1..], keep, keep');
    }
  }

  /** `xs.filter((_, i) => i !== index)`: every element whose position is not `index`. */
  function DropIndex<T>(xs: seq<T>, index: int): (r: seq<T>)
    ensures |r| == if 0 <= index < |xs| then |xs| - 1 else |xs|
  {
    if xs == [] then [] else (if index == 0 then [] else [xs[0]]) + DropIndex(xs[1..], index - 1)
  }

  /** Dropping a position in range removes exactly that element; any other index changes nothing. */
  lemma DropIndexSpec<T>(xs: seq<T>, index: int)
    ensures DropIndex(xs, index) == if 0 <= index < |xs| then xs[..index] + xs[index + 1..] else xs
  {
    if 0 <= index < |xs| {
      DropIndexInRange(xs, index);
    } else {
      DropIndexOutOfRange(xs, index);
    }
  }

  /** An index inside the list drops exactly that position. */
  lemma {:induction false} DropIndexInRange<T>(xs: seq<T>, index: int)
    requires 0 <= index < |xs|
    ensures DropIndex(xs, index) == xs[..index] + xs[index + 1..]
  {
    var t := xs[1..];
    if index == 0 {
      DropIndexOutOfRange(t, -1);
      assert xs[..0] + xs[1..] == t;
    } else {
      DropIndexInRange(t, index - 1);
      assert DropIndex(xs, index) == [xs[0]] + (t[..index - 1] + t[index..]);
      assert xs[..index] == [xs[0]] + t[..index - 1];
      assert xs[index + 1..] == t[index..];
    }
  }

  /** An index outside the list drops nothing. */
  lemma {:induction false} DropIndexOutOfRange<T>(xs: seq<T>, index: int)
    requires !(0 <= index < |xs|)
    ensures DropIndex(xs, index) == xs
  {
    if xs != [] {
      DropIndexOutOfRange(xs[1..], index - 1);
      assert xs == [xs[0]] + xs[1..];
    }
  }

}
