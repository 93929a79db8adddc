/**
  The array idioms the hooks are built from — `[x, ...xs].slice(0, n)`,
  `xs.filter(p)` and `xs.map(x => p(x) ? f(x) : x)` — as functions on
  sequences, with what each keeps and in which order.
 */
module Lists {

  /** `xs.slice(0, n)`. */
  function Take<T>(xs: seq<T>, n: nat): (r: seq<T>)
    ensures |r| == if n < |xs| then n else |xs|
    ensures forall i :: 0 <= i < |r| ==> r[i] == xs[i]
  {
    if n < |xs| then xs[..n] else xs
  }

  /** `[x, ...xs].slice(0, cap)`: the newest element first, at most `cap` kept. */
  function PrependCapped<T>(x: T, xs: seq<T>, cap: nat): (r: seq<T>)
    ensures |r| == if |xs| + 1 < cap then |xs| + 1 else cap
    ensures |r| <= cap
    ensures cap >= 1 ==> r[0] == x
    ensures forall i :: 1 <= i < |r| ==> r[i] == xs[i - 1]
  {
    Take([x] + xs, cap)
  }

  /** Below the cap nothing is dropped: the result is exactly `[x] + xs`. */
  lemma PrependBelowCap<T>(x: T, xs: seq<T>, cap: nat)
    requires |xs| < cap
    ensures PrependCapped(x, xs, cap) == [x] + xs
  {
  }

  /** `xs.filter(keep)`. */
  function Filter<T>(xs: seq<T>, keep: T -> bool): (r: seq<T>)
    ensures |r| <= |xs|
    ensures forall i :: 0 <= i < |r| ==> keep(r[i])
  {
    if xs == [] then []
    else
      assert xs == [xs[0]] + xs[1..];
      (if keep(xs[0]) then [xs[0]] else []) + Filter(xs[1..], keep)
  }

  /** Filtering with a predicate every element meets changes nothing. */
  lemma {:induction false} FilterKeepsAll<T>(xs: seq<T>, keep: T -> bool)
    requires forall i :: 0 <= i < |xs| ==> keep(xs[i])
    ensures Filter(xs, keep) == xs
    decreases |xs|
  {
    if xs != [] {
      FilterKeepsAll(xs[1..], keep);
    }
  }

  /** Filtering out only a last element the predicate rejects gives back the
      elements before it. */
  lemma {:induction false} FilterDropsLast<T>(xs: seq<T>, x: T, keep: T -> bool)
    requires forall i :: 0 <= i < |xs| ==> keep(xs[i])
    requires !keep(x)
    ensures Filter(xs + [x], keep) == xs
    decreases |xs|
  {
    if xs == [] {
      assert Filter([x], keep) == [] + Filter([x][1..], keep);
    } else {
      assert (xs + [x])[1..] == xs[1..] + [x];
      FilterDropsLast(xs[1..], x, keep);
      assert xs == [xs[0]] + xs[1..];
    }
  }

  /** `a` is `b` with some elements deleted and the rest in their order. */
  predicate IsSubsequence<T(==)>(a: seq<T>, b: seq<T>)
    decreases |b|
  {
    if a == [] then true
    else if b == [] then false
    else if a[0] == b[0] then IsSubsequence(a[1..], b[1..])
    else IsSubsequence(a, b[1..])
  }

  /** Filtering keeps the relative order of what it keeps. */
  lemma {:induction false} FilterIsSubsequence<T>(xs: seq<T>, keep: T -> bool)
    ensures IsSubsequence(Filter(xs, keep), xs)
    decreases |xs|
  {
    if xs != [] {
      FilterIsSubsequence(xs[1..], keep);
      if keep(xs[0]) {
        assert Filter(xs, keep) == [xs[0]] + Filter(xs[1..], keep);
        assert ([xs[0]] + Filter(xs[1..], keep))[1..] == Filter(xs[1..], keep);
      } else {
        assert Filter(xs, keep) == Filter(xs[1..], keep);
        SubsequenceOfTail(Filter(xs[1..], keep), xs);
      }
    }
  }

  /** A subsequence of the tail is a subsequence of the whole. */
  lemma {:induction false} SubsequenceOfTail<T>(a: seq<T>, b: seq<T>)
    requires b != [] && IsSubsequence(a, b[1..])
    ensures IsSubsequence(a, b)
    decreases |b|, |a|, 1
  {
    if a != [] && a[0] == b[0] {
      SubsequenceSkip(a, b[1..]);
    }
  }

  /** Dropping the head of a subsequence leaves a subsequence. */
  lemma {:induction false} SubsequenceSkip<T>(a: seq<T>, c: seq<T>)
    requires a != [] && IsSubsequence(a, c)
    ensures IsSubsequence(a[1..], c)
    decreases |c| + 1, |a|, 0
  {
    if c != [] {
      if a[0] == c[0] {
        SubsequenceOfTail(a[1..], c);
      } else {
        SubsequenceSkip(a, c[1..]);
        SubsequenceOfTail(a[1..], c);
      }
    }
  }

  /** Every sequence is a subsequence of itself. */
  lemma {:induction false} SubsequenceRefl<T>(a: seq<T>)
    ensures IsSubsequence(a, a)
    decreases |a|
  {
    if a != [] {
      SubsequenceRefl(a[1..]);
    }
  }

  /** A subsequence of a subsequence is a subsequence. */
  lemma {:induction false} SubsequenceTrans<T>(a: seq<T>, b: seq<T>, c: seq<T>)
    requires IsSubsequence(a, b) && IsSubsequence(b, c)
    ensures IsSubsequence(a, c)
    decreases |c|
  {
    if a != [] {
      assert b != [] && c != [];
      if b[0] == c[0] {
        if a[0] == b[0] {
          SubsequenceTrans(a[1..], b[1..], c[1..]);
        } else {
          SubsequenceTrans(a, b[1..], c[1..]);
          SubsequenceOfTail(a, c);
        }
      } else {
        SubsequenceTrans(a, b, c[1..]);
        SubsequenceOfTail(a, c);
      }
    }
  }

  /** Dropping a prefix leaves a subsequence. */
  lemma {:induction false} SuffixIsSubsequence<T>(a: seq<T>, n: nat)
    requires n <= |a|
    ensures IsSubsequence(a[n..], a)
    decreases n
  {
    if n == 0 {
      SubsequenceRefl(a);
    } else {
      SuffixIsSubsequence(a[1..], n - 1);
      assert a[1..][n - 1..] == a[n..];
      SubsequenceOfTail(a[n..], a);
    }
  }

  /** Dropping a suffix leaves a subsequence. */
  lemma {:induction false} PrefixIsSubsequence<T>(a: seq<T>, n: nat)
    requires n <= |a|
    ensures IsSubsequence(a[..n], a)
    decreases n
  {
    if n > 0 {
      PrefixIsSubsequence(a[1..], n - 1);
      assert a[..n][1..] == a[1..][..n - 1];
    }
  }

  /** Filtering by a predicate and by its negation splits `xs`: together the
      two results hold every element exactly as often as `xs` does. */
  lemma {:induction false} FilterPartition<T>(xs: seq<T>, keep: T -> bool, drop: T -> bool)
    requires forall x :: drop(x) <==> !keep(x)
    ensures multiset(Filter(xs, keep)) + multiset(Filter(xs, drop)) == multiset(xs)
    decreases |xs|
  {
    if xs != [] {
      FilterPartition(xs[1..], keep, drop);
      var k := Filter(xs[1..], keep);
      var d := Filter(xs[1..], drop);
      if keep(xs[0]) {
        assert Filter(xs, keep) == [xs[0]] + k;
        assert Filter(xs, drop) == d;
      } else {
        assert Filter(xs, keep) == k;
        assert Filter(xs, drop) == [xs[0]] + d;
      }
      assert xs == [xs[0]] + xs[1..];
      assert multiset(xs) == multiset([xs[0]]) + multiset(xs[1..]);
    }
  }

  /** An element the predicate accepts is kept, one it rejects is dropped. */
  lemma {:induction false} FilterMembership<T>(xs: seq<T>, keep: T -> bool, x: T)
    ensures x in Filter(xs, keep) <==> x in xs && keep(x)
    decreases |xs|
  {
    if xs != [] {
      FilterMembership(xs[1..], keep, x);
      assert xs == [xs[0]] + xs[1..];
    }
  }

  /** `xs.map(x => sel(x) ? f(x) : x)`. */
  function MapWhere<T>(xs: seq<T>, sel: T -> bool, f: T -> T): (r: seq<T>)
    ensures |r| == |xs|
    ensures forall i :: 0 <= i < |xs| && !sel(xs[i]) ==> r[i] == xs[i]
    ensures forall i :: 0 <= i < |xs| && sel(xs[i]) ==> r[i] == f(xs[i])
  {
    if xs == [] then []
    else [if sel(xs[0]) then f(xs[0]) else xs[0]] + MapWhere(xs[1..], sel, f)
  }

  /** When nothing is selected, the map changes nothing. */
  lemma MapWhereNoneSelected<T>(xs: seq<T>, sel: T -> bool, f: T -> T)
    requires forall i :: 0 <= i < |xs| ==> !sel(xs[i])
    ensures MapWhere(xs, sel, f) == xs
  {
  }
}
