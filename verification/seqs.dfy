/**
  Generic sequence helpers shared by the three panels: the `Array.prototype.filter`
  used for every derived count and for removing applied fixes, and the facts about
  it that the panels' lemmas rely on.
 */
module Seqs {

  /** 1 when `b` holds, 0 otherwise. */
  function Ind(b: bool): nat
  {
    if b then 1 else 0
  }

  /** The elements of `s` that satisfy `p`, in their original order. */
  function Filter<T>(s: seq<T>, p: T -> bool): (r: seq<T>)
    ensures |r| <= |s|
    ensures forall i :: 0 <= i < |r| ==> r[i] in s && p(r[i])
    ensures forall i :: 0 <= i < |s| && p(s[i]) ==> s[i] in r
    decreases |s|
  {
    if |s| == 0 then []
    else
      assert s == [s[0]] + s[1..];
      if p(s[0]) then [s[0]] + Filter(s[1..], p) else Filter(s[1..], p)
  }

  /** How many elements of `s` satisfy `p` (the `filter(..).length` idiom). */
  function Count<T>(s: seq<T>, p: T -> bool): nat
  {
    |Filter(s, p)|
  }

  /** The count over a non-empty list is the head's indicator plus the count over the tail. */
  lemma CountCons<T>(x: T, xs: seq<T>, p: T -> bool)
    ensures Count([x] + xs, p) == Ind(p(x)) + Count(xs, p)
  {
    assert ([x] + xs)[1..] == xs;
  }

  /** The count is zero exactly when no element satisfies `p`. */
  lemma CountZero<T>(s: seq<T>, p: T -> bool)
    ensures Count(s, p) == 0 <==> forall i :: 0 <= i < |s| ==> !p(s[i])
  {
    if forall i :: 0 <= i < |s| ==> !p(s[i]) {
      FilterDropsAll(s, p);
    }
  }

  /** Filtering distributes over concatenation; in particular it keeps the order of the survivors. */
  lemma {:induction false} FilterAppend<T>(a: seq<T>, b: seq<T>, p: T -> bool)
    ensures Filter(a + b, p) == Filter(a, p) + Filter(b, p)
    decreases |a|
  {
    if |a| == 0 {
      assert a + b == b;
    } else {
      assert (a + b)[0] == a[0];
      assert (a + b)[1..] == a[1..] + b;
      FilterAppend(a[1..], b, p);
    }
  }

  /** A filter that accepts every element returns the sequence unchanged. */
  lemma {:induction false} FilterKeepsAll<T>(s: seq<T>, p: T -> bool)
    requires forall i :: 0 <= i < |s| ==> p(s[i])
    ensures Filter(s, p) == s
    decreases |s|
  {
    if |s| > 0 {
      FilterKeepsAll(s[1..], p);
    }
  }

  /** A filter that rejects every element returns the empty sequence. */
  lemma {:induction false} FilterDropsAll<T>(s: seq<T>, p: T -> bool)
    requires forall i :: 0 <= i < |s| ==> !p(s[i])
    ensures Filter(s, p) == []
    decreases |s|
  {
    if |s| > 0 {
      FilterDropsAll(s[1..], p);
    }
  }

  /** Filtering by a predicate and by its negation splits `s` into two parts that together are exactly `s`. */
  lemma {:induction false} FilterComplement<T>(s: seq<T>, p: T -> bool, q: T -> bool)
    requires forall i :: 0 <= i < |s| ==> q(s[i]) == !p(s[i])
    ensures |Filter(s, p)| + |Filter(s, q)| == |s|
    ensures multiset(Filter(s, p)) + multiset(Filter(s, q)) == multiset(s)
    decreases |s|
  {
    if |s| > 0 {
      var t := s[1..];
      assert s == [s[0]] + t;
      FilterComplement(t, p, q);
      if p(s[0]) {
        assert Filter(s, p) == [s[0]] + Filter(t, p);
        assert Filter(s, q) == Filter(t, q);
      } else {
        assert Filter(s, p) == Filter(t, p);
        assert Filter(s, q) == [s[0]] + Filter(t, q);
      }
    }
  }

  /** Replacing one element changes the count by the difference of the two elements' indicators. */
  lemma {:induction false} CountUpdate<T>(s: seq<T>, i: nat, x: T, p: T -> bool)
    requires i < |s|
    ensures Count(s[i := x], p) + Ind(p(s[i])) == Count(s, p) + Ind(p(x))
    decreases |s|
  {
    if i > 0 {
      CountUpdate(s[1..], i - 1, x, p);
      assert s[i := x][1..] == s[1..][i - 1 := x];
    } else {
      assert s[i := x][1..] == s[1..];
    }
  }
}
