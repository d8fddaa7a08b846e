/** Order-preserving filtering of sequences, the shape shared by every list
    comprehension `[x for x in xs if keep(x)]` of the application. */
module Sequences {

  /** `a` is obtained from `b` by deleting elements, the rest keeping their order. */
  predicate IsSubsequence<T(==)>(a: seq<T>, b: seq<T>)
    decreases |b|
  {
    if a == [] then true
    else if b == [] then false
    else (a[0] == b[0] && IsSubsequence(a[1..], b[1..])) || IsSubsequence(a, b[1..])
  }

  /** Some index at which `x` occurs in `s`. */
  function IndexIn<T(==)>(x: T, s: seq<T>): (i: nat)
    requires x in s
    ensures i < |s| && s[i] == x
  {
    if s[0] == x then 0 else 1 + IndexIn(x, s[1..])
  }

  /** The elements of `s` satisfying `keep`, in order. The three postconditions together
      determine the result: it is a subsequence, and it holds every kept value exactly as
      often as `s` does and nothing else. */
  function Filter<T(==,!new)>(keep: T -> bool, s: seq<T>): (r: seq<T>)
    ensures IsSubsequence(r, s)
    ensures forall x :: x in r <==> x in s && keep(x)
    ensures forall x :: multiset(r)[x] == if keep(x) then multiset(s)[x] else 0
    decreases |s|
  {
    if s == [] then []
    else
      var tail := Filter(keep, s[1..]);
      assert s == [s[0]] + s[1..];
      assert multiset(s) == multiset{s[0]} + multiset(s[1..]);
      if keep(s[0]) then
        var r := [s[0]] + tail;
        assert r[1..] == tail;
        assert multiset(r) == multiset{s[0]} + multiset(tail);
        r
      else
        tail
  }

  /** Filtering a sequence extended by one element filters that element on its own. */
  lemma {:induction false} FilterSnoc<T(!new)>(keep: T -> bool, s: seq<T>, x: T)
    ensures Filter(keep, s + [x]) == Filter(keep, s) + (if keep(x) then [x] else [])
    decreases |s|
  {
    if s == [] {
      assert s + [x] == [x];
    } else {
      assert (s + [x])[1..] == s[1..] + [x];
      FilterSnoc(keep, s[1..], x);
    }
  }

  /** The list comprehension written as a loop: skip each element the condition
      rejects, append the rest. */
  method KeepWhere<T(!new)>(keep: T -> bool, s: seq<T>) returns (r: seq<T>)
    ensures r == Filter(keep, s)
  {
    r := [];
    for i := 0 to |s|
      invariant r == Filter(keep, s[..i])
    {
      var x := s[i];
      assert s[..i + 1] == s[..i] + [x];
      FilterSnoc(keep, s[..i], x);
      if !keep(x) {
        continue;
      }
      r := r + [x];
    }
    assert s[..|s|] == s;
  }

  /** Nothing is dropped from a sequence whose every element is kept. */
  lemma {:induction false} FilterKeepsAll<T(!new)>(keep: T -> bool, s: seq<T>)
    requires forall i :: 0 <= i < |s| ==> keep(s[i])
    ensures Filter(keep, s) == s
    decreases |s|
  {
    if s != [] {
      FilterKeepsAll(keep, s[1..]);
    }
  }

  /** A second pass of the same filter changes nothing. */
  lemma FilterIdempotent<T(!new)>(keep: T -> bool, s: seq<T>)
    ensures Filter(keep, Filter(keep, s)) == Filter(keep, s)
  {
    var r := Filter(keep, s);
    forall i | 0 <= i < |r|
      ensures keep(r[i])
    {
      assert r[i] in r;
    }
    FilterKeepsAll(keep, r);
  }

  /** Sum of a natural-number measure over a sequence. */
  function SumOf<T>(measure: T -> nat, s: seq<T>): nat
    decreases |s|
  {
    if s == [] then 0 else measure(s[0]) + SumOf(measure, s[1..])
  }

  /** Dropping only elements whose measure is zero leaves the sum unchanged. */
  lemma {:induction false} SumOfFilter<T(!new)>(measure: T -> nat, keep: T -> bool, s: seq<T>)
    requires forall x :: !keep(x) ==> measure(x) == 0
    ensures SumOf(measure, Filter(keep, s)) == SumOf(measure, s)
    decreases |s|
  {
    if s != [] {
      SumOfFilter(measure, keep, s[1..]);
      var tail := Filter(keep, s[1..]);
      if keep(s[0]) {
        assert Filter(keep, s) == [s[0]] + tail;
        assert ([s[0]] + tail)[1..] == tail;
      } else {
        assert Filter(keep, s) == tail;
      }
    }
  }
}
