/** `Array.prototype.filter` and `map` over sequences, defined on the last element so that loops extend them. */
module Seqs {
  import opened Wrappers

  /** The elements of `s` satisfying `p`, in their original order. */
  function Filter<T(!new)>(p: T -> bool, s: seq<T>): (r: seq<T>)
    ensures |r| <= |s|
    ensures forall x :: x in r <==> x in s && p(x)
    decreases |s|
  {
    if s == [] then []
    else
      var init := s[..|s| - 1];
      assert s == init + [s[|s| - 1]];
      Filter(p, init) + (if p(s[|s| - 1]) then [s[|s| - 1]] else [])
  }

  /**
    Filtering by a predicate and by its complement splits `s`: every element
    goes to exactly one side, as often as `s` has it.
   */
  lemma {:induction false} FilterCounts<T(!new)>(p: T -> bool, q: T -> bool, s: seq<T>)
    requires forall x :: q(x) == !p(x)
    ensures multiset(Filter(p, s)) + multiset(Filter(q, s)) == multiset(s)
    decreases |s|
  {
    if s != [] {
      var init := s[..|s| - 1];
      assert s == init + [s[|s| - 1]];
      FilterCounts(p, q, init);
    }
  }

  /** Filtering a sequence extended by an element the predicate rejects changes nothing. */
  lemma FilterSkips<T(!new)>(p: T -> bool, s: seq<T>, x: T)
    requires !p(x)
    ensures Filter(p, s + [x]) == Filter(p, s)
  {
    assert (s + [x])[..|s|] == s;
  }

  /** Filtering a sequence extended by an element the predicate accepts appends it. */
  lemma FilterKeeps<T(!new)>(p: T -> bool, s: seq<T>, x: T)
    requires p(x)
    ensures Filter(p, s + [x]) == Filter(p, s) + [x]
  {
    assert (s + [x])[..|s|] == s;
  }

  /** Filtering by a narrower predicate after a wider one is filtering by the narrower one alone. */
  lemma {:induction false} FilterFilter<T(!new)>(p: T -> bool, q: T -> bool, s: seq<T>)
    requires forall x :: p(x) ==> q(x)
    ensures Filter(p, Filter(q, s)) == Filter(p, s)
    decreases |s|
  {
    if s != [] {
      var init, last := s[..|s| - 1], s[|s| - 1];
      assert s == init + [last];
      FilterFilter(p, q, init);
      if q(last) {
        FilterKeeps(q, init, last);
        if p(last) {
          FilterKeeps(p, Filter(q, init), last);
          FilterKeeps(p, init, last);
        } else {
          FilterSkips(p, Filter(q, init), last);
          FilterSkips(p, init, last);
        }
      } else {
        FilterSkips(q, init, last);
        FilterSkips(p, init, last);
      }
    }
  }

  /** Filtering keeps nothing when no element satisfies the predicate. */
  lemma {:induction false} FilterNone<T(!new)>(p: T -> bool, s: seq<T>)
    requires forall x :: x in s ==> !p(x)
    ensures Filter(p, s) == []
    decreases |s|
  {
    if s != [] {
      assert s[|s| - 1] in s;
      assert forall x :: x in s[..|s| - 1] ==> x in s;
      FilterNone(p, s[..|s| - 1]);
    }
  }

  function MapSeq<A, B>(f: A -> B, s: seq<A>): (r: seq<B>)
    ensures |r| == |s|
    ensures forall i :: 0 <= i < |s| ==> r[i] == f(s[i])
  {
    seq(|s|, i requires 0 <= i < |s| => f(s[i]))
  }

  /** Maps every element with a conversion that may fail; fails when one element's conversion does. */
  function MapAll<A, B>(f: A -> Option<B>, s: seq<A>): (r: Option<seq<B>>)
    ensures r.Some? <==> forall i :: 0 <= i < |s| ==> f(s[i]).Some?
    ensures r.Some? ==> |r.value| == |s| && forall i :: 0 <= i < |s| ==> r.value[i] == f(s[i]).value
    decreases |s|
  {
    if s == [] then Some([])
    else
      var init := s[..|s| - 1];
      match MapAll(f, init)
      case None => None
      case Some(prefix) =>
        match f(s[|s| - 1])
        case None => None
        case Some(y) => Some(prefix + [y])
  }
}
