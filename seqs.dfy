/**
 * `Array.prototype.filter` and `filter(...).length` over sequences, with the
 * facts the statistics and the dashboard sections rely on.
 */
module Seqs {

  /** The elements of `s` that satisfy `p`, in their order. */
  function Filter<T>(s: seq<T>, p: T -> bool): (r: seq<T>)
    ensures |r| <= |s|
    ensures forall i :: 0 <= i < |r| ==> p(r[i])
    decreases |s|
  {
    if s == [] then [] else (if p(s[0]) then [s[0]] else []) + Filter(s[1..], p)
  }

  /** How many elements of `s` satisfy `p`. */
  function Count<T>(s: seq<T>, p: T -> bool): nat
    decreases |s|
  {
    if s == [] then 0 else (if p(s[0]) then 1 else 0) + Count(s[1..], p)
  }

  /** The filter keeps every element that satisfies `p`, nothing else, in
      order (it distributes over concatenation), and its length is the count. */
  lemma {:induction false} FilterSpec<T>(s: seq<T>, t: seq<T>, p: T -> bool)
    ensures forall x :: x in Filter(s, p) <==> x in s && p(x)
    ensures Filter(s + t, p) == Filter(s, p) + Filter(t, p)
    ensures |Filter(s, p)| == Count(s, p)
    decreases |s|
  {
    if s == [] {
      assert s + t == t;
    } else {
      FilterSpec(s[1..], t, p);
      assert (s + t)[0] == s[0];
      assert (s + t)[1..] == s[1..] + t;
      assert s == [s[0]] + s[1..];
    }
  }

  /** A count never exceeds the length. */
  lemma {:induction false} CountAtMost<T>(s: seq<T>, p: T -> bool)
    ensures Count(s, p) <= |s|
    decreases |s|
  {
    if s != [] {
      CountAtMost(s[1..], p);
    }
  }

  /** Counting with a weaker predicate counts at least as many. */
  lemma {:induction false} CountMonotone<T>(s: seq<T>, p: T -> bool, q: T -> bool)
    requires forall x :: x in s && p(x) ==> q(x)
    ensures Count(s, p) <= Count(s, q)
    decreases |s|
  {
    if s != [] {
      CountMonotone(s[1..], p, q);
    }
  }

  /** Predicates that agree on `s` count the same. */
  lemma {:induction false} CountSame<T>(s: seq<T>, p: T -> bool, q: T -> bool)
    requires forall x :: x in s ==> p(x) == q(x)
    ensures Count(s, p) == Count(s, q)
    decreases |s|
  {
    if s != [] {
      CountSame(s[1..], p, q);
    }
  }

  /** Counting the elements that satisfy one of two exclusive predicates
      adds their counts; together they never exceed the length. */
  lemma {:induction false} CountDisjoint<T>(s: seq<T>, p: T -> bool, q: T -> bool, either: T -> bool)
    requires forall x :: x in s ==> !(p(x) && q(x)) && (either(x) == (p(x) || q(x)))
    ensures Count(s, p) + Count(s, q) == Count(s, either) <= |s|
    decreases |s|
  {
    if s != [] {
      CountDisjoint(s[1..], p, q, either);
    }
  }

  /** The elements satisfying `p` split into those that also satisfy `q` and
      those that do not. */
  lemma {:induction false} CountSplit<T>(s: seq<T>, p: T -> bool, both: T -> bool, only: T -> bool, q: T -> bool)
    requires forall x :: x in s ==> both(x) == (p(x) && q(x)) && only(x) == (p(x) && !q(x))
    ensures Count(s, p) == Count(s, both) + Count(s, only)
    decreases |s|
  {
    if s != [] {
      CountSplit(s[1..], p, both, only, q);
    }
  }

  /** Every element satisfies `p` exactly when all of them are counted. */
  lemma {:induction false} CountAll<T>(s: seq<T>, p: T -> bool)
    ensures Count(s, p) == |s| <==> forall x :: x in s ==> p(x)
    decreases |s|
  {
    if s != [] {
      CountAll(s[1..], p);
      CountAtMost(s[1..], p);
      assert forall x :: x in s <==> x == s[0] || x in s[1..];
    }
  }

  /** No element satisfies `p` exactly when none is counted. */
  lemma {:induction false} CountNone<T>(s: seq<T>, p: T -> bool)
    ensures Count(s, p) == 0 <==> forall x :: x in s ==> !p(x)
    decreases |s|
  {
    if s != [] {
      CountNone(s[1..], p);
      assert forall x :: x in s <==> x == s[0] || x in s[1..];
    }
  }

  /** Filtering twice is filtering once by the conjunction. */
  lemma {:induction false} FilterFilter<T>(s: seq<T>, p: T -> bool, q: T -> bool, both: T -> bool)
    requires forall x :: x in s ==> both(x) == (p(x) && q(x))
    ensures Filter(Filter(s, p), q) == Filter(s, both)
    decreases |s|
  {
    if s != [] {
      FilterFilter(s[1..], p, q, both);
      var head := if p(s[0]) then [s[0]] else [];
      FilterSpec(head, Filter(s[1..], p), q);
    }
  }
}
