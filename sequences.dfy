/**
  Generic list operations used by every view: `Array.prototype.filter`, counting
  by `filter(...).length`, `Array.prototype.find`-style first matches and the
  insertion-ordered deduplication that `Array.from(new Set(xs))` performs.
*/
module Sequences {

  /** The elements of `s` that satisfy `p`, in their original order. */
  function Filter<T(!new)>(p: T -> bool, s: seq<T>): (r: seq<T>)
    ensures |r| <= |s|
    ensures forall x :: x in r <==> x in s && p(x)
    decreases |s|
  {
    if s == [] then []
    else if p(s[0]) then [s[0]] + Filter(p, s[1..])
    else Filter(p, s[1..])
  }

  /** `xs` is obtained from `ys` by deleting elements, keeping the order of the rest. */
  ghost predicate IsSubseq<T(!new)>(xs: seq<T>, ys: seq<T>)
    decreases |ys|
  {
    xs == [] || (ys != [] && ((xs[0] == ys[0] && IsSubseq(xs[1..], ys[1..])) || IsSubseq(xs, ys[1..])))
  }

  /** The positions of `s` whose element satisfies `p`. */
  ghost function Positions<T(!new)>(p: T -> bool, s: seq<T>): set<nat>
  {
    set i: nat | i < |s| && p(s[i])
  }

  ghost predicate NoDuplicates<T(!new)>(s: seq<T>)
  {
    forall i, j :: 0 <= i < j < |s| ==> s[i] != s[j]
  }

  lemma {:induction false} SubseqLength<T(!new)>(xs: seq<T>, ys: seq<T>)
    requires IsSubseq(xs, ys)
    ensures |xs| <= |ys|
    decreases |ys|
  {
    if xs != [] {
      if xs[0] == ys[0] && IsSubseq(xs[1..], ys[1..]) {
        SubseqLength(xs[1..], ys[1..]);
      } else {
        SubseqLength(xs, ys[1..]);
      }
    }
  }

  lemma SubseqCons<T(!new)>(xs: seq<T>, y: T, ys: seq<T>)
    requires IsSubseq(xs, ys)
    ensures IsSubseq(xs, [y] + ys)
  {
    assert ([y] + ys)[1..] == ys;
  }

  lemma SubseqBothCons<T(!new)>(x: T, xs: seq<T>, ys: seq<T>)
    requires IsSubseq(xs, ys)
    ensures IsSubseq([x] + xs, [x] + ys)
  {
    assert ([x] + xs)[1..] == xs;
    assert ([x] + ys)[1..] == ys;
  }

  /** A filter keeps its survivors in their original relative order. */
  lemma {:induction false} FilterIsSubseq<T(!new)>(p: T -> bool, s: seq<T>)
    ensures IsSubseq(Filter(p, s), s)
    decreases |s|
  {
    if s != [] {
      FilterIsSubseq(p, s[1..]);
      assert s == [s[0]] + s[1..];
      if p(s[0]) {
        SubseqBothCons(s[0], Filter(p, s[1..]), s[1..]);
      } else {
        SubseqCons(Filter(p, s[1..]), s[0], s[1..]);
      }
    }
  }

  /** Filtering with a weaker predicate keeps everything a stronger one keeps, in the same order. */
  lemma {:induction false} FilterWeakerIsSubseq<T(!new)>(p: T -> bool, q: T -> bool, s: seq<T>)
    requires forall x :: x in s ==> (p(x) ==> q(x))
    ensures IsSubseq(Filter(p, s), Filter(q, s))
    ensures |Filter(p, s)| <= |Filter(q, s)|
    decreases |s|
  {
    if s != [] {
      assert forall x :: x in s[1..] ==> x in s;
      FilterWeakerIsSubseq(p, q, s[1..]);
      if p(s[0]) {
        SubseqBothCons(s[0], Filter(p, s[1..]), Filter(q, s[1..]));
      } else if q(s[0]) {
        SubseqCons(Filter(p, s[1..]), s[0], Filter(q, s[1..]));
      }
    }
    SubseqLength(Filter(p, s), Filter(q, s));
  }

  /** A filter that every element passes changes nothing. */
  lemma {:induction false} FilterAllPass<T(!new)>(p: T -> bool, s: seq<T>)
    ensures (forall x :: x in s ==> p(x)) ==> Filter(p, s) == s
    decreases |s|
  {
    if s != [] && forall x :: x in s ==> p(x) {
      assert forall x :: x in s[1..] ==> x in s;
      FilterAllPass(p, s[1..]);
      assert [s[0]] + s[1..] == s;
    }
  }

  /** A filter that no element passes yields the empty list. */
  lemma FilterNonePass<T(!new)>(p: T -> bool, s: seq<T>)
    ensures (forall x :: x in s ==> !p(x)) ==> Filter(p, s) == []
  {
    if forall x :: x in s ==> !p(x) {
      var r := Filter(p, s);
      if r != [] {
        assert r[0] in r;
      }
    }
  }

  lemma FilterIdempotent<T(!new)>(p: T -> bool, s: seq<T>)
    ensures Filter(p, Filter(p, s)) == Filter(p, s)
  {
    FilterAllPass(p, Filter(p, s));
  }

  /** Two predicates that agree on every element of `s` filter it alike. */
  lemma {:induction false} FilterCongruent<T(!new)>(p: T -> bool, q: T -> bool, s: seq<T>)
    requires forall x :: x in s ==> p(x) == q(x)
    ensures Filter(p, s) == Filter(q, s)
    decreases |s|
  {
    if s != [] {
      assert forall x :: x in s[1..] ==> x in s;
      FilterCongruent(p, q, s[1..]);
    }
  }

  lemma {:induction false} FilterAppend<T(!new)>(p: T -> bool, a: seq<T>, b: seq<T>)
    ensures Filter(p, a + b) == Filter(p, a) + Filter(p, b)
    decreases |a|
  {
    if a == [] {
      assert a + b == b;
    } else {
      assert (a + b)[0] == a[0];
      assert (a + b)[1..] == a[1..] + b;
      FilterAppend(p, a[1..], b);
    }
  }

  /** A filter keeps every occurrence of an element that passes and none of one that fails. */
  lemma {:induction false} FilterMultiplicity<T(!new)>(p: T -> bool, s: seq<T>, x: T)
    ensures multiset(Filter(p, s))[x] == if p(x) then multiset(s)[x] else 0
    decreases |s|
  {
    if s != [] {
      FilterMultiplicity(p, s[1..], x);
      assert s == [s[0]] + s[1..];
      assert multiset(s) == multiset{s[0]} + multiset(s[1..]);
      if p(s[0]) {
        assert multiset(Filter(p, s)) == multiset{s[0]} + multiset(Filter(p, s[1..]));
      }
    }
  }

  lemma FilterMultiset<T(!new)>(p: T -> bool, s: seq<T>)
    ensures forall x :: multiset(Filter(p, s))[x] == if p(x) then multiset(s)[x] else 0
  {
    forall x
      ensures multiset(Filter(p, s))[x] == if p(x) then multiset(s)[x] else 0
    {
      FilterMultiplicity(p, s, x);
    }
  }

  /** Appending one element adds its position exactly when it satisfies `p`. */
  lemma PositionsSnoc<T(!new)>(p: T -> bool, init: seq<T>, last: T)
    ensures Positions(p, init + [last]) == Positions(p, init) + (if p(last) then {|init|} else {})
    ensures |init| !in Positions(p, init)
  {
    var s := init + [last];
    forall i: nat | i < |init|
      ensures s[i] == init[i]
    {
    }
  }

  /** `filter(p).length` is the number of positions whose element satisfies `p`. */
  lemma {:induction false} FilterLengthIsCount<T(!new)>(p: T -> bool, s: seq<T>)
    ensures |Filter(p, s)| == |Positions(p, s)|
    decreases |s|
  {
    if s == [] {
      assert Positions(p, s) == {};
    } else {
      var init, last := s[..|s| - 1], s[|s| - 1];
      assert s == init + [last];
      FilterLengthIsCount(p, init);
      FilterAppend(p, init, [last]);
      assert Filter(p, [last]) == if p(last) then [last] else [];
      PositionsSnoc(p, init, last);
    }
  }

  /** Counts of two predicates that never hold together add up to at most the length,
      and to exactly the length when one of them holds for every element. */
  lemma {:induction false} DisjointFilterLengths<T(!new)>(p: T -> bool, q: T -> bool, s: seq<T>)
    requires forall x :: x in s ==> !(p(x) && q(x))
    ensures |Filter(p, s)| + |Filter(q, s)| <= |s|
    ensures (forall x :: x in s ==> p(x) || q(x)) ==> |Filter(p, s)| + |Filter(q, s)| == |s|
    decreases |s|
  {
    if s != [] {
      assert forall x :: x in s[1..] ==> x in s;
      DisjointFilterLengths(p, q, s[1..]);
    }
  }

  /** The same for three pairwise exclusive predicates. */
  lemma {:induction false} DisjointFilterLengths3<T(!new)>(p: T -> bool, q: T -> bool, o: T -> bool, s: seq<T>)
    requires forall x :: x in s ==> !(p(x) && q(x)) && !(p(x) && o(x)) && !(q(x) && o(x))
    ensures |Filter(p, s)| + |Filter(q, s)| + |Filter(o, s)| <= |s|
    ensures (forall x :: x in s ==> p(x) || q(x) || o(x)) ==>
              |Filter(p, s)| + |Filter(q, s)| + |Filter(o, s)| == |s|
    decreases |s|
  {
    if s != [] {
      assert forall x :: x in s[1..] ==> x in s;
      DisjointFilterLengths3(p, q, o, s[1..]);
    }
  }

  /** The position of the first occurrence of `x` in `s`. */
  function FirstIndex<T(==,!new)>(s: seq<T>, x: T): (k: nat)
    requires x in s
    ensures k < |s| && s[k] == x
    ensures forall j :: 0 <= j < k ==> s[j] != x
    decreases |s|
  {
    if s[0] == x then 0 else 1 + FirstIndex(s[1..], x)
  }

  /** Extending a list does not move the first occurrence of an element it already held. */
  lemma FirstIndexOfPrefix<T(!new)>(init: seq<T>, s: seq<T>, x: T)
    requires init <= s && x in init
    ensures FirstIndex(s, x) == FirstIndex(init, x)
  {
    var a, b := FirstIndex(s, x), FirstIndex(init, x);
    assert s[b] == x;
  }

  /** The distinct elements of `s` in order of first occurrence: a set built by inserting
      the elements of `s` one after the other, read back in insertion order. */
  function Distinct<T(==,!new)>(s: seq<T>): (r: seq<T>)
    ensures NoDuplicates(r)
    ensures forall x :: x in r <==> x in s
    decreases |s|
  {
    if s == [] then []
    else
      var d := Distinct(s[..|s| - 1]);
      assert s == s[..|s| - 1] + [s[|s| - 1]];
      if s[|s| - 1] in d then d else d + [s[|s| - 1]]
  }

  /** `Distinct` lists the elements in the order in which they first occur in `s`. */
  lemma {:induction false} DistinctInFirstOccurrenceOrder<T(!new)>(s: seq<T>)
    ensures forall i, j :: 0 <= i < j < |Distinct(s)| ==>
              FirstIndex(s, Distinct(s)[i]) < FirstIndex(s, Distinct(s)[j])
    decreases |s|
  {
    if s != [] {
      var init, last := s[..|s| - 1], s[|s| - 1];
      var d := Distinct(init);
      DistinctInFirstOccurrenceOrder(init);
      assert s == init + [last];
      forall y | y in init
        ensures FirstIndex(s, y) == FirstIndex(init, y) < |init|
      {
        FirstIndexOfPrefix(init, s, y);
      }
      if last !in d {
        assert Distinct(s) == d + [last];
        assert FirstIndex(s, last) == |init|;
      }
    }
  }
}
