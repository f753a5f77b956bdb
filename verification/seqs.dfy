/** Order-preserving filtering and flattening of sequences, with their laws. */
module Seqs {

  /** `[x for x in xs if p(x)]` */
  function Filter<T>(xs: seq<T>, p: T -> bool): (r: seq<T>)
    ensures |r| <= |xs|
    ensures forall i :: 0 <= i < |r| ==> p(r[i])
    ensures forall i :: 0 <= i < |r| ==> r[i] in xs
    ensures forall i :: 0 <= i < |xs| && p(xs[i]) ==> xs[i] in r
  {
    if xs == [] then []
    else (if p(xs[0]) then [xs[0]] else []) + Filter(xs[1..], p)
  }

  /** `a` is obtained from `b` by deleting elements (order kept). */
  ghost predicate IsSubsequence<T>(a: seq<T>, b: seq<T>)
    decreases |b|
  {
    if a == [] then true
    else if b == [] then false
    else (a[0] == b[0] && IsSubsequence(a[1..], b[1..])) || IsSubsequence(a, b[1..])
  }

  lemma {:induction false} FilterIsSubsequence<T>(xs: seq<T>, p: T -> bool)
    ensures IsSubsequence(Filter(xs, p), xs)
  {
    if xs != [] {
      FilterIsSubsequence(xs[1..], p);
      if p(xs[0]) {
        assert ([xs[0]] + Filter(xs[1..], p))[1..] == Filter(xs[1..], p);
      } else {
        assert Filter(xs, p) == Filter(xs[1..], p);
      }
    }
  }

  /** Two predicates that agree everywhere filter alike. */
  lemma {:induction false} FilterSame<T>(xs: seq<T>, p: T -> bool, q: T -> bool)
    requires forall x :: p(x) == q(x)
    ensures Filter(xs, p) == Filter(xs, q)
  {
    if xs != [] {
      FilterSame(xs[1..], p, q);
    }
  }

  /** The first element of a filter is the first element that passes. */
  lemma {:induction false} FilterFirst<T>(xs: seq<T>, p: T -> bool, i: nat)
    requires i < |xs| && p(xs[i])
    requires forall j :: 0 <= j < i ==> !p(xs[j])
    ensures Filter(xs, p) != [] && Filter(xs, p)[0] == xs[i]
  {
    if i > 0 {
      assert forall j :: 0 <= j < i - 1 ==> xs[1..][j] == xs[j + 1];
      FilterFirst(xs[1..], p, i - 1);
      assert !p(xs[0]);
    }
  }

  lemma FilterAll<T>(xs: seq<T>, p: T -> bool)
    requires forall i :: 0 <= i < |xs| ==> p(xs[i])
    ensures Filter(xs, p) == xs
  {
    if xs != [] {
      FilterAll(xs[1..], p);
    }
  }

  lemma {:induction false} FilterConcat<T>(xs: seq<T>, ys: seq<T>, p: T -> bool)
    ensures Filter(xs + ys, p) == Filter(xs, p) + Filter(ys, p)
  {
    if xs != [] {
      var h := if p(xs[0]) then [xs[0]] else [];
      assert Filter(xs + ys, p) == h + Filter(xs[1..] + ys, p) by {
        FilterStep(xs + ys, p);
        assert (xs + ys)[0] == xs[0];
        assert (xs + ys)[1..] == xs[1..] + ys;
      }
      FilterConcat(xs[1..], ys, p);
      FilterStep(xs, p);
      AppendParts(h, Filter(xs[1..], p), Filter(ys, p));
    } else {
      assert xs + ys == ys;
    }
  }

  lemma DistinctSnoc<T>(xs: seq<T>)
    requires xs != []
    ensures var r := Distinct(xs[..|xs| - 1]);
            Distinct(xs) == if xs[|xs| - 1] in r then r else r + [xs[|xs| - 1]]
  {
  }

  lemma AppendParts<T>(m: seq<T>, xs: seq<T>, ys: seq<T>)
    ensures (m + xs) + ys == m + (xs + ys)
  {
  }

  /** A property every element of `xs` has is had by every element of any filter of `xs`. */
  lemma {:induction false} FilterPreserves<T>(xs: seq<T>, p: T -> bool, q: T -> bool)
    requires forall i :: 0 <= i < |xs| ==> q(xs[i])
    ensures forall i :: 0 <= i < |Filter(xs, p)| ==> q(Filter(xs, p)[i])
  {
    if xs != [] {
      FilterPreserves(xs[1..], p, q);
    }
  }

  /** Number of elements satisfying `p`. */
  function Count<T>(xs: seq<T>, p: T -> bool): nat {
    if xs == [] then 0 else (if p(xs[0]) then 1 else 0) + Count(xs[1..], p)
  }

  lemma {:induction false} CountIsFilterLength<T>(xs: seq<T>, p: T -> bool)
    ensures Count(xs, p) == |Filter(xs, p)|
  {
    if xs != [] {
      CountIsFilterLength(xs[1..], p);
    }
  }

  /** No element satisfies `p` exactly when the count is zero. */
  lemma {:induction false} CountZeroIff<T>(xs: seq<T>, p: T -> bool)
    ensures Count(xs, p) == 0 <==> forall i :: 0 <= i < |xs| ==> !p(xs[i])
  {
    if xs != [] {
      CountZeroIff(xs[1..], p);
      assert forall i :: 1 <= i < |xs| ==> xs[i] == xs[1..][i - 1];
    }
  }

  /** `[f(x) for x in xs]` */
  function Map<T, U>(xs: seq<T>, f: T -> U): (r: seq<U>)
    ensures |r| == |xs|
    ensures forall i :: 0 <= i < |xs| ==> r[i] == f(xs[i])
  {
    if xs == [] then [] else [f(xs[0])] + Map(xs[1..], f)
  }

  lemma FilterStep<T>(xs: seq<T>, p: T -> bool)
    requires xs != []
    ensures Filter(xs, p) == (if p(xs[0]) then [xs[0]] else []) + Filter(xs[1..], p)
  {
  }

  lemma MapStep<T, U>(xs: seq<T>, f: T -> U)
    requires xs != []
    ensures Map(xs, f) == [f(xs[0])] + Map(xs[1..], f)
  {
  }

  /** Concatenation of a sequence of sequences. */
  function Flatten<T>(xss: seq<seq<T>>): seq<T> {
    if xss == [] then [] else xss[0] + Flatten(xss[1..])
  }

  lemma {:induction false} FlattenConcat<T>(xss: seq<seq<T>>, yss: seq<seq<T>>)
    ensures Flatten(xss + yss) == Flatten(xss) + Flatten(yss)
  {
    if xss != [] {
      assert (xss + yss)[1..] == xss[1..] + yss;
      FlattenConcat(xss[1..], yss);
    } else {
      assert xss + yss == yss;
    }
  }

  /** The first `n` elements (all of them when there are fewer): `xs[:n]`. */
  function Take<T>(xs: seq<T>, n: nat): (r: seq<T>)
    ensures |r| <= n && |r| <= |xs|
    ensures |xs| <= n ==> r == xs
    ensures n <= |xs| ==> |r| == n
    ensures r == xs[..|r|]
  {
    if |xs| <= n then xs else xs[..n]
  }

  predicate NoDuplicates<T(==)>(xs: seq<T>) {
    forall i, j :: 0 <= i < j < |xs| ==> xs[i] != xs[j]
  }

  /** The elements of `xs` without repetitions, in order of first occurrence. */
  function Distinct<T(==)>(xs: seq<T>): (r: seq<T>)
    ensures forall i :: 0 <= i < |r| ==> r[i] in xs
    ensures forall i :: 0 <= i < |xs| ==> xs[i] in r
    ensures NoDuplicates(r)
    ensures |r| <= |xs|
    decreases |xs|
  {
    if xs == [] then []
    else
      var r := Distinct(xs[..|xs| - 1]);
      assert forall i :: 0 <= i < |xs| - 1 ==> xs[i] == xs[..|xs| - 1][i];
      if xs[|xs| - 1] in r then r else r + [xs[|xs| - 1]]
  }

  /** The set of elements of a sequence. */
  function Elements<T>(xs: seq<T>): set<T> {
    set x | x in xs
  }

  /** A sequence without repetitions has as many elements as its set of elements. */
  lemma {:induction false} NoDuplicatesCardinality<T>(xs: seq<T>)
    requires NoDuplicates(xs)
    ensures |Elements(xs)| == |xs|
  {
    if xs != [] {
      NoDuplicatesCardinality(xs[1..]);
      assert Elements(xs) == {xs[0]} + Elements(xs[1..]);
      assert xs[0] !in Elements(xs[1..]) by {
        forall k | 0 <= k < |xs[1..]|
          ensures xs[1..][k] != xs[0]
        {
          assert xs[1..][k] == xs[k + 1];
        }
      }
    }
  }

  /** `len(set(xs))` equals the number of distinct elements listed in first-occurrence order, which are exactly the set's. */
  lemma DistinctCardinality<T>(xs: seq<T>)
    ensures |Distinct(xs)| == |Elements(xs)|
    ensures Elements(Distinct(xs)) == Elements(xs)
  {
    NoDuplicatesCardinality(Distinct(xs));
    assert Elements(Distinct(xs)) == Elements(xs);
  }

  lemma CountSnoc<T>(xs: seq<T>, x: T, p: T -> bool)
    ensures Count(xs + [x], p) == Count(xs, p) + (if p(x) then 1 else 0)
  {
    CountIsFilterLength(xs + [x], p);
    CountIsFilterLength(xs, p);
    CountIsFilterLength([x], p);
    FilterConcat(xs, [x], p);
  }

  /** The images under `make` of the elements that pass `keep`, each with its position counted from `start`. */
  function KeepMap<T, U>(xs: seq<T>, start: nat, keep: T -> bool, make: (T, nat) -> U): (r: seq<U>)
    decreases |xs|
  {
    if xs == [] then []
    else (if keep(xs[0]) then [make(xs[0], start)] else []) + KeepMap(xs[1..], start + 1, keep, make)
  }

  lemma {:induction false} KeepMapOrigin<T, U>(xs: seq<T>, start: nat, keep: T -> bool, make: (T, nat) -> U, k: nat) returns (j: nat)
    requires k < |KeepMap(xs, start, keep, make)|
    ensures j < |xs| && keep(xs[j]) && KeepMap(xs, start, keep, make)[k] == make(xs[j], start + j)
    decreases |xs|
  {
    var h := if keep(xs[0]) then 1 else 0;
    if k < h {
      j := 0;
    } else {
      var j' := KeepMapOrigin(xs[1..], start + 1, keep, make, k - h);
      j := j' + 1;
      assert xs[1..][j'] == xs[j];
    }
  }

  /** Appending after a non-empty sequence keeps its head in front. */
  lemma ConsSplit<T>(xs: seq<T>, ys: seq<T>)
    requires xs != []
    ensures xs + ys == [xs[0]] + (xs[1..] + ys)
  {
  }

  /** Two splits of the same sequence glue into one. */
  lemma Chain<T>(s0: seq<T>, s1: seq<T>, m0: seq<T>, m1: seq<T>, t: seq<T>, x: T)
    requires s0 == [x] + s1 && s1 == m1 + t && m0 == [x] + m1
    ensures s0 == m0 + t
  {
  }
}
