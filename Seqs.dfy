/** Array built-ins the views use on lists of records: `filter`, the
    `filter(...).length` count, `find`, and `Array.from(new Set(...))`. */
module Seqs {
  import opened Wrappers

  /** `xs.filter(p)`. */
  function Filter<T>(xs: seq<T>, p: T -> bool): (r: seq<T>)
    ensures |r| <= |xs|
  {
    if xs == [] then [] else (if p(xs[0]) then [xs[0]] else []) + Filter(xs[1..], p)
  }

  /** `a` is `b` with some elements left out and the rest in their order. */
  predicate IsSubsequence<T(==)>(a: seq<T>, b: seq<T>)
  {
    if a == [] then true
    else if b == [] then false
    else if a[0] == b[0] then IsSubsequence(a[1..], b[1..])
    else IsSubsequence(a, b[1..])
  }

  /** The filtered list keeps exactly the elements that satisfy `p`, and keeps
      them in their order. */
  lemma {:induction false} FilterSpec<T>(xs: seq<T>, p: T -> bool)
    ensures IsSubsequence(Filter(xs, p), xs)
    ensures forall x :: x in Filter(xs, p) ==> x in xs && p(x)
    ensures forall x :: x in xs && p(x) ==> x in Filter(xs, p)
    ensures forall x :: multiset(Filter(xs, p))[x] == if p(x) then multiset(xs)[x] else 0
  {
    if xs != [] {
      assert xs == [xs[0]] + xs[1..];
      FilterSpec(xs[1..], p);
      var rest := Filter(xs[1..], p);
      if p(xs[0]) {
        assert ([xs[0]] + rest)[1..] == rest;
      } else {
        assert Filter(xs, p) == rest;
        if rest != [] {
          assert rest[0] in rest;
          assert rest[0] != xs[0];
        }
      }
      assert xs == [xs[0]] + xs[1..];
    }
  }

  /** The first `k` elements of a subsequence of `b` are a subsequence of `b`. */
  lemma {:induction false} SubsequencePrefix<T>(a: seq<T>, b: seq<T>, k: nat)
    requires IsSubsequence(a, b) && k <= |a|
    ensures IsSubsequence(a[..k], b)
    decreases |b|
  {
    if k > 0 {
      if a[0] == b[0] {
        assert a[..k][1..] == a[1..][..k - 1];
        SubsequencePrefix(a[1..], b[1..], k - 1);
      } else {
        SubsequencePrefix(a, b[1..], k);
      }
    }
  }

  /** A predicate that holds of every element keeps the whole list. */
  lemma {:induction false} FilterAll<T>(xs: seq<T>, p: T -> bool)
    requires forall i :: 0 <= i < |xs| ==> p(xs[i])
    ensures Filter(xs, p) == xs
  {
    if xs != [] {
      FilterAll(xs[1..], p);
    }
  }

  /** `xs.filter(p).length`. */
  function Count<T>(xs: seq<T>, p: T -> bool): nat
  {
    |Filter(xs, p)|
  }

  /** Filtering a list with one more element at the end. */
  lemma {:induction false} FilterSnoc<T>(xs: seq<T>, y: T, p: T -> bool)
    ensures Filter(xs + [y], p) == Filter(xs, p) + (if p(y) then [y] else [])
  {
    if xs == [] {
      assert [] + [y] == [y];
    } else {
      var z := xs + [y];
      assert z[0] == xs[0] && z[1..] == xs[1..] + [y];
      FilterSnoc(xs[1..], y, p);
      var head := if p(xs[0]) then [xs[0]] else [];
      var tail := if p(y) then [y] else [];
      assert Filter(z, p) == head + Filter(xs[1..] + [y], p);
      assert Filter(xs, p) == head + Filter(xs[1..], p);
      assert head + (Filter(xs[1..], p) + tail) == (head + Filter(xs[1..], p)) + tail;
    }
  }

  /** The positions of `xs` holding an element that satisfies `p`. */
  function Positions<T>(xs: seq<T>, p: T -> bool): (r: set<int>)
    ensures forall k :: k in r <==> 0 <= k < |xs| && p(xs[k])
  {
    set i | 0 <= i < |xs| && p(xs[i])
  }

  /** `xs.filter(p).length` is the number of positions of `xs` holding an
      element that satisfies `p`. */
  lemma {:induction false} CountSpec<T>(xs: seq<T>, p: T -> bool)
    ensures Count(xs, p) == |Positions(xs, p)|
    decreases |xs|
  {
    if xs != [] {
      var ys := xs[..|xs| - 1];
      var y := xs[|xs| - 1];
      assert xs == ys + [y];
      FilterSnoc(ys, y, p);
      CountSpec(ys, p);
      if p(y) {
        assert Positions(xs, p) == Positions(ys, p) + {|ys|};
      } else {
        assert Positions(xs, p) == Positions(ys, p);
      }
    }
  }

  /** Counts of two predicates that never hold together add up to at most the
      length of the list. */
  lemma {:induction false} CountDisjoint<T>(xs: seq<T>, p: T -> bool, q: T -> bool)
    requires forall i :: 0 <= i < |xs| ==> !(p(xs[i]) && q(xs[i]))
    ensures Count(xs, p) + Count(xs, q) <= |xs|
  {
    if xs != [] {
      CountDisjoint(xs[1..], p, q);
    }
  }

  /** `xs.find(p)`: the first element satisfying `p`, or nothing. */
  function Find<T>(xs: seq<T>, p: T -> bool): (r: Option<T>)
  {
    if xs == [] then None else if p(xs[0]) then Some(xs[0]) else Find(xs[1..], p)
  }

  /** `find` returns an element satisfying `p` with none before it, and misses
      exactly when no element satisfies `p`. */
  lemma {:induction false} FindSpec<T>(xs: seq<T>, p: T -> bool)
    ensures Find(xs, p).None? <==> forall i :: 0 <= i < |xs| ==> !p(xs[i])
    ensures Find(xs, p).Some? ==>
      exists k :: 0 <= k < |xs| && xs[k] == Find(xs, p).value && p(xs[k])
        && forall i :: 0 <= i < k ==> !p(xs[i])
  {
    if xs != [] && !p(xs[0]) {
      FindSpec(xs[1..], p);
      if Find(xs, p).Some? {
        var k :| 0 <= k < |xs| - 1 && xs[1..][k] == Find(xs, p).value && p(xs[1..][k])
          && forall i :: 0 <= i < k ==> !p(xs[1..][i]);
        assert forall i :: 0 <= i < k + 1 ==> !p(xs[i]) by {
          forall i | 0 <= i < k + 1 ensures !p(xs[i]) {
            if i > 0 { assert xs[i] == xs[1..][i - 1]; }
          }
        }
      }
    }
  }

  /** The index of the first occurrence of `x` in `xs`. */
  function IndexOf<T(==)>(xs: seq<T>, x: T): (k: nat)
    requires x in xs
    ensures k < |xs| && xs[k] == x && x !in xs[..k]
  {
    if xs[0] == x then 0 else 1 + IndexOf(xs[1..], x)
  }

  predicate NoDuplicates<T(==)>(xs: seq<T>)
  {
    forall i, j :: 0 <= i < j < |xs| ==> xs[i] != xs[j]
  }

  /** `Array.from(new Set(xs))`: each element once, in order of first
      appearance. */
  function Distinct<T(==)>(xs: seq<T>): (r: seq<T>)
  {
    if xs == [] then []
    else
      var r := Distinct(xs[..|xs| - 1]);
      if xs[|xs| - 1] in r then r else r + [xs[|xs| - 1]]
  }

  /** `Distinct` keeps every element of the list, adds none, repeats none, and
      lists them in the order in which they first appear. */
  lemma {:induction false} DistinctSpec<T>(xs: seq<T>)
    ensures forall x :: x in Distinct(xs) <==> x in xs
    ensures NoDuplicates(Distinct(xs))
    ensures forall i, j :: 0 <= i < j < |Distinct(xs)| ==>
      IndexOf(xs, Distinct(xs)[i]) < IndexOf(xs, Distinct(xs)[j])
  {
    if xs != [] {
      var init, last := xs[..|xs| - 1], xs[|xs| - 1];
      DistinctSpec(init);
      assert xs == init + [last];
      var r := Distinct(init);
      forall x | x in init ensures IndexOf(xs, x) == IndexOf(init, x) {
        IndexOfPrefix(init, last, x);
      }
      if last !in r {
        assert last !in init;
        IndexOfLast(init, last);
      }
    }
  }

  lemma {:induction false} IndexOfPrefix<T>(init: seq<T>, last: T, x: T)
    requires x in init
    ensures IndexOf(init + [last], x) == IndexOf(init, x)
  {
    if init[0] != x {
      assert (init + [last])[1..] == init[1..] + [last];
      IndexOfPrefix(init[1..], last, x);
    }
  }

  lemma {:induction false} IndexOfLast<T>(init: seq<T>, last: T)
    requires last !in init
    ensures IndexOf(init + [last], last) == |init|
  {
    if init != [] {
      assert (init + [last])[1..] == init[1..] + [last];
      IndexOfLast(init[1..], last);
    }
  }
}
