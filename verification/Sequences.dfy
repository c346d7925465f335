/**
 Facts about sequences that several modules share: mapping, reversing and folding, the regrouping of
 concatenations, and rearrangements as equal multisets. None of them is about the modelled code.
 */
module Sequences {
  function Map<S, T>(f: S -> T, s: seq<S>): (r: seq<T>)
    ensures |r| == |s|
    ensures forall i | 0 <= i < |s| :: r[i] == f(s[i])
  {
    seq(|s|, i requires 0 <= i < |s| => f(s[i]))
  }

  function Reverse<T>(s: seq<T>): (r: seq<T>)
    ensures |r| == |s|
    ensures forall i | 0 <= i < |s| :: r[i] == s[|s| - 1 - i]
  {
    seq(|s|, i requires 0 <= i < |s| => s[|s| - 1 - i])
  }

  lemma MapConcat<S, T>(f: S -> T, a: seq<S>, b: seq<S>)
    ensures Map(f, a + b) == Map(f, a) + Map(f, b)
  {
  }

  function Fold<S, T>(f: (S, T) -> S, s: S, ts: seq<T>): (r: S)
  {
    if ts == [] then s else f(Fold(f, s, ts[..|ts| - 1]), ts[|ts| - 1])
  }

  lemma FoldStep<S, T>(f: (S, T) -> S, s: S, ts: seq<T>)
    requires ts != []
    ensures Fold(f, s, ts) == f(Fold(f, s, ts[..|ts| - 1]), ts[|ts| - 1])
  {
  }

  lemma FoldTwo<S, T>(f: (S, T) -> S, s: S, a: T, b: T)
    ensures Fold(f, s, [a, b]) == f(f(s, a), b)
  {
    var ts := [a, b];
    assert ts[..1] == [a] && [a][..0] == [];
    FoldStep(f, s, ts);
    FoldStep(f, s, [a]);
  }

  lemma Regroup<T>(a: seq<T>, b: seq<T>, c: seq<T>)
    ensures a + b + c == a + (b + c)
  {
  }

  lemma ConsConcat<T>(a: seq<T>, b: seq<T>)
    requires a != []
    ensures a + b == [a[0]] + (a[1..] + b)
  {
  }

  function Without<T>(s: seq<T>, k: nat): (r: seq<T>)
    requires k < |s|
  {
    s[..k] + s[k + 1..]
  }

  lemma WithoutCounts<T>(s: seq<T>, k: nat)
    requires k < |s|
    ensures multiset(s) == multiset(Without(s, k)) + multiset{s[k]}
    ensures multiset(Without(s, k)) == multiset(s) - multiset{s[k]}
  {
    assert s == s[..k] + ([s[k]] + s[k + 1..]);
  }

  lemma MapWithout<S, T>(f: S -> T, s: seq<S>, k: nat)
    requires k < |s|
    ensures Map(f, Without(s, k)) == Without(Map(f, s), k)
  {
  }

  /** Mapping a rearrangement gives a rearrangement of the mapped sequence. */
  lemma {:induction false} MapPermutation<S, T>(f: S -> T, a: seq<S>, b: seq<S>)
    requires multiset(a) == multiset(b)
    ensures multiset(Map(f, a)) == multiset(Map(f, b))
  {
    if a == [] {
      assert |b| == |multiset(b)| == 0;
    } else {
      assert a[0] in multiset(b);
      var k :| 0 <= k < |b| && b[k] == a[0];
      WithoutCounts(a, 0);
      WithoutCounts(b, k);
      MapPermutation(f, Without(a, 0), Without(b, k));
      MapWithout(f, a, 0);
      MapWithout(f, b, k);
      WithoutCounts(Map(f, a), 0);
      WithoutCounts(Map(f, b), k);
    }
  }

  /** The distinct elements of a multiset, as a set. */
  function Distinct<T>(m: multiset<T>): (s: set<T>)
  {
    set x | x in m
  }

  /** The elements of a set in some order: the arbitrary iteration order of a hash map. */
  method Enumerate<T(==)>(s: set<T>) returns (r: seq<T>)
    ensures Lists(r, s)
  {
    r := [];
    var rest := s;
    while rest != {}
      invariant multiset(r) + multiset(rest) == multiset(s)
      decreases rest
    {
      var x :| x in rest;
      assert multiset(rest) == multiset(rest - {x}) + multiset{x};
      rest := rest - {x};
      r := r + [x];
    }
  }

  /** `r` holds every element of `s` once. */
  ghost predicate Lists<T>(r: seq<T>, s: set<T>) {
    multiset(r) == multiset(s)
  }

  /** Some fixed enumeration of a set, for stating results that do not depend on the order. */
  ghost function Listing<T(!new)>(s: set<T>): (r: seq<T>)
    ensures Lists(r, s)
  {
    ListingExists(s);
    var r :| Lists(r, s);
    r
  }

  lemma {:induction false} ListingExists<T>(s: set<T>)
    ensures exists r: seq<T> :: Lists(r, s)
  {
    if s == {} {
      assert Lists([], s);
    } else {
      var x :| x in s;
      ListingExists(s - {x});
      var r :| Lists(r, s - {x});
      assert multiset(s) == multiset(s - {x}) + multiset{x};
      assert Lists(r + [x], s);
    }
  }
}
