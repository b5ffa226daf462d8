/** Sequence operations shared by several puzzles: an all-or-nothing map,
    the sum that Rust's `Iterator::sum` computes, and the reversal that moving
    crates one at a time produces. */
module Seqs {
  import opened Wrappers

  /** Applies a fallible `f` to every element, failing as a whole when any
      element fails: the shape of a Rust `map(...).collect()` whose closure
      unwraps or panics. */
  function MapAll<A, B>(xs: seq<A>, f: A -> Option<B>): (r: Option<seq<B>>)
    ensures r.Some? ==> |r.value| == |xs|
    ensures r.Some? ==> forall i :: 0 <= i < |xs| ==> f(xs[i]) == Some(r.value[i])
    ensures r.None? <==> exists i :: 0 <= i < |xs| && f(xs[i]).None?
  {
    if xs == [] then Some([])
    else
      match f(xs[0])
      case None => None
      case Some(y) =>
        match MapAll(xs[1..], f)
        case None => None
        case Some(rest) => Some([y] + rest)
  }

  /** When `f` gives `ys[i]` for every `xs[i]`, `MapAll` gives `ys`. */
  lemma MapAllSome<A, B>(xs: seq<A>, f: A -> Option<B>, ys: seq<B>)
    requires |xs| == |ys|
    requires forall i :: 0 <= i < |xs| ==> f(xs[i]) == Some(ys[i])
    ensures MapAll(xs, f) == Some(ys)
  {
    var r := MapAll(xs, f);
    assert r.Some?;
    assert forall i :: 0 <= i < |xs| ==> r.value[i] == ys[i];
    assert r.value == ys;
  }

  /** `MapAll` over two elements that both succeed. */
  lemma MapAllTwo<A, B>(a: A, b: A, f: A -> Option<B>)
    requires f(a).Some? && f(b).Some?
    ensures MapAll([a, b], f) == Some([f(a).value, f(b).value])
  {
    var r := MapAll([a, b], f);
    assert [a, b][0] == a && [a, b][1] == b;
    assert r.Some? && |r.value| == 2;
    assert f(a) == Some(r.value[0]) && f(b) == Some(r.value[1]);
    assert r.value == [r.value[0], r.value[1]];
  }

  /** `MapAll` of a sequence with one more element in front: that element's
      result, then the rest's. */
  lemma MapAllCons<A, B>(x: A, xs: seq<A>, f: A -> Option<B>)
    ensures MapAll([x] + xs, f) ==
      if f(x).Some? && MapAll(xs, f).Some? then Some([f(x).value] + MapAll(xs, f).value) else None
  {
    assert ([x] + xs)[0] == x && ([x] + xs)[1..] == xs;
  }

  /** `f` applied to every element: the shape of an infallible Rust
      `map(...)`. */
  function Map<A, B>(xs: seq<A>, f: A -> B): (r: seq<B>)
    ensures |r| == |xs| && forall i :: 0 <= i < |xs| ==> r[i] == f(xs[i])
  {
    seq(|xs|, i requires 0 <= i < |xs| => f(xs[i]))
  }

  /** Mapping one more element in front. */
  lemma MapCons<A, B>(x: A, xs: seq<A>, f: A -> B)
    ensures Map([x] + xs, f) == [f(x)] + Map(xs, f)
  {
    var a, b := Map([x] + xs, f), Map(xs, f);
    forall i | 0 <= i < |b| ensures a[i + 1] == b[i] {
      assert ([x] + xs)[i + 1] == xs[i];
    }
  }

  /** The sum of `s`, added up from the front as `Iterator::sum` does. */
  function Sum(s: seq<int>): int {
    if s == [] then 0 else Sum(s[..|s| - 1]) + s[|s| - 1]
  }

  /** Summing distributes over concatenation. */
  lemma {:induction false} SumConcat(a: seq<int>, b: seq<int>)
    ensures Sum(a + b) == Sum(a) + Sum(b)
    decreases |b|
  {
    if b == [] {
      assert a + b == a;
    } else {
      assert (a + b)[..|a + b| - 1] == a + b[..|b| - 1];
      SumConcat(a, b[..|b| - 1]);
    }
  }

  /** The first term plus the sum of the rest. */
  lemma SumCons(y: int, ys: seq<int>)
    ensures Sum([y] + ys) == y + Sum(ys)
  {
    SumConcat([y], ys);
    assert [y][..0] == [];
  }

  /** The sum of a fallible `f` over every element, failing as a whole when
      any element fails: a Rust `map(...).sum()` whose closure unwraps. */
  function SumAll<A>(xs: seq<A>, f: A -> Option<int>): Option<int> {
    match MapAll(xs, f)
    case None => None
    case Some(values) => Some(Sum(values))
  }

  /** `SumAll` goes element by element: nothing sums to 0, and a first
      element adds its value to the sum of the rest, failing when either
      fails. */
  lemma SumAllCons<A>(x: A, xs: seq<A>, f: A -> Option<int>)
    ensures SumAll([], f) == Some(0)
    ensures SumAll([x] + xs, f) ==
      if f(x).Some? && SumAll(xs, f).Some? then Some(f(x).value + SumAll(xs, f).value) else None
  {
    MapAllCons(x, xs, f);
    if f(x).Some? && MapAll(xs, f).Some? {
      SumCons(f(x).value, MapAll(xs, f).value);
    }
  }

  /** Every term within [lo, hi] bounds the sum by |s| * lo and |s| * hi. */
  lemma {:induction false} SumBounds(s: seq<int>, lo: int, hi: int)
    requires forall i :: 0 <= i < |s| ==> lo <= s[i] <= hi
    ensures |s| * lo <= Sum(s) <= |s| * hi
  {
    if s != [] {
      SumBounds(s[..|s| - 1], lo, hi);
    }
  }

  /** A sum of naturals is a natural. */
  lemma {:induction false} SumNonNegative(s: seq<int>)
    requires forall i :: 0 <= i < |s| ==> s[i] >= 0
    ensures Sum(s) >= 0
  {
    if s != [] {
      SumNonNegative(s[..|s| - 1]);
    }
  }

  /** `s` back to front. */
  function Reverse<T>(s: seq<T>): (r: seq<T>)
    ensures |r| == |s|
    ensures multiset(r) == multiset(s)
  {
    if s == [] then [] else
      assert s == [s[0]] + s[1..];
      Reverse(s[1..]) + [s[0]]
  }

  /** The k-th element of the reversal is the k-th element from the back. */
  lemma {:induction false} ReverseAt<T>(s: seq<T>, k: nat)
    requires k < |s|
    ensures Reverse(s)[k] == s[|s| - 1 - k]
  {
    if k < |s| - 1 {
      ReverseAt(s[1..], k);
    }
  }

  /** Reversing twice is the identity. */
  lemma {:induction false} ReverseReverse<T>(s: seq<T>)
    ensures Reverse(Reverse(s)) == s
  {
    forall k | 0 <= k < |s| ensures Reverse(Reverse(s))[k] == s[k] {
      ReverseAt(Reverse(s), k);
      ReverseAt(s, |s| - 1 - k);
    }
  }
}
