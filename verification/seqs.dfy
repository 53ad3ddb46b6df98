/** Sequence and set helpers for lists of portrait IDs: ranges, de-duplication
    in insertion order (`Array.from(new Set(xs))`), filtering, fixed-size
    chunking (`xs.slice(i, i + n)` for `i = 0, n, 2n, ...`), and the ascending
    order in which integer-keyed objects and `ORDER BY id` enumerate IDs. */
module Seqs {

  predicate Distinct<T(==)>(xs: seq<T>)
  {
    forall i, j :: 0 <= i < j < |xs| ==> xs[i] != xs[j]
  }

  predicate StrictlyIncreasing(xs: seq<nat>)
  {
    forall i, j :: 0 <= i < j < |xs| ==> xs[i] < xs[j]
  }

  // ---------------------------------------------------------------------------
  // Ranges
  // ---------------------------------------------------------------------------

  /** The IDs `lo, lo + 1, ..., hi`, empty when `hi < lo`
      (`for (let i = lo; i <= hi; i++) ids.push(i)`). */
  function IdRange(lo: nat, hi: int): (r: seq<nat>)
    ensures |r| == if hi < lo then 0 else hi - lo + 1
    ensures forall i :: 0 <= i < |r| ==> r[i] == lo + i
  {
    seq(if hi < lo then 0 else hi - lo + 1, i => lo + i)
  }

  lemma IdRangeMembers(lo: nat, hi: int)
    ensures forall x: nat :: x in IdRange(lo, hi) <==> lo <= x <= hi
    ensures StrictlyIncreasing(IdRange(lo, hi))
  {
    var r := IdRange(lo, hi);
    forall x: nat | lo <= x <= hi
      ensures x in r
    {
      assert r[x - lo] == x;
    }
  }

  // ---------------------------------------------------------------------------
  // De-duplication in first-occurrence order
  // ---------------------------------------------------------------------------

  /** `Array.from(new Set(xs))`: the first occurrence of every value, in the
      order of first occurrence. */
  function Dedup(xs: seq<nat>): (r: seq<nat>)
    ensures Distinct(r)
    ensures forall x :: x in r <==> x in xs
    ensures |r| <= |xs|
    ensures Distinct(xs) ==> r == xs
    decreases |xs|
  {
    if |xs| == 0 then []
    else
      var d := Dedup(xs[..|xs| - 1]);
      var x := xs[|xs| - 1];
      assert xs == xs[..|xs| - 1] + [x];
      if x in d then d else d + [x]
  }

  /** De-duplicating `a + b` for a duplicate-free `a` keeps all of `a`, in
      place, at the front. */
  lemma {:induction false} DedupKeepsDistinctPrefix(a: seq<nat>, b: seq<nat>)
    requires Distinct(a)
    ensures |Dedup(a + b)| >= |a|
    ensures Dedup(a + b)[..|a|] == a
    decreases |b|
  {
    if |b| == 0 {
      assert a + b == a;
    } else {
      var b' := b[..|b| - 1];
      assert (a + b)[..|a + b| - 1] == a + b';
      DedupKeepsDistinctPrefix(a, b');
    }
  }

  // ---------------------------------------------------------------------------
  // Filtering
  // ---------------------------------------------------------------------------

  /** The elements of `xs` that satisfy `keep`, in their original order. */
  function Filter<T(==)>(xs: seq<T>, keep: T -> bool): (r: seq<T>)
    ensures |r| <= |xs|
    ensures forall i :: 0 <= i < |r| ==> keep(r[i])
    ensures forall i :: 0 <= i < |r| ==> r[i] in xs
    ensures forall i :: 0 <= i < |xs| && keep(xs[i]) ==> xs[i] in r
  {
    if |xs| == 0 then []
    else if keep(xs[0]) then [xs[0]] + Filter(xs[1..], keep)
    else Filter(xs[1..], keep)
  }

  lemma {:induction false} FilterConcat<T>(a: seq<T>, b: seq<T>, keep: T -> bool)
    ensures Filter(a + b, keep) == Filter(a, keep) + Filter(b, keep)
    decreases |a|
  {
    if |a| > 0 {
      assert (a + b)[1..] == a[1..] + b;
      FilterConcat(a[1..], b, keep);
    } else {
      assert a + b == b;
    }
  }

  lemma {:induction false} FilterDistinct<T>(xs: seq<T>, keep: T -> bool)
    ensures Distinct(xs) ==> Distinct(Filter(xs, keep))
    decreases |xs|
  {
    if |xs| > 0 && Distinct(xs) {
      FilterDistinct(xs[1..], keep);
      if keep(xs[0]) {
        assert xs[0] !in xs[1..];
        assert xs[0] !in Filter(xs[1..], keep);
      }
    }
  }

  /** A filter that every element passes returns the sequence itself. */
  lemma {:induction false} FilterKeepsAll<T>(xs: seq<T>, keep: T -> bool)
    requires forall i :: 0 <= i < |xs| ==> keep(xs[i])
    ensures Filter(xs, keep) == xs
    decreases |xs|
  {
    if |xs| > 0 {
      FilterKeepsAll(xs[1..], keep);
      assert [xs[0]] + xs[1..] == xs;
    }
  }

  /** Filtering by a predicate and by its negation splits the sequence: the
      two results have the original length between them. */
  lemma {:induction false} FilterComplement<T>(xs: seq<T>, keep: T -> bool, drop: T -> bool)
    requires forall x :: drop(x) == !keep(x)
    ensures |Filter(xs, keep)| + |Filter(xs, drop)| == |xs|
    decreases |xs|
  {
    if |xs| > 0 {
      FilterComplement(xs[1..], keep, drop);
    }
  }

  // ---------------------------------------------------------------------------
  // Chunking
  // ---------------------------------------------------------------------------

  function Flatten<T>(xss: seq<seq<T>>): (r: seq<T>)
  {
    if |xss| == 0 then [] else xss[0] + Flatten(xss[1..])
  }

  /** `xs.slice(i, i + n)` for `i = 0, n, 2n, ...` while `i < xs.length`: the
      consecutive non-empty pieces of at most `n` elements, all but the last
      exactly `n` long, whose concatenation is `xs`. */
  function Chunks<T>(xs: seq<T>, n: nat): (r: seq<seq<T>>)
    requires n > 0
    ensures Flatten(r) == xs
    ensures forall i :: 0 <= i < |r| ==> 0 < |r[i]| <= n
    ensures forall i :: 0 <= i < |r| - 1 ==> |r[i]| == n
    ensures |xs| <= n ==> |r| <= 1
    decreases |xs|
  {
    if |xs| == 0 then []
    else if |xs| <= n then [xs]
    else
      var rest := Chunks(xs[n..], n);
      assert xs == xs[..n] + xs[n..];
      [xs[..n]] + rest
  }

  // ---------------------------------------------------------------------------
  // Ascending enumeration of a set of IDs
  // ---------------------------------------------------------------------------

  predicate IsMin(m: nat, s: set<nat>)
  {
    m in s && forall x :: x in s ==> m <= x
  }

  lemma {:induction false} MinExists(s: set<nat>)
    requires s != {}
    ensures exists m :: IsMin(m, s)
    decreases |s|
  {
    var y :| y in s;
    if s == {y} {
      assert IsMin(y, s);
    } else {
      var rest := s - {y};
      MinExists(rest);
      var m' :| IsMin(m', rest);
      MinOfTwo(y, m', s, rest);
    }
  }

  lemma MinOfTwo(y: nat, m': nat, s: set<nat>, rest: set<nat>)
    requires y in s && rest == s - {y} && IsMin(m', rest)
    ensures IsMin(if y <= m' then y else m', s)
  {
    var lo := if y <= m' then y else m';
    forall x | x in s
      ensures lo <= x
    {
      if x != y {
        assert x in rest;
      }
    }
  }

  function MinOf(s: set<nat>): (m: nat)
    requires s != {}
    ensures m in s && forall x :: x in s ==> m <= x
  {
    MinExists(s);
    var m :| IsMin(m, s);
    m
  }

  /** The members of `s` in ascending order: the order in which JavaScript
      enumerates the integer keys of an object and in which `ORDER BY id ASC`
      returns rows. */
  function SortedIds(s: set<nat>): (r: seq<nat>)
    ensures forall x :: x in r <==> x in s
    ensures StrictlyIncreasing(r)
    ensures |r| == |s|
    decreases |s|
  {
    if s == {} then []
    else
      var m := MinOf(s);
      var rest := SortedIds(s - {m});
      SortedCons(m, rest, s);
      [m] + rest
  }

  lemma SortedCons(m: nat, rest: seq<nat>, s: set<nat>)
    requires m in s && forall x :: x in s ==> m <= x
    requires forall x :: x in rest <==> x in s - {m}
    requires StrictlyIncreasing(rest)
    ensures forall x :: x in [m] + rest <==> x in s
    ensures StrictlyIncreasing([m] + rest)
  {
    var r := [m] + rest;
    forall i, j | 0 <= i < j < |r|
      ensures r[i] < r[j]
    {
      if i > 0 {
        assert r[i] == rest[i - 1] && r[j] == rest[j - 1];
      } else {
        assert r[j] == rest[j - 1];
        assert r[j] in s - {m};
      }
    }
  }
}
