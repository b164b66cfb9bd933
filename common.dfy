/**
 * Shared vocabulary: Option and Result, insertion-ordered dictionaries and
 * sums over sequences.
 */
module Common {

  datatype Option<T> = None | Some(value: T) {
    /** The wrapped value, or `default` when absent (Python's `d.get(k, default)`). */
    function GetOr(default: T): T {
      match this
      case Some(v) => v
      case None => default
    }
  }

  datatype Result<T, E> = Success(value: T) | Failure(error: E)

  /** No key occurs twice. */
  predicate UniqueKeys<V>(d: seq<(string, V)>) {
    forall i, j :: 0 <= i < j < |d| ==> d[i].0 != d[j].0
  }

  /**
   * A Python dict: its entries in insertion order, every key once.
   */
  type Dict<V> = d: seq<(string, V)> | UniqueKeys(d) witness []

  /** The value stored under `k`, if any. */
  function Lookup<V>(d: seq<(string, V)>, k: string): (r: Option<V>)
    ensures r.Some? <==> exists i :: 0 <= i < |d| && d[i].0 == k
    ensures r.Some? ==> exists i :: 0 <= i < |d| && d[i] == (k, r.value)
  {
    if |d| == 0 then None
    else if d[0].0 == k then Some(d[0].1)
    else Lookup(d[1..], k)
  }

  lemma {:induction false} LookupAt<V>(d: seq<(string, V)>, i: nat)
    requires UniqueKeys(d) && i < |d|
    ensures Lookup(d, d[i].0) == Some(d[i].1)
  {
    if i > 0 {
      assert d[0].0 != d[i].0;
      assert d[1..][i - 1] == d[i];
      LookupAt(d[1..], i - 1);
    }
  }

  /** Looking up in a dict with one more entry appended at the end. */
  lemma {:induction false} LookupSnoc<V>(d: seq<(string, V)>, k: string, v: V, x: string)
    ensures Lookup(d + [(k, v)], x) == if Lookup(d, x).Some? then Lookup(d, x) else if x == k then Some(v) else None
  {
    if |d| > 0 {
      assert (d + [(k, v)])[1..] == d[1..] + [(k, v)];
      LookupSnoc(d[1..], k, v, x);
    }
  }

  function Keys<V>(d: seq<(string, V)>): (ks: seq<string>)
    ensures |ks| == |d| && forall i :: 0 <= i < |d| ==> ks[i] == d[i].0
  {
    seq(|d|, i requires 0 <= i < |d| => d[i].0)
  }

  function Values<V>(d: seq<(string, V)>): (vs: seq<V>)
    ensures |vs| == |d| && forall i :: 0 <= i < |d| ==> vs[i] == d[i].1
  {
    seq(|d|, i requires 0 <= i < |d| => d[i].1)
  }

  /** Python's `sum` over a list of floats, read with exact reals. */
  function SumReal(s: seq<real>): real {
    if |s| == 0 then 0.0 else SumReal(s[..|s| - 1]) + s[|s| - 1]
  }

  /** Python's `sum` over a list of ints. */
  function SumInt(s: seq<int>): int {
    if |s| == 0 then 0 else SumInt(s[..|s| - 1]) + s[|s| - 1]
  }

  /** Sums of pointwise sums. */
  lemma {:induction false} SumIntPointwise(a: seq<int>, b: seq<int>, c: seq<int>)
    requires |a| == |b| == |c| && forall i :: 0 <= i < |c| ==> c[i] == a[i] + b[i]
    ensures SumInt(c) == SumInt(a) + SumInt(b)
  {
    if |c| > 0 {
      SumIntPointwise(a[..|a| - 1], b[..|b| - 1], c[..|c| - 1]);
    }
  }

  lemma {:induction false} SumRealPointwise(a: seq<real>, b: seq<real>, c: seq<real>)
    requires |a| == |b| == |c| && forall i :: 0 <= i < |c| ==> c[i] == a[i] + b[i]
    ensures SumReal(c) == SumReal(a) + SumReal(b)
  {
    if |c| > 0 {
      SumRealPointwise(a[..|a| - 1], b[..|b| - 1], c[..|c| - 1]);
    }
  }

  /** Multiplying every term by k multiplies the sum by k. */
  lemma {:induction false} SumRealScale(k: real, a: seq<real>, c: seq<real>)
    requires |a| == |c| && forall i :: 0 <= i < |c| ==> c[i] == k * a[i]
    ensures SumReal(c) == k * SumReal(a)
  {
    if |c| > 0 {
      SumRealScale(k, a[..|a| - 1], c[..|c| - 1]);
    }
  }

  /** The integer sum read as a real. */
  lemma {:induction false} SumIntAsReal(a: seq<int>, b: seq<real>)
    requires |a| == |b| && forall i :: 0 <= i < |b| ==> b[i] == a[i] as real
    ensures SumReal(b) == SumInt(a) as real
  {
    if |b| > 0 {
      SumIntAsReal(a[..|a| - 1], b[..|b| - 1]);
    }
  }

  /** A sum of terms each in [0, 1) lies in [0, |s|), and is below |s| when s is non-empty. */
  lemma {:induction false} SumRealUnitBounds(s: seq<real>)
    requires forall i :: 0 <= i < |s| ==> 0.0 <= s[i] < 1.0
    ensures 0.0 <= SumReal(s) <= |s| as real
    ensures |s| > 0 ==> SumReal(s) < |s| as real
  {
    if |s| > 0 {
      SumRealUnitBounds(s[..|s| - 1]);
    }
  }

  /** A sequence that is zero except at one index sums to the value there. */
  lemma {:induction false} SumIntSingleton(s: seq<int>, j: nat)
    requires j < |s| && forall i :: 0 <= i < |s| && i != j ==> s[i] == 0
    ensures SumInt(s) == s[j]
  {
    if j < |s| - 1 {
      SumIntSingleton(s[..|s| - 1], j);
    } else {
      SumIntZero(s[..|s| - 1]);
    }
  }

  lemma {:induction false} SumIntZero(s: seq<int>)
    requires forall i :: 0 <= i < |s| ==> s[i] == 0
    ensures SumInt(s) == 0
  {
    if |s| > 0 {
      SumIntZero(s[..|s| - 1]);
    }
  }

  /** The values a dict holds under `names`, with 0 for a missing name. */
  function LookupsOrZero(names: seq<string>, d: seq<(string, int)>): (r: seq<int>)
    ensures |r| == |names| && forall j :: 0 <= j < |names| ==> r[j] == Lookup(d, names[j]).GetOr(0)
  {
    seq(|names|, j requires 0 <= j < |names| => Lookup(d, names[j]).GetOr(0))
  }

  /** Appending a fresh key adds its value at that name's position and nowhere else. */
  lemma LookupsSnoc(names: seq<string>, front: seq<(string, int)>, k: string, v: int, j: nat)
    requires Lookup(front, k).None? && j < |names|
    ensures LookupsOrZero(names, front + [(k, v)])[j] ==
      LookupsOrZero(names, front)[j] + (if names[j] == k then v else 0)
  {
    LookupSnoc(front, k, v, names[j]);
  }

  lemma ValuesSnoc(front: seq<(string, int)>, k: string, v: int)
    ensures SumInt(Values(front + [(k, v)])) == SumInt(Values(front)) + v
  {
    assert Values(front + [(k, v)])[..|front|] == Values(front);
  }

  /** Reading through `names` after appending a fresh key that occurs once in `names` adds its value. */
  lemma SumLookupsSnoc(names: seq<string>, front: seq<(string, int)>, k: string, v: int)
    requires forall i, j :: 0 <= i < j < |names| ==> names[i] != names[j]
    requires Lookup(front, k).None? && k in names
    ensures SumInt(LookupsOrZero(names, front + [(k, v)])) == SumInt(LookupsOrZero(names, front)) + v
  {
    var extra := seq(|names|, j requires 0 <= j < |names| => if names[j] == k then v else 0);
    forall j | 0 <= j < |names|
      ensures LookupsOrZero(names, front + [(k, v)])[j] == LookupsOrZero(names, front)[j] + extra[j]
    {
      LookupsSnoc(names, front, k, v, j);
    }
    SumIntPointwise(LookupsOrZero(names, front), extra, LookupsOrZero(names, front + [(k, v)]));
    var j0 :| 0 <= j0 < |names| && names[j0] == k;
    SumIntSingleton(extra, j0);
  }

  /**
   * Reading a dict back through a list of distinct names that covers all its
   * keys gives back the sum of all its values.
   */
  lemma {:induction false} SumLookups(names: seq<string>, d: seq<(string, int)>)
    requires forall i, j :: 0 <= i < j < |names| ==> names[i] != names[j]
    requires UniqueKeys(d) && forall i :: 0 <= i < |d| ==> d[i].0 in names
    ensures SumInt(LookupsOrZero(names, d)) == SumInt(Values(d))
  {
    if |d| == 0 {
      SumIntZero(LookupsOrZero(names, d));
    } else {
      var front := d[..|d| - 1];
      var (k, v) := d[|d| - 1];
      assert d == front + [(k, v)];
      assert forall i :: 0 <= i < |front| ==> front[i] == d[i];
      SumLookups(names, front);
      assert Lookup(front, k).None?;
      SumLookupsSnoc(names, front, k, v);
      ValuesSnoc(front, k, v);
    }
  }

  function Min(a: int, b: int): int { if a <= b then a else b }

  function Max(a: int, b: int): int { if a >= b then a else b }

  function Abs(x: real): real { if x < 0.0 then -x else x }
}
