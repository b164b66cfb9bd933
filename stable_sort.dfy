/**
 * Python's stable `sorted` on a list of (class, fractional part) pairs, read
 * as an order on the positions of the pairs. Position `a` goes before
 * position `b` when its key is larger (descending) or smaller (ascending),
 * or when the keys are equal and `a` was inserted first.
 */
module StableSort {

  /** Position `a` precedes position `b` in the stable sort of `keys`. */
  predicate Ahead(keys: seq<real>, desc: bool, a: int, b: int)
    requires 0 <= a < |keys| && 0 <= b < |keys|
  {
    (if desc then keys[a] > keys[b] else keys[a] < keys[b]) || (keys[a] == keys[b] && a < b)
  }

  /** `s` lists positions of `keys`, each strictly ahead of every later one. */
  predicate SortedBy(keys: seq<real>, desc: bool, s: seq<nat>) {
    && (forall p :: 0 <= p < |s| ==> s[p] < |keys|)
    && (forall p, q :: 0 <= p < q < |s| ==> Ahead(keys, desc, s[p], s[q]))
  }

  /** `s` holds every position 0 .. n-1. */
  predicate CoversRange(s: seq<nat>, n: nat) {
    |s| == n && (forall p :: 0 <= p < n ==> s[p] < n) && (forall c :: 0 <= c < n ==> c in s)
  }

  lemma AheadTransitive(keys: seq<real>, desc: bool, a: nat, b: nat, c: nat)
    requires a < |keys| && b < |keys| && c < |keys|
    requires Ahead(keys, desc, a, b) && Ahead(keys, desc, b, c)
    ensures Ahead(keys, desc, a, c)
  {
  }

  /** Inserting one position into a sorted list, as one step of insertion sort. */
  function Insert(keys: seq<real>, desc: bool, x: nat, s: seq<nat>): (r: seq<nat>)
    requires x < |keys| && forall p :: 0 <= p < |s| ==> s[p] < |keys|
    ensures |r| == |s| + 1
    ensures forall y :: y in r <==> y == x || y in s
    ensures forall p :: 0 <= p < |r| ==> r[p] < |keys|
  {
    if |s| == 0 then [x]
    else if Ahead(keys, desc, x, s[0]) then [x] + s
    else [s[0]] + Insert(keys, desc, x, s[1..])
  }

  /** Positions 0 .. m-1 in sorted order. */
  function SortIndices(keys: seq<real>, desc: bool, m: nat): (r: seq<nat>)
    requires m <= |keys|
    ensures |r| == m
    ensures forall p :: 0 <= p < m ==> r[p] < m
    ensures forall c :: 0 <= c < m ==> c in r
  {
    if m == 0 then []
    else
      var s := SortIndices(keys, desc, m - 1);
      var r := Insert(keys, desc, m - 1, s);
      assert forall p :: 0 <= p < |r| ==> r[p] in r;
      r
  }

  /** The order Python's `sorted(..., key=fraction, reverse=desc)` produces. */
  function SortedOrder(keys: seq<real>, desc: bool): seq<nat> {
    SortIndices(keys, desc, |keys|)
  }

  lemma {:induction false} InsertKeepsSorted(keys: seq<real>, desc: bool, x: nat, s: seq<nat>)
    requires x < |keys| && SortedBy(keys, desc, s) && forall p :: 0 <= p < |s| ==> s[p] != x
    ensures SortedBy(keys, desc, Insert(keys, desc, x, s))
  {
    if |s| == 0 {
    } else if Ahead(keys, desc, x, s[0]) {
      var r := [x] + s;
      forall p, q | 0 <= p < q < |r| ensures Ahead(keys, desc, r[p], r[q]) {
        if p == 0 && q > 1 {
          AheadTransitive(keys, desc, x, s[0], s[q - 1]);
        }
      }
    } else {
      var tail := Insert(keys, desc, x, s[1..]);
      InsertKeepsSorted(keys, desc, x, s[1..]);
      var r := [s[0]] + tail;
      assert r == Insert(keys, desc, x, s);
      forall q | 0 < q < |r| ensures Ahead(keys, desc, r[0], r[q]) {
        assert r[q] in tail;
        if r[q] != x {
          var q' :| 0 <= q' < |s[1..]| && s[1..][q'] == r[q];
          assert s[q' + 1] == r[q];
        }
      }
    }
  }

  /** One insertion step keeps the listing sorted. */
  lemma InsertStepSorted(keys: seq<real>, desc: bool, m: nat)
    requires 0 < m <= |keys| && SortedBy(keys, desc, SortIndices(keys, desc, m - 1))
    ensures SortedBy(keys, desc, SortIndices(keys, desc, m))
  {
    var s := SortIndices(keys, desc, m - 1);
    assert forall p :: 0 <= p < |s| ==> s[p] != m - 1;
    InsertKeepsSorted(keys, desc, m - 1, s);
  }

  /** Insertion sort yields a strictly sorted listing of 0 .. m-1. */
  lemma {:induction false} SortIndicesSorted(keys: seq<real>, desc: bool, m: nat)
    requires m <= |keys|
    ensures SortedBy(keys, desc, SortIndices(keys, desc, m))
    ensures CoversRange(SortIndices(keys, desc, m), m)
  {
    if m > 0 {
      SortIndicesSorted(keys, desc, m - 1);
      InsertStepSorted(keys, desc, m);
    }
  }

  /** The number of positions that a stable sort places before `c`. */
  function Rank(keys: seq<real>, desc: bool, c: nat): nat
    requires c < |keys|
  {
    |set j | 0 <= j < |keys| && Ahead(keys, desc, j, c)|
  }

  /** A strictly sorted listing is duplicate-free, so its first p entries are p distinct values. */
  lemma {:induction false} PrefixImageCard(s: seq<nat>, p: nat)
    requires p <= |s| && forall a, b :: 0 <= a < b < |s| ==> s[a] != s[b]
    ensures |set q | 0 <= q < p :: s[q]| == p
  {
    if p > 0 {
      PrefixImageCard(s, p - 1);
      var before := set q | 0 <= q < p - 1 :: s[q];
      assert (set q | 0 <= q < p :: s[q]) == before + {s[p - 1]};
      assert s[p - 1] !in before;
    }
  }

  /** In a strictly sorted listing, an entry ahead of another sits at a smaller index. */
  lemma SortedIndexOrder(keys: seq<real>, desc: bool, order: seq<nat>, q: nat, p: nat)
    requires SortedBy(keys, desc, order) && q < |order| && p < |order|
    requires Ahead(keys, desc, order[q], order[p])
    ensures q < p
  {
  }

  /**
   * In any strictly sorted listing of all positions, the entry at index p
   * has exactly p positions ahead of it.
   */
  lemma RankIsPosition(keys: seq<real>, desc: bool, order: seq<nat>, p: nat)
    requires SortedBy(keys, desc, order) && CoversRange(order, |keys|) && p < |keys|
    ensures Rank(keys, desc, order[p]) == p
  {
    var c := order[p];
    var ahead := set j | 0 <= j < |keys| && Ahead(keys, desc, j, c);
    var prefix := set q | 0 <= q < p :: order[q];
    forall j | j in ahead ensures j in prefix {
      assert j in order;
      var q :| 0 <= q < |order| && order[q] == j;
      SortedIndexOrder(keys, desc, order, q, p);
    }
    forall j | j in prefix ensures j in ahead {
      var q :| 0 <= q < p && order[q] == j;
      assert Ahead(keys, desc, order[q], order[p]);
    }
    assert ahead == prefix;
    PrefixImageCard(order, p);
  }

  /** Every position sits at the index of its rank in the sorted order. */
  lemma RankInverse(keys: seq<real>, desc: bool, c: nat)
    requires c < |keys|
    ensures Rank(keys, desc, c) < |keys|
    ensures SortedOrder(keys, desc)[Rank(keys, desc, c)] == c
  {
    var order := SortedOrder(keys, desc);
    SortIndicesSorted(keys, desc, |keys|);
    assert c in order;
    var p :| 0 <= p < |order| && order[p] == c;
    RankIsPosition(keys, desc, order, p);
  }

  /** Being earlier in the sort is exactly having the smaller rank. */
  lemma RankOrder(keys: seq<real>, desc: bool, a: nat, b: nat)
    requires a < |keys| && b < |keys| && a != b
    ensures Rank(keys, desc, a) < Rank(keys, desc, b) <==> Ahead(keys, desc, a, b)
  {
    var order := SortedOrder(keys, desc);
    SortIndicesSorted(keys, desc, |keys|);
    RankInverse(keys, desc, a);
    RankInverse(keys, desc, b);
    var ra, rb := Rank(keys, desc, a), Rank(keys, desc, b);
    if ra < rb {
      assert Ahead(keys, desc, order[ra], order[rb]);
    } else {
      assert ra != rb;
      assert Ahead(keys, desc, order[rb], order[ra]);
    }
  }

  /** Exactly r positions have a rank below r. */
  lemma CountRanksBelow(keys: seq<real>, desc: bool, r: nat)
    requires r <= |keys|
    ensures |set c | 0 <= c < |keys| && Rank(keys, desc, c) < r| == r
  {
    var order := SortedOrder(keys, desc);
    SortIndicesSorted(keys, desc, |keys|);
    var low := set c | 0 <= c < |keys| && Rank(keys, desc, c) < r;
    var prefix := set q | 0 <= q < r :: order[q];
    forall c | c in low ensures c in prefix {
      RankInverse(keys, desc, c);
    }
    forall c | c in prefix ensures c in low {
      var q :| 0 <= q < r && order[q] == c;
      RankIsPosition(keys, desc, order, q);
    }
    assert low == prefix;
    PrefixImageCard(order, r);
  }
}
