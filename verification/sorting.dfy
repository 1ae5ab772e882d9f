/**
 * `sortIndices` (assets/js/data.js): an argsort that also leaves its argument
 * holding the original values in ascending order.
 *
 * The source's comparator answers "left < right ? -1 : 1" and never reports a
 * tie, so the order of equal keys is up to the JavaScript engine. This model
 * keeps equal keys in input order (a stable insertion sort); the contract of
 * SortIndices promises only what every engine gives: a permutation that sorts.
 */
module Sorting {
  import opened Seqs

  predicate Ascending(s: seq<real>) {
    forall i, j :: 0 <= i < j < |s| ==> s[i] <= s[j]
  }

  predicate StrictlyAscending(s: seq<real>) {
    forall i, j :: 0 <= i < j < |s| ==> s[i] < s[j]
  }

  /** The indices `ps` point into `vals` and list their values in ascending order. */
  predicate SortsBy(vals: seq<real>, ps: seq<nat>) {
    && (forall i :: 0 <= i < |ps| ==> ps[i] < |vals|)
    && (forall i, j :: 0 <= i < j < |ps| ==> vals[ps[i]] <= vals[ps[j]])
  }

  /** Every index in `ps` has a value at least `lo`. */
  predicate AllAtLeast(vals: seq<real>, ps: seq<nat>, lo: real)
    requires forall i :: 0 <= i < |ps| ==> ps[i] < |vals|
  {
    forall i :: 0 <= i < |ps| ==> lo <= vals[ps[i]]
  }

  lemma PrependSorted(vals: seq<real>, h: nat, ps: seq<nat>)
    requires h < |vals| && SortsBy(vals, ps) && AllAtLeast(vals, ps, vals[h])
    ensures SortsBy(vals, [h] + ps)
  {
  }

  lemma BoundSurvivesInsert(vals: seq<real>, x: nat, ps: seq<nat>, r: seq<nat>, lo: real)
    requires x < |vals| && SortsBy(vals, ps) && SortsBy(vals, r)
    requires forall y :: y in r ==> y in ps || y == x
    requires AllAtLeast(vals, ps, lo) && lo <= vals[x]
    ensures AllAtLeast(vals, r, lo)
  {
    forall k | 0 <= k < |r|
      ensures lo <= vals[r[k]]
    {
      assert r[k] in r;
      if r[k] != x {
        var m :| 0 <= m < |ps| && ps[m] == r[k];
      }
    }
  }

  lemma DistinctPrepend(h: nat, r: seq<nat>)
    requires Distinct(r) && h !in r
    ensures Distinct([h] + r)
  {
    forall i, j | 0 <= i < j < |[h] + r|
      ensures ([h] + r)[i] != ([h] + r)[j]
    {
      if i == 0 {
        assert ([h] + r)[j] == r[j - 1];
      }
    }
  }

  /** Inserts index `x` into the sorted index list `ps`, after every entry whose value is not larger. */
  function Insert(vals: seq<real>, x: nat, ps: seq<nat>): (r: seq<nat>)
    requires x < |vals| && SortsBy(vals, ps)
    ensures |r| == |ps| + 1
    ensures forall y :: y in r <==> y in ps || y == x
    ensures Distinct(ps) && x !in ps ==> Distinct(r)
    ensures SortsBy(vals, r)
  {
    if |ps| == 0 then [x]
    else if vals[x] < vals[ps[0]] then
      PrependSorted(vals, x, ps);
      if Distinct(ps) && x !in ps then DistinctPrepend(x, ps); [x] + ps else [x] + ps
    else
      var rest := Insert(vals, x, ps[1..]);
      assert ps == [ps[0]] + ps[1..];
      BoundSurvivesInsert(vals, x, ps[1..], rest, vals[ps[0]]);
      PrependSorted(vals, ps[0], rest);
      if Distinct(ps) && x !in ps then
        assert ps[0] !in ps[1..];
        DistinctPrepend(ps[0], rest);
        [ps[0]] + rest
      else [ps[0]] + rest
  }

  /** The indices 0..k-1 of `vals`, each once, ordered by their values. */
  function ArgSort(vals: seq<real>, k: nat): (r: seq<nat>)
    requires k <= |vals|
    ensures |r| == k
    ensures forall v: nat :: v in r <==> v < k
    ensures Distinct(r)
    ensures SortsBy(vals, r)
  {
    if k == 0 then []
    else
      var prev := ArgSort(vals, k - 1);
      assert k - 1 !in prev;
      Insert(vals, k - 1, prev)
  }

  /** What `sortIndices` leaves behind: the argument's values in ascending order and the permutation. */
  datatype SortResult = SortResult(sorted: seq<real>, sortIndices: seq<nat>)

  /** sortIndices(toSort): the argsort, together with the sorted contents it writes back into `toSort`. */
  function SortIndices(toSort: seq<real>): (r: SortResult)
    ensures IsPermutation(r.sortIndices, |toSort|)
    ensures |r.sorted| == |toSort|
    ensures forall t :: 0 <= t < |toSort| ==> r.sorted[t] == toSort[r.sortIndices[t]]
    ensures Ascending(r.sorted)
  {
    var p := ArgSort(toSort, |toSort|);
    assert forall i :: 0 <= i < |p| ==> p[i] in p;
    SortResult(seq(|p|, t requires 0 <= t < |p| => toSort[p[t]]), p)
  }

  lemma {:induction false} InsertAtEnd(vals: seq<real>, x: nat, ps: seq<nat>)
    requires x < |vals| && SortsBy(vals, ps)
    requires forall k :: 0 <= k < |ps| ==> vals[ps[k]] <= vals[x]
    ensures Insert(vals, x, ps) == ps + [x]
  {
    if |ps| > 0 {
      InsertAtEnd(vals, x, ps[1..]);
      assert ps == [ps[0]] + ps[1..];
    }
  }

  lemma {:induction false} ArgSortOfAscending(vals: seq<real>, k: nat)
    requires k <= |vals| && Ascending(vals)
    ensures ArgSort(vals, k) == Iota(k)
  {
    if k > 0 {
      ArgSortOfAscending(vals, k - 1);
      IotaBelowLast(vals, k - 1);
      InsertAtEnd(vals, k - 1, Iota(k - 1));
    }
  }

  /** On ascending values, the indices below x list their values in order, none above vals[x]. */
  lemma IotaBelowLast(vals: seq<real>, x: nat)
    requires x < |vals| && Ascending(vals)
    ensures SortsBy(vals, Iota(x))
    ensures forall j :: 0 <= j < x ==> vals[Iota(x)[j]] <= vals[x]
  {
  }

  /**
   * On input that is already ascending, sortIndices is the identity permutation
   * and leaves the values where they were. (With ties this depends on the
   * model's stable tie order.)
   */
  lemma SortIndicesOfAscending(s: seq<real>)
    requires Ascending(s)
    ensures SortIndices(s) == SortResult(s, Iota(|s|))
  {
    ArgSortOfAscending(s, |s|);
    var r := SortIndices(s);
    assert r.sorted == s;
    assert r == SortResult(r.sorted, r.sortIndices);
  }

  /** A second sortIndices on an array the first one sorted changes nothing and returns the identity. */
  lemma SortIndicesSettles(s: seq<real>)
    ensures SortIndices(SortIndices(s).sorted) == SortResult(SortIndices(s).sorted, Iota(|s|))
  {
    SortIndicesOfAscending(SortIndices(s).sorted);
  }

  lemma {:induction false} IncreasingLowerBound(p: seq<nat>, i: nat)
    requires forall a, b :: 0 <= a < b < |p| ==> p[a] < p[b]
    requires i < |p|
    ensures i <= p[i]
    decreases i
  {
    if i > 0 {
      IncreasingLowerBound(p, i - 1);
    }
  }

  lemma {:induction false} IncreasingUpperBound(p: seq<nat>, n: nat, i: nat)
    requires forall a, b :: 0 <= a < b < |p| ==> p[a] < p[b]
    requires forall a :: 0 <= a < |p| ==> p[a] < n
    requires i < |p| == n
    ensures p[i] <= i
    decreases |p| - i
  {
    if i + 1 < |p| {
      IncreasingUpperBound(p, n, i + 1);
    }
  }

  /**
   * On strictly ascending input the only sorting permutation is the identity,
   * so every argsort, whatever its tie order, agrees with the model's.
   */
  lemma {:induction false} SortingPermutationOfStrictIsIdentity(vals: seq<real>, p: seq<nat>)
    requires StrictlyAscending(vals)
    requires IsPermutation(p, |vals|)
    requires forall a, b :: 0 <= a < b < |p| ==> vals[p[a]] <= vals[p[b]]
    ensures p == Iota(|vals|)
  {
    forall a, b | 0 <= a < b < |p|
      ensures p[a] < p[b]
    {
      assert p[a] != p[b];
    }
    forall i | 0 <= i < |p|
      ensures p[i] == i
    {
      IncreasingLowerBound(p, i);
      IncreasingUpperBound(p, |vals|, i);
    }
  }

  /** The only way to list the values 2001, 2000, 2002 in ascending order is by the indices 1, 0, 2. */
  lemma OnlyAscendingOrder(v0: real, v1: real, v2: real, p0: nat, p1: nat, p2: nat)
    requires v0 == 2001.0 && v1 == 2000.0 && v2 == 2002.0
    requires p0 < 3 && p1 < 3 && p2 < 3 && p0 != p1 && p0 != p2 && p1 != p2
    requires var v := (t: nat) => if t == 0 then v0 else if t == 1 then v1 else v2;
             v(p0) <= v(p1) <= v(p2)
    ensures p0 == 1 && p1 == 0 && p2 == 2
  {
  }

  /**
   * sortIndices([2001, 2000, 2002]) sorts the array and reports the order
   * [1, 0, 2]; the values are distinct, so every engine agrees.
   */
  lemma SortIndicesExample(vals: seq<real>)
    requires |vals| == 3 && vals[0] == 2001.0 && vals[1] == 2000.0 && vals[2] == 2002.0
    ensures SortIndices(vals) == SortResult([2000.0, 2001.0, 2002.0], [1, 0, 2])
  {
    var r := SortIndices(vals);
    var p := r.sortIndices;
    assert r.sorted[0] <= r.sorted[1] <= r.sorted[2];
    OnlyAscendingOrder(vals[0], vals[1], vals[2], p[0], p[1], p[2]);
    assert p == [1, 0, 2];
    assert r.sorted == [vals[1], vals[0], vals[2]];
  }
}
