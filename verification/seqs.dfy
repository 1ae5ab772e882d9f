/** Sequence vocabulary shared by the data layer: filters, flattening, lookups, permutations. */
module Seqs {

  /** The indices 0, 1, ..., n-1 in order. */
  function Iota(n: nat): (r: seq<nat>)
    ensures |r| == n
    ensures forall i :: 0 <= i < n ==> r[i] == i
  {
    if n == 0 then [] else Iota(n - 1) + [n - 1]
  }

  predicate Distinct<T(==)>(s: seq<T>) {
    forall i, j :: 0 <= i < j < |s| ==> s[i] != s[j]
  }

  /** `p` lists every index below `n` exactly once. */
  predicate IsPermutation(p: seq<nat>, n: nat) {
    && |p| == n
    && (forall i :: 0 <= i < |p| ==> p[i] < n)
    && Distinct(p)
    && (forall v: nat :: v < n ==> v in p)
  }

  /** `r` can be obtained from `s` by deleting elements, keeping the order of the rest. */
  predicate IsSubseq<T(==)>(r: seq<T>, s: seq<T>)
    decreases |s|
  {
    || |r| == 0
    || (|s| > 0 && ((r[0] == s[0] && IsSubseq(r[1..], s[1..])) || IsSubseq(r, s[1..])))
  }

  /** Array.prototype.filter: the elements satisfying `f`, in their original order. */
  function Filter<T(==,!new)>(s: seq<T>, f: T -> bool): (r: seq<T>)
    ensures |r| <= |s|
    ensures forall x :: x in r <==> x in s && f(x)
  {
    if |s| == 0 then []
    else
      var rest := Filter(s[1..], f);
      assert s == [s[0]] + s[1..];
      if f(s[0]) then [s[0]] + rest else rest
  }

  /** Filtering keeps the surviving elements in their original order. */
  lemma {:induction false} FilterIsSubseq<T(!new)>(s: seq<T>, f: T -> bool)
    ensures IsSubseq(Filter(s, f), s)
  {
    if |s| > 0 {
      FilterIsSubseq(s[1..], f);
      var rest := Filter(s[1..], f);
      if f(s[0]) {
        assert ([s[0]] + rest)[1..] == rest;
      }
    }
  }

  /** Filtering a concatenation filters each part. */
  lemma {:induction false} FilterAppend<T(!new)>(a: seq<T>, b: seq<T>, f: T -> bool)
    ensures Filter(a + b, f) == Filter(a, f) + Filter(b, f)
  {
    if |a| > 0 {
      assert (a + b)[1..] == a[1..] + b;
      FilterAppend(a[1..], b, f);
    } else {
      assert a + b == b;
    }
  }

  /** A filter that keeps every element returns its input. */
  lemma {:induction false} FilterKeepsAll<T(!new)>(s: seq<T>, f: T -> bool)
    requires forall i :: 0 <= i < |s| ==> f(s[i])
    ensures Filter(s, f) == s
  {
    if |s| > 0 {
      FilterKeepsAll(s[1..], f);
      assert s == [s[0]] + s[1..];
    }
  }

  /** The indices in `ix` run strictly upwards. */
  predicate Increasing(ix: seq<nat>) {
    forall k, l :: 0 <= k < l < |ix| ==> ix[k] < ix[l]
  }

  /** Filtering a strictly increasing list of indices leaves it strictly increasing. */
  lemma {:induction false} FilterIncreasing(s: seq<nat>, f: nat -> bool)
    requires Increasing(s)
    ensures Increasing(Filter(s, f))
  {
    if |s| > 0 {
      FilterIncreasing(s[1..], f);
      var rest := Filter(s[1..], f);
      if f(s[0]) {
        var r := [s[0]] + rest;
        forall k, l | 0 <= k < l < |r|
          ensures r[k] < r[l]
        {
          if k == 0 {
            assert rest[l - 1] in s[1..];
            var j :| 0 <= j < |s[1..]| && s[1..][j] == rest[l - 1];
            assert s[j + 1] == r[l];
          } else {
            assert r[k] == rest[k - 1] && r[l] == rest[l - 1];
          }
        }
      }
    }
  }

  /** The elements of `s` at the positions listed in `ix`, in that order. */
  function Pick<T>(s: seq<T>, ix: seq<nat>): (r: seq<T>)
    requires forall k :: 0 <= k < |ix| ==> ix[k] < |s|
    ensures |r| == |ix|
    ensures forall k :: 0 <= k < |ix| ==> r[k] == s[ix[k]]
  {
    seq(|ix|, k requires 0 <= k < |ix| => s[ix[k]])
  }

  /** Every position moved one step towards the front. */
  function Down(ix: seq<nat>): (r: seq<nat>)
    requires forall k :: 0 <= k < |ix| ==> ix[k] > 0
    ensures |r| == |ix|
    ensures forall k :: 0 <= k < |ix| ==> r[k] == ix[k] - 1
  {
    seq(|ix|, k requires 0 <= k < |ix| => ix[k] - 1)
  }

  /** Picking from `s[1..]` at the positions moved down picks the same elements of `s`. */
  lemma PickDown<T>(s: seq<T>, ix: seq<nat>)
    requires |s| > 0
    requires forall k :: 0 <= k < |ix| ==> 0 < ix[k] < |s|
    ensures Increasing(ix) ==> Increasing(Down(ix))
    ensures Pick(s[1..], Down(ix)) == Pick(s, ix)
  {
  }

  /** Picking at strictly increasing positions keeps the order of `s`. */
  lemma {:induction false} PickIncreasingIsSubseq<T>(s: seq<T>, ix: seq<nat>)
    requires forall k :: 0 <= k < |ix| ==> ix[k] < |s|
    requires Increasing(ix)
    ensures IsSubseq(Pick(s, ix), s)
    decreases |s|
  {
    if |ix| > 0 {
      var r := Pick(s, ix);
      if ix[0] == 0 {
        var tail := ix[1..];
        assert forall k :: 0 <= k < |tail| ==> 0 < tail[k] < |s| by {
          forall k | 0 <= k < |tail|
            ensures 0 < tail[k] < |s|
          {
            assert tail[k] == ix[k + 1] && ix[0] < ix[k + 1];
          }
        }
        PickDown(s, tail);
        PickIncreasingIsSubseq(s[1..], Down(tail));
        assert r[1..] == Pick(s, tail);
      } else {
        assert forall k :: 0 <= k < |ix| ==> 0 < ix[k] < |s| by {
          forall k | 0 <= k < |ix|
            ensures 0 < ix[k]
          {
            assert k == 0 || ix[0] < ix[k];
          }
        }
        PickDown(s, ix);
        PickIncreasingIsSubseq(s[1..], Down(ix));
      }
    }
  }

  /** A subsequence of a subsequence of `c` is a subsequence of `c`. */
  lemma {:induction false} SubseqTrans<T>(a: seq<T>, b: seq<T>, c: seq<T>)
    requires IsSubseq(a, b) && IsSubseq(b, c)
    ensures IsSubseq(a, c)
    decreases |c|
  {
    if |a| > 0 {
      if b[0] == c[0] && IsSubseq(b[1..], c[1..]) {
        if a[0] == b[0] && IsSubseq(a[1..], b[1..]) {
          SubseqTrans(a[1..], b[1..], c[1..]);
        } else {
          SubseqTrans(a, b[1..], c[1..]);
        }
      } else {
        SubseqTrans(a, b, c[1..]);
      }
    }
  }

  /**
   * Splitting a key `a + "_" + b` at its first underscore: when neither
   * leading part holds an underscore, equal keys have equal parts.
   */
  lemma SplitAtFirst(a: string, b: string, c: string, e: string)
    requires '_' !in a && '_' !in c
    requires a + "_" + b == c + "_" + e
    ensures a == c && b == e
  {
    var k := a + "_" + b;
    assert IndexOf(k, '_') == |a| by {
      assert k[|a|] == '_';
      assert forall j :: 0 <= j < |a| ==> k[j] == a[j];
    }
    assert IndexOf(k, '_') == |c| by {
      assert k[|c|] == '_';
      assert forall j :: 0 <= j < |c| ==> k[j] == c[j];
    }
    assert a == k[..|a|] && c == k[..|c|];
    assert b == k[|a| + 1..] && e == k[|c| + 1..];
  }

  /** The number of elements of all rows together. */
  function TotalLength<T>(xss: seq<seq<T>>): nat {
    if |xss| == 0 then 0 else |xss[0]| + TotalLength(xss[1..])
  }

  /** The rows of `xss` concatenated in order (row-major). */
  function Flatten<T>(xss: seq<seq<T>>): (r: seq<T>)
    ensures |r| == TotalLength(xss)
  {
    if |xss| == 0 then [] else xss[0] + Flatten(xss[1..])
  }

  /** Element `j` of row `i` sits at offset TotalLength(xss[..i]) + j of the flattening. */
  lemma {:induction false} FlattenIndex<T>(xss: seq<seq<T>>, i: nat, j: nat)
    requires i < |xss| && j < |xss[i]|
    ensures TotalLength(xss[..i]) + j < |Flatten(xss)|
    ensures Flatten(xss)[TotalLength(xss[..i]) + j] == xss[i][j]
  {
    if i > 0 {
      FlattenIndex(xss[1..], i - 1, j);
      assert xss[..i][1..] == xss[1..][..i - 1];
    }
  }

  /** Every element of the flattening comes from one of the rows. */
  lemma {:induction false} FlattenMember<T>(xss: seq<seq<T>>, x: T)
    requires x in Flatten(xss)
    ensures exists i :: 0 <= i < |xss| && x in xss[i]
  {
    if x !in xss[0] {
      FlattenMember(xss[1..], x);
      var i :| 0 <= i < |xss[1..]| && x in xss[1..][i];
      assert x in xss[i + 1];
    }
  }

  /** Flattening only depends on the rows, so rows of equal length give equal total lengths. */
  lemma {:induction false} TotalLengthOfSameShape<T, U>(xss: seq<seq<T>>, yss: seq<seq<U>>)
    requires |xss| == |yss|
    requires forall i :: 0 <= i < |xss| ==> |xss[i]| == |yss[i]|
    ensures TotalLength(xss) == TotalLength(yss)
  {
    if |xss| > 0 {
      TotalLengthOfSameShape(xss[1..], yss[1..]);
    }
  }

  /** The distinct elements of `s` in order of first occurrence (what a d3 set's values() lists). */
  function Dedup<T(==,!new)>(s: seq<T>): (r: seq<T>)
    ensures forall x :: x in r <==> x in s
    ensures Distinct(r)
  {
    if |s| == 0 then []
    else
      var prev := Dedup(s[..|s| - 1]);
      var last := s[|s| - 1];
      assert s == s[..|s| - 1] + [last];
      if last in prev then prev else prev + [last]
  }

  /** Appending one element to both sides, or to the larger side alone, keeps a subsequence. */
  lemma {:induction false} SubseqSnoc<T>(a: seq<T>, b: seq<T>, x: T)
    requires IsSubseq(a, b)
    ensures IsSubseq(a, b + [x]) && IsSubseq(a + [x], b + [x])
    decreases |b|
  {
    if |b| == 0 {
      assert a + [x] == [x];
      assert (b + [x])[1..] == [];
    } else {
      assert (b + [x])[0] == b[0] && (b + [x])[1..] == b[1..] + [x];
      if |a| > 0 && a[0] == b[0] && IsSubseq(a[1..], b[1..]) {
        SubseqSnoc(a[1..], b[1..], x);
        assert (a + [x])[0] == a[0] && (a + [x])[1..] == a[1..] + [x];
      } else if |a| > 0 {
        SubseqSnoc(a, b[1..], x);
      } else {
        SubseqSnoc(a, b[1..], x);
        assert a + [x] == [x];
      }
    }
  }

  /** The first occurrences keep their order: `Dedup(s)` is a subsequence of `s`. */
  lemma {:induction false} DedupIsSubseq<T(!new)>(s: seq<T>)
    ensures IsSubseq(Dedup(s), s)
    decreases |s|
  {
    if |s| > 0 {
      var init := s[..|s| - 1];
      var last := s[|s| - 1];
      assert s == init + [last];
      DedupIsSubseq(init);
      SubseqSnoc(Dedup(init), init, last);
    }
  }

  /** Array.prototype.indexOf: the first position holding `x`, or -1. */
  function IndexOf<T(==)>(s: seq<T>, x: T): (r: int)
    ensures -1 <= r < |s|
    ensures r >= 0 ==> s[r] == x && forall j :: 0 <= j < r ==> s[j] != x
    ensures r == -1 <==> x !in s
  {
    if |s| == 0 then -1
    else if s[0] == x then 0
    else
      var k := IndexOf(s[1..], x);
      assert s == [s[0]] + s[1..];
      if k == -1 then -1 else k + 1
  }
}
