/**
 * insertRanks and histoScales (assets/js/scales.js): the per-bin ranking of
 * histogram dots and the bin-domain filter.
 *
 * insertRanks stores, at the j-th dot of a bin (in input order), entry j of
 * the bin's argsort. That is the index of the j-th smallest dot, not the
 * j-th dot's own rank; the two differ as soon as a bin holds three dots in
 * a suitable order (RankIsArgsortExample).
 */
module Ranks {
  import opened Records
  import opened Seqs
  import opened Sorting
  import opened Scales

  // ----------------------------------------------------------------------
  // The dots of one bin
  // ----------------------------------------------------------------------

  /** The positions of the dots whose `bin_id` is `b`, ascending: `indices.filter(j => binData[j].bin_id == b)`. */
  function BinIndices(data: seq<HistoPoint>, b: string): (ix: seq<nat>)
    ensures forall k :: 0 <= k < |ix| ==> ix[k] < |data| && data[ix[k]].bin == b
    ensures forall j :: 0 <= j < |data| && data[j].bin == b ==> j in ix
    ensures forall k, l :: 0 <= k < l < |ix| ==> ix[k] < ix[l]
    decreases |data|
  {
    if |data| == 0 then []
    else
      var n := |data| - 1;
      var prev := BinIndices(data[..n], b);
      assert forall j :: 0 <= j < n ==> data[..n][j] == data[j];
      if data[n].bin == b then prev + [n] else prev
  }

  /** The values of the dots of bin `b`, in input order: what insertRanks hands to sortIndices. */
  function BinValues(data: seq<HistoPoint>, b: string): (vs: seq<real>)
    ensures |vs| == |BinIndices(data, b)|
    ensures forall k :: 0 <= k < |vs| ==> vs[k] == data[BinIndices(data, b)[k]].value
  {
    var ix := BinIndices(data, b);
    seq(|ix|, k requires 0 <= k < |ix| => data[ix[k]].value)
  }

  /** How many dots of the same bin come before dot j. */
  function PosInBin(data: seq<HistoPoint>, j: nat): nat
    requires j < |data|
  {
    |BinIndices(data[..j], data[j].bin)|
  }

  lemma {:induction false} BinIndicesPrefix(data: seq<HistoPoint>, n: nat, b: string)
    requires n <= |data|
    ensures BinIndices(data[..n], b) <= BinIndices(data, b)
    decreases |data| - n
  {
    if n < |data| {
      BinIndicesPrefix(data, n + 1, b);
      assert data[..n + 1][..n] == data[..n];
    } else {
      assert data[..n] == data;
    }
  }

  /** Dot j is entry PosInBin(j) of its bin's index list. */
  lemma BinIndicesAt(data: seq<HistoPoint>, j: nat)
    requires j < |data|
    ensures PosInBin(data, j) < |BinIndices(data, data[j].bin)|
    ensures BinIndices(data, data[j].bin)[PosInBin(data, j)] == j
  {
    var b := data[j].bin;
    BinIndicesPrefix(data, j + 1, b);
    assert data[..j + 1][..j] == data[..j];
  }

  /** Entry k of a bin's index list is the dot with PosInBin k. */
  lemma PosInBinOfIndex(data: seq<HistoPoint>, b: string, k: nat)
    requires k < |BinIndices(data, b)|
    ensures var j := BinIndices(data, b)[k];
            data[j].bin == b && PosInBin(data, j) == k
  {
    var ix := BinIndices(data, b);
    var j := ix[k];
    BinIndicesAt(data, j);
  }

  // ----------------------------------------------------------------------
  // insertRanks
  // ----------------------------------------------------------------------

  /** The `rank_id` insertRanks writes into dot j: entry PosInBin(j) of the argsort of its bin's values. */
  function RankOf(data: seq<HistoPoint>, j: nat): (r: nat)
    requires j < |data|
    ensures r < |BinIndices(data, data[j].bin)|
  {
    BinIndicesAt(data, j);
    SortIndices(BinValues(data, data[j].bin)).sortIndices[PosInBin(data, j)]
  }

  /**
   * The array insertRanks(binData, bins) returns: every dot whose bin is in
   * `bins` gets its RankOf; every other dot is left as it was.
   */
  function Ranked(data: seq<HistoPoint>, bins: seq<string>): (r: seq<HistoPoint>)
    ensures |r| == |data|
    ensures forall j :: 0 <= j < |data| ==> r[j].(rank := data[j].rank) == data[j]
    ensures forall j :: 0 <= j < |data| && data[j].bin !in bins ==> r[j] == data[j]
  {
    seq(|data|, j requires 0 <= j < |data| =>
      if data[j].bin in bins then data[j].(rank := RankOf(data, j)) else data[j])
  }

  lemma SameBinsSameIndices(data: seq<HistoPoint>, other: seq<HistoPoint>, b: string)
    requires |data| == |other|
    requires forall j :: 0 <= j < |data| ==> (data[j].bin == b) == (other[j].bin == b)
    ensures BinIndices(data, b) == BinIndices(other, b)
    decreases |data|
  {
    if |data| > 0 {
      var n := |data| - 1;
      SameBinsSameIndices(data[..n], other[..n], b);
    }
  }

  /**
   * The state of insertRanks' loops: the dots of the bins in `done`, and the
   * dots at the positions in `extra`, already hold their entry of `goal`;
   * every other dot is as it came in.
   */
  predicate RankedSoFar(data: seq<HistoPoint>, r: seq<HistoPoint>, goal: seq<HistoPoint>, done: seq<string>, extra: seq<nat>) {
    && |r| == |data| == |goal|
    && forall j :: 0 <= j < |data| ==>
         r[j] == if data[j].bin in done || j in extra then goal[j] else data[j]
  }

  /** Writing the goal's rank into the dot at ix[k] extends the loop state by that dot. */
  lemma WriteRankStep(data: seq<HistoPoint>, r: seq<HistoPoint>, goal: seq<HistoPoint>, done: seq<string>,
                      ix: seq<nat>, k: nat, rank: int)
    requires k < |ix| && ix[k] < |data|
    requires RankedSoFar(data, r, goal, done, ix[..k])
    requires goal[ix[k]] == data[ix[k]].(rank := rank)
    ensures RankedSoFar(data, r[ix[k] := r[ix[k]].(rank := rank)], goal, done, ix[..k + 1])
  {
    assert ix[..k + 1] == ix[..k] + [ix[k]];
  }

  /** Once every dot of bin `all[i]` is written, that bin joins the finished ones. */
  lemma CloseBin(data: seq<HistoPoint>, r: seq<HistoPoint>, goal: seq<HistoPoint>, all: seq<string>, i: nat, ix: seq<nat>)
    requires i < |all| && RankedSoFar(data, r, goal, all[..i], ix)
    requires forall j :: 0 <= j < |data| && data[j].bin == all[i] ==> j in ix
    requires forall k :: 0 <= k < |ix| ==> ix[k] < |data| && data[ix[k]].bin == all[i]
    ensures RankedSoFar(data, r, goal, all[..i + 1], [])
  {
    assert all[..i + 1] == all[..i] + [all[i]];
    forall j | 0 <= j < |data|
      ensures (data[j].bin in all[..i + 1]) == (data[j].bin in all[..i] || j in ix)
    {
    }
  }

  /** The dot at entry k of bin b's index list is ranked with entry k of the bin's argsort. */
  lemma RankAtIndex(data: seq<HistoPoint>, b: string, k: nat)
    requires k < |BinIndices(data, b)|
    ensures var j := BinIndices(data, b)[k];
            data[j].bin == b && RankOf(data, j) == SortIndices(BinValues(data, b)).sortIndices[k]
  {
    PosInBinOfIndex(data, b, k);
  }

  /**
   * insertRanks(binData, bins): for each distinct bin, sort the values of its
   * dots and write the argsort, entry by entry, into the dots in input order.
   * The loops only ever change `rank_id`, so the bin and value of every dot
   * are read from the input.
   */
  method InsertRanks(data: seq<HistoPoint>, bins: seq<string>) returns (r: seq<HistoPoint>)
    ensures r == Ranked(data, bins)
  {
    var uniqueBins := Dedup(bins);
    ghost var goal := Ranked(data, bins);
    r := data;
    var i := 0;
    while i < |uniqueBins|
      invariant 0 <= i <= |uniqueBins|
      invariant RankedSoFar(data, r, goal, uniqueBins[..i], [])
    {
      var b := uniqueBins[i];
      var ix := BinIndices(data, b);
      var ranks := SortIndices(BinValues(data, b)).sortIndices;
      var k := 0;
      while k < |ix|
        invariant 0 <= k <= |ix|
        invariant RankedSoFar(data, r, goal, uniqueBins[..i], ix[..k])
      {
        RankAtIndex(data, b, k);
        assert b in bins;
        WriteRankStep(data, r, goal, uniqueBins[..i], ix, k, ranks[k]);
        r := r[ix[k] := r[ix[k]].(rank := ranks[k])];
        k := k + 1;
      }
      assert ix[..k] == ix;
      CloseBin(data, r, goal, uniqueBins, i, ix);
      i := i + 1;
    }
    assert uniqueBins[..i] == uniqueBins;
  }

  /**
   * Within one bin, the ranks insertRanks assigns, read in input order, are
   * the argsort of the bin's values, a permutation of 0..k-1 for a bin of k
   * dots (BinArgsortSorts: it lists the dots from smallest to largest value).
   */
  lemma RanksInBin(data: seq<HistoPoint>, bins: seq<string>, b: string)
    requires b in bins
    ensures var ix := BinIndices(data, b);
            var p := SortIndices(BinValues(data, b)).sortIndices;
            && IsPermutation(p, |ix|)
            && (forall k :: 0 <= k < |ix| ==> Ranked(data, bins)[ix[k]].rank == p[k])
  {
    var ix := BinIndices(data, b);
    var p := SortIndices(BinValues(data, b)).sortIndices;
    forall k | 0 <= k < |ix|
      ensures Ranked(data, bins)[ix[k]].rank == p[k]
    {
      RankAtIndex(data, b, k);
    }
  }

  /** Listing bin b's dots by its argsort lists their values in ascending order. */
  lemma BinArgsortSorts(data: seq<HistoPoint>, b: string)
    ensures var ix := BinIndices(data, b);
            var p := SortIndices(BinValues(data, b)).sortIndices;
            forall k, l :: 0 <= k < l < |ix| ==> data[ix[p[k]]].value <= data[ix[p[l]]].value
  {
    var ix := BinIndices(data, b);
    var s := SortIndices(BinValues(data, b));
    var p := s.sortIndices;
    forall k, l | 0 <= k < l < |ix|
      ensures data[ix[p[k]]].value <= data[ix[p[l]]].value
    {
      assert s.sorted[k] <= s.sorted[l];
    }
  }

  /**
   * A dot's rank depends only on the dots of its own bin: two arrays that
   * place the same dots in bin b, with the same values, rank them alike,
   * whatever the other bins hold.
   */
  lemma RankIsLocalToBin(data: seq<HistoPoint>, other: seq<HistoPoint>, bins: seq<string>, b: string, j: nat)
    requires |data| == |other| && j < |data| && data[j].bin == b && b in bins
    requires forall i :: 0 <= i < |data| ==> (data[i].bin == b) == (other[i].bin == b)
    requires forall i :: 0 <= i < |data| && data[i].bin == b ==> data[i].value == other[i].value
    ensures Ranked(data, bins)[j].rank == Ranked(other, bins)[j].rank
  {
    SameBinsSameIndices(data, other, b);
    SameBinsSameIndices(data[..j], other[..j], b);
    assert BinValues(data, b) == BinValues(other, b);
  }

  /** When every dot sits in bin b, the bin's index list is 0, 1, ..., n-1. */
  lemma {:induction false} AllInOneBin(data: seq<HistoPoint>, b: string)
    requires forall j :: 0 <= j < |data| ==> data[j].bin == b
    ensures BinIndices(data, b) == Iota(|data|)
    decreases |data|
  {
    if |data| > 0 {
      var n := |data| - 1;
      AllInOneBin(data[..n], b);
    }
  }

  /** Two dots in one bin with values 7 then 3 receive ranks 1 then 0. */
  lemma RankTwoExample(data: seq<HistoPoint>, bins: seq<string>)
    requires |data| == 2 && data[0].bin == data[1].bin && data[0].bin in bins
    requires data[0].value == 7.0 && data[1].value == 3.0
    ensures Ranked(data, bins)[0].rank == 1 && Ranked(data, bins)[1].rank == 0
  {
    var b := data[0].bin;
    AllInOneBin(data, b);
    RanksInBin(data, bins, b);
    var vs := BinValues(data, b);
    assert |vs| == 2 && vs[0] == 7.0 && vs[1] == 3.0;
    ArgsortOf73(vs);
  }

  lemma ArgsortOf73(vs: seq<real>)
    requires |vs| == 2 && vs[0] == 7.0 && vs[1] == 3.0
    ensures SortIndices(vs).sortIndices == [1, 0]
  {
    var s := SortIndices(vs);
    var p := s.sortIndices;
    assert p[0] < 2 && p[1] < 2 && p[0] != p[1];
    assert s.sorted[0] <= s.sorted[1];
  }

  /**
   * Three dots in one bin with values 5, 9, 1 receive 2, 0, 1: the argsort.
   * Their ranks by value would be 1, 2, 0, so the dot with the smallest value
   * is not the one stored with rank 0.
   */
  lemma RankIsArgsortExample(data: seq<HistoPoint>, bins: seq<string>)
    requires |data| == 3 && data[0].bin == data[1].bin == data[2].bin && data[0].bin in bins
    requires data[0].value == 5.0 && data[1].value == 9.0 && data[2].value == 1.0
    ensures Ranked(data, bins)[0].rank == 2 && Ranked(data, bins)[1].rank == 0 && Ranked(data, bins)[2].rank == 1
  {
    var b := data[0].bin;
    AllInOneBin(data, b);
    RanksInBin(data, bins, b);
    var vs := BinValues(data, b);
    assert |vs| == 3 && vs[0] == 5.0 && vs[1] == 9.0 && vs[2] == 1.0;
    ArgsortOf591(vs);
  }

  lemma ArgsortOf591(vs: seq<real>)
    requires |vs| == 3 && vs[0] == 5.0 && vs[1] == 9.0 && vs[2] == 1.0
    ensures SortIndices(vs).sortIndices == [2, 0, 1]
  {
    var s := SortIndices(vs);
    var p := s.sortIndices;
    assert s.sorted[0] <= s.sorted[1] <= s.sorted[2];
    OnlyOrderOf591(vs[0], vs[1], vs[2], p[0], p[1], p[2]);
  }

  /** The only way to list the values 5, 9, 1 in ascending order is by the indices 2, 0, 1. */
  lemma OnlyOrderOf591(v0: real, v1: real, v2: real, p0: nat, p1: nat, p2: nat)
    requires v0 == 5.0 && v1 == 9.0 && v2 == 1.0
    requires p0 < 3 && p1 < 3 && p2 < 3 && p0 != p1 && p0 != p2 && p1 != p2
    requires var v := (t: nat) => if t == 0 then v0 else if t == 1 then v1 else v2;
             v(p0) <= v(p1) <= v(p2)
    ensures p0 == 2 && p1 == 0 && p2 == 1
  {
  }

  // ----------------------------------------------------------------------
  // histoScales
  // ----------------------------------------------------------------------

  /** String.prototype.slice(start, end), with negative positions counted from the end. */
  function JsSlice(s: string, start: int, end: int): (r: string)
    ensures |r| <= |s|
    ensures 0 <= start <= end <= |s| ==> r == s[start..end]
    ensures 0 <= start <= |s| <= end ==> r == s[start..]
    ensures end < 0 && 0 <= start <= |s| + end ==> r == s[start..|s| + end]
    ensures 0 <= end <= start || (end < 0 && 0 <= |s| + end <= start) ==> r == ""
  {
    var from := if start < 0 then Max0(|s| + start) else Min0(start, |s|);
    var to := if end < 0 then Max0(|s| + end) else Min0(end, |s|);
    if from < to then s[from..to] else ""
  }

  function Max0(x: int): nat {
    if x < 0 then 0 else x
  }

  function Min0(x: nat, n: nat): nat {
    if x < n then x else n
  }

  /**
   * `b.slice(1, b.indexOf(","))`: the text between the first character and
   * the first comma; with no comma, everything but the first and last
   * characters.
   */
  function LowerText(b: string): (r: string)
    ensures ',' in b && IndexOf(b, ',') > 0 ==> r == b[1..IndexOf(b, ',')]
    ensures ',' !in b && |b| >= 2 ==> r == b[1..|b| - 1]
    ensures (',' in b && IndexOf(b, ',') == 0) || (',' !in b && |b| < 2) ==> r == ""
  {
    JsSlice(b, 1, IndexOf(b, ','))
  }

  /** The lower endpoints of the engaged bins (parseFloat is `parse`; None is NaN). */
  function LowerEndpoints(bins: seq<string>, parse: string -> Option<real>): (r: seq<Option<real>>)
    ensures |r| == |Dedup(bins)|
    ensures forall b :: b in bins ==> parse(LowerText(b)) in r
    ensures forall k :: 0 <= k < |r| ==> exists b :: b in bins && r[k] == parse(LowerText(b))
  {
    var u := Dedup(bins);
    var r := seq(|u|, k requires 0 <= k < |u| => parse(LowerText(u[k])));
    assert forall b :: b in bins ==> parse(LowerText(b)) in r by {
      forall b | b in bins
        ensures parse(LowerText(b)) in r
      {
        var k :| 0 <= k < |u| && u[k] == b;
        assert r[k] == parse(LowerText(b));
      }
    }
    assert forall k :: 0 <= k < |r| ==> u[k] in bins && r[k] == parse(LowerText(u[k])) by {
      forall k | 0 <= k < |r|
        ensures u[k] in bins
      {
        assert u[k] in u;
      }
    }
    r
  }

  /**
   * The histoScales filter: a label is kept iff its lower endpoint parses and
   * lies within [min, max] of the engaged lower endpoints (d3.min and d3.max
   * skip NaN; a comparison with NaN or with no extent at all is false).
   */
  function Engaged(ext: Option<Interval>, parse: string -> Option<real>): string -> bool {
    (b: string) => ext.Some? && parse(LowerText(b)).Some?
                   && ext.value.lo <= parse(LowerText(b)).value <= ext.value.hi
  }

  /** `binDomain.filter(...)` in histoScales: the labels whose lower endpoint lies among the engaged bins'. */
  function FilterBinDomain(binDomain: seq<string>, bins: seq<string>, parse: string -> Option<real>): (r: seq<string>)
    ensures IsSubseq(r, binDomain)
    ensures var ext := Extent(LowerEndpoints(bins, parse));
            forall b :: b in r <==>
              && b in binDomain
              && parse(LowerText(b)).Some?
              && ext.Some?
              && ext.value.lo <= parse(LowerText(b)).value <= ext.value.hi
  {
    var keep := Engaged(Extent(LowerEndpoints(bins, parse)), parse);
    FilterIsSubseq(binDomain, keep);
    Filter(binDomain, keep)
  }

  /** Every engaged bin listed in the domain is kept, provided its label parses. */
  lemma EngagedBinsKept(binDomain: seq<string>, bins: seq<string>, parse: string -> Option<real>, b: string)
    requires b in binDomain && b in bins && parse(LowerText(b)).Some?
    ensures b in FilterBinDomain(binDomain, bins, parse)
  {
    var u := Dedup(bins);
    var k :| 0 <= k < |u| && u[k] == b;
    assert LowerEndpoints(bins, parse)[k] == parse(LowerText(b));
  }

  /** An ordinal scale with `rangePoints`: the labels, spread over [start, stop]. */
  datatype PointScale = PointScale(domain: seq<string>, range: Span)

  /** What histoScales returns, and binData as insertRanks leaves it. */
  datatype HistoScaled = HistoScaled(bin: PointScale, rank: Scale, data: seq<HistoPoint>)

  /** The `rank_id`s of the ranked dots, as scale input. */
  function RankValues(data: seq<HistoPoint>): (r: seq<Option<real>>)
    ensures |r| == |data|
    ensures forall j :: 0 <= j < |data| ==> r[j] == Some(data[j].rank as real)
  {
    seq(|data|, j requires 0 <= j < |data| => Some(data[j].rank as real))
  }

  /** The bin of every dot: `binData.map(d => d.bin_id)`. */
  function Bins(data: seq<HistoPoint>): (r: seq<string>)
    ensures |r| == |data|
    ensures forall j :: 0 <= j < |data| ==> r[j] == data[j].bin
  {
    seq(|data|, j requires 0 <= j < |data| => data[j].bin)
  }

  /**
   * histoScales(binData, binDomain, elem, paddings): rank the dots, filter
   * the bin domain, and configure the bin scale over
   * [height - p3, p2] and the rank scale over [p0, width - p1]. An ordinal
   * scale keeps only the first copy of a repeated label, so the bin scale's
   * domain is the filtered list without repeats.
   */
  function HistoScales(data: seq<HistoPoint>, binDomain: seq<string>, width: real, height: real,
                       paddings: seq<real>, parse: string -> Option<real>): (r: HistoScaled)
    requires |paddings| == 4
    ensures r.data == Ranked(data, Bins(data))
    ensures r.bin.domain == Dedup(FilterBinDomain(binDomain, Bins(data), parse))
    ensures IsSubseq(r.bin.domain, binDomain) && Distinct(r.bin.domain)
    ensures forall b :: b in r.bin.domain <==> b in FilterBinDomain(binDomain, Bins(data), parse)
    ensures r.bin.range == Span(height - paddings[3], paddings[2])
    ensures r.rank.kind == Linear && r.rank.range == Span(paddings[0], width - paddings[1])
    ensures r.rank.domain == Extent(RankValues(r.data))
  {
    var bins := Bins(data);
    var ranked := Ranked(data, bins);
    var kept := FilterBinDomain(binDomain, bins, parse);
    DedupIsSubseq(kept);
    SubseqTrans(Dedup(kept), kept, binDomain);
    HistoScaled(PointScale(Dedup(kept), Span(height - paddings[3], paddings[2])),
                Scale(Linear, Extent(RankValues(ranked)), Span(paddings[0], width - paddings[1])),
                ranked)
  }

  /**
   * The bin axis of histoScales keeps the order of `binDomain`, and every
   * bin holding a dot is on it, provided the bin is listed and its label
   * parses.
   */
  lemma HistoScalesBinDomain(data: seq<HistoPoint>, binDomain: seq<string>, width: real, height: real,
                             paddings: seq<real>, parse: string -> Option<real>, j: nat)
    requires |paddings| == 4 && j < |data|
    requires data[j].bin in binDomain && parse(LowerText(data[j].bin)).Some?
    ensures var dom := HistoScales(data, binDomain, width, height, paddings, parse).bin.domain;
            IsSubseq(dom, binDomain) && Distinct(dom) && data[j].bin in dom
  {
    var bins := Bins(data);
    assert bins[j] == data[j].bin;
    EngagedBinsKept(binDomain, bins, parse, data[j].bin);
  }

  /** Every rank is below the number of dots in the rank's bin, hence below the number of dots. */
  lemma RanksBelowCount(data: seq<HistoPoint>, bins: seq<string>, j: nat)
    requires j < |data| && data[j].bin in bins
    ensures 0 <= Ranked(data, bins)[j].rank < |data|
  {
    BinIndicesBound(data, data[j].bin);
  }

  /** Some dot of a non-empty histogram gets rank 0. */
  lemma RankZeroAttained(data: seq<HistoPoint>)
    requires |data| > 0
    ensures exists j :: 0 <= j < |data| && Ranked(data, Bins(data))[j].rank == 0
  {
    var bins := Bins(data);
    var b := data[0].bin;
    assert b in bins by {
      assert bins[0] == b;
    }
    var ix := BinIndices(data, b);
    var p := SortIndices(BinValues(data, b)).sortIndices;
    assert 0 in ix;
    assert 0 in p by {
      assert IsPermutation(p, |ix|);
    }
    var k :| 0 <= k < |p| && p[k] == 0;
    PosInBinOfIndex(data, b, k);
    assert Ranked(data, bins)[ix[k]].rank == RankOf(data, ix[k]);
  }

  /**
   * Since every dot's bin is among the bins histoScales ranks, every dot gets
   * a rank: the rank domain of a non-empty histogram starts at 0 and ends
   * below the number of dots; an empty one has no domain.
   */
  lemma RankDomainFromZero(data: seq<HistoPoint>, binDomain: seq<string>, width: real, height: real,
                           paddings: seq<real>, parse: string -> Option<real>)
    requires |paddings| == 4
    ensures var d := HistoScales(data, binDomain, width, height, paddings, parse).rank.domain;
            && (d.None? <==> |data| == 0)
            && (d.Some? ==> d.value.lo == 0.0 && d.value.hi < |data| as real)
  {
    var bins := Bins(data);
    var ranked := Ranked(data, bins);
    if |data| > 0 {
      RankZeroAttained(data);
      forall j | 0 <= j < |ranked|
        ensures 0 <= ranked[j].rank < |data|
      {
        assert bins[j] == data[j].bin;
        RanksBelowCount(data, bins, j);
      }
      RankExtent(ranked, |data|);
    }
  }

  /** The extent of ranks that include 0 and stay below n. */
  lemma RankExtent(ranked: seq<HistoPoint>, n: nat)
    requires forall j :: 0 <= j < |ranked| ==> 0 <= ranked[j].rank < n
    requires exists z :: 0 <= z < |ranked| && ranked[z].rank == 0
    ensures var e := Extent(RankValues(ranked));
            e.Some? && e.value.lo == 0.0 && e.value.hi < n as real
  {
    var vs := RankValues(ranked);
    var e := Extent(vs);
    var z :| 0 <= z < |ranked| && ranked[z].rank == 0;
    assert vs[z] == Some(0.0);
    assert e.Some? && e.value.lo <= 0.0;
    var i :| 0 <= i < |vs| && vs[i] == Some(e.value.lo);
    assert e.value.lo == ranked[i].rank as real >= 0.0;
    var h :| 0 <= h < |vs| && vs[h] == Some(e.value.hi);
    assert e.value.hi == ranked[h].rank as real < n as real;
  }

  lemma {:induction false} BinIndicesBound(data: seq<HistoPoint>, b: string)
    ensures |BinIndices(data, b)| <= |data|
    decreases |data|
  {
    if |data| > 0 {
      BinIndicesBound(data[..|data| - 1], b);
    }
  }
}
