/**
 * The cognostic dot histogram of assets/js/histo.js: which dots
 * drawCognostics selects, the scales it builds for them, the tick labels of
 * drawHistoAxis, the dots' key, and where drawHisto places a dot. Circles,
 * transitions and axes are D3's and are not modelled.
 */
module Histo {
  import opened Records
  import opened Seqs
  import opened Sorting
  import opened Scales
  import opened Ranks
  import opened Data

  // ----------------------------------------------------------------------
  // drawCognostics
  // ----------------------------------------------------------------------

  /**
   * drawCognostics' filter: the dot's cognostic is the chosen one, its drug
   * is among the drugs, and its region among the regions (`$.inArray` finds
   * it).
   */
  function Selects(cog: string, drugs: seq<string>, regions: seq<string>): HistoPoint -> bool {
    (d: HistoPoint) => d.cog == cog && d.col in drugs && d.region in regions
  }

  /** `getIncbHistoArray(incb_histo).filter(f)`. */
  function CognosticDots(xss: seq<seq<HistoRow>>, cog: string, drugs: seq<string>, regions: seq<string>): (r: seq<HistoPoint>)
    ensures IsSubseq(r, IncbHistoArray(xss))
    ensures forall d :: d in r <==> d in IncbHistoArray(xss) && d.cog == cog && d.col in drugs && d.region in regions
  {
    FilterIsSubseq(IncbHistoArray(xss), Selects(cog, drugs, regions));
    Filter(IncbHistoArray(xss), Selects(cog, drugs, regions))
  }

  function HistoPaddings(): (r: seq<real>)
    ensures |r| == 4
  {
    [70.0, 20.0, 20.0, 20.0]
  }

  /** What drawCognostics hands to drawHisto and drawHistoAxis. */
  datatype Cognostic = Cognostic(scaled: HistoScaled, ticks: seq<string>)

  /**
   * drawCognostics(elem, incb_histo, incb_histo_levels, cog, regions, drugs):
   * select the dots, rank them and build the scales against the bins listed
   * for the cognostic, and choose the axis ticks. None stands for the
   * TypeError raised when the cognostic has no entry in the levels table
   * (`undefined.filter`).
   */
  function Cognostics(xss: seq<seq<HistoRow>>, levels: map<string, seq<string>>, cog: string,
                      regions: seq<string>, drugs: seq<string>, width: real, height: real,
                      parse: string -> Option<real>): (r: Option<Cognostic>)
    ensures r.None? <==> cog !in levels
    ensures r.Some? ==> r.value.ticks == TickValues(r.value.scaled.bin.domain)
  {
    if cog !in levels then None
    else
      var scaled := HistoScales(CognosticDots(xss, cog, drugs, regions), levels[cog], width, height, HistoPaddings(), parse);
      Some(Cognostic(scaled, TickValues(scaled.bin.domain)))
  }

  /**
   * The dots drawCognostics draws are the selected dots, in order, with only
   * their `rank_id` rewritten; each is a row of the chosen cognostic, drug
   * and region.
   */
  lemma CognosticsDraws(xss: seq<seq<HistoRow>>, levels: map<string, seq<string>>, cog: string,
                        regions: seq<string>, drugs: seq<string>, width: real, height: real,
                        parse: string -> Option<real>)
    requires cog in levels
    ensures var dots := CognosticDots(xss, cog, drugs, regions);
            var drawn := Cognostics(xss, levels, cog, regions, drugs, width, height, parse).value.scaled.data;
            && |drawn| == |dots|
            && (forall j :: 0 <= j < |dots| ==> drawn[j].(rank := dots[j].rank) == dots[j])
            && (forall j :: 0 <= j < |dots| ==> drawn[j].cog == cog && drawn[j].col in drugs && drawn[j].region in regions)
  {
    var dots := CognosticDots(xss, cog, drugs, regions);
    forall j | 0 <= j < |dots|
      ensures dots[j].cog == cog && dots[j].col in drugs && dots[j].region in regions
    {
      assert dots[j] in dots;
    }
  }

  /**
   * The bin axis of drawCognostics lists bins of the cognostic's levels, in
   * the levels' order, and so do its ticks.
   */
  lemma CognosticsBinsListed(xss: seq<seq<HistoRow>>, levels: map<string, seq<string>>, cog: string,
                             regions: seq<string>, drugs: seq<string>, width: real, height: real,
                             parse: string -> Option<real>)
    requires cog in levels
    ensures var c := Cognostics(xss, levels, cog, regions, drugs, width, height, parse).value;
            && IsSubseq(c.scaled.bin.domain, levels[cog]) && Distinct(c.scaled.bin.domain)
            && IsSubseq(c.ticks, levels[cog])
  {
    var c := Cognostics(xss, levels, cog, regions, drugs, width, height, parse).value;
    SubseqTrans(c.ticks, c.scaled.bin.domain, levels[cog]);
  }

  // ----------------------------------------------------------------------
  // drawHistoAxis
  // ----------------------------------------------------------------------

  /** The index filter of drawHistoAxis: `!(i % s)`, where `i % 0` is NaN and `!NaN` is true. */
  function KeepTick(s: nat): nat -> bool {
    (i: nat) => s == 0 || i % s == 0
  }

  /** The positions drawHistoAxis keeps among n bins, with s = floor(n / 6), in ascending order. */
  function TickIndices(n: nat): (r: seq<nat>)
    ensures forall i: nat :: i in r <==> i < n && (n / 6 == 0 || i % (n / 6) == 0)
    ensures forall k :: 0 <= k < |r| ==> r[k] < n
    ensures Increasing(r)
  {
    var r := Filter(Iota(n), KeepTick(n / 6));
    assert forall i: nat :: i in Iota(n) <==> i < n by {
      forall i: nat
        ensures i in Iota(n) <==> i < n
      {
        if i < n {
          assert Iota(n)[i] == i;
        }
      }
    }
    assert forall k :: 0 <= k < |r| ==> r[k] in r;
    FilterIncreasing(Iota(n), KeepTick(n / 6));
    r
  }

  /**
   * drawHistoAxis' tick values: the bin labels at the kept positions. They
   * keep the domain's order, and the first bin always gets a tick.
   */
  function TickValues(domain: seq<string>): (r: seq<string>)
    ensures |r| == |TickIndices(|domain|)|
    ensures forall k :: 0 <= k < |r| ==> r[k] == domain[TickIndices(|domain|)[k]]
    ensures IsSubseq(r, domain)
    ensures |domain| > 0 ==> |r| > 0 && r[0] == domain[0]
  {
    var ix := TickIndices(|domain|);
    PickIncreasingIsSubseq(domain, ix);
    FirstTickAtZero(|domain|);
    Pick(domain, ix)
  }

  /** Position 0 is always kept, and it comes first. */
  lemma FirstTickAtZero(n: nat)
    ensures n > 0 ==> |TickIndices(n)| > 0 && TickIndices(n)[0] == 0
  {
    var ix := TickIndices(n);
    if n > 0 {
      assert 0 in ix;
      var z :| 0 <= z < |ix| && ix[z] == 0;
      assert z == 0 || ix[0] < ix[z];
    }
  }

  /** Every tick is a bin of the domain. */
  lemma TickValuesFromDomain(domain: seq<string>)
    ensures forall t :: t in TickValues(domain) ==> t in domain
  {
    var ix := TickIndices(|domain|);
    forall t | t in TickValues(domain)
      ensures t in domain
    {
      var k :| 0 <= k < |ix| && TickValues(domain)[k] == t;
      assert ix[k] in ix;
    }
  }

  /** With fewer than six bins, floor(n / 6) is 0 and every bin gets a tick. */
  lemma AllTicksWhenFewBins(domain: seq<string>)
    requires |domain| < 6
    ensures TickValues(domain) == domain
  {
    FilterKeepsAll(Iota(|domain|), KeepTick(0));
  }

  /**
   * With six bins or more, the ticks are the bins at the multiples of
   * s = floor(n / 6); in particular positions 0, s, 2s, 3s, 4s and 5s, six
   * distinct positions, all get a tick.
   */
  lemma TicksAtMultiples(n: nat)
    requires n >= 6
    ensures var s := n / 6;
            && s >= 1
            && (forall i: nat :: i in TickIndices(n) <==> i < n && i % s == 0)
            && 0 in TickIndices(n) && s in TickIndices(n) && 2 * s in TickIndices(n)
            && 3 * s in TickIndices(n) && 4 * s in TickIndices(n) && 5 * s in TickIndices(n)
  {
    var s := n / 6;
    assert 6 * s <= n;
    MultipleMod(s, 2);
    MultipleMod(s, 3);
    MultipleMod(s, 4);
    MultipleMod(s, 5);
  }

  lemma MulAwayFromZero(x: int, s: int)
    requires s >= 1
    ensures x >= 1 ==> x * s >= s
    ensures x <= -1 ==> x * s <= -s
  {
    if x >= 1 {
      assert x * s == (x - 1) * s + s;
    } else if x <= -1 {
      assert x * s == (x + 1) * s - s;
    }
  }

  lemma MultipleMod(s: nat, k: nat)
    requires s >= 1
    ensures (k * s) % s == 0
  {
    var m := k * s;
    var x := k - m / s;
    assert m == (m / s) * s + m % s;
    assert x * s == m % s;
    MulAwayFromZero(x, s);
  }

  // ----------------------------------------------------------------------
  // drawHisto
  // ----------------------------------------------------------------------

  /** drawCognostics' key `col_id + "_" + group_id`. */
  function HistoKey(d: HistoPoint): string {
    d.col + "_" + d.group
  }

  /**
   * The key identifies a dot by drug and country as long as drug names hold
   * no underscore: then two dots share a key exactly when they share both.
   */
  lemma HistoKeyIdentifies(d: HistoPoint, e: HistoPoint)
    requires '_' !in d.col && '_' !in e.col
    ensures HistoKey(d) == HistoKey(e) <==> d.col == e.col && d.group == e.group
  {
    if HistoKey(d) == HistoKey(e) {
      SplitAtFirst(d.col, d.group, e.col, e.group);
    }
  }

  /** Two drug names with an underscore can make different dots share a key. */
  lemma HistoKeyCollision(d: HistoPoint, e: HistoPoint)
    requires d.col == "a_b" && d.group == "c" && e.col == "a" && e.group == "b_c"
    ensures HistoKey(d) == HistoKey(e) && d.col != e.col
  {
  }

  /**
   * Where drawHisto puts a dot: entering dots start at rank 0 of their bin's
   * row, updated dots move to their own rank. The scales are given as
   * functions (their evaluation belongs to D3).
   */
  function DotPosition(d: HistoPoint, entering: bool, rankScale: int -> real, binScale: string -> real): (r: (real, real))
    ensures r.1 == binScale(d.bin)
    ensures r.0 == rankScale(if entering then 0 else d.rank)
  {
    (rankScale(if entering then 0 else d.rank), binScale(d.bin))
  }

  /** An entering dot slides only sideways to its place, and not at all when its rank is 0. */
  lemma EnterThenUpdate(d: HistoPoint, rankScale: int -> real, binScale: string -> real)
    ensures DotPosition(d, true, rankScale, binScale).1 == DotPosition(d, false, rankScale, binScale).1
    ensures d.rank == 0 ==> DotPosition(d, true, rankScale, binScale) == DotPosition(d, false, rankScale, binScale)
  {
  }

  /**
   * After the update, no two dots of one bin sit on each other: their ranks
   * are distinct entries of the bin's argsort, so a rank scale that maps
   * distinct ranks apart (a linear scale over a non-degenerate domain) puts
   * them at distinct places on the bin's row.
   */
  lemma UpdatedDotsApart(data: seq<HistoPoint>, bins: seq<string>, j1: nat, j2: nat,
                         rankScale: int -> real, binScale: string -> real)
    requires j1 < |data| && j2 < |data| && j1 != j2
    requires data[j1].bin == data[j2].bin && data[j1].bin in bins
    requires forall x, y :: rankScale(x) == rankScale(y) ==> x == y
    ensures var ranked := Ranked(data, bins);
            && DotPosition(ranked[j1], false, rankScale, binScale).1 == DotPosition(ranked[j2], false, rankScale, binScale).1
            && DotPosition(ranked[j1], false, rankScale, binScale).0 != DotPosition(ranked[j2], false, rankScale, binScale).0
  {
    var b := data[j1].bin;
    var ix := BinIndices(data, b);
    var p := SortIndices(BinValues(data, b)).sortIndices;
    BinIndicesAt(data, j1);
    BinIndicesAt(data, j2);
    var k1 := PosInBin(data, j1);
    var k2 := PosInBin(data, j2);
    assert k1 != k2;
    RanksInBin(data, bins, b);
    assert p[k1] != p[k2] by {
      assert Distinct(p);
    }
  }
}
