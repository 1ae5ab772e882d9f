/**
 * The scale and bin configuration of assets/js/scales.js: the colour tables,
 * the scale constructors (as domain/range records; applying a scale belongs to
 * D3) and the time-series sentinel. insertRanks and histoScales are in
 * ranks.dfy.
 */
module Scales {
  import opened Records
  import opened Seqs
  import opened Sorting

  // ----------------------------------------------------------------------
  // d3.extent and the scale records
  // ----------------------------------------------------------------------

  /** A closed interval [lo, hi]: what d3.extent returns for data with a defined value. */
  datatype Interval = Interval(lo: real, hi: real)

  /** The pixel range a scale maps onto, in the order given to `.range`. */
  datatype Span = Span(start: real, stop: real)

  function Min(a: real, b: real): real {
    if a <= b then a else b
  }

  function Max(a: real, b: real): real {
    if a <= b then b else a
  }

  /**
   * d3.extent(xs): the least and greatest defined value, or None (D3's
   * [undefined, undefined]) when no value is defined. An undefined entry is
   * a field the record does not have.
   */
  function Extent(xs: seq<Option<real>>): (r: Option<Interval>)
    ensures r.None? <==> forall i :: 0 <= i < |xs| ==> xs[i].None?
    ensures r.Some? ==> r.value.lo <= r.value.hi
    ensures r.Some? ==> forall i :: 0 <= i < |xs| && xs[i].Some? ==> r.value.lo <= xs[i].value <= r.value.hi
    ensures r.Some? ==> exists i :: 0 <= i < |xs| && xs[i] == Some(r.value.lo)
    ensures r.Some? ==> exists i :: 0 <= i < |xs| && xs[i] == Some(r.value.hi)
  {
    if |xs| == 0 then None
    else
      var rest := Extent(xs[1..]);
      assert forall i :: 1 <= i < |xs| ==> xs[i] == xs[1..][i - 1];
      match xs[0]
      case None => rest
      case Some(v) =>
        match rest
        case None => Some(Interval(v, v))
        case Some(iv) => Some(Interval(Min(v, iv.lo), Max(v, iv.hi)))
  }

  /** The kinds of scale the dashboard builds from data. */
  datatype Kind = Linear | Pow(exponent: real) | Time

  /** A continuous scale as configured: its kind, its domain (from d3.extent) and its range. */
  datatype Scale = Scale(kind: Kind, domain: Option<Interval>, range: Span)

  /** The record field a scale reads: `x_id` or `y_id`. */
  datatype Id = XId | YId

  /** `d[id]`: the `{y_id: 0}` sentinel has no `x_id`. */
  function Get(d: Row, id: Id): (v: Option<real>)
    ensures d.Datum? ==> v == Some(if id == XId then d.item.point.x else d.item.point.y)
    ensures d.YOnly? ==> v == (if id == XId then None else Some(d.y))
  {
    match d
    case Datum(c) => Some(if id == XId then c.point.x else c.point.y)
    case YOnly(y) => if id == XId then None else Some(y)
  }

  /** `data.map(d => d[id])`. */
  function Values(data: seq<Row>, id: Id): (r: seq<Option<real>>)
    ensures |r| == |data|
    ensures forall i :: 0 <= i < |data| ==> r[i] == Get(data[i], id)
  {
    seq(|data|, i requires 0 <= i < |data| => Get(data[i], id))
  }

  /**
   * `dom` is d3.extent of `data[id]`: absent exactly when no record has the
   * field, otherwise an interval holding every value whose two ends are
   * values of the data.
   */
  predicate IsExtentOf(dom: Option<Interval>, data: seq<Row>, id: Id) {
    && (dom.Some? <==> exists i :: 0 <= i < |data| && Get(data[i], id).Some?)
    && (dom.Some? ==> forall i :: 0 <= i < |data| && Get(data[i], id).Some? ==>
          dom.value.lo <= Get(data[i], id).value <= dom.value.hi)
    && (dom.Some? ==> exists i :: 0 <= i < |data| && Get(data[i], id) == Some(dom.value.lo))
    && (dom.Some? ==> exists i :: 0 <= i < |data| && Get(data[i], id) == Some(dom.value.hi))
  }

  /** The extent of the field's values is the extent of the data in that field. */
  lemma ExtentOfValues(data: seq<Row>, id: Id)
    ensures IsExtentOf(Extent(Values(data, id)), data, id)
  {
    var xs := Values(data, id);
    var e := Extent(xs);
    if e.Some? {
      var a :| 0 <= a < |xs| && xs[a] == Some(e.value.lo);
      var b :| 0 <= b < |xs| && xs[b] == Some(e.value.hi);
      assert Get(data[a], id) == Some(e.value.lo) && Get(data[b], id) == Some(e.value.hi);
    } else {
      assert forall i :: 0 <= i < |data| ==> xs[i] == Get(data[i], id);
    }
  }

  /** getLinearScale(data, id, [p0, p1], size). */
  function LinearScale(data: seq<Row>, id: Id, p0: real, p1: real, size: real): (s: Scale)
    ensures s.kind == Linear && s.range == Span(size - p0, p1)
    ensures IsExtentOf(s.domain, data, id)
  {
    ExtentOfValues(data, id);
    Scale(Linear, Extent(Values(data, id)), Span(size - p0, p1))
  }

  /** getPowScale(data, id, [p0, p1], size) with the default exponent 1/3. */
  function PowScale(data: seq<Row>, id: Id, p0: real, p1: real, size: real): (s: Scale)
    ensures s.kind == Pow(1.0 / 3.0) && s.range == Span(size - p0, p1)
    ensures IsExtentOf(s.domain, data, id)
  {
    ExtentOfValues(data, id);
    Scale(Pow(1.0 / 3.0), Extent(Values(data, id)), Span(size - p0, p1))
  }

  /** getTimeScale(data, id, [p0, p1], size): unlike the linear scale, its range runs from p0 upwards. */
  function TimeScale(data: seq<Row>, id: Id, p0: real, p1: real, size: real): (s: Scale)
    ensures s.kind == Time && s.range == Span(p0, size - p1)
    ensures IsExtentOf(s.domain, data, id)
  {
    ExtentOfValues(data, id);
    Scale(Time, Extent(Values(data, id)), Span(p0, size - p1))
  }

  datatype Scales2 = Scales2(x: Scale, y: Scale)

  /** getScatterScales(data, elem, paddings): linear x and y, with the x range reversed. */
  function ScatterScales(data: seq<Row>, width: real, height: real, paddings: seq<real>): (r: Scales2)
    requires |paddings| == 4
    ensures r.y == LinearScale(data, YId, paddings[2], paddings[3], height)
    ensures r.x.domain == LinearScale(data, XId, paddings[0], paddings[1], width).domain
  {
    var x := LinearScale(data, XId, paddings[0], paddings[1], width);
    Scales2(x.(range := Span(x.range.stop, x.range.start)), LinearScale(data, YId, paddings[2], paddings[3], height))
  }

  /** The scatterplot's x axis runs the other way from a plain linear scale: [p1, width - p0]. */
  lemma ScatterXReversed(data: seq<Row>, width: real, height: real, paddings: seq<real>)
    requires |paddings| == 4
    ensures var plain := LinearScale(data, XId, paddings[0], paddings[1], width).range;
            ScatterScales(data, width, height, paddings).x.range == Span(plain.stop, plain.start)
    ensures ScatterScales(data, width, height, paddings).x.range == Span(paddings[1], width - paddings[0])
  {
  }

  /** The zero record the time-series scale constructors push onto the caller's array. */
  const Sentinel: Row := YOnly(0.0)

  /** What getTSScales and getTSScalesPow return, and the caller's array after their push. */
  datatype TSScaled = TSScaled(scales: Scales2, data: seq<Row>)

  /**
   * getTSScales(data, elem, paddings): the time x scale is taken from the data
   * as given; then `{y_id: 0}` is pushed and the linear y scale is taken from
   * the extended array.
   */
  function TSScales(data: seq<Row>, width: real, height: real, paddings: seq<real>): (r: TSScaled)
    requires |paddings| == 4
    ensures r.data == data + [Sentinel]
    ensures r.scales.x == TimeScale(data, XId, paddings[0], paddings[1], width)
    ensures r.scales.y.kind == Linear && r.scales.y.range == Span(height - paddings[2], paddings[3])
  {
    var x := TimeScale(data, XId, paddings[0], paddings[1], width);
    var pushed := data + [Sentinel];
    TSScaled(Scales2(x, LinearScale(pushed, YId, paddings[2], paddings[3], height)), pushed)
  }

  /** getTSScalesPow: as getTSScales, with a cube-root y scale. */
  function TSScalesPow(data: seq<Row>, width: real, height: real, paddings: seq<real>): (r: TSScaled)
    requires |paddings| == 4
    ensures r.data == data + [Sentinel]
    ensures r.scales.x == TimeScale(data, XId, paddings[0], paddings[1], width)
    ensures r.scales.y.kind == Pow(1.0 / 3.0) && r.scales.y.range == Span(height - paddings[2], paddings[3])
  {
    var x := TimeScale(data, XId, paddings[0], paddings[1], width);
    var pushed := data + [Sentinel];
    TSScaled(Scales2(x, PowScale(pushed, YId, paddings[2], paddings[3], height)), pushed)
  }

  lemma ExtentWithZero(xs: seq<Option<real>>)
    ensures var e := Extent(xs + [Some(0.0)]);
            e.Some? && e.value.lo <= 0.0 <= e.value.hi
  {
    var ys := xs + [Some(0.0)];
    assert ys[|xs|] == Some(0.0);
  }

  /**
   * The y domain of both time-series constructors contains 0, whatever the
   * data; each y value of the data lies in it as well.
   */
  lemma TSYDomainHasZero(data: seq<Row>, width: real, height: real, paddings: seq<real>)
    requires |paddings| == 4
    ensures var y := TSScales(data, width, height, paddings).scales.y;
            && y.domain.Some? && y.domain.value.lo <= 0.0 <= y.domain.value.hi
            && forall i :: 0 <= i < |data| && Get(data[i], YId).Some? ==>
                 y.domain.value.lo <= Get(data[i], YId).value <= y.domain.value.hi
    ensures var y := TSScalesPow(data, width, height, paddings).scales.y;
            && y.domain.Some? && y.domain.value.lo <= 0.0 <= y.domain.value.hi
            && forall i :: 0 <= i < |data| && Get(data[i], YId).Some? ==>
                 y.domain.value.lo <= Get(data[i], YId).value <= y.domain.value.hi
  {
    var pushed := data + [Sentinel];
    assert Values(pushed, YId) == Values(data, YId) + [Some(0.0)];
    ExtentWithZero(Values(data, YId));
    assert forall i :: 0 <= i < |data| ==> pushed[i] == data[i];
  }

  /** Pushing the sentinel leaves the x values' extent as it was: the x domain never sees it. */
  lemma SentinelHasNoX(data: seq<Row>)
    ensures Extent(Values(data + [Sentinel], XId)) == Extent(Values(data, XId))
  {
    ExtentAppendNone(Values(data, XId));
    assert Values(data + [Sentinel], XId) == Values(data, XId) + [None];
  }

  lemma {:induction false} ExtentAppendNone(xs: seq<Option<real>>)
    ensures Extent(xs + [None]) == Extent(xs)
  {
    if |xs| > 0 {
      ExtentAppendNone(xs[1..]);
      assert (xs + [None])[1..] == xs[1..] + [None];
    }
  }

  // ----------------------------------------------------------------------
  // mgToColsScale and drugsScale
  // ----------------------------------------------------------------------

  /** A threshold scale: `domain` breakpoints and the `range` colours between them. */
  datatype Threshold = Threshold(domain: seq<real>, range: seq<string>)

  /** An ordinal scale pairing `domain[i]` with `range[i]`. */
  datatype Ordinal = Ordinal(domain: seq<string>, range: seq<string>)

  /** The default milligram breakpoints of mgToColsScale. */
  function MgBreakpoints(): (r: seq<real>)
    ensures |r| == 10 && r[0] == 0.0 && r[9] == 1000.0
    ensures StrictlyAscending(r)
  {
    [0.0, 0.010, 0.037, 0.139, 0.518, 1.931, 7.197, 26.827, 100.0, 1000.0]
  }

  /** The eleven colours for each drug mgToColsScale knows, or none for any other drug. */
  function DrugPalette(drug: string): (r: seq<string>)
    ensures drug in KnownDrugs() ==> |r| == 11
    ensures drug !in KnownDrugs() ==> r == []
  {
    if drug == "oxycodone" then
      ["#ffded6", "#ffbdae", "#ff9c88", "#fa7963", "#f05340", "#e41a1c", "#bb1e19", "#941e17", "#6e1c14", "#4b1710", "#291109"]
    else if drug == "morphine" then
      ["#efe1f0", "#dec3e0", "#cda5d1", "#bc88c1", "#aa6bb2", "#984ea3", "#7d4286", "#63366a", "#4b2a4f", "#331f36", "#1d131e"]
    else if drug == "pethidine" then
      ["#e1e8f3", "#c2d2e7", "#a3bcdc", "#84a7d0", "#6192c4", "#377eb8", "#316897", "#2b5377", "#243e58", "#1c2b3b", "#131921"]
    else if drug == "fentanyl" then
      ["#e3f2e0", "#c7e5c1", "#abd8a3", "#8eca85", "#6fbd68", "#4daf4a", "#42903f", "#377133", "#2c5428", "#20391d", "#152013"]
    else if drug == "hydrocodone" then
      ["#ffe3d6", "#ffc8ae", "#ffac87", "#fa9061", "#f1743b", "#e6550d", "#bd4810", "#953b11", "#6f2e11", "#4b210f", "#291509"]
    else if drug == "codeine" then
      ["#deeced", "#bdd9dc", "#9bc7cb", "#78b4ba", "#52a2a9", "#1c9099", "#1f777e", "#1e5e63", "#1c474a", "#173033", "#111c1d"]
    else if drug == "total" then
      ["#ffe1ec", "#ffc2da", "#ffa2c8", "#ff80b6", "#ff59a4", "#ff1493", "#d01e79", "#a32060", "#791e48", "#501a31", "#2b121c"]
    else []
  }

  /** The drugs with a colour table, which are also drugsScale's default domain. */
  function KnownDrugs(): (r: seq<string>)
    ensures |r| == 7 && Distinct(r)
  {
    ["oxycodone", "pethidine", "fentanyl", "morphine", "hydrocodone", "codeine", "total"]
  }

  /** drugsScale's default colours, one per entry of KnownDrugs. */
  function DefaultDrugColours(): (r: seq<string>)
    ensures |r| == |KnownDrugs()|
  {
    ["#e41a1c", "#377eb8", "#4daf4a", "#984ea3", "#e6550d", "#1c9099", "#ff59a4"]
  }

  /** mgToColsScale(drug, mg): the given breakpoints, or the default ones when `mg` is undefined. */
  function MgToColsScale(drug: string, mg: Option<seq<real>>): (s: Threshold)
    ensures mg.Some? ==> s.domain == mg.value
    ensures mg.None? ==> |s.domain| == 10 && StrictlyAscending(s.domain)
    ensures drug in KnownDrugs() ==> |s.range| == 11
    ensures drug in KnownDrugs() && mg.None? ==> |s.range| == |s.domain| + 1
    ensures drug !in KnownDrugs() ==> s.range == []
  {
    Threshold(if mg.Some? then mg.value else MgBreakpoints(), DrugPalette(drug))
  }

  /** drugsScale(drugs, cols): each argument falls back to its default table when undefined. */
  function DrugsScale(drugs: Option<seq<string>>, cols: Option<seq<string>>): (s: Ordinal)
    ensures drugs.None? && cols.None? ==> |s.domain| == |s.range| == 7 && Distinct(s.domain)
    ensures drugs.None? ==> s.domain == KnownDrugs()
    ensures cols.None? ==> s.range == DefaultDrugColours()
    ensures drugs.Some? ==> s.domain == drugs.value
    ensures cols.Some? ==> s.range == cols.value
  {
    Ordinal(if drugs.Some? then drugs.value else KnownDrugs(),
            if cols.Some? then cols.value else DefaultDrugColours())
  }

  /**
   * The default colour of each drug in drugsScale is the sixth colour (index
   * 5) of its mgToColsScale palette, except for "total", whose default is the
   * fifth (index 4).
   */
  lemma DefaultColourFromPalette(i: nat)
    requires i < 7
    ensures |DrugPalette(KnownDrugs()[i])| == 11
    ensures DefaultDrugColours()[i] == DrugPalette(KnownDrugs()[i])[if i < 6 then 5 else 4]
  {
    var d := KnownDrugs()[i];
    if i == 0 {
      assert d == "oxycodone";
    } else if i == 1 {
      assert d == "pethidine";
    } else if i == 2 {
      assert d == "fentanyl";
    } else if i == 3 {
      assert d == "morphine";
    } else if i == 4 {
      assert d == "hydrocodone";
    } else if i == 5 {
      assert d == "codeine";
    } else {
      assert d == "total";
    }
  }
  /**
   * What `drugsScale()` (always called without arguments) gives a drug: the
   * i-th default drug is paired with the colour of its own mgToColsScale
   * palette at index 5, or 4 for "total".
   */
  lemma DrugsScaleColour(i: nat)
    requires i < 7
    ensures var s := DrugsScale(None, None);
            var d := KnownDrugs()[i];
            && i < |s.domain| && i < |s.range| && s.domain[i] == d
            && |MgToColsScale(d, None).range| == 11
            && s.range[i] == MgToColsScale(d, None).range[if d == "total" then 4 else 5]
  {
    DefaultColourFromPalette(i);
  }

}
