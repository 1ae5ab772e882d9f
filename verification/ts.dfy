/**
 * The time-series views of assets/js/ts.js: the class labels written into
 * points and series, the country view (drawTSCountry), the regions view
 * (drawTSRegions) and the label endpoints (labelTS). Drawing, transitions,
 * legends and axes belong to D3 and the DOM and are not modelled; what is
 * modelled is the data each view hands to them.
 */
module TimeSeries {
  import opened Records
  import opened Seqs
  import opened Sorting
  import opened Scales
  import opened Data

  // ----------------------------------------------------------------------
  // insertClass and insertTSClass
  // ----------------------------------------------------------------------

  const Selected: string := "selected"
  const Unselected: string := "unselected"
  const TSSelected: string := "ts selected"
  const TSUnselected: string := "ts unselected"

  /**
   * insertClass(array, drug): a point is "selected" when no drug is given or
   * when it is the given drug's point, and "unselected" otherwise.
   */
  function InsertClass(points: seq<Point>, drug: Option<string>): (r: seq<Classed>)
    ensures |r| == |points|
    ensures forall i :: 0 <= i < |r| ==> r[i].point == points[i]
    ensures forall i :: 0 <= i < |r| ==> r[i].cls == Selected || r[i].cls == Unselected
    ensures forall i :: 0 <= i < |r| ==> (r[i].cls == Selected <==> drug.None? || drug.value == points[i].col)
  {
    seq(|points|, i requires 0 <= i < |points| =>
      Classed(points[i], if drug.None? || drug.value == points[i].col then Selected else Unselected))
  }

  /**
   * insertTSClass(array, drug): a series point is "ts selected" exactly when
   * a drug is given and it is the point's drug. Unlike insertClass, an
   * undefined drug selects nothing, since `undefined == col_id` is false.
   */
  function InsertTSClass(series: seq<seq<Point>>, drug: Option<string>): (r: seq<seq<Classed>>)
    ensures |r| == |series|
    ensures forall i :: 0 <= i < |r| ==> |r[i]| == |series[i]|
    ensures forall i, j :: 0 <= i < |r| && 0 <= j < |r[i]| ==> r[i][j].point == series[i][j]
    ensures forall i, j :: 0 <= i < |r| && 0 <= j < |r[i]| ==>
              r[i][j].cls == (if drug == Some(series[i][j].col) then TSSelected else TSUnselected)
  {
    seq(|series|, i requires 0 <= i < |series| =>
      seq(|series[i]|, j requires 0 <= j < |series[i]| =>
        Classed(series[i][j], if drug == Some(series[i][j].col) then TSSelected else TSUnselected)))
  }

  /** The points of a classed array, without their labels. */
  function Points(cs: seq<Classed>): (r: seq<Point>)
    ensures |r| == |cs|
    ensures forall i :: 0 <= i < |cs| ==> r[i] == cs[i].point
  {
    seq(|cs|, i requires 0 <= i < |cs| => cs[i].point)
  }

  /** Classing changes only the label: dropping it gives back the points, whatever the drug. */
  lemma InsertClassKeepsPoints(points: seq<Point>, drug: Option<string>)
    ensures Points(InsertClass(points, drug)) == points
  {
  }

  /**
   * With no drug chosen, as in drawTSRegions, insertClass selects every point
   * and insertTSClass selects no series point.
   */
  lemma UndefinedDrugClasses(points: seq<Point>, series: seq<seq<Point>>)
    ensures forall i :: 0 <= i < |points| ==> InsertClass(points, None)[i].cls == Selected
    ensures forall i, j :: 0 <= i < |series| && 0 <= j < |series[i]| ==> InsertTSClass(series, None)[i][j].cls == TSUnselected
  {
  }

  /**
   * With a drug chosen, the two labellings agree: a point is "selected" by
   * insertClass exactly when it is "ts selected" by insertTSClass.
   */
  lemma ClassesAgreeForADrug(series: seq<seq<Point>>, d: string, i: nat, j: nat)
    requires i < |series| && j < |series[i]|
    ensures var points := series[i];
            (InsertClass(points, Some(d))[j].cls == Selected) <==> (InsertTSClass(series, Some(d))[i][j].cls == TSSelected)
  {
  }

  // ----------------------------------------------------------------------
  // Keys and rows
  // ----------------------------------------------------------------------

  /**
   * The text `+` makes of a date (Date.prototype.toString) is a parameter.
   * On the dates in play it holds no underscore, and distinct dates read
   * differently (the dates are whole days and the text shows the day).
   */
  ghost predicate DateTextOk(dateText: real -> string, dates: seq<real>) {
    && (forall x :: x in dates ==> '_' !in dateText(x))
    && (forall x, y :: x in dates && y in dates && dateText(x) == dateText(y) ==> x == y)
  }

  /** drawTSCountry's point key `x_id + "_" + col_id`. */
  function CountryKey(p: Point, dateText: real -> string): string {
    dateText(p.x) + "_" + p.col
  }

  /** drawTSRegions' point key `x_id + "_" + col_id + "_" + appear_id`. */
  function RegionKey(p: Point, dateText: real -> string): string {
    dateText(p.x) + "_" + p.col + "_" + p.appear
  }

  /** The country key identifies a point by date and drug, whatever the drug's name holds. */
  lemma CountryKeyIdentifies(p: Point, q: Point, dateText: real -> string)
    requires DateTextOk(dateText, [p.x, q.x])
    ensures CountryKey(p, dateText) == CountryKey(q, dateText) <==> p.x == q.x && p.col == q.col
  {
    assert p.x in [p.x, q.x] && q.x in [p.x, q.x];
    if CountryKey(p, dateText) == CountryKey(q, dateText) {
      SplitAtFirst(dateText(p.x), p.col, dateText(q.x), q.col);
    }
  }

  /**
   * Read back from the regions key: with no underscore in the date texts and
   * the drug names, equal keys mean equal date texts, drugs and countries.
   */
  lemma RegionKeyParts(p: Point, q: Point, dateText: real -> string)
    requires '_' !in dateText(p.x) && '_' !in dateText(q.x) && '_' !in p.col && '_' !in q.col
    ensures RegionKey(p, dateText) == RegionKey(q, dateText) <==>
            dateText(p.x) == dateText(q.x) && p.col == q.col && p.appear == q.appear
  {
    if RegionKey(p, dateText) == RegionKey(q, dateText) {
      assert RegionKey(p, dateText) == dateText(p.x) + "_" + (p.col + "_" + p.appear);
      assert RegionKey(q, dateText) == dateText(q.x) + "_" + (q.col + "_" + q.appear);
      SplitAtFirst(dateText(p.x), p.col + "_" + p.appear, dateText(q.x), q.col + "_" + q.appear);
      SplitAtFirst(p.col, p.appear, q.col, q.appear);
    }
  }

  /**
   * The regions key identifies a point by date, drug and country as long as
   * the drug names hold no underscore.
   */
  lemma RegionKeyIdentifies(p: Point, q: Point, dateText: real -> string)
    requires DateTextOk(dateText, [p.x, q.x]) && '_' !in p.col && '_' !in q.col
    ensures RegionKey(p, dateText) == RegionKey(q, dateText) <==> p.x == q.x && p.col == q.col && p.appear == q.appear
  {
    assert p.x in [p.x, q.x] && q.x in [p.x, q.x];
    RegionKeyParts(p, q, dateText);
  }

  /** An underscore in a drug name lets points of different drugs and countries share a regions key. */
  lemma RegionKeyCollision(p: Point, q: Point, dateText: real -> string)
    requires p.x == q.x && p.col == "a_b" && p.appear == "c" && q.col == "a" && q.appear == "b_c"
    ensures RegionKey(p, dateText) == RegionKey(q, dateText) && p.col != q.col && p.appear != q.appear
  {
    assert p.col + "_" + p.appear == q.col + "_" + q.appear;
    assert RegionKey(p, dateText) == dateText(p.x) + "_" + (p.col + "_" + p.appear);
    assert RegionKey(q, dateText) == dateText(q.x) + "_" + (q.col + "_" + q.appear);
  }

  /**
   * Within one country the shorter key loses nothing: two points of the same
   * country have equal country keys exactly when they have equal regions
   * keys, whatever the names hold.
   */
  lemma CountryKeySuffices(p: Point, q: Point, dateText: real -> string)
    requires p.appear == q.appear
    ensures CountryKey(p, dateText) == CountryKey(q, dateText) <==> RegionKey(p, dateText) == RegionKey(q, dateText)
  {
    var a := CountryKey(p, dateText);
    var b := CountryKey(q, dateText);
    var tail := "_" + p.appear;
    assert RegionKey(p, dateText) == a + tail && RegionKey(q, dateText) == b + tail;
    if a + tail == b + tail {
      assert a == (a + tail)[..|a|] && b == (b + tail)[..|b|];
    }
  }

  /** Every date a series of getIncbTS shows is one of the country's dates. */
  lemma SeriesDateListed(c: Country, m: nat, t: nat)
    requires WellFormed(c)
    requires m < |DrugFields(c.ts)| && t < |DrugFields(c.ts)[m].values|
    ensures ReshapeCountry(c).0[m][t].x in YearsOf(c)
  {
    var ys := YearsOf(c);
    var s := SortIndices(ys);
    assert YearsIndex(c.ts).Some?;
    DrugFieldLengths(c.ts, |ys|);
    ReshapeCountryPoint(c, m, t);
    var k := if m == 0 then s.sortIndices[t] else t;
    assert s.sortIndices[k] in s.sortIndices;
    assert ReshapeCountry(c).0[m][t].x == ys[s.sortIndices[k]];
  }

  /**
   * On any well-formed country whose dates are distinct, whether or not
   * getIncbTS has sorted them yet, the points of one series have distinct
   * keys in both views.
   */
  lemma SeriesKeysDistinct(c: Country, m: nat, a: nat, b: nat, dateText: real -> string)
    requires WellFormed(c) && Distinct(YearsOf(c)) && DateTextOk(dateText, YearsOf(c))
    requires m < |DrugFields(c.ts)| && a < b < |DrugFields(c.ts)[m].values|
    ensures CountryKey(ReshapeCountry(c).0[m][a], dateText) != CountryKey(ReshapeCountry(c).0[m][b], dateText)
    ensures RegionKey(ReshapeCountry(c).0[m][a], dateText) != RegionKey(ReshapeCountry(c).0[m][b], dateText)
  {
    var pa := ReshapeCountry(c).0[m][a];
    var pb := ReshapeCountry(c).0[m][b];
    SeriesDatesDistinct(c, m, a, b);
    SeriesDateListed(c, m, a);
    SeriesDateListed(c, m, b);
    ReshapeCountryPoint(c, m, a);
    ReshapeCountryPoint(c, m, b);
    CountryKeyIdentifies(pa, pb, dateText);
    CountryKeySuffices(pa, pb, dateText);
  }

  /**
   * Points of two series of getIncbTS that differ in drug or in country
   * never share a regions-view key, provided the drug names and the two
   * dates' texts hold no underscore (RegionKeyCollision shows what happens
   * otherwise).
   */
  lemma SeriesKeysSeparate(incb: seq<Country>, s: seq<Point>, t: seq<Point>, p: Point, q: Point,
                           dateText: real -> string)
    requires AllWellFormed(incb)
    requires s in IncbTS(incb).series && t in IncbTS(incb).series
    requires p in s && q in t && '_' !in p.col && '_' !in q.col
    requires '_' !in dateText(p.x) && '_' !in dateText(q.x)
    requires s[0].col != t[0].col || s[0].appear != t[0].appear
    ensures RegionKey(p, dateText) != RegionKey(q, dateText)
  {
    IncbTSSeriesUniform(incb, s);
    IncbTSSeriesUniform(incb, t);
    RegionKeyParts(p, q, dateText);
  }

  /** Date texts that name the example country's years. */
  function YearText(x: real): string {
    if x == 2000.0 then "2000" else if x == 2001.0 then "2001" else if x == 2002.0 then "2002" else ""
  }

  /** The example country's dates are distinct, and YearText reads them apart. */
  lemma ExampleDatesReadApart(c: Country)
    requires IsExampleCountry(c)
    ensures WellFormed(c) && Distinct(YearsOf(c)) && DateTextOk(YearText, YearsOf(c))
  {
    ExampleCountryFacts(c);
  }

  /** On the example country the keys of the first pass tell all three morphine points apart. */
  lemma ExampleKeysDistinct(c: Country)
    requires IsExampleCountry(c)
    ensures |ReshapeCountry(c).0| == 2 && |ReshapeCountry(c).0[0]| == 3
    ensures var s := ReshapeCountry(c).0[0];
            && CountryKey(s[0], YearText) != CountryKey(s[1], YearText)
            && CountryKey(s[1], YearText) != CountryKey(s[2], YearText)
            && CountryKey(s[0], YearText) != CountryKey(s[2], YearText)
  {
    ExampleCountryFacts(c);
    ExampleDatesReadApart(c);
    SeriesKeysDistinct(c, 0, 0, 1, YearText);
    SeriesKeysDistinct(c, 0, 1, 2, YearText);
    SeriesKeysDistinct(c, 0, 0, 2, YearText);
  }

  /** The classed points as rows of a scale's input. */
  function Rows(cs: seq<Classed>): (r: seq<Row>)
    ensures |r| == |cs|
    ensures forall i :: 0 <= i < |cs| ==> r[i] == Datum(cs[i])
  {
    seq(|cs|, i requires 0 <= i < |cs| => Datum(cs[i]))
  }

  /** `Object.keys(d).length`: a classed point has eight fields, the `{y_id: 0}` sentinel one. */
  function KeyCount(r: Row): (n: nat)
    ensures r.YOnly? <==> n <= 1
  {
    match r
    case Datum(_) => 8
    case YOnly(_) => 1
  }

  /** The filter of ts.js line 139: records with more than one field. */
  function HasFields(r: Row): bool {
    KeyCount(r) > 1
  }

  /** The classed points of the rows that are points. */
  function PointsOfRows(rows: seq<Row>): (r: seq<Classed>)
    ensures |r| <= |rows|
  {
    if |rows| == 0 then []
    else match rows[0]
      case Datum(c) => [c] + PointsOfRows(rows[1..])
      case YOnly(_) => PointsOfRows(rows[1..])
  }

  lemma {:induction false} DataOfRows(cs: seq<Classed>)
    ensures PointsOfRows(Rows(cs)) == cs
  {
    if |cs| > 0 {
      DataOfRows(cs[1..]);
      assert Rows(cs)[1..] == Rows(cs[1..]);
    }
  }

  /**
   * The array getTSScalesPow leaves behind, filtered as ts.js line 139
   * filters it, is the array the caller passed in: the filter removes the
   * pushed sentinel and nothing else.
   */
  lemma SentinelFilteredOut(cs: seq<Classed>)
    ensures Filter(Rows(cs) + [Sentinel], HasFields) == Rows(cs)
  {
    FilterAppend(Rows(cs), [Sentinel], HasFields);
    FilterKeepsAll(Rows(cs), HasFields);
    assert Filter([Sentinel], HasFields) == [];
  }

  // ----------------------------------------------------------------------
  // labelTS
  // ----------------------------------------------------------------------

  /** labelTS's `endpoints`: the last point of each series. */
  function Endpoints(series: seq<seq<Classed>>): (r: seq<Classed>)
    requires forall i :: 0 <= i < |series| ==> |series[i]| > 0
    ensures |r| == |series|
    ensures forall i :: 0 <= i < |series| ==> r[i] == series[i][|series[i]| - 1]
  {
    seq(|series|, i requires 0 <= i < |series| => series[i][|series[i]| - 1])
  }

  /** A label: its element id `"label_" + col_id + "_" + appear_id`, its text `iso3`, and its anchor point. */
  datatype Label = Label(id: string, text: string, at: Point)

  /** The label labelTS writes at the end of a series. */
  function LabelOf(c: Classed): (l: Label)
    ensures l.at == c.point && l.text == c.point.iso3
    ensures l.id == "label_" + c.point.col + "_" + c.point.appear
  {
    Label("label_" + c.point.col + "_" + c.point.appear, c.point.iso3, c.point)
  }

  // ----------------------------------------------------------------------
  // The two views
  // ----------------------------------------------------------------------

  function CountryPaddings(): (r: seq<real>)
    ensures |r| == 4
  {
    [70.0, 95.0, 30.0, 15.0]
  }

  function RegionPaddings(): (r: seq<real>)
    ensures |r| == 4
  {
    [75.0, 150.0, 50.0, 40.0]
  }

  /** What a view hands to drawTS: the labelled points, the labelled series and the scales, plus labelTS's labels. */
  datatype View = View(points: seq<Classed>, series: seq<seq<Classed>>, scales: Scales2, labels: seq<Label>)

  /** The first-point filters read `d[0]`: they fail on an empty series. */
  predicate NoEmptySeries(series: seq<seq<Point>>) {
    forall i :: 0 <= i < |series| ==> |series[i]| > 0
  }

  /** The series of a labelled series array, without their labels. */
  function Unlabel(series: seq<seq<Classed>>): (r: seq<seq<Point>>)
    ensures |r| == |series|
    ensures forall i :: 0 <= i < |series| ==> r[i] == Points(series[i])
  {
    seq(|series|, i requires 0 <= i < |series| => Points(series[i]))
  }

  lemma InsertTSClassKeepsSeries(series: seq<seq<Point>>, drug: Option<string>)
    ensures Unlabel(InsertTSClass(series, drug)) == series
  {
    var r := InsertTSClass(series, drug);
    forall i | 0 <= i < |series|
      ensures Points(r[i]) == series[i]
    {
    }
  }

  /**
   * The series both views draw. getIncbArray has already sorted every
   * country's dates in place, so the view's own getIncbTS runs on settled
   * countries and leaves `incb` as the first call left it. The drug arrays
   * were never reordered, so these series pair the t-th sorted date with
   * the amount the input lists at position t (SecondPassPoint).
   */
  function SecondPass(incb: seq<Country>): (r: Reshaped)
    requires AllWellFormed(incb)
    ensures AllSettled(r.incb) && r.incb == IncbArray(incb).incb
  {
    IncbTSSettles(incb);
    var once := IncbArray(incb).incb;
    assert AllWellFormed(once);
    IncbTSSettles(once);
    IncbTS(once)
  }

  /** Every series of the second pass runs forward in time. */
  lemma SecondPassAscends(incb: seq<Country>, s: seq<Point>)
    requires AllWellFormed(incb) && s in SecondPass(incb).series
    ensures forall a, b :: 0 <= a < b < |s| ==> s[a].x <= s[b].x
  {
    IncbTSSettles(incb);
    SettledSeriesAscend(IncbArray(incb).incb, s);
  }

  /**
   * The series the views draw, in terms of the input: drug field m of
   * country i sits at its row-major position, and its point t pairs the
   * t-th smallest date of the country with the amount the input lists at
   * position t. Unless the dates were already in order, that is not the
   * amount the input gives for that date.
   */
  lemma SecondPassPoint(incb: seq<Country>, i: nat, m: nat, t: nat)
    requires AllWellFormed(incb)
    requires i < |incb| && m < |DrugFields(incb[i].ts)|
    requires t < |DrugFields(incb[i].ts)[m].values| && t < |YearsOf(incb[i])|
    ensures var series := SecondPass(incb).series;
            var off := TotalLength(CountrySeriesRows(incb)[..i]) + m;
            && off < |series| && t < |series[off]|
            && series[off][t].x == SortIndices(YearsOf(incb[i])).sorted[t]
            && series[off][t].y == DrugFields(incb[i].ts)[m].values[t]
  {
    SecondPassSeries(incb, i, m);
    ResettledPoint(incb[i], m, t);
  }

  /** Drug field m of country i of the second pass is that field of the country run through getIncbTS twice. */
  lemma SecondPassSeries(incb: seq<Country>, i: nat, m: nat)
    requires AllWellFormed(incb)
    requires i < |incb| && m < |DrugFields(incb[i].ts)|
    ensures WellFormed(ReshapeCountry(incb[i]).1)
    ensures var series := SecondPass(incb).series;
            var off := TotalLength(CountrySeriesRows(incb)[..i]) + m;
            && off < |series| && m < |ReshapeCountry(ReshapeCountry(incb[i]).1).0|
            && series[off] == ReshapeCountry(ReshapeCountry(incb[i]).1).0[m]
  {
    var once := IncbArray(incb).incb;
    IncbTSSettles(incb);
    ReshapedCountryYears(incb[i]);
    assert SecondPass(incb) == IncbTS(once);
    SameRowShapes(incb, i);
    IncbTSSeriesAt(once, i, m);
  }

  /** The second pass lays its series out as the first: the countries keep their drug fields. */
  lemma SameRowShapes(incb: seq<Country>, i: nat)
    requires AllWellFormed(incb) && i <= |incb|
    ensures var once := IncbTS(incb).incb;
            && AllWellFormed(once)
            && TotalLength(CountrySeriesRows(once)[..i]) == TotalLength(CountrySeriesRows(incb)[..i])
  {
    var once := IncbTS(incb).incb;
    IncbTSSettles(incb);
    var a := CountrySeriesRows(once)[..i];
    var b := CountrySeriesRows(incb)[..i];
    forall j | 0 <= j < i
      ensures |a[j]| == |b[j]|
    {
      ReshapedCountryYears(incb[j]);
    }
    TotalLengthOfSameShape(a, b);
  }

  /** getIncbTS run again on a country it has sorted: date t is the t-th smallest, amount t the input's. */
  lemma ResettledPoint(c: Country, m: nat, t: nat)
    requires WellFormed(c)
    requires m < |DrugFields(c.ts)| && t < |DrugFields(c.ts)[m].values|
    ensures var c' := ReshapeCountry(c).1;
            && WellFormed(c') && m < |DrugFields(c'.ts)| && t < |ReshapeCountry(c').0[m]|
            && ReshapeCountry(c').0[m][t].x == SortIndices(YearsOf(c)).sorted[t]
            && ReshapeCountry(c').0[m][t].y == DrugFields(c.ts)[m].values[t]
  {
    ReshapedCountryYears(c);
    ReshapeCountrySettles(c);
    DrugFieldLengths(c.ts, |YearsOf(c)|);
    SettledCountryPoint(ReshapeCountry(c).1, m, t);
  }

  /**
   * What the views draw for the example country (dates [2001, 2000, 2002],
   * morphine [5, 3, 9], codeine [1, 2, 4]): morphine (2000,5), (2001,3),
   * (2002,9) and codeine (2000,1), (2001,2), (2002,4), while the input pairs
   * 2000 with morphine 3 and codeine 2.
   */
  lemma {:induction false} MisalignedDrawnSeries(c: Country)
    requires IsExampleCountry(c)
    ensures WellFormed(c) && WellFormed(ReshapeCountry(c).1)
    ensures |ReshapeCountry(ReshapeCountry(c).1).0| == 2
    ensures XY(ReshapeCountry(ReshapeCountry(c).1).0[0]) == [(2000.0, 5.0), (2001.0, 3.0), (2002.0, 9.0)]
    ensures XY(ReshapeCountry(ReshapeCountry(c).1).0[1]) == [(2000.0, 1.0), (2001.0, 2.0), (2002.0, 4.0)]
  {
    ExampleCountryFacts(c);
    ReshapedCountryYears(c);
    ExampleDrawnField(c, 0);
    ExampleDrawnField(c, 1);
  }

  /** Drug field m of the example country, drawn: the sorted dates beside the amounts as listed. */
  lemma ExampleDrawnField(c: Country, m: nat)
    requires IsExampleCountry(c) && m < 2
    ensures WellFormed(c) && WellFormed(ReshapeCountry(c).1)
    ensures |ReshapeCountry(ReshapeCountry(c).1).0| == 2
    ensures var drawn := ReshapeCountry(ReshapeCountry(c).1).0[m];
            var amounts := DrugFields(c.ts)[m].values;
            XY(drawn) == [(2000.0, amounts[0]), (2001.0, amounts[1]), (2002.0, amounts[2])]
  {
    ExampleCountryFacts(c);
    ReshapedCountryYears(c);
    ReshapeCountrySettles(c);
    var c' := ReshapeCountry(c).1;
    assert YearsOf(c') == [2000.0, 2001.0, 2002.0];
    SettledCountryPoint(c', m, 0);
    SettledCountryPoint(c', m, 1);
    SettledCountryPoint(c', m, 2);
  }

  /** A country with a drug field but an empty "years" array: its series are empty. */
  predicate DatesMissing(c: Country)
    requires WellFormed(c)
  {
    |DrugFields(c.ts)| > 0 && |YearsOf(c)| == 0
  }

  /** The second pass yields an empty series exactly when some input country has drug fields but no dates. */
  lemma SecondPassEmptySeries(incb: seq<Country>)
    requires AllWellFormed(incb)
    ensures !NoEmptySeries(SecondPass(incb).series) <==> exists i :: 0 <= i < |incb| && DatesMissing(incb[i])
  {
    var series := SecondPass(incb).series;
    if !NoEmptySeries(series) {
      var k :| 0 <= k < |series| && |series[k]| == 0;
      EmptySeriesFromMissingDates(incb, k);
    }
    if exists i :: 0 <= i < |incb| && DatesMissing(incb[i]) {
      var i :| 0 <= i < |incb| && DatesMissing(incb[i]);
      MissingDatesGiveEmptySeries(incb, i);
    }
  }

  /** An empty drawn series comes from a country with drug fields but no dates. */
  lemma EmptySeriesFromMissingDates(incb: seq<Country>, k: nat)
    requires AllWellFormed(incb)
    requires k < |SecondPass(incb).series| && |SecondPass(incb).series[k]| == 0
    ensures exists i :: 0 <= i < |incb| && DatesMissing(incb[i])
  {
    var once := IncbArray(incb).incb;
    var series := SecondPass(incb).series;
    IncbTSSettles(incb);
    assert series[k] in IncbTS(once).series;
    IncbTSSeriesOrigin(once, series[k]);
    var i, m :| 0 <= i < |once| && 0 <= m < |ReshapeCountry(once[i]).0| && series[k] == ReshapeCountry(once[i]).0[m];
    ReshapedCountryYears(incb[i]);
    assert DatesMissing(incb[i]);
  }

  /** A country with drug fields but no dates gives the drawn series an empty member. */
  lemma MissingDatesGiveEmptySeries(incb: seq<Country>, i: nat)
    requires AllWellFormed(incb) && i < |incb| && DatesMissing(incb[i])
    ensures !NoEmptySeries(SecondPass(incb).series)
  {
    var once := IncbArray(incb).incb;
    IncbTSSettles(incb);
    ReshapedCountryYears(incb[i]);
    IncbTSSeriesAt(once, i, 0);
  }

  // ----------------------------------------------------------------------
  // drawTSCountry
  // ----------------------------------------------------------------------

  function OfCountry(country: string): Point -> bool {
    (p: Point) => p.appear == country
  }

  function SeriesOfCountry(country: string): seq<Point> -> bool {
    (s: seq<Point>) => |s| > 0 && s[0].appear == country
  }

  function OfDrug(drug: Option<string>): Classed -> bool {
    (c: Classed) => drug.Some? && c.point.col == drug.value
  }

  /**
   * The data part of drawTSCountry, given getIncbArray's points and
   * getIncbTS's series: keep the country's points and series, label them for
   * the drug, and take the time-series scales from a filtered copy holding
   * only the drug's points, so the pushed sentinel never reaches the points
   * that are drawn.
   */
  function CountryView(points: seq<Point>, series: seq<seq<Point>>, country: string, drug: Option<string>,
                       width: real, height: real): View
  {
    var cpts := InsertClass(Filter(points, OfCountry(country)), drug);
    var cts := InsertTSClass(Filter(series, SeriesOfCountry(country)), drug);
    View(cpts, cts, TSScales(Rows(Filter(cpts, OfDrug(drug))), width, height, CountryPaddings()).scales, [])
  }

  /**
   * The country view draws exactly the country's points, each labelled
   * "selected" when no drug is chosen or it is the chosen drug's point.
   */
  lemma CountryViewPoints(points: seq<Point>, series: seq<seq<Point>>, country: string, drug: Option<string>,
                          width: real, height: real)
    ensures var v := CountryView(points, series, country, drug, width, height);
            && (forall p :: p in Points(v.points) <==> p in points && p.appear == country)
            && (forall i :: 0 <= i < |v.points| ==> (v.points[i].cls == Selected <==> drug.None? || drug.value == v.points[i].point.col))
  {
    InsertClassKeepsPoints(Filter(points, OfCountry(country)), drug);
  }

  /**
   * The country view draws exactly the non-empty series whose first point
   * belongs to the country, each point "ts selected" exactly when it is the
   * chosen drug's.
   */
  lemma CountryViewSeries(points: seq<Point>, series: seq<seq<Point>>, country: string, drug: Option<string>,
                          width: real, height: real)
    ensures var v := CountryView(points, series, country, drug, width, height);
            && (forall s: seq<Point> :: s in Unlabel(v.series) <==> s in series && |s| > 0 && s[0].appear == country)
            && (forall i, j :: 0 <= i < |v.series| && 0 <= j < |v.series[i]| ==>
                  (v.series[i][j].cls == TSSelected <==> drug == Some(v.series[i][j].point.col)))
  {
    InsertTSClassKeepsSeries(Filter(series, SeriesOfCountry(country)), drug);
  }

  /**
   * The y domain of the country view contains 0 and every amount of the
   * chosen drug's points; the x domain is absent exactly when the country has
   * no point of that drug (in particular when no drug is chosen).
   */
  lemma CountryViewDomains(points: seq<Point>, series: seq<seq<Point>>, country: string, drug: Option<string>,
                           width: real, height: real)
    ensures var v := CountryView(points, series, country, drug, width, height);
            && v.scales.y.domain.Some? && v.scales.y.domain.value.lo <= 0.0 <= v.scales.y.domain.value.hi
            && (forall c :: c in v.points && OfDrug(drug)(c) ==>
                  v.scales.y.domain.value.lo <= c.point.y <= v.scales.y.domain.value.hi)
            && (v.scales.x.domain.None? <==> forall c :: c in v.points ==> !OfDrug(drug)(c))
  {
    var v := CountryView(points, series, country, drug, width, height);
    var drawn := Filter(v.points, OfDrug(drug));
    YDomainOfDrawn(drawn, width, height);
    XDomainOfDrawn(drawn, width, height);
    assert |drawn| == 0 <==> forall c :: c in v.points ==> !OfDrug(drug)(c) by {
      if |drawn| > 0 {
        assert drawn[0] in drawn;
      }
    }
  }

  /** The y domain of getTSScales on a point array spans 0 and every amount. */
  lemma YDomainOfDrawn(drawn: seq<Classed>, width: real, height: real)
    ensures var y := TSScales(Rows(drawn), width, height, CountryPaddings()).scales.y;
            && y.domain.Some? && y.domain.value.lo <= 0.0 <= y.domain.value.hi
            && (forall c :: c in drawn ==> y.domain.value.lo <= c.point.y <= y.domain.value.hi)
  {
    var rows := Rows(drawn);
    var y := TSScales(rows, width, height, CountryPaddings()).scales.y;
    TSYDomainHasZero(rows, width, height, CountryPaddings());
    forall c | c in drawn
      ensures y.domain.value.lo <= c.point.y <= y.domain.value.hi
    {
      var i :| 0 <= i < |drawn| && drawn[i] == c;
      assert (rows + [Sentinel])[i] == Datum(c);
    }
  }

  /** The x domain of getTSScales on a point array exists iff the array has a point. */
  lemma XDomainOfDrawn(drawn: seq<Classed>, width: real, height: real)
    ensures TSScales(Rows(drawn), width, height, CountryPaddings()).scales.x.domain.None? <==> |drawn| == 0
  {
    if |drawn| > 0 {
      assert Get(Rows(drawn)[0], XId).Some?;
    }
  }

  /**
   * drawTSCountry(elem, incb, country, drug, ...): getIncbArray and then
   * getIncbTS, each sorting `incb`'s dates in place, feed the country view.
   * None stands for the TypeError the first-point filter raises when some
   * series is empty, which happens exactly when some country has a drug
   * field and an empty "years" array.
   */
  function TSCountry(incb: seq<Country>, country: string, drug: Option<string>, width: real, height: real): (r: Option<View>)
    requires AllWellFormed(incb)
    ensures r.None? <==> !NoEmptySeries(SecondPass(incb).series)
    ensures r.None? <==> exists i :: 0 <= i < |incb| && DatesMissing(incb[i])
    ensures r.Some? ==> r.value == CountryView(IncbArray(incb).points, SecondPass(incb).series, country, drug, width, height)
  {
    SecondPassEmptySeries(incb);
    var ts := SecondPass(incb);
    if NoEmptySeries(ts.series) then Some(CountryView(IncbArray(incb).points, ts.series, country, drug, width, height))
    else None
  }

  // ----------------------------------------------------------------------
  // drawTSRegions
  // ----------------------------------------------------------------------

  function InRegionsAndDrugs(regions: seq<string>, drugs: seq<string>): Point -> bool {
    (p: Point) => p.supp.jsonCountry in regions && p.col in drugs
  }

  function SeriesInRegionsAndDrugs(regions: seq<string>, drugs: seq<string>): seq<Point> -> bool {
    (s: seq<Point>) => |s| > 0 && s[0].supp.jsonCountry in regions && s[0].col in drugs
  }

  /** The labels labelTS writes, one per series end. */
  function Labels(series: seq<seq<Classed>>): (r: seq<Label>)
    requires forall i :: 0 <= i < |series| ==> |series[i]| > 0
    ensures |r| == |series|
    ensures forall i :: 0 <= i < |series| ==> r[i] == LabelOf(Endpoints(series)[i])
  {
    var ends := Endpoints(series);
    seq(|ends|, i requires 0 <= i < |ends| => LabelOf(ends[i]))
  }

  /** The regions view's points and series: kept, then labelled with no drug. */
  function RegionPoints(points: seq<Point>, regions: seq<string>, drugs: seq<string>): seq<Classed> {
    InsertClass(Filter(points, InRegionsAndDrugs(regions, drugs)), None)
  }

  function RegionSeries(series: seq<seq<Point>>, regions: seq<string>, drugs: seq<string>): (r: seq<seq<Classed>>)
    ensures forall i :: 0 <= i < |r| ==> |r[i]| > 0
  {
    var kept := Filter(series, SeriesInRegionsAndDrugs(regions, drugs));
    InsertTSClassKeepsSeries(kept, None);
    var r := InsertTSClass(kept, None);
    assert forall i :: 0 <= i < |r| ==> |r[i]| == |kept[i]| && kept[i] in kept;
    r
  }

  /**
   * The data part of drawTSRegions, given getIncbArray's points and
   * getIncbTS's series: keep those whose `supp.json_country` is among the
   * regions and whose drug is among the drugs, label them with no drug, take
   * the cube-root scales from the point array (which pushes the sentinel onto
   * it), drop the sentinel again, and label the last point of every series.
   */
  function RegionsView(points: seq<Point>, series: seq<seq<Point>>, regions: seq<string>, drugs: seq<string>,
                       width: real, height: real): View
  {
    var cpts := RegionPoints(points, regions, drugs);
    var cts := RegionSeries(series, regions, drugs);
    var scaled := TSScalesPow(Rows(cpts), width, height, RegionPaddings());
    View(PointsOfRows(Filter(scaled.data, HasFields)), cts, scaled.scales, Labels(cts))
  }

  /**
   * The points drawTSRegions draws are exactly its regions' points of its
   * drugs, all "selected": the sentinel getTSScalesPow pushed onto the array
   * is gone again.
   */
  lemma RegionsViewPoints(points: seq<Point>, series: seq<seq<Point>>, regions: seq<string>, drugs: seq<string>,
                          width: real, height: real)
    ensures var v := RegionsView(points, series, regions, drugs, width, height);
            && v.points == RegionPoints(points, regions, drugs)
            && (forall p :: p in Points(v.points) <==> p in points && p.supp.jsonCountry in regions && p.col in drugs)
            && (forall i :: 0 <= i < |v.points| ==> v.points[i].cls == Selected)
  {
    var cpts := RegionPoints(points, regions, drugs);
    SentinelFilteredOut(cpts);
    DataOfRows(cpts);
    InsertClassKeepsPoints(Filter(points, InRegionsAndDrugs(regions, drugs)), None);
  }

  /**
   * drawTSRegions draws exactly the non-empty series whose first point is in
   * its regions and drugs, every point "ts unselected".
   */
  lemma RegionsViewSeries(points: seq<Point>, series: seq<seq<Point>>, regions: seq<string>, drugs: seq<string>,
                          width: real, height: real)
    ensures var v := RegionsView(points, series, regions, drugs, width, height);
            && (forall s: seq<Point> :: s in Unlabel(v.series) <==> s in series && |s| > 0 && s[0].supp.jsonCountry in regions && s[0].col in drugs)
            && (forall i, j :: 0 <= i < |v.series| && 0 <= j < |v.series[i]| ==> v.series[i][j].cls == TSUnselected)
  {
    var v := RegionsView(points, series, regions, drugs, width, height);
    assert v.series == RegionSeries(series, regions, drugs);
    RegionSeriesContents(series, regions, drugs);
  }

  lemma RegionSeriesContents(series: seq<seq<Point>>, regions: seq<string>, drugs: seq<string>)
    ensures var r := RegionSeries(series, regions, drugs);
            && (forall s: seq<Point> :: s in Unlabel(r) <==> s in series && |s| > 0 && s[0].supp.jsonCountry in regions && s[0].col in drugs)
            && (forall i, j :: 0 <= i < |r| && 0 <= j < |r[i]| ==> r[i][j].cls == TSUnselected)
  {
    InsertTSClassKeepsSeries(Filter(series, SeriesInRegionsAndDrugs(regions, drugs)), None);
  }

  /**
   * Each label of drawTSRegions sits on the last point of its series, reads
   * that point's iso3 code, and is named after its drug and country.
   */
  lemma RegionLabelsAtSeriesEnds(points: seq<Point>, series: seq<seq<Point>>, regions: seq<string>, drugs: seq<string>,
                                 width: real, height: real, i: nat)
    requires i < |RegionsView(points, series, regions, drugs, width, height).series|
    ensures var v := RegionsView(points, series, regions, drugs, width, height);
            var s := v.series[i];
            && |s| > 0 && i < |v.labels|
            && v.labels[i].at == s[|s| - 1].point && v.labels[i].text == s[|s| - 1].point.iso3
            && v.labels[i].id == "label_" + s[|s| - 1].point.col + "_" + s[|s| - 1].point.appear
  {
  }

  /**
   * drawTSRegions(elem, incb, regions, drugs, ...): as drawTSCountry, the
   * series come from a second getIncbTS on the array the first one sorted,
   * and the first-point filter throws exactly when some country has a drug
   * field and an empty "years" array.
   */
  function TSRegions(incb: seq<Country>, regions: seq<string>, drugs: seq<string>, width: real, height: real): (r: Option<View>)
    requires AllWellFormed(incb)
    ensures r.None? <==> !NoEmptySeries(SecondPass(incb).series)
    ensures r.None? <==> exists i :: 0 <= i < |incb| && DatesMissing(incb[i])
    ensures r.Some? ==> r.value == RegionsView(IncbArray(incb).points, SecondPass(incb).series, regions, drugs, width, height)
  {
    SecondPassEmptySeries(incb);
    var ts := SecondPass(incb);
    if NoEmptySeries(ts.series) then Some(RegionsView(IncbArray(incb).points, ts.series, regions, drugs, width, height))
    else None
  }

  /**
   * When every series runs forward in time, each label of the regions view
   * marks the latest date of its series.
   */
  lemma RegionLabelsAtLatest(points: seq<Point>, series: seq<seq<Point>>, regions: seq<string>, drugs: seq<string>,
                             width: real, height: real, i: nat)
    requires forall s: seq<Point>, a, b :: s in series && 0 <= a < b < |s| ==> s[a].x <= s[b].x
    requires i < |RegionsView(points, series, regions, drugs, width, height).series|
    ensures var v := RegionsView(points, series, regions, drugs, width, height);
            i < |v.labels| && forall j :: 0 <= j < |v.series[i]| ==> v.series[i][j].point.x <= v.labels[i].at.x
  {
    var v := RegionsView(points, series, regions, drugs, width, height);
    RegionsViewSeries(points, series, regions, drugs, width, height);
    RegionLabelsAtSeriesEnds(points, series, regions, drugs, width, height, i);
    var s := Points(v.series[i]);
    assert s == Unlabel(v.series)[i];
    assert s in series;
    forall j | 0 <= j < |v.series[i]|
      ensures v.series[i][j].point.x <= v.labels[i].at.x
    {
      assert s[j] == v.series[i][j].point;
      assert j == |s| - 1 || s[j].x <= s[|s| - 1].x;
    }
  }

  /**
   * Because getIncbArray has already sorted every country's dates, the series
   * of drawTSRegions run forward in time and each label marks the latest
   * date of its series.
   */
  lemma RegionLabelsAtLatestDate(incb: seq<Country>, regions: seq<string>, drugs: seq<string>, width: real, height: real, i: nat)
    requires AllWellFormed(incb)
    requires i < |RegionsView(IncbArray(incb).points, SecondPass(incb).series, regions, drugs, width, height).series|
    ensures var v := RegionsView(IncbArray(incb).points, SecondPass(incb).series, regions, drugs, width, height);
            i < |v.labels| && forall j :: 0 <= j < |v.series[i]| ==> v.series[i][j].point.x <= v.labels[i].at.x
  {
    var series := SecondPass(incb).series;
    forall s: seq<Point>, a, b | s in series && 0 <= a < b < |s|
      ensures s[a].x <= s[b].x
    {
      SecondPassAscends(incb, s);
    }
    RegionLabelsAtLatest(IncbArray(incb).points, series, regions, drugs, width, height, i);
  }
}
