/**
 * The reshaping half of assets/js/data.js: getIncbTS, getIncbArray,
 * getIncbHistoArray and getMapDict.
 *
 * getIncbTS calls sortIndices on a country's "years" array once per drug
 * field, and sortIndices sorts that array in place. The model therefore
 * returns the countries as getIncbTS leaves them, next to the series: the
 * first drug field is read through argsort(years) against the already sorted
 * dates, every later field through the identity against the sorted dates.
 */
module Data {
  import opened Records
  import opened Seqs
  import opened Sorting

  predicate IsDrugField(f: Field) {
    f.name != Years
  }

  /** The fields getIncbTS turns into series: every `ts` key except "years", in key order. */
  function DrugFields(ts: seq<Field>): seq<Field> {
    Filter(ts, IsDrugField)
  }

  /** The drug fields are exactly the fields not called "years", in key order. */
  lemma DrugFieldsAreNonYears(ts: seq<Field>)
    ensures forall f :: f in DrugFields(ts) <==> f in ts && f.name != Years
    ensures IsSubseq(DrugFields(ts), ts)
  {
    FilterIsSubseq(ts, IsDrugField);
  }

  /** The position of the "years" field (JavaScript object keys are unique, so the first is the one). */
  function YearsIndex(ts: seq<Field>): (r: Option<nat>)
    ensures r.Some? ==> r.value < |ts| && ts[r.value].name == Years
    ensures r.Some? ==> forall i :: 0 <= i < r.value ==> ts[i].name != Years
    ensures r.None? ==> forall i :: 0 <= i < |ts| ==> ts[i].name != Years
  {
    if |ts| == 0 then None
    else if ts[0].name == Years then Some(0)
    else match YearsIndex(ts[1..])
      case None => None
      case Some(k) => Some(k + 1)
  }

  /** Every drug field holds one amount per date. */
  predicate LengthsMatch(ts: seq<Field>, n: nat) {
    forall i :: 0 <= i < |ts| && ts[i].name != Years ==> |ts[i].values| == n
  }

  /**
   * The shape getIncbTS relies on without checking it: a "years" field, and
   * drug arrays exactly as long as it (a country with no `ts` fields at all
   * is fine too).
   */
  predicate WellFormed(c: Country) {
    match YearsIndex(c.ts)
    case None => |c.ts| == 0
    case Some(k) => LengthsMatch(c.ts, |c.ts[k].values|)
  }

  predicate AllWellFormed(incb: seq<Country>) {
    forall i :: 0 <= i < |incb| ==> WellFormed(incb[i])
  }

  /** The dates a well-formed country's series are read against. */
  function YearsOf(c: Country): seq<real>
    requires WellFormed(c)
  {
    match YearsIndex(c.ts)
    case None => []
    case Some(k) => c.ts[k].values
  }

  /**
   * The `curTs` built for one drug field (data.js lines 40-49): point t reads
   * the amount at `s.sortIndices[t]` and the date at the same position of the
   * array sortIndices left sorted.
   */
  function SeriesPoints(st: Static, f: Field, s: SortResult): (r: seq<Point>)
    requires |s.sorted| == |f.values| == |s.sortIndices|
    requires forall t :: 0 <= t < |s.sortIndices| ==> s.sortIndices[t] < |f.values|
    ensures |r| == |f.values|
  {
    seq(|f.values|, t requires 0 <= t < |f.values| =>
      Point(s.sorted[s.sortIndices[t]], f.values[s.sortIndices[t]], f.name,
            st.country, st.iso3, st.jsonCountry, st))
  }

  /**
   * What a series built from sortIndices(years) reads: with p its argsort,
   * point t takes the amount at input position p[t] but the date at input
   * position p[p[t]], because the dates were already put in sorted order.
   */
  lemma SeriesPointsReadsTwice(st: Static, f: Field, ys: seq<real>, t: nat)
    requires |f.values| == |ys| && t < |ys|
    ensures var p := SortIndices(ys).sortIndices;
            && p[t] < |ys| && p[p[t]] < |ys|
            && SeriesPoints(st, f, SortIndices(ys))[t].x == ys[p[p[t]]]
            && SeriesPoints(st, f, SortIndices(ys))[t].y == f.values[p[t]]
  {
  }

  /**
   * The inner field loop of getIncbTS for one country, with the contents of
   * its "years" array threaded through: each drug field first sorts the array
   * again, then builds its series. Returns the series and the final contents.
   */
  function FieldSeries(st: Static, fields: seq<Field>, years: seq<real>): (r: (seq<seq<Point>>, seq<real>))
    requires LengthsMatch(fields, |years|)
    ensures |r.0| == |DrugFields(fields)|
    ensures forall m :: 0 <= m < |r.0| ==> |r.0[m]| == |years|
    ensures |r.1| == |years|
    decreases |fields|
  {
    if |fields| == 0 then ([], years)
    else
      DrugFieldsCons(fields);
      assert LengthsMatch(fields[1..], |years|);
      if fields[0].name == Years then FieldSeries(st, fields[1..], years)
      else
        var s := SortIndices(years);
        var rest := FieldSeries(st, fields[1..], s.sorted);
        ([SeriesPoints(st, fields[0], s)] + rest.0, rest.1)
  }

  /** Filtering the drug fields one field at a time. */
  lemma DrugFieldsCons(fields: seq<Field>)
    requires |fields| > 0
    ensures DrugFields(fields) == (if IsDrugField(fields[0]) then [fields[0]] else []) + DrugFields(fields[1..])
  {
  }

  /** One country's series, and the country as getIncbTS leaves it (its "years" array sorted in place). */
  function ReshapeCountry(c: Country): (r: (seq<seq<Point>>, Country))
    requires WellFormed(c)
    ensures |r.0| == |DrugFields(c.ts)|
    ensures forall m :: 0 <= m < |r.0| ==> |r.0[m]| == |DrugFields(c.ts)[m].values| == |YearsOf(c)|
  {
    match YearsIndex(c.ts)
    case None => ([], c)
    case Some(k) =>
      DrugFieldLengths(c.ts, |c.ts[k].values|);
      var out := FieldSeries(c.profile, c.ts, c.ts[k].values);
      (out.0, c.(ts := c.ts[k := Field(Years, out.1)]))
  }

  /** What getIncbTS returns, and the `incb` array it leaves behind. */
  datatype Reshaped = Reshaped(series: seq<seq<Point>>, incb: seq<Country>)

  /** getIncbTS(incb): one series per (country, drug field), countries in order, then fields in key order. */
  function IncbTS(incb: seq<Country>): (r: Reshaped)
    requires AllWellFormed(incb)
    ensures |r.incb| == |incb|
  {
    Reshaped(Flatten(CountrySeriesRows(incb)),
             seq(|incb|, i requires 0 <= i < |incb| => ReshapeCountry(incb[i]).1))
  }

  /** The per-country series lists whose concatenation getIncbTS returns. */
  function CountrySeriesRows(incb: seq<Country>): (r: seq<seq<seq<Point>>>)
    requires AllWellFormed(incb)
    ensures |r| == |incb|
    ensures forall i :: 0 <= i < |incb| ==> r[i] == ReshapeCountry(incb[i]).0
  {
    seq(|incb|, i requires 0 <= i < |incb| => ReshapeCountry(incb[i]).0)
  }

  // ----------------------------------------------------------------------
  // Properties of the per-country reshape
  // ----------------------------------------------------------------------

  lemma DrugFieldLengths(fields: seq<Field>, n: nat)
    requires LengthsMatch(fields, n)
    ensures forall m :: 0 <= m < |DrugFields(fields)| ==> |DrugFields(fields)[m].values| == n
  {
    forall m | 0 <= m < |DrugFields(fields)|
      ensures |DrugFields(fields)[m].values| == n
    {
      var f := DrugFields(fields)[m];
      assert f in fields && IsDrugField(f);
      var i :| 0 <= i < |fields| && fields[i] == f;
    }
  }

  /** The field loop leaves the dates sorted once it has met a drug field, and untouched otherwise. */
  lemma {:induction false} FieldSeriesYears(st: Static, fields: seq<Field>, ys: seq<real>)
    requires LengthsMatch(fields, |ys|)
    ensures FieldSeries(st, fields, ys).1 == (if |DrugFields(fields)| == 0 then ys else SortIndices(ys).sorted)
    decreases |fields|
  {
    if |fields| > 0 {
      DrugFieldsCons(fields);
      assert LengthsMatch(fields[1..], |ys|);
      if fields[0].name == Years {
        FieldSeriesYears(st, fields[1..], ys);
      } else {
        SortIndicesSettles(ys);
        FieldSeriesYears(st, fields[1..], SortIndices(ys).sorted);
      }
    }
  }

  /** The drug fields of `fields`, one field at a time, without sequence concatenation. */
  lemma DrugFieldsStep(fields: seq<Field>)
    requires |fields| > 0
    ensures fields[0].name == Years ==> DrugFields(fields) == DrugFields(fields[1..])
    ensures fields[0].name != Years ==>
              && |DrugFields(fields)| == |DrugFields(fields[1..])| + 1
              && DrugFields(fields)[0] == fields[0]
              && forall m :: 0 < m < |DrugFields(fields)| ==> DrugFields(fields)[m] == DrugFields(fields[1..])[m - 1]
  {
    DrugFieldsCons(fields);
  }

  /** Over dates already in ascending order, every drug field's series is read through the identity. */
  lemma {:induction false} FieldSeriesOfSorted(st: Static, fields: seq<Field>, zs: seq<real>, m: nat)
    requires LengthsMatch(fields, |zs|) && Ascending(zs)
    requires m < |DrugFields(fields)|
    ensures |DrugFields(fields)[m].values| == |zs|
    ensures FieldSeries(st, fields, zs).0[m] == SeriesPoints(st, DrugFields(fields)[m], SortResult(zs, Iota(|zs|)))
    decreases |fields|
  {
    assert LengthsMatch(fields[1..], |zs|);
    if fields[0].name == Years {
      assert DrugFields(fields) == DrugFields(fields[1..]) by {
        DrugFieldsStep(fields);
      }
      FieldSeriesOfSorted(st, fields[1..], zs, m);
    } else {
      assert SortIndices(zs) == SortResult(zs, Iota(|zs|)) by {
        SortIndicesOfAscending(zs);
      }
      if m == 0 {
        assert DrugFields(fields)[0] == fields[0] by {
          DrugFieldsStep(fields);
        }
        FieldSeriesDrugStep(st, fields, zs, 0);
      } else {
        assert m - 1 < |DrugFields(fields[1..])| && DrugFields(fields)[m] == DrugFields(fields[1..])[m - 1] by {
          DrugFieldsStep(fields);
        }
        FieldSeriesDrugStep(st, fields, zs, m);
        FieldSeriesOfSorted(st, fields[1..], zs, m - 1);
      }
    }
  }

  /** The first drug field's series is read through argsort(years) against the sorted dates. */
  lemma {:induction false} FieldSeriesFirst(st: Static, fields: seq<Field>, ys: seq<real>)
    requires LengthsMatch(fields, |ys|)
    requires 0 < |DrugFields(fields)|
    ensures |DrugFields(fields)[0].values| == |ys|
    ensures FieldSeries(st, fields, ys).0[0] == SeriesPoints(st, DrugFields(fields)[0], SortIndices(ys))
    decreases |fields|
  {
    assert LengthsMatch(fields[1..], |ys|);
    if fields[0].name == Years {
      assert DrugFields(fields) == DrugFields(fields[1..]) by {
        DrugFieldsStep(fields);
      }
      FieldSeriesFirst(st, fields[1..], ys);
    } else {
      assert DrugFields(fields)[0] == fields[0] by {
        DrugFieldsStep(fields);
      }
      FieldSeriesDrugStep(st, fields, ys, 0);
    }
  }

  /**
   * Every drug field after the first is read through the identity against
   * the sorted dates: by then the array it sorts again is already in order.
   */
  lemma {:induction false} FieldSeriesLater(st: Static, fields: seq<Field>, ys: seq<real>, m: nat)
    requires LengthsMatch(fields, |ys|)
    requires 0 < m < |DrugFields(fields)|
    ensures |DrugFields(fields)[m].values| == |ys|
    ensures FieldSeries(st, fields, ys).0[m]
              == SeriesPoints(st, DrugFields(fields)[m], SortResult(SortIndices(ys).sorted, Iota(|ys|)))
    decreases |fields|
  {
    assert LengthsMatch(fields[1..], |ys|);
    if fields[0].name == Years {
      assert DrugFields(fields) == DrugFields(fields[1..]) by {
        DrugFieldsStep(fields);
      }
      FieldSeriesLater(st, fields[1..], ys, m);
    } else {
      assert m - 1 < |DrugFields(fields[1..])| && DrugFields(fields)[m] == DrugFields(fields[1..])[m - 1] by {
        DrugFieldsStep(fields);
      }
      FieldSeriesDrugStep(st, fields, ys, m);
      FieldSeriesOfSorted(st, fields[1..], SortIndices(ys).sorted, m - 1);
    }
  }

  /** One drug field: its series comes first, then the series of the rest against the re-sorted dates. */
  lemma FieldSeriesDrugStep(st: Static, fields: seq<Field>, ys: seq<real>, m: nat)
    requires LengthsMatch(fields, |ys|)
    requires |fields| > 0 && fields[0].name != Years
    requires m < |FieldSeries(st, fields, ys).0|
    ensures LengthsMatch(fields[1..], |SortIndices(ys).sorted|)
    ensures m > 0 ==> FieldSeries(st, fields, ys).0[m] == FieldSeries(st, fields[1..], SortIndices(ys).sorted).0[m - 1]
    ensures m == 0 ==> FieldSeries(st, fields, ys).0[m] == SeriesPoints(st, fields[0], SortIndices(ys))
  {
    assert LengthsMatch(fields[1..], |ys|);
    var s := SortIndices(ys);
    var rest := FieldSeries(st, fields[1..], s.sorted);
    assert FieldSeries(st, fields, ys).0 == [SeriesPoints(st, fields[0], s)] + rest.0;
  }

  /**
   * Point t of the series of drug field m: it carries the field's name and
   * the country's static attributes; for the first drug field it pairs
   * sorted(years)[p[t]] with amount[p[t]] for p = argsort(years), for every
   * later field it pairs sorted(years)[t] with amount[t].
   */
  lemma ReshapeCountryPoint(c: Country, m: nat, t: nat)
    requires WellFormed(c)
    requires m < |DrugFields(c.ts)| && t < |DrugFields(c.ts)[m].values|
    ensures var p := ReshapeCountry(c).0[m][t];
            var f := DrugFields(c.ts)[m];
            var s := SortIndices(YearsOf(c));
            && p.col == f.name
            && p.appear == c.profile.country && p.iso3 == c.profile.iso3
            && p.jsonCountry == c.profile.jsonCountry && p.supp == c.profile
            && (m == 0 ==> p.x == s.sorted[s.sortIndices[t]] && p.y == f.values[s.sortIndices[t]])
            && (m > 0 ==> p.x == s.sorted[t] && p.y == f.values[t])
  {
    assert YearsIndex(c.ts).Some?;
    if m == 0 {
      FieldSeriesFirst(c.profile, c.ts, YearsOf(c));
    } else {
      FieldSeriesLater(c.profile, c.ts, YearsOf(c), m);
    }
  }

  /** A country getIncbTS has already been over: its dates are sorted (whenever they are read at all). */
  predicate Settled(c: Country) {
    WellFormed(c) && (|DrugFields(c.ts)| > 0 ==> Ascending(YearsOf(c)))
  }

  lemma {:induction false} DrugFieldsOfYearsUpdate(ts: seq<Field>, k: nat, ys: seq<real>)
    requires k < |ts| && ts[k].name == Years
    ensures DrugFields(ts[k := Field(Years, ys)]) == DrugFields(ts)
    decreases |ts|
  {
    DrugFieldsCons(ts);
    DrugFieldsCons(ts[k := Field(Years, ys)]);
    if k > 0 {
      DrugFieldsOfYearsUpdate(ts[1..], k - 1, ys);
      assert ts[k := Field(Years, ys)][1..] == ts[1..][k - 1 := Field(Years, ys)];
    } else {
      assert ts[k := Field(Years, ys)][1..] == ts[1..];
    }
  }

  /**
   * The country getIncbTS leaves behind keeps its static block and its drug
   * fields; its dates are sorted once it has a drug field, untouched otherwise.
   */
  lemma ReshapedCountryYears(c: Country)
    requires WellFormed(c)
    ensures var c' := ReshapeCountry(c).1;
            && WellFormed(c')
            && c'.profile == c.profile
            && DrugFields(c'.ts) == DrugFields(c.ts)
            && YearsOf(c') == (if |DrugFields(c.ts)| == 0 then YearsOf(c) else SortIndices(YearsOf(c)).sorted)
  {
    match YearsIndex(c.ts)
    case None =>
    case Some(k) =>
      var ys := YearsOf(c);
      FieldSeriesYears(c.profile, c.ts, ys);
      var out := FieldSeries(c.profile, c.ts, ys);
      var ts' := c.ts[k := Field(Years, out.1)];
      assert ReshapeCountry(c).1 == c.(ts := ts');
      DrugFieldsOfYearsUpdate(c.ts, k, out.1);
      YearsIndexOfUpdate(c.ts, k, out.1);
      assert LengthsMatch(ts', |out.1|) by {
        forall i | 0 <= i < |ts'| && ts'[i].name != Years
          ensures |ts'[i].values| == |out.1|
        {
          assert ts'[i] == c.ts[i];
        }
      }
  }

  lemma YearsIndexOfUpdate(ts: seq<Field>, k: nat, ys: seq<real>)
    requires YearsIndex(ts) == Some(k)
    ensures YearsIndex(ts[k := Field(Years, ys)]) == Some(k)
  {
    var ts' := ts[k := Field(Years, ys)];
    assert ts'[k].name == Years;
    assert forall i :: 0 <= i < k ==> ts'[i] == ts[i];
  }

  /** getIncbTS leaves every country settled, and on a settled country it changes nothing. */
  lemma ReshapeCountrySettles(c: Country)
    requires WellFormed(c)
    ensures Settled(ReshapeCountry(c).1)
    ensures Settled(c) ==> ReshapeCountry(c).1 == c
  {
    ReshapedCountryYears(c);
    if Settled(c) && YearsIndex(c.ts).Some? {
      var k := YearsIndex(c.ts).value;
      var ys := YearsOf(c);
      if |DrugFields(c.ts)| > 0 {
        SortIndicesOfAscending(ys);
      }
      FieldSeriesYears(c.profile, c.ts, ys);
      assert FieldSeries(c.profile, c.ts, ys).1 == ys;
      assert c.ts[k] == Field(Years, ys);
      assert c.ts[k := Field(Years, ys)] == c.ts;
    }
  }

  /** On a settled country every series pairs date t with amount t. */
  lemma SettledCountryPoint(c: Country, m: nat, t: nat)
    requires Settled(c)
    requires m < |DrugFields(c.ts)| && t < |DrugFields(c.ts)[m].values|
    ensures ReshapeCountry(c).0[m][t].x == YearsOf(c)[t]
    ensures ReshapeCountry(c).0[m][t].y == DrugFields(c.ts)[m].values[t]
  {
    ReshapeCountryPoint(c, m, t);
    SortIndicesOfAscending(YearsOf(c));
  }

  /**
   * When a country's dates are already strictly ascending, every series pairs
   * date t with amount t. This holds whatever order the engine gives ties,
   * since strictly ascending dates have no ties.
   */
  lemma AlignedWhenStrictlyAscending(c: Country, m: nat, t: nat)
    requires WellFormed(c) && StrictlyAscending(YearsOf(c))
    requires m < |DrugFields(c.ts)| && t < |DrugFields(c.ts)[m].values|
    ensures ReshapeCountry(c).0[m][t].x == YearsOf(c)[t]
    ensures ReshapeCountry(c).0[m][t].y == DrugFields(c.ts)[m].values[t]
  {
    ReshapeCountryPoint(c, m, t);
    var ys := YearsOf(c);
    var s := SortIndices(ys);
    SortingPermutationOfStrictIsIdentity(ys, s.sortIndices);
  }

  /** The (date, amount) pairs of a series. */
  function XY(s: seq<Point>): (r: seq<(real, real)>)
    ensures |r| == |s|
    ensures forall i :: 0 <= i < |s| ==> r[i] == (s[i].x, s[i].y)
  {
    seq(|s|, i requires 0 <= i < |s| => (s[i].x, s[i].y))
  }

  /**
   * On any well-formed country whose dates are distinct, sorted or not, the
   * points of one series carry distinct dates: series 0 lists the sorted
   * dates in argsort order, the later ones list them in sorted order.
   */
  lemma SeriesDatesDistinct(c: Country, m: nat, a: nat, b: nat)
    requires WellFormed(c) && Distinct(YearsOf(c))
    requires m < |DrugFields(c.ts)| && a < b < |DrugFields(c.ts)[m].values|
    ensures ReshapeCountry(c).0[m][a].x != ReshapeCountry(c).0[m][b].x
  {
    var ys := YearsOf(c);
    var s := SortIndices(ys);
    var p := s.sortIndices;
    ReshapeCountryPoint(c, m, a);
    ReshapeCountryPoint(c, m, b);
    assert Distinct(s.sorted) by {
      forall i, j | 0 <= i < j < |s.sorted|
        ensures s.sorted[i] != s.sorted[j]
      {
        assert p[i] != p[j];
        assert s.sorted[i] == ys[p[i]] && s.sorted[j] == ys[p[j]];
        if p[i] < p[j] {
          assert ys[p[i]] != ys[p[j]];
        } else {
          assert ys[p[j]] != ys[p[i]];
        }
      }
    }
    if m == 0 {
      assert p[a] != p[b];
      if p[a] < p[b] {
        assert s.sorted[p[a]] != s.sorted[p[b]];
      } else {
        assert s.sorted[p[b]] != s.sorted[p[a]];
      }
    }
  }

  /** A country with dates [2001, 2000, 2002], morphine [5, 3, 9] and codeine [1, 2, 4]. */
  predicate IsExampleCountry(c: Country) {
    c == Country(Static("Ruritania", "RUR", "Ruritania"),
                 [Field(Years, [2001.0, 2000.0, 2002.0]),
                  Field("morphine", [5.0, 3.0, 9.0]),
                  Field("codeine", [1.0, 2.0, 4.0])])
  }

  lemma ExampleCountryYears(c: Country)
    requires IsExampleCountry(c)
    ensures WellFormed(c)
    ensures YearsOf(c) == [2001.0, 2000.0, 2002.0]
  {
    assert YearsIndex(c.ts) == Some(0);
  }

  lemma ExampleCountryDrugs(c: Country)
    requires IsExampleCountry(c)
    ensures DrugFields(c.ts) == [Field("morphine", [5.0, 3.0, 9.0]), Field("codeine", [1.0, 2.0, 4.0])]
  {
    var t1 := c.ts[1..];
    var t2 := t1[1..];
    assert DrugFields(t2[1..]) == [] by {
      assert t2[1..] == [];
    }
    assert DrugFields(t2) == [t2[0]] + DrugFields(t2[1..]) by {
      DrugFieldsCons(t2);
    }
    assert DrugFields(t1) == [t1[0]] + DrugFields(t2) by {
      DrugFieldsCons(t1);
    }
    assert DrugFields(c.ts) == DrugFields(t1) by {
      DrugFieldsCons(c.ts);
    }
  }

  lemma ExampleCountryFacts(c: Country)
    requires IsExampleCountry(c)
    ensures WellFormed(c)
    ensures YearsOf(c) == [2001.0, 2000.0, 2002.0]
    ensures DrugFields(c.ts) == [Field("morphine", [5.0, 3.0, 9.0]), Field("codeine", [1.0, 2.0, 4.0])]
    ensures SortIndices(YearsOf(c)) == SortResult([2000.0, 2001.0, 2002.0], [1, 0, 2])
  {
    ExampleCountryYears(c);
    ExampleCountryDrugs(c);
    SortIndicesExample(YearsOf(c));
  }

  /**
   * The morphine series of the example country comes out as (2001,3),
   * (2000,5), (2002,9), while the input pairs 2001 with 5 and 2000 with 3.
   */
  lemma {:induction false} MisalignedFirstSeries(c: Country)
    requires IsExampleCountry(c)
    ensures WellFormed(c) && |ReshapeCountry(c).0| == 2
    ensures XY(ReshapeCountry(c).0[0]) == [(2001.0, 3.0), (2000.0, 5.0), (2002.0, 9.0)]
  {
    ExampleCountryFacts(c);
    ReshapeCountryPoint(c, 0, 0);
    ReshapeCountryPoint(c, 0, 1);
    ReshapeCountryPoint(c, 0, 2);
  }

  /**
   * The codeine series of the example country comes out as (2000,1),
   * (2001,2), (2002,4), while the input pairs 2001 with 1 and 2000 with 2;
   * the country is left with its dates sorted.
   */
  lemma {:induction false} MisalignedLaterSeries(c: Country)
    requires IsExampleCountry(c)
    ensures WellFormed(c) && |ReshapeCountry(c).0| == 2
    ensures XY(ReshapeCountry(c).0[1]) == [(2000.0, 1.0), (2001.0, 2.0), (2002.0, 4.0)]
    ensures YearsOf(ReshapeCountry(c).1) == [2000.0, 2001.0, 2002.0]
  {
    ExampleCountryFacts(c);
    ReshapeCountryPoint(c, 1, 0);
    ReshapeCountryPoint(c, 1, 1);
    ReshapeCountryPoint(c, 1, 2);
    ReshapedCountryYears(c);
  }

  // ----------------------------------------------------------------------
  // Properties of getIncbTS over all countries
  // ----------------------------------------------------------------------

  /** The series of country i, drug field m, sits at its row-major position in getIncbTS's output. */
  lemma IncbTSSeriesAt(incb: seq<Country>, i: nat, m: nat)
    requires AllWellFormed(incb)
    requires i < |incb| && m < |DrugFields(incb[i].ts)|
    ensures var off := TotalLength(CountrySeriesRows(incb)[..i]);
            && off + m < |IncbTS(incb).series|
            && IncbTS(incb).series[off + m] == ReshapeCountry(incb[i]).0[m]
  {
    FlattenIndex(CountrySeriesRows(incb), i, m);
  }

  /** getIncbTS emits exactly one series per drug field of each country. */
  lemma IncbTSCount(incb: seq<Country>)
    requires AllWellFormed(incb)
    ensures |IncbTS(incb).series| == TotalLength(seq(|incb|, i requires 0 <= i < |incb| => DrugFields(incb[i].ts)))
  {
    TotalLengthOfSameShape(CountrySeriesRows(incb), seq(|incb|, i requires 0 <= i < |incb| => DrugFields(incb[i].ts)));
  }

  /** Every series getIncbTS returns is the series of one drug field of one country. */
  lemma IncbTSSeriesOrigin(incb: seq<Country>, s: seq<Point>)
    requires AllWellFormed(incb)
    requires s in IncbTS(incb).series
    ensures exists i, m :: 0 <= i < |incb| && 0 <= m < |ReshapeCountry(incb[i]).0| && s == ReshapeCountry(incb[i]).0[m]
  {
    var rows := CountrySeriesRows(incb);
    FlattenMember(rows, s);
    var i :| 0 <= i < |rows| && s in rows[i];
    var m :| 0 <= m < |rows[i]| && rows[i][m] == s;
  }

  predicate AllSettled(incb: seq<Country>) {
    forall i :: 0 <= i < |incb| ==> Settled(incb[i])
  }

  /** After one getIncbTS every country is settled, and a second call leaves `incb` as it is. */
  lemma IncbTSSettles(incb: seq<Country>)
    requires AllWellFormed(incb)
    ensures AllSettled(IncbTS(incb).incb)
    ensures AllSettled(incb) ==> IncbTS(incb).incb == incb
  {
    forall i | 0 <= i < |incb|
      ensures Settled(ReshapeCountry(incb[i]).1)
      ensures Settled(incb[i]) ==> ReshapeCountry(incb[i]).1 == incb[i]
    {
      ReshapeCountrySettles(incb[i]);
    }
  }

  /** Every series getIncbTS builds from settled countries runs through its dates in ascending order. */
  lemma SettledSeriesAscend(incb: seq<Country>, s: seq<Point>)
    requires AllSettled(incb)
    requires s in IncbTS(incb).series
    ensures forall a, b :: 0 <= a < b < |s| ==> s[a].x <= s[b].x
  {
    IncbTSSeriesOrigin(incb, s);
    var i, m :| 0 <= i < |incb| && 0 <= m < |ReshapeCountry(incb[i]).0| && s == ReshapeCountry(incb[i]).0[m];
    SettledCountryAscends(incb[i], m);
  }

  /** On a settled country every series runs through its dates in ascending order. */
  lemma SettledCountryAscends(c: Country, m: nat)
    requires Settled(c) && m < |DrugFields(c.ts)|
    ensures forall a, b :: 0 <= a < b < |ReshapeCountry(c).0[m]| ==> ReshapeCountry(c).0[m][a].x <= ReshapeCountry(c).0[m][b].x
  {
    var s := ReshapeCountry(c).0[m];
    forall a, b | 0 <= a < b < |s|
      ensures s[a].x <= s[b].x
    {
      SettledCountryPoint(c, m, a);
      SettledCountryPoint(c, m, b);
    }
  }

  /** Every point of a getIncbTS series carries the drug and the static block of its series' first point. */
  lemma IncbTSSeriesUniform(incb: seq<Country>, s: seq<Point>)
    requires AllWellFormed(incb)
    requires s in IncbTS(incb).series
    ensures forall a :: 0 <= a < |s| ==> s[a].supp == s[0].supp && s[a].col == s[0].col
    ensures forall a :: 0 <= a < |s| ==> s[a].appear == s[a].supp.country && s[a].jsonCountry == s[a].supp.jsonCountry
  {
    IncbTSSeriesOrigin(incb, s);
    var i, m :| 0 <= i < |incb| && 0 <= m < |ReshapeCountry(incb[i]).0| && s == ReshapeCountry(incb[i]).0[m];
    forall a | 0 <= a < |s|
      ensures s[a].supp == incb[i].profile && s[a].col == DrugFields(incb[i].ts)[m].name
      ensures s[a].appear == incb[i].profile.country && s[a].jsonCountry == incb[i].profile.jsonCountry
    {
      ReshapeCountryPoint(incb[i], m, a);
    }
  }


  // ----------------------------------------------------------------------
  // getIncbArray
  // ----------------------------------------------------------------------

  /** The records getIncbArray pushes: each point, with `supp` taken from its series' first point. */
  function FlatRecords(series: seq<seq<Point>>): seq<Point> {
    Flatten(RecordRows(series))
  }

  function RecordRows(series: seq<seq<Point>>): (r: seq<seq<Point>>)
    ensures |r| == |series|
    ensures forall i :: 0 <= i < |series| ==> |r[i]| == |series[i]|
    ensures forall i, j :: 0 <= i < |series| && 0 <= j < |series[i]| ==> r[i][j] == series[i][j].(supp := series[i][0].supp)
  {
    seq(|series|, i requires 0 <= i < |series| =>
      seq(|series[i]|, j requires 0 <= j < |series[i]| => series[i][j].(supp := series[i][0].supp)))
  }

  /** What getIncbArray returns, and the `incb` array it leaves behind (through its getIncbTS call). */
  datatype Flat = Flat(points: seq<Point>, incb: seq<Country>)

  /** getIncbArray(incb): one record per (country, drug, date), flattened row-major from getIncbTS. */
  function IncbArray(incb: seq<Country>): (r: Flat)
    requires AllWellFormed(incb)
    ensures r.incb == IncbTS(incb).incb
  {
    var ts := IncbTS(incb);
    Flat(FlatRecords(ts.series), ts.incb)
  }

  /**
   * getIncbArray's output has one record per series point, in row-major
   * order; record (i, j) is point j of series i with the series' `supp`.
   */
  lemma FlatRecordsRowMajor(series: seq<seq<Point>>, i: nat, j: nat)
    requires i < |series| && j < |series[i]|
    ensures |FlatRecords(series)| == TotalLength(series)
    ensures TotalLength(series[..i]) + j < |FlatRecords(series)|
    ensures FlatRecords(series)[TotalLength(series[..i]) + j] == series[i][j].(supp := series[i][0].supp)
  {
    RecordRowsLength(series, i);
    FlattenIndex(RecordRows(series), i, j);
  }

  lemma RecordRowsLength(series: seq<seq<Point>>, i: nat)
    requires i <= |series|
    ensures TotalLength(RecordRows(series)) == TotalLength(series)
    ensures TotalLength(RecordRows(series)[..i]) == TotalLength(series[..i])
  {
    var rows := RecordRows(series);
    TotalLengthOfSameShape(rows, series);
    TotalLengthOfSameShape(rows[..i], series[..i]);
  }

  /**
   * Since every series of getIncbTS shares one `supp`, getIncbArray's records
   * are exactly the series points, concatenated in order.
   */
  lemma IncbArrayIsFlattening(incb: seq<Country>)
    requires AllWellFormed(incb)
    ensures IncbArray(incb).points == Flatten(IncbTS(incb).series)
  {
    var series := IncbTS(incb).series;
    var rows := RecordRows(series);
    forall i | 0 <= i < |series|
      ensures rows[i] == series[i]
    {
      assert series[i] in series;
      IncbTSSeriesUniform(incb, series[i]);
    }
    assert rows == series;
  }

  // ----------------------------------------------------------------------
  // getIncbHistoArray
  // ----------------------------------------------------------------------

  /** The field renaming of getIncbHistoArray: q, rank, drug, L1 and country become bin_id, rank_id, col_id, cog and group_id. */
  function Rename(h: HistoRow): (d: HistoPoint)
    ensures d.bin == h.q && d.rank == h.rank && d.col == h.drug && d.cog == h.l1 && d.group == h.country
    ensures d.value == h.value && d.region == h.region && d.subregion == h.subregion && d.jsonCountry == h.jsonCountry
  {
    HistoPoint(h.q, h.rank, h.drug, h.value, h.l1, h.subregion, h.region, h.country, h.jsonCountry)
  }

  /** The cognostic rows of each group, renamed. */
  function RenamedRows(xss: seq<seq<HistoRow>>): (r: seq<seq<HistoPoint>>)
    ensures |r| == |xss|
    ensures forall i :: 0 <= i < |xss| ==> |r[i]| == |xss[i]|
    ensures forall i, j :: 0 <= i < |xss| && 0 <= j < |xss[i]| ==> r[i][j] == Rename(xss[i][j])
  {
    seq(|xss|, i requires 0 <= i < |xss| =>
      seq(|xss[i]|, j requires 0 <= j < |xss[i]| => Rename(xss[i][j])))
  }

  /** getIncbHistoArray(incbHisto): the nested cognostic rows, renamed and flattened row-major. */
  function IncbHistoArray(xss: seq<seq<HistoRow>>): (r: seq<HistoPoint>)
    ensures |r| == TotalLength(xss)
  {
    TotalLengthOfSameShape(RenamedRows(xss), xss);
    Flatten(RenamedRows(xss))
  }

  /** Row j of group i becomes dot TotalLength(xss[..i]) + j of getIncbHistoArray, renamed. */
  lemma IncbHistoArrayRowMajor(xss: seq<seq<HistoRow>>, i: nat, j: nat)
    requires i < |xss| && j < |xss[i]|
    ensures TotalLength(xss[..i]) + j < |IncbHistoArray(xss)|
    ensures IncbHistoArray(xss)[TotalLength(xss[..i]) + j] == Rename(xss[i][j])
  {
    var rows := RenamedRows(xss);
    TotalLengthOfSameShape(rows[..i], xss[..i]);
    FlattenIndex(rows, i, j);
  }

  /** Every dot getIncbHistoArray returns is the renaming of some input row. */
  lemma IncbHistoArrayOrigin(xss: seq<seq<HistoRow>>, d: HistoPoint)
    requires d in IncbHistoArray(xss)
    ensures exists i, j :: 0 <= i < |xss| && 0 <= j < |xss[i]| && d == Rename(xss[i][j])
  {
    var rows := RenamedRows(xss);
    FlattenMember(rows, d);
    var i :| 0 <= i < |rows| && d in rows[i];
    var j :| 0 <= j < |rows[i]| && rows[i][j] == d;
  }

  // ----------------------------------------------------------------------
  // getMapDict
  // ----------------------------------------------------------------------

  /** The countries whose static `json_country` is `name`, in input order. */
  function Matches(incb: seq<Country>, name: string): (r: seq<Country>)
    ensures forall c :: c in r <==> c in incb && c.profile.jsonCountry == name
    ensures IsSubseq(r, incb)
  {
    FilterIsSubseq(incb, NamedAs(name));
    Filter(incb, NamedAs(name))
  }

  /** Whether a country's static `json_country` is `name`. */
  function NamedAs(name: string): Country -> bool {
    (c: Country) => c.profile.jsonCountry == name
  }

  /**
   * getMapDict(incb, countries), with the topojson features given by their
   * names: every feature name some country matches, mapped to all its matches.
   */
  function GetMapDict(incb: seq<Country>, names: seq<string>): (r: map<string, seq<Country>>)
    ensures forall f :: f in r <==> f in names && exists c :: c in incb && c.profile.jsonCountry == f
    ensures forall f :: f in r ==> r[f] == Matches(incb, f) && |r[f]| > 0
  {
    if |names| == 0 then map[]
    else
      var m := GetMapDict(incb, names[..|names| - 1]);
      var f := names[|names| - 1];
      var cur := Matches(incb, f);
      assert names == names[..|names| - 1] + [f];
      assert |cur| > 0 <==> exists c :: c in incb && c.profile.jsonCountry == f by {
        if exists c :: c in incb && c.profile.jsonCountry == f {
          var c :| c in incb && c.profile.jsonCountry == f;
          assert c in cur;
        }
      }
      if |cur| > 0 then m[f := cur] else m
  }
}
