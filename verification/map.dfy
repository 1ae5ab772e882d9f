/**
 * The map helpers of assets/js/map.js: the bounding box getBounds folds over
 * the features, the country lookup of getCountryMatch, and the colour
 * updateMap gives each feature. Features are given by their projected boxes
 * or their names; the projection, the topojson decoding and the colour
 * scale's evaluation belong to D3 and are parameters here.
 */
module Map {
  import opened Records
  import opened Seqs
  import opened Data

  // ----------------------------------------------------------------------
  // getBounds
  // ----------------------------------------------------------------------

  /** `path.bounds(feature)`: the corners `[[x0, y0], [x1, y1]]` of a feature's box. */
  datatype Box = Box(x0: real, y0: real, x1: real, y1: real)

  /** The `bounds` object getBounds returns. */
  datatype Bounds = Bounds(right: real, left: real, top: real, bottom: real)

  /** `v` is the least of `lo` and every `f(b)`, or the greatest when `low` is false. */
  predicate IsExtreme(boxes: seq<Box>, f: Box -> real, v: real, start: real, low: bool) {
    && (if low then v <= start else v >= start)
    && (forall i :: 0 <= i < |boxes| ==> if low then v <= f(boxes[i]) else v >= f(boxes[i]))
    && (v == start || exists i :: 0 <= i < |boxes| && v == f(boxes[i]))
  }

  function X0(b: Box): real { b.x0 }
  function Y0(b: Box): real { b.y0 }
  function X1(b: Box): real { b.x1 }
  function Y1(b: Box): real { b.y1 }

  /**
   * getBounds(features, path), with the features given by their boxes: every
   * bound starts at 0 and is pushed outwards by each box in turn, so `left`
   * is the least of 0 and the boxes' x0, `right` the greatest of 0 and their
   * x1, `bottom` the least of 0 and their y0, `top` the greatest of 0 and
   * their y1.
   */
  method GetBounds(boxes: seq<Box>) returns (r: Bounds)
    ensures IsExtreme(boxes, X0, r.left, 0.0, true)
    ensures IsExtreme(boxes, X1, r.right, 0.0, false)
    ensures IsExtreme(boxes, Y0, r.bottom, 0.0, true)
    ensures IsExtreme(boxes, Y1, r.top, 0.0, false)
  {
    r := Bounds(0.0, 0.0, 0.0, 0.0);
    for i := 0 to |boxes|
      invariant IsExtreme(boxes[..i], X0, r.left, 0.0, true)
      invariant IsExtreme(boxes[..i], X1, r.right, 0.0, false)
      invariant IsExtreme(boxes[..i], Y0, r.bottom, 0.0, true)
      invariant IsExtreme(boxes[..i], Y1, r.top, 0.0, false)
    {
      var b := boxes[i];
      ExtremeStep(boxes, i, X0, r.left, true);
      ExtremeStep(boxes, i, X1, r.right, false);
      ExtremeStep(boxes, i, Y0, r.bottom, true);
      ExtremeStep(boxes, i, Y1, r.top, false);
      if b.x0 < r.left {
        r := r.(left := b.x0);
      }
      if b.x1 > r.right {
        r := r.(right := b.x1);
      }
      if b.y0 < r.bottom {
        r := r.(bottom := b.y0);
      }
      if b.y1 > r.top {
        r := r.(top := b.y1);
      }
    }
    assert boxes[..|boxes|] == boxes;
  }

  /** One step of the fold: comparing with the next box keeps the running value extreme. */
  lemma ExtremeStep(boxes: seq<Box>, i: nat, f: Box -> real, v: real, low: bool)
    requires i < |boxes|
    requires IsExtreme(boxes[..i], f, v, 0.0, low)
    ensures var w := if (if low then f(boxes[i]) < v else f(boxes[i]) > v) then f(boxes[i]) else v;
            IsExtreme(boxes[..i + 1], f, w, 0.0, low)
  {
    var pre := boxes[..i];
    var next := boxes[..i + 1];
    assert forall j :: 0 <= j < i ==> next[j] == pre[j];
    assert next[i] == boxes[i];
    var w := if (if low then f(boxes[i]) < v else f(boxes[i]) > v) then f(boxes[i]) else v;
    if w != 0.0 && w == v {
      var j :| 0 <= j < |pre| && v == f(pre[j]);
      assert v == f(next[j]);
    }
  }

  /** The bounds always contain the origin, also when there are no features. */
  lemma BoundsContainOrigin(boxes: seq<Box>, r: Bounds)
    requires IsExtreme(boxes, X0, r.left, 0.0, true)
    requires IsExtreme(boxes, X1, r.right, 0.0, false)
    requires IsExtreme(boxes, Y0, r.bottom, 0.0, true)
    requires IsExtreme(boxes, Y1, r.top, 0.0, false)
    ensures r.left <= 0.0 <= r.right && r.bottom <= 0.0 <= r.top
    ensures |boxes| == 0 ==> r == Bounds(0.0, 0.0, 0.0, 0.0)
  {
  }

  /** Every feature's box lies within the bounds. */
  lemma BoundsContainBoxes(boxes: seq<Box>, r: Bounds, i: nat)
    requires IsExtreme(boxes, X0, r.left, 0.0, true)
    requires IsExtreme(boxes, X1, r.right, 0.0, false)
    requires IsExtreme(boxes, Y0, r.bottom, 0.0, true)
    requires IsExtreme(boxes, Y1, r.top, 0.0, false)
    requires i < |boxes|
    ensures r.left <= boxes[i].x0 && boxes[i].x1 <= r.right
    ensures r.bottom <= boxes[i].y0 && boxes[i].y1 <= r.top
  {
    assert X0(boxes[i]) == boxes[i].x0 && X1(boxes[i]) == boxes[i].x1;
    assert Y0(boxes[i]) == boxes[i].y0 && Y1(boxes[i]) == boxes[i].y1;
  }

  // ----------------------------------------------------------------------
  // getCountryMatch
  // ----------------------------------------------------------------------

  /** `incb.map(d => d.static.json_country)`. */
  function JsonCountries(incb: seq<Country>): (r: seq<string>)
    ensures |r| == |incb|
    ensures forall i :: 0 <= i < |incb| ==> r[i] == incb[i].profile.jsonCountry
  {
    seq(|incb|, i requires 0 <= i < |incb| => incb[i].profile.jsonCountry)
  }

  /** The `{countryIx, country}` object getCountryMatch returns; None is `undefined`. */
  datatype Match = Match(countryIx: int, country: Option<string>)

  /**
   * getCountryMatch(jsonCountry, incb): the first profile whose
   * `json_country` is the name, and its `static.country`; index -1 and an
   * undefined country (reading position -1 of an array) when none is.
   */
  function GetCountryMatch(name: string, incb: seq<Country>): (r: Match)
    ensures -1 <= r.countryIx < |incb|
    ensures r.countryIx == -1 <==> forall c :: c in incb ==> c.profile.jsonCountry != name
    ensures r.countryIx >= 0 ==> incb[r.countryIx].profile.jsonCountry == name
    ensures r.countryIx >= 0 ==> forall j :: 0 <= j < r.countryIx ==> incb[j].profile.jsonCountry != name
    ensures r.country.None? <==> r.countryIx == -1
    ensures r.country.Some? ==> r.country.value == incb[r.countryIx].profile.country
  {
    var names := JsonCountries(incb);
    var ix := IndexOf(names, name);
    assert ix == -1 <==> forall c :: c in incb ==> c.profile.jsonCountry != name by {
      if ix != -1 {
        assert incb[ix] in incb;
      } else {
        forall c | c in incb
          ensures c.profile.jsonCountry != name
        {
          var k :| 0 <= k < |incb| && incb[k] == c;
          assert names[k] == c.profile.jsonCountry;
        }
      }
    }
    Match(ix, if ix == -1 then None else Some(incb[ix].profile.country))
  }

  /**
   * The hover lookup and the map dictionary agree: a feature has an entry in
   * getMapDict exactly when getCountryMatch finds a profile for it, and the
   * entry's first profile (the one updateMap colours by) is the profile found.
   */
  lemma MapDictAgreesWithMatch(incb: seq<Country>, names: seq<string>, name: string)
    requires name in names
    ensures var m := GetCountryMatch(name, incb);
            && (name in GetMapDict(incb, names) <==> m.countryIx >= 0)
            && (name in GetMapDict(incb, names) ==> GetMapDict(incb, names)[name][0] == incb[m.countryIx])
  {
    var m := GetCountryMatch(name, incb);
    if m.countryIx >= 0 {
      assert incb[m.countryIx] in incb;
      FirstMatch(incb, name, m.countryIx);
    }
  }

  /** The first profile Matches keeps is the first one carrying the name. */
  lemma {:induction false} FirstMatch(incb: seq<Country>, name: string, k: nat)
    requires k < |incb| && incb[k].profile.jsonCountry == name
    requires forall j :: 0 <= j < k ==> incb[j].profile.jsonCountry != name
    ensures |Matches(incb, name)| > 0 && Matches(incb, name)[0] == incb[k]
  {
    assert incb == [incb[0]] + incb[1..];
    if k > 0 {
      FirstMatch(incb[1..], name, k - 1);
    }
  }

  // ----------------------------------------------------------------------
  // updateMap / updateMapColors
  // ----------------------------------------------------------------------

  /** The neutral fill of a feature without data. */
  const NoDataFill: string := "#D3D3D3"

  /** The year the map slider's index counts from. */
  const FirstYear: int := 1989

  /** `ts[name]`: the values of the first `ts` field with that name, undefined when none has it. */
  function FieldValues(ts: seq<Field>, name: string): (r: Option<seq<real>>)
    ensures r.None? <==> forall f :: f in ts ==> f.name != name
    ensures r.Some? ==> exists i :: 0 <= i < |ts| && ts[i].name == name && ts[i].values == r.value
  {
    if |ts| == 0 then None
    else if ts[0].name == name then Some(ts[0].values)
    else
      var rest := FieldValues(ts[1..], name);
      assert ts == [ts[0]] + ts[1..];
      if rest.Some? then
        var i :| 0 <= i < |ts[1..]| && ts[1..][i].name == name && ts[1..][i].values == rest.value;
        assert ts[i + 1] == ts[1..][i];
        rest
      else rest
  }

  /** `a[i]`: undefined outside the array. */
  function At(a: seq<real>, i: int): (r: Option<real>)
    ensures r.Some? <==> 0 <= i < |a|
    ensures r.Some? ==> r.value == a[i]
  {
    if 0 <= i < |a| then Some(a[i]) else None
  }

  /**
   * updateMap's fill for the feature called `name`. A feature with an entry
   * in the dictionary is coloured by `colour` (the mgToCols threshold scale,
   * given as a function of a possibly undefined amount) applied to the
   * entry's first profile's amount of the drug at the year index; one
   * without gets the neutral grey. None stands for the TypeError raised when
   * that profile has no field for the drug (`undefined[curYearIx]`).
   */
  function Fill(dict: map<string, seq<Country>>, name: string, drug: string, yearIx: int,
                colour: Option<real> -> string): (r: Option<string>)
    requires forall f :: f in dict ==> |dict[f]| > 0
    ensures name !in dict ==> r == Some(NoDataFill)
    ensures name in dict ==> (r.None? <==> FieldValues(dict[name][0].ts, drug).None?)
    ensures name in dict && r.Some? ==> r.value == colour(At(FieldValues(dict[name][0].ts, drug).value, yearIx))
  {
    if name !in dict then Some(NoDataFill)
    else
      var values := FieldValues(dict[name][0].ts, drug);
      if values.None? then None else Some(colour(At(values.value, yearIx)))
  }

  /**
   * updateMap(mapElem, mapDict, curDrug, curYearIx, mgToCols): the fill of
   * every feature, in order. None when the fill of some feature throws; the
   * transition has then already taken the fills of the features before it,
   * and only the legend is left undrawn, a partial result this function
   * does not keep.
   */
  function UpdateMap(dict: map<string, seq<Country>>, features: seq<string>, drug: string, yearIx: int,
                     colour: Option<real> -> string): (r: Option<seq<string>>)
    requires forall f :: f in dict ==> |dict[f]| > 0
    ensures r.None? <==> exists i :: 0 <= i < |features| && Fill(dict, features[i], drug, yearIx, colour).None?
    ensures r.Some? ==> |r.value| == |features|
    ensures r.Some? ==> forall i :: 0 <= i < |features| ==> Some(r.value[i]) == Fill(dict, features[i], drug, yearIx, colour)
  {
    if |features| == 0 then Some([])
    else
      var first := Fill(dict, features[0], drug, yearIx, colour);
      var rest := UpdateMap(dict, features[1..], drug, yearIx, colour);
      assert forall i :: 1 <= i < |features| ==> features[i] == features[1..][i - 1];
      if first.None? then None
      else if rest.None? then
        var i :| 0 <= i < |features[1..]| && Fill(dict, features[1..][i], drug, yearIx, colour).None?;
        assert features[i + 1] == features[1..][i];
        None
      else
        Some([first.value] + rest.value)
  }

  /** The slider year's index into the data: its distance from the first year. */
  function YearIndex(year: int): (r: int)
    ensures r >= 0 <==> year >= FirstYear
    ensures r + FirstYear == year
  {
    year - FirstYear
  }

  /**
   * updateMapColors(), with the slider year, the selected drug's text, the
   * profiles and the features' names as inputs and mgToColsScale(drug)
   * given as `colour`. An empty selection makes line 215 assign to a
   * constant, which throws: None, like a fill that throws.
   */
  function UpdateMapColors(year: int, drug: string, incb: seq<Country>, features: seq<string>,
                           colour: Option<real> -> string): (r: Option<seq<string>>)
    ensures |drug| == 0 ==> r.None?
    ensures |drug| > 0 ==> r == UpdateMap(GetMapDict(incb, features), features, drug, YearIndex(year), colour)
  {
    if |drug| == 0 then None
    else UpdateMap(GetMapDict(incb, features), features, drug, YearIndex(year), colour)
  }

  /**
   * What a feature shows after updateMapColors: when a profile carries the
   * feature's name, the colour of the first such profile's amount of the
   * drug in the slider's year, counting positions from 1989 (undefined for
   * a year outside its array); otherwise the neutral grey.
   */
  lemma MapColoursShowYear(year: int, drug: string, incb: seq<Country>, features: seq<string>,
                           colour: Option<real> -> string, i: nat)
    requires |drug| > 0 && i < |features|
    requires UpdateMapColors(year, drug, incb, features, colour).Some?
    ensures var name := features[i];
            var m := GetCountryMatch(name, incb);
            var shown := UpdateMapColors(year, drug, incb, features, colour).value[i];
            && (m.countryIx == -1 ==> shown == NoDataFill)
            && (m.countryIx >= 0 ==>
                  var values := FieldValues(incb[m.countryIx].ts, drug);
                  && values.Some?
                  && shown == colour(if FirstYear <= year < FirstYear + |values.value|
                                     then Some(values.value[year - FirstYear]) else None))
  {
    var dict := GetMapDict(incb, features);
    var name := features[i];
    assert name in features;
    MapDictAgreesWithMatch(incb, features, name);
  }

  /**
   * When updateMapColors throws, in the profiles' own terms: no drug is
   * selected, or some feature's first matching profile has no field for
   * the selected drug.
   */
  lemma MapColoursFailure(year: int, drug: string, incb: seq<Country>, features: seq<string>,
                          colour: Option<real> -> string)
    ensures UpdateMapColors(year, drug, incb, features, colour).None? <==>
            || |drug| == 0
            || exists i :: 0 <= i < |features| && MissingDrug(features[i], drug, incb)
  {
    if |drug| > 0 {
      var dict := GetMapDict(incb, features);
      forall i | 0 <= i < |features|
        ensures Fill(dict, features[i], drug, YearIndex(year), colour).None? <==> MissingDrug(features[i], drug, incb)
      {
        assert features[i] in features;
        MapDictAgreesWithMatch(incb, features, features[i]);
      }
    }
  }

  /** The feature matches a profile, and the first such profile has no field for the drug. */
  predicate MissingDrug(name: string, drug: string, incb: seq<Country>) {
    var m := GetCountryMatch(name, incb);
    m.countryIx >= 0 && FieldValues(incb[m.countryIx].ts, drug).None?
  }
}
