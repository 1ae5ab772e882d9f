# OpioidAtlas data layer in Dafny

This project models the data layer of the OpioidAtlas dashboard. That layer sits between the raw drug-consumption records and the D3 drawing calls. It covers five files:

- `assets/js/data.js`: the reshaping functions.
  - `sortIndices`, `getIncbTS`, `getIncbArray`, `getIncbHistoArray` and `getMapDict`.
- `assets/js/scales.js`: the scale and bin configuration.
  - The scale constructors, the colour tables, `insertRanks` and `histoScales`.
- `assets/js/ts.js`: the time-series views.
  - `insertClass`, `insertTSClass`, `drawTSCountry`, `drawTSRegions` and `labelTS`.
- `assets/js/histo.js`: the cognostic dot histogram.
  - `drawCognostics`, `drawHistoAxis` and `drawHisto`.
- `assets/js/map.js`: the map helpers.
  - `getBounds`, `getCountryMatch`, `updateMap` and `updateMapColors`.

The model is functional. Every in-place mutation in the source becomes a function that returns the updated value:

- `sortIndices` sorting its argument;
- the `years` arrays that `getIncbTS` sorts in the caller's records;
- `insertRanks` and `insertClass` writing into their arguments;
- the `{y_id: 0}` record the time-series scales push onto the caller's array.

A JavaScript exception (a `TypeError` on `undefined`, an assignment to a `const`) is modelled as `None` of an `Option`. An undefined value read from an array or object is also `None`.

Modules follow the source files:

| file | module | models |
|---|---|---|
| `records.dfy` | `Records` | the records passed between the stages |
| `seqs.dfy` | `Seqs` | `filter`, flattening, `indexOf`, `d3.set` |
| `sorting.dfy` | `Sorting` | `sortIndices` |
| `data.dfy` | `Data` | the rest of `data.js` |
| `scales.dfy` | `Scales` | the scale constructors and colour tables |
| `ranks.dfy` | `Ranks` | `insertRanks` and `histoScales` |
| `ts.dfy` | `TimeSeries` | `ts.js` |
| `histo.dfy` | `Histo` | `histo.js` |
| `map.dfy` | `Map` | `map.js` |

Two behaviours of the code are modelled as written and stated as lemmas.

- **`getIncbTS` misaligns dates and amounts.**
  - `sortIndices` sorts a country's `years` array in place. `getIncbTS` calls it once per drug field.
  - For the first drug field it then reads the already sorted dates through the argsort. Later fields read them through the identity.
  - So on unsorted dates the first series pairs dates with the wrong amounts (`Data.ReshapeCountryPoint`, `Data.MisalignedFirstSeries`).
  - The drug arrays themselves are never reordered. Every later series, and every series of a second pass, pairs the t-th smallest date with the amount listed at position t of the input (`Data.MisalignedLaterSeries`).
  - Both views call `getIncbArray` before `getIncbTS`, so the series they draw come from such a second pass. Those series run forward in time, but on unsorted input their amounts belong to other dates (`TimeSeries.SecondPassPoint`, `TimeSeries.MisalignedDrawnSeries`). They are aligned only when the input dates were already ascending.
- **`insertRanks` stores the argsort, not each dot's rank.** See `Ranks.RanksInBin` and `Ranks.RankIsArgsortExample`.

Dates (`x_id`) are `real` values, which is what a JavaScript `Date` compares by. The `years` entries the source sorts are ISO date text, whose order the model takes to be the order in time (see "## Left out"). The amounts, histogram values and map boxes are `real` as well.

Parts of D3 are taken as given:

- Scales are modelled as configuration records (kind, domain, range). Applying a scale is a function parameter.
- `d3.extent` is `Scales.Extent`. It skips undefined values, and its result is `None` when every value is undefined.
- `parseFloat` of a bin label is a parameter `parse: string -> Option<real>`, where `None` stands for `NaN`.
- `mgToCols` applied to an amount is a parameter `colour: Option<real> -> string`.

The topojson features enter as their names (`getMapDict`, `updateMap`) or as their projected boxes (`getBounds`).

## Model

| member | source | states |
|---|---|---|
| Seqs.IndexOf | assets/js/map.js:87 | `indexOf`: -1 exactly when the value is absent; otherwise the first position holding it |
| Seqs.Dedup | assets/js/scales.js:191 | `d3.set(bins).values()`: the same members as the input, each once |
| Seqs.Filter | assets/js/ts.js:65 | `Array.prototype.filter`: an element is kept exactly when it is in the input and satisfies the predicate; the result is no longer than the input |
| Seqs.FilterIsSubseq | assets/js/histo.js:77 | filtering keeps the surviving elements in input order |
| Sorting.ArgSort | assets/js/data.js:63-68 | the comparator sort of (value, index) pairs yields every index below n exactly once, ordered by value |
| Sorting.SortIndices | assets/js/data.js:62-75 | `sortIndices` returns a permutation p of 0..n-1 and leaves its argument holding `toSort[p[t]]` at t, in ascending order |
| Sorting.SortIndicesOfAscending | assets/js/data.js:62-75 | on ascending input the permutation is the identity and the contents are unchanged (the tie order is the model's stable one) |
| Sorting.SortIndicesSettles | assets/js/data.js:70-73 | a second `sortIndices` on an array the first one sorted returns the identity and changes nothing |
| Sorting.SortingPermutationOfStrictIsIdentity | assets/js/data.js:66-68 | on strictly ascending values, any permutation that lists them in order is the identity, so the engine's tie order cannot matter |
| Sorting.SortIndicesExample | assets/js/data.js:62-75 | dates [2001, 2000, 2002] give indices [1, 0, 2] and leave [2000, 2001, 2002] behind |
| Data.DrugFieldsAreNonYears | assets/js/data.js:36-38 | the series are built from exactly the fields not called "years", in key order |
| Data.YearsIndex | assets/js/data.js:39 | `ts["years"]` is the first field called "years"; undefined exactly when no field has that name |
| Data.SeriesPointsReadsTwice | assets/js/data.js:39-43 | with p the argsort of the dates, point t takes the amount at input position p[t] but the date at input position p[p[t]] |
| Data.FieldSeries | assets/js/data.js:37-52 | one series per non-"years" field, each as long as the dates; the dates come back with their length unchanged |
| Data.FieldSeriesYears | assets/js/data.js:37-39 | after the field loop the dates are sorted when at least one drug field exists, and untouched otherwise |
| Data.ReshapeCountry | assets/js/data.js:36-52 | a country yields as many series as it has drug fields, each as long as its drug array and its dates |
| Data.ReshapeCountryPoint | assets/js/data.js:39-48 | point t of drug field m carries the drug name and the static block's country, iso3 and json_country. For m = 0 it pairs `sorted[p[t]]` with `drug[p[t]]`; for later fields it pairs `sorted[t]` with `drug[t]` |
| Data.ReshapedCountryYears | assets/js/data.js:39 | `getIncbTS` leaves the country with the same static block and drug fields, and its dates sorted when it has a drug field |
| Data.ReshapeCountrySettles | assets/js/data.js:39 | after one `getIncbTS` a country is settled (its dates are sorted); on a settled country `getIncbTS` changes nothing |
| Data.SettledCountryPoint | assets/js/data.js:39-43 | on a settled country, point t of every series pairs date t with amount t |
| Data.AlignedWhenStrictlyAscending | assets/js/data.js:39-43 | dates already strictly ascending give aligned pairs for every field, whatever the tie order |
| Data.MisalignedFirstSeries | assets/js/data.js:39-43 | dates [2001, 2000, 2002] with morphine [5, 3, 9] give (2001, 3), (2000, 5), (2002, 9) |
| Data.MisalignedLaterSeries | assets/js/data.js:37-43 | in the same country the dates stay sorted, and the second drug field reads (2000, 1), (2001, 2), (2002, 4) while the input pairs 2000 with codeine 2: its amounts were never reordered |
| Data.SeriesDatesDistinct | assets/js/data.js:39-43 | on a country whose dates are not repeated, the points of each of its series carry distinct dates |
| Data.IncbTS | assets/js/data.js:32-55 | `getIncbTS` returns the series and the countries as it leaves them, one per input country |
| Data.IncbTSSeriesAt | assets/js/data.js:35-52 | the series are laid out in country order, then field order: drug field m of country i sits at the offset of the series of countries before i, plus m |
| Data.IncbTSCount | assets/js/data.js:35-52 | the number of series is the total number of drug fields, so a country with only "years" contributes none |
| Data.IncbTSSeriesOrigin | assets/js/data.js:50 | every series is some country's series for some drug field |
| Data.IncbTSSettles | assets/js/data.js:32-55 | every country `getIncbTS` leaves behind is settled, and settled input is left unchanged |
| Data.SettledSeriesAscend | assets/js/data.js:39-43 | every series of settled countries runs forward in time |
| Data.IncbTSSeriesUniform | assets/js/data.js:44-48 | all points of a series share one drug and one static block; `appear_id` and `json_country` come from that block |
| Data.IncbArray | assets/js/data.js:89-90 | `getIncbArray` leaves the countries as its `getIncbTS` call does |
| Data.FlatRecordsRowMajor | assets/js/data.js:92-101 | record j of series i sits at the offset of the series before i, plus j |
| Data.IncbArrayIsFlattening | assets/js/data.js:89-104 | `getIncbArray` is the row-major concatenation of the series of `getIncbTS` (`supp` equals the first point's) |
| Data.IncbHistoArray | assets/js/data.js:116-133 | the output length is the sum of the inner lengths |
| Data.IncbHistoArrayRowMajor | assets/js/data.js:118-130 | element j of row i is at the offset of the rows before i, plus j |
| Data.IncbHistoArrayOrigin | assets/js/data.js:116-133 | every output element is the renaming of some input element |
| Data.Matches | assets/js/data.js:14 | the profiles whose `static.json_country` is the name, in input order |
| Data.GetMapDict | assets/js/data.js:10-20 | a feature name has an entry exactly when some profile's `json_country` equals it; the entry is all matching profiles in input order, never empty |
| Scales.Extent | assets/js/scales.js:89-92 | `d3.extent`: `None` exactly when no value is defined; otherwise lo ≤ hi, every defined value lies in [lo, hi], and both ends are attained |
| Scales.LinearScale | assets/js/scales.js:88-94 | a linear scale whose domain is exactly the extent of `data[id]`: defined exactly when some value is, containing every defined value, with both ends attained; range [size − p0, p1] |
| Scales.PowScale | assets/js/scales.js:96-103 | a pow scale of exponent 1/3 whose domain is exactly the extent (defined exactly when some value is, containing every value, both ends attained); range [size − p0, p1] |
| Scales.TimeScale | assets/js/scales.js:119-125 | a time scale whose domain is exactly the extent (defined exactly when some value is, containing every value, both ends attained); range [p0, size − p1] |
| Scales.ScatterScales | assets/js/scales.js:141-147 | y is the linear y scale with paddings 2 and 3; x has the linear x domain |
| Scales.ScatterXReversed | assets/js/scales.js:143-144 | the scatter x range is the linear x range reversed: [p1, width − p0] |
| Scales.TSScales | assets/js/scales.js:163-169 | the x scale is taken from the data as given; the data come back with the `{y_id: 0}` record appended; y is linear with range [height − p2, p3] |
| Scales.TSScalesPow | assets/js/scales.js:171-177 | the same, with a cube-root y scale |
| Scales.TSYDomainHasZero | assets/js/scales.js:166-167 | after the push, the y domain of both constructors exists and contains 0, even for empty data, and every defined y value of the data |
| Scales.SentinelHasNoX | assets/js/scales.js:165-166 | the pushed record has no `x_id`, so the x extent is the same whether taken before or after the push |
| Scales.MgBreakpoints | assets/js/scales.js:14-17 | 10 strictly increasing breakpoints from 0 to 1000 |
| Scales.DrugPalette | assets/js/scales.js:19-42 | each of the seven named drugs gets 11 colours, any other drug none |
| Scales.KnownDrugs | assets/js/scales.js:60-62 | the default drug domain lists seven distinct drugs |
| Scales.DefaultDrugColours | assets/js/scales.js:65-67 | seven default colours, one per default drug |
| Scales.MgToColsScale | assets/js/scales.js:12-47 | given breakpoints are kept; the defaults are 10 ascending breakpoints. A named drug always gets its 11-colour palette, one colour per interval of the default breakpoints; an unknown drug gets an empty range |
| Scales.DrugsScale | assets/js/scales.js:58-72 | an undefined drug list falls back to the seven default drugs and undefined colours to the seven default colours; both undefined give 7 distinct drugs paired with 7 colours |
| Scales.DefaultColourFromPalette | assets/js/scales.js:20-67 | a drug's default colour is colour 5 of its own palette ("total": colour 4) |
| Scales.DrugsScaleColour | assets/js/scales.js:19-72 | `drugsScale()` pairs default drug i with colour 5 of its own `mgToColsScale` palette (colour 4 for "total") |
| Ranks.BinIndices | assets/js/scales.js:192-194 | `curBinIx`: exactly the positions whose `bin_id` is the bin, ascending |
| Ranks.RankOf | assets/js/scales.js:196-198 | the rank a dot receives is below the number of dots in its bin |
| Ranks.Ranked | assets/js/scales.js:190-202 | same length, only `rank_id` changes, and dots of bins not listed keep their rank |
| Ranks.InsertRanks | assets/js/scales.js:190-202 | the two loops of `insertRanks` compute `Ranked`: every bin's dots get their bin's argsort |
| Ranks.RanksInBin | assets/js/scales.js:194-199 | in a listed bin the ranks, read in input order, are the argsort of the bin's values, a permutation of 0..k−1 |
| Ranks.BinArgsortSorts | assets/js/scales.js:196 | reading a bin's dots in argsort order lists their values in ascending order |
| Ranks.RankIsLocalToBin | assets/js/scales.js:193-195 | a dot's rank depends only on which dots share its bin and their values |
| Ranks.RankTwoExample | assets/js/scales.js:196-198 | values 7 then 3 in one bin receive ranks 1 then 0 |
| Ranks.RankIsArgsortExample | assets/js/scales.js:196-198 | values 5, 9, 1 receive 2, 0, 1 (the argsort) and not their ranks 1, 2, 0 |
| Ranks.RanksBelowCount | assets/js/scales.js:196-198 | every rank written lies in 0..n−1 |
| Ranks.RankZeroAttained | assets/js/scales.js:221-223 | ranking a non-empty array by its own bins gives some dot rank 0 |
| Ranks.JsSlice | assets/js/scales.js:227 | `String.prototype.slice`: for ends inside the text it is the plain substring; an end past the text stops at its end; a negative end counts from the back; empty when the end does not lie after the start; never longer than the text |
| Ranks.LowerText | assets/js/scales.js:226-227 | the text between the first character and the first comma; with no comma, everything but the first and last characters |
| Ranks.LowerEndpoints | assets/js/scales.js:224-228 | the parsed lower endpoint of every engaged bin is listed, and every entry is the parsed lower endpoint of some engaged bin |
| Ranks.FilterBinDomain | assets/js/scales.js:231-235 | an order-preserving subsequence of `binDomain` keeping exactly the labels whose parsed lower endpoint lies within [min, max] of the engaged bins' endpoints |
| Ranks.EngagedBinsKept | assets/js/scales.js:224-235 | a label of an engaged bin that parses is always kept |
| Ranks.HistoScalesBinDomain | assets/js/scales.js:221-240 | the bin scale's domain lists no label twice (an ordinal domain keeps the first copy), is an order-preserving subsequence of `binDomain`, and holds the bin of every dot whose label is listed and parses |
| Ranks.RankDomainFromZero | assets/js/scales.js:241-243 | the rank domain is undefined exactly for no dots; otherwise it starts at 0 and ends below the number of dots |
| TimeSeries.InsertClassKeepsPoints | assets/js/ts.js:22-32 | labelling changes nothing but the label |
| TimeSeries.InsertTSClassKeepsSeries | assets/js/ts.js:34-47 | labelling series changes nothing but the labels |
| TimeSeries.UndefinedDrugClasses | assets/js/ts.js:122-123 | with no drug, every point is "selected" and every series point "ts unselected" |
| TimeSeries.ClassesAgreeForADrug | assets/js/ts.js:25-43 | for a given drug the two labellings select the same points |
| TimeSeries.CountryKeyIdentifies | assets/js/ts.js:70 | when the texts of the two dates hold no "_" and differ for different dates, two points share the key `x_id + "_" + col_id` exactly when they share date and drug |
| TimeSeries.RegionKeyIdentifies | assets/js/ts.js:125 | under the same condition on the two dates and with no "_" in drug names, two points share the key `x_id + "_" + col_id + "_" + appear_id` exactly when they share date, drug and country |
| TimeSeries.RegionKeyCollision | assets/js/ts.js:125 | drug "a_b" in country "c" and drug "a" in country "b_c" share a regions-view key on the same date |
| TimeSeries.CountryKeySuffices | assets/js/ts.js:70 | within one country (one `appear_id`) the key `x_id_col_id` tells two points apart exactly when `x_id_col_id_appear_id` does, whatever the names hold |
| TimeSeries.SeriesKeysDistinct | assets/js/ts.js:70-71 | on a country whose dates are not repeated, the points of a series of the first `getIncbTS` pass have distinct keys in both views, when the texts of the country's dates hold no "_" and tell them apart |
| TimeSeries.SeriesKeysSeparate | assets/js/ts.js:125-126 | when drug names and the two dates' texts hold no "_", points of two series that differ in drug or country never share a regions-view key |
| TimeSeries.SeriesDateListed | assets/js/data.js:39-42 | every date a series shows is one of its country's dates |
| TimeSeries.ExampleKeysDistinct | assets/js/ts.js:70 | with the years written as "2000", "2001", "2002", the three morphine points of the example country get three different keys |
| TimeSeries.KeyCount | assets/js/ts.js:139 | only the `{y_id: 0}` record has at most one field |
| TimeSeries.SentinelFilteredOut | assets/js/ts.js:129-139 | filtering on more than one field removes the pushed record and keeps every real record |
| TimeSeries.DataOfRows | assets/js/ts.js:129-139 | the array handed to `getTSScalesPow` gives back exactly the labelled points, in order |
| TimeSeries.SecondPass | assets/js/ts.js:65-66 | the views' `getIncbTS` runs on the countries their `getIncbArray` call already sorted, so every country is settled |
| TimeSeries.SecondPassAscends | assets/js/ts.js:65-66 | every series the views draw runs forward in time |
| TimeSeries.SecondPassPoint | assets/js/ts.js:65-66 | in the series the views draw, point t of drug field m of country i pairs the t-th smallest input date with the input amount at position t |
| TimeSeries.ResettledPoint | assets/js/data.js:39-43 | for one country run through `getIncbTS` twice: date t is the t-th smallest input date, amount t the input's amount t |
| TimeSeries.MisalignedDrawnSeries | assets/js/ts.js:65-66 | for dates [2001, 2000, 2002], morphine [5, 3, 9] and codeine [1, 2, 4], the views draw (2000, 5), (2001, 3), (2002, 9) and (2000, 1), (2001, 2), (2002, 4) |
| TimeSeries.SecondPassEmptySeries | assets/js/ts.js:63-66 | the drawn series include an empty one exactly when some input country has a drug field but an empty "years" array |
| TimeSeries.CountryViewPoints | assets/js/ts.js:62-67 | the country view keeps exactly the points of that country, labelled by the drug |
| TimeSeries.CountryViewSeries | assets/js/ts.js:63-68 | it keeps exactly the non-empty series whose first point is that country's, labelled "ts selected" exactly for the drug |
| TimeSeries.CountryViewDomains | assets/js/ts.js:64-76 | its y domain contains 0 and every drawn point of the drug; the x domain is undefined exactly when no drawn point has the drug (the pushed record never reaches the drawn array) |
| TimeSeries.YDomainOfDrawn | assets/js/ts.js:76 | the y domain taken from a drawn array contains 0 and all its amounts |
| TimeSeries.XDomainOfDrawn | assets/js/ts.js:76 | the x domain taken from a drawn array is undefined exactly when the array is empty |
| TimeSeries.TSCountry | assets/js/ts.js:61-80 | `drawTSCountry` throws exactly when some input country has a drug field but no dates (its series is empty, so `d[0]` is undefined); otherwise it draws the country view of the second pass |
| TimeSeries.RegionSeries | assets/js/ts.js:116-123 | every series the regions view keeps is non-empty |
| TimeSeries.RegionsViewPoints | assets/js/ts.js:113-139 | after the pushed record is filtered out, the regions view draws exactly the points of its regions and drugs, all "selected" |
| TimeSeries.RegionsViewSeries | assets/js/ts.js:116-123 | it draws exactly the non-empty series whose first point is in its regions and drugs, all "ts unselected" |
| TimeSeries.RegionSeriesContents | assets/js/ts.js:116-123 | the same statement about the series filter alone |
| TimeSeries.RegionLabelsAtSeriesEnds | assets/js/ts.js:142-174 | label i sits on the last point of series i, reads its iso3 and has id "label_" + col_id + "_" + appear_id of that point |
| TimeSeries.TSRegions | assets/js/ts.js:112-143 | `drawTSRegions` throws exactly when some input country has a drug field but no dates; otherwise it draws the regions view of the second pass |
| TimeSeries.RegionLabelsAtLatest | assets/js/ts.js:161 | on series that run forward in time, each label marks the latest date of its series |
| TimeSeries.RegionLabelsAtLatestDate | assets/js/ts.js:120-161 | in `drawTSRegions` itself each label marks the latest date of its series |
| Histo.CognosticDots | assets/js/histo.js:73-77 | an order-preserving subsequence of `getIncbHistoArray`'s output, keeping exactly the dots of the cognostic whose drug and region are selected |
| Histo.Cognostics | assets/js/histo.js:71-82 | throws exactly when the cognostic has no levels entry; otherwise the ticks are taken from the bin scale's domain, the filtered levels without repeated labels |
| Histo.CognosticsDraws | assets/js/histo.js:77-83 | the drawn dots are the selected dots in order, with only `rank_id` rewritten |
| Histo.CognosticsBinsListed | assets/js/histo.js:80-82 | the bin axis lists an order-preserving subsequence of the cognostic's levels with no label twice, and the ticks are a subsequence of the levels too |
| Histo.TickIndices | assets/js/histo.js:87-91 | index i of n bins is kept exactly when i < n and either floor(n/6) = 0 or i is a multiple of floor(n/6); the kept indices ascend |
| Histo.TickValues | assets/js/histo.js:89-91 | tick k is the label at the k-th kept index; the ticks are an order-preserving subsequence of the bin domain, starting with its first label when it has one |
| Histo.FirstTickAtZero | assets/js/histo.js:87-89 | the first bin always gets a tick |
| Histo.TickValuesFromDomain | assets/js/histo.js:89-91 | every tick is a label of the bin domain |
| Histo.AllTicksWhenFewBins | assets/js/histo.js:87-91 | with fewer than six bins `i % 0` is NaN, `!NaN` is true, and every bin gets a tick |
| Histo.TicksAtMultiples | assets/js/histo.js:87-91 | with six bins or more, positions 0, s, 2s, 3s, 4s and 5s get ticks (s = floor(n/6) ≥ 1), and only multiples of s do |
| Histo.HistoKeyIdentifies | assets/js/histo.js:79 | when drug names hold no "_", two dots share the key `col_id_group_id` exactly when they share drug and country |
| Histo.HistoKeyCollision | assets/js/histo.js:79 | with an "_" in a drug name, two different dots can share a key |
| Histo.UpdatedDotsApart | assets/js/histo.js:43-49 | after the update two dots of one bin share a row but never a place on it, given a rank scale that maps distinct ranks apart |
| Histo.EnterThenUpdate | assets/js/histo.js:28-49 | an entering dot moves only sideways to its place, and not at all when its rank is 0 |
| Map.GetBounds | assets/js/map.js:3-21 | left = min(0, every x0), right = max(0, every x1), bottom = min(0, every y0), top = max(0, every y1); each bound is 0 or attained by a box |
| Map.BoundsContainOrigin | assets/js/map.js:4-20 | left ≤ 0 ≤ right and bottom ≤ 0 ≤ top; with no features all four bounds are 0 |
| Map.BoundsContainBoxes | assets/js/map.js:5-19 | every feature's box lies within the bounds |
| Map.GetCountryMatch | assets/js/map.js:84-90 | the index is -1 exactly when no profile's `json_country` is the name; otherwise it is the first such profile, and the country is that profile's `static.country` (undefined for -1) |
| Map.MapDictAgreesWithMatch | assets/js/map.js:84-90 | a feature has a `getMapDict` entry exactly when `getCountryMatch` finds it, and the entry's first profile is the one found |
| Map.FieldValues | assets/js/map.js:134 | `ts[drug]` is undefined exactly when no field has that name |
| Map.UpdateMap | assets/js/map.js:127-138 | every feature's fill, in order: "#D3D3D3" without a dictionary entry, otherwise the colour of the first profile's amount at the year index; the update throws exactly when such a profile lacks the drug |
| Map.MapColoursShowYear | assets/js/map.js:210-218 | a feature matched by `getCountryMatch` shows the colour of its profile's amount at position year − 1989 (undefined outside the array); an unmatched feature shows "#D3D3D3" |
| Map.MapColoursFailure | assets/js/map.js:210-218 | `updateMapColors` throws exactly when no drug is selected or some feature's first matching profile has no field for the drug |

## Left out

- D3 rendering is not modelled. That covers the keyed data join (enter/update/exit), circles, lines, transitions, axes, legends and titles; only the data, keys and positions handed to D3 are modelled.
- Scale evaluation is left abstract. Threshold bisection, linear/pow/time interpolation and ordinal `rangePoints` are D3's. A scale is a record of its kind, domain and range, and an applied scale is a function parameter.
- `parseFloat`, `d3.time.format` parsing and the `Date` type are left abstract. Dates are `real` time values. `parseFloat` of a bin label is a parameter.
- Sorting.SortIndices on dates: `sortIndices` (assets/js/data.js:39, 66-68) compares the raw "%Y-%m-%d" text of `years` with `<`, and `format.parse` runs only afterwards (assets/js/data.js:42). The model sorts the time values instead. This relies on zero-padded ISO dates ordering as text exactly as they order in time.
- `getAppropriateProj` (assets/js/map.js:23-40) is not modelled: it is floating-point projection arithmetic. `setupMap`, topojson decoding and `path.bounds` are foreign too. `getBounds` takes the boxes as input.
- DOM, jQuery and wiring are not modelled. That covers `mapHoverFun`, the slider and drop-down reads in `updateMapColors`, `initializeTSElem`, `tsLegend` and the y-axis label code.
- Floating-point NaN comparisons are not modelled. A box coordinate or amount is a `real`, never NaN.
- Sorting.SortIndices: equal keys keep input order. The source's comparator never returns 0, so the engine decides the tie order. The contract states only what every engine gives: a sorting permutation.
- TimeSeries.CountryKey: the text of a `Date` is a parameter `dateText`. The key lemmas ask, for the dates they speak of only, that the text holds no "_" and that different dates read differently. `Date.prototype.toString` of whole-day dates meets both.
- TimeSeries.RegionKey: the same condition on `dateText`. Beyond it, the key is unique only when drug names hold no "_" (`TimeSeries.RegionKeyCollision`).
- Data.WellFormed is a precondition, not specified error behaviour. It requires a "years" field and drug arrays as long as it. The source reads past a shorter `years` array without checking.
- Scales.Extent does not model an extent of mixed types: every defined value is a number.
- Map.UpdateMap: a fill that throws stops the `.attr` call part-way. The features before it have already taken their new fill and the legend is skipped. The model gives `None` and does not keep that partial recolouring.
- Map.Fill: the colour of an undefined amount is whatever the `colour` parameter gives. `mgToCols(undefined)` is D3's business.
- Map.UpdateMapColors: the "morphine" fallback at assets/js/map.js:215 never takes effect, because the assignment to a `const` throws. It is modelled as that throw.
