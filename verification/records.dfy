/**
 * The records the dashboard's data layer passes between its stages: the
 * per-country input profiles, the per-datum points derived from them, the
 * cognostic histogram rows, and the rows handed to the scale constructors.
 *
 * A date (`x_id`) is modelled by its position on the time line, a `real`, which
 * is what a JavaScript Date compares by; ISO date strings compare the same way.
 */
module Records {

  datatype Option<T> = None | Some(value: T)

  /** The name of the `ts` field that holds a country's dates. */
  const Years: string := "years"

  /** A country's static block: the attributes the data layer reads from it. */
  datatype Static = Static(country: string, iso3: string, jsonCountry: string)

  /** One field of a country's `ts` block: its dates under "years", or one drug's amounts. */
  datatype Field = Field(name: string, values: seq<real>)

  /** One country profile: its static block (`static`) and its `ts` fields in key order. */
  datatype Country = Country(profile: Static, ts: seq<Field>)

  /**
   * One point of a time series: `x_id` (date), `y_id` (amount), `col_id` (drug),
   * `appear_id` (country), `iso3`, `json_country`, and `supp` (the static block).
   */
  datatype Point = Point(x: real, y: real, col: string, appear: string,
                         iso3: string, jsonCountry: string, supp: Static)

  /** A point after a `class` label has been written into it. */
  datatype Classed = Classed(point: Point, cls: string)

  /**
   * An element of the array a time-series scale is computed from: a labelled
   * point, or the `{y_id: 0}` record that the scale constructors push.
   */
  datatype Row = Datum(item: Classed) | YOnly(y: real)

  /** A raw cognostic row, with the input's own field names. */
  datatype HistoRow = HistoRow(q: string, rank: int, drug: string, value: real,
                               l1: string, subregion: string, region: string,
                               country: string, jsonCountry: string)

  /**
   * A histogram dot: `bin_id`, `rank_id`, `col_id`, `value`, `cog`,
   * `subregion`, `region`, `group_id` and `json_country`.
   */
  datatype HistoPoint = HistoPoint(bin: string, rank: int, col: string, value: real,
                                   cog: string, subregion: string, region: string,
                                   group: string, jsonCountry: string)
}
