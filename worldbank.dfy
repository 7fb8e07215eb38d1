/**
 * The World Bank step of the country-profile builder: the latest value of
 * an indicator series, and the per-country ratings table built from four
 * indicators.
 */
module WorldBank {
  import opened Common
  import opened Json
  import opened Tables
  import opened Ratings
  import Countries

  /** The indicator codes. */
  const SECURITY: string := "PV.PER.RNK"
  const BUSINESS: string := "GE.PER.RNK"
  const EXPAT: string := "RL.PER.RNK"
  const HEALTH: string := "SP.DYN.LE00.IN"

  /** `row && row.value !== null && row.value !== undefined`. */
  predicate HasValue(row: Json)
  {
    Truthy(row) && Get(row, "value").Some? && Get(row, "value").value != JNull
  }

  /** The `value` of the first row that has one (`series.find(...)`), if any. */
  function FirstValue(rows: seq<Json>): (r: Option<Json>)
    ensures r.Some? <==> exists i :: 0 <= i < |rows| && HasValue(rows[i])
    ensures r.Some? ==> r.value != JNull
    ensures r.Some? ==>
      exists i :: 0 <= i < |rows| && HasValue(rows[i]) && Get(rows[i], "value") == r &&
        forall j :: 0 <= j < i ==> !HasValue(rows[j])
  {
    if rows == [] then None
    else if HasValue(rows[0]) then Get(rows[0], "value")
    else
      var r := FirstValue(rows[1..]);
      assert forall i :: 1 <= i < |rows| ==> rows[i] == rows[1..][i - 1];
      if r.Some? then
        var i :| 0 <= i < |rows[1..]| && HasValue(rows[1..][i]) && Get(rows[1..][i], "value") == r &&
          forall j :: 0 <= j < i ==> !HasValue(rows[1..][j]);
        assert HasValue(rows[i + 1]) && Get(rows[i + 1], "value") == r;
        r
      else r
  }

  /**
   * `fetchWorldBankIndicator` after the fetch: the series is the second
   * element of the response array; anything else has no value. A value is
   * found exactly when that series has a row with a value, and is never `null`.
   */
  function SeriesValue(data: Json): (r: Option<Json>)
    ensures r.Some? <==>
      (data.JArr? && |data.items| > 1 && data.items[1].JArr? &&
       exists i :: 0 <= i < |data.items[1].items| && HasValue(data.items[1].items[i]))
    ensures r.Some? ==> r.value != JNull
    ensures data.JArr? && |data.items| > 1 && data.items[1].JArr? ==> r == FirstValue(data.items[1].items)
  {
    if data.JArr? && |data.items| > 1 && data.items[1].JArr? then FirstValue(data.items[1].items)
    else None
  }

  /** The raw indicator values kept in a profile's provenance. */
  datatype Raw = Raw(security: Option<Json>, business: Option<Json>, expat: Option<Json>, health: Option<Json>)

  /** One entry of `fetchWorldBankRatings`' result. */
  datatype Record = Record(ratings: CountryRatings, raw: Raw)

  /** The numeric value the rating arithmetic sees (a value that is not a number is taken as absent). */
  function Numeric(v: Option<Json>, number: string -> Option<real>): Option<real>
  {
    if v.Some? then ToNumber(v.value, number) else None
  }

  /** The indicator value for one country, or the fetch failure; `fetch(iso2, code)` is the HTTP outcome. */
  function Indicator(fetch: (string, string) -> Result<Json>, iso2: string, code: string): Result<Option<Json>>
  {
    match fetch(iso2, code)
    case Err(e) => Err(e)
    case Ok(data) => Ok(SeriesValue(data))
  }

  /**
   * One country's four indicator fetches and its ratings: it fails exactly
   * when one of the four fetches does, with the error of one of them, and
   * otherwise keeps the four series values as its raw values.
   */
  function CountryRecord(fetch: (string, string) -> Result<Json>, number: string -> Option<real>, c: Countries.Country)
    : (r: Result<Record>)
    ensures r.Err? <==>
      fetch(c.iso2, SECURITY).Err? || fetch(c.iso2, BUSINESS).Err? || fetch(c.iso2, EXPAT).Err? || fetch(c.iso2, HEALTH).Err?
    ensures r.Err? ==> Err(r.error) in [fetch(c.iso2, SECURITY), fetch(c.iso2, BUSINESS), fetch(c.iso2, EXPAT), fetch(c.iso2, HEALTH)]
    ensures r.Ok? ==> r.value.raw == Raw(SeriesValue(fetch(c.iso2, SECURITY).value), SeriesValue(fetch(c.iso2, BUSINESS).value),
                                         SeriesValue(fetch(c.iso2, EXPAT).value), SeriesValue(fetch(c.iso2, HEALTH).value))
  {
    var s := Indicator(fetch, c.iso2, SECURITY);
    var b := Indicator(fetch, c.iso2, BUSINESS);
    var e := Indicator(fetch, c.iso2, EXPAT);
    var h := Indicator(fetch, c.iso2, HEALTH);
    if s.Err? then Err(s.error)
    else if b.Err? then Err(b.error)
    else if e.Err? then Err(e.error)
    else if h.Err? then Err(h.error)
    else
      var raw := Raw(s.value, b.value, e.value, h.value);
      Ok(Record(Combine(Numeric(raw.security, number), Numeric(raw.business, number),
                        Numeric(raw.expat, number), Numeric(raw.health, number)), raw))
  }

  function RecordFetch(fetch: (string, string) -> Result<Json>, number: string -> Option<real>): Countries.Country -> Result<Record>
  {
    c => CountryRecord(fetch, number, c)
  }

  function Iso(c: Countries.Country): string { c.iso2 }

  /**
   * `fetchWorldBankRatings` over `list`: the table keyed by code, or the
   * failure of the first failing country in list order; one indicator
   * fetch failing anywhere fails the whole table.
   */
  function RatingsTable(fetch: (string, string) -> Result<Json>, number: string -> Option<real>,
                        list: seq<Countries.Country>): (r: Result<map<string, Record>>)
    ensures r.Err? <==> exists i :: 0 <= i < |list| && CountryRecord(fetch, number, list[i]).Err?
    ensures r.Err? ==> exists i :: (0 <= i < |list| && CountryRecord(fetch, number, list[i]) == Err(r.error) &&
      forall j :: 0 <= j < i ==> CountryRecord(fetch, number, list[j]).Ok?)
  {
    CollectAllFails(list, Iso, RecordFetch(fetch, number));
    CollectAll(list, Iso, RecordFetch(fetch, number))
  }

  /**
   * Over a list with distinct codes, a successful table has exactly the
   * listed codes as keys, each bound to its own country's record.
   */
  lemma RatingsTableSpec(fetch: (string, string) -> Result<Json>, number: string -> Option<real>,
                         list: seq<Countries.Country>)
    requires forall i, j :: 0 <= i < j < |list| ==> list[i].iso2 != list[j].iso2
    requires RatingsTable(fetch, number, list).Ok?
    ensures var t := RatingsTable(fetch, number, list).value;
      && (forall k :: k in t <==> exists i :: 0 <= i < |list| && list[i].iso2 == k)
      && (forall i :: 0 <= i < |list| ==> list[i].iso2 in t && t[list[i].iso2] == CountryRecord(fetch, number, list[i]).value)
  {
    CollectAllSpec(list, Iso, RecordFetch(fetch, number));
  }

  /**
   * A successful record's ratings are the rating arithmetic applied to
   * the raw values it keeps, each indicator to its own rating: security,
   * business and expat from their percentile ranks, health from life
   * expectancy, each falling back to `overall` when its value is absent.
   */
  lemma CountryRecordRatings(fetch: (string, string) -> Result<Json>, number: string -> Option<real>, c: Countries.Country)
    requires CountryRecord(fetch, number, c).Ok?
    ensures var r := CountryRecord(fetch, number, c).value;
      var s, b, e, h := Numeric(r.raw.security, number), Numeric(r.raw.business, number),
                        Numeric(r.raw.expat, number), Numeric(r.raw.health, number);
      && r.ratings == Combine(s, b, e, h)
      && r.ratings.security == (if s.Some? then FromPercentile(s) else r.ratings.overall)
      && r.ratings.business == (if b.Some? then FromPercentile(b) else r.ratings.overall)
      && r.ratings.expat == (if e.Some? then FromPercentile(e) else r.ratings.overall)
      && r.ratings.health == (if h.Some? then FromLifeExpectancy(h) else r.ratings.overall)
      && (r.ratings.overall.None? <==> s.None? && b.None? && e.None? && h.None?)
  {
    var r := CountryRecord(fetch, number, c).value;
    CombineSpec(Numeric(r.raw.security, number), Numeric(r.raw.business, number),
                Numeric(r.raw.expat, number), Numeric(r.raw.health, number));
  }

  /** The per-country `async entry => { ... }` body: four fetches, then the ratings. */
  method FetchCountry(fetch: (string, string) -> Result<Json>, number: string -> Option<real>, c: Countries.Country)
    returns (r: Result<Record>)
    ensures r == CountryRecord(fetch, number, c)
  {
    var s := Indicator(fetch, c.iso2, SECURITY);
    var b := Indicator(fetch, c.iso2, BUSINESS);
    var e := Indicator(fetch, c.iso2, EXPAT);
    var h := Indicator(fetch, c.iso2, HEALTH);
    if s.Err? { return Err(s.error); }
    if b.Err? { return Err(b.error); }
    if e.Err? { return Err(e.error); }
    if h.Err? { return Err(h.error); }
    var ratings := Combine(Numeric(s.value, number), Numeric(b.value, number), Numeric(e.value, number),
                           Numeric(h.value, number));
    r := Ok(Record(ratings, Raw(s.value, b.value, e.value, h.value)));
  }

  /** The `COUNTRY_LIST.map(async entry => ...)` fan-out, one country after another. */
  method FetchWorldBankRatings(fetch: (string, string) -> Result<Json>, number: string -> Option<real>,
                               list: seq<Countries.Country>) returns (r: Result<map<string, Record>>)
    ensures r == RatingsTable(fetch, number, list)
  {
    var results: map<string, Record> := map[];
    ghost var f := RecordFetch(fetch, number);
    for i := 0 to |list|
      invariant results == Tabulate(list[..i], KeyedEntry(Iso, f))
      invariant forall j :: 0 <= j < i ==> f(list[j]).Ok?
    {
      var entry := list[i];
      CollectAllStep(list, Iso, f, i);
      var record := FetchCountry(fetch, number, entry);
      assert record == f(entry);
      if record.Err? {
        return Err(record.error);
      }
      results := results[entry.iso2 := record.value];
      assert forall j :: 0 <= j < i + 1 ==> f(list[j]).Ok? by {
        forall j | 0 <= j < i + 1 ensures f(list[j]).Ok? {
          if j == i {
            assert list[j] == entry;
          }
        }
      }
    }
    Common.SliceAll(list);
    CollectAllOk(list, Iso, f);
    r := Ok(results);
  }
}
