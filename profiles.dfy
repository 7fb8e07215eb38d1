/**
 * `buildCountryProfiles`: the outer join of the three source tables over
 * the closed country list, one profile per country keyed by its name.
 */
module Profiles {
  import opened Common
  import opened Json
  import opened Tables
  import opened Ratings
  import opened Countries
  import Wikidata
  import WorldBank
  import Rsf

  /** `sources.wikidata`: which of the three facts are known. */
  datatype FactFlags = FactFlags(headOfState: bool, rulingParty: bool, nextElection: bool)

  /** `sources`: the World Bank raw values (`None` is the empty object), the fact flags and the RSF pair. */
  datatype Provenance = Provenance(worldBank: Option<WorldBank.Raw>, wikidata: FactFlags, rsf: Rsf.RsfRecord)

  /** One profile; `None` stands for a field that is `null` or `undefined`. */
  datatype Profile = Profile(
    country: string, iso2: string,
    headOfState: Option<string>, rulingParty: Option<string>, nextElection: Option<string>,
    isDemocracy: Option<bool>,
    rsfRank: Option<real>, rsfScore: Option<real>,
    ratings: CountryRatings,
    sources: Provenance)

  /** `Boolean(x)` for an optional string. */
  predicate Known(x: Option<string>)
  {
    x.Some? && x.value != ""
  }

  const NO_RATINGS := CountryRatings(None, None, None, None, None)

  /**
   * The profile of country `c`: facts and ratings looked up by code, the
   * RSF pair by name. A profile names its own country and code; each source
   * fills its fields only when it has data for the country, and a missing
   * source leaves them absent; a fact flag is set exactly when that fact is
   * known.
   */
  function ProfileFor(c: Country, facts: map<string, Wikidata.Facts>, ratings: map<string, WorldBank.Record>,
                      rsf: map<string, Rsf.RsfRecord>): (p: Profile)
    ensures p.country == c.name && p.iso2 == c.iso2
    ensures c.iso2 !in facts ==> p.headOfState.None? && p.rulingParty.None? && p.nextElection.None? && p.isDemocracy.None?
    ensures c.iso2 in facts ==>
      && p.headOfState == facts[c.iso2].headOfState && p.rulingParty == facts[c.iso2].rulingParty
      && p.nextElection == facts[c.iso2].nextElection && p.isDemocracy == Some(facts[c.iso2].isDemocracy)
    ensures p.sources.wikidata.headOfState <==> Known(p.headOfState)
    ensures p.sources.wikidata.rulingParty <==> Known(p.rulingParty)
    ensures p.sources.wikidata.nextElection <==> Known(p.nextElection)
    ensures c.iso2 !in ratings ==> p.ratings == NO_RATINGS && p.sources.worldBank.None?
    ensures c.iso2 in ratings ==> p.ratings == ratings[c.iso2].ratings && p.sources.worldBank == Some(ratings[c.iso2].raw)
    ensures c.name !in rsf ==> p.rsfRank.None? && p.rsfScore.None?
    ensures c.name in rsf ==> p.rsfRank == rsf[c.name].rank && p.rsfScore == rsf[c.name].score
    ensures p.sources.rsf == Rsf.RsfRecord(p.rsfRank, p.rsfScore)
  {
    var f := if c.iso2 in facts then Some(facts[c.iso2]) else None;
    var r := if c.iso2 in ratings then Some(ratings[c.iso2]) else None;
    var p := if c.name in rsf then rsf[c.name] else Rsf.RsfRecord(None, None);
    var head := if f.Some? then f.value.headOfState else None;
    var party := if f.Some? then f.value.rulingParty else None;
    var election := if f.Some? then f.value.nextElection else None;
    Profile(c.name, c.iso2, head, party, election,
            if f.Some? then Some(f.value.isDemocracy) else None,
            p.rank, p.score,
            if r.Some? then r.value.ratings else NO_RATINGS,
            Provenance(if r.Some? then Some(r.value.raw) else None,
                       FactFlags(Known(head), Known(party), Known(election)), p))
  }

  function Name(c: Country): string { c.name }

  function ProfileOf(facts: map<string, Wikidata.Facts>, ratings: map<string, WorldBank.Record>,
                     rsf: map<string, Rsf.RsfRecord>): Country -> Profile
  {
    c => ProfileFor(c, facts, ratings, rsf)
  }

  /**
   * The `profiles` object built over `list`: every listed country has an
   * entry, and every entry is the profile of a listed country with that
   * name.
   */
  function Profiles(list: seq<Country>, facts: map<string, Wikidata.Facts>, ratings: map<string, WorldBank.Record>,
                    rsf: map<string, Rsf.RsfRecord>): (t: map<string, Profile>)
    ensures forall c :: c in list ==> c.name in t
    ensures forall n :: n in t ==> t[n].country == n && exists c :: c in list && t[n] == ProfileFor(c, facts, ratings, rsf)
  {
    NamedProfiles(list, facts, ratings, rsf);
    Tabulate(list, Keyed(Name, ProfileOf(facts, ratings, rsf)))
  }

  lemma NamedProfiles(list: seq<Country>, facts: map<string, Wikidata.Facts>, ratings: map<string, WorldBank.Record>,
                      rsf: map<string, Rsf.RsfRecord>)
    ensures var t := Tabulate(list, Keyed(Name, ProfileOf(facts, ratings, rsf)));
      && (forall c :: c in list ==> c.name in t)
      && (forall n :: n in t ==> t[n].country == n && exists c :: c in list && t[n] == ProfileFor(c, facts, ratings, rsf))
  {
    var entry := Keyed(Name, ProfileOf(facts, ratings, rsf));
    var t := Tabulate(list, entry);
    forall c | c in list ensures c.name in t {
      var i :| 0 <= i < |list| && list[i] == c;
      TabulateKeys(list, entry, c.name);
      assert HasKey(list[i], entry, c.name);
    }
    forall n | n in t ensures t[n].country == n && exists c :: c in list && t[n] == ProfileFor(c, facts, ratings, rsf) {
      TabulateValues(list, entry, n);
      var i :| 0 <= i < |list| && entry(list[i]) == Some((n, t[n]));
      assert list[i] in list;
    }
  }

  /** Over a list with distinct names, the profiles are keyed by exactly those names, one each. */
  lemma ProfilesSpec(list: seq<Country>, facts: map<string, Wikidata.Facts>, ratings: map<string, WorldBank.Record>,
                     rsf: map<string, Rsf.RsfRecord>)
    requires forall i, j :: 0 <= i < j < |list| ==> list[i].name != list[j].name
    ensures var t := Profiles(list, facts, ratings, rsf);
      && (forall n :: n in t <==> exists i :: 0 <= i < |list| && list[i].name == n)
      && (forall i :: 0 <= i < |list| ==> list[i].name in t && t[list[i].name] == ProfileFor(list[i], facts, ratings, rsf))
  {
    TabulateDistinct(list, Name, ProfileOf(facts, ratings, rsf));
  }

  /** Over a list with distinct names, every listed country's profile is keyed by its name and names its country and code. */
  lemma ProfilesCover(list: seq<Country>, facts: map<string, Wikidata.Facts>, ratings: map<string, WorldBank.Record>,
                      rsf: map<string, Rsf.RsfRecord>)
    requires forall i, j :: 0 <= i < j < |list| ==> list[i].name != list[j].name
    ensures var t := Profiles(list, facts, ratings, rsf);
      && (forall n :: n in t <==> exists c :: c in list && c.name == n)
      && (forall c :: c in list ==> c.name in t && t[c.name].country == c.name && t[c.name].iso2 == c.iso2)
  {
    ProfilesSpec(list, facts, ratings, rsf);
    var t := Profiles(list, facts, ratings, rsf);
    forall n ensures n in t <==> exists c :: c in list && c.name == n {
      if exists c :: c in list && c.name == n {
        var c :| c in list && c.name == n;
        var i :| 0 <= i < |list| && list[i] == c;
      }
    }
    forall c | c in list ensures c.name in t && t[c.name].country == c.name && t[c.name].iso2 == c.iso2 {
      var i :| 0 <= i < |list| && list[i] == c;
    }
  }

  /** `buildCountryProfiles`: one profile per entry of the country list, whatever the sources hold. */
  lemma CountryProfilesSpec(facts: map<string, Wikidata.Facts>, ratings: map<string, WorldBank.Record>,
                            rsf: map<string, Rsf.RsfRecord>)
    ensures var t := Profiles(COUNTRY_LIST, facts, ratings, rsf);
      && (forall n :: n in t <==> exists c :: c in COUNTRY_LIST && c.name == n)
      && (forall c :: c in COUNTRY_LIST ==> c.name in t && t[c.name].country == c.name && t[c.name].iso2 == c.iso2)
  {
    CountryListDistinct();
    ProfilesCover(COUNTRY_LIST, facts, ratings, rsf);
  }

  /** The results of the three source fetches, each the data or the failure. */
  datatype Upstream = Upstream(
    wikidata: Result<map<string, Wikidata.Facts>>,
    worldBank: Result<map<string, WorldBank.Record>>,
    rsf: Result<map<string, Rsf.RsfRecord>>)

  /**
   * `Promise.all` of the three fetches followed by `buildCountryProfiles`:
   * any failure rejects the whole build (the first one in list order).
   */
  function Build(up: Upstream): (r: Result<map<string, Profile>>)
    ensures r.Ok? <==> up.wikidata.Ok? && up.worldBank.Ok? && up.rsf.Ok?
    ensures r.Err? ==>
      (up.wikidata.Err? && r.error == up.wikidata.error) ||
      (up.wikidata.Ok? && up.worldBank.Err? && r.error == up.worldBank.error) ||
      (up.wikidata.Ok? && up.worldBank.Ok? && up.rsf.Err? && r.error == up.rsf.error)
  {
    if up.wikidata.Err? then Err(up.wikidata.error)
    else if up.worldBank.Err? then Err(up.worldBank.error)
    else if up.rsf.Err? then Err(up.rsf.error)
    else Ok(Profiles(COUNTRY_LIST, up.wikidata.value, up.worldBank.value, up.rsf.value))
  }

  /** The three fetches from their raw outcomes: the SPARQL rows, the indicator fetches and the ranking page. */
  function Gather(rows: Result<seq<Wikidata.Binding>>, fetch: (string, string) -> Result<Json>,
                  number: string -> Option<real>, page: Result<Option<Json>>): Upstream
  {
    Upstream(Wikidata.WikidataFacts(rows), WorldBank.RatingsTable(fetch, number, COUNTRY_LIST),
             Rsf.RsfRanking(page, number))
  }

  /**
   * Over a list with distinct names and codes, when the ratings table of
   * the list was fetched successfully, each profile carries the ratings and
   * the raw values of its own country's four indicators.
   */
  lemma ProfilesFromRatings(list: seq<Country>, facts: map<string, Wikidata.Facts>,
                            fetch: (string, string) -> Result<Json>, number: string -> Option<real>,
                            rsf: map<string, Rsf.RsfRecord>, i: nat)
    requires forall i, j :: 0 <= i < j < |list| ==> list[i].name != list[j].name && list[i].iso2 != list[j].iso2
    requires WorldBank.RatingsTable(fetch, number, list).Ok?
    requires i < |list|
    ensures var t := Profiles(list, facts, WorldBank.RatingsTable(fetch, number, list).value, rsf);
      && list[i].name in t
      && t[list[i].name].ratings == WorldBank.CountryRecord(fetch, number, list[i]).value.ratings
      && t[list[i].name].sources.worldBank == Some(WorldBank.CountryRecord(fetch, number, list[i]).value.raw)
  {
    var ratings := WorldBank.RatingsTable(fetch, number, list).value;
    var c := list[i];
    WorldBank.RatingsTableSpec(fetch, number, list);
    assert c.iso2 in ratings && ratings[c.iso2] == WorldBank.CountryRecord(fetch, number, c).value;
    ProfilesSpec(list, facts, ratings, rsf);
    assert Profiles(list, facts, ratings, rsf)[c.name] == ProfileFor(c, facts, ratings, rsf);
  }

  /**
   * When the build from live data succeeds, every country has World Bank
   * provenance, and its ratings are those its own four indicators give.
   */
  lemma GatheredRatings(rows: Result<seq<Wikidata.Binding>>, fetch: (string, string) -> Result<Json>,
                        number: string -> Option<real>, page: Result<Option<Json>>, i: nat)
    requires Build(Gather(rows, fetch, number, page)).Ok?
    requires i < |COUNTRY_LIST|
    ensures var t := Build(Gather(rows, fetch, number, page)).value;
      && COUNTRY_LIST[i].name in t
      && t[COUNTRY_LIST[i].name].ratings == WorldBank.CountryRecord(fetch, number, COUNTRY_LIST[i]).value.ratings
      && t[COUNTRY_LIST[i].name].sources.worldBank == Some(WorldBank.CountryRecord(fetch, number, COUNTRY_LIST[i]).value.raw)
  {
    var up := Gather(rows, fetch, number, page);
    CountryListDistinct();
    ProfilesFromRatings(COUNTRY_LIST, up.wikidata.value, fetch, number, up.rsf.value, i);
  }

  /** The `COUNTRY_LIST.forEach` loop filling `profiles`. */
  method BuildCountryProfiles(list: seq<Country>, facts: map<string, Wikidata.Facts>,
                              ratings: map<string, WorldBank.Record>, rsf: map<string, Rsf.RsfRecord>)
    returns (profiles: map<string, Profile>)
    ensures profiles == Profiles(list, facts, ratings, rsf)
  {
    profiles := map[];
    for i := 0 to |list|
      invariant profiles == Tabulate(list[..i], Keyed(Name, ProfileOf(facts, ratings, rsf)))
    {
      var entry := list[i];
      TabulateStep(list[..i], entry, Keyed(Name, ProfileOf(facts, ratings, rsf)));
      Common.SliceSnoc(list, i);
      profiles := profiles[entry.name := ProfileFor(entry, facts, ratings, rsf)];
    }
    Common.SliceAll(list);
  }
}
