/**
 * The press-freedom ranking step of the country-profile builder: every
 * scanned ranking record is resolved to a country name and reduced to a
 * `{rank, score}` pair, filling a table keyed by name.
 */
module Rsf {
  import opened Common
  import opened Json
  import opened Tables
  import Countries
  import RankingScanner

  /** The fields tried, in order, for the rank and for the score. */
  const RANK_FIELDS: seq<string> := ["rank", "ranking", "position", "rank_position"]
  const SCORE_FIELDS: seq<string> := ["score", "points", "note", "indice", "total"]

  /** `value ? Number(value) : null`. */
  function Coerce(value: Option<Json>, number: string -> Option<real>): Option<real>
  {
    if value.Some? then ToNumber(value.value, number) else None
  }

  /** `x && !Number.isNaN(x) ? x : null`: a stored value is present only when it is a truthy number. */
  function Stored(x: Option<real>): (r: Option<real>)
    ensures r.Some? <==> x.Some? && x.value != 0.0
    ensures r.Some? ==> r == x
  {
    if x.Some? && x.value != 0.0 then x else None
  }

  datatype RsfRecord = RsfRecord(rank: Option<real>, score: Option<real>)

  /**
   * What one entry contributes, given the country resolver `resolve`:
   * `None` when its name is unresolved or rank and score are both falsy;
   * a kept entry resolves to its name and stores `Number()` of its first
   * truthy rank field and of its first truthy score field, each only when
   * it is a non-zero number, and at least one of the two.
   */
  function EntryPair(e: Json, resolve: Json -> Result<Option<string>>, number: string -> Option<real>)
    : (p: Option<(string, RsfRecord)>)
    ensures p.Some? ==>
      && resolve(e) == Ok(Some(p.value.0))
      && p.value.1 == RsfRecord(Stored(Coerce(FirstTruthy(e, RANK_FIELDS), number)),
                                Stored(Coerce(FirstTruthy(e, SCORE_FIELDS), number)))
      && (p.value.1.rank.Some? || p.value.1.score.Some?)
      && (p.value.1.rank.Some? ==> p.value.1.rank.value != 0.0)
      && (p.value.1.score.Some? ==> p.value.1.score.value != 0.0)
  {
    var name := resolve(e);
    if name.Err? || name.value.None? then None
    else
      var rank := Coerce(FirstTruthy(e, RANK_FIELDS), number);
      var score := Coerce(FirstTruthy(e, SCORE_FIELDS), number);
      if Stored(rank).None? && Stored(score).None? then None
      else Some((name.value.value, RsfRecord(Stored(rank), Stored(score))))
  }

  function Pairing(resolve: Json -> Result<Option<string>>, number: string -> Option<real>): Json -> Option<(string, RsfRecord)>
  {
    e => EntryPair(e, resolve, number)
  }

  /**
   * Lines 323-338: the table, or the exception of the first entry on which
   * the resolver throws; the mapping fails exactly when the resolver throws
   * on some entry.
   */
  function RankingTable(entries: seq<Json>, resolve: Json -> Result<Option<string>>, number: string -> Option<real>)
    : (r: Result<map<string, RsfRecord>>)
    ensures r.Err? <==> exists i :: 0 <= i < |entries| && resolve(entries[i]).Err?
    ensures r.Err? ==> exists i :: (0 <= i < |entries| && resolve(entries[i]) == Err(r.error) &&
      forall j :: 0 <= j < i ==> resolve(entries[j]).Ok?)
  {
    var i := FirstFailure(entries, resolve, 0);
    if i >= 0 then Err(resolve(entries[i]).error)
    else Ok(Tabulate(entries, Pairing(resolve, number)))
  }

  /**
   * `fetchRsfRanking` with the service's resolver: the page's failure, an
   * empty table when nothing was extracted, or the table of the extracted
   * entries, whose names are all listed countries or alias targets.
   */
  function RsfRanking(page: Result<Option<Json>>, number: string -> Option<real>): (r: Result<map<string, RsfRecord>>)
    ensures page.Err? ==> r == Err(page.error)
    ensures page.Ok? && (page.value.None? || !Truthy(page.value.value)) ==> r == Ok(map[])
    ensures r.Ok? ==> forall name :: name in r.value ==>
      name in Countries.ISO_TO_NAME.Values || name in Countries.COUNTRY_NAME_ALIASES.Values
  {
    if page.Err? then Err(page.error)
    else if page.value.None? || !Truthy(page.value.value) then Ok(map[])
    else
      var entries := RankingScanner.Entries(page.value.value);
      RsfNamesKnown(entries, number);
      RankingTable(entries, Countries.ResolveCountryName, number)
  }

  /**
   * A name is in the table exactly when some entry resolves to it with a
   * truthy rank or score; its record is the one the last such entry gives.
   */
  lemma RankingTableLastWins(entries: seq<Json>, resolve: Json -> Result<Option<string>>,
                             number: string -> Option<real>, name: string)
    requires RankingTable(entries, resolve, number).Ok?
    ensures var t := RankingTable(entries, resolve, number).value;
      var last := LastWith(entries, Pairing(resolve, number), name);
      && (name in t <==>
            exists i :: 0 <= i < |entries| && EntryPair(entries[i], resolve, number).Some? && EntryPair(entries[i], resolve, number).value.0 == name)
      && (name in t ==> last >= 0 && t[name] == EntryPair(entries[last], resolve, number).value.1)
  {
    TabulateKeys(entries, Pairing(resolve, number), name);
    TabulateLastWins(entries, Pairing(resolve, number), name);
  }

  /**
   * Every stored record has at least one of rank and score, each a non-zero
   * number, and holds the coerced rank and score of an entry resolving to
   * its name.
   */
  lemma RankingTableValues(entries: seq<Json>, resolve: Json -> Result<Option<string>>,
                           number: string -> Option<real>, name: string)
    requires RankingTable(entries, resolve, number).Ok?
    requires name in RankingTable(entries, resolve, number).value
    ensures var r := RankingTable(entries, resolve, number).value[name];
      && (r.rank.Some? || r.score.Some?)
      && (r.rank.Some? ==> r.rank.value != 0.0)
      && (r.score.Some? ==> r.score.value != 0.0)
      && exists i :: 0 <= i < |entries| && resolve(entries[i]) == Ok(Some(name)) &&
           r == RsfRecord(Stored(Coerce(FirstTruthy(entries[i], RANK_FIELDS), number)),
                          Stored(Coerce(FirstTruthy(entries[i], SCORE_FIELDS), number)))
  {
    var t := RankingTable(entries, resolve, number).value;
    TabulateValues(entries, Pairing(resolve, number), name);
    var i :| 0 <= i < |entries| && Pairing(resolve, number)(entries[i]) == Some((name, t[name]));
    assert EntryPair(entries[i], resolve, number) == Some((name, t[name]));
  }

  /** An entry is dropped when its name is unresolved or when rank and score are both falsy. */
  lemma EntryDropped(e: Json, resolve: Json -> Result<Option<string>>, number: string -> Option<real>)
    ensures EntryPair(e, resolve, number).None? <==>
      resolve(e).Err? || resolve(e).value.None? ||
      (Stored(Coerce(FirstTruthy(e, RANK_FIELDS), number)).None? &&
       Stored(Coerce(FirstTruthy(e, SCORE_FIELDS), number)).None?)
  {
  }

  /** Every name in the table of the service's resolver is a listed country or an alias target. */
  lemma RsfNamesKnown(entries: seq<Json>, number: string -> Option<real>)
    ensures RankingTable(entries, Countries.ResolveCountryName, number).Ok? ==>
      forall name :: name in RankingTable(entries, Countries.ResolveCountryName, number).value ==>
        name in Countries.ISO_TO_NAME.Values || name in Countries.COUNTRY_NAME_ALIASES.Values
  {
    var t := RankingTable(entries, Countries.ResolveCountryName, number);
    forall name | t.Ok? && name in t.value
      ensures name in Countries.ISO_TO_NAME.Values || name in Countries.COUNTRY_NAME_ALIASES.Values
    {
      RankingTableValues(entries, Countries.ResolveCountryName, number, name);
      var i :| 0 <= i < |entries| && Countries.ResolveCountryName(entries[i]) == Ok(Some(name));
    }
  }

  /** The `entries.forEach` loop filling `results`. */
  method MapRankings(entries: seq<Json>, resolve: Json -> Result<Option<string>>, number: string -> Option<real>)
    returns (r: Result<map<string, RsfRecord>>)
    ensures r == RankingTable(entries, resolve, number)
  {
    var results: map<string, RsfRecord> := map[];
    for i := 0 to |entries|
      invariant results == Tabulate(entries[..i], Pairing(resolve, number))
      invariant forall j :: 0 <= j < i ==> resolve(entries[j]).Ok?
    {
      var entry := entries[i];
      var name := resolve(entry);
      if name.Err? {
        FirstFailureAt(entries, resolve, i);
        return Err(name.error);
      }
      OkPrefixStep(entries, resolve, i);
      results := AddEntry(results, entries[..i], entry, name.value, resolve, number);
      Common.SliceSnoc(entries, i);
    }
    Common.SliceAll(entries);
    FirstFailureNone(entries, resolve);
    r := Ok(results);
  }

  /** The body of the `entries.forEach` callback for an entry whose name resolved without throwing. */
  method AddEntry(results: map<string, RsfRecord>, ghost done: seq<Json>, entry: Json, name: Option<string>,
                  resolve: Json -> Result<Option<string>>, number: string -> Option<real>)
    returns (results': map<string, RsfRecord>)
    requires results == Tabulate(done, Pairing(resolve, number)) && resolve(entry) == Ok(name)
    ensures results' == Tabulate(done + [entry], Pairing(resolve, number))
  {
    TabulateStep(done, entry, Pairing(resolve, number));
    results' := results;
    if name.Some? {
      var rank := Coerce(FirstTruthy(entry, RANK_FIELDS), number);
      var score := Coerce(FirstTruthy(entry, SCORE_FIELDS), number);
      if (rank.Some? && rank.value != 0.0) || (score.Some? && score.value != 0.0) {
        results' := results[name.value := RsfRecord(Stored(rank), Stored(score))];
      }
    }
  }

  /** `fetchRsfRanking` after the page text has been fetched and its embedded payload parsed. */
  method FetchRsfRanking(page: Result<Option<Json>>, number: string -> Option<real>) returns (r: Result<map<string, RsfRecord>>)
    ensures r == RsfRanking(page, number)
  {
    if page.Err? {
      return Err(page.error);
    }
    var data := page.value;
    if data.None? || !Truthy(data.value) {
      return Ok(map[]);
    }
    var entries := RankingScanner.ExtractRankingEntries(data.value);
    r := MapRankings(entries, Countries.ResolveCountryName, number);
  }
}
