/**
 * The structured-facts step of the country-profile builder: each SPARQL
 * result row becomes the facts of the country whose code it carries.
 */
module Wikidata {
  import opened Common
  import opened Tables

  /** A result row: variable name to the `value` of its binding (unbound variables are absent). */
  type Binding = map<string, string>

  datatype Facts = Facts(headOfState: Option<string>, rulingParty: Option<string>,
                         nextElection: Option<string>, isDemocracy: bool)

  /** `row[name]?.value || null`. */
  function Field(row: Binding, name: string): (r: Option<string>)
    ensures r.Some? <==> name in row && row[name] != ""
    ensures r.Some? ==> r.value == row[name]
  {
    if name in row && row[name] != "" then Some(row[name]) else None
  }

  /**
   * The facts one row gives: each label is the row's own binding of that
   * name when non-empty, and `isDemocracy` is `isDemocracy === "true"`.
   */
  function FactsOf(row: Binding): (f: Facts)
    ensures f.headOfState == Field(row, "headOfState")
    ensures f.rulingParty == Field(row, "rulingParty")
    ensures f.nextElection == Field(row, "nextElection")
    ensures f.isDemocracy <==> "isDemocracy" in row && row["isDemocracy"] == "true"
  {
    Facts(Field(row, "headOfState"), Field(row, "rulingParty"), Field(row, "nextElection"),
          "isDemocracy" in row && row["isDemocracy"] == "true")
  }

  /** A row without a non-empty `iso2` is skipped. */
  function FactsEntry(row: Binding): Option<(string, Facts)>
  {
    match Field(row, "iso2")
    case None => None
    case Some(iso2) => Some((iso2, FactsOf(row)))
  }

  /**
   * The `output` object of `fetchWikidataFacts`: its keys are exactly the
   * non-empty `iso2` values of the rows, so "" is never a key.
   */
  function FactsTable(rows: seq<Binding>): (t: map<string, Facts>)
    ensures forall k :: k in t <==> exists i :: 0 <= i < |rows| && Field(rows[i], "iso2") == Some(k)
    ensures "" !in t
  {
    FactsKeys(rows);
    Tabulate(rows, FactsEntry)
  }

  lemma FactsKeys(rows: seq<Binding>)
    ensures forall k :: k in Tabulate(rows, FactsEntry) <==> exists i :: 0 <= i < |rows| && Field(rows[i], "iso2") == Some(k)
  {
    forall k ensures k in Tabulate(rows, FactsEntry) <==> exists i :: 0 <= i < |rows| && Field(rows[i], "iso2") == Some(k) {
      TabulateKeys(rows, FactsEntry, k);
      if exists i :: 0 <= i < |rows| && Field(rows[i], "iso2") == Some(k) {
        var i :| 0 <= i < |rows| && Field(rows[i], "iso2") == Some(k);
        assert HasKey(rows[i], FactsEntry, k);
      }
    }
  }

  /** `fetchWikidataFacts`: the query failure, or the table of the result rows. */
  function WikidataFacts(response: Result<seq<Binding>>): Result<map<string, Facts>>
  {
    if response.Err? then Err(response.error) else Ok(FactsTable(response.value))
  }

  /** A code in the table carries the facts of the last row that has it as `iso2`. */
  lemma FactsTableSpec(rows: seq<Binding>, iso2: string)
    ensures var t := FactsTable(rows);
      var last := LastWith(rows, FactsEntry, iso2);
      iso2 in t ==> last >= 0 && rows[last]["iso2"] == iso2 && t[iso2] == FactsOf(rows[last])
  {
    TabulateLastWins(rows, FactsEntry, iso2);
  }

  /** Every stored label is non-empty. */
  lemma FactsLabelsNonEmpty(rows: seq<Binding>, iso2: string)
    requires iso2 in FactsTable(rows)
    ensures var f := FactsTable(rows)[iso2];
      && (f.headOfState.Some? ==> f.headOfState.value != "")
      && (f.rulingParty.Some? ==> f.rulingParty.value != "")
      && (f.nextElection.Some? ==> f.nextElection.value != "")
  {
    TabulateValues(rows, FactsEntry, iso2);
  }

  /** The `data.results.bindings.forEach` loop filling `output`. */
  method MapFacts(rows: seq<Binding>) returns (output: map<string, Facts>)
    ensures output == FactsTable(rows)
  {
    output := map[];
    for i := 0 to |rows|
      invariant output == Tabulate(rows[..i], FactsEntry)
    {
      var row := rows[i];
      TabulateStep(rows[..i], row, FactsEntry);
      Common.SliceSnoc(rows, i);
      if "iso2" in row && row["iso2"] != "" {
        output := output[row["iso2"] := FactsOf(row)];
      }
    }
    Common.SliceAll(rows);
  }
}
