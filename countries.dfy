/**
 * The closed list of 30 countries, the ISO-code and alias tables, and
 * `resolveCountryName`, which maps a loosely shaped ranking record onto a
 * country name.
 */
module Countries {
  import opened Common
  import opened Json
  import opened Text

  datatype Country = Country(name: string, iso2: string)

  /** `COUNTRY_LIST`: the universe of profiled countries. */
  const COUNTRY_LIST: seq<Country> := [
    Country("Nigeria", "NG"), Country("South Africa", "ZA"), Country("Kenya", "KE"),
    Country("Egypt", "EG"), Country("Morocco", "MA"), Country("Ghana", "GH"),
    Country("Senegal", "SN"), Country("United States", "US"), Country("Canada", "CA"),
    Country("Mexico", "MX"), Country("Brazil", "BR"), Country("Argentina", "AR"),
    Country("Colombia", "CO"), Country("Chile", "CL"), Country("Peru", "PE"),
    Country("China", "CN"), Country("India", "IN"), Country("Japan", "JP"),
    Country("South Korea", "KR"), Country("Indonesia", "ID"), Country("Pakistan", "PK"),
    Country("France", "FR"), Country("Germany", "DE"), Country("United Kingdom", "GB"),
    Country("Italy", "IT"), Country("Spain", "ES"), Country("Ukraine", "UA"),
    Country("Russia", "RU"), Country("Australia", "AU"), Country("New Zealand", "NZ")
  ]

  /** `ISO_TO_NAME`: `new Map(COUNTRY_LIST.map(entry => [entry.iso2, entry.name]))`. */
  const ISO_TO_NAME: map<string, string> := IsoTable(COUNTRY_LIST)

  /** `new Map(pairs)`: each code bound to its name, a later entry overwriting an earlier one. */
  function IsoTable(list: seq<Country>): map<string, string>
  {
    if list == [] then map[]
    else IsoTable(list[..|list| - 1])[list[|list| - 1].iso2 := list[|list| - 1].name]
  }

  /** With distinct codes, the table binds exactly the listed codes, each to its own country's name. */
  lemma {:induction false} IsoTableSpec(list: seq<Country>)
    requires forall i, j :: 0 <= i < j < |list| ==> list[i].iso2 != list[j].iso2
    ensures forall c :: c in list ==> c.iso2 in IsoTable(list) && IsoTable(list)[c.iso2] == c.name
    ensures forall k :: k in IsoTable(list) ==> exists c :: c in list && c.iso2 == k
  {
    if list != [] {
      var init := list[..|list| - 1];
      var last := list[|list| - 1];
      assert forall i :: 0 <= i < |init| ==> init[i] == list[i];
      IsoTableSpec(init);
      assert list == init + [last];
      forall c | c in list ensures c.iso2 in IsoTable(list) && IsoTable(list)[c.iso2] == c.name {
        if c != last {
          assert c in init;
          var i :| 0 <= i < |init| && init[i] == c;
          assert list[i].iso2 != list[|list| - 1].iso2;
        }
      }
    }
  }

  /** `COUNTRY_NAME_ALIASES`, keyed by the literal strings of the source. */
  const COUNTRY_NAME_ALIASES: map<string, string> := map[
    "united states of america" := "United States",
    "russian federation" := "Russia",
    "korea, republic of" := "South Korea",
    "republic of korea" := "South Korea",
    "iran" := "Iran",
    "korea, democratic people's republic of" := "North Korea",
    "cote d'ivoire" := "Cote d'Ivoire",
    "united kingdom of great britain and northern ireland" := "United Kingdom",
    "syrian arab republic" := "Syria",
    "venezuela, bolivarian republic of" := "Venezuela",
    "bolivia, plurinational state of" := "Bolivia",
    "tanzania, united republic of" := "Tanzania",
    "viet nam" := "Vietnam",
    "lao people's democratic republic" := "Laos",
    "republic of moldova" := "Moldova",
    "brunei darussalam" := "Brunei",
    "czechia" := "Czech Republic",
    "macao" := "Macau",
    "hong kong" := "Hong Kong",
    "micronesia" := "Micronesia",
    "greenland" := "Greenland"
  ]

  /** The fields tried, in order, for a country code and for a country name. */
  const CODE_FIELDS: seq<string> := ["iso2", "iso", "code", "country_code", "countryCode"]
  const NAME_FIELDS: seq<string> := ["country", "country_name", "name", "countryName"]

  /** Names and codes of the list are pairwise distinct. */
  lemma CountryListDistinct()
    ensures forall i, j :: 0 <= i < j < |COUNTRY_LIST| ==>
      COUNTRY_LIST[i].name != COUNTRY_LIST[j].name && COUNTRY_LIST[i].iso2 != COUNTRY_LIST[j].iso2
  {
    NamesDistinct();
    CodesDistinct();
  }

  /**
   * The 435 pairs of names (and, below, of codes) are checked in six batches
   * of rows, `NamesDistinctA` to `F`, so that each solver query stays small;
   * the batches together cover every pair `i < j`. They have no counterpart
   * in the service: they only split the proof of `CountryListDistinct` to
   * keep its cost down.
   */
  lemma NamesDistinct()
    ensures forall i, j :: 0 <= i < j < |COUNTRY_LIST| ==> COUNTRY_LIST[i].name != COUNTRY_LIST[j].name
  {
    NamesDistinctA();
    NamesDistinctB();
    NamesDistinctC();
    NamesDistinctD();
    NamesDistinctE();
    NamesDistinctF();
  }

  lemma NamesDistinctA()
    ensures forall i, j :: i == 0 && 0 < j < |COUNTRY_LIST| ==> COUNTRY_LIST[i].name != COUNTRY_LIST[j].name
  {
  }

  lemma NamesDistinctB()
    ensures forall i, j :: 1 <= i < 3 && i < j < |COUNTRY_LIST| ==> COUNTRY_LIST[i].name != COUNTRY_LIST[j].name
  {
  }

  lemma NamesDistinctC()
    ensures forall i, j :: 3 <= i < 6 && i < j < |COUNTRY_LIST| ==> COUNTRY_LIST[i].name != COUNTRY_LIST[j].name
  {
  }

  lemma NamesDistinctD()
    ensures forall i, j :: 6 <= i < 10 && i < j < |COUNTRY_LIST| ==> COUNTRY_LIST[i].name != COUNTRY_LIST[j].name
  {
  }

  lemma NamesDistinctE()
    ensures forall i, j :: 10 <= i < 14 && i < j < |COUNTRY_LIST| ==> COUNTRY_LIST[i].name != COUNTRY_LIST[j].name
  {
  }

  lemma NamesDistinctF()
    ensures forall i, j :: 14 <= i < j < |COUNTRY_LIST| ==> COUNTRY_LIST[i].name != COUNTRY_LIST[j].name
  {
  }

  /** The codes, checked in the same six batches of rows. */
  lemma CodesDistinct()
    ensures forall i, j :: 0 <= i < j < |COUNTRY_LIST| ==> COUNTRY_LIST[i].iso2 != COUNTRY_LIST[j].iso2
  {
    CodesDistinctA();
    CodesDistinctB();
    CodesDistinctC();
    CodesDistinctD();
    CodesDistinctE();
    CodesDistinctF();
  }

  lemma CodesDistinctA()
    ensures forall i, j :: i == 0 && 0 < j < |COUNTRY_LIST| ==> COUNTRY_LIST[i].iso2 != COUNTRY_LIST[j].iso2
  {
  }

  lemma CodesDistinctB()
    ensures forall i, j :: 1 <= i < 3 && i < j < |COUNTRY_LIST| ==> COUNTRY_LIST[i].iso2 != COUNTRY_LIST[j].iso2
  {
  }

  lemma CodesDistinctC()
    ensures forall i, j :: 3 <= i < 6 && i < j < |COUNTRY_LIST| ==> COUNTRY_LIST[i].iso2 != COUNTRY_LIST[j].iso2
  {
  }

  lemma CodesDistinctD()
    ensures forall i, j :: 6 <= i < 10 && i < j < |COUNTRY_LIST| ==> COUNTRY_LIST[i].iso2 != COUNTRY_LIST[j].iso2
  {
  }

  lemma CodesDistinctE()
    ensures forall i, j :: 10 <= i < 14 && i < j < |COUNTRY_LIST| ==> COUNTRY_LIST[i].iso2 != COUNTRY_LIST[j].iso2
  {
  }

  lemma CodesDistinctF()
    ensures forall i, j :: 14 <= i < j < |COUNTRY_LIST| ==> COUNTRY_LIST[i].iso2 != COUNTRY_LIST[j].iso2
  {
  }

  /**
   * The upper-cased code of the first truthy code field, when that field is
   * a string: a non-empty code with no lower-case ASCII letter left.
   */
  function CodeOf(entry: Json): (r: Option<string>)
    ensures r.Some? <==> FirstTruthy(entry, CODE_FIELDS).Some? && FirstTruthy(entry, CODE_FIELDS).value.JStr?
    ensures r.Some? ==> r.value != "" && forall i :: 0 <= i < |r.value| ==> !('a' <= r.value[i] <= 'z')
    ensures r.Some? ==> r.value == Upper(FirstTruthy(entry, CODE_FIELDS).value.s)
  {
    var field := FirstTruthy(entry, CODE_FIELDS);
    if field.Some? && field.value.JStr? then
      Some(Upper(field.value.s))
    else None
  }

  /** The first index at or after `k` whose name `norm` maps to `normalized`, or -1. */
  function FindFrom(list: seq<Country>, norm: string -> string, normalized: string, k: nat): (i: int)
    requires k <= |list|
    ensures i == -1 || k <= i < |list|
    ensures i >= 0 ==> norm(list[i].name) == normalized
    ensures forall j :: k <= j < (if i >= 0 then i else |list|) ==> norm(list[j].name) != normalized
    decreases |list| - k
  {
    if k == |list| then -1
    else if norm(list[k].name) == normalized then k
    else FindFrom(list, norm, normalized, k + 1)
  }

  /**
   * `list.find(item => norm(item.name) === normalized)`, by name: found
   * exactly when some name matches, and then the first that does.
   */
  function FindByNormalizedName(list: seq<Country>, norm: string -> string, normalized: string): (r: Option<string>)
    ensures r.Some? <==> exists i :: 0 <= i < |list| && norm(list[i].name) == normalized
    ensures r.Some? ==>
      exists i :: 0 <= i < |list| && list[i].name == r.value && norm(list[i].name) == normalized &&
        forall j :: 0 <= j < i ==> norm(list[j].name) != normalized
  {
    var i := FindFrom(list, norm, normalized, 0);
    if i >= 0 then Some(list[i].name) else None
  }

  /** The three tables the resolver consults: codes to names, aliases to names, and the country list. */
  datatype Tables = Tables(isoToName: map<string, string>, aliases: map<string, string>, list: seq<Country>)

  /** The service's own tables. */
  const TABLES := Tables(ISO_TO_NAME, COUNTRY_NAME_ALIASES, COUNTRY_LIST)

  /** Steps (b) and (c) of the resolver, on an already normalised name. */
  function ResolveName(normalized: string, tb: Tables): Option<string>
  {
    if normalized in tb.aliases then Some(tb.aliases[normalized])
    else FindByNormalizedName(tb.list, Normalize, normalized)
  }

  const TYPE_ERROR := "TypeError: value.toLowerCase is not a function"

  /**
   * `resolveCountryName` over the tables `tb`. `Err` is the exception
   * `normalizeName` throws on a truthy name field that is not a string.
   */
  function Resolve(entry: Json, tb: Tables): Result<Option<string>>
  {
    var code := CodeOf(entry);
    if code.Some? && code.value in tb.isoToName then Ok(Some(tb.isoToName[code.value]))
    else ResolveNameField(FirstTruthy(entry, NAME_FIELDS), tb)
  }

  /**
   * The name branch of the resolver, given the first truthy name field: no
   * field gives null, a field that is not a string makes `normalizeName`
   * throw, and a string resolves only to an alias target or a listed name.
   */
  function ResolveNameField(field: Option<Json>, tb: Tables): (r: Result<Option<string>>)
    ensures field.None? ==> r == Ok(None)
    ensures r.Err? <==> field.Some? && !field.value.JStr?
    ensures r.Err? ==> r.error == TYPE_ERROR
    ensures r.Ok? && r.value.Some? ==> r.value.value in tb.aliases.Values || exists c :: c in tb.list && c.name == r.value.value
  {
    match field
    case None => Ok(None)
    case Some(JStr(raw)) =>
      ResolveNameKnown(Normalize(raw), tb);
      Ok(ResolveName(Normalize(raw), tb))
    case Some(_) => Err(TYPE_ERROR)
  }

  /**
   * `resolveCountryName` itself, with the service's tables: a resolved name
   * is always a listed country or an alias target, and the call throws only
   * when no code is recognised and the first truthy name field is not a
   * string.
   */
  function ResolveCountryName(entry: Json): (r: Result<Option<string>>)
    ensures r.Ok? && r.value.Some? ==> r.value.value in ISO_TO_NAME.Values || r.value.value in COUNTRY_NAME_ALIASES.Values
    ensures r.Err? <==>
      !(CodeOf(entry).Some? && CodeOf(entry).value in ISO_TO_NAME) &&
      FirstTruthy(entry, NAME_FIELDS).Some? && !FirstTruthy(entry, NAME_FIELDS).value.JStr?
  {
    ResolvedCountryIsKnown(entry);
    Resolve(entry, TABLES)
  }

  lemma ValueIn<K, V>(m: map<K, V>, k: K)
    requires k in m
    ensures m[k] in m.Values
  {
  }

  /** Steps (b) and (c) only return an alias target or a listed name. */
  lemma ResolveNameKnown(normalized: string, tb: Tables)
    ensures ResolveName(normalized, tb).Some? ==>
      var name := ResolveName(normalized, tb).value;
      name in tb.aliases.Values || exists c :: c in tb.list && c.name == name
  {
    if normalized in tb.aliases {
      ValueIn(tb.aliases, normalized);
    } else {
      var r := FindByNormalizedName(tb.list, Normalize, normalized);
      if r.Some? {
        var i :| 0 <= i < |tb.list| && tb.list[i].name == r.value;
        assert tb.list[i] in tb.list;
      }
    }
  }

  /**
   * A resolved name is a code table value, an alias target or a listed
   * name: the resolver never invents one.
   */
  lemma ResolvedIsKnown(entry: Json, tb: Tables)
    ensures Resolve(entry, tb).Ok? && Resolve(entry, tb).value.Some? ==>
      var name := Resolve(entry, tb).value.value;
      name in tb.isoToName.Values || name in tb.aliases.Values || exists c :: c in tb.list && c.name == name
  {
    var code := CodeOf(entry);
    if code.Some? && code.value in tb.isoToName {
      ValueIn(tb.isoToName, code.value);
    } else {
      var field := FirstTruthy(entry, NAME_FIELDS);
      assert Resolve(entry, tb) == ResolveNameField(field, tb);
      if field.Some? && field.value.JStr? {
        ResolveNameKnown(Normalize(field.value.s), tb);
      }
    }
  }

  /** Every listed name is the code table's value for that country's code. */
  lemma ListedHasCode()
    ensures forall c :: c in COUNTRY_LIST ==> c.iso2 in ISO_TO_NAME && ISO_TO_NAME[c.iso2] == c.name
  {
    CodesDistinct();
    IsoTableSpec(COUNTRY_LIST);
  }

  /** With the service's tables, a resolved name is a listed country or an alias target. */
  lemma ResolvedCountryIsKnown(entry: Json)
    ensures Resolve(entry, TABLES).Ok? && Resolve(entry, TABLES).value.Some? ==>
      var name := Resolve(entry, TABLES).value.value;
      name in ISO_TO_NAME.Values || name in COUNTRY_NAME_ALIASES.Values
  {
    ResolvedIsKnown(entry, TABLES);
    var r := Resolve(entry, TABLES);
    if r.Ok? && r.value.Some? && exists c :: c in COUNTRY_LIST && c.name == r.value.value {
      var c :| c in COUNTRY_LIST && c.name == r.value.value;
      ListedHasCode();
      ValueIn(ISO_TO_NAME, c.iso2);
    }
  }

  /** A recognised code wins, whatever the name fields hold. */
  lemma ResolveByCode(entry: Json, tb: Tables, code: string)
    requires CodeOf(entry) == Some(code) && code in tb.isoToName
    ensures Resolve(entry, tb) == Ok(Some(tb.isoToName[code]))
  {
  }

  /** Without a recognised code, a string name field is normalised and resolved by name. */
  lemma ResolveViaName(entry: Json, tb: Tables, raw: string)
    requires CodeOf(entry).None? || CodeOf(entry).value !in tb.isoToName
    requires FirstTruthy(entry, NAME_FIELDS) == Some(JStr(raw))
    ensures Resolve(entry, tb) == Ok(ResolveName(Normalize(raw), tb))
  {
    assert Resolve(entry, tb) == ResolveNameField(Some(JStr(raw)), tb);
  }

  /** Without a recognised code, a string name is resolved through the alias table first. */
  lemma ResolveByAlias(entry: Json, tb: Tables, raw: string)
    requires CodeOf(entry).None? || CodeOf(entry).value !in tb.isoToName
    requires FirstTruthy(entry, NAME_FIELDS) == Some(JStr(raw))
    requires Normalize(raw) in tb.aliases
    ensures Resolve(entry, tb) == Ok(Some(tb.aliases[Normalize(raw)]))
  {
    ResolveViaName(entry, tb, raw);
  }

  /**
   * Without a recognised code or an alias, the result is the search of the
   * list by normalised name (the first listed name whose normalised form
   * equals the normalised input, or nothing).
   */
  lemma ResolveByName(entry: Json, tb: Tables, raw: string)
    requires CodeOf(entry).None? || CodeOf(entry).value !in tb.isoToName
    requires FirstTruthy(entry, NAME_FIELDS) == Some(JStr(raw))
    requires Normalize(raw) !in tb.aliases
    ensures Resolve(entry, tb) == Ok(FindByNormalizedName(tb.list, Normalize, Normalize(raw)))
  {
    ResolveViaName(entry, tb, raw);
  }

  /** No recognised code and no truthy name field: unresolved, without error. */
  lemma ResolveNothing(entry: Json, tb: Tables)
    requires CodeOf(entry).None? || CodeOf(entry).value !in tb.isoToName
    requires forall i :: 0 <= i < |NAME_FIELDS| ==> Get(entry, NAME_FIELDS[i]).None? || !Truthy(Get(entry, NAME_FIELDS[i]).value)
    ensures Resolve(entry, tb) == Ok(None)
  {
    assert FirstTruthy(entry, NAME_FIELDS).None?;
  }

  /** The resolver throws exactly when it reaches a truthy name field that is not a string. */
  lemma ResolveFails(entry: Json, tb: Tables)
    ensures Resolve(entry, tb).Err? <==>
      (CodeOf(entry).None? || CodeOf(entry).value !in tb.isoToName) &&
      FirstTruthy(entry, NAME_FIELDS).Some? && !FirstTruthy(entry, NAME_FIELDS).value.JStr?
  {
  }

  /**
   * The alias keys that contain `,` or `'` can never be looked up: the
   * normalised name never contains either character.
   */
  lemma UnreachableAliases(raw: string)
    ensures forall k :: k in COUNTRY_NAME_ALIASES && (',' in k || '\'' in k) ==> Normalize(raw) != k
  {
    NormalizedExcludes(raw, ',');
    NormalizedExcludes(raw, '\'');
  }

  /** `{iso2: "fr"}` resolves to France. */
  lemma ExampleCode()
    ensures ResolveCountryName(JObj([("iso2", JStr("fr"))])) == Ok(Some("France"))
  {
    var entry := JObj([("iso2", JStr("fr"))]);
    CodeOfFr(entry);
    FranceCode();
    ResolveByCode(entry, TABLES, "FR");
  }

  lemma CodeOfFr(entry: Json)
    requires entry == JObj([("iso2", JStr("fr"))])
    ensures CodeOf(entry) == Some("FR")
  {
    assert Get(entry, "iso2") == Some(JStr("fr"));
    assert FirstTruthy(entry, CODE_FIELDS) == Some(JStr("fr"));
    assert Upper("fr") == "FR";
  }

  lemma FranceCode()
    ensures "FR" in ISO_TO_NAME && ISO_TO_NAME["FR"] == "France"
  {
    ListedHasCode();
    FranceListed();
  }

  lemma FranceListed()
    ensures Country("France", "FR") in COUNTRY_LIST
  {
    assert COUNTRY_LIST[21] == Country("France", "FR");
  }

  lemma RussianFederationAlias()
    ensures "russian federation" in COUNTRY_NAME_ALIASES && COUNTRY_NAME_ALIASES["russian federation"] == "Russia"
  {
  }

  /**
   * A record without a code whose first truthy name field is
   * "Russian Federation" (such as `{country: "Russian Federation"}`)
   * resolves to Russia through the alias table.
   */
  lemma ExampleAlias(entry: Json, raw: string)
    requires CodeOf(entry).None? && FirstTruthy(entry, NAME_FIELDS) == Some(JStr(raw))
    requires raw == "Russian Federation"
    ensures ResolveCountryName(entry) == Ok(Some("Russia"))
  {
    NormalizeRussianFederation(raw);
    RussianFederationAlias();
    ResolveByAlias(entry, TABLES, raw);
  }

  lemma NormalizeRussianFederation(s: string)
    requires s == "Russian Federation"
    ensures Normalize(s) == "russian federation"
  {
    RussianFederationPlain(s);
    NormalizePlain(s);
    RussianFederationLower(s);
  }

  lemma RussianFederationPlain(s: string)
    requires s == "Russian Federation"
    ensures IsPlainText(s)
  {
  }

  lemma RussianFederationLower(s: string)
    requires s == "Russian Federation"
    ensures LowerAscii(s) == "russian federation"
  {
  }

  /** `{country: "Russian Federation"}` meets the conditions above. */
  lemma ExampleRecord(entry: Json)
    requires entry == JObj([("country", JStr("Russian Federation"))])
    ensures CodeOf(entry).None? && FirstTruthy(entry, NAME_FIELDS) == Some(JStr("Russian Federation"))
  {
  }
}
