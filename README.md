# Country profiles and news search — a verified model

This project is a Dafny model of the server side of a small news and
country-information site. It covers three pieces.

* **Country profiles** (`api/country-profiles-service.js`). For a fixed list
  of 30 countries the service gathers three kinds of data and merges them
  into one profile per country:
  * political facts from a Wikidata SPARQL query;
  * four World Bank indicators, turned into 1–5 ratings;
  * the RSF press-freedom ranking, scraped out of an HTML page.

  Country names from other sources are matched by ISO code, by an alias
  table or by a normalised name. The result is cached twice: in process
  memory and in a JSON file, each valid for twelve hours.
* **OR news search** (`api/search.js`). The handler fetches the selected RSS
  feeds concurrently, keeps items that contain at least one query word or its
  French/English translation, and reports failed feeds as warnings. It
  answers 502 only when every feed failed, then sorts newest first, removes
  duplicate links and returns at most 80 items.
* **AND news search** (`api/api/search.js`). This older handler fetches the
  selected feeds one after another and keeps items that contain every query
  word. The first failing feed turns the whole answer into a 500.

Modules follow the source:

| module | what it models |
|---|---|
| `Common` | `Option`, `Result` and a few sequence lemmas |
| `Text` | `normalizeName` / `norm`, `split` and `join`, `toUpperCase` |
| `Json` | the JSON values the code inspects, and JavaScript truthiness and `Number()` |
| `Ratings` | `clampRating`, `ratingFromPercentile`, `ratingFromLifeExpectancy`, `averageRating` and how the five ratings are assembled |
| `Dedup` | the `seen`-set loop that keeps the first element of each key |
| `RankingScanner` | `extractRankingEntries` |
| `Countries` | `COUNTRY_LIST`, `ISO_TO_NAME`, `COUNTRY_NAME_ALIASES`, `resolveCountryName` |
| `Tables` | filling an object in a loop (last write wins) and `Promise.all` over a list |
| `Wikidata` | the row mapping of `fetchWikidataFacts` |
| `WorldBank` | `fetchWorldBankIndicator` and `fetchWorldBankRatings` |
| `Rsf` | the entry mapping of `fetchRsfRanking` |
| `Profiles` | `buildCountryProfiles` and the three-way fetch of `buildAndCacheProfiles` |
| `Cache` | `buildAndCacheProfiles` and `getCountryProfiles` over the two cache tiers (class `ProfileCache`) |
| `News` | `compactItem`, query tokens, the `sources` parameter, the stable newest-first sort, and de-duplication with truncation |
| `SearchAny` | the OR handler, `TOKEN_TRANSLATIONS`, `expandTokens`, `matchesQuery` |
| `SearchAll` | the AND handler and its `matchesQuery` |

Loops become methods. Each method is proved equal to a specification
function, and the lemmas state what that function guarantees:
* the profile table has exactly one entry per country;
* the ratings lie in 1..5, and `overall` is absent only when all four
  indicators are;
* normalisation is idempotent and its output shape is fixed;
* the translation table is symmetric;
* the search answers are newest first, with no repeated key, at most 80
  items, and every item comes from a selected feed.

The mutable module state of the service (`memoryCache`) together with the
cache file forms the class `Cache.ProfileCache`.

## Model

| member | source | states |
|---|---|---|
| Text.FoldChar | api/country-profiles-service.js:75-77 | lower-casing, decomposing and dropping diacritics turns one character into at most one: an ASCII capital into its lower case, an accented Latin-1 letter into its base letter, a diacritic into nothing, and a character of `[a-z0-9 -]` into itself |
| Text.BlankOut | api/country-profiles-service.js:78 | blanking keeps the length; a character of `[a-z0-9\s-]` is kept and every other character becomes a space |
| Text.TrimStart | api/country-profiles-service.js:80 | the result is a suffix of the input that does not start with whitespace, and every dropped character is whitespace |
| Text.TrimEnd | api/country-profiles-service.js:80 | the result is a prefix of the input that does not end with whitespace, and every dropped character is whitespace |
| Text.CollapseShape | api/country-profiles-service.js:79 | collapsing whitespace runs in a blanked string leaves only `[a-z0-9-]` and single spaces, and starts with a space exactly when the input starts with whitespace |
| Text.Collapse | api/country-profiles-service.js:79 | collapsing never lengthens the string, leaves only plain spaces as whitespace, and changes nothing in a string without whitespace; `CollapseRun` pins down what it does to a run |
| Text.CollapseSpaces | api/country-profiles-service.js:79 | a non-empty run made only of whitespace becomes a single space |
| Text.CollapseAppend | api/country-profiles-service.js:79 | collapsing works piecewise when the cut does not split a whitespace run |
| Text.CollapseRun | api/country-profiles-service.js:79 | each maximal whitespace run becomes exactly one space, with the text on either side collapsed on its own |
| Text.TrimKeepsCollapsed | api/country-profiles-service.js:80 | trimming a collapsed string gives a normalised one: no leading or trailing space |
| Text.Normalize | api/country-profiles-service.js:73-81 | `normalizeName` output holds only `a-z`, `0-9`, `-` and single inner spaces, with no leading or trailing space; empty input gives ""; its value on inputs is fixed by the lemmas `NormalizePlain`, `NormalizeJoin`, `NormalizeAccent` and `NormalizeDiacritic` |
| Text.FoldFixed | api/country-profiles-service.js:75-77 | folding leaves a string of `[a-z0-9 -]` unchanged |
| Text.BlankOutFixed | api/country-profiles-service.js:78 | blanking leaves a string of `[a-z0-9 -]` unchanged |
| Text.CollapseFixed | api/country-profiles-service.js:79 | collapsing leaves a string without double spaces unchanged |
| Text.TrimFixed | api/country-profiles-service.js:80 | trimming leaves a normalised string unchanged |
| Text.NormalizedFixed | api/country-profiles-service.js:73-81 | every normalised string is a fixed point of `normalizeName` |
| Text.NormalizeIdempotent | api/country-profiles-service.js:73-81 | normalising twice equals normalising once |
| Text.NormalizedExcludes | api/country-profiles-service.js:78 | no character outside `[a-z0-9 -]` (such as `,` or `'`) ever occurs in a normalised string |
| Text.LowerAscii | api/country-profiles-service.js:75 | ASCII lower-casing keeps the length |
| Text.FoldPlain | api/country-profiles-service.js:75-77 | on ASCII letters, digits, `-` and spaces, folding is ASCII lower-casing |
| Text.Fold | api/country-profiles-service.js:75-77 | folding never lengthens the string and leaves no ASCII capital |
| Text.FoldAppend | api/country-profiles-service.js:75-77 | folding works character by character: it distributes over concatenation |
| Text.NormalizePlain | api/country-profiles-service.js:73-81 | a plain ASCII name with single inner spaces normalises to its lower case |
| Text.NormalizeJoin | api/country-profiles-service.js:73-81 | any run of punctuation and whitespace between two plain names becomes exactly one space, and the names are lower-cased |
| Text.JoinExample | api/country-profiles-service.js:73-81 | "Korea,  Republic of" normalises to "korea republic of" |
| Text.NormalizeSameFold | api/country-profiles-service.js:73-81 | `normalizeName` depends on its input only through the lower-cased, diacritic-free form |
| Text.NormalizeAccent | api/country-profiles-service.js:75-77 | an accented Latin-1 letter normalises exactly as its base letter does |
| Text.AccentExample | api/country-profiles-service.js:73-81 | "Côte" normalises to "cote" |
| Text.NormalizeDiacritic | api/country-profiles-service.js:77 | a diacritic anywhere in the input is deleted and changes nothing else |
| Text.Split | api/search.js:75 | `split` always yields at least one piece |
| Text.SplitJoin | api/search.js:73-77 | joining the pieces of a split with the separator gives the input back, and no piece holds the separator |
| Text.SplitRejoin | api/search.js:75 | joining the pieces of a split gives the input back |
| Text.SplitClean | api/search.js:75 | no piece of a split holds the separator |
| Text.SplitHead | api/search.js:20 | when the string starts with a non-separator, the first piece is that character followed by the first piece of the rest |
| Text.Upper | api/country-profiles-service.js:289 | per-character upper-casing of the code: one output character per input character, ASCII letters upper-cased, other ASCII kept, no lower-case ASCII letter left |
| Json.Lookup | api/country-profiles-service.js:272 | a property read finds nothing exactly when no member has the key, and otherwise yields the value of the first member with that key |
| Json.FirstTruthy | api/country-profiles-service.js:288 | `a || b || ...` is absent exactly when no listed field is truthy, and otherwise is the value of the first truthy field in the listed order |
| Json.Values | api/country-profiles-service.js:275 | `Object.values` has one value per member |
| Json.ToNumber | api/country-profiles-service.js:330-331 | `Number()` of `null`, a boolean or a number is a number, zero exactly when the value is falsy; a number converts to itself, a string through `number`, an object or an array of two or more elements to NaN |
| Ratings.Round | api/country-profiles-service.js:187 | `Math.round` lands within half a unit of its argument, halves rounding up |
| Ratings.Clamp | api/country-profiles-service.js:69-71 | `clampRating` lands in 1..5, is the identity on 1..5, and sends values below to 1 and above to 5 |
| Ratings.FromPercentile | api/country-profiles-service.js:185-189 | absent in gives absent out; a present percentile gives a rating in 1..5 |
| Ratings.FromLifeExpectancy | api/country-profiles-service.js:191-198 | absent in gives absent out; a present life expectancy gives a rating in 1..5 |
| Ratings.Present | api/country-profiles-service.js:201 | the present values are exactly the values of the `Some` entries; none are present exactly when all are absent |
| Ratings.PresentCounts | api/country-profiles-service.js:201 | each number occurs among the present values exactly as often as it occurs as a `Some` entry: nothing is dropped or repeated |
| Ratings.Average | api/country-profiles-service.js:200-205 | `averageRating` is absent exactly when no value is present, and otherwise lies in 1..5 |
| Ratings.AverageIsRoundedMean | api/country-profiles-service.js:200-205 | on ratings in 1..5, the average is within half a unit of the mean of the present values, i.e. their rounded mean |
| Ratings.SumBounds | api/country-profiles-service.js:203 | a sum of n values in lo..hi lies in n*lo..n*hi |
| Ratings.MeanBounds | api/country-profiles-service.js:203-204 | the rounded mean of values in lo..hi lies in lo..hi |
| Ratings.AverageWithin | api/country-profiles-service.js:200-205 | when the present values share bounds lo..hi, the average exists and lies in lo..hi |
| Ratings.AverageOfEqual | api/country-profiles-service.js:200-205 | the average of equal present values is that value |
| Ratings.PercentileEnds | api/country-profiles-service.js:185-189 | percentile 100 or more gives 5; 0 or less gives 1 |
| Ratings.LifeExpectancyEnds | api/country-profiles-service.js:191-198 | life expectancy 85 or more gives 5; 50 or less gives 1 |
| Ratings.TransformsMonotone | api/country-profiles-service.js:185-198 | neither transform ever gives a lower rating for a higher raw value |
| Ratings.CompleteSpec | api/country-profiles-service.js:226-233 | `overall` is the average of the four ratings, so it is absent exactly when all four are; each rating is kept when present and is `overall` otherwise; every result is absent or in 1..5 |
| Ratings.CombineSpec | api/country-profiles-service.js:222-233 | per country: `overall` is the average of the four transformed raw values and is absent exactly when all four are; each specific rating is its own transform when its raw value is present and `overall` otherwise; no rating is ever 0 |
| Ratings.CombineAllAbsent | api/country-profiles-service.js:222-233 | four absent raw values give five absent ratings |
| Ratings.Combine | api/country-profiles-service.js:222-233 | every rating is absent or an integer in 1..5; `overall` is the average of the four transformed raw values, absent exactly when all four raw values are |
| Ratings.CompleteMeanExample | api/country-profiles-service.js:226-233 | ratings 5, 1, 1, 1 give `overall` 2 and are kept as they are |
| Ratings.CompleteGapsExample | api/country-profiles-service.js:226-233 | ratings 5 and 2 with two gaps give `overall` 4, and both gaps become 4 |
| Dedup.FirstIndex | api/search.js:116-121 | the position of the first element with a given key |
| Dedup.KeySetMembers | api/search.js:117-119 | the `seen` set holds exactly the keys of the elements seen |
| Dedup.DedupKeys | api/search.js:114-122 | every input key is represented in the de-duplicated output |
| Dedup.DedupDistinct | api/search.js:114-122 | no two outputs share a key |
| Dedup.DedupFirst | api/search.js:114-122 | each output is the first input element that carries its key |
| Dedup.DedupSubseq | api/search.js:114-122 | the output is a subsequence of the input |
| Dedup.DedupSnoc | api/search.js:116-121 | one more element is kept exactly when its key has not been seen |
| Dedup.RemoveRepeats | api/search.js:114-122 | the `seen`-set loop computes `Dedup` of its input |
| Dedup.DedupShorter | api/search.js:114-122 | de-duplication never lengthens the list |
| Dedup.DedupMembers | api/search.js:114-122 | every kept element is an input element |
| RankingScanner.FoundShape | api/country-profiles-service.js:262-276 | every node the scanner is meant to find occurs in the tree and is a ranking record or an element of a ranking-row array |
| RankingScanner.Scan | api/country-profiles-service.js:260-277 | a falsy or scalar value yields nothing; every collected value is a ranking record or a row of a ranking array |
| RankingScanner.ScanExact | api/country-profiles-service.js:260-277 | the walk pushes a node exactly when it is a ranking record somewhere in the tree or an element of a non-empty array made only of ranking rows |
| RankingScanner.ScanAllExact | api/country-profiles-service.js:268 | `forEach(walk)` over children pushes exactly what the children contain |
| RankingScanner.Entries | api/country-profiles-service.js:257-285 | the result has no repeated value and holds exactly the values the walk collected |
| RankingScanner.ScalarRootEmpty | api/country-profiles-service.js:261 | a falsy or scalar root gives no entries |
| RankingScanner.EntriesSpec | api/country-profiles-service.js:257-285 | the result holds exactly the found nodes, no two structurally equal, in walk order, each its first occurrence |
| RankingScanner.EntriesShape | api/country-profiles-service.js:263-273 | each returned entry occurs in the tree and has a ranking shape |
| RankingScanner.Walk | api/country-profiles-service.js:260-277 | the recursive walk appends exactly `Scan(v)` to `matches` |
| RankingScanner.PushRows | api/country-profiles-service.js:264-266 | the row loop pushes every element of a ranking-row array |
| RankingScanner.WalkAll | api/country-profiles-service.js:268 | walking the children in turn appends what each contains |
| RankingScanner.ExtractRankingEntries | api/country-profiles-service.js:257-285 | `extractRankingEntries` returns exactly the found nodes, each once (no two equal) |
| Countries.IsoTableSpec | api/country-profiles-service.js:43 | with distinct codes, `ISO_TO_NAME` binds exactly the listed codes, each to its own country's name |
| Countries.CountryListDistinct | api/country-profiles-service.js:8-39 | names and codes of `COUNTRY_LIST` are pairwise distinct |
| Countries.NamesDistinct | api/country-profiles-service.js:8-39 | the 30 names are pairwise distinct |
| Countries.CodesDistinct | api/country-profiles-service.js:8-39 | the 30 codes are pairwise distinct |
| Countries.ListedHasCode | api/country-profiles-service.js:43 | every listed country's code maps to its name |
| Countries.CodeOf | api/country-profiles-service.js:288-289 | a code is read exactly when the first truthy code field is a string, and is then that string upper-cased: non-empty, with no lower-case ASCII letter |
| Countries.FindFrom | api/country-profiles-service.js:297 | the search from k finds the first matching index or -1 |
| Countries.FindByNormalizedName | api/country-profiles-service.js:297 | `COUNTRY_LIST.find` succeeds exactly when some normalised name matches, returning the first such name |
| Countries.ResolveByCode | api/country-profiles-service.js:288-291 | a recognised upper-cased code resolves to its country whatever the name fields hold |
| Countries.ResolveViaName | api/country-profiles-service.js:292-294 | without a recognised code, a string name is normalised and resolved by name |
| Countries.ResolveNameField | api/country-profiles-service.js:292-298 | no name field gives null; the branch throws exactly on a name field that is not a string; a resolved name is an alias target or a listed name |
| Countries.ResolveByAlias | api/country-profiles-service.js:295-296 | without a recognised code, the alias table is tried first |
| Countries.ResolveByName | api/country-profiles-service.js:297-298 | without a code or an alias, the result is the first listed name whose normalised form is equal, or nothing |
| Countries.ResolveCountryName | api/country-profiles-service.js:287-299 | a resolved name is a listed country or an alias target; the call fails exactly when no known code is given and the first truthy name field is not a string |
| Countries.ResolveNothing | api/country-profiles-service.js:292-293 | no recognised code and no truthy name field: unresolved, without error |
| Countries.ResolveFails | api/country-profiles-service.js:292-294 | the resolver throws exactly when it normalises a truthy name field that is not a string |
| Countries.ResolveNameKnown | api/country-profiles-service.js:295-298 | the alias and name steps only ever return an alias target or a listed name |
| Countries.ResolvedIsKnown | api/country-profiles-service.js:287-299 | a resolved name is a code-table value, an alias target or a listed name: no name is invented |
| Countries.ResolvedCountryIsKnown | api/country-profiles-service.js:287-299 | with the service's tables, a resolved name is a value of `ISO_TO_NAME` (a listed country) or an alias target |
| Countries.UnreachableAliases | api/country-profiles-service.js:48-59 | alias keys holding `,` or `'` never equal a normalised name, so they are never hit |
| Countries.CodeOfFr | api/country-profiles-service.js:288-289 | the code of `{iso2: "fr"}` is "FR" |
| Countries.FranceListed | api/country-profiles-service.js:30 | France/FR is listed |
| Countries.FranceCode | api/country-profiles-service.js:43 | "FR" maps to France |
| Countries.ExampleCode | api/country-profiles-service.js:288-290 | `{iso2: "fr"}` resolves to France (case-insensitive code) |
| Countries.RussianFederationAlias | api/country-profiles-service.js:47 | "russian federation" is an alias of Russia |
| Countries.NormalizeRussianFederation | api/country-profiles-service.js:73-81 | "Russian Federation" normalises to "russian federation" |
| Countries.ExampleAlias | api/country-profiles-service.js:295-296 | a code-less record named "Russian Federation" resolves to Russia through the alias table |
| Countries.ExampleRecord | api/country-profiles-service.js:292 | `{country: "Russian Federation"}` has no code and that name as its first truthy name field |
| Tables.LastWith | api/country-profiles-service.js:333 | the index of the last element assigning a key, or -1 |
| Tables.TabulateLastWins | api/country-profiles-service.js:333 | filling `results[key] = value` in a loop: a key is present exactly when some element assigns it, with the value of the last one |
| Tables.TabulateKeys | api/country-profiles-service.js:333 | a key is in the table exactly when some element assigns it |
| Tables.TabulateValues | api/country-profiles-service.js:333 | every stored value is one some element assigned to that key |
| Tables.TabulateStep | api/country-profiles-service.js:333 | one more loop turn assigns one more key |
| Tables.TabulateDistinct | api/country-profiles-service.js:343-347 | with distinct keys, every element gets its own entry and nothing else is in the table |
| Tables.FirstFailure | api/country-profiles-service.js:215 | the index of the first failing element from position k on, or -1; every element before it succeeds |
| Tables.CollectAllFails | api/country-profiles-service.js:215-241 | `Promise.all` over the elements fails exactly when one element fails, with the first failure's error |
| Tables.CollectAllSpec | api/country-profiles-service.js:215-241 | with distinct keys, a successful collection binds every element's key to its own result and nothing else |
| Tables.CollectAllOk | api/country-profiles-service.js:215-241 | when every element succeeds, the collection is the table of all results |
| Tables.CollectAllStep | api/country-profiles-service.js:215-241 | one more element either fails the collection or adds its entry |
| Wikidata.Field | api/country-profiles-service.js:167-169 | `row[name]?.value || null` is present exactly when the binding exists and is non-empty |
| Wikidata.FactsOf | api/country-profiles-service.js:166-171 | each of `headOfState`, `rulingParty` and `nextElection` is the row's own binding of that name when non-empty, and null otherwise; `isDemocracy` is true exactly when the binding is the text "true" |
| Wikidata.FactsTable | api/country-profiles-service.js:162-173 | the facts table's keys are exactly the non-empty `iso2` values of the rows; "" is never a key |
| Wikidata.FactsTableSpec | api/country-profiles-service.js:162-173 | a code in the facts table carries the facts of the last row that has it as `iso2` |
| Wikidata.FactsLabelsNonEmpty | api/country-profiles-service.js:167-169 | every stored label is non-empty |
| Wikidata.MapFacts | api/country-profiles-service.js:162-173 | the `forEach` loop computes the facts table |
| WorldBank.FirstValue | api/country-profiles-service.js:181-182 | `series.find` gives the value of the first row that has a non-null one, and there is one exactly when some row has a value |
| WorldBank.SeriesValue | api/country-profiles-service.js:176-182 | an indicator has a value exactly when the response's second element is an array with a row that has a value; the value is that of the first such row (`FirstValue`) and is never null |
| WorldBank.CountryRecord | api/country-profiles-service.js:216-240 | a country fails exactly when one of its four indicator fetches fails, with one of their errors; a record keeps the series values of its four fetches as `raw` |
| WorldBank.RatingsTable | api/country-profiles-service.js:207-243 | the ratings table fails exactly when some country's record fails, with the error of the first failing country in list order |
| WorldBank.RatingsTableSpec | api/country-profiles-service.js:214-242 | a successful table binds exactly the listed codes, each to its own country's record |
| WorldBank.CountryRecordRatings | api/country-profiles-service.js:222-233 | a record's ratings are `Combine` of its own raw values: security, business and expat from their percentile ranks, health from life expectancy, each falling back to `overall` when its value is absent; `overall` is absent exactly when none is numeric |
| WorldBank.FetchCountry | api/country-profiles-service.js:216-240 | the per-country body computes `CountryRecord` |
| WorldBank.FetchWorldBankRatings | api/country-profiles-service.js:207-243 | the fan-out computes the ratings table or the first failure |
| Rsf.Stored | api/country-profiles-service.js:334-335 | `x && !Number.isNaN(x) ? x : null`: the stored value is present exactly when the number is present and non-zero, and is then that number |
| Rsf.EntryPair | api/country-profiles-service.js:326-336 | a stored pair has the entry's resolved name and stores `Number()` of the first truthy rank field and of the first truthy score field, each kept only when a non-zero number, and at least one of the two |
| Rsf.EntryDropped | api/country-profiles-service.js:326-332 | an entry is dropped exactly when its name is unresolved or its rank and score are both falsy |
| Rsf.RankingTable | api/country-profiles-service.js:323-338 | the mapping fails exactly when the resolver throws on some entry, with the exception of the first such entry |
| Rsf.RankingTableLastWins | api/country-profiles-service.js:325-337 | a name is in the table exactly when some kept entry resolves to it; for a repeated name the last entry wins |
| Rsf.RankingTableValues | api/country-profiles-service.js:325-337 | every stored record has a non-zero rank or score and is the coerced rank and score of an entry resolving to its name |
| Rsf.RsfRanking | api/country-profiles-service.js:301-338 | a failed page fetch fails the ranking; no payload, or a falsy one, gives an empty table; every name in the table is a listed country or an alias target |
| Rsf.RsfNamesKnown | api/country-profiles-service.js:323-338 | every name in the table built from a list of entries is a listed country or an alias target |
| Rsf.AddEntry | api/country-profiles-service.js:326-336 | one callback turn adds exactly the entry's pair to the table |
| Rsf.MapRankings | api/country-profiles-service.js:324-338 | the `forEach` loop computes the ranking table, or the first resolver exception |
| Rsf.FetchRsfRanking | api/country-profiles-service.js:301-339 | `fetchRsfRanking` after the page fetch: the page failure, an empty table, or the table of the extracted entries |
| Profiles.ProfileFor | api/country-profiles-service.js:343-375 | a profile carries the country's name and code, its Wikidata facts, its ratings and raw values, and its RSF rank and score, each absent when its table has no entry, with the source flags set exactly when the fact is known |
| Profiles.Profiles | api/country-profiles-service.js:341-378 | every listed country has a profile under its name, and each profile is the profile of a listed country with that name |
| Profiles.ProfilesSpec | api/country-profiles-service.js:341-378 | over distinct names, the profiles are keyed by exactly the listed names, each bound to its own profile |
| Profiles.ProfilesCover | api/country-profiles-service.js:341-378 | over distinct names, each listed country has its profile under its name, naming its country and code |
| Profiles.CountryProfilesSpec | api/country-profiles-service.js:341-378 | one profile per entry of the 30-country list, whatever the sources hold |
| Profiles.Build | api/country-profiles-service.js:381-386 | the build succeeds exactly when all three fetches succeed; otherwise it carries the error of the first failing one, in the order Wikidata, World Bank, RSF |
| Profiles.ProfilesFromRatings | api/country-profiles-service.js:341-378 | with a successful ratings table, each profile carries the ratings and raw values of its own country's indicators |
| Profiles.GatheredRatings | api/country-profiles-service.js:380-386 | a successful rebuild gives every listed country the ratings and raw values its own four indicators give |
| Profiles.BuildCountryProfiles | api/country-profiles-service.js:341-378 | the `forEach` loop computes the profiles table |
| Cache.MemoryHit | api/country-profiles-service.js:403-405 | an unforced call with a fresh in-memory payload returns it and leaves both tiers unchanged |
| Cache.FileHit | api/country-profiles-service.js:406-411 | otherwise a fresh file payload is returned and adopted into memory, whatever the sources, the clock stamp and the write outcome |
| Cache.ForcedRebuilds | api/country-profiles-service.js:401-413 | a forced call always rebuilds, and succeeds exactly when the build does |
| Cache.MemoryHoldsResult | api/country-profiles-service.js:396-410 | after a successful call memory holds exactly the returned payload, which carries a timestamp and is either fresh or the new build stamped now |
| Cache.FailureKeepsTiers | api/country-profiles-service.js:380-386 | a failed call changes neither tier and carries the build's error |
| Cache.SecondCallServedFromMemory | api/country-profiles-service.js:403-405 | a second unforced call while the first result is fresh returns it again with no change |
| Cache.RebuildFreshFor | api/country-profiles-service.js:403 | a rebuilt payload stays fresh for exactly twelve hours |
| Cache.Rebuilt | api/country-profiles-service.js:380-399 | the rebuild succeeds exactly when the three fetches do; it stamps the payload and holds it in memory; the file receives the payload, is left as it was, or is left unreadable, as the write ended; on failure neither tier changes |
| Cache.Get | api/country-profiles-service.js:401-414 | a returned payload is the one held in memory afterwards; a failure changes neither tier; the file is untouched, replaced by the returned payload, or left unreadable |
| Cache.DamagedFileRebuilds | api/country-profiles-service.js:83-99 | after a write that leaves the file unreadable, the next call that finds memory stale rebuilds instead of reading the file |
| Cache.ProfileCache.constructor | api/country-profiles-service.js:41 | a new process starts with nothing in memory |
| Cache.ProfileCache.BuildAndCache | api/country-profiles-service.js:380-399 | `buildAndCacheProfiles` leaves the tiers and result `Rebuilt` describes |
| Cache.ProfileCache.GetCountryProfiles | api/country-profiles-service.js:401-414 | `getCountryProfiles` leaves the tiers and result `Get` describes |
| News.Or | api/search.js:63-66 | `a || b` is `a` when `a` is non-empty and `b` otherwise; it is "" exactly when both are |
| News.Take | api/search.js:66 | `slice(0, n)` is the prefix of length min(len, n) |
| News.Compact | api/search.js:59-68 | `compactItem` copies key, name, title and link; `pubDate` is `isoDate || pubDate`; `snippet` is the prefix of at most 320 characters of `contentSnippet || summary` |
| News.NonEmpty | api/search.js:22 | `filter(Boolean)` keeps exactly the non-empty strings |
| News.Haystack | api/search.js:22 | the matched text is normalised |
| News.ContainsAt | api/search.js:26 | `includes` holds exactly when the token occurs at some position |
| News.Tokens | api/search.js:20 | the tokens are exactly the non-empty pieces of the split, none holding a space |
| News.TokensNonEmpty | api/search.js:20 | a query that is non-empty and does not start with a space has at least one token |
| News.TokensNormalized | api/search.js:20 | the tokens of a normalised query are normalised words |
| News.TrimAll | api/search.js:76 | each key is trimmed |
| News.Keys | api/search.js:73-77 | a requested key is a non-empty trimmed piece of the parameter between commas, and never holds a comma |
| News.TrimAllMembers | api/search.js:76 | a trimmed key comes from some piece |
| News.WithKeys | api/search.js:81 | the filter keeps exactly the sources whose key was requested |
| News.WithKeysOrder | api/search.js:81 | the filter keeps the list order |
| News.Matching | api/search.js:91-93 | a source contributes exactly the compact forms of its accepted items |
| News.PushMatching | api/search.js:91-93 | the feed loop appends exactly the matching compact items, in feed order |
| News.IdentityKey | api/search.js:117 | the de-duplication key is the link when there is one, otherwise source name followed by title |
| News.InsertPerm | api/search.js:111 | inserting adds exactly one element |
| News.InsertSorted | api/search.js:111 | inserting into a newest-first list keeps it newest first |
| News.InsertWithKey | api/search.js:111 | inserting keeps the order of elements of equal time |
| News.SortNewest | api/search.js:111 | the result is a permutation of the input, newest first (a missing `pubDate` counting as 0) |
| News.SortSpec | api/search.js:111 | the sort is stable: the items sharing a date keep their input order |
| News.Arrange | api/search.js:111-124 | `count` is at most the number of collected items, at most 80 items are listed (all when `count` is at most 80), and each listed item is a collected one |
| News.ArrangeSpec | api/search.js:111-124 | `count` is the number of distinct identity keys; `items` holds at most 80 of them, newest first, no two sharing a key, each the first of its key in the sorted list, all taken from the input |
| News.ArrangeCount | api/search.js:114-124 | the count after de-duplication is the number of distinct keys of the items |
| News.PrefixOrdered | api/search.js:111-124 | a prefix of the de-duplicated sorted list is newest first with distinct keys |
| News.PrefixFirst | api/search.js:114-124 | each listed item is the first of its key in the sorted list |
| News.KeySetPerm | api/search.js:111-117 | sorting does not change the set of identity keys |
| Dedup.DistinctKeysCount | api/search.js:114-122 | a list with distinct keys has as many keys as elements |
| News.DedupOrder | api/search.js:111-122 | de-duplication keeps the newest-first order |
| Dedup.DedupPositions | api/search.js:114-122 | outputs appear in the order of their first occurrences |
| News.ArrangeItems | api/search.js:111-124 | the sort, the `seen` loop and the truncation compute `Arrange` |
| SearchAny.SourceKeysDistinct | api/sources-data.js:1-14 | the 12 source keys are pairwise distinct |
| SearchAny.Select | api/search.js:79-81 | an empty key list or `all` selects every source; otherwise exactly the requested sources; the selection keeps the list order |
| SearchAny.EmptySelection | api/search.js:79-85 | the selection is empty only when keys were given, none is `all`, and none names a source |
| SearchAny.PairsDistinct | api/search.js:30-43 | the 13 French/English pairs share no word |
| SearchAny.TranslationsKeys | api/search.js:44-47 | the table keys are exactly the words of the pairs |
| SearchAny.TranslationsPairs | api/search.js:44-47 | with distinct words, each word of a pair maps to the other |
| SearchAny.TranslationsSymmetric | api/search.js:44-47 | with distinct words, the table is symmetric, maps no word to itself and has exactly the words as keys |
| SearchAny.TokenTranslationsSymmetric | api/search.js:29-47 | `TOKEN_TRANSLATIONS` is symmetric over exactly the 26 words |
| SearchAny.FillTranslations | api/search.js:29-47 | the `forEach` computes the translation table |
| SearchAny.AddsMembers | api/search.js:51-55 | the additions are the tokens and their normalised translations |
| SearchAny.ExpandSpec | api/search.js:49-57 | `expandTokens` holds every token and each token's normalised translation, nothing else, no word twice, and of two words the one first added to `out` comes first |
| SearchAny.Expand | api/search.js:49-57 | every token is kept, so a non-empty token list expands to a non-empty one |
| SearchAny.Add | api/search.js:52-54 | adding a word to the insertion-ordered set appends it exactly when it is new, and keeps the membership set in step |
| SearchAny.AddToken | api/search.js:51-55 | one loop turn adds the token and then its translation |
| SearchAny.ExpandTokens | api/search.js:49-57 | the loop computes `Expand` |
| SearchAny.ExpandHit | api/search.js:21-26 | some expanded token occurs in the text exactly when some token or its translation does |
| SearchAny.Matches | api/search.js:16-27 | a blank query matches every item; otherwise an item matches exactly when one of the query's words, or the translation of one, occurs in its text |
| SearchAny.Warnings | api/search.js:96-104 | there are at most as many warnings as selected sources |
| SearchAny.Rejected | api/search.js:96-104 | exactly the selected sources whose fetch failed, in selection order |
| SearchAny.WarningsSpec | api/search.js:96-104 | one warning per rejected source with its key, name and error, and nothing else; as many warnings as sources exactly when all failed |
| SearchAny.WarningsInOrder | api/search.js:96-104 | the i-th warning belongs to the i-th rejected source, and there are no others |
| SearchAny.Collected | api/search.js:89-94 | when every fetch failed, nothing is collected |
| SearchAny.Outcome | api/search.js:82-124 | 400 exactly when the selection is empty; other answers carry the warnings; a 200 answer lists at most 80 items |
| SearchAny.Search | api/search.js:70-127 | 400 exactly when no source is selected; every other answer carries one warning per rejected source; a 200 answer echoes `q` and lists at most 80 items |
| SearchAny.BadGatewaySpec | api/search.js:106-109 | status 502 exactly when sources were selected and every one of them failed; a partial failure answers 200 |
| SearchAny.CollectedAppend | api/search.js:89-94 | collecting two runs of completions concatenates their items |
| SearchAny.CollectedAround | api/search.js:89-94 | collecting around one completion |
| SearchAny.CollectedPerm | api/search.js:89-94 | the completion order changes only the order of the collected items |
| SearchAny.CollectedOrigin | api/search.js:89-94 | every collected item is the compact form of an accepted item of a source that answered |
| SearchAny.CollectedComplete | api/search.js:89-94 | every matching item of a source that answered is collected |
| SearchAny.FoundSpec | api/search.js:111-124 | a 200 answer lists at most 80 items, newest first, without repeated keys, each a matching item of a selected source; `count` is the number of distinct keys |
| SearchAny.CollectMatches | api/search.js:89-94 | the pushes in completion order compute `Collected` |
| SearchAny.CollectWarnings | api/search.js:96-104 | the `results.forEach` computes `Warnings` |
| SearchAny.Handle | api/search.js:70-127 | the handler computes `Search` |
| SearchAll.SourceKeysDistinct | api/api/search.js:36-42 | the five source keys are pairwise distinct |
| SearchAll.Select | api/api/search.js:53 | exactly the requested sources in list order; no `all` shortcut; empty exactly when nothing listed is named |
| SearchAll.MatchesAll | api/api/search.js:15-23 | a blank query matches every item; otherwise an item matches exactly when every word of the query occurs at some position of its text |
| SearchAll.AllWordsImplyAnyWord | api/api/search.js:15-23 | an item with every query word also has one, so the AND search keeps nothing the OR search drops |
| SearchAll.Fetched | api/api/search.js:59-65 | the sequential loop succeeds exactly when every selected fetch succeeds |
| SearchAll.FetchedSpec | api/api/search.js:59-65 | when the sequential loop fails, it carries the error of the first failing source in selection order |
| SearchAll.FetchedCollects | api/api/search.js:59-65 | when all fetches succeed, the items are in selected-source order and then feed order |
| SearchAll.FetchedOrigin | api/api/search.js:59-65 | every collected item is the compact form of an accepted item of a selected source |
| SearchAll.FetchedComplete | api/api/search.js:59-65 | when every fetch succeeds, every matching item of a selected source is collected |
| SearchAll.Search | api/api/search.js:44-83 | 400 exactly when no source is selected, 500 exactly when a selected source fails; a 200 answer echoes `q` and lists at most 80 items |
| SearchAll.Answer | api/api/search.js:53-83 | the same three statuses, once the `sources` parameter is split into its keys |
| SearchAll.Outcome | api/api/search.js:53-80 | 400 exactly when the selection is empty, 500 exactly when the loop failed; a 200 answer lists at most 80 items |
| SearchAll.BadRequestSpec | api/api/search.js:53-57 | status 400 exactly when no listed source is named, in particular for an empty list |
| SearchAll.ServerErrorSpec | api/api/search.js:59-82 | a 500 answer carries the message of the first failing source, and no partial result |
| SearchAll.FoundSpec | api/api/search.js:67-80 | a 200 answer lists at most 80 items, newest first, without repeated keys, each with every query word and from a named source that answered; `count` is the number of distinct keys |
| SearchAll.FetchAll | api/api/search.js:59-65 | the `for` loop computes `Fetched`, stopping at the first failure |
| SearchAll.FailureStops | api/api/search.js:60-61 | once a prefix has failed, the whole loop fails the same way |
| SearchAll.Handle | api/api/search.js:44-83 | the handler computes `Search` |

## Left out

* **Network, files and clocks are parameters.** They are passed in as:
  * a World Bank `fetch(iso2, indicator)`;
  * the RSF page already reduced to its embedded JSON (`page`);
  * the Wikidata result rows;
  * a feed `fetch(url)`;
  * the cache file as an optional payload, and the outcome of each write to it
    (written, left as it was, or left unreadable);
  * `now` and the rebuild time `stamp` in milliseconds;
  * `date` for `new Date(...).getTime()`;
  * `number` for `Number()` on strings.
* **Page scraping and parsing are not modelled.**
  * `parseJsonish` evaluates page text with `Function`, and `fetchRsfRanking`
    finds the page's data with regular expressions
    (`api/country-profiles-service.js:245-255`, `301-319`). An arbitrary
    script cannot be modelled, so the model starts from the JSON value, or
    its absence, that this step yields.
* **SPARQL and HTTP request building are not modelled.** The SPARQL query
  text, headers, `fetchJson` and `fetchText`
  (`api/country-profiles-service.js:100-161`) build requests. Only their
  outcomes enter the model.
* **Concurrency is modelled as an order.**
  * `Profiles.Build` reports the first failure in the order Wikidata, World
    Bank, RSF. `Promise.all` rejects with whichever failure happens first in
    time.
  * The World Bank fan-out is sequential in the model, with the same
    first-in-list-order reading of failures.
  * In the OR search, feeds push their items in completion order. The model
    takes that order as an input `done`, a permutation of the selected
    sources, and `SearchAny.CollectedPerm` shows it changes only the order
    of items before the sort.
* **Unicode coverage is partial.**
  * `Text.FoldChar` knows a fixed set of characters:
    * ASCII capitals;
    * the Latin-1 letters that decompose canonically;
    * the spacing accents of ASCII and Latin-1;
    * the combining marks with the Diacritic property in U+0300–U+0362;
    * KELVIN SIGN, ANGSTROM SIGN and U+0130.

    Any other character is kept as it is and is then blanked, unless it is
    whitespace. Full `toLowerCase` and NFD may turn such a character into an
    ASCII letter.
  * `Text.Upper` upper-cases one character at a time, and only ASCII letters,
    U+0131 and U+017F. JavaScript's `toUpperCase` can lengthen a string
    (`"ß"` gives `"SS"`, `"ﬁ"` gives `"FI"`). None of the 30 codes can come
    from such a character, so code resolution is unaffected.
* **Numbers are reals.** JavaScript doubles are modelled as `real`, NaN as
  absence:
  * `WorldBank.Numeric` treats an indicator value that `Number()` rejects as
    absent. Its rating then falls back to the average instead of becoming NaN.
  * `Rsf.Stored` treats NaN as absent, which the source states directly.
* `Countries.CodeOf` treats a code field that is not a string as no code.
  For an array, `String()` would be the comma-joined elements.
* `null` and `undefined` are both `None`.
* News.Compact: the snippet keeps the first 320 characters (code points),
  while `slice(0, 320)` keeps 320 UTF-16 code units. The two differ when the
  text holds characters above U+FFFF: 200 emoji are all kept here, but
  JavaScript keeps 160. JavaScript can also cut a surrogate pair in half,
  which a Dafny string cannot hold.
* **Feed items.** Feed item fields that are not strings are not modelled, and
  `""` stands for a missing field.
* A `pubDate` that does not parse is not modelled: `date` gives every
  non-empty `pubDate` a time, while `new Date(...)` of an unparseable text
  is NaN, the comparator then returns NaN, and the resulting order is left
  to the engine.
* An invalid `updatedAt` date is not modelled: a payload is fresh only when
  it has a timestamp less than twelve hours old.
* **Unreachable 500.** The `catch` of the OR handler that answers 500
  (`api/search.js:125-127`) cannot be reached in the model.
  * Feed failures are caught by `Promise.allSettled`.
  * Every other step is total.
* **Thin HTTP wrappers are not part of this model.**
  * `api/sources.js`, `api/country-profiles.js` and
    `api/refresh-country-profiles.js` only forward to the modelled functions
    and set headers.
  * The response headers and the default 500 of `country-profiles.js` are
    not modelled.
* **Source lists.**
  * The OR search uses the 12 sources of `api/sources-data.js`. France 24 in
    English has the key `france24_en` there.
  * The AND search uses its own list of five, where that key is `france24`.
* The newest-first sort is modelled as an insertion sort. Like
  `Array.prototype.sort`, it is stable.
* **Behaviour of the code kept as written:**
  * A failed World Bank indicator fetch rejects `Promise.all` and so the
    whole rebuild; no cell is left absent.
  * A truthy name field that is not a string makes `normalizeName` throw
    inside `resolveCountryName`. That rejects the whole RSF fetch and
    therefore the rebuild (`Countries.ResolveFails`, `Rsf.RankingTable`).
  * The alias keys that contain `,` or `'` can never match a normalised
    name (`Countries.UnreachableAliases`). They are kept, as in the code.
