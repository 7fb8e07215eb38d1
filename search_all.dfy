/**
 * The older news search that keeps an item only when EVERY query word
 * occurs in it. Only the sources named in the request are used (there is
 * no `all`), they are fetched one after the other, and the first failing
 * fetch ends the request with status 500.
 */
module SearchAll {
  import opened Common
  import opened Text
  import opened News
  import Dedup
  import SearchAny

  /** The five feeds of this handler. */
  const SOURCES: seq<Source> := [
    Source("bbc_world", "BBC World", "https://feeds.bbci.co.uk/news/world/rss.xml"),
    Source("bbc_sci", "BBC Science", "https://feeds.bbci.co.uk/news/science_and_environment/rss.xml"),
    Source("guardian_world", "The Guardian World", "https://www.theguardian.com/world/rss"),
    Source("guardian_tech", "The Guardian Technology", "https://www.theguardian.com/uk/technology/rss"),
    Source("france24", "France24 (EN)", "https://www.france24.com/en/rss")
  ]

  /** The source keys are pairwise distinct. */
  lemma SourceKeysDistinct()
    ensures forall i, j :: 0 <= i < j < |SOURCES| ==> SOURCES[i].key != SOURCES[j].key
  {
  }

  /**
   * `SOURCES.filter(s => keys.includes(s.key))`: a source is selected
   * exactly when its key is named, in list order; no key means no source,
   * and `all` is an ordinary key.
   */
  function Select(all: seq<Source>, keys: seq<string>): (r: seq<Source>)
    ensures forall s :: s in r <==> s in all && s.key in keys
    ensures Dedup.Subseq(r, all)
    ensures r == [] <==> forall s :: s in all ==> s.key !in keys
  {
    WithKeysOrder(all, keys);
    var r := WithKeys(all, keys);
    assert r != [] ==> r[0] in r;
    r
  }

  /**
   * `matchesQuery` with AND logic: a blank query matches, otherwise an item
   * matches exactly when every word of the query occurs at some position of
   * its text.
   */
  predicate MatchesAll(it: FeedItem, query: string)
    ensures Normalize(query) == "" ==> MatchesAll(it, query)
    ensures Normalize(query) != "" ==> (MatchesAll(it, query) <==>
      forall tok :: tok in Tokens(Normalize(query)) ==> OccursIn(Haystack(it), tok))
  {
    var q := Normalize(query);
    ContainsEach(Haystack(it), Tokens(q));
    q == "" || forall tok :: tok in Tokens(q) ==> Contains(Haystack(it), tok)
  }

  /** `t` occurs in `hay` at some position. */
  predicate OccursIn(hay: string, t: string)
  {
    exists i :: 0 <= i <= |hay| - |t| && hay[i..][..|t|] == t
  }

  /** `Contains` agrees with `OccursIn` on every one of `toks`. */
  lemma ContainsEach(hay: string, toks: seq<string>)
    ensures forall tok :: tok in toks ==> (Contains(hay, tok) <==> OccursIn(hay, tok))
  {
    forall tok | tok in toks
      ensures Contains(hay, tok) <==> OccursIn(hay, tok)
    {
      ContainsAt(hay, tok);
    }
  }

  function AllWords(query: string): FeedItem -> bool
  {
    it => MatchesAll(it, query)
  }

  /**
   * An item that has every word of the query also has one of them, so the
   * AND search keeps no item the OR search drops, whatever the translation
   * table.
   */
  lemma AllWordsImplyAnyWord(it: FeedItem, query: string, t: map<string, string>)
    requires MatchesAll(it, query)
    ensures SearchAny.Matches(it, query, t)
  {
    var q := Normalize(query);
    if q != "" {
      TokensNonEmpty(q);
      var tok := Tokens(q)[0];
      assert tok in Tokens(q);
      assert SearchAny.TokenOrTranslationIn(Tokens(q), t, Haystack(it));
    }
  }

  /** The handler's answer: 400, 500 with the failure's message, or 200 with the listing. */
  datatype Response =
    | BadRequest
    | ServerError(details: string)
    | Found(q: string, count: nat, items: seq<Item>)

  /**
   * The sequential fetch loop: the matching items of the sources in order,
   * or the error of the first source whose fetch fails. It succeeds exactly
   * when every fetch succeeds.
   */
  function Fetched(selected: seq<Source>, fetch: string -> Result<seq<FeedItem>>, keep: FeedItem -> bool)
    : (r: Result<seq<Item>>)
    ensures r.Ok? <==> forall s :: s in selected ==> fetch(s.url).Ok?
  {
    if selected == [] then Ok([])
    else
      var before := Fetched(selected[..|selected| - 1], fetch, keep);
      var s := selected[|selected| - 1];
      assert selected == selected[..|selected| - 1] + [s];
      if before.Err? then before
      else if fetch(s.url).Err? then Err(fetch(s.url).error)
      else Ok(before.value + Matching(fetch(s.url).value, s, keep))
  }

  /** The index of the first source whose fetch fails. */
  predicate FirstFailure(selected: seq<Source>, fetch: string -> Result<seq<FeedItem>>, i: int)
  {
    0 <= i < |selected| && fetch(selected[i].url).Err? &&
    forall j :: 0 <= j < i ==> fetch(selected[j].url).Ok?
  }

  /** When the loop fails, its error is that of the first failing source in selection order. */
  lemma {:induction false} FetchedSpec(selected: seq<Source>, fetch: string -> Result<seq<FeedItem>>,
                                       keep: FeedItem -> bool)
    ensures Fetched(selected, fetch, keep).Err? ==> exists i :: (FirstFailure(selected, fetch, i) &&
      Fetched(selected, fetch, keep).error == fetch(selected[i].url).error)
  {
    if selected != [] {
      var init := selected[..|selected| - 1];
      var n := |init|;
      FetchedSpec(init, fetch, keep);
      assert selected == init + [selected[n]];
      assert forall j :: 0 <= j < n ==> init[j] == selected[j];
      if Fetched(init, fetch, keep).Err? {
        var i :| FirstFailure(init, fetch, i) && Fetched(init, fetch, keep).error == fetch(init[i].url).error;
        assert FirstFailure(selected, fetch, i);
      } else if fetch(selected[n].url).Err? {
        assert forall s :: s in init ==> fetch(s.url).Ok?;
        assert FirstFailure(selected, fetch, n);
      }
    }
  }

  /**
   * When every fetch succeeds, the loop collects what the concurrent
   * search collects when its fetches complete in selection order.
   */
  lemma {:induction false} FetchedCollects(selected: seq<Source>, fetch: string -> Result<seq<FeedItem>>,
                                           keep: FeedItem -> bool)
    requires forall s :: s in selected ==> fetch(s.url).Ok?
    ensures Fetched(selected, fetch, keep) == Ok(SearchAny.Collected(selected, fetch, keep))
  {
    if selected != [] {
      var init := selected[..|selected| - 1];
      assert forall s :: s in init ==> s in selected;
      FetchedCollects(init, fetch, keep);
      assert selected[|selected| - 1] in selected;
    }
  }

  /** Every item the loop collects is the compact form of an accepted item of a selected source. */
  lemma {:induction false} FetchedOrigin(selected: seq<Source>, fetch: string -> Result<seq<FeedItem>>,
                                         keep: FeedItem -> bool, x: Item)
    requires Fetched(selected, fetch, keep).Ok? && x in Fetched(selected, fetch, keep).value
    ensures exists s, it :: (s in selected && fetch(s.url).Ok? && it in fetch(s.url).value &&
      keep(it) && x == Compact(it, s))
  {
    var init := selected[..|selected| - 1];
    var s := selected[|selected| - 1];
    var before := Fetched(init, fetch, keep);
    if x in before.value {
      FetchedOrigin(init, fetch, keep, x);
      var s', it :| s' in init && fetch(s'.url).Ok? && it in fetch(s'.url).value && keep(it) && x == Compact(it, s');
      assert s' in selected;
    } else {
      assert x in Matching(fetch(s.url).value, s, keep);
      var it :| it in fetch(s.url).value && keep(it) && x == Compact(it, s);
    }
  }

  /** Conversely, when every fetch succeeds, every accepted item of a selected source is collected. */
  lemma FetchedComplete(selected: seq<Source>, fetch: string -> Result<seq<FeedItem>>,
                        keep: FeedItem -> bool, s: Source, it: FeedItem)
    requires forall s' :: s' in selected ==> fetch(s'.url).Ok?
    requires s in selected && it in fetch(s.url).value && keep(it)
    ensures Fetched(selected, fetch, keep).Ok? && Compact(it, s) in Fetched(selected, fetch, keep).value
  {
    FetchedCollects(selected, fetch, keep);
    SearchAny.CollectedComplete(selected, fetch, keep, s, it);
  }

  /**
   * The handler after parsing the request: `q`, the `sources` parameter,
   * the fetch outcomes by URL and the date parser. It answers 400 exactly
   * when nothing is selected and 500 exactly when a selected source fails;
   * a 200 answer lists at most `MAX_ITEMS` items.
   */
  function Search(all: seq<Source>, q: string, param: string, fetch: string -> Result<seq<FeedItem>>,
                  date: string -> int): (r: Response)
    ensures r.BadRequest? <==> Select(all, Keys(param)) == []
    ensures r.ServerError? <==>
      (Select(all, Keys(param)) != [] && exists s :: s in Select(all, Keys(param)) && fetch(s.url).Err?)
    ensures r.Found? ==> r.q == q && |r.items| <= MAX_ITEMS
  {
    Answer(all, Keys(param), q, fetch, date)
  }

  /** `Search` once the `sources` parameter is parsed into its keys. */
  function Answer(all: seq<Source>, keys: seq<string>, q: string, fetch: string -> Result<seq<FeedItem>>,
                  date: string -> int): (r: Response)
    ensures r.BadRequest? <==> Select(all, keys) == []
    ensures r.ServerError? <==>
      (Select(all, keys) != [] && exists s :: s in Select(all, keys) && fetch(s.url).Err?)
    ensures r.Found? ==> r.q == q && |r.items| <= MAX_ITEMS
  {
    var selected := Select(all, keys);
    var fetched := Fetched(selected, fetch, AllWords(q));
    assert fetched.Err? <==> exists s :: s in selected && fetch(s.url).Err?;
    Outcome(q, selected, fetched, date)
  }

  /** The answer once the selection and the outcome of the fetch loop are known. */
  function Outcome(q: string, selected: seq<Source>, fetched: Result<seq<Item>>, date: string -> int): (r: Response)
    ensures r.BadRequest? <==> selected == []
    ensures r.ServerError? <==> selected != [] && fetched.Err?
    ensures r.Found? ==> r.q == q && |r.items| <= MAX_ITEMS && r.count <= |fetched.value|
  {
    if selected == [] then BadRequest
    else if fetched.Err? then ServerError(fetched.error)
    else
      var l := Arrange(fetched.value, date);
      Found(q, l.count, l.items)
  }

  /** Status 400 exactly when no listed source is named, in particular when the parameter is blank. */
  lemma BadRequestSpec(all: seq<Source>, q: string, param: string, fetch: string -> Result<seq<FeedItem>>,
                       date: string -> int)
    ensures Search(all, q, param, fetch, date).BadRequest? <==> forall s :: s in all ==> s.key !in Keys(param)
    ensures Keys(param) == [] ==> Search(all, q, param, fetch, date).BadRequest?
  {
  }

  /**
   * A 500 answer carries the message of the first failing source in list
   * order: one failure loses the results of every other source.
   */
  lemma ServerErrorSpec(all: seq<Source>, q: string, param: string, fetch: string -> Result<seq<FeedItem>>,
                        date: string -> int)
    ensures var selected := Select(all, Keys(param));
      Search(all, q, param, fetch, date).ServerError? ==> exists i :: (FirstFailure(selected, fetch, i) &&
        Search(all, q, param, fetch, date).details == fetch(selected[i].url).error)
  {
    FetchedSpec(Select(all, Keys(param)), fetch, AllWords(q));
  }

  /**
   * A 200 answer lists at most 80 items, newest first, without repeated
   * identity keys, each one having every query word and coming from a
   * named source; `count` is the number of distinct keys collected.
   */
  lemma FoundSpec(all: seq<Source>, q: string, param: string, fetch: string -> Result<seq<FeedItem>>,
                  date: string -> int)
    requires Search(all, q, param, fetch, date).Found?
    ensures var r := Search(all, q, param, fetch, date);
      var selected := Select(all, Keys(param));
      var items := Fetched(selected, fetch, AllWords(q));
      && (forall s :: s in selected ==> fetch(s.url).Ok?)
      && items.Ok?
      && r.count == |Dedup.KeySet(items.value, IdentityKey)|
      && |r.items| == Min(r.count, MAX_ITEMS)
      && Dedup.KeysDistinct(r.items, IdentityKey)
      && SortedNewest(r.items, Time(date))
      && (forall x :: x in r.items ==> exists s, it :: (s in selected && s.key in Keys(param) &&
            it in fetch(s.url).value && MatchesAll(it, q) && x == Compact(it, s)))
      && (forall s, it :: s in selected && it in fetch(s.url).value && MatchesAll(it, q) ==>
            IdentityKey(Compact(it, s)) in Dedup.KeySet(items.value, IdentityKey) &&
            (r.count <= MAX_ITEMS ==> exists y :: y in r.items && IdentityKey(y) == IdentityKey(Compact(it, s))))
  {
    var selected := Select(all, Keys(param));
    var items := Fetched(selected, fetch, AllWords(q));
    FetchedSpec(selected, fetch, AllWords(q));
    ArrangeSpec(items.value, date);
    forall s, it | s in selected && it in fetch(s.url).value && MatchesAll(it, q)
      ensures IdentityKey(Compact(it, s)) in Dedup.KeySet(items.value, IdentityKey)
      ensures Arrange(items.value, date).count <= MAX_ITEMS ==>
        exists y :: y in Arrange(items.value, date).items && IdentityKey(y) == IdentityKey(Compact(it, s))
    {
      FetchedComplete(selected, fetch, AllWords(q), s, it);
      ArrangeCovers(items.value, date, Compact(it, s));
    }
    forall x | x in Search(all, q, param, fetch, date).items
      ensures exists s, it :: (s in selected && s.key in Keys(param) &&
        it in fetch(s.url).value && MatchesAll(it, q) && x == Compact(it, s))
    {
      FetchedOrigin(selected, fetch, AllWords(q), x);
      var s, it :| s in selected && fetch(s.url).Ok? && it in fetch(s.url).value && AllWords(q)(it) &&
        x == Compact(it, s);
    }
  }

  /** The sequential `for (const s of selected)` loop; an `await` that throws leaves it at once. */
  method FetchAll(selected: seq<Source>, fetch: string -> Result<seq<FeedItem>>, keep: FeedItem -> bool)
    returns (r: Result<seq<Item>>)
    ensures r == Fetched(selected, fetch, keep)
  {
    var items: seq<Item> := [];
    for i := 0 to |selected|
      invariant Fetched(selected[..i], fetch, keep) == Ok(items)
    {
      Common.SliceSnoc(selected, i);
      var outcome := fetch(selected[i].url);
      if outcome.Err? {
        FailureStops(selected, i + 1, fetch, keep);
        return Err(outcome.error);
      }
      items := PushMatching(items, outcome.value, selected[i], keep);
    }
    Common.SliceAll(selected);
    r := Ok(items);
  }

  /** Once the loop has failed on a prefix, the whole loop fails with the same error. */
  lemma {:induction false} FailureStops(selected: seq<Source>, k: nat, fetch: string -> Result<seq<FeedItem>>,
                                              keep: FeedItem -> bool)
    requires k <= |selected| && Fetched(selected[..k], fetch, keep).Err?
    ensures Fetched(selected, fetch, keep) == Fetched(selected[..k], fetch, keep)
    decreases |selected|
  {
    if k < |selected| {
      var init := selected[..|selected| - 1];
      assert init[..k] == selected[..k];
      FailureStops(init, k, fetch, keep);
    } else {
      assert selected[..k] == selected;
    }
  }

  /** The handler: selection, the sequential fetches, and the listing. */
  method Handle(all: seq<Source>, q: string, param: string, fetch: string -> Result<seq<FeedItem>>,
                date: string -> int) returns (resp: Response)
    ensures resp == Search(all, q, param, fetch, date)
  {
    var selected := Select(all, Keys(param));
    if |selected| == 0 {
      return BadRequest;
    }
    var r := FetchAll(selected, fetch, AllWords(q));
    if r.Err? {
      return ServerError(r.error);
    }
    var listing := ArrangeItems(r.value, date);
    resp := Found(q, listing.count, listing.items);
  }

  /** The handler as deployed, over its own five feeds. */
  function Respond(q: string, param: string, fetch: string -> Result<seq<FeedItem>>, date: string -> int): Response
  {
    Search(SOURCES, q, param, fetch, date)
  }
}
