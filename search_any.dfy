/**
 * The news search that keeps an item when ANY query word, or its
 * French/English counterpart, occurs in it. Every selected source is
 * fetched concurrently; a failing source only adds a warning, and the
 * request fails only when every selected source failed and nothing
 * matched.
 */
module SearchAny {
  import opened Common
  import opened Text
  import opened News
  import Dedup

  /** The feed list of `sources-data.js`. */
  const SOURCES: seq<Source> := [
    Source("bbc_world", "BBC World", "https://feeds.bbci.co.uk/news/world/rss.xml"),
    Source("bbc_sci", "BBC Science", "https://feeds.bbci.co.uk/news/science_and_environment/rss.xml"),
    Source("guardian_world", "The Guardian World", "https://www.theguardian.com/world/rss"),
    Source("guardian_tech", "The Guardian Technology", "https://www.theguardian.com/uk/technology/rss"),
    Source("france24_en", "France24 (EN)", "https://www.france24.com/en/rss"),
    Source("france24_fr", "France24 (FR)", "https://www.france24.com/fr/rss"),
    Source("aljazeera", "Al Jazeera", "https://www.aljazeera.com/xml/rss/all.xml"),
    Source("npr", "NPR News", "https://www.npr.org/rss/rss.php?id=1001"),
    Source("nasa", "NASA Breaking News", "https://www.nasa.gov/rss/dyn/breaking_news.rss"),
    Source("lemonde", "Le Monde — À la une", "https://www.lemonde.fr/rss/une.xml"),
    Source("dw", "DW — World", "https://rss.dw.com/rdf/rss-en-all"),
    Source("cbc_world", "CBC — World", "https://www.cbc.ca/cmlink/rss-world")
  ]

  /** The source keys are pairwise distinct. */
  lemma SourceKeysDistinct()
    ensures forall i, j :: 0 <= i < j < |SOURCES| ==> SOURCES[i].key != SOURCES[j].key
  {
  }

  /**
   * An empty key list, or one naming `all`, selects every source; otherwise
   * the named ones. A source is selected exactly when it is listed and
   * either every source is asked for or its key is; the selection keeps the
   * list's order.
   */
  function Select(all: seq<Source>, keys: seq<string>): (r: seq<Source>)
    ensures forall s :: s in r <==> s in all && (keys == [] || "all" in keys || s.key in keys)
    ensures Dedup.Subseq(r, all)
  {
    if keys == [] || "all" in keys then
      SubseqRefl(all);
      all
    else
      WithKeysOrder(all, keys);
      WithKeys(all, keys)
  }

  lemma {:induction false} SubseqRefl<T>(s: seq<T>)
    ensures Dedup.Subseq(s, s)
  {
    if s != [] {
      SubseqRefl(s[..|s| - 1]);
    }
  }

  /** The selection is empty only for a key list that names neither `all` nor any source. */
  lemma EmptySelection(all: seq<Source>, keys: seq<string>)
    ensures Select(all, keys) == [] <==> all == [] || (keys != [] && "all" !in keys && forall s :: s in all ==> s.key !in keys)
  {
    if keys != [] && "all" !in keys && Select(all, keys) != [] {
      assert Select(all, keys)[0] in Select(all, keys);
    }
  }

  /** The French/English word pairs of `TOKEN_TRANSLATIONS`. */
  const PAIRS: seq<(string, string)> := [
    ("afrique", "africa"), ("asie", "asia"), ("oceanie", "oceania"), ("amerique", "america"),
    ("australie", "australia"), ("chine", "china"), ("japon", "japan"), ("coree", "korea"),
    ("allemagne", "germany"), ("angleterre", "england"), ("nigeria", "nigéria"),
    ("etats", "states"), ("etats-unis", "united")
  ]

  /** Each pair entered both ways, later pairs overwriting earlier ones. */
  function Translations(pairs: seq<(string, string)>): map<string, string>
  {
    if pairs == [] then map[]
    else
      var p := pairs[|pairs| - 1];
      Translations(pairs[..|pairs| - 1])[p.0 := p.1][p.1 := p.0]
  }

  const TOKEN_TRANSLATIONS: map<string, string> := Translations(PAIRS)

  /** No word occurs twice among the pairs, and the two words of a pair differ. */
  predicate WordsDistinct(pairs: seq<(string, string)>)
  {
    && (forall i, j :: 0 <= i < j < |pairs| ==> pairs[i].0 != pairs[j].0 && pairs[i].1 != pairs[j].1)
    && (forall i, j :: 0 <= i < |pairs| && 0 <= j < |pairs| ==> pairs[i].0 != pairs[j].1)
  }

  /** `w` is one of the words of the pairs. */
  predicate InPairs(w: string, pairs: seq<(string, string)>)
  {
    exists i :: 0 <= i < |pairs| && (pairs[i].0 == w || pairs[i].1 == w)
  }

  /** The 13 pairs of the table share no word. */
  lemma PairsDistinct()
    ensures WordsDistinct(PAIRS)
  {
    FirstsDistinct();
    SecondsDistinct();
    FirstsNotSeconds();
  }

  lemma FirstsDistinct()
    ensures forall i, j :: 0 <= i < j < |PAIRS| ==> PAIRS[i].0 != PAIRS[j].0
  {
  }

  lemma SecondsDistinct()
    ensures forall i, j :: 0 <= i < j < |PAIRS| ==> PAIRS[i].1 != PAIRS[j].1
  {
  }

  lemma FirstsNotSeconds()
    ensures forall i, j :: 0 <= i < |PAIRS| && 0 <= j < |PAIRS| ==> PAIRS[i].0 != PAIRS[j].1
  {
  }

  /** The table's keys are exactly the words of the pairs. */
  lemma {:induction false} TranslationsKeys(pairs: seq<(string, string)>)
    ensures forall w :: w in Translations(pairs) <==> InPairs(w, pairs)
  {
    if pairs != [] {
      var init := pairs[..|pairs| - 1];
      TranslationsKeys(init);
      assert forall i :: 0 <= i < |init| ==> init[i] == pairs[i];
      forall w | InPairs(w, pairs) && !InPairs(w, init)
        ensures w == pairs[|pairs| - 1].0 || w == pairs[|pairs| - 1].1
      {
        var i :| 0 <= i < |pairs| && (pairs[i].0 == w || pairs[i].1 == w);
      }
    }
  }

  /** With distinct words, each word of a pair maps to the other. */
  lemma {:induction false} TranslationsPairs(pairs: seq<(string, string)>, i: nat)
    requires WordsDistinct(pairs) && i < |pairs|
    ensures var t := Translations(pairs);
      pairs[i].0 in t && t[pairs[i].0] == pairs[i].1 && pairs[i].1 in t && t[pairs[i].1] == pairs[i].0
  {
    var n := |pairs| - 1;
    var init := pairs[..n];
    assert pairs[n].0 != pairs[n].1;
    if i < n {
      assert forall k :: 0 <= k < n ==> init[k] == pairs[k];
      TranslationsPairs(init, i);
      assert pairs[i] == init[i];
      assert pairs[i].0 != pairs[n].0 && pairs[i].0 != pairs[n].1;
      assert pairs[i].1 != pairs[n].0 && pairs[i].1 != pairs[n].1;
    }
  }

  /**
   * When no word occurs twice, the table `t` built from the pairs has
   * exactly their words as keys and maps each word to its partner and
   * back: it is symmetric and no word maps to itself.
   */
  lemma TranslationsSymmetric(pairs: seq<(string, string)>, t: map<string, string>)
    requires WordsDistinct(pairs) && t == Translations(pairs)
    ensures forall w :: w in t <==> InPairs(w, pairs)
    ensures forall w :: w in t ==> t[w] in t && t[t[w]] == w && t[w] != w
  {
    TranslationsKeys(pairs);
    forall w | w in t ensures t[w] in t && t[t[w]] == w && t[w] != w {
      var i :| 0 <= i < |pairs| && (pairs[i].0 == w || pairs[i].1 == w);
      TranslationsPairs(pairs, i);
    }
  }

  /** `TOKEN_TRANSLATIONS` holds the 26 words of the pairs, each mapped to its partner and back. */
  lemma TokenTranslationsSymmetric()
    ensures forall w :: w in TOKEN_TRANSLATIONS <==> InPairs(w, PAIRS)
    ensures var t := TOKEN_TRANSLATIONS;
      forall w :: w in t ==> t[w] in t && t[t[w]] == w && t[w] != w
  {
    PairsDistinct();
    TranslationsSymmetric(PAIRS, TOKEN_TRANSLATIONS);
  }

  /** The `forEach` that fills `TOKEN_TRANSLATIONS`. */
  method FillTranslations(pairs: seq<(string, string)>) returns (t: map<string, string>)
    ensures t == Translations(pairs)
  {
    t := map[];
    for i := 0 to |pairs|
      invariant t == Translations(pairs[..i])
    {
      Common.SliceSnoc(pairs, i);
      var (fr, en) := pairs[i];
      t := t[fr := en];
      t := t[en := fr];
    }
    Common.SliceAll(pairs);
  }

  function Same(s: string): string { s }

  /** What one token adds to the `out` set: itself, then its translation (normalised) when it has one. */
  function AddsOf(token: string, t: map<string, string>): seq<string>
  {
    [token] + if token in t && t[token] != "" then [Normalize(t[token])] else []
  }

  /** Every addition to `out`, in order. */
  function Adds(tokens: seq<string>, t: map<string, string>): seq<string>
  {
    if tokens == [] then [] else Adds(tokens[..|tokens| - 1], t) + AddsOf(tokens[|tokens| - 1], t)
  }

  /**
   * `expandTokens`: `Array.from` of the insertion-ordered set. Every token
   * is kept, so a non-empty token list never expands to nothing and the
   * `expanded.length === 0` branch of `matchesQuery` is dead.
   */
  function Expand(tokens: seq<string>, t: map<string, string>): (r: seq<string>)
    ensures forall tok :: tok in tokens ==> tok in r
    ensures tokens != [] ==> r != []
  {
    var a := Adds(tokens, t);
    AddsMembers(tokens, t);
    Dedup.DedupKeys(a, Same);
    SameKeys(a);
    SameKeys(Dedup.Dedup(a, Same));
    assert tokens != [] ==> tokens[0] in tokens;
    Dedup.Dedup(a, Same)
  }

  /** `tok` has a (non-empty) translation in `t`. */
  predicate Translated(tok: string, t: map<string, string>)
  {
    tok in t && t[tok] != ""
  }

  /** `x` is the normalised translation of one of the tokens. */
  predicate TranslationOf(x: string, tokens: seq<string>, t: map<string, string>)
  {
    exists tok :: tok in tokens && Translated(tok, t) && x == Normalize(t[tok])
  }

  lemma TranslationOfSnoc(x: string, init: seq<string>, last: string, t: map<string, string>)
    ensures TranslationOf(x, init + [last], t) <==>
      TranslationOf(x, init, t) || (Translated(last, t) && x == Normalize(t[last]))
  {
    if TranslationOf(x, init + [last], t) {
      var tok :| tok in init + [last] && Translated(tok, t) && x == Normalize(t[tok]);
      if tok != last {
        assert tok in init;
      }
    }
    if TranslationOf(x, init, t) {
      var tok :| tok in init && Translated(tok, t) && x == Normalize(t[tok]);
      assert tok in init + [last];
    }
    if Translated(last, t) && x == Normalize(t[last]) {
      assert last in init + [last];
    }
  }

  lemma {:induction false} AddsMembers(tokens: seq<string>, t: map<string, string>)
    ensures forall x :: x in Adds(tokens, t) <==> x in tokens || TranslationOf(x, tokens, t)
  {
    if tokens != [] {
      var init := tokens[..|tokens| - 1];
      var last := tokens[|tokens| - 1];
      AddsMembers(init, t);
      assert tokens == init + [last];
      assert Adds(tokens, t) == Adds(init, t) + AddsOf(last, t);
      forall x ensures x in Adds(tokens, t) <==> x in tokens || TranslationOf(x, tokens, t) {
        TranslationOfSnoc(x, init, last, t);
      }
    }
  }

  lemma SameKeys(xs: seq<string>)
    ensures forall x :: x in Dedup.KeySet(xs, Same) <==> x in xs
  {
    Dedup.KeySetMembers(xs, Same);
  }

  /**
   * The expansion holds every input token and each token's translation,
   * nothing else, no word twice, in the order of first insertion: of two
   * words, the one first added to `out` comes first.
   */
  lemma ExpandSpec(tokens: seq<string>, t: map<string, string>)
    ensures var e := Expand(tokens, t);
      && (forall x :: x in e <==> x in tokens || TranslationOf(x, tokens, t))
      && Distinct(e)
      && Dedup.Subseq(e, Adds(tokens, t))
      && forall i, j :: 0 <= i < j < |e| ==>
           e[i] in Dedup.KeySet(Adds(tokens, t), Same) && e[j] in Dedup.KeySet(Adds(tokens, t), Same) &&
           Dedup.FirstIndex(Adds(tokens, t), Same, e[i]) < Dedup.FirstIndex(Adds(tokens, t), Same, e[j])
  {
    var a := Adds(tokens, t);
    var e := Expand(tokens, t);
    AddsMembers(tokens, t);
    Dedup.DedupKeys(a, Same);
    Dedup.DedupDistinct(a, Same);
    Dedup.DedupSubseq(a, Same);
    SameKeys(a);
    SameKeys(e);
    forall i, j | 0 <= i < j < |e|
      ensures e[i] in Dedup.KeySet(a, Same) && e[j] in Dedup.KeySet(a, Same)
      ensures Dedup.FirstIndex(a, Same, e[i]) < Dedup.FirstIndex(a, Same, e[j])
    {
      Dedup.DedupPositions(a, Same, e, i, j);
    }
  }

  /** `out.add(w)` on the insertion-ordered set `out`, kept as its list and its members. */
  method Add(out: seq<string>, seen: set<string>, ghost xs: seq<string>, w: string)
    returns (out': seq<string>, seen': set<string>)
    requires out == Dedup.Dedup(xs, Same) && seen == Dedup.KeySet(out, Same)
    ensures out' == Dedup.Dedup(xs + [w], Same) && seen' == Dedup.KeySet(out', Same)
  {
    Dedup.DedupSnoc(xs, w, Same);
    if w in seen {
      out', seen' := out, seen;
    } else {
      out' := out + [w];
      seen' := seen + {w};
      assert out'[..|out|] == out;
    }
  }

  /** One turn of the `tokens.forEach` loop: add the token, then its translation when it has one. */
  method AddToken(out: seq<string>, seen: set<string>, ghost xs: seq<string>, token: string,
                  t: map<string, string>)
    returns (out': seq<string>, seen': set<string>)
    requires out == Dedup.Dedup(xs, Same) && seen == Dedup.KeySet(out, Same)
    ensures out' == Dedup.Dedup(xs + AddsOf(token, t), Same) && seen' == Dedup.KeySet(out', Same)
  {
    out', seen' := Add(out, seen, xs, token);
    if token in t && t[token] != "" {
      var w := Normalize(t[token]);
      assert AddsOf(token, t) == [token] + [w];
      SnocTwice(xs, token, w);
      out', seen' := Add(out', seen', xs + [token], w);
    } else {
      assert xs + AddsOf(token, t) == xs + [token];
    }
  }

  lemma SnocTwice<T>(xs: seq<T>, a: T, b: T)
    ensures xs + ([a] + [b]) == (xs + [a]) + [b]
  {
  }

  lemma AddsPrefix(tokens: seq<string>, i: nat, t: map<string, string>)
    requires i < |tokens|
    ensures Adds(tokens[..i + 1], t) == Adds(tokens[..i], t) + AddsOf(tokens[i], t)
  {
    Common.SliceSnoc(tokens, i);
  }

  /** The `tokens.forEach` loop adding to the `out` set. */
  method ExpandTokens(tokens: seq<string>, t: map<string, string>) returns (out: seq<string>)
    ensures out == Expand(tokens, t)
  {
    var seen: set<string> := {};
    out := [];
    for i := 0 to |tokens|
      invariant out == Dedup.Dedup(Adds(tokens[..i], t), Same)
      invariant seen == Dedup.KeySet(out, Same)
    {
      AddsPrefix(tokens, i, t);
      out, seen := AddToken(out, seen, Adds(tokens[..i], t), tokens[i], t);
    }
    Common.SliceAll(tokens);
  }

  /**
   * `matchesQuery` with OR logic: some expanded token occurs in the item's
   * text. A query that normalises to nothing matches every item; otherwise
   * an item matches exactly when one of the query's words, or the
   * translation of one, occurs in its text.
   */
  predicate Matches(it: FeedItem, query: string, t: map<string, string>)
    ensures Normalize(query) == "" ==> Matches(it, query, t)
    ensures Normalize(query) != "" ==>
      (Matches(it, query, t) <==> TokenOrTranslationIn(Tokens(Normalize(query)), t, Haystack(it)))
  {
    var q := Normalize(query);
    if q == "" then true
    else
      var expanded := Expand(Tokens(q), t);
      var hay := Haystack(it);
      TokensNonEmpty(q);
      ExpandHit(Tokens(q), t, hay);
      if |expanded| == 0 then true
      else exists i :: 0 <= i < |expanded| && Contains(hay, expanded[i])
  }

  /** Some element of `e` occurs in `hay`. */
  predicate AnyIn(e: seq<string>, hay: string)
  {
    exists i :: 0 <= i < |e| && Contains(hay, e[i])
  }

  /** Some token, or its translation, occurs in `hay`. */
  predicate TokenOrTranslationIn(tokens: seq<string>, t: map<string, string>, hay: string)
  {
    exists tok :: tok in tokens && (Contains(hay, tok) || (Translated(tok, t) && Contains(hay, Normalize(t[tok]))))
  }

  lemma ExpandHit(tokens: seq<string>, t: map<string, string>, hay: string)
    ensures AnyIn(Expand(tokens, t), hay) <==> TokenOrTranslationIn(tokens, t, hay)
  {
    ExpandSpec(tokens, t);
    if AnyIn(Expand(tokens, t), hay) {
      ExpandHitWord(tokens, t, hay);
    }
    if TokenOrTranslationIn(tokens, t, hay) {
      ExpandHitToken(tokens, t, hay);
    }
  }

  lemma ExpandHitWord(tokens: seq<string>, t: map<string, string>, hay: string)
    requires AnyIn(Expand(tokens, t), hay)
    ensures TokenOrTranslationIn(tokens, t, hay)
  {
    var e := Expand(tokens, t);
    ExpandSpec(tokens, t);
    var i :| 0 <= i < |e| && Contains(hay, e[i]);
    var x := e[i];
    assert x in e;
    if x in tokens {
      assert Contains(hay, x);
    } else {
      var tok :| tok in tokens && Translated(tok, t) && x == Normalize(t[tok]);
      assert Contains(hay, Normalize(t[tok]));
    }
  }

  lemma ExpandHitToken(tokens: seq<string>, t: map<string, string>, hay: string)
    requires TokenOrTranslationIn(tokens, t, hay)
    ensures AnyIn(Expand(tokens, t), hay)
  {
    var e := Expand(tokens, t);
    ExpandSpec(tokens, t);
    var tok :| tok in tokens && (Contains(hay, tok) || (Translated(tok, t) && Contains(hay, Normalize(t[tok]))));
    if Contains(hay, tok) {
      assert tok in e;
      var i :| 0 <= i < |e| && e[i] == tok;
    } else {
      assert Translated(tok, t);
      assert tok in t;
      var x := Normalize(t[tok]);
      assert x in e;
      var i :| 0 <= i < |e| && e[i] == x;
    }
  }

  function Matcher(query: string, t: map<string, string>): FeedItem -> bool
  {
    it => Matches(it, query, t)
  }

  /** A warning for a source whose fetch was rejected. */
  datatype Warning = Warning(sourceKey: string, sourceName: string, error: string)

  /** The handler's answer: 400, 502 with the warnings, or 200 with the listing and the warnings. */
  datatype Response =
    | BadRequest
    | BadGateway(warnings: seq<Warning>)
    | Found(q: string, count: nat, items: seq<Item>, warnings: seq<Warning>)

  /** What source `s` contributes: its matching items, or nothing when its fetch was rejected. */
  function Contribution(s: Source, fetch: string -> Result<seq<FeedItem>>, keep: FeedItem -> bool): seq<Item>
  {
    if fetch(s.url).Err? then [] else Matching(fetch(s.url).value, s, keep)
  }

  /**
   * The contributions of the sources in `done`, the order in which their
   * fetches completed; when every fetch was rejected nothing is collected.
   */
  function Collected(done: seq<Source>, fetch: string -> Result<seq<FeedItem>>, keep: FeedItem -> bool): (r: seq<Item>)
    ensures (forall s :: s in done ==> fetch(s.url).Err?) ==> r == []
  {
    if done == [] then []
    else
      assert forall s :: s in done[..|done| - 1] ==> s in done;
      assert done[|done| - 1] in done;
      Collected(done[..|done| - 1], fetch, keep) + Contribution(done[|done| - 1], fetch, keep)
  }

  /** One warning per rejected source, in selection order. */
  function Warnings(selected: seq<Source>, fetch: string -> Result<seq<FeedItem>>): (w: seq<Warning>)
    ensures |w| <= |selected|
  {
    if selected == [] then []
    else
      var init := Warnings(selected[..|selected| - 1], fetch);
      var s := selected[|selected| - 1];
      if fetch(s.url).Err? then init + [Warning(s.key, s.name, fetch(s.url).error)] else init
  }

  function Selected(all: seq<Source>, param: string): seq<Source>
  {
    Select(all, Keys(param))
  }

  /** The answer once the selection, the collected items and the warnings are known. */
  function Outcome(q: string, selected: seq<Source>, items: seq<Item>, warnings: seq<Warning>,
                   date: string -> int): (r: Response)
    ensures r.BadRequest? <==> selected == []
    ensures !r.BadRequest? ==> r.warnings == warnings
    ensures r.Found? ==> r.q == q && |r.items| <= MAX_ITEMS && r.count <= |items|
  {
    if selected == [] then BadRequest
    else if |items| == 0 && |warnings| == |selected| then BadGateway(warnings)
    else
      var l := Arrange(items, date);
      Found(q, l.count, l.items, warnings)
  }

  /**
   * The handler after parsing the request: `q`, the `sources` parameter,
   * the translation table, the outcome of each feed fetch by URL, the
   * selected sources in the order their fetches completed, and the date
   * parser. It answers 400 exactly when nothing is selected; every other
   * answer carries one warning per rejected source, and a 200 answer lists
   * at most `MAX_ITEMS` items.
   */
  function Search(all: seq<Source>, q: string, param: string, t: map<string, string>, fetch: string -> Result<seq<FeedItem>>,
                  done: seq<Source>, date: string -> int): (r: Response)
    requires multiset(done) == multiset(Selected(all, param))
    ensures r.BadRequest? <==> Selected(all, param) == []
    ensures !r.BadRequest? ==> r.warnings == Warnings(Selected(all, param), fetch)
    ensures r.Found? ==> r.q == q && |r.items| <= MAX_ITEMS
  {
    var selected := Selected(all, param);
    Outcome(q, selected, Collected(done, fetch, Matcher(q, t)), Warnings(selected, fetch), date)
  }

  /** The selected sources whose fetch was rejected, in selection order. */
  function Rejected(selected: seq<Source>, fetch: string -> Result<seq<FeedItem>>): (r: seq<Source>)
    ensures forall s :: s in r <==> s in selected && fetch(s.url).Err?
    ensures Dedup.Subseq(r, selected)
  {
    if selected == [] then []
    else
      var init := selected[..|selected| - 1];
      var s := selected[|selected| - 1];
      var r := Rejected(init, fetch);
      assert selected == init + [s];
      if fetch(s.url).Err? then
        assert (r + [s])[..|r|] == r;
        r + [s]
      else
        Dedup.SubseqExtend(r, init, s);
        r
  }

  /** The warning that `results.forEach` pushes for a rejected source. */
  function WarningFor(s: Source, fetch: string -> Result<seq<FeedItem>>): Warning
    requires fetch(s.url).Err?
  {
    Warning(s.key, s.name, fetch(s.url).error)
  }

  /** Warnings and rejected sources correspond one to one, in order. */
  lemma {:induction false} WarningsInOrder(selected: seq<Source>, fetch: string -> Result<seq<FeedItem>>)
    ensures var r := Rejected(selected, fetch);
      |Warnings(selected, fetch)| == |r| &&
      forall i :: 0 <= i < |r| ==> Warnings(selected, fetch)[i] == WarningFor(r[i], fetch)
  {
    if selected != [] {
      var init := selected[..|selected| - 1];
      var s := selected[|selected| - 1];
      WarningsInOrder(init, fetch);
      var w0, r0 := Warnings(init, fetch), Rejected(init, fetch);
      if fetch(s.url).Err? {
        assert Warnings(selected, fetch) == w0 + [WarningFor(s, fetch)];
        assert Rejected(selected, fetch) == r0 + [s];
      } else {
        assert Warnings(selected, fetch) == w0 && Rejected(selected, fetch) == r0;
      }
    }
  }

  /**
   * The warnings are, in order, one per rejected source with its key, name
   * and error, and nothing else.
   */
  lemma {:induction false} WarningsSpec(selected: seq<Source>, fetch: string -> Result<seq<FeedItem>>)
    ensures forall w :: w in Warnings(selected, fetch) <==>
      exists s :: s in selected && fetch(s.url).Err? && w == Warning(s.key, s.name, fetch(s.url).error)
    ensures var r := Rejected(selected, fetch);
      |Warnings(selected, fetch)| == |r| &&
      forall i :: 0 <= i < |r| ==> Warnings(selected, fetch)[i] == WarningFor(r[i], fetch)
    ensures |Warnings(selected, fetch)| == |selected| <==> forall s :: s in selected ==> fetch(s.url).Err?
  {
    WarningsInOrder(selected, fetch);
    WarningsMembers(selected, fetch);
  }

  lemma {:induction false} WarningsMembers(selected: seq<Source>, fetch: string -> Result<seq<FeedItem>>)
    ensures forall w :: w in Warnings(selected, fetch) <==>
      exists s :: s in selected && fetch(s.url).Err? && w == Warning(s.key, s.name, fetch(s.url).error)
    ensures |Warnings(selected, fetch)| == |selected| <==> forall s :: s in selected ==> fetch(s.url).Err?
  {
    if selected != [] {
      var init := selected[..|selected| - 1];
      var s := selected[|selected| - 1];
      WarningsMembers(init, fetch);
      assert selected == init + [s];
      if forall x :: x in selected ==> fetch(x.url).Err? {
        assert forall x :: x in init ==> x in selected;
      }
    }
  }

  /**
   * Status 502 exactly when sources were selected and every one of them
   * failed; a partial failure still answers 200, with its warnings.
   */
  lemma BadGatewaySpec(all: seq<Source>, q: string, param: string, t: map<string, string>, fetch: string -> Result<seq<FeedItem>>,
                       done: seq<Source>, date: string -> int)
    requires multiset(done) == multiset(Selected(all, param))
    ensures Search(all, q, param, t, fetch, done, date).BadGateway? <==>
      Selected(all, param) != [] && forall s :: s in Selected(all, param) ==> fetch(s.url).Err?
  {
    var selected := Selected(all, param);
    WarningsSpec(selected, fetch);
    if selected != [] && forall s :: s in selected ==> fetch(s.url).Err? {
      forall s | s in done ensures fetch(s.url).Err? {
        assert s in multiset(done);
      }
      assert Collected(done, fetch, Matcher(q, t)) == [];
    }
  }

  /** Collecting two runs of completions in turn. */
  lemma {:induction false} CollectedAppend(a: seq<Source>, b: seq<Source>, fetch: string -> Result<seq<FeedItem>>,
                                           keep: FeedItem -> bool)
    ensures Collected(a + b, fetch, keep) == Collected(a, fetch, keep) + Collected(b, fetch, keep)
    decreases |b|
  {
    if b == [] {
      assert a + b == a;
    } else {
      var b', x := b[..|b| - 1], b[|b| - 1];
      AppendLast(a, b);
      CollectedAppend(a, b', fetch, keep);
      assert Collected(a + b, fetch, keep) == Collected(a + b', fetch, keep) + Contribution(x, fetch, keep);
      assert Collected(b, fetch, keep) == Collected(b', fetch, keep) + Contribution(x, fetch, keep);
      AppendAssoc(Collected(a, fetch, keep), Collected(b', fetch, keep), Contribution(x, fetch, keep));
    }
  }

  /** An element of `b` splits it around one of its occurrences. */
  lemma SplitAround<T>(b: seq<T>, x: T) returns (b1: seq<T>, b2: seq<T>)
    requires x in multiset(b)
    ensures b == b1 + [x] + b2
  {
    var j :| 0 <= j < |b| && b[j] == x;
    b1, b2 := b[..j], b[j + 1..];
  }

  /** Removing the same element from two equal multisets leaves equal multisets. */
  lemma Cancel<T>(a: seq<T>, x: T, b1: seq<T>, b2: seq<T>)
    requires multiset(a + [x]) == multiset(b1 + [x] + b2)
    ensures multiset(a) == multiset(b1 + b2)
  {
    assert multiset(a + [x]) == multiset(a) + multiset{x};
    assert multiset(b1 + [x] + b2) == multiset(b1) + multiset{x} + multiset(b2);
    assert multiset(b1 + b2) == multiset(b1) + multiset(b2);
    forall y ensures multiset(a)[y] == multiset(b1 + b2)[y] {
      assert (multiset(a) + multiset{x})[y] == (multiset(b1) + multiset{x} + multiset(b2))[y];
    }
  }

  /** Collecting around one completion in the middle. */
  lemma CollectedAround(b1: seq<Source>, x: Source, b2: seq<Source>, fetch: string -> Result<seq<FeedItem>>,
                        keep: FeedItem -> bool)
    ensures Collected(b1 + [x] + b2, fetch, keep) ==
      Collected(b1, fetch, keep) + Contribution(x, fetch, keep) + Collected(b2, fetch, keep)
  {
    CollectedAppend(b1, [x], fetch, keep);
    CollectedAppend(b1 + [x], b2, fetch, keep);
    assert [x][..0] == [];
  }

  /**
   * The completion order changes only the order of the collected items:
   * two completion orders of the same sources collect the same items.
   */
  lemma {:induction false} CollectedPerm(a: seq<Source>, b: seq<Source>, fetch: string -> Result<seq<FeedItem>>,
                                         keep: FeedItem -> bool)
    requires multiset(a) == multiset(b)
    ensures multiset(Collected(a, fetch, keep)) == multiset(Collected(b, fetch, keep))
    decreases |a|
  {
    if a == [] {
      assert |b| == |multiset(b)| == 0;
    } else {
      var x := a[|a| - 1];
      var a' := a[..|a| - 1];
      assert a == a' + [x];
      assert x in multiset(a);
      var b1, b2 := SplitAround(b, x);
      Cancel(a', x, b1, b2);
      CollectedPerm(a', b1 + b2, fetch, keep);
      CollectedAppend(b1, b2, fetch, keep);
      CollectedAround(b1, x, b2, fetch, keep);
      var c := Contribution(x, fetch, keep);
      var p, q := Collected(b1, fetch, keep), Collected(b2, fetch, keep);
      assert Collected(a, fetch, keep) == Collected(a', fetch, keep) + c;
      assert multiset(Collected(b, fetch, keep)) == multiset(p) + multiset(c) + multiset(q);
    }
  }

  /** Every collected item is the compact form of an accepted item of a source whose fetch succeeded. */
  lemma {:induction false} CollectedOrigin(done: seq<Source>, fetch: string -> Result<seq<FeedItem>>,
                                           keep: FeedItem -> bool, x: Item)
    requires x in Collected(done, fetch, keep)
    ensures exists s, it :: (s in done && fetch(s.url).Ok? && it in fetch(s.url).value &&
      keep(it) && x == Compact(it, s))
  {
    var init := done[..|done| - 1];
    var s := done[|done| - 1];
    if x in Collected(init, fetch, keep) {
      CollectedOrigin(init, fetch, keep, x);
      var s', it :| s' in init && fetch(s'.url).Ok? && it in fetch(s'.url).value && keep(it) && x == Compact(it, s');
      assert s' in done;
    } else {
      assert x in Contribution(s, fetch, keep);
      var it :| it in fetch(s.url).value && keep(it) && x == Compact(it, s);
    }
  }

  /** Conversely, every accepted item of a source that answered is collected. */
  lemma {:induction false} CollectedComplete(done: seq<Source>, fetch: string -> Result<seq<FeedItem>>,
                                             keep: FeedItem -> bool, s: Source, it: FeedItem)
    requires s in done && fetch(s.url).Ok? && it in fetch(s.url).value && keep(it)
    ensures Compact(it, s) in Collected(done, fetch, keep)
  {
    var init := done[..|done| - 1];
    var last := done[|done| - 1];
    assert done == init + [last];
    if s == last {
      assert Compact(it, s) in Contribution(last, fetch, keep);
    } else {
      assert s in init;
      CollectedComplete(init, fetch, keep, s, it);
    }
  }

  /**
   * A 200 answer lists at most 80 items, newest first, without repeated
   * identity keys, each one a matching item of a selected source that
   * answered; `count` is the number of distinct keys collected.
   */
  lemma FoundSpec(all: seq<Source>, q: string, param: string, t: map<string, string>, fetch: string -> Result<seq<FeedItem>>,
                  done: seq<Source>, date: string -> int)
    requires multiset(done) == multiset(Selected(all, param))
    requires Search(all, q, param, t, fetch, done, date).Found?
    ensures var r := Search(all, q, param, t, fetch, done, date);
      var items := Collected(done, fetch, Matcher(q, t));
      && r.count == |Dedup.KeySet(items, IdentityKey)|
      && |r.items| == Min(r.count, MAX_ITEMS)
      && Dedup.KeysDistinct(r.items, IdentityKey)
      && SortedNewest(r.items, Time(date))
      && (forall x :: x in r.items ==> exists s, it :: (s in Selected(all, param) && fetch(s.url).Ok? &&
            it in fetch(s.url).value && Matches(it, q, t) && x == Compact(it, s)))
      && (forall s, it :: s in Selected(all, param) && fetch(s.url).Ok? && it in fetch(s.url).value && Matches(it, q, t) ==>
            IdentityKey(Compact(it, s)) in Dedup.KeySet(items, IdentityKey) &&
            (r.count <= MAX_ITEMS ==> exists y :: y in r.items && IdentityKey(y) == IdentityKey(Compact(it, s))))
  {
    var selected := Selected(all, param);
    var items := Collected(done, fetch, Matcher(q, t));
    ArrangeSpec(items, date);
    forall s, it | s in selected && fetch(s.url).Ok? && it in fetch(s.url).value && Matches(it, q, t)
      ensures IdentityKey(Compact(it, s)) in Dedup.KeySet(items, IdentityKey)
      ensures Arrange(items, date).count <= MAX_ITEMS ==>
        exists y :: y in Arrange(items, date).items && IdentityKey(y) == IdentityKey(Compact(it, s))
    {
      assert s in multiset(done);
      CollectedComplete(done, fetch, Matcher(q, t), s, it);
      ArrangeCovers(items, date, Compact(it, s));
    }
    forall x | x in Search(all, q, param, t, fetch, done, date).items
      ensures exists s, it :: (s in selected && fetch(s.url).Ok? &&
        it in fetch(s.url).value && Matches(it, q, t) && x == Compact(it, s))
    {
      CollectedOrigin(done, fetch, Matcher(q, t), x);
      var s, it :| s in done && fetch(s.url).Ok? && it in fetch(s.url).value && Matcher(q, t)(it) && x == Compact(it, s);
      assert s in multiset(done);
    }
  }

  /** The `items.push` calls of the fetch callbacks, in completion order. */
  method CollectMatches(done: seq<Source>, fetch: string -> Result<seq<FeedItem>>, keep: FeedItem -> bool)
    returns (items: seq<Item>)
    ensures items == Collected(done, fetch, keep)
  {
    items := [];
    for k := 0 to |done|
      invariant items == Collected(done[..k], fetch, keep)
    {
      assert done[..k + 1][..k] == done[..k];
      var outcome := fetch(done[k].url);
      if outcome.Ok? {
        items := PushMatching(items, outcome.value, done[k], keep);
      }
    }
    Common.SliceAll(done);
  }

  /** `results.forEach`: a warning for each rejected fetch, in selection order. */
  method CollectWarnings(selected: seq<Source>, fetch: string -> Result<seq<FeedItem>>)
    returns (warnings: seq<Warning>)
    ensures warnings == Warnings(selected, fetch)
  {
    warnings := [];
    for i := 0 to |selected|
      invariant warnings == Warnings(selected[..i], fetch)
    {
      Common.SliceSnoc(selected, i);
      var outcome := fetch(selected[i].url);
      if outcome.Err? {
        warnings := warnings + [Warning(selected[i].key, selected[i].name, outcome.error)];
      }
    }
    Common.SliceAll(selected);
  }

  /** The handler: selection, the pushes as fetches complete, the warnings, the 502 rule, and the listing. */
  method Handle(all: seq<Source>, q: string, param: string, t: map<string, string>, fetch: string -> Result<seq<FeedItem>>,
                done: seq<Source>, date: string -> int) returns (resp: Response)
    requires multiset(done) == multiset(Selected(all, param))
    ensures resp == Search(all, q, param, t, fetch, done, date)
  {
    var selected := Select(all, Keys(param));
    if |selected| == 0 {
      return BadRequest;
    }
    var items := CollectMatches(done, fetch, Matcher(q, t));
    var warnings := CollectWarnings(selected, fetch);
    if |items| == 0 && |warnings| == |selected| {
      return BadGateway(warnings);
    }
    var listing := ArrangeItems(items, date);
    resp := Found(q, listing.count, listing.items, warnings);
  }

  /** The handler as deployed: the feed list and the translation table of the module. */
  function Respond(q: string, param: string, fetch: string -> Result<seq<FeedItem>>, done: seq<Source>,
                   date: string -> int): Response
    requires multiset(done) == multiset(Selected(SOURCES, param))
  {
    Search(SOURCES, q, param, TOKEN_TRANSLATIONS, fetch, done, date)
  }
}
