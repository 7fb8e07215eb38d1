/**
 * What the two news-search handlers share: feed items and their compact
 * form, the text a query is matched against, the query tokens, the
 * newest-first ordering, the identity key used to drop repeats, and the
 * truncated response list.
 */
module News {
  import opened Common
  import opened Text
  import Dedup

  /** A feed source: `{ key, name, url }`. */
  datatype Source = Source(key: string, name: string, url: string)

  /** An item of a parsed feed; "" stands for a field that is missing. */
  datatype FeedItem = FeedItem(title: string, link: string, isoDate: string, pubDate: string,
                               contentSnippet: string, content: string, summary: string)

  /** An item of the response. */
  datatype Item = Item(sourceKey: string, sourceName: string, title: string, link: string,
                       pubDate: string, snippet: string)

  const SNIPPET_LENGTH := 320
  const MAX_ITEMS := 80

  /** `a || b` on strings. */
  function Or(a: string, b: string): (r: string)
    ensures r == a || r == b
    ensures r == "" <==> a == "" && b == ""
    ensures a != "" ==> r == a
  {
    if a != "" then a else b
  }

  /** `s.slice(0, n)`. */
  function Take<T>(s: seq<T>, n: nat): (r: seq<T>)
    ensures |r| == Min(|s|, n)
    ensures r == s[..|r|]
  {
    if |s| <= n then s else s[..n]
  }

  /** `compactItem(it, source)`. */
  function Compact(it: FeedItem, s: Source): (r: Item)
    ensures r.sourceKey == s.key && r.sourceName == s.name
    ensures r.title == it.title && r.link == it.link
    ensures r.pubDate == Or(it.isoDate, it.pubDate)
    ensures var text := Or(it.contentSnippet, it.summary);
      |r.snippet| == Min(|text|, SNIPPET_LENGTH) && r.snippet == text[..|r.snippet|]
  {
    Item(s.key, s.name, it.title, it.link, Or(it.isoDate, it.pubDate),
         Take(Or(it.contentSnippet, it.summary), SNIPPET_LENGTH))
  }

  /** The non-empty strings of `xs`, in order (`filter(Boolean)`). */
  function NonEmpty(xs: seq<string>): (r: seq<string>)
    ensures forall p :: p in r <==> p in xs && p != ""
  {
    if xs == [] then []
    else
      var rest := NonEmpty(xs[1..]);
      assert forall p :: p in xs <==> p == xs[0] || p in xs[1..];
      if xs[0] != "" then [xs[0]] + rest else rest
  }

  /** The text a query is matched against: the normalised join of the four text fields. */
  function Haystack(it: FeedItem): (r: string)
    ensures IsNormalized(r)
  {
    Normalize(Join(NonEmpty([it.title, it.contentSnippet, it.content, it.summary]), " "))
  }

  /** `hay.includes(t)`. */
  predicate Contains(hay: string, t: string)
  {
    |t| <= |hay| && (hay[..|t|] == t || Contains(hay[1..], t))
  }

  /** `t` is contained in `hay` exactly when it occurs at some position. */
  lemma {:induction false} ContainsAt(hay: string, t: string)
    ensures Contains(hay, t) <==> exists i :: 0 <= i <= |hay| - |t| && hay[i..][..|t|] == t
  {
    if |t| <= |hay| && hay[..|t|] != t {
      ContainsAt(hay[1..], t);
      if exists i :: 0 <= i <= |hay| - |t| && hay[i..][..|t|] == t {
        var i :| 0 <= i <= |hay| - |t| && hay[i..][..|t|] == t;
        assert i != 0;
        assert hay[1..][i - 1..] == hay[i..];
      }
      if Contains(hay[1..], t) {
        var i :| 0 <= i <= |hay[1..]| - |t| && hay[1..][i..][..|t|] == t;
        assert hay[1..][i..] == hay[i + 1..];
      }
    } else if |t| <= |hay| {
      assert hay[0..] == hay;
    }
  }

  /** `q.split(" ").filter(Boolean)`. */
  function Tokens(q: string): (r: seq<string>)
    ensures forall t :: t in r ==> t != "" && ' ' !in t
    ensures forall t :: t in r <==> t in Split(q, ' ') && t != ""
  {
    SplitJoin(q, ' ');
    var r := NonEmpty(Split(q, ' '));
    assert forall t :: t in r ==> t in Split(q, ' ') && t != "";
    r
  }

  /** A non-blank string has at least one token. */
  lemma {:induction false} TokensNonEmpty(q: string)
    requires q != "" && q[0] != ' '
    ensures Tokens(q) != []
  {
    SplitHead(q, ' ');
    assert Split(q, ' ')[0] in Split(q, ' ');
  }

  /** The tokens of a normalised string are themselves normalised words. */
  lemma TokensNormalized(q: string, t: string)
    requires IsNormalized(q) && t in Tokens(q)
    ensures IsNormalized(t)
  {
    SplitJoin(q, ' ');
    TokenChars(Split(q, ' '), t, q);
  }

  lemma {:induction false} TokenChars(parts: seq<string>, t: string, q: string)
    requires t in parts && Join(parts, " ") == q
    requires forall i :: 0 <= i < |q| ==> IsNormalChar(q[i])
    requires t != "" && ' ' !in t
    ensures IsNormalized(t)
  {
    JoinParts(parts, t);
    forall i | 0 <= i < |t| ensures IsNormalChar(t[i]) && t[i] != ' ' {
      assert t[i] in t && t[i] in q;
    }
  }

  lemma {:induction false} JoinParts(parts: seq<string>, t: string)
    requires t in parts
    ensures forall c :: c in t ==> c in Join(parts, " ")
  {
    if |parts| > 1 {
      if t != parts[0] {
        JoinParts(parts[1..], t);
      }
      assert Join(parts, " ") == parts[0] + " " + Join(parts[1..], " ");
    }
  }

  /** `s.trim()` of every element. */
  function TrimAll(xs: seq<string>): (r: seq<string>)
    ensures |r| == |xs| && forall i :: 0 <= i < |xs| ==> r[i] == Trim(xs[i])
  {
    seq(|xs|, i requires 0 <= i < |xs| => Trim(xs[i]))
  }

  /**
   * `(param || "").split(",").map(s => s.trim()).filter(Boolean)`: the
   * requested source keys. A key is a non-empty trimmed piece of the
   * parameter between commas, so it never holds a comma.
   */
  function Keys(param: string): (r: seq<string>)
    ensures forall k :: k in r <==> k != "" && exists p :: p in Split(param, ',') && Trim(p) == k
    ensures forall k :: k in r ==> ',' !in k
  {
    KeysMembers(param);
    NonEmpty(TrimAll(Split(param, ',')))
  }

  lemma KeysMembers(param: string)
    ensures forall k :: k in NonEmpty(TrimAll(Split(param, ','))) <==>
      k != "" && exists p :: p in Split(param, ',') && Trim(p) == k
    ensures forall k :: k in NonEmpty(TrimAll(Split(param, ','))) ==> ',' !in k
  {
    var pieces := Split(param, ',');
    SplitJoin(param, ',');
    forall k
      ensures k in NonEmpty(TrimAll(pieces)) <==> k != "" && exists p :: p in pieces && Trim(p) == k
      ensures k in NonEmpty(TrimAll(pieces)) ==> ',' !in k
    {
      TrimAllMembers(pieces, k);
      assert k in NonEmpty(TrimAll(pieces)) <==> k in TrimAll(pieces) && k != "";
      if k in NonEmpty(TrimAll(pieces)) {
        var p :| p in pieces && Trim(p) == k;
        TrimInside(p);
      }
    }
  }

  lemma TrimAllMembers(xs: seq<string>, k: string)
    ensures k in TrimAll(xs) <==> exists p :: p in xs && Trim(p) == k
  {
    var r := TrimAll(xs);
    if k in r {
      var i :| 0 <= i < |r| && r[i] == k;
      assert xs[i] in xs;
    }
    if exists p :: p in xs && Trim(p) == k {
      var p :| p in xs && Trim(p) == k;
      var i :| 0 <= i < |xs| && xs[i] == p;
      assert r[i] == k;
    }
  }

  /** Trimming only removes characters. */
  lemma TrimInside(s: string)
    ensures forall c :: c in Trim(s) ==> c in s
  {
    var a := TrimStart(s);
    assert forall c :: c in a ==> c in s;
    assert forall c :: c in TrimEnd(a) ==> c in a;
  }

  /** `list.filter(s => keys.includes(s.key))`. */
  function WithKeys(list: seq<Source>, keys: seq<string>): (r: seq<Source>)
    ensures |r| <= |list|
    ensures forall s :: s in r <==> s in list && s.key in keys
  {
    if list == [] then []
    else
      var rest := WithKeys(list[1..], keys);
      assert forall s :: s in list <==> s == list[0] || s in list[1..];
      if list[0].key in keys then [list[0]] + rest else rest
  }

  /** The filter keeps the list's own order. */
  lemma {:induction false} WithKeysOrder(list: seq<Source>, keys: seq<string>)
    ensures Dedup.Subseq(WithKeys(list, keys), list)
  {
    if list != [] {
      var rest := WithKeys(list[1..], keys);
      WithKeysOrder(list[1..], keys);
      SubseqCons(rest, list[1..], list[0], list[0].key in keys);
      assert list == [list[0]] + list[1..];
      assert WithKeys(list, keys) == if list[0].key in keys then [list[0]] + rest else rest;
    }
  }

  lemma {:induction false} SubseqCons<T>(a: seq<T>, b: seq<T>, x: T, keep: bool)
    requires Dedup.Subseq(a, b)
    ensures Dedup.Subseq(if keep then [x] + a else a, [x] + b)
    decreases |b|
  {
    if b == [] {
      assert a == [];
      if keep {
        assert ([x] + a)[..0] == [] && ([x] + b)[..0] == [];
      }
    } else {
      var a' := if keep then [x] + a else a;
      var b' := [x] + b;
      assert b'[..|b'| - 1] == [x] + b[..|b| - 1];
      if a != [] && a[|a| - 1] == b[|b| - 1] {
        SubseqCons(a[..|a| - 1], b[..|b| - 1], x, keep);
        assert a'[|a'| - 1] == b'[|b'| - 1];
        assert a'[..|a'| - 1] == if keep then [x] + a[..|a| - 1] else a[..|a| - 1];
      } else if a == [] && !keep {
      } else if a == [] {
        assert Dedup.Subseq(a, b[..|b| - 1]);
        SubseqCons(a, b[..|b| - 1], x, keep);
      } else {
        SubseqCons(a, b[..|b| - 1], x, keep);
        assert a'[|a'| - 1] == a[|a| - 1];
      }
    }
  }

  /** The compact forms of the items of `feed` that `keep` accepts, in feed order. */
  function Matching(feed: seq<FeedItem>, s: Source, keep: FeedItem -> bool): (r: seq<Item>)
    ensures |r| <= |feed|
    ensures forall x :: x in r <==> exists it :: it in feed && keep(it) && x == Compact(it, s)
  {
    if feed == [] then []
    else
      var init := Matching(feed[..|feed| - 1], s, keep);
      var it := feed[|feed| - 1];
      assert feed == feed[..|feed| - 1] + [it];
      if keep(it) then init + [Compact(it, s)] else init
  }

  /** One source's `for (const it of feed.items || [])` loop pushing the matching items. */
  method PushMatching(items: seq<Item>, feed: seq<FeedItem>, s: Source, keep: FeedItem -> bool) returns (out: seq<Item>)
    ensures out == items + Matching(feed, s, keep)
  {
    out := items;
    for i := 0 to |feed|
      invariant out == items + Matching(feed[..i], s, keep)
    {
      Common.SliceSnoc(feed, i);
      if keep(feed[i]) {
        out := out + [Compact(feed[i], s)];
      }
    }
    Common.SliceAll(feed);
  }

  /** `new Date(item.pubDate || 0)` in milliseconds; `date` parses a non-empty date text. */
  function Time(date: string -> int): Item -> int
  {
    (it: Item) => if it.pubDate == "" then 0 else date(it.pubDate)
  }

  /** `it.link || (it.sourceName + it.title)`. */
  function IdentityKey(it: Item): (k: string)
    ensures it.link != "" ==> k == it.link
    ensures it.link == "" ==> k == it.sourceName + it.title
  {
    if it.link != "" then it.link else it.sourceName + it.title
  }

  /** Newest first: the key never increases along the sequence. */
  predicate SortedNewest<T>(s: seq<T>, key: T -> int)
  {
    forall i, j :: 0 <= i < j < |s| ==> key(s[i]) >= key(s[j])
  }

  /** `x` placed before the first element that is not newer than it. */
  function Insert<T>(x: T, s: seq<T>, key: T -> int): seq<T>
  {
    if s == [] || key(x) >= key(s[0]) then [x] + s else [s[0]] + Insert(x, s[1..], key)
  }

  /**
   * The stable newest-first sort `items.sort((a, b) => time(b) - time(a))`:
   * a permutation of its input, newest first.
   */
  function SortNewest<T>(xs: seq<T>, key: T -> int): (r: seq<T>)
    ensures multiset(r) == multiset(xs)
    ensures SortedNewest(r, key)
  {
    if xs == [] then []
    else
      var rest := SortNewest(xs[1..], key);
      InsertPerm(xs[0], rest, key);
      InsertSorted(xs[0], rest, key);
      assert xs == [xs[0]] + xs[1..];
      Insert(xs[0], rest, key)
  }

  /** The elements with key `t`, in order. */
  function WithKey<T>(s: seq<T>, key: T -> int, t: int): seq<T>
  {
    if s == [] then [] else (if key(s[0]) == t then [s[0]] else []) + WithKey(s[1..], key, t)
  }

  lemma {:induction false} InsertPerm<T>(x: T, s: seq<T>, key: T -> int)
    ensures multiset(Insert(x, s, key)) == multiset(s) + multiset{x}
  {
    if s != [] && key(x) < key(s[0]) {
      InsertPerm(x, s[1..], key);
      assert s == [s[0]] + s[1..];
    }
  }

  lemma {:induction false} InsertSorted<T>(x: T, s: seq<T>, key: T -> int)
    requires SortedNewest(s, key)
    ensures SortedNewest(Insert(x, s, key), key)
  {
    if s != [] && key(x) < key(s[0]) {
      var rest := s[1..];
      SortedTail(s, key);
      InsertSorted(x, rest, key);
      InsertBound(x, rest, key, key(s[0]));
      SortedCons(s[0], Insert(x, rest, key), key);
    } else {
      assert forall i :: 0 <= i < |s| ==> key(s[i]) <= key(x) by {
        forall i | 0 <= i < |s| ensures key(s[i]) <= key(x) {
          if i > 0 {
            assert key(s[0]) >= key(s[i]);
          }
        }
      }
      SortedCons(x, s, key);
    }
  }

  lemma SortedTail<T>(s: seq<T>, key: T -> int)
    requires s != [] && SortedNewest(s, key)
    ensures SortedNewest(s[1..], key)
    ensures forall i :: 0 <= i < |s[1..]| ==> key(s[1..][i]) <= key(s[0])
  {
    var rest := s[1..];
    forall i, j | 0 <= i < j < |rest| ensures key(rest[i]) >= key(rest[j]) {
      assert rest[i] == s[i + 1] && rest[j] == s[j + 1];
    }
    forall i | 0 <= i < |rest| ensures key(rest[i]) <= key(s[0]) {
      assert rest[i] == s[i + 1];
    }
  }

  lemma SortedCons<T>(h: T, r: seq<T>, key: T -> int)
    requires SortedNewest(r, key)
    requires forall i :: 0 <= i < |r| ==> key(r[i]) <= key(h)
    ensures SortedNewest([h] + r, key)
  {
    var s := [h] + r;
    forall i, j | 0 <= i < j < |s| ensures key(s[i]) >= key(s[j]) {
      assert s[j] == r[j - 1];
      if i > 0 {
        assert s[i] == r[i - 1];
      }
    }
  }

  /** Inserting keeps a common upper bound of the keys. */
  lemma {:induction false} InsertBound<T>(x: T, s: seq<T>, key: T -> int, b: int)
    requires key(x) <= b
    requires forall i :: 0 <= i < |s| ==> key(s[i]) <= b
    ensures forall i :: 0 <= i < |Insert(x, s, key)| ==> key(Insert(x, s, key)[i]) <= b
  {
    var r := Insert(x, s, key);
    if s == [] || key(x) >= key(s[0]) {
      assert r == [x] + s;
      forall i | 0 <= i < |r| ensures key(r[i]) <= b {
        if i > 0 {
          assert r[i] == s[i - 1];
        }
      }
    } else {
      var rest := s[1..];
      assert forall i :: 0 <= i < |rest| ==> key(rest[i]) <= b by {
        forall i | 0 <= i < |rest| ensures key(rest[i]) <= b {
          assert rest[i] == s[i + 1];
        }
      }
      InsertBound(x, rest, key, b);
      var ins := Insert(x, rest, key);
      assert r == [s[0]] + ins;
      forall i | 0 <= i < |r| ensures key(r[i]) <= b {
        if i > 0 {
          assert r[i] == ins[i - 1];
        }
      }
    }
  }

  lemma {:induction false} InsertWithKey<T>(x: T, s: seq<T>, key: T -> int, t: int)
    ensures WithKey(Insert(x, s, key), key, t) == (if key(x) == t then [x] else []) + WithKey(s, key, t)
  {
    if s == [] || key(x) >= key(s[0]) {
      var r := [x] + s;
      assert Insert(x, s, key) == r && r[0] == x && r[1..] == s;
    } else {
      var ins := Insert(x, s[1..], key);
      InsertWithKey(x, s[1..], key, t);
      var r := [s[0]] + ins;
      assert Insert(x, s, key) == r && r[0] == s[0] && r[1..] == ins;
      assert WithKey(r, key, t) == (if key(s[0]) == t then [s[0]] else []) + WithKey(ins, key, t);
      assert WithKey(s, key, t) == (if key(s[0]) == t then [s[0]] else []) + WithKey(s[1..], key, t);
    }
  }

  /** The sort keeps the input order of items with the same time (stability). */
  lemma {:induction false} SortSpec<T>(xs: seq<T>, key: T -> int)
    ensures forall t :: WithKey(SortNewest(xs, key), key, t) == WithKey(xs, key, t)
  {
    if xs != [] {
      var rest := SortNewest(xs[1..], key);
      SortSpec(xs[1..], key);
      assert xs == [xs[0]] + xs[1..];
      forall t ensures WithKey(SortNewest(xs, key), key, t) == WithKey(xs, key, t) {
        InsertWithKey(xs[0], rest, key, t);
      }
    }
  }

  /** The de-duplicated, newest-first list and its first `MAX_ITEMS` items. */
  datatype Listing = Listing(count: nat, items: seq<Item>)

  /**
   * Lines 111-124 of the OR handler, 67-80 of the AND handler: sort, drop
   * repeats, count, truncate. The count never exceeds the input, at most
   * `MAX_ITEMS` items are listed, and each one is an input item.
   */
  function Arrange(items: seq<Item>, date: string -> int): (l: Listing)
    ensures l.count <= |items|
    ensures |l.items| == Min(l.count, MAX_ITEMS)
    ensures forall x :: x in l.items ==> x in items
  {
    var sorted := SortNewest(items, Time(date));
    var d := Dedup.Dedup(sorted, IdentityKey);
    Dedup.DedupShorter(sorted, IdentityKey);
    Dedup.DedupMembers(sorted, IdentityKey);
    var p := Take(d, MAX_ITEMS);
    forall x | x in p ensures x in items {
      var i :| 0 <= i < |p| && p[i] == x;
      assert x == d[i];
      assert x in d && x in sorted && x in multiset(sorted);
    }
    Listing(|d|, p)
  }

  /**
   * The count is the number of distinct identity keys among the items; the
   * listed items are at most `MAX_ITEMS`, newest first, no two sharing a
   * key, and each the first of its key in the sorted list.
   */
  lemma ArrangeSpec(items: seq<Item>, date: string -> int)
    ensures var l := Arrange(items, date);
      var sorted := SortNewest(items, Time(date));
      var d := Dedup.Dedup(sorted, IdentityKey);
      && l.count == |Dedup.KeySet(items, IdentityKey)|
      && |l.items| == Min(l.count, MAX_ITEMS)
      && l.items == d[..|l.items|]
      && Dedup.KeysDistinct(l.items, IdentityKey)
      && SortedNewest(l.items, Time(date))
      && (forall i :: 0 <= i < |l.items| ==>
            IdentityKey(l.items[i]) in Dedup.KeySet(sorted, IdentityKey) &&
            l.items[i] == sorted[Dedup.FirstIndex(sorted, IdentityKey, IdentityKey(l.items[i]))])
  {
    var key := Time(date);
    var sorted := SortNewest(items, key);
    var d := Dedup.Dedup(sorted, IdentityKey);
    var l := Arrange(items, date);
    SortSpec(items, key);
    ArrangeCount(items, sorted);
    PrefixOrdered(sorted, |l.items|, key);
    PrefixFirst(sorted, |l.items|);
  }

  /** The count of a de-duplicated permutation of `items` is the number of keys of `items`. */
  lemma ArrangeCount(items: seq<Item>, sorted: seq<Item>)
    requires multiset(sorted) == multiset(items)
    ensures |Dedup.Dedup(sorted, IdentityKey)| == |Dedup.KeySet(items, IdentityKey)|
  {
    var d := Dedup.Dedup(sorted, IdentityKey);
    Dedup.DedupKeys(sorted, IdentityKey);
    Dedup.DedupDistinct(sorted, IdentityKey);
    KeySetPerm(items, sorted);
    Dedup.DistinctKeysCount(d, IdentityKey);
  }

  /**
   * No item is lost: its key is counted, and when no more than `MAX_ITEMS`
   * keys are counted, some listed item carries it.
   */
  lemma ArrangeCovers(items: seq<Item>, date: string -> int, x: Item)
    requires x in items
    ensures IdentityKey(x) in Dedup.KeySet(items, IdentityKey)
    ensures Arrange(items, date).count <= MAX_ITEMS ==>
      exists y :: y in Arrange(items, date).items && IdentityKey(y) == IdentityKey(x)
  {
    var sorted := SortNewest(items, Time(date));
    var d := Dedup.Dedup(sorted, IdentityKey);
    Dedup.KeySetMembers(items, IdentityKey);
    SortSpec(items, Time(date));
    KeySetPerm(items, sorted);
    Dedup.DedupKeys(sorted, IdentityKey);
    Dedup.KeySetMembers(d, IdentityKey);
    var i :| 0 <= i < |d| && IdentityKey(d[i]) == IdentityKey(x);
    if |d| <= MAX_ITEMS {
      assert Take(d, MAX_ITEMS) == d;
      assert d[i] in Arrange(items, date).items;
    }
  }

  /** A prefix of the de-duplicated sorted list is sorted and free of repeated keys. */
  lemma PrefixOrdered(sorted: seq<Item>, n: nat, key: Item -> int)
    requires SortedNewest(sorted, key)
    requires n <= |Dedup.Dedup(sorted, IdentityKey)|
    ensures var p := Dedup.Dedup(sorted, IdentityKey)[..n];
      Dedup.KeysDistinct(p, IdentityKey) && SortedNewest(p, key)
  {
    var d := Dedup.Dedup(sorted, IdentityKey);
    var p := d[..n];
    Dedup.DedupDistinct(sorted, IdentityKey);
    forall i, j | 0 <= i < j < |p| ensures IdentityKey(p[i]) != IdentityKey(p[j]) && key(p[i]) >= key(p[j]) {
      assert p[i] == d[i] && p[j] == d[j];
      DedupOrder(sorted, d, i, j, key);
    }
  }

  /** Each element of a prefix of the de-duplicated list is the first of its key, and so taken from the list. */
  lemma PrefixFirst(sorted: seq<Item>, n: nat)
    requires n <= |Dedup.Dedup(sorted, IdentityKey)|
    ensures var p := Dedup.Dedup(sorted, IdentityKey)[..n];
      && (forall i :: 0 <= i < |p| ==>
            IdentityKey(p[i]) in Dedup.KeySet(sorted, IdentityKey) &&
            p[i] == sorted[Dedup.FirstIndex(sorted, IdentityKey, IdentityKey(p[i]))])
      && (forall x :: x in p ==> x in sorted)
  {
    var d := Dedup.Dedup(sorted, IdentityKey);
    var p := d[..n];
    Dedup.DedupFirst(sorted, IdentityKey);
    forall i | 0 <= i < |p|
      ensures IdentityKey(p[i]) in Dedup.KeySet(sorted, IdentityKey)
      ensures p[i] == sorted[Dedup.FirstIndex(sorted, IdentityKey, IdentityKey(p[i]))]
    {
      assert p[i] == d[i];
    }
    forall x | x in p ensures x in sorted {
      var i :| 0 <= i < |p| && p[i] == x;
      assert x == sorted[Dedup.FirstIndex(sorted, IdentityKey, IdentityKey(p[i]))];
    }
  }

  /** Permuted lists have the same identity keys. */
  lemma KeySetPerm(xs: seq<Item>, ys: seq<Item>)
    requires multiset(xs) == multiset(ys)
    ensures Dedup.KeySet(xs, IdentityKey) == Dedup.KeySet(ys, IdentityKey)
  {
    Dedup.KeySetMembers(xs, IdentityKey);
    Dedup.KeySetMembers(ys, IdentityKey);
    forall k | k in Dedup.KeySet(xs, IdentityKey) ensures k in Dedup.KeySet(ys, IdentityKey) {
      var i :| 0 <= i < |xs| && IdentityKey(xs[i]) == k;
      assert xs[i] in multiset(ys);
      var j :| 0 <= j < |ys| && ys[j] == xs[i];
    }
    forall k | k in Dedup.KeySet(ys, IdentityKey) ensures k in Dedup.KeySet(xs, IdentityKey) {
      var i :| 0 <= i < |ys| && IdentityKey(ys[i]) == k;
      assert ys[i] in multiset(xs);
      var j :| 0 <= j < |xs| && xs[j] == ys[i];
    }
  }

  /** Dropping repeats keeps the order of the sorted list. */
  lemma DedupOrder(sorted: seq<Item>, d: seq<Item>, i: nat, j: nat, key: Item -> int)
    requires SortedNewest(sorted, key)
    requires d == Dedup.Dedup(sorted, IdentityKey)
    requires i < j < |d|
    ensures key(d[i]) >= key(d[j])
  {
    Dedup.DedupFirst(sorted, IdentityKey);
    Dedup.DedupDistinct(sorted, IdentityKey);
    var a := Dedup.FirstIndex(sorted, IdentityKey, IdentityKey(d[i]));
    var b := Dedup.FirstIndex(sorted, IdentityKey, IdentityKey(d[j]));
    Dedup.DedupPositions(sorted, IdentityKey, d, i, j);
    assert d[i] == sorted[a] && d[j] == sorted[b];
  }

  /** The two loops after the sort: the `seen` set drops repeats, and the response keeps at most 80. */
  method ArrangeItems(items: seq<Item>, date: string -> int) returns (l: Listing)
    ensures l == Arrange(items, date)
  {
    var sorted := SortNewest(items, Time(date));
    var dedup := Dedup.RemoveRepeats(sorted, IdentityKey);
    l := Listing(|dedup|, Take(dedup, MAX_ITEMS));
  }
}
