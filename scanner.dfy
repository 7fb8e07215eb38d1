/**
 * `extractRankingEntries`: a depth-first walk over an arbitrary JSON tree
 * collecting every object that looks like a ranking record and every
 * element of an array made only of ranking rows, followed by removal of
 * structural repeats (first occurrence kept).
 */
module RankingScanner {
  import opened Common
  import opened Json
  import Dedup

  /** An array element the scanner accepts: an object with `rank` or `ranking`. */
  predicate IsRankingRow(j: Json)
  {
    j.JObj? && (Has(j, "rank") || Has(j, "ranking"))
  }

  /** `value.length && value.every(item => item && typeof item === "object" && ("rank" in item || "ranking" in item))`. */
  predicate IsRankingList(items: seq<Json>)
  {
    |items| > 0 && forall i :: 0 <= i < |items| ==> IsRankingRow(items[i])
  }

  /** An object with `rank` and one of `country`, `country_name`, `name`, `countryName`. */
  predicate IsRankingRecord(j: Json)
  {
    j.JObj? && Has(j, "rank") &&
    (Has(j, "country") || Has(j, "country_name") || Has(j, "name") || Has(j, "countryName"))
  }

  /**
   * What `walk(v)` pushes onto `matches`, in push order: nothing for a falsy
   * or scalar node, and otherwise only ranking records and ranking rows.
   */
  function Scan(v: Json): (r: seq<Json>)
    ensures !Truthy(v) || !(v.JArr? || v.JObj?) ==> r == []
    ensures forall x :: x in r ==> IsRankingRecord(x) || IsRankingRow(x)
    decreases v, 1
  {
    if !Truthy(v) then []
    else match v
      case JArr(items) => (if IsRankingList(items) then items else []) + ScanAll(items, v)
      case JObj(ms) => (if IsRankingRecord(v) then [v] else []) + ScanAll(Values(ms), v)
      case _ => []
  }

  /** `forEach(walk)` over the children `vs` of `parent`. */
  function ScanAll(vs: seq<Json>, ghost parent: Json): (r: seq<Json>)
    requires forall i :: 0 <= i < |vs| ==> vs[i] < parent
    ensures forall x :: x in r ==> IsRankingRecord(x) || IsRankingRow(x)
    decreases parent, 0, |vs|
  {
    if vs == [] then [] else ScanAll(vs[..|vs| - 1], parent) + Scan(vs[|vs| - 1])
  }

  /** `x` is a node of the tree `v` (or `v` itself). */
  ghost predicate Occurs(x: Json, v: Json)
  {
    x == v ||
    match v
    case JArr(items) => exists i :: 0 <= i < |items| && Occurs(x, items[i])
    case JObj(ms) => exists i :: 0 <= i < |ms| && Occurs(x, ms[i].1)
    case _ => false
  }

  /**
   * The nodes the scanner is meant to find, as a relation: a ranking record
   * anywhere in the tree, or an element of an array of ranking rows.
   */
  ghost predicate Found(x: Json, v: Json)
  {
    match v
    case JArr(items) =>
      (IsRankingList(items) && x in items) || exists i :: 0 <= i < |items| && Found(x, items[i])
    case JObj(ms) =>
      (x == v && IsRankingRecord(v)) || exists i :: 0 <= i < |ms| && Found(x, ms[i].1)
    case _ => false
  }

  /** A found node occurs in the tree and has one of the two accepted shapes. */
  lemma {:induction false} FoundShape(x: Json, v: Json)
    requires Found(x, v)
    ensures Occurs(x, v)
    ensures IsRankingRecord(x) || IsRankingRow(x)
  {
    match v
    case JArr(items) =>
      if IsRankingList(items) && x in items {
        var i :| 0 <= i < |items| && items[i] == x;
        assert Occurs(x, items[i]);
      } else {
        var i :| 0 <= i < |items| && Found(x, items[i]);
        FoundShape(x, items[i]);
      }
    case JObj(ms) =>
      if x != v || !IsRankingRecord(v) {
        var i :| 0 <= i < |ms| && Found(x, ms[i].1);
        FoundShape(x, ms[i].1);
      }
  }

  /** The walk pushes exactly the found nodes. */
  lemma {:induction false} ScanExact(x: Json, v: Json)
    ensures x in Scan(v) <==> Found(x, v)
    decreases v, 1
  {
    match v
    case JArr(items) => ScanAllExact(x, items, v);
    case JObj(ms) =>
      ScanAllExact(x, Values(ms), v);
      assert forall i :: 0 <= i < |ms| ==> Values(ms)[i] == ms[i].1;
      if exists i :: 0 <= i < |ms| && Found(x, ms[i].1) {
        var i :| 0 <= i < |ms| && Found(x, ms[i].1);
        assert Found(x, Values(ms)[i]);
      }
    case _ =>
  }

  lemma {:induction false} ScanAllExact(x: Json, vs: seq<Json>, parent: Json)
    requires forall i :: 0 <= i < |vs| ==> vs[i] < parent
    ensures x in ScanAll(vs, parent) <==> exists i :: 0 <= i < |vs| && Found(x, vs[i])
    decreases parent, 0, |vs|
  {
    if vs != [] {
      var init := vs[..|vs| - 1];
      var last := vs[|vs| - 1];
      ScanAllExact(x, init, parent);
      ScanExact(x, last);
      assert ScanAll(vs, parent) == ScanAll(init, parent) + Scan(last);
      if exists i :: 0 <= i < |vs| && Found(x, vs[i]) {
        var i :| 0 <= i < |vs| && Found(x, vs[i]);
        if i < |init| {
          assert init[i] == vs[i];
        }
      }
      if exists i :: 0 <= i < |init| && Found(x, init[i]) {
        var i :| 0 <= i < |init| && Found(x, init[i]);
        assert init[i] == vs[i];
      }
    }
  }

  function Identity(j: Json): Json { j }

  /**
   * The result of `extractRankingEntries(root)`: what the walk pushed, each
   * node once, no two structurally equal.
   */
  function Entries(root: Json): (r: seq<Json>)
    ensures Distinct(r)
    ensures forall x :: x in r <==> x in Scan(root)
  {
    IdentityDedup(Scan(root));
    Dedup.Dedup(Scan(root), Identity)
  }

  lemma {:induction false} IdentityKeys(xs: seq<Json>, x: Json)
    ensures x in Dedup.KeySet(xs, Identity) <==> x in xs
  {
    Dedup.KeySetMembers(xs, Identity);
  }

  /** Removing repeats by the node itself keeps one copy of each node. */
  lemma IdentityDedup(s: seq<Json>)
    ensures Distinct(Dedup.Dedup(s, Identity))
    ensures forall x :: x in Dedup.Dedup(s, Identity) <==> x in s
  {
    var e := Dedup.Dedup(s, Identity);
    Dedup.DedupKeys(s, Identity);
    Dedup.DedupDistinct(s, Identity);
    forall x ensures x in e <==> x in s {
      IdentityKeys(e, x);
      IdentityKeys(s, x);
    }
  }

  /** A falsy or scalar root yields no entries. */
  lemma ScalarRootEmpty(root: Json)
    requires !Truthy(root) || !(root.JArr? || root.JObj?)
    ensures Entries(root) == []
  {
  }

  /**
   * The entries are exactly the found nodes, each once, with no two
   * structurally equal, in the order of their first occurrence in the walk.
   */
  lemma EntriesSpec(root: Json)
    ensures forall x :: x in Entries(root) <==> Found(x, root)
    ensures Distinct(Entries(root))
    ensures Dedup.Subseq(Entries(root), Scan(root))
    ensures forall i, j :: 0 <= i < j < |Entries(root)| ==>
      Entries(root)[i] in Dedup.KeySet(Scan(root), Identity) &&
      Entries(root)[j] in Dedup.KeySet(Scan(root), Identity) &&
      Dedup.FirstIndex(Scan(root), Identity, Entries(root)[i]) < Dedup.FirstIndex(Scan(root), Identity, Entries(root)[j])
  {
    var s := Scan(root);
    var e := Entries(root);
    Dedup.DedupKeys(s, Identity);
    Dedup.DedupDistinct(s, Identity);
    Dedup.DedupSubseq(s, Identity);
    forall i, j | 0 <= i < j < |e|
      ensures e[i] in Dedup.KeySet(s, Identity) && e[j] in Dedup.KeySet(s, Identity)
      ensures Dedup.FirstIndex(s, Identity, e[i]) < Dedup.FirstIndex(s, Identity, e[j])
    {
      Dedup.DedupPositions(s, Identity, e, i, j);
    }
    forall x ensures x in e <==> Found(x, root) {
      IdentityKeys(e, x);
      IdentityKeys(s, x);
      ScanExact(x, root);
    }
  }

  /** Every entry occurs in the tree and is a ranking record or a ranking row. */
  lemma EntriesShape(root: Json, x: Json)
    requires x in Entries(root)
    ensures Occurs(x, root)
    ensures IsRankingRecord(x) || IsRankingRow(x)
  {
    EntriesSpec(root);
    FoundShape(x, root);
  }

  /** The recursive `walk`, appending to `matches`. */
  method Walk(v: Json, matches: seq<Json>) returns (out: seq<Json>)
    ensures out == matches + Scan(v)
    decreases v, 1
  {
    out := matches;
    if !Truthy(v) {
      return;
    }
    match v {
      case JArr(items) =>
        ghost var head := if IsRankingList(items) then items else [];
        if IsRankingList(items) {
          out := PushRows(items, out);
        }
        assert out == matches + head;
        out := WalkAll(items, out, v);
        assert Scan(v) == head + ScanAll(items, v);
        AppendAssoc(matches, head, ScanAll(items, v));
      case JObj(ms) =>
        ghost var head := if IsRankingRecord(v) then [v] else [];
        if IsRankingRecord(v) {
          out := out + [v];
        }
        assert out == matches + head;
        out := WalkAll(Values(ms), out, v);
        assert Scan(v) == head + ScanAll(Values(ms), v);
        AppendAssoc(matches, head, ScanAll(Values(ms), v));
      case _ =>
    }
  }

  /** `value.forEach(item => { if (item && typeof item === "object") matches.push(item); })`. */
  method PushRows(items: seq<Json>, matches: seq<Json>) returns (out: seq<Json>)
    requires IsRankingList(items)
    ensures out == matches + items
  {
    out := matches;
    for i := 0 to |items|
      invariant out == matches + items[..i]
    {
      if items[i].JObj? {
        out := out + [items[i]];
      }
    }
    Common.SliceAll(items);
  }

  /** `forEach(walk)` over the children `vs` of `parent`. */
  method WalkAll(vs: seq<Json>, matches: seq<Json>, ghost parent: Json) returns (out: seq<Json>)
    requires forall i :: 0 <= i < |vs| ==> vs[i] < parent
    ensures out == matches + ScanAll(vs, parent)
    decreases parent, 0
  {
    out := matches;
    for i := 0 to |vs|
      invariant out == matches + ScanAll(vs[..i], parent)
    {
      Common.SliceSnoc(vs, i);
      out := Walk(vs[i], out);
    }
    Common.SliceAll(vs);
  }

  /** `extractRankingEntries`: walk, then keep the first of each `JSON.stringify` text. */
  method ExtractRankingEntries(root: Json) returns (entries: seq<Json>)
    ensures entries == Entries(root)
    ensures Distinct(entries)
    ensures forall x :: x in entries <==> Found(x, root)
  {
    var matches := Walk(root, []);
    assert matches == Scan(root);
    entries := Dedup.RemoveRepeats(matches, Identity);
    EntriesSpec(root);
  }
}
