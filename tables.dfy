/**
 * Filling a dictionary in a loop, `results[key] = value`, where a later
 * entry for the same key overwrites an earlier one: `new Map(...)`, the
 * SPARQL row `forEach`, the ranking-entry `forEach` and the per-country
 * ratings table.
 */
module Tables {
  import opened Common

  /** The table after assigning, in order, the pair each element yields (skipping `None`). */
  function Tabulate<T, K(==), V>(xs: seq<T>, entry: T -> Option<(K, V)>): map<K, V>
  {
    if xs == [] then map[]
    else
      var m := Tabulate(xs[..|xs| - 1], entry);
      match entry(xs[|xs| - 1])
      case None => m
      case Some(kv) => m[kv.0 := kv.1]
  }

  predicate HasKey<T, K(==), V>(x: T, entry: T -> Option<(K, V)>, k: K)
  {
    entry(x).Some? && entry(x).value.0 == k
  }

  /** The index of the last element that assigns `k`, or -1. */
  function LastWith<T, K(==), V>(xs: seq<T>, entry: T -> Option<(K, V)>, k: K): (i: int)
    ensures -1 <= i < |xs|
    ensures i >= 0 ==> HasKey(xs[i], entry, k)
    ensures forall j :: i < j < |xs| ==> !HasKey(xs[j], entry, k)
  {
    if xs == [] then -1
    else if HasKey(xs[|xs| - 1], entry, k) then |xs| - 1
    else
      var i := LastWith(xs[..|xs| - 1], entry, k);
      assert forall j :: i < j < |xs| - 1 ==> xs[j] == xs[..|xs| - 1][j];
      i
  }

  /**
   * A key is in the table exactly when some element assigns it, and its
   * value is the one the last such element assigns.
   */
  lemma {:induction false} TabulateLastWins<T, K, V>(xs: seq<T>, entry: T -> Option<(K, V)>, k: K)
    ensures k in Tabulate(xs, entry) <==> LastWith(xs, entry, k) >= 0
    ensures k in Tabulate(xs, entry) ==> Tabulate(xs, entry)[k] == entry(xs[LastWith(xs, entry, k)]).value.1
  {
    if xs != [] {
      var init := xs[..|xs| - 1];
      TabulateLastWins(init, entry, k);
      if !HasKey(xs[|xs| - 1], entry, k) {
        var i := LastWith(init, entry, k);
        assert i >= 0 ==> xs[i] == init[i];
      }
    }
  }

  /** A key is in the table exactly when some element assigns it. */
  lemma TabulateKeys<T, K, V>(xs: seq<T>, entry: T -> Option<(K, V)>, k: K)
    ensures k in Tabulate(xs, entry) <==> exists i :: 0 <= i < |xs| && HasKey(xs[i], entry, k)
  {
    TabulateLastWins(xs, entry, k);
    if exists i :: 0 <= i < |xs| && HasKey(xs[i], entry, k) {
      var i :| 0 <= i < |xs| && HasKey(xs[i], entry, k);
      assert LastWith(xs, entry, k) >= i;
    }
  }

  /** Every value in the table is one that some element assigned to its key. */
  lemma TabulateValues<T, K, V>(xs: seq<T>, entry: T -> Option<(K, V)>, k: K)
    requires k in Tabulate(xs, entry)
    ensures exists i :: 0 <= i < |xs| && entry(xs[i]) == Some((k, Tabulate(xs, entry)[k]))
  {
    TabulateLastWins(xs, entry, k);
    var i := LastWith(xs, entry, k);
    assert entry(xs[i]) == Some((k, Tabulate(xs, entry)[k]));
  }

  lemma TabulateStep<T, K, V>(xs: seq<T>, x: T, entry: T -> Option<(K, V)>)
    ensures Tabulate(xs + [x], entry) ==
      match entry(x) case None => Tabulate(xs, entry) case Some(kv) => Tabulate(xs, entry)[kv.0 := kv.1]
  {
    assert (xs + [x])[..|xs|] == xs;
  }

  /** The pair `key(x) := g(x)` for every `x`. */
  function Keyed<T, K, V>(key: T -> K, g: T -> V): T -> Option<(K, V)>
  {
    x => Some((key(x), g(x)))
  }

  /** With distinct keys, every element gets its own entry and nothing else is in the table. */
  lemma {:induction false} TabulateDistinct<T, K, V>(xs: seq<T>, key: T -> K, g: T -> V)
    requires forall i, j :: 0 <= i < j < |xs| ==> key(xs[i]) != key(xs[j])
    ensures forall k :: k in Tabulate(xs, Keyed(key, g)) <==> exists i :: 0 <= i < |xs| && key(xs[i]) == k
    ensures forall i :: 0 <= i < |xs| ==>
      key(xs[i]) in Tabulate(xs, Keyed(key, g)) && Tabulate(xs, Keyed(key, g))[key(xs[i])] == g(xs[i])
  {
    var t := Tabulate(xs, Keyed(key, g));
    var entry := Keyed(key, g);
    forall k ensures k in t <==> exists i :: 0 <= i < |xs| && key(xs[i]) == k {
      TabulateKeys(xs, entry, k);
      if exists i :: 0 <= i < |xs| && key(xs[i]) == k {
        var i :| 0 <= i < |xs| && key(xs[i]) == k;
        assert HasKey(xs[i], entry, k);
      }
    }
    forall i | 0 <= i < |xs| ensures key(xs[i]) in t && t[key(xs[i])] == g(xs[i]) {
      TabulateLastWins(xs, entry, key(xs[i]));
      assert HasKey(xs[i], entry, key(xs[i]));
    }
  }

  /** The index of the first element at or after `k` on which `f` fails, or -1 (where `Promise.all` or a loop would stop). */
  function FirstFailure<T, R>(xs: seq<T>, f: T -> Result<R>, k: nat): (i: int)
    requires k <= |xs|
    ensures i == -1 || k <= i < |xs|
    ensures i >= 0 ==> f(xs[i]).Err?
    ensures forall j :: k <= j < (if i >= 0 then i else |xs|) ==> f(xs[j]).Ok?
    decreases |xs| - k
  {
    if k == |xs| then -1
    else if f(xs[k]).Err? then k
    else FirstFailure(xs, f, k + 1)
  }

  /** The pair `key(x) := f(x)` for each `x` on which `f` succeeds. */
  function KeyedEntry<T, K, V>(key: T -> K, f: T -> Result<V>): T -> Option<(K, V)>
  {
    x => if f(x).Ok? then Some((key(x), f(x).value)) else None
  }

  /**
   * `results[key(x)] = f(x)` for every `x` in turn, where the first failure
   * aborts the whole loop (or rejects the whole `Promise.all`).
   */
  function CollectAll<T, K(==), V>(xs: seq<T>, key: T -> K, f: T -> Result<V>): Result<map<K, V>>
  {
    var i := FirstFailure(xs, f, 0);
    if i >= 0 then Err(f(xs[i]).error) else Ok(Tabulate(xs, KeyedEntry(key, f)))
  }

  /** The collection fails exactly when `f` fails on some element, with the first failure's error. */
  lemma CollectAllFails<T, K, V>(xs: seq<T>, key: T -> K, f: T -> Result<V>)
    ensures CollectAll(xs, key, f).Err? <==> exists i :: 0 <= i < |xs| && f(xs[i]).Err?
    ensures CollectAll(xs, key, f).Err? ==>
      exists i :: 0 <= i < |xs| && f(xs[i]) == Err(CollectAll(xs, key, f).error) &&
        forall j :: 0 <= j < i ==> f(xs[j]).Ok?
  {
    var i := FirstFailure(xs, f, 0);
    if i >= 0 {
      assert f(xs[i]) == Err(CollectAll(xs, key, f).error);
    }
  }

  /**
   * With distinct keys, a successful collection has exactly the elements'
   * keys, each bound to its own element's result.
   */
  lemma {:induction false} CollectAllSpec<T, K, V>(xs: seq<T>, key: T -> K, f: T -> Result<V>)
    requires forall i, j :: 0 <= i < j < |xs| ==> key(xs[i]) != key(xs[j])
    requires CollectAll(xs, key, f).Ok?
    ensures forall k :: k in CollectAll(xs, key, f).value <==> exists i :: 0 <= i < |xs| && key(xs[i]) == k
    ensures forall i :: 0 <= i < |xs| ==>
      key(xs[i]) in CollectAll(xs, key, f).value && CollectAll(xs, key, f).value[key(xs[i])] == f(xs[i]).value
  {
    var t := CollectAll(xs, key, f).value;
    var entry := KeyedEntry(key, f);
    forall k ensures k in t <==> exists i :: 0 <= i < |xs| && key(xs[i]) == k {
      TabulateKeys(xs, entry, k);
      if exists i :: 0 <= i < |xs| && key(xs[i]) == k {
        var i :| 0 <= i < |xs| && key(xs[i]) == k;
        assert HasKey(xs[i], entry, k);
      }
    }
    forall i | 0 <= i < |xs| ensures key(xs[i]) in t && t[key(xs[i])] == f(xs[i]).value {
      TabulateLastWins(xs, entry, key(xs[i]));
      assert HasKey(xs[i], entry, key(xs[i]));
    }
  }

  /** When `f` succeeds everywhere, the collection is the table of all the results. */
  lemma CollectAllOk<T, K, V>(xs: seq<T>, key: T -> K, f: T -> Result<V>)
    requires forall j :: 0 <= j < |xs| ==> f(xs[j]).Ok?
    ensures CollectAll(xs, key, f) == Ok(Tabulate(xs, KeyedEntry(key, f)))
  {
    var i := FirstFailure(xs, f, 0);
    if i >= 0 {
      assert false;
    }
  }

  /** The first failure is at `i` when everything before `i` succeeds and `i` fails. */
  lemma FirstFailureAt<T, R>(xs: seq<T>, f: T -> Result<R>, i: nat)
    requires i < |xs| && f(xs[i]).Err? && forall j :: 0 <= j < i ==> f(xs[j]).Ok?
    ensures FirstFailure(xs, f, 0) == i
  {
    var r := FirstFailure(xs, f, 0);
    if r != i {
      assert false;
    }
  }

  /** One more success extends the run of successes. */
  lemma OkPrefixStep<T, R>(xs: seq<T>, f: T -> Result<R>, i: nat)
    requires i < |xs| && f(xs[i]).Ok? && forall j :: 0 <= j < i ==> f(xs[j]).Ok?
    ensures forall j :: 0 <= j < i + 1 ==> f(xs[j]).Ok?
  {
  }

  /** There is no failure when everything succeeds. */
  lemma FirstFailureNone<T, R>(xs: seq<T>, f: T -> Result<R>)
    requires forall j :: 0 <= j < |xs| ==> f(xs[j]).Ok?
    ensures FirstFailure(xs, f, 0) == -1
  {
    var r := FirstFailure(xs, f, 0);
    if r >= 0 {
      assert false;
    }
  }

  /** The loop behind `CollectAll`: one call of `f` after another, stopping at the first failure. */
  lemma CollectAllStep<T, K, V>(xs: seq<T>, key: T -> K, f: T -> Result<V>, i: nat)
    requires i < |xs| && forall j :: 0 <= j < i ==> f(xs[j]).Ok?
    ensures f(xs[i]).Err? ==> CollectAll(xs, key, f) == Err(f(xs[i]).error)
    ensures f(xs[i]).Ok? ==>
      Tabulate(xs[..i + 1], KeyedEntry(key, f)) == Tabulate(xs[..i], KeyedEntry(key, f))[key(xs[i]) := f(xs[i]).value]
  {
    if f(xs[i]).Err? {
      assert FirstFailure(xs, f, 0) == i;
    } else {
      TabulateStep(xs[..i], xs[i], KeyedEntry(key, f));
      Common.SliceSnoc(xs, i);
    }
  }
}
