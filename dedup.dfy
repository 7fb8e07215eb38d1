/**
 * De-duplication by a key with a `seen` set, keeping the first element of
 * each key: the `seen`/`dedup` loops of both search handlers, the `seen`
 * filter of `extractRankingEntries`, and the insertion-ordered `Set` of
 * `expandTokens`.
 */
module Dedup {
  import Common

  /** The keys of the elements of `xs`. */
  function KeySet<T, K(==)>(xs: seq<T>, key: T -> K): set<K>
  {
    if xs == [] then {} else KeySet(xs[..|xs| - 1], key) + {key(xs[|xs| - 1])}
  }

  /** The elements of `xs` whose key has not occurred before, in order. */
  function Dedup<T, K(==)>(xs: seq<T>, key: T -> K): seq<T>
  {
    if xs == [] then []
    else
      var d := Dedup(xs[..|xs| - 1], key);
      var x := xs[|xs| - 1];
      if key(x) in KeySet(d, key) then d else d + [x]
  }

  /** No two elements share a key. */
  predicate KeysDistinct<T, K(==)>(xs: seq<T>, key: T -> K)
  {
    forall i, j :: 0 <= i < j < |xs| ==> key(xs[i]) != key(xs[j])
  }

  /** The index of the first element of `xs` whose key is `k`. */
  function FirstIndex<T, K(==)>(xs: seq<T>, key: T -> K, k: K): (r: nat)
    requires k in KeySet(xs, key)
    ensures r < |xs| && key(xs[r]) == k
    ensures forall j :: 0 <= j < r ==> key(xs[j]) != k
  {
    var init := xs[..|xs| - 1];
    if k in KeySet(init, key) then
      var r := FirstIndex(init, key, k);
      assert xs[r] == init[r];
      assert forall j :: 0 <= j < r ==> xs[j] == init[j];
      r
    else
      KeySetMembers(init, key);
      |xs| - 1
  }

  lemma {:induction false} KeySetMembers<T, K>(xs: seq<T>, key: T -> K)
    ensures forall i :: 0 <= i < |xs| ==> key(xs[i]) in KeySet(xs, key)
    ensures forall k :: k in KeySet(xs, key) ==> exists i :: 0 <= i < |xs| && key(xs[i]) == k
  {
    if xs != [] {
      var init := xs[..|xs| - 1];
      KeySetMembers(init, key);
      assert forall i :: 0 <= i < |init| ==> xs[i] == init[i];
    }
  }

  lemma {:induction false} KeySetAppend<T, K>(xs: seq<T>, ys: seq<T>, key: T -> K)
    ensures KeySet(xs + ys, key) == KeySet(xs, key) + KeySet(ys, key)
    decreases |ys|
  {
    if ys != [] {
      Common.AppendLast(xs, ys);
      KeySetAppend(xs, ys[..|ys| - 1], key);
    } else {
      assert xs + ys == xs;
    }
  }

  /** Every input key is represented in the output. */
  lemma {:induction false} DedupKeys<T, K>(xs: seq<T>, key: T -> K)
    ensures KeySet(Dedup(xs, key), key) == KeySet(xs, key)
  {
    if xs != [] {
      var init := xs[..|xs| - 1];
      DedupKeys(init, key);
      var d := Dedup(init, key);
      if key(xs[|xs| - 1]) !in KeySet(d, key) {
        assert (d + [xs[|xs| - 1]])[..|d|] == d;
      }
    }
  }

  /** No two outputs share a key. */
  lemma {:induction false} DedupDistinct<T, K>(xs: seq<T>, key: T -> K)
    ensures KeysDistinct(Dedup(xs, key), key)
  {
    if xs != [] {
      var init := xs[..|xs| - 1];
      DedupDistinct(init, key);
      var d := Dedup(init, key);
      var x := xs[|xs| - 1];
      if key(x) !in KeySet(d, key) {
        KeySetMembers(d, key);
        var out := d + [x];
        forall i, j | 0 <= i < j < |out| ensures key(out[i]) != key(out[j]) {
          if j == |d| {
            assert key(d[i]) in KeySet(d, key);
          } else {
            assert out[i] == d[i] && out[j] == d[j];
          }
        }
      }
    }
  }

  /** Each output is the first element of the input that carries its key. */
  lemma {:induction false} DedupFirst<T, K>(xs: seq<T>, key: T -> K)
    ensures forall i :: 0 <= i < |Dedup(xs, key)| ==>
      var y := Dedup(xs, key)[i];
      key(y) in KeySet(xs, key) && y == xs[FirstIndex(xs, key, key(y))]
  {
    if xs != [] {
      var init := xs[..|xs| - 1];
      var x := xs[|xs| - 1];
      DedupFirst(init, key);
      DedupKeys(init, key);
      var d := Dedup(init, key);
      var out := Dedup(xs, key);
      assert KeySet(xs, key) == KeySet(init, key) + {key(x)};
      forall i | 0 <= i < |out|
        ensures key(out[i]) in KeySet(xs, key) && out[i] == xs[FirstIndex(xs, key, key(out[i]))]
      {
        if i < |d| {
          assert out[i] == d[i];
          assert FirstIndex(xs, key, key(d[i])) == FirstIndex(init, key, key(d[i]));
        } else {
          assert out[i] == x && key(x) !in KeySet(init, key);
        }
      }
    }
  }

  /** `a` is a subsequence of `b` (greedy match from the end). */
  ghost predicate Subseq<T>(a: seq<T>, b: seq<T>)
  {
    if a == [] then true
    else if b == [] then false
    else if a[|a| - 1] == b[|b| - 1] then Subseq(a[..|a| - 1], b[..|b| - 1])
    else Subseq(a, b[..|b| - 1])
  }

  lemma {:induction false} SubseqExtend<T>(a: seq<T>, b: seq<T>, x: T)
    requires Subseq(a, b)
    ensures Subseq(a, b + [x])
    decreases |b|, 1
  {
    assert (b + [x])[..|b|] == b;
    if a != [] && a[|a| - 1] == x {
      SubseqInit(a, b);
    }
  }

  lemma {:induction false} SubseqInit<T>(a: seq<T>, b: seq<T>)
    requires a != [] && Subseq(a, b)
    ensures Subseq(a[..|a| - 1], b)
    decreases |b|, 0
  {
    var a', b' := a[..|a| - 1], b[..|b| - 1];
    assert b == b' + [b[|b| - 1]];
    if a[|a| - 1] == b[|b| - 1] {
      SubseqExtend(a', b', b[|b| - 1]);
    } else {
      SubseqInit(a, b');
      SubseqExtend(a', b', b[|b| - 1]);
    }
  }

  /** The output keeps the input's order. */
  lemma {:induction false} DedupSubseq<T, K>(xs: seq<T>, key: T -> K)
    ensures Subseq(Dedup(xs, key), xs)
  {
    if xs != [] {
      var init := xs[..|xs| - 1];
      var x := xs[|xs| - 1];
      DedupSubseq(init, key);
      var d := Dedup(init, key);
      assert xs == init + [x];
      if key(x) in KeySet(d, key) {
        SubseqExtend(d, init, x);
      } else {
        assert (d + [x])[..|d|] == d;
      }
    }
  }

  /** Appending one element: it is kept exactly when its key is new. */
  lemma DedupSnoc<T, K>(xs: seq<T>, x: T, key: T -> K)
    ensures Dedup(xs + [x], key) ==
      if key(x) in KeySet(Dedup(xs, key), key) then Dedup(xs, key) else Dedup(xs, key) + [x]
  {
    assert (xs + [x])[..|xs|] == xs;
  }

  /** A key already present before the last element keeps its first index. */
  lemma FirstIndexInit<T, K>(xs: seq<T>, key: T -> K, k: K)
    requires xs != [] && k in KeySet(xs[..|xs| - 1], key)
    ensures k in KeySet(xs, key)
    ensures FirstIndex(xs, key, k) == FirstIndex(xs[..|xs| - 1], key, k)
    ensures FirstIndex(xs, key, k) < |xs| - 1
  {
  }

  /** Outputs appear in the order of their first occurrences in the input. */
  lemma {:induction false} DedupPositions<T, K>(xs: seq<T>, key: T -> K, d: seq<T>, i: nat, j: nat)
    requires d == Dedup(xs, key)
    requires i < j < |d|
    ensures key(d[i]) in KeySet(xs, key) && key(d[j]) in KeySet(xs, key)
    ensures FirstIndex(xs, key, key(d[i])) < FirstIndex(xs, key, key(d[j]))
  {
    DedupFirst(xs, key);
    DedupDistinct(xs, key);
    var init := xs[..|xs| - 1];
    var x := xs[|xs| - 1];
    var dInit := Dedup(init, key);
    DedupKeys(init, key);
    KeySetMembers(dInit, key);
    assert d[i] == dInit[i];
    if j < |dInit| {
      DedupPositions(init, key, dInit, i, j);
      assert d[j] == dInit[j];
      FirstIndexInit(xs, key, key(d[i]));
      FirstIndexInit(xs, key, key(d[j]));
    } else {
      assert d[j] == x && key(x) !in KeySet(init, key);
      DedupFirst(init, key);
      FirstIndexInit(xs, key, key(d[i]));
      KeySetMembers(init, key);
    }
  }

  /** Dropping repeats never lengthens a list. */
  lemma {:induction false} DedupShorter<T, K>(xs: seq<T>, key: T -> K)
    ensures |Dedup(xs, key)| <= |xs|
  {
    if xs != [] {
      DedupShorter(xs[..|xs| - 1], key);
    }
  }

  /** Every kept element is an element of the input. */
  lemma {:induction false} DedupMembers<T, K>(xs: seq<T>, key: T -> K)
    ensures forall x :: x in Dedup(xs, key) ==> x in xs
  {
    if xs != [] {
      var init := xs[..|xs| - 1];
      DedupMembers(init, key);
      assert forall x :: x in init ==> x in xs;
    }
  }

  /** A list without repeated keys has as many elements as keys. */
  lemma {:induction false} DistinctKeysCount<T, K>(d: seq<T>, key: T -> K)
    requires KeysDistinct(d, key)
    ensures |KeySet(d, key)| == |d|
  {
    if d != [] {
      var init := d[..|d| - 1];
      assert KeysDistinct(init, key) by {
        forall i, j | 0 <= i < j < |init| ensures key(init[i]) != key(init[j]) {
          assert init[i] == d[i] && init[j] == d[j];
        }
      }
      DistinctKeysCount(init, key);
      KeySetMembers(init, key);
      assert key(d[|d| - 1]) !in KeySet(init, key) by {
        forall i | 0 <= i < |init| ensures key(init[i]) != key(d[|d| - 1]) {
          assert init[i] == d[i];
        }
      }
    }
  }

  /** The `seen`-set loop: one pass, keeping an element when its key is new. */
  method RemoveRepeats<T, K(==)>(xs: seq<T>, key: T -> K) returns (out: seq<T>)
    ensures out == Dedup(xs, key)
  {
    var seen: set<K> := {};
    out := [];
    for i := 0 to |xs|
      invariant out == Dedup(xs[..i], key)
      invariant seen == KeySet(out, key)
    {
      Common.SliceSnoc(xs, i);
      var k := key(xs[i]);
      if k !in seen {
        seen := seen + {k};
        assert (out + [xs[i]])[..|out|] == out;
        out := out + [xs[i]];
      }
    }
    Common.SliceAll(xs);
  }
}
