/**
 * The 1-5 rating arithmetic of the country-profile builder: `clampRating`,
 * `ratingFromPercentile`, `ratingFromLifeExpectancy`, `averageRating`, and
 * the per-country combination in which a missing specific rating falls back
 * to the overall average. Doubles are idealised as reals.
 */
module Ratings {
  import opened Common

  /** `Math.round`: the nearest integer, halves rounded up. */
  function Round(x: real): (r: int)
    ensures r as real - 0.5 <= x < r as real + 0.5
  {
    (x + 0.5).Floor
  }

  /** `clampRating`, applied only to integers in the source. */
  function Clamp(value: int): (r: int)
    ensures 1 <= r <= 5
    ensures 1 <= value <= 5 ==> r == value
    ensures value < 1 ==> r == 1
    ensures value > 5 ==> r == 5
  {
    if 5 < (if 1 < value then value else 1) then 5 else if 1 < value then value else 1
  }

  /** The rating a World Bank percentile rank (0-100) gives: `round(value / 100 * 4 + 1)`, clamped. */
  function FromPercentile(value: Option<real>): (r: Option<int>)
    ensures r.None? <==> value.None?
    ensures r.Some? ==> 1 <= r.value <= 5
  {
    match value
    case None => None
    case Some(v) => Some(Clamp(Round(v / 100.0 * 4.0 + 1.0)))
  }

  /** The rating a life expectancy in years gives: 50 maps to 1, 85 to 5, linearly, rounded and clamped. */
  function FromLifeExpectancy(value: Option<real>): (r: Option<int>)
    ensures r.None? <==> value.None?
    ensures r.Some? ==> 1 <= r.value <= 5
  {
    match value
    case None => None
    case Some(v) =>
      var ratio := (v - 50.0) / (85.0 - 50.0);
      Some(Clamp(Round(ratio * 4.0 + 1.0)))
  }

  /** The present values, in order (`values.filter(v => typeof v === "number")`). */
  function Present(values: seq<Option<int>>): (r: seq<int>)
    ensures |r| <= |values|
    ensures |r| == 0 <==> forall i :: 0 <= i < |values| ==> values[i].None?
    ensures forall x :: x in r <==> Some(x) in values
  {
    if values == [] then []
    else
      var rest := Present(values[1..]);
      assert forall i :: 1 <= i < |values| ==> values[i] == values[1..][i - 1];
      assert forall o :: o in values <==> o == values[0] || o in values[1..];
      if values[0].Some? then [values[0].value] + rest else rest
  }

  /** Each present value is kept as often as it occurs: nothing is dropped or repeated. */
  lemma {:induction false} PresentCounts(values: seq<Option<int>>, x: int)
    ensures multiset(Present(values))[x] == multiset(values)[Some(x)]
  {
    if values != [] {
      PresentCounts(values[1..], x);
      assert values == [values[0]] + values[1..];
      assert multiset(values)[Some(x)] == multiset([values[0]])[Some(x)] + multiset(values[1..])[Some(x)];
      if values[0].Some? {
        assert Present(values) == [values[0].value] + Present(values[1..]);
        assert multiset(Present(values))[x] == multiset([values[0].value])[x] + multiset(Present(values[1..]))[x];
      }
    }
  }

  function Sum(xs: seq<int>): int
  {
    if xs == [] then 0 else xs[0] + Sum(xs[1..])
  }

  /** `averageRating`: the rounded mean of the present values, clamped; absent when none is present. */
  function Average(values: seq<Option<int>>): (r: Option<int>)
    ensures r.None? <==> forall i :: 0 <= i < |values| ==> values[i].None?
    ensures r.Some? ==> 1 <= r.value <= 5
  {
    var valid := Present(values);
    if |valid| == 0 then None
    else Some(Clamp(Round(Sum(valid) as real / |valid| as real)))
  }

  lemma {:induction false} SumBounds(xs: seq<int>, lo: int, hi: int)
    requires forall x :: x in xs ==> lo <= x <= hi
    ensures |xs| * lo <= Sum(xs) <= |xs| * hi
  {
    if xs != [] {
      var rest := xs[1..];
      assert forall x :: x in rest ==> x in xs;
      SumBounds(rest, lo, hi);
      assert xs[0] in xs;
      MulSucc(|rest|, lo);
      MulSucc(|rest|, hi);
    }
  }

  lemma MulSucc(n: int, k: int)
    ensures (n + 1) * k == n * k + k
  {
  }

  /** Whatever values are present, their rounded mean lies between the smallest and largest bound they share. */
  lemma AverageWithin(values: seq<Option<int>>, lo: int, hi: int)
    requires 1 <= lo <= hi <= 5
    requires forall i :: 0 <= i < |values| && values[i].Some? ==> lo <= values[i].value <= hi
    requires exists i :: 0 <= i < |values| && values[i].Some?
    ensures Average(values).Some? && lo <= Average(values).value <= hi
  {
    var valid := Present(values);
    forall x | x in valid ensures lo <= x <= hi {
      var i :| 0 <= i < |values| && values[i] == Some(x);
    }
    SumBounds(valid, lo, hi);
    MeanBounds(Sum(valid), |valid|, lo, hi);
  }

  lemma MeanBounds(sum: int, n: int, lo: int, hi: int)
    requires n > 0 && n * lo <= sum <= n * hi
    ensures lo <= Round(sum as real / n as real) <= hi
  {
    MeanAtLeast(sum, n, lo);
    MeanAtMost(sum, n, hi);
  }

  lemma MeanAtLeast(sum: int, n: int, lo: int)
    requires n > 0 && n * lo <= sum
    ensures lo as real <= sum as real / n as real
  {
    var mean := sum as real / n as real;
    CastMul(n, lo);
    if mean < lo as real {
      MulStrict(mean, lo as real, n as real);
    }
  }

  lemma MeanAtMost(sum: int, n: int, hi: int)
    requires n > 0 && sum <= n * hi
    ensures sum as real / n as real <= hi as real
  {
    var mean := sum as real / n as real;
    CastMul(n, hi);
    if mean > hi as real {
      MulStrict(hi as real, mean, n as real);
    }
  }

  lemma CastMul(n: int, k: int)
    ensures (n * k) as real == n as real * k as real
  {
  }

  lemma MulStrict(a: real, b: real, c: real)
    requires a < b && c > 0.0
    ensures a * c < b * c
  {
  }

  /**
   * On ratings in 1..5 the clamp changes nothing: the average is the mean
   * of the present values rounded to the nearest integer, halves up.
   */
  lemma AverageIsRoundedMean(values: seq<Option<int>>)
    requires forall i :: 0 <= i < |values| && values[i].Some? ==> 1 <= values[i].value <= 5
    ensures var v := Present(values);
      Average(values).Some? ==>
        Average(values).value as real - 0.5 <= Sum(v) as real / |v| as real < Average(values).value as real + 0.5
  {
    var v := Present(values);
    if |v| > 0 {
      forall x | x in v ensures 1 <= x <= 5 {
        var i :| 0 <= i < |values| && values[i] == Some(x);
      }
      SumBounds(v, 1, 5);
      MeanBounds(Sum(v), |v|, 1, 5);
    }
  }

  /** The same value `k` everywhere averages to `k`. */
  lemma AverageOfEqual(values: seq<Option<int>>, k: int)
    requires 1 <= k <= 5
    requires forall i :: 0 <= i < |values| && values[i].Some? ==> values[i].value == k
    requires exists i :: 0 <= i < |values| && values[i].Some?
    ensures Average(values) == Some(k)
  {
    AverageWithin(values, k, k);
  }

  /** Percentile 100 gives 5 and 0 gives 1; anything beyond is clamped. */
  lemma PercentileEnds(v: real)
    ensures v >= 100.0 ==> FromPercentile(Some(v)) == Some(5)
    ensures v <= 0.0 ==> FromPercentile(Some(v)) == Some(1)
  {
  }

  /** Life expectancy 85 gives 5 and 50 gives 1; anything beyond is clamped. */
  lemma LifeExpectancyEnds(v: real)
    ensures v >= 85.0 ==> FromLifeExpectancy(Some(v)) == Some(5)
    ensures v <= 50.0 ==> FromLifeExpectancy(Some(v)) == Some(1)
  {
  }

  /** Both transforms are monotone: a better raw value never lowers the rating. */
  lemma TransformsMonotone(v: real, w: real)
    requires v <= w
    ensures FromPercentile(Some(v)).value <= FromPercentile(Some(w)).value
    ensures FromLifeExpectancy(Some(v)).value <= FromLifeExpectancy(Some(w)).value
  {
    assert Round(v / 100.0 * 4.0 + 1.0) <= Round(w / 100.0 * 4.0 + 1.0);
    assert (v - 50.0) / 35.0 <= (w - 50.0) / 35.0;
    assert Round((v - 50.0) / (85.0 - 50.0) * 4.0 + 1.0) <= Round((w - 50.0) / (85.0 - 50.0) * 4.0 + 1.0);
  }

  /** The ratings record of one country (`results[entry.iso2]` without `raw`). */
  datatype CountryRatings = CountryRatings(
    security: Option<int>, business: Option<int>, expat: Option<int>, health: Option<int>,
    overall: Option<int>)

  /** `x ?? fallback`. */
  function OrElse(x: Option<int>, fallback: Option<int>): Option<int>
  {
    if x.Some? then x else fallback
  }

  /**
   * Lines 222-233 of the builder: specific ratings, their average, and the
   * fallback. Every present rating is on the 1-5 scale, `overall` is the
   * average of the four transformed ratings, and it is absent exactly when
   * all four raw values are.
   */
  function Combine(securityRaw: Option<real>, businessRaw: Option<real>, expatRaw: Option<real>,
                   healthRaw: Option<real>): (r: CountryRatings)
    ensures Rated(r.security) && Rated(r.business) && Rated(r.expat) && Rated(r.health) && Rated(r.overall)
    ensures r.overall.None? <==> securityRaw.None? && businessRaw.None? && expatRaw.None? && healthRaw.None?
    ensures r.overall == Average([FromPercentile(securityRaw), FromPercentile(businessRaw), FromPercentile(expatRaw),
                                  FromLifeExpectancy(healthRaw)])
  {
    CompleteSpec(FromPercentile(securityRaw), FromPercentile(businessRaw), FromPercentile(expatRaw),
                 FromLifeExpectancy(healthRaw));
    Complete(FromPercentile(securityRaw), FromPercentile(businessRaw), FromPercentile(expatRaw),
             FromLifeExpectancy(healthRaw))
  }

  /** The overall average of the four specific ratings, and each missing one replaced by it. */
  function Complete(security: Option<int>, business: Option<int>, expat: Option<int>, health: Option<int>): CountryRatings
  {
    var fallback := Average([security, business, expat, health]);
    CountryRatings(OrElse(security, fallback), OrElse(business, fallback), OrElse(expat, fallback),
                   OrElse(health, fallback), fallback)
  }

  /** An absent rating, or one on the 1-5 scale. */
  predicate Rated(x: Option<int>)
  {
    x.Some? ==> 1 <= x.value <= 5
  }

  /**
   * Completing ratings in 1..5: `overall` is the average of the four, absent
   * exactly when all four are, and fills exactly the gaps.
   */
  lemma CompleteSpec(s: Option<int>, b: Option<int>, e: Option<int>, h: Option<int>)
    requires Rated(s) && Rated(b) && Rated(e) && Rated(h)
    ensures var r := Complete(s, b, e, h);
      && r.overall == Average([s, b, e, h])
      && (r.overall.None? <==> s.None? && b.None? && e.None? && h.None?)
      && r.security == (if s.Some? then s else r.overall)
      && r.business == (if b.Some? then b else r.overall)
      && r.expat == (if e.Some? then e else r.overall)
      && r.health == (if h.Some? then h else r.overall)
      && Rated(r.security) && Rated(r.business) && Rated(r.expat) && Rated(r.health) && Rated(r.overall)
  {
    var vals := [s, b, e, h];
    var fallback := Average(vals);
    assert fallback.None? <==> forall i :: 0 <= i < |vals| ==> vals[i].None?;
    assert vals[0] == s && vals[1] == b && vals[2] == e && vals[3] == h;
  }

  /**
   * `overall` is absent exactly when all four raw values are; a specific
   * rating is its own transform when its raw value is present and `overall`
   * otherwise; every present rating is in 1..5 (never 0).
   */
  lemma CombineSpec(s: Option<real>, b: Option<real>, e: Option<real>, h: Option<real>)
    ensures var r := Combine(s, b, e, h);
      && r.overall == Average([FromPercentile(s), FromPercentile(b), FromPercentile(e), FromLifeExpectancy(h)])
      && (r.overall.None? <==> s.None? && b.None? && e.None? && h.None?)
      && r.security == (if s.Some? then FromPercentile(s) else r.overall)
      && r.business == (if b.Some? then FromPercentile(b) else r.overall)
      && r.expat == (if e.Some? then FromPercentile(e) else r.overall)
      && r.health == (if h.Some? then FromLifeExpectancy(h) else r.overall)
      && Rated(r.security) && Rated(r.business) && Rated(r.expat) && Rated(r.health) && Rated(r.overall)
  {
    var ps, pb, pe, ph := FromPercentile(s), FromPercentile(b), FromPercentile(e), FromLifeExpectancy(h);
    CompleteSpec(ps, pb, pe, ph);
  }

  /** Ratings 5, 1, 1, 1 complete with `overall` 2: the rounded mean, not the first rating. */
  lemma CompleteMeanExample()
    ensures Complete(Some(5), Some(1), Some(1), Some(1)) == CountryRatings(Some(5), Some(1), Some(1), Some(1), Some(2))
  {
    var v := [Some(5), Some(1), Some(1), Some(1)];
    assert Present(v[3..]) == [1];
    assert Present(v[2..]) == [1, 1];
    assert Present(v[1..]) == [1, 1, 1];
    assert Present(v) == [5, 1, 1, 1];
    assert Sum([5, 1, 1, 1]) == 8;
    assert Round(8.0 / 4.0) == 2;
  }

  /** Ratings 5, -, 2, - complete with `overall` 4 (3.5 rounded up), which also fills both gaps. */
  lemma CompleteGapsExample()
    ensures Complete(Some(5), None, Some(2), None) == CountryRatings(Some(5), Some(4), Some(2), Some(4), Some(4))
  {
    var v := [Some(5), None, Some(2), None];
    assert Present(v[3..]) == [];
    assert Present(v[2..]) == [2];
    assert Present(v[1..]) == [2];
    assert Present(v) == [5, 2];
    assert Sum([5, 2]) == 7;
    assert Round(7.0 / 2.0) == 4;
  }

  /** When all four raw values are absent, every rating is absent (none becomes 0). */
  lemma CombineAllAbsent()
    ensures Combine(None, None, None, None) == CountryRatings(None, None, None, None, None)
  {
    CombineSpec(None, None, None, None);
  }
}
