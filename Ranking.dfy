/**
 * The weighted ranking engine shared by the text interface and the dashboard:
 * numeric coercion of the factor columns, the weighted composite score, the
 * descending order with missing scores last, and the top-10 cut.
 */
module Ranking {
  import opened Wrappers
  import opened HappinessData

  /** How many rows a ranking shows. */
  const TopN: nat := 10

  /** A weight per factor, keyed by the factor. */
  type WeightVector = map<Factor, real>

  /** Every factor has a weight, so looking one up never fails. */
  predicate Covers(w: WeightVector)
  {
    forall f: Factor :: f in w
  }

  // ---------------------------------------------------------------------------
  // Coercion and score

  /**
   * Numeric coercion of one cell, in the mode that never fails: a number stays
   * as it is, anything else becomes NaN (Missing).
   */
  function Coerce(c: Cell): (r: Cell)
    ensures !r.Text?
    ensures r.Num? <==> c.Num?
    ensures r.Num? ==> r == c
  {
    if c.Num? then c else Missing
  }

  /** The six factor cells of a row after coercing each column. */
  function CoerceAll(cells: FactorCells): (r: FactorCells)
    ensures forall f: Factor :: r.Get(f) == Coerce(cells.Get(f))
  {
    FactorCells(Coerce(cells.gdp), Coerce(cells.socialSupport), Coerce(cells.lifeExpectancy),
                Coerce(cells.freedom), Coerce(cells.generosity), Coerce(cells.corruption))
  }

  /** No factor cell holds text: the columns are numeric (with NaN). */
  predicate IsCoerced(cells: FactorCells)
  {
    forall f: Factor :: !cells.Get(f).Text?
  }

  /** Every factor cell holds a number. */
  predicate AllNumeric(cells: FactorCells)
  {
    forall f: Factor :: cells.Get(f).Num?
  }

  /**
   * The sum, starting from 0, of value times weight over the first `n`
   * factors in canonical order, on coerced cells; a missing value makes the whole sum missing, as NaN does.
   */
  function WeightedSum(cells: FactorCells, w: WeightVector, n: nat): Option<real>
    requires IsCoerced(cells) && Covers(w) && n <= |Factors|
  {
    if n == 0 then Some(0.0)
    else
      var f := Factors[n - 1];
      var acc := WeightedSum(cells, w, n - 1);
      if acc.Some? && cells.Get(f).Num? then Some(acc.value + cells.Get(f).value * w[f]) else None
  }

  /** The composite score of a row: the weighted sum over all six coerced factors. */
  function Score(cells: FactorCells, w: WeightVector): Option<real>
    requires Covers(w)
  {
    WeightedSum(CoerceAll(cells), w, |Factors|)
  }

  /** The plain sum of the six factor values, for a row whose factors are all numbers. */
  function RawSum(cells: FactorCells): real
    requires AllNumeric(cells)
  {
    cells.Get(GDP).value + cells.Get(SocialSupport).value + cells.Get(LifeExpectancy).value
    + cells.Get(Freedom).value + cells.Get(Generosity).value + cells.Get(Corruption).value
  }

  /** The unweighted sum of a row's factors, missing when a factor is not a number. */
  function Unweighted(cells: FactorCells): Option<real>
  {
    if AllNumeric(cells) then Some(RawSum(cells)) else None
  }

  /** The weight vector giving every factor the weight `c`. */
  function Uniform(c: real): (w: WeightVector)
    ensures Covers(w)
  {
    FactorsComplete();
    map f: Factor | f in Factors :: c
  }

  /** A partial sum is missing exactly when one of the factors it covers is not a number. */
  lemma {:induction false} WeightedSumMissing(cells: FactorCells, w: WeightVector, n: nat)
    requires IsCoerced(cells) && Covers(w) && n <= |Factors|
    ensures WeightedSum(cells, w, n).None? <==> exists j :: 0 <= j < n && !cells.Get(Factors[j]).Num?
  {
    if n > 0 {
      WeightedSumMissing(cells, w, n - 1);
    }
  }

  /**
   * A row's score is missing exactly when one of its six factors does not coerce
   * to a number, whatever the weights (a missing factor with weight 0 still
   * makes the score missing).
   */
  lemma ScoreMissingIff(cells: FactorCells, w: WeightVector)
    requires Covers(w)
    ensures Score(cells, w).None? <==> !AllNumeric(cells)
  {
    var c := CoerceAll(cells);
    WeightedSumMissing(c, w, |Factors|);
    if !AllNumeric(cells) {
      var f: Factor :| !cells.Get(f).Num?;
      assert !c.Get(Factors[f.Index()]).Num?;
    }
  }

  /** The score written out: the sum over the six factors of value times weight. */
  lemma ScoreClosedForm(cells: FactorCells, w: WeightVector)
    requires Covers(w)
    ensures Score(cells, w).Some? <==> AllNumeric(cells)
    ensures AllNumeric(cells) ==>
              Score(cells, w).value ==
                cells.Get(GDP).value * w[GDP] + cells.Get(SocialSupport).value * w[SocialSupport]
                + cells.Get(LifeExpectancy).value * w[LifeExpectancy] + cells.Get(Freedom).value * w[Freedom]
                + cells.Get(Generosity).value * w[Generosity] + cells.Get(Corruption).value * w[Corruption]
  {
    ScoreMissingIff(cells, w);
    if AllNumeric(cells) {
      var c := CoerceAll(cells);
      assert forall f: Factor :: c.Get(f) == cells.Get(f);
      var g, s, l, f, e := cells.Get(GDP).value, cells.Get(SocialSupport).value,
        cells.Get(LifeExpectancy).value, cells.Get(Freedom).value, cells.Get(Generosity).value;
      assert WeightedSum(c, w, 1).Some? && WeightedSum(c, w, 1).value == 0.0 + g * w[GDP];
      assert WeightedSum(c, w, 2).Some? && WeightedSum(c, w, 2).value == 0.0 + g * w[GDP] + s * w[SocialSupport];
      assert WeightedSum(c, w, 3).Some? && WeightedSum(c, w, 3).value ==
        0.0 + g * w[GDP] + s * w[SocialSupport] + l * w[LifeExpectancy];
      assert WeightedSum(c, w, 4).Some? && WeightedSum(c, w, 4).value ==
        0.0 + g * w[GDP] + s * w[SocialSupport] + l * w[LifeExpectancy] + f * w[Freedom];
      assert WeightedSum(c, w, 5).Some? && WeightedSum(c, w, 5).value ==
        0.0 + g * w[GDP] + s * w[SocialSupport] + l * w[LifeExpectancy] + f * w[Freedom] + e * w[Generosity];
      assert WeightedSum(c, w, 6).Some? && WeightedSum(c, w, 6).value ==
        0.0 + g * w[GDP] + s * w[SocialSupport] + l * w[LifeExpectancy] + f * w[Freedom] + e * w[Generosity]
        + cells.Get(Corruption).value * w[Corruption];
    }
  }

  /** With all six weights equal to `c`, the score is `c` times the unweighted sum. */
  lemma UniformScore(cells: FactorCells, c: real)
    ensures Score(cells, Uniform(c)).Some? <==> AllNumeric(cells)
    ensures AllNumeric(cells) ==> Score(cells, Uniform(c)).value == c * RawSum(cells)
  {
    ScoreClosedForm(cells, Uniform(c));
  }

  /**
   * With all weights 0 every score is 0, except that a row with a missing
   * factor still has a missing score.
   */
  lemma ZeroWeightsScore(cells: FactorCells)
    ensures Score(cells, Uniform(0.0)).Some? <==> AllNumeric(cells)
    ensures AllNumeric(cells) ==> Score(cells, Uniform(0.0)).value == 0.0
  {
    UniformScore(cells, 0.0);
  }

  // ---------------------------------------------------------------------------
  // Order on scores

  /**
   * `a` may come before `b` in a descending ranking: a missing score is the
   * lowest, below every number, and two missing scores tie.
   */
  predicate ScoreGe(a: Option<real>, b: Option<real>)
  {
    b.None? || (a.Some? && a.value >= b.value)
  }

  /**
   * Equal positive weights rank rows exactly as their unweighted factor sums do.
   */
  lemma UniformWeightsKeepOrder(a: FactorCells, b: FactorCells, c: real)
    requires c > 0.0
    ensures ScoreGe(Score(a, Uniform(c)), Score(b, Uniform(c))) <==> ScoreGe(Unweighted(a), Unweighted(b))
  {
    UniformScore(a, c);
    UniformScore(b, c);
    if AllNumeric(a) && AllNumeric(b) {
      var x, y := RawSum(a), RawSum(b);
      assert c * x - c * y == c * (x - y);
      if x >= y {
        assert c * (x - y) >= 0.0;
      } else {
        assert c * (y - x) > 0.0;
      }
    }
  }

  /** Non-increasing by score, every missing score after all numeric ones. */
  predicate SortedByScore(s: seq<Ranked>)
  {
    forall i, j :: 0 <= i < j < |s| ==> ScoreGe(s[i].score, s[j].score)
  }

  /** Inserts `x` into a sorted ranking, in front of the first row it is not below. */
  function Insert(x: Ranked, s: seq<Ranked>): (r: seq<Ranked>)
    requires SortedByScore(s)
    ensures SortedByScore(r)
    ensures multiset(r) == multiset(s) + multiset{x}
  {
    if s == [] then [x]
    else if ScoreGe(x.score, s[0].score) then [x] + s
    else
      var rest := Insert(x, s[1..]);
      assert s == [s[0]] + s[1..];
      assert forall k :: 0 <= k < |rest| ==> ScoreGe(s[0].score, rest[k].score) by {
        forall k | 0 <= k < |rest| ensures ScoreGe(s[0].score, rest[k].score) {
          assert rest[k] in multiset(rest);
          if rest[k] != x {
            assert rest[k] in s[1..];
          }
        }
      }
      [s[0]] + rest
  }

  /**
   * The descending sort on the score column: some order of the rows that is
   * non-increasing in score with missing scores last. The tie order is not
   * part of any contract: pandas' default quicksort is not stable.
   */
  function SortByScore(s: seq<Ranked>): (r: seq<Ranked>)
    ensures SortedByScore(r)
    ensures multiset(r) == multiset(s)
  {
    if s == [] then []
    else
      assert s == [s[0]] + s[1..];
      Insert(s[0], SortByScore(s[1..]))
  }

  /** The first ten rows, or all of them when there are fewer. */
  function Top(s: seq<Ranked>): (t: seq<Ranked>)
    ensures |t| == (if |s| < TopN then |s| else TopN)
    ensures t == s[..|t|]
  {
    if |s| <= TopN then s else s[..TopN]
  }

  /** Each row projected to (Country, HappinessScore, Score). */
  function Projected(rows: seq<Row>, w: WeightVector): (r: seq<Ranked>)
    requires Covers(w)
    ensures |r| == |rows|
    ensures forall i :: 0 <= i < |rows| ==>
      r[i] == Ranked(rows[i].country, rows[i].happinessScore, Score(rows[i].cells, w))
  {
    seq(|rows|, i requires 0 <= i < |rows| => Ranked(rows[i].country, rows[i].happinessScore, Score(rows[i].cells, w)))
  }

  /**
   * `top` is a top-10 ranking of `all`, whatever the tie order: min(10, |all|)
   * rows, sorted by score descending with missing scores last, each row of
   * `all` used at most as often as it occurs there, and no row left out
   * scoring above a row kept.
   */
  predicate IsTopRanking(top: seq<Ranked>, all: seq<Ranked>)
  {
    && |top| == (if |all| < TopN then |all| else TopN)
    && SortedByScore(top)
    && multiset(top) <= multiset(all)
    && forall x, i :: 0 <= i < |top| && x in multiset(all) - multiset(top) ==> ScoreGe(top[i].score, x.score)
  }

  /**
   * Cutting a permutation of `all` after `k` rows keeps part of `all`, and
   * every row of `all` not kept lies in the rest of the cut.
   */
  lemma PrefixSplit(sorted: seq<Ranked>, all: seq<Ranked>, k: nat)
    requires multiset(sorted) == multiset(all) && k <= |sorted|
    ensures multiset(sorted[..k]) <= multiset(all)
    ensures forall x :: x in multiset(all) - multiset(sorted[..k]) ==> x in sorted[k..]
  {
    assert sorted == sorted[..k] + sorted[k..];
    assert multiset(sorted) == multiset(sorted[..k]) + multiset(sorted[k..]);
  }

  /** The first ten rows of any sorted permutation of `all` are a top-10 ranking of `all`. */
  lemma TopOfRanking(sorted: seq<Ranked>, all: seq<Ranked>)
    requires SortedByScore(sorted) && multiset(sorted) == multiset(all)
    ensures IsTopRanking(Top(sorted), all)
  {
    var top := Top(sorted);
    var k := |top|;
    assert |sorted| == |all| by {
      assert |multiset(sorted)| == |multiset(all)|;
    }
    assert top == sorted[..k];
    PrefixSplit(sorted, all, k);
    forall x, i | 0 <= i < k && x in multiset(all) - multiset(top)
      ensures ScoreGe(top[i].score, x.score)
    {
      var j :| k <= j < |sorted| && sorted[j] == x;
    }
  }
}
