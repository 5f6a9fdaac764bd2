/**
 * The text interface: load the 2024 rows, read six weights from the keyboard,
 * and rank the countries by the weighted score.
 */
module Cli {
  import opened Wrappers
  import opened HappinessData
  import opened Subsequence
  import opened Ranking

  // ---------------------------------------------------------------------------
  // load_and_prepare_data

  /** The row mask of the loader: the row belongs to the reporting year. */
  predicate IsReportingYear(r: RawRow)
  {
    r.year == ReportingYear
  }

  /** Drops the columns Year, Rank, upperwhisker and lowerwhisker of one row. */
  function Drop(r: RawRow): Row
  {
    Row(r.country, r.happinessScore, r.cells)
  }

  /** Drops the four unused columns from every row of a frame. */
  function DropAll(table: seq<RawRow>): (rows: seq<Row>)
    ensures |rows| == |table|
    ensures forall k :: 0 <= k < |rows| ==> rows[k] == Drop(table[k])
  {
    if table == [] then [] else [Drop(table[0])] + DropAll(table[1..])
  }

  /** Dropping the columns of two frames one after the other drops them from their concatenation. */
  lemma {:induction false} DropAllAppend(a: seq<RawRow>, b: seq<RawRow>)
    ensures DropAll(a + b) == DropAll(a) + DropAll(b)
  {
    if a == [] {
      assert a + b == b;
    } else {
      assert (a + b)[1..] == a[1..] + b;
      DropAllAppend(a[1..], b);
    }
  }

  /**
   * The already-parsed CSV table restricted to the 2024 rows, in their order
   * and with duplicates kept, each without its four dropped columns.
   */
  function LoadAndPrepareData(table: seq<RawRow>): (rows: seq<Row>)
    ensures |rows| == |Positions(table, IsReportingYear)|
    ensures forall k :: 0 <= k < |rows| ==>
      && rows[k].country == table[Positions(table, IsReportingYear)[k]].country
      && rows[k].happinessScore == table[Positions(table, IsReportingYear)[k]].happinessScore
      && rows[k].cells == table[Positions(table, IsReportingYear)[k]].cells
  {
    FilterAtPositions(table, IsReportingYear);
    DropAll(Filter(table, IsReportingYear))
  }

  /** Loading two parts of a table loads each part, in order: nothing is reordered or merged. */
  lemma LoadAppend(a: seq<RawRow>, b: seq<RawRow>)
    ensures LoadAndPrepareData(a + b) == LoadAndPrepareData(a) + LoadAndPrepareData(b)
  {
    FilterAppend(a, b, IsReportingYear);
    var fa, fb := Filter(a, IsReportingYear), Filter(b, IsReportingYear);
    DropAllAppend(fa, fb);
  }

  /** A table with no 2024 row loads as the empty table, not as an error. */
  lemma LoadNoMatch(table: seq<RawRow>)
    requires forall i :: 0 <= i < |table| ==> table[i].year != ReportingYear
    ensures LoadAndPrepareData(table) == []
  {
  }

  // ---------------------------------------------------------------------------
  // get_user_weights

  /** One line typed at a prompt: the float it parses to, or None when it is not a number. */
  type Token = Option<real>

  /** Raised when the keyboard input ends before all six weights were given (EOFError). */
  datatype InputError = EndOfInput

  /** A token is stored as a weight when it parsed and lies in [0,1], bounds included. */
  predicate Accepts(t: Token)
  {
    t.Some? && 0.0 <= t.value <= 1.0
  }

  /** The values of the accepted tokens, in input order; every other token is skipped. */
  function Accepted(tokens: seq<Token>): (vs: seq<real>)
    ensures |vs| <= |tokens|
    ensures forall k :: 0 <= k < |vs| ==> 0.0 <= vs[k] <= 1.0
  {
    if tokens == [] then []
    else
      var last := tokens[|tokens| - 1];
      Accepted(tokens[..|tokens| - 1]) + (if Accepts(last) then [last.value] else [])
  }

  /** The accepted values of a prefix of the input are a prefix of the accepted values of all of it. */
  lemma {:induction false} AcceptedPrefix(tokens: seq<Token>, p: nat)
    requires p <= |tokens|
    ensures |Accepted(tokens[..p])| <= |Accepted(tokens)|
    ensures forall k :: 0 <= k < |Accepted(tokens[..p])| ==> Accepted(tokens[..p])[k] == Accepted(tokens)[k]
  {
    if p < |tokens| {
      var init := tokens[..|tokens| - 1];
      assert init[..p] == tokens[..p];
      AcceptedPrefix(init, p);
    } else {
      assert tokens[..p] == tokens;
    }
  }

  /** Reading one more token: it adds its value when accepted, and nothing otherwise. */
  lemma AcceptedStep(tokens: seq<Token>, p: nat)
    requires p < |tokens|
    ensures Accepted(tokens[..p + 1]) == Accepted(tokens[..p]) + (if Accepts(tokens[p]) then [tokens[p].value] else [])
  {
    assert tokens[..p + 1][..p] == tokens[..p];
  }

  /** The accepted values of two stretches of input, one after the other. */
  lemma {:induction false} AcceptedAppend(a: seq<Token>, b: seq<Token>)
    ensures Accepted(a + b) == Accepted(a) + Accepted(b)
  {
    if b != [] {
      var init := b[..|b| - 1];
      assert (a + b)[..|a + b| - 1] == a + init;
      AcceptedAppend(a, init);
    } else {
      assert a + b == a;
    }
  }

  /**
   * The boundaries: 1.0001, -0.0001 and an unparsable line are rejected, and
   * exactly 0 and exactly 1 are accepted.
   */
  lemma AcceptedBoundaries()
    ensures Accepted([Some(1.0001), Some(-0.0001), None, Some(0.0), Some(1.0)]) == [0.0, 1.0]
  {
    var rejected: seq<Token> := [Some(1.0001), Some(-0.0001), None];
    var accepted: seq<Token> := [Some(0.0), Some(1.0)];
    assert rejected + accepted == [Some(1.0001), Some(-0.0001), None, Some(0.0), Some(1.0)];
    AcceptedAppend(rejected, accepted);
    assert rejected[..2][..1][..0] == [];
    assert Accepted(rejected) == [];
    assert accepted[..1][..0] == [];
  }

  /** The weight map giving the k-th factor in canonical order the k-th value. */
  function WeightsOf(vs: seq<real>): (w: WeightVector)
    requires |vs| >= |Factors|
    ensures Covers(w) && w.Keys == AllFactors
    ensures forall k :: 0 <= k < |Factors| ==> w[Factors[k]] == vs[k]
  {
    FactorsComplete();
    IndexInvertsFactors();
    map f: Factor | f in Factors :: vs[f.Index()]
  }

  /** `w` holds the first `k` factors in canonical order, the j-th with value `vs[j]`. */
  predicate HoldsFirst(w: WeightVector, vs: seq<real>, k: nat)
  {
    && k <= |vs|
    && (forall f: Factor :: f in w <==> f.Index() < k)
    && (forall f: Factor :: f in w ==> w[f] == vs[f.Index()])
  }

  /** Once all six factors are stored from a prefix of the input, the map is the one the whole input determines. */
  lemma HoldsAllFactors(w: WeightVector, tokens: seq<Token>, p: nat)
    requires p <= |tokens| && HoldsFirst(w, Accepted(tokens[..p]), |Factors|)
    ensures |Accepted(tokens)| >= |Factors|
    ensures w == WeightsOf(Accepted(tokens))
  {
    AcceptedPrefix(tokens, p);
    var expected := WeightsOf(Accepted(tokens));
    forall f: Factor ensures f in w && f in expected && w[f] == expected[f] {
      assert Factors[f.Index()] == f;
    }
  }

  /** Storing the next value for factor `k` extends a map holding the first `k` factors to the first `k + 1`. */
  lemma StoreWeight(w: WeightVector, vs: seq<real>, k: nat, v: real)
    requires k < |Factors| && |vs| == k && HoldsFirst(w, vs, k)
    ensures HoldsFirst(w[Factors[k] := v], vs + [v], k + 1)
  {
    IndexInvertsFactors();
  }

  /**
   * The endless retry loop for one factor, reading from position `pos`.
   * It returns the first accepted value and the position after it, having
   * consumed every rejected token before it; or None when the input ends
   * first, having consumed it all and accepted nothing.
   */
  method AskFactor(tokens: seq<Token>, pos: nat) returns (value: Option<real>, next: nat)
    requires pos <= |tokens|
    ensures pos <= next <= |tokens|
    ensures value.None? ==> next == |tokens| && Accepted(tokens) == Accepted(tokens[..pos])
    ensures value.Some? ==>
      && pos < next && Accepts(tokens[next - 1]) && value.value == tokens[next - 1].value
      && Accepted(tokens[..next]) == Accepted(tokens[..pos]) + [value.value]
  {
    next := pos;
    while true
      invariant pos <= next <= |tokens|
      invariant Accepted(tokens[..next]) == Accepted(tokens[..pos])
      decreases |tokens| - next
    {
      if next == |tokens| {
        assert tokens[..next] == tokens;
        return None, next;
      }
      var t := tokens[next];
      AcceptedStep(tokens, next);
      next := next + 1;
      if Accepts(t) {
        return Some(t.value), next;
      }
    }
  }

  /**
   * The prompt loop over the tokens typed at the keyboard. Each factor in turn
   * takes the next accepted token; a rejected token is consumed and the same
   * factor is asked again. The result covers all six factors with values in
   * [0,1], the k-th factor taking the k-th accepted token. Input that ends
   * first raises EndOfInput.
   */
  method GetUserWeights(tokens: seq<Token>) returns (weights: Result<WeightVector, InputError>, used: nat)
    ensures used <= |tokens|
    ensures weights.Success? <==> |Accepted(tokens)| >= |Factors|
    ensures weights.Success? ==> weights.value.Keys == AllFactors
    ensures weights.Success? ==> forall f :: f in weights.value ==> 0.0 <= weights.value[f] <= 1.0
    ensures weights.Success? ==> weights.value == WeightsOf(Accepted(tokens))
    ensures weights.Success? ==> 0 < used && Accepts(tokens[used - 1]) && |Accepted(tokens[..used])| == |Factors|
    ensures weights.Failure? ==> used == |tokens|
  {
    var w: WeightVector := map[];
    var pos := 0;
    assert tokens[..0] == [];
    for k := 0 to |Factors|
      invariant pos <= |tokens|
      invariant |Accepted(tokens[..pos])| == k
      invariant k > 0 ==> pos > 0 && Accepts(tokens[pos - 1])
      invariant HoldsFirst(w, Accepted(tokens[..pos]), k)
    {
      var value, next := AskFactor(tokens, pos);
      if value.None? {
        return Failure(EndOfInput), next;
      }
      StoreWeight(w, Accepted(tokens[..pos]), k, value.value);
      w := w[Factors[k] := value.value];
      pos := next;
    }
    HoldsAllFactors(w, tokens, pos);
    weights, used := Success(w), pos;
  }

  // ---------------------------------------------------------------------------
  // compute_scores

  /** Replaces the column of factor `f` of a frame by its numeric coercion. */
  function CoerceColumn(df: seq<Row>, f: Factor): (r: seq<Row>)
    ensures |r| == |df|
    ensures forall i :: 0 <= i < |df| ==>
      && r[i].country == df[i].country && r[i].happinessScore == df[i].happinessScore
      && r[i].cells.Get(f) == Coerce(df[i].cells.Get(f))
      && forall g :: g != f ==> r[i].cells.Get(g) == df[i].cells.Get(g)
  {
    seq(|df|, i requires 0 <= i < |df| => df[i].(cells := df[i].cells.Set(f, Coerce(df[i].cells.Get(f)))))
  }

  /**
   * Ranks the rows by the weighted score. The caller's rows are left as they
   * are: the coercion works on a copy. The result is a top-10 ranking of the
   * rows projected to (Country, HappinessScore, Score): min(10, |rows|) rows,
   * sorted by score descending with missing scores last, each input row used
   * at most once, and no input row left out scoring above any row returned.
   * Tied rows may come in any order.
   */
  method ComputeScores(rows: seq<Row>, weights: WeightVector) returns (top: seq<Ranked>)
    requires Covers(weights)
    ensures IsTopRanking(top, Projected(rows, weights))
    ensures forall i, j :: 0 <= i < j < |top| && top[i].score.None? ==> top[j].score.None?
  {
    var df := rows;
    for k := 0 to |Factors|
      invariant |df| == |rows|
      invariant forall i :: 0 <= i < |df| ==>
        df[i].country == rows[i].country && df[i].happinessScore == rows[i].happinessScore
      invariant forall i, f: Factor :: 0 <= i < |df| ==>
        df[i].cells.Get(f) == if f.Index() < k then Coerce(rows[i].cells.Get(f)) else rows[i].cells.Get(f)
    {
      df := CoerceColumn(df, Factors[k]);
      IndexInvertsFactors();
    }
    forall i | 0 <= i < |df| ensures df[i].cells == CoerceAll(rows[i].cells) {
      forall f: Factor ensures df[i].cells.Get(f) == CoerceAll(rows[i].cells).Get(f) {
        assert f.Index() < |Factors|;
      }
      CellsExtensional(df[i].cells, CoerceAll(rows[i].cells));
    }
    var scored := seq(|df|, i requires 0 <= i < |df| =>
      Ranked(df[i].country, df[i].happinessScore, WeightedSum(df[i].cells, weights, |Factors|)));
    assert scored == Projected(rows, weights);
    var sorted := SortByScore(scored);
    TopOfRanking(sorted, scored);
    top := Top(sorted);
  }

  /** The weights of the worked example: GDP alone counts. */
  function GdpOnly(): (w: WeightVector)
    ensures Covers(w) && w[GDP] == 1.0
    ensures forall f :: f in w && f != GDP ==> w[f] == 0.0
  {
    FactorsComplete();
    map f: Factor | f in Factors :: if f == GDP then 1.0 else 0.0
  }

  /** Factor cells all holding numbers, given in canonical order. */
  function Cells(g: real, s: real, l: real, f: real, e: real, c: real): FactorCells
  {
    FactorCells(Num(g), Num(s), Num(l), Num(f), Num(e), Num(c))
  }

  /**
   * A top-10 ranking of three rows with distinct numeric scores, given in any
   * order, lists them from highest to lowest.
   */
  lemma {:induction false} ThreeDistinctScores(top: seq<Ranked>, all: seq<Ranked>, p: Ranked, q: Ranked, r: Ranked)
    requires multiset(all) == multiset{p, q, r}
    requires p.score.Some? && q.score.Some? && r.score.Some?
    requires p.score.value > q.score.value > r.score.value
    requires IsTopRanking(top, all)
    ensures top == [p, q, r]
  {
    assert |all| == |multiset(all)| == 3;
    assert top == [top[0], top[1], top[2]];
    forall i | 0 <= i < 3 ensures top[i] == p || top[i] == q || top[i] == r {
      assert top[i] in multiset(top);
    }
    assert multiset(all)[p] == 1 && multiset(all)[q] == 1 && multiset(all)[r] == 1;
  }

  /**
   * The worked example: A (GDP 0.9, support 0.8), B (GDP 0.1, support 0.1)
   * and C (every factor 0.5) weighted on GDP alone score 0.9, 0.1 and 0.5, and
   * every top-10 ranking of them is A, C, B: with no ties the order is fixed.
   */
  lemma GdpOnlyScenario(top: seq<Ranked>)
    requires IsTopRanking(top, Projected([
      Row("A", 7.0, Cells(0.9, 0.8, 0.0, 0.0, 0.0, 0.0)),
      Row("B", 5.0, Cells(0.1, 0.1, 0.0, 0.0, 0.0, 0.0)),
      Row("C", 6.0, Cells(0.5, 0.5, 0.5, 0.5, 0.5, 0.5))], GdpOnly()))
    ensures top == [Ranked("A", 7.0, Some(0.9)), Ranked("C", 6.0, Some(0.5)), Ranked("B", 5.0, Some(0.1))]
  {
    var w := GdpOnly();
    var ca, cb, cc := Cells(0.9, 0.8, 0.0, 0.0, 0.0, 0.0), Cells(0.1, 0.1, 0.0, 0.0, 0.0, 0.0),
                      Cells(0.5, 0.5, 0.5, 0.5, 0.5, 0.5);
    ScoreClosedForm(ca, w);
    ScoreClosedForm(cb, w);
    ScoreClosedForm(cc, w);
    var a, b, c := Ranked("A", 7.0, Some(0.9)), Ranked("B", 5.0, Some(0.1)), Ranked("C", 6.0, Some(0.5));
    var all := Projected([Row("A", 7.0, ca), Row("B", 5.0, cb), Row("C", 6.0, cc)], w);
    assert all == [a, b, c];
    assert multiset(all) == multiset{a, c, b};
    ThreeDistinctScores(top, all, a, c, b);
  }

  /**
   * The whole text session: load, read the weights, rank. It fails only when
   * the keyboard input ends before six weights were accepted.
   */
  method Run(table: seq<RawRow>, tokens: seq<Token>) returns (result: Result<seq<Ranked>, InputError>)
    ensures result.Success? <==> |Accepted(tokens)| >= |Factors|
    ensures result.Success? ==>
      IsTopRanking(result.value, Projected(LoadAndPrepareData(table), WeightsOf(Accepted(tokens))))
  {
    var df := LoadAndPrepareData(table);
    var weights, _ := GetUserWeights(tokens);
    if weights.Failure? {
      return Failure(weights.error);
    }
    var top := ComputeScores(df, weights.value);
    result := Success(top);
  }
}
