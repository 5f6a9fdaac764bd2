/**
 * The dashboard: the same loader and ranking driven by six sliders, and the
 * view of the precomputed country clusters with their fixed descriptions.
 */
module Dashboard {
  import opened Wrappers
  import opened HappinessData
  import opened Subsequence
  import opened Ranking
  import Cli

  // ---------------------------------------------------------------------------
  // load_happiness_data

  /** The dashboard's loader: the 2024 rows in order, without the four dropped columns. */
  function LoadHappinessData(table: seq<RawRow>): (rows: seq<Row>)
    ensures |rows| == |Positions(table, Cli.IsReportingYear)|
    ensures forall k :: 0 <= k < |rows| ==>
      && rows[k].country == table[Positions(table, Cli.IsReportingYear)[k]].country
      && rows[k].happinessScore == table[Positions(table, Cli.IsReportingYear)[k]].happinessScore
      && rows[k].cells == table[Positions(table, Cli.IsReportingYear)[k]].cells
  {
    Cli.LoadAndPrepareData(table)
  }

  // ---------------------------------------------------------------------------
  // Weight sliders

  /**
   * Where a weight slider can rest: it spans [0,1] in steps of 0.05 and
   * starts at 0.5, so a position is a number of steps from 0 to 20.
   */
  type SliderStep = n: nat | n <= 20

  /** The initial position of every slider. */
  const DefaultStep: SliderStep := 10

  /** The value a slider at `n` steps reports. */
  function SliderValue(n: SliderStep): (v: real)
    ensures 0.0 <= v <= 1.0
    ensures n == DefaultStep ==> v == 0.5
  {
    n as real * 0.05
  }

  /**
   * Reads the six sliders, in canonical factor order, into the weight map:
   * every factor gets a weight, each within [0,1], with no validation needed.
   */
  method SliderWeights(positions: seq<SliderStep>) returns (weights: WeightVector)
    requires |positions| == |Factors|
    ensures Covers(weights) && weights.Keys == AllFactors
    ensures forall k :: 0 <= k < |Factors| ==> weights[Factors[k]] == SliderValue(positions[k])
    ensures forall f :: f in weights ==> 0.0 <= weights[f] <= 1.0
  {
    IndexInvertsFactors();
    ghost var values := seq(|positions|, k requires 0 <= k < |positions| => SliderValue(positions[k]));
    weights := map[];
    for i := 0 to |Factors|
      invariant Cli.HoldsFirst(weights, values, i)
    {
      weights := weights[Factors[i] := SliderValue(positions[i])];
    }
    FactorsComplete();
    forall f: Factor ensures f in weights && weights[f] == SliderValue(positions[f.Index()]) {
      assert Factors[f.Index()] == f;
    }
  }

  /**
   * The "Show personalized ranking" block: the slider weights, then the same
   * ranking as the text interface on a copy of the loaded rows.
   */
  method PersonalizedRanking(happiness: seq<Row>, positions: seq<SliderStep>)
      returns (weights: WeightVector, top10: seq<Ranked>)
    requires |positions| == |Factors|
    ensures Covers(weights)
    ensures forall k :: 0 <= k < |Factors| ==> weights[Factors[k]] == SliderValue(positions[k])
    ensures IsTopRanking(top10, Projected(happiness, weights))
    ensures forall i, j :: 0 <= i < j < |top10| && top10[i].score.None? ==> top10[j].score.None?
  {
    weights := SliderWeights(positions);
    top10 := Cli.ComputeScores(happiness, weights);
  }

  // ---------------------------------------------------------------------------
  // Cluster view

  /** A row of the precomputed cluster table. */
  datatype ClusterRow = ClusterRow(country: string, isoAlpha: string, cluster: int)

  predicate StrictlyIncreasing(s: seq<int>)
  {
    forall i, j :: 0 <= i < j < |s| ==> s[i] < s[j]
  }

  /** Adds `x` to a strictly increasing sequence, unless it is there already. */
  function InsertDistinct(x: int, s: seq<int>): (r: seq<int>)
    requires StrictlyIncreasing(s)
    ensures StrictlyIncreasing(r)
    ensures forall y :: y in r <==> y == x || y in s
  {
    if s == [] then [x]
    else if x < s[0] then [x] + s
    else if x == s[0] then s
    else
      var rest := InsertDistinct(x, s[1..]);
      assert forall k :: 0 <= k < |rest| ==> s[0] < rest[k] by {
        forall k | 0 <= k < |rest| ensures s[0] < rest[k] {
          assert rest[k] in rest;
          if rest[k] != x {
            assert rest[k] in s[1..];
          }
        }
      }
      [s[0]] + rest
  }

  /**
   * The cluster ids offered for selection: the distinct ids of the table in
   * increasing order, so strictly increasing and holding exactly the ids present.
   */
  function ClusterOptions(clusters: seq<ClusterRow>): (options: seq<int>)
    ensures StrictlyIncreasing(options)
    ensures forall c :: c in options <==> exists i :: 0 <= i < |clusters| && clusters[i].cluster == c
  {
    if clusters == [] then []
    else
      var init := clusters[..|clusters| - 1];
      assert forall i :: 0 <= i < |init| ==> init[i] == clusters[i];
      InsertDistinct(clusters[|clusters| - 1].cluster, ClusterOptions(init))
  }

  /** The row mask of the cluster filter: the row belongs to cluster `id`. */
  function ClusterIs(id: int): ClusterRow -> bool
  {
    (r: ClusterRow) => r.cluster == id
  }

  /** The rows of the selected cluster, in table order. */
  function FilterByCluster(clusters: seq<ClusterRow>, id: int): (filtered: seq<ClusterRow>)
    ensures |filtered| == |Positions(clusters, ClusterIs(id))|
    ensures forall k :: 0 <= k < |filtered| ==> filtered[k] == clusters[Positions(clusters, ClusterIs(id))[k]]
    ensures forall r :: r in filtered <==> r in clusters && r.cluster == id
  {
    FilterAtPositions(clusters, ClusterIs(id));
    Filter(clusters, ClusterIs(id))
  }

  /** The card shown for a cluster. */
  datatype ClusterDescription = ClusterDescription(
    emoji: string, title: string, desc: string, examples: string, avgScore: real)

  /** The fixed description table, keyed by cluster id. */
  const ClusterDescriptions: map<int, ClusterDescription> := map[
    0 := ClusterDescription(
      "🟡", "Cluster 0 — Moderately Happy",
      "Balanced countries with decent GDP, support, and health. Often upper-middle-income with improving quality of life.",
      "Poland, Czechia, Brazil, Taiwan", 6.07),
    1 := ClusterDescription(
      "🟠", "Cluster 1 — Under Pressure",
      "Lower income and health, but notable civic freedom and generosity. Often politically or economically strained.",
      "Ukraine, India, Iran, Nigeria", 4.93),
    2 := ClusterDescription(
      "🟢", "Cluster 2 — Most Prosperous",
      "High scores across GDP, health, and freedom. Strong institutions and high trust levels.",
      "Finland, Netherlands, Australia, Canada", 6.81),
    3 := ClusterDescription(
      "🔴", "Cluster 3 — Struggling Nations",
      "Low across all indicators. Includes fragile or conflict-affected countries with systemic issues.",
      "Afghanistan, Lebanon, DR Congo, Ethiopia", 4.09)
  ]

  /**
   * The table has a card for ids 0 to 3 and no other, and its average scores
   * order the clusters as their titles do: Most Prosperous (2) above
   * Moderately Happy (0) above Under Pressure (1) above Struggling Nations (3).
   */
  lemma CardsOrderedByAverage()
    ensures ClusterDescriptions.Keys == {0, 1, 2, 3}
    ensures ClusterDescriptions[2].avgScore > ClusterDescriptions[0].avgScore
            > ClusterDescriptions[1].avgScore > ClusterDescriptions[3].avgScore
  {
  }

  /** The lookup of an id that has no description card (a KeyError in Python). */
  datatype LookupError = UnknownCluster(id: int)

  /** The description card of a cluster: found for ids 0 to 3, an error for any other id. */
  function Describe(id: int): (r: Result<ClusterDescription, LookupError>)
    ensures r.Success? <==> 0 <= id <= 3
    ensures r.Success? ==> id in ClusterDescriptions && r.value == ClusterDescriptions[id]
    ensures r.Failure? ==> r.error == UnknownCluster(id)
  {
    if id in ClusterDescriptions then Success(ClusterDescriptions[id]) else Failure(UnknownCluster(id))
  }

  /**
   * Every selectable cluster has a description card exactly when every id in
   * the cluster table lies in 0..3.
   */
  lemma DescriptionsCoverOptions(clusters: seq<ClusterRow>)
    ensures (forall c :: c in ClusterOptions(clusters) ==> Describe(c).Success?)
        <==> (forall i :: 0 <= i < |clusters| ==> 0 <= clusters[i].cluster <= 3)
  {
    var options := ClusterOptions(clusters);
    if forall c :: c in options ==> Describe(c).Success? {
      forall i | 0 <= i < |clusters| ensures 0 <= clusters[i].cluster <= 3 {
        assert clusters[i].cluster in options;
      }
    }
  }

  /** What the cluster section shows: the selected id, its rows and its card. */
  datatype ClusterView = ClusterView(id: int, rows: seq<ClusterRow>, card: ClusterDescription)

  /**
   * The cluster section for the id picked on the radio (always one of the
   * options): its rows, never empty, and its card; an id without a card fails.
   */
  function ViewCluster(clusters: seq<ClusterRow>, selected: int): (r: Result<ClusterView, LookupError>)
    requires selected in ClusterOptions(clusters)
    ensures r.Success? <==> 0 <= selected <= 3
    ensures r.Success? ==> r.value.id == selected && r.value.rows != []
    ensures r.Success? ==> forall row :: row in r.value.rows <==> row in clusters && row.cluster == selected
    ensures r.Success? ==> r.value.rows == FilterByCluster(clusters, selected)
    ensures r.Success? ==> selected in ClusterDescriptions && r.value.card == ClusterDescriptions[selected]
  {
    var filtered := FilterByCluster(clusters, selected);
    var i :| 0 <= i < |clusters| && clusters[i].cluster == selected;
    assert clusters[i] in filtered;
    match Describe(selected)
    case Success(card) => Success(ClusterView(selected, filtered, card))
    case Failure(e) => Failure(e)
  }
}
