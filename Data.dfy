/** The rows of the happiness dataset and the six scoring factors. */
module HappinessData {
  import opened Wrappers

  /** The six well-being factors, one column each in the dataset. */
  datatype Factor = GDP | SocialSupport | LifeExpectancy | Freedom | Generosity | Corruption
  {
    /** Position of the factor in the canonical order `Factors`. */
    function Index(): (i: nat)
      ensures i < |Factors| && Factors[i] == this
    {
      match this
      case GDP => 0
      case SocialSupport => 1
      case LifeExpectancy => 2
      case Freedom => 3
      case Generosity => 4
      case Corruption => 5
    }
  }

  /** The canonical order in which factors are prompted for and summed. */
  const Factors: seq<Factor> := [GDP, SocialSupport, LifeExpectancy, Freedom, Generosity, Corruption]

  /** The six factors as a set: the keys every weight map must have. */
  const AllFactors: set<Factor> := {GDP, SocialSupport, LifeExpectancy, Freedom, Generosity, Corruption}

  /** Every factor occurs in the canonical order and in the set of all factors. */
  lemma FactorsComplete()
    ensures forall f: Factor :: f in Factors && f in AllFactors
  {
    forall f: Factor ensures f in Factors && f in AllFactors {
      assert Factors[f.Index()] == f;
    }
  }

  /** The factors in canonical order are pairwise distinct: `Index` inverts `Factors`. */
  lemma IndexInvertsFactors()
    ensures forall i :: 0 <= i < |Factors| ==> Factors[i].Index() == i
  {
  }

  /** The only reporting year the loaders keep. */
  const ReportingYear: int := 2024

  /**
   * One cell of a factor column as it arrives from the CSV reader: a number,
   * an empty cell (NaN), or text that is not a number.
   */
  datatype Cell = Num(value: real) | Missing | Text(text: string)

  /** The six factor cells of one row. */
  datatype FactorCells = FactorCells(
    gdp: Cell, socialSupport: Cell, lifeExpectancy: Cell,
    freedom: Cell, generosity: Cell, corruption: Cell)
  {
    /** The cell in the column of factor `f`. */
    function Get(f: Factor): Cell
    {
      match f
      case GDP => gdp
      case SocialSupport => socialSupport
      case LifeExpectancy => lifeExpectancy
      case Freedom => freedom
      case Generosity => generosity
      case Corruption => corruption
    }

    /** The same cells with the one in column `f` overwritten by `c`. */
    function Set(f: Factor, c: Cell): (r: FactorCells)
      ensures r.Get(f) == c
      ensures forall g: Factor :: g != f ==> r.Get(g) == Get(g)
    {
      match f
      case GDP => this.(gdp := c)
      case SocialSupport => this.(socialSupport := c)
      case LifeExpectancy => this.(lifeExpectancy := c)
      case Freedom => this.(freedom := c)
      case Generosity => this.(generosity := c)
      case Corruption => this.(corruption := c)
    }
  }

  /** Two rows of factor cells that agree on every factor are the same. */
  lemma CellsExtensional(a: FactorCells, b: FactorCells)
    requires forall f: Factor :: a.Get(f) == b.Get(f)
    ensures a == b
  {
    assert a.Get(GDP) == b.Get(GDP) && a.Get(SocialSupport) == b.Get(SocialSupport);
    assert a.Get(LifeExpectancy) == b.Get(LifeExpectancy) && a.Get(Freedom) == b.Get(Freedom);
    assert a.Get(Generosity) == b.Get(Generosity) && a.Get(Corruption) == b.Get(Corruption);
  }

  /** A row of the happiness CSV as read, with every column of its schema. */
  datatype RawRow = RawRow(
    country: string, year: int, rank: int, happinessScore: real,
    upperWhisker: real, lowerWhisker: real, cells: FactorCells)

  /** A loaded row: the raw row without Year, Rank, upperwhisker and lowerwhisker. */
  datatype Row = Row(country: string, happinessScore: real, cells: FactorCells)

  /** One line of the ranking: Country, HappinessScore and the personal Score (None for NaN). */
  datatype Ranked = Ranked(country: string, happinessScore: real, score: Option<real>)
}
