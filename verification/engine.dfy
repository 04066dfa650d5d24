/**
 * The scoreline probability engine: two Poisson-like coefficient vectors built
 * from recent form, an 11x11 grid of joint scoreline probabilities with a
 * low-score correction, and the market probabilities obtained by summing the
 * grid over sets of cells.
 *
 * Probabilities are real numbers. `exp` (the exponential of the standard
 * library) is not modelled and is passed to the constructor; integer powers
 * and factorials are exact.
 */
module Engine {

  /** Goal counts 0 .. GridSize - 1 are modelled for each side; higher counts are truncated. */
  const GridSize: int := 11

  /** A set of scoreline cells (homeGoals, awayGoals), given by its membership test. */
  type Region = (int, int) -> bool

  // ---------------------------------------------------------------------------
  // Coefficient builder
  // ---------------------------------------------------------------------------

  /** n! for n >= 0; like Go's `fact` loop, it yields 1 for every n <= 1. */
  function Factorial(n: int): (r: int)
    ensures r >= 1
    ensures n >= 1 ==> r >= n
    decreases n
  {
    if n <= 1 then 1 else n * Factorial(n - 1)
  }

  /** Go's iterative `fact`: multiplies 2..n into an accumulator. */
  method Fact(n: int) returns (result: int)
    ensures result == Factorial(n)
    ensures result >= 1
  {
    result := 1;
    var i := 2;
    while i <= n
      invariant 2 <= i <= (if n >= 2 then n + 1 else 2)
      invariant result == Factorial(i - 1)
    {
      result := result * i;
      i := i + 1;
    }
  }

  /** x raised to a natural exponent, as the standard library's power gives it for integral exponents. */
  function Pow(x: real, k: nat): (r: real)
    ensures x >= 0.0 ==> r >= 0.0
    ensures x == 0.0 ==> r == (if k == 0 then 1.0 else 0.0)
  {
    if k == 0 then 1.0 else x * Pow(x, k - 1)
  }

  /** The Poisson mass rate^i * exp(-rate) / i! of goal count i. */
  function CalcCoefficient(rate: real, i: nat, exp: real -> real): (c: real)
    ensures rate >= 0.0 && exp(-rate) >= 0.0 ==> c >= 0.0
    ensures rate == 0.0 ==> c == (if i == 0 then exp(0.0) else 0.0)
  {
    var f := Factorial(i) as real;
    assert f >= 1.0;
    Pow(rate, i) * exp(-rate) / f
  }

  /** A value lies between two bounds, in either order. */
  predicate Between(v: real, a: real, b: real) {
    (a <= v <= b) || (b <= v <= a)
  }

  /**
   * Expected goals of each side: the mean of its own scoring rate and the
   * opponent's conceding rate.
   */
  function CalcLambdas(homeScoredAverage: real, homeConcededAverage: real,
                       awayScoredAverage: real, awayConcededAverage: real): (lambdas: (real, real))
    ensures Between(lambdas.0, homeScoredAverage, awayConcededAverage)
    ensures Between(lambdas.1, awayScoredAverage, homeConcededAverage)
    ensures lambdas.0 - homeScoredAverage == awayConcededAverage - lambdas.0
    ensures lambdas.1 - awayScoredAverage == homeConcededAverage - lambdas.1
  {
    ((homeScoredAverage + awayConcededAverage) / 2.0, (awayScoredAverage + homeConcededAverage) / 2.0)
  }

  /** The lambdas that construction derives from the six form figures. */
  function FormLambdas(matchCountHome: int, matchCountAway: int, homeScored: int, homeConceded: int,
                       awayScored: int, awayConceded: int): (real, real)
    requires matchCountHome > 0 && matchCountAway > 0
  {
    CalcLambdas(homeScored as real / matchCountHome as real, homeConceded as real / matchCountHome as real,
                awayScored as real / matchCountAway as real, awayConceded as real / matchCountAway as real)
  }

  lemma ProductSign(a: real, b: real)
    ensures a >= 0.0 && b >= 0.0 ==> a * b >= 0.0
    ensures a > 0.0 && b > 0.0 ==> a * b > 0.0
  {
  }

  /** Form averages of at most ten goals a match give lambdas in [0, 10]. */
  lemma LambdasWithinTen(matchCountHome: int, matchCountAway: int, homeScored: int, homeConceded: int,
                         awayScored: int, awayConceded: int)
    requires matchCountHome > 0 && matchCountAway > 0
    requires 0 <= homeScored <= 10 * matchCountHome && 0 <= homeConceded <= 10 * matchCountHome
    requires 0 <= awayScored <= 10 * matchCountAway && 0 <= awayConceded <= 10 * matchCountAway
    ensures var l := FormLambdas(matchCountHome, matchCountAway, homeScored, homeConceded, awayScored, awayConceded);
            0.0 <= l.0 <= 10.0 && 0.0 <= l.1 <= 10.0
  {
    AverageWithinTen(homeScored, matchCountHome);
    AverageWithinTen(homeConceded, matchCountHome);
    AverageWithinTen(awayScored, matchCountAway);
    AverageWithinTen(awayConceded, matchCountAway);
  }

  lemma AverageWithinTen(goals: int, count: int)
    requires count > 0 && 0 <= goals <= 10 * count
    ensures 0.0 <= goals as real / count as real <= 10.0
  {
    var avg, c := goals as real / count as real, count as real;
    assert avg * c == goals as real;
    assert (avg - 10.0) * c == goals as real - 10.0 * c;
    ProductSign(avg - 10.0, c);
  }

  /** The regression fixture: 5 matches each, 6/5 and 7/5 scored, 5/5 conceded, gives 1.1 and 1.2. */
  lemma FixtureLambdas()
    ensures FormLambdas(5, 5, 6, 5, 7, 5) == (1.1, 1.2)
  {
  }

  // ---------------------------------------------------------------------------
  // The result matrix
  // ---------------------------------------------------------------------------

  /** The low-score correction applied to the independent product of cell (homeResult, awayResult). */
  function CorrectionFactor(homeResult: int, awayResult: int, lambdaHome: real, lambdaAway: real): (c: real)
    ensures 0.0 <= lambdaHome <= 10.0 && 0.0 <= lambdaAway <= 10.0 ==> c >= 0.0
    ensures !(0 <= homeResult <= 1 && 0 <= awayResult <= 1) ==> c == 1.0
  {
    if homeResult == 0 && awayResult == 0 then
      ProductSign(lambdaHome, lambdaAway);
      1.0 + lambdaHome * lambdaAway * 0.1
    else if homeResult == 1 && awayResult == 0 then 1.0 - lambdaAway * 0.1
    else if homeResult == 0 && awayResult == 1 then 1.0 - lambdaHome * 0.1
    else if homeResult == 1 && awayResult == 1 then 1.1
    else 1.0
  }


  /** A coefficient vector: one entry per goal count 0 .. GridSize - 1, as the constructor allocates it. */
  type Coefficients = s: seq<real> | |s| == GridSize witness seq(GridSize, _ => 0.0)

  datatype ResultMatrix = ResultMatrix(
    homeCoefficients: Coefficients,
    awayCoefficients: Coefficients,
    lambdaHome: real,
    lambdaAway: real)
  {
    /** Joint probability of the scoreline homeResult-awayResult. */
    function GetResultProbability(homeResult: int, awayResult: int): (p: real)
      requires 0 <= homeResult < GridSize && 0 <= awayResult < GridSize
      ensures (&& homeCoefficients[homeResult] >= 0.0 && awayCoefficients[awayResult] >= 0.0
               && 0.0 <= lambdaHome <= 10.0 && 0.0 <= lambdaAway <= 10.0) ==> p >= 0.0
    {
      var base := homeCoefficients[homeResult] * awayCoefficients[awayResult];
      var c := CorrectionFactor(homeResult, awayResult, lambdaHome, lambdaAway);
      assert base >= 0.0 && c >= 0.0 ==> base * c >= 0.0;
      base * c
    }

    method GetTotalProbability() returns (sum: real)
      ensures sum == Total(this)
    {
      sum := 0.0;
      var homeResult := 0;
      while homeResult < GridSize
        invariant 0 <= homeResult <= GridSize
        invariant sum == RowsSum(this, EveryCell, homeResult, GridSize)
      {
        var awayResult := 0;
        while awayResult < GridSize
          invariant 0 <= awayResult <= GridSize
          invariant sum == RowsSum(this, EveryCell, homeResult, GridSize) + RowSum(this, EveryCell, homeResult, awayResult)
        {
          sum := sum + GetResultProbability(homeResult, awayResult);
          awayResult := awayResult + 1;
        }
        homeResult := homeResult + 1;
      }
    }

    method GetDrawProbability() returns (sum: real)
      ensures sum == Mass(this, DrawCell)
    {
      sum := 0.0;
      var i := 0;
      while i < GridSize
        invariant 0 <= i <= GridSize
        invariant sum == RowsSum(this, DrawCell, i, GridSize)
      {
        RowSumOfOneCell(this, DrawCell, i, i, GridSize);
        sum := sum + GetResultProbability(i, i);
        i := i + 1;
      }
    }

    method GetHomeWinProbability() returns (sum: real)
      ensures sum == Mass(this, HomeWinCell)
    {
      sum := 0.0;
      RowsSumTail(this, HomeWinCell, 0, 1, GridSize);
      var homeGoals := 1;
      while homeGoals < GridSize
        invariant 1 <= homeGoals <= GridSize
        invariant sum == RowsSum(this, HomeWinCell, homeGoals, GridSize)
      {
        var awayGoals := 0;
        while awayGoals < homeGoals
          invariant 0 <= awayGoals <= homeGoals
          invariant sum == RowsSum(this, HomeWinCell, homeGoals, GridSize) + RowSum(this, HomeWinCell, homeGoals, awayGoals)
        {
          sum := sum + GetResultProbability(homeGoals, awayGoals);
          awayGoals := awayGoals + 1;
        }
        RowSumTail(this, HomeWinCell, homeGoals, homeGoals, GridSize);
        homeGoals := homeGoals + 1;
      }
    }

    /** Sums column by column (away goals outermost), as `GetAwayWinProbability` in result_matrix.go does. */
    method GetAwayWinProbability() returns (sum: real)
      ensures sum == Mass(this, AwayWinCell)
    {
      sum := 0.0;
      ColumnSumTail(this, AwayWinCell, 0, 0, GridSize);
      var awayGoals := 1;
      while awayGoals < GridSize
        invariant 1 <= awayGoals <= GridSize
        invariant sum == ColumnsSum(this, AwayWinCell, awayGoals, GridSize)
      {
        var homeGoals := 0;
        while homeGoals < awayGoals
          invariant 0 <= homeGoals <= awayGoals
          invariant sum == ColumnsSum(this, AwayWinCell, awayGoals, GridSize) + ColumnSum(this, AwayWinCell, awayGoals, homeGoals)
        {
          sum := sum + GetResultProbability(homeGoals, awayGoals);
          homeGoals := homeGoals + 1;
        }
        ColumnSumTail(this, AwayWinCell, awayGoals, awayGoals, GridSize);
        awayGoals := awayGoals + 1;
      }
      RowsColumnsSwap(this, AwayWinCell, GridSize, GridSize);
    }

    method GetHomeWinOrDrawProbability() returns (p: real)
      ensures p == Mass(this, HomeWinOrDrawCell)
    {
      var homeWin := GetHomeWinProbability();
      var draw := GetDrawProbability();
      p := homeWin + draw;
      MassSplit(this, HomeWinOrDrawCell, HomeWinCell, DrawCell);
    }

    method GetAwayWinOrDrawProbability() returns (p: real)
      ensures p == Mass(this, AwayWinOrDrawCell)
    {
      var awayWin := GetAwayWinProbability();
      var draw := GetDrawProbability();
      p := awayWin + draw;
      MassSplit(this, AwayWinOrDrawCell, AwayWinCell, DrawCell);
    }

    method GetHomeWinOrAwayWinProbability() returns (p: real)
      ensures p == Mass(this, HomeWinOrAwayWinCell)
    {
      var homeWin := GetHomeWinProbability();
      var awayWin := GetAwayWinProbability();
      p := homeWin + awayWin;
      MassSplit(this, HomeWinOrAwayWinCell, HomeWinCell, AwayWinCell);
    }

    /**
     * Over line.5 goals, for line in 0..7: each branch is the formula of the
     * corresponding getter (two hand-listed lines, then the generic loop).
     */
    method GetOverGoalsProbability(line: int) returns (p: real)
      requires 0 <= line <= 7
      ensures p == Mass(this, MoreThanGoals(line))
    {
      if line == 0 {
        var total := GetTotalProbability();
        p := total - GetResultProbability(0, 0);
        LowGoalLines(this);
        GoalLineSplit(this, 0);
      } else if line == 1 {
        var total := GetTotalProbability();
        p := total - GetResultProbability(0, 0) - GetResultProbability(0, 1) - GetResultProbability(1, 0);
        LowGoalLines(this);
        GoalLineSplit(this, 1);
      } else {
        p := CalcGenericOverXGoalsProbability(this, line + 1);
      }
    }

    /** Under line.5 goals, for line in 0..7: the 0-0 cell for line 0, otherwise Total - Over. */
    method GetUnderGoalsProbability(line: int) returns (p: real)
      requires 0 <= line <= 7
      ensures p == Mass(this, AtMostGoals(line))
    {
      if line == 0 {
        p := GetResultProbability(0, 0);
        LowGoalLines(this);
      } else {
        var total := GetTotalProbability();
        var over := GetOverGoalsProbability(line);
        p := total - over;
        GoalLineSplit(this, line);
      }
    }

    /** At least one goal in the match. */
    method GetGoalProbability() returns (p: real)
      ensures p == Mass(this, MoreThanGoals(0))
    {
      var total := GetTotalProbability();
      p := total - GetResultProbability(0, 0);
      LowGoalLines(this);
      GoalLineSplit(this, 0);
    }

    method GetNoGoalProbability() returns (p: real)
      ensures p == Mass(this, AtMostGoals(0))
    {
      p := GetResultProbability(0, 0);
      LowGoalLines(this);
    }

    method GetHomeGoalProbability() returns (sum: real)
      ensures sum == Mass(this, HomeScoresCell)
    {
      sum := 0.0;
      RowsSumTail(this, HomeScoresCell, 0, 1, GridSize);
      var homeGoals := 1;
      while homeGoals < GridSize
        invariant 1 <= homeGoals <= GridSize
        invariant sum == RowsSum(this, HomeScoresCell, homeGoals, GridSize)
      {
        var awayGoals := 0;
        while awayGoals < GridSize
          invariant 0 <= awayGoals <= GridSize
          invariant sum == RowsSum(this, HomeScoresCell, homeGoals, GridSize) + RowSum(this, HomeScoresCell, homeGoals, awayGoals)
        {
          sum := sum + GetResultProbability(homeGoals, awayGoals);
          awayGoals := awayGoals + 1;
        }
        homeGoals := homeGoals + 1;
      }
    }

    method GetNoHomeGoalProbability() returns (p: real)
      ensures p == Mass(this, HomeBlankCell)
    {
      var total := GetTotalProbability();
      var homeGoal := GetHomeGoalProbability();
      p := total - homeGoal;
      MassSplit(this, EveryCell, HomeScoresCell, HomeBlankCell);
    }

    method GetAwayGoalProbability() returns (sum: real)
      ensures sum == Mass(this, AwayScoresCell)
    {
      sum := 0.0;
      var homeGoals := 0;
      while homeGoals < GridSize
        invariant 0 <= homeGoals <= GridSize
        invariant sum == RowsSum(this, AwayScoresCell, homeGoals, GridSize)
      {
        var awayGoals := 1;
        while awayGoals < GridSize
          invariant 1 <= awayGoals <= GridSize
          invariant sum == RowsSum(this, AwayScoresCell, homeGoals, GridSize) + RowSum(this, AwayScoresCell, homeGoals, awayGoals)
        {
          sum := sum + GetResultProbability(homeGoals, awayGoals);
          awayGoals := awayGoals + 1;
        }
        homeGoals := homeGoals + 1;
      }
    }

    method GetNoAwayGoalProbability() returns (p: real)
      ensures p == Mass(this, AwayBlankCell)
    {
      var total := GetTotalProbability();
      var awayGoal := GetAwayGoalProbability();
      p := total - awayGoal;
      MassSplit(this, EveryCell, AwayScoresCell, AwayBlankCell);
    }
  }

  /** Over (x - 1).5 goals: the total minus the triangle of cells with fewer than x goals. */
  method CalcGenericOverXGoalsProbability(rm: ResultMatrix, x: int) returns (sum: real)
    requires x <= GridSize
    ensures sum == Total(rm) - Mass(rm, AtMostGoals(x - 1))
    ensures sum == Mass(rm, MoreThanGoals(x - 1))
  {
    sum := rm.GetTotalProbability();
    var homeGoals := 0;
    while homeGoals < x
      invariant 0 <= homeGoals <= (if x < 0 then 0 else x)
      invariant sum == Total(rm) - RowsSum(rm, AtMostGoals(x - 1), homeGoals, GridSize)
    {
      var awayGoals := 0;
      while awayGoals < x - homeGoals
        invariant 0 <= awayGoals <= x - homeGoals
        invariant sum == Total(rm) - RowsSum(rm, AtMostGoals(x - 1), homeGoals, GridSize)
                         - RowSum(rm, AtMostGoals(x - 1), homeGoals, awayGoals)
      {
        sum := sum - rm.GetResultProbability(homeGoals, awayGoals);
        awayGoals := awayGoals + 1;
      }
      RowSumTail(rm, AtMostGoals(x - 1), homeGoals, x - homeGoals, GridSize);
      homeGoals := homeGoals + 1;
    }
    RowsSumTail(rm, AtMostGoals(x - 1), homeGoals, GridSize, GridSize);
    GoalLineSplit(rm, x - 1);
  }

  /** The coefficient vectors are the Poisson masses of the two lambdas. */
  ghost predicate BuiltFrom(rm: ResultMatrix, exp: real -> real) {
    && (forall i: nat :: i < GridSize ==> rm.homeCoefficients[i] == CalcCoefficient(rm.lambdaHome, i, exp))
    && (forall i: nat :: i < GridSize ==> rm.awayCoefficients[i] == CalcCoefficient(rm.lambdaAway, i, exp))
  }

  /** Builds the matrix from the six form figures; both match counts must be positive. */
  method NewResultMatrix(matchCountHome: int, matchCountAway: int, homeScored: int, homeConceded: int,
                         awayScored: int, awayConceded: int, exp: real -> real) returns (rm: ResultMatrix)
    requires matchCountHome > 0 && matchCountAway > 0
    ensures BuiltFrom(rm, exp)
    ensures (rm.lambdaHome, rm.lambdaAway)
            == FormLambdas(matchCountHome, matchCountAway, homeScored, homeConceded, awayScored, awayConceded)
  {
    var hc := new real[GridSize];
    var ac := new real[GridSize];
    var homeScoredAverage := homeScored as real / matchCountHome as real;
    var homeConcededAverage := homeConceded as real / matchCountHome as real;
    var awayScoredAverage := awayScored as real / matchCountAway as real;
    var awayConcededAverage := awayConceded as real / matchCountAway as real;
    var lambdas := CalcLambdas(homeScoredAverage, homeConcededAverage, awayScoredAverage, awayConcededAverage);
    var lambdaHome, lambdaAway := lambdas.0, lambdas.1;
    var i := 0;
    while i < GridSize
      invariant 0 <= i <= GridSize
      invariant forall k: nat :: k < i ==> hc[k] == CalcCoefficient(lambdaHome, k, exp)
      invariant forall k: nat :: k < i ==> ac[k] == CalcCoefficient(lambdaAway, k, exp)
    {
      hc[i] := CalcCoefficient(lambdaHome, i, exp);
      ac[i] := CalcCoefficient(lambdaAway, i, exp);
      i := i + 1;
    }
    rm := ResultMatrix(hc[..], ac[..], lambdaHome, lambdaAway);
  }

  // ---------------------------------------------------------------------------
  // Markets as regions of the grid
  // ---------------------------------------------------------------------------

  predicate EveryCell(i: int, j: int) { true }
  predicate NoCell(i: int, j: int) { false }
  predicate HomeWinCell(i: int, j: int) { i > j }
  predicate DrawCell(i: int, j: int) { i == j }
  predicate AwayWinCell(i: int, j: int) { i < j }
  predicate HomeWinOrDrawCell(i: int, j: int) { i >= j }
  predicate AwayWinOrDrawCell(i: int, j: int) { i <= j }
  predicate HomeWinOrAwayWinCell(i: int, j: int) { i != j }
  predicate HomeScoresCell(i: int, j: int) { i >= 1 }
  predicate HomeBlankCell(i: int, j: int) { i == 0 }
  predicate AwayScoresCell(i: int, j: int) { j >= 1 }
  predicate AwayBlankCell(i: int, j: int) { j == 0 }

  /** Scorelines with at most n goals in total (the "under n.5" market). */
  function AtMostGoals(n: int): Region {
    (i, j) => i + j <= n
  }

  /** Scorelines with more than n goals in total (the "over n.5" market). */
  function MoreThanGoals(n: int): Region {
    (i, j) => i + j > n
  }

  /** The single scoreline a-b. */
  function IsCell(a: int, b: int): Region {
    (i, j) => i == a && j == b
  }

  function Either(p: Region, q: Region): Region {
    (i, j) => p(i, j) || q(i, j)
  }

  // ---------------------------------------------------------------------------
  // Sums over regions
  // ---------------------------------------------------------------------------

  function Term(rm: ResultMatrix, p: Region, i: int, j: int): real
    requires 0 <= i < GridSize && 0 <= j < GridSize
  {
    if p(i, j) then rm.GetResultProbability(i, j) else 0.0
  }

  /** Row i, columns 0 .. n - 1. */
  function RowSum(rm: ResultMatrix, p: Region, i: int, n: int): real
    requires 0 <= i < GridSize && 0 <= n <= GridSize
  {
    if n == 0 then 0.0 else RowSum(rm, p, i, n - 1) + Term(rm, p, i, n - 1)
  }

  /** Column j, rows 0 .. m - 1. */
  function ColumnSum(rm: ResultMatrix, p: Region, j: int, m: int): real
    requires 0 <= j < GridSize && 0 <= m <= GridSize
  {
    if m == 0 then 0.0 else ColumnSum(rm, p, j, m - 1) + Term(rm, p, m - 1, j)
  }

  /** Rows 0 .. m - 1, each over columns 0 .. n - 1 (row by row). */
  function RowsSum(rm: ResultMatrix, p: Region, m: int, n: int): real
    requires 0 <= m <= GridSize && 0 <= n <= GridSize
  {
    if m == 0 then 0.0 else RowsSum(rm, p, m - 1, n) + RowSum(rm, p, m - 1, n)
  }

  /** Columns 0 .. n - 1, each over rows 0 .. m - 1 (column by column). */
  function ColumnsSum(rm: ResultMatrix, p: Region, n: int, m: int): real
    requires 0 <= n <= GridSize && 0 <= m <= GridSize
  {
    if n == 0 then 0.0 else ColumnsSum(rm, p, n - 1, m) + ColumnSum(rm, p, n - 1, m)
  }

  /** The probability of a market: the sum of the grid cells in its region. */
  function Mass(rm: ResultMatrix, p: Region): real
  {
    RowsSum(rm, p, GridSize, GridSize)
  }

  /** The total mass of the grid. */
  function Total(rm: ResultMatrix): real
  {
    Mass(rm, EveryCell)
  }

  /** Within the grid, r is the disjoint union of p and q. */
  ghost predicate Partitions(r: Region, p: Region, q: Region) {
    forall i, j :: 0 <= i < GridSize && 0 <= j < GridSize ==>
      (r(i, j) <==> p(i, j) || q(i, j)) && !(p(i, j) && q(i, j))
  }

  /** Within the grid, p is a subset of q. */
  ghost predicate Within(p: Region, q: Region) {
    forall i, j :: 0 <= i < GridSize && 0 <= j < GridSize && p(i, j) ==> q(i, j)
  }

  ghost predicate NonNegativeCells(rm: ResultMatrix) {
    forall i, j :: 0 <= i < GridSize && 0 <= j < GridSize ==> rm.GetResultProbability(i, j) >= 0.0
  }

  // ---------------------------------------------------------------------------
  // Generic facts about the sums
  // ---------------------------------------------------------------------------

  lemma {:induction false} RowSumTail(rm: ResultMatrix, p: Region, i: int, n: int, m: int)
    requires 0 <= i < GridSize && 0 <= n <= m <= GridSize
    requires forall j :: n <= j < m ==> Term(rm, p, i, j) == 0.0
    ensures RowSum(rm, p, i, m) == RowSum(rm, p, i, n)
    decreases m
  {
    if m > n {
      RowSumTail(rm, p, i, n, m - 1);
    }
  }

  lemma {:induction false} ColumnSumTail(rm: ResultMatrix, p: Region, j: int, m: int, k: int)
    requires 0 <= j < GridSize && 0 <= m <= k <= GridSize
    requires forall i :: m <= i < k ==> Term(rm, p, i, j) == 0.0
    ensures ColumnSum(rm, p, j, k) == ColumnSum(rm, p, j, m)
    decreases k
  {
    if k > m {
      ColumnSumTail(rm, p, j, m, k - 1);
    }
  }

  lemma {:induction false} RowsSumTail(rm: ResultMatrix, p: Region, m: int, k: int, n: int)
    requires 0 <= m <= k <= GridSize && 0 <= n <= GridSize
    requires forall i, j :: m <= i < k && 0 <= j < n ==> Term(rm, p, i, j) == 0.0
    ensures RowsSum(rm, p, k, n) == RowsSum(rm, p, m, n)
    decreases k
  {
    if k > m {
      RowsSumTail(rm, p, m, k - 1, n);
      RowSumTail(rm, p, k - 1, 0, n);
    }
  }

  /** A row in which p holds at column b only sums to that cell, once column b is reached. */
  lemma {:induction false} RowSumOfOneCell(rm: ResultMatrix, p: Region, i: int, b: int, n: int)
    requires 0 <= i < GridSize && 0 <= b < GridSize && 0 <= n <= GridSize
    requires forall j :: 0 <= j < GridSize ==> (p(i, j) <==> j == b)
    ensures RowSum(rm, p, i, n) == if n > b then rm.GetResultProbability(i, b) else 0.0
    decreases n
  {
    if n > 0 {
      RowSumOfOneCell(rm, p, i, b, n - 1);
    }
  }

  /** A region holding the single cell a-b has that cell's probability. */
  lemma {:induction false} MassOfCell(rm: ResultMatrix, p: Region, a: int, b: int)
    requires 0 <= a < GridSize && 0 <= b < GridSize
    requires forall i, j :: 0 <= i < GridSize && 0 <= j < GridSize ==> (p(i, j) <==> i == a && j == b)
    ensures Mass(rm, p) == rm.GetResultProbability(a, b)
  {
    RowsSumTail(rm, p, a + 1, GridSize, GridSize);
    RowsSumTail(rm, p, 0, a, GridSize);
    RowSumOfOneCell(rm, p, a, b, GridSize);
  }

  lemma {:induction false} RowSumSplit(rm: ResultMatrix, r: Region, p: Region, q: Region, i: int, n: int)
    requires Partitions(r, p, q) && 0 <= i < GridSize && 0 <= n <= GridSize
    ensures RowSum(rm, r, i, n) == RowSum(rm, p, i, n) + RowSum(rm, q, i, n)
    decreases n
  {
    if n > 0 {
      RowSumSplit(rm, r, p, q, i, n - 1);
    }
  }

  lemma {:induction false} RowsSumSplit(rm: ResultMatrix, r: Region, p: Region, q: Region, m: int)
    requires Partitions(r, p, q) && 0 <= m <= GridSize
    ensures RowsSum(rm, r, m, GridSize) == RowsSum(rm, p, m, GridSize) + RowsSum(rm, q, m, GridSize)
    decreases m
  {
    if m > 0 {
      RowsSumSplit(rm, r, p, q, m - 1);
      RowSumSplit(rm, r, p, q, m - 1, GridSize);
    }
  }

  /** The mass of a disjoint union is the sum of the masses. */
  lemma MassSplit(rm: ResultMatrix, r: Region, p: Region, q: Region)
    requires Partitions(r, p, q)
    ensures Mass(rm, r) == Mass(rm, p) + Mass(rm, q)
  {
    RowsSumSplit(rm, r, p, q, GridSize);
  }

  lemma {:induction false} RowSumMonotone(rm: ResultMatrix, p: Region, q: Region, i: int, n: int)
    requires NonNegativeCells(rm) && Within(p, q) && 0 <= i < GridSize && 0 <= n <= GridSize
    ensures RowSum(rm, p, i, n) <= RowSum(rm, q, i, n)
    decreases n
  {
    if n > 0 {
      RowSumMonotone(rm, p, q, i, n - 1);
    }
  }

  lemma {:induction false} RowsSumMonotone(rm: ResultMatrix, p: Region, q: Region, m: int)
    requires NonNegativeCells(rm) && Within(p, q) && 0 <= m <= GridSize
    ensures RowsSum(rm, p, m, GridSize) <= RowsSum(rm, q, m, GridSize)
    decreases m
  {
    if m > 0 {
      RowsSumMonotone(rm, p, q, m - 1);
      RowSumMonotone(rm, p, q, m - 1, GridSize);
    }
  }

  /** With non-negative cells, a larger region has at least the mass of a smaller one. */
  lemma MassMonotone(rm: ResultMatrix, p: Region, q: Region)
    requires NonNegativeCells(rm) && Within(p, q)
    ensures Mass(rm, p) <= Mass(rm, q)
  {
    RowsSumMonotone(rm, p, q, GridSize);
  }

  /** A region whose cells are all zero has no mass. */
  lemma MassVanishes(rm: ResultMatrix, p: Region)
    requires forall i, j :: 0 <= i < GridSize && 0 <= j < GridSize && p(i, j) ==> rm.GetResultProbability(i, j) == 0.0
    ensures Mass(rm, p) == 0.0
  {
    RowsSumTail(rm, p, 0, GridSize, GridSize);
  }

  lemma {:induction false} RowsSumExtendColumns(rm: ResultMatrix, p: Region, m: int, n: int)
    requires 0 <= m <= GridSize && 0 <= n < GridSize
    ensures RowsSum(rm, p, m, n + 1) == RowsSum(rm, p, m, n) + ColumnSum(rm, p, n, m)
    decreases m
  {
    if m > 0 {
      RowsSumExtendColumns(rm, p, m - 1, n);
    }
  }

  /** Summing row by row and column by column give the same value. */
  lemma {:induction false} RowsColumnsSwap(rm: ResultMatrix, p: Region, m: int, n: int)
    requires 0 <= m <= GridSize && 0 <= n <= GridSize
    ensures RowsSum(rm, p, m, n) == ColumnsSum(rm, p, n, m)
    decreases n
  {
    if n == 0 {
      RowsSumTail(rm, p, 0, m, 0);
    } else {
      RowsColumnsSwap(rm, p, m, n - 1);
      RowsSumExtendColumns(rm, p, m, n - 1);
    }
  }

  // ---------------------------------------------------------------------------
  // Market identities
  // ---------------------------------------------------------------------------

  /** Home win, draw and away win cover the grid exactly once. */
  lemma ResultPartition(rm: ResultMatrix)
    ensures Mass(rm, HomeWinCell) + Mass(rm, DrawCell) + Mass(rm, AwayWinCell) == Total(rm)
  {
    MassSplit(rm, HomeWinOrDrawCell, HomeWinCell, DrawCell);
    MassSplit(rm, EveryCell, HomeWinOrDrawCell, AwayWinCell);
  }

  /** The double-chance markets are the pairwise sums of the result markets. */
  lemma DoubleChance(rm: ResultMatrix)
    ensures Mass(rm, HomeWinOrDrawCell) == Mass(rm, HomeWinCell) + Mass(rm, DrawCell)
    ensures Mass(rm, AwayWinOrDrawCell) == Mass(rm, AwayWinCell) + Mass(rm, DrawCell)
    ensures Mass(rm, HomeWinOrAwayWinCell) == Mass(rm, HomeWinCell) + Mass(rm, AwayWinCell)
  {
    MassSplit(rm, HomeWinOrDrawCell, HomeWinCell, DrawCell);
    MassSplit(rm, AwayWinOrDrawCell, AwayWinCell, DrawCell);
    MassSplit(rm, HomeWinOrAwayWinCell, HomeWinCell, AwayWinCell);
  }

  /** Over n.5 and under n.5 goals add up to the total, for every n. */
  lemma GoalLineSplit(rm: ResultMatrix, n: int)
    ensures Mass(rm, MoreThanGoals(n)) + Mass(rm, AtMostGoals(n)) == Total(rm)
  {
    MassSplit(rm, EveryCell, MoreThanGoals(n), AtMostGoals(n));
  }

  /**
   * The cells the hand-listed goal lines subtract are exactly the cells with
   * at most 0 (resp. 1) goals, so they agree with the generic formula at x = 1, 2.
   */
  lemma LowGoalLines(rm: ResultMatrix)
    ensures Mass(rm, AtMostGoals(0)) == rm.GetResultProbability(0, 0)
    ensures Mass(rm, AtMostGoals(1))
            == rm.GetResultProbability(0, 0) + rm.GetResultProbability(0, 1) + rm.GetResultProbability(1, 0)
  {
    MassOfCell(rm, AtMostGoals(0), 0, 0);
    MassOfCell(rm, IsCell(0, 0), 0, 0);
    MassOfCell(rm, IsCell(0, 1), 0, 1);
    MassOfCell(rm, IsCell(1, 0), 1, 0);
    MassSplit(rm, Either(IsCell(0, 0), IsCell(0, 1)), IsCell(0, 0), IsCell(0, 1));
    MassSplit(rm, AtMostGoals(1), Either(IsCell(0, 0), IsCell(0, 1)), IsCell(1, 0));
  }

  /** With non-negative cells, under n.5 never decreases as n grows. */
  lemma UnderMonotone(rm: ResultMatrix, n: int, m: int)
    requires NonNegativeCells(rm) && n <= m
    ensures Mass(rm, AtMostGoals(n)) <= Mass(rm, AtMostGoals(m))
  {
    MassMonotone(rm, AtMostGoals(n), AtMostGoals(m));
  }

  /** Home scores and home fails to score split the total; the latter is the first row. */
  lemma HomeGoalPartition(rm: ResultMatrix)
    ensures Mass(rm, HomeScoresCell) + Mass(rm, HomeBlankCell) == Total(rm)
    ensures Mass(rm, HomeBlankCell) == RowSum(rm, EveryCell, 0, GridSize)
  {
    MassSplit(rm, EveryCell, HomeScoresCell, HomeBlankCell);
    RowsSumTail(rm, HomeBlankCell, 1, GridSize, GridSize);
    RowSumsAgree(rm, HomeBlankCell, EveryCell, 0, GridSize);
  }

  lemma {:induction false} RowSumsAgree(rm: ResultMatrix, p: Region, q: Region, i: int, n: int)
    requires 0 <= i < GridSize && 0 <= n <= GridSize
    requires forall j :: 0 <= j < GridSize ==> (p(i, j) <==> q(i, j))
    ensures RowSum(rm, p, i, n) == RowSum(rm, q, i, n)
    decreases n
  {
    if n > 0 {
      RowSumsAgree(rm, p, q, i, n - 1);
    }
  }

  lemma {:induction false} ColumnSumsAgree(rm: ResultMatrix, p: Region, q: Region, j: int, m: int)
    requires 0 <= j < GridSize && 0 <= m <= GridSize
    requires forall i :: 0 <= i < GridSize ==> (p(i, j) <==> q(i, j))
    ensures ColumnSum(rm, p, j, m) == ColumnSum(rm, q, j, m)
    decreases m
  {
    if m > 0 {
      ColumnSumsAgree(rm, p, q, j, m - 1);
    }
  }

  /** Away scores and away fails to score split the total; the latter is the first column. */
  lemma AwayGoalPartition(rm: ResultMatrix)
    ensures Mass(rm, AwayScoresCell) + Mass(rm, AwayBlankCell) == Total(rm)
    ensures Mass(rm, AwayBlankCell) == ColumnSum(rm, EveryCell, 0, GridSize)
  {
    MassSplit(rm, EveryCell, AwayScoresCell, AwayBlankCell);
    RowsColumnsSwap(rm, AwayBlankCell, GridSize, GridSize);
    assert ColumnsSum(rm, AwayBlankCell, 1, GridSize) == ColumnSum(rm, AwayBlankCell, 0, GridSize);
    ColumnsSumTail(rm, AwayBlankCell, 1, GridSize);
    ColumnSumsAgree(rm, AwayBlankCell, EveryCell, 0, GridSize);
  }

  lemma {:induction false} ColumnsSumTail(rm: ResultMatrix, p: Region, n: int, k: int)
    requires 0 <= n <= k <= GridSize
    requires forall i, j :: 0 <= i < GridSize && n <= j < k ==> Term(rm, p, i, j) == 0.0
    ensures ColumnsSum(rm, p, k, GridSize) == ColumnsSum(rm, p, n, GridSize)
    decreases k
  {
    if k > n {
      ColumnsSumTail(rm, p, n, k - 1);
      ColumnSumTail(rm, p, k - 1, 0, GridSize);
    }
  }

  /** With non-negative cells, every market lies between 0 and the total. */
  lemma MarketWithinTotal(rm: ResultMatrix, p: Region)
    requires NonNegativeCells(rm)
    ensures 0.0 <= Mass(rm, p) <= Total(rm)
  {
    MassMonotone(rm, NoCell, p);
    MassVanishes(rm, NoCell);
    MassMonotone(rm, p, EveryCell);
  }

  /**
   * Lambdas in [0, 10] and a non-negative exponential make every cell
   * non-negative (above 10, 1 - lambda * 0.1 turns negative).
   */
  lemma BuiltCellsNonNegative(rm: ResultMatrix, exp: real -> real)
    requires BuiltFrom(rm, exp)
    requires 0.0 <= rm.lambdaHome <= 10.0 && 0.0 <= rm.lambdaAway <= 10.0
    requires exp(-rm.lambdaHome) >= 0.0 && exp(-rm.lambdaAway) >= 0.0
    ensures NonNegativeCells(rm)
  {
  }

  /**
   * With both lambdas 0 (and exp(0) = 1) the grid is certain of a 0-0 draw:
   * that cell is 1, every other cell is 0, and the total is exactly 1.
   */
  lemma ZeroLambdasGrid(rm: ResultMatrix, exp: real -> real)
    requires BuiltFrom(rm, exp)
    requires rm.lambdaHome == 0.0 && rm.lambdaAway == 0.0 && exp(0.0) == 1.0
    ensures rm.GetResultProbability(0, 0) == 1.0
    ensures forall i, j :: 0 <= i < GridSize && 0 <= j < GridSize && (i != 0 || j != 0)
                           ==> rm.GetResultProbability(i, j) == 0.0
    ensures Total(rm) == 1.0
  {
    assert rm.homeCoefficients[0] == 1.0 && rm.awayCoefficients[0] == 1.0;
    forall i, j | 0 <= i < GridSize && 0 <= j < GridSize && (i != 0 || j != 0)
      ensures rm.GetResultProbability(i, j) == 0.0
    {
      assert rm.homeCoefficients[i] == CalcCoefficient(rm.lambdaHome, i, exp);
      assert rm.awayCoefficients[j] == CalcCoefficient(rm.lambdaAway, j, exp);
    }
    LowGoalLines(rm);
    MassVanishes(rm, MoreThanGoals(0));
    GoalLineSplit(rm, 0);
  }
}
