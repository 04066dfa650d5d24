# Football scoreline model and recent-form services, in Dafny

This project models the core of a small football-betting helper written in Go:

- **The scoreline probability engine** (`internal/result_matrix.go`).
  - Six form figures give two expected-goals rates (lambdas), one per side.
  - Each lambda gives an 11-entry vector of Poisson masses for goal counts 0..10.
  - A scoreline's probability is the product of the two masses, with a correction on the four low scores.
  - Every market (1/X/2, double chance, over/under N.5, goal/no goal, home or away team scoring) is a sum of grid cells over a set of scorelines.
- **The recent-form selection services** (`internal/handlers.go`).
  - `lastMatchesService` returns a team's most recent matches at home or away.
  - `lastGoalsService` returns the goals scored and conceded over such a window.
  - `teamsService` returns the de-duplicated, sorted list of team names with their short names.
- **The match record and its idempotent key** (`internal/domain.go`).

Four modules, one per file:

| file | module | models |
|---|---|---|
| `engine.dfy` | `Engine` | `internal/result_matrix.go` |
| `handlers.dfy` | `Handlers` | the three services of `internal/handlers.go` |
| `domain.dfy` | `Domain` | `Match` and `Match.IdempotentKey` of `internal/domain.go` |
| `collections.dfy` | `Collections` | the `slices`, `lo` and `strings` library calls the services use |

Modelling choices:

- **Engine, built from loops.**
  - The matrix is an immutable datatype `ResultMatrix` whose getters are member methods.
  - Each method keeps the loops of the Go getters, including their bounds and iteration order, and is proved equal to `Mass(rm, region)`: the sum of the grid over a set of scorelines.
  - The market identities are then lemmas about `Mass`.
  - The away-win loop runs column by column; a lemma swapping the order of summation relates it to the row-by-row `Mass`.
- **Real arithmetic.** Probabilities are `real`. The exponential function is a parameter `exp` of construction. Integer powers (`Pow`) and factorials are exact.
- **Handlers, on sequences.**
  - The services work on sequences.
  - The in-place sort (`slices.SortFunc`) is `Collections.SortBy`, an insertion sort on values. `slices.SortFunc` is not stable, so the services' contracts are stated through "most-recent windows": any selection Go's sort can produce is one. No claim is made about the order of matches on the same date.
  - The in-place reverse (`slices.Reverse`) is `Collections.Reverse`, which works on an array.
  - `teamsService` keeps its append loop.
- **Parameters for code outside this model.**
  - `NormalizeName` is defined in a file that is not part of this model. It is a parameter `normalizeName` of the services.
  - Dates are integers ordered as instants.
  - RFC 3339 formatting is a parameter `rfc3339` of `IdempotentKey`.

## Model

| member | source | states |
|---|---|---|
| Engine.Factorial | internal/result_matrix.go:234-240 | n! for n >= 0 and 1 for every n <= 1; always at least 1 and at least n for n >= 1 |
| Engine.Fact | internal/result_matrix.go:234-240 | the loop multiplying 2..n returns Factorial(n) |
| Engine.Pow | internal/result_matrix.go:231 | an integral power of a non-negative base is non-negative; 0^0 = 1 and 0^k = 0 for k > 0 |
| Engine.CalcCoefficient | internal/result_matrix.go:230-232 | the Poisson mass is non-negative when lambda and exp(-lambda) are; at lambda 0 it is exp(0) for goal count 0 and 0 otherwise |
| Engine.CalcLambdas | internal/result_matrix.go:224-228 | each lambda is the midpoint of the side's scoring average and the opponent's conceding average |
| Engine.LambdasWithinTen | internal/result_matrix.go:18-26 | form averages of at most ten goals a match give both lambdas in [0, 10] |
| Engine.FixtureLambdas | internal/result_matrix_test.go:11 | the fixture's form figures (5, 5, 6, 5, 7, 5) give lambdas 1.1 and 1.2 |
| Engine.CorrectionFactor | internal/result_matrix.go:52-65 | the correction is non-negative when both lambdas lie in [0, 10], and exactly 1 outside the four cells 0-0, 1-0, 0-1, 1-1 |
| Engine.ResultMatrix.GetResultProbability | internal/result_matrix.go:51-68 | a cell is non-negative when its two coefficients are and both lambdas lie in [0, 10] |
| Engine.NewResultMatrix | internal/result_matrix.go:14-39 | fills exactly 11 coefficients per side with the Poisson masses of the lambdas computed from the form averages |
| Engine.ResultMatrix.GetTotalProbability | internal/result_matrix.go:41-49 | the nested loop sums every cell of the 11x11 grid |
| Engine.ResultMatrix.GetDrawProbability | internal/result_matrix.go:70-77 | the diagonal loop sums exactly the cells with equal goals |
| Engine.ResultMatrix.GetHomeWinProbability | internal/result_matrix.go:79-87 | the triangular loop sums exactly the cells where the home side scores more |
| Engine.ResultMatrix.GetAwayWinProbability | internal/result_matrix.go:89-97 | the column-by-column loop sums exactly the cells where the away side scores more |
| Engine.ResultMatrix.GetHomeWinOrDrawProbability | internal/result_matrix.go:99-101 | equals the mass of the cells with home goals >= away goals |
| Engine.ResultMatrix.GetAwayWinOrDrawProbability | internal/result_matrix.go:103-105 | equals the mass of the cells with away goals >= home goals |
| Engine.ResultMatrix.GetHomeWinOrAwayWinProbability | internal/result_matrix.go:107-109 | equals the mass of the cells with unequal goals |
| Engine.ResultMatrix.GetOverGoalsProbability | internal/result_matrix.go:111-169 | every over-N.5 getter, N in 0..7, whether hand-listed (N = 0, 1) or generic, equals the mass of the cells with more than N goals |
| Engine.ResultMatrix.GetUnderGoalsProbability | internal/result_matrix.go:115-173 | every under-N.5 getter equals the mass of the cells with at most N goals |
| Engine.ResultMatrix.GetGoalProbability | internal/result_matrix.go:175-177 | goal equals over 0.5: the cells other than 0-0 |
| Engine.ResultMatrix.GetNoGoalProbability | internal/result_matrix.go:179-181 | no goal equals under 0.5: the 0-0 cell |
| Engine.ResultMatrix.GetHomeGoalProbability | internal/result_matrix.go:183-191 | the loop sums exactly the cells where the home side scores |
| Engine.ResultMatrix.GetNoHomeGoalProbability | internal/result_matrix.go:193-195 | total minus home goal is the mass of the cells where the home side does not score |
| Engine.ResultMatrix.GetAwayGoalProbability | internal/result_matrix.go:197-205 | the loop sums exactly the cells where the away side scores |
| Engine.ResultMatrix.GetNoAwayGoalProbability | internal/result_matrix.go:207-209 | total minus away goal is the mass of the cells where the away side does not score |
| Engine.CalcGenericOverXGoalsProbability | internal/result_matrix.go:211-222 | total minus the triangle i + j < x equals the mass of the cells with at least x goals |
| Engine.RowsColumnsSwap | internal/result_matrix.go:89-97 | summing the grid column by column equals summing it row by row |
| Engine.ResultPartition | internal/result_matrix.go:70-97 | home win, draw and away win add up to the total |
| Engine.DoubleChance | internal/result_matrix.go:99-109 | each double-chance market is the sum of its two results |
| Engine.GoalLineSplit | internal/result_matrix.go:111-173 | over N.5 plus under N.5 is the total for every N |
| Engine.LowGoalLines | internal/result_matrix.go:111-121 | under 0.5 is cell 0-0 and under 1.5 is cells 0-0, 0-1 and 1-0, as the hand-listed getters subtract |
| Engine.UnderMonotone | internal/result_matrix.go:115-173 | with non-negative cells, under N.5 does not decrease as N grows |
| Engine.HomeGoalPartition | internal/result_matrix.go:183-195 | home goal plus no home goal is the total, and no home goal is the row of home score 0 |
| Engine.AwayGoalPartition | internal/result_matrix.go:197-209 | away goal plus no away goal is the total, and no away goal is the column of away score 0 |
| Engine.MarketWithinTotal | internal/result_matrix.go:41-49 | with non-negative cells every market lies between 0 and the total |
| Engine.BuiltCellsNonNegative | internal/result_matrix.go:51-68 | a constructed matrix with lambdas in [0, 10] and non-negative exp has only non-negative cells |
| Engine.ZeroLambdasGrid | internal/result_matrix.go:14-39 | with both lambdas 0 the whole mass sits on 0-0: cell 0-0 is 1, every other cell 0, the total 1 |
| Collections.SortBy | internal/handlers.go:37-39 | sorting is a permutation of its input |
| Collections.SortBySorted | internal/handlers.go:37-39 | with a total preorder the sorted result is ordered |
| Collections.LexLe | internal/handlers.go:108 | every prefix of a string, the string itself included, compares at most that string |
| Collections.LexLeAntisymmetric | internal/handlers.go:108 | two strings each at most the other are equal, as strings.Compare gives 0 only for equal strings |
| Collections.LexLeTotal | internal/handlers.go:107-109 | any two strings are comparable |
| Collections.LexLeTransitive | internal/handlers.go:107-109 | the string order is transitive |
| Collections.Filter | internal/handlers.go:42-44 | keeps exactly the elements passing the test |
| Collections.FilterPermutation | internal/handlers.go:41-49 | filtering two orderings of the same elements keeps the same elements |
| Collections.FilterSorted | internal/handlers.go:41-49 | filtering keeps a sorted sequence sorted |
| Collections.Reversed | internal/handlers.go:50 | the k-th element from the front of the result is the k-th from the back of the input, for every k |
| Collections.Reverse | internal/handlers.go:50 | the array is reversed in place |
| Collections.ReversedMultiset | internal/handlers.go:50 | reversing is a permutation |
| Collections.ReversedSorted | internal/handlers.go:50 | reversing a sequence sorted by an order sorts it by the converse order |
| Collections.Slice | internal/handlers.go:51 | the result is a contiguous run of the input starting at the clamped start, drawn from the input's elements, with end - start elements when the clamped bounds allow it and never more, and none when start >= end |
| Collections.Uniq | internal/handlers.go:110 | keeps every distinct element exactly once |
| Collections.UniqFromSorted | internal/handlers.go:110 | de-duplication keeps a sorted sequence sorted |
| Handlers.EarlierOrSame | internal/handlers.go:37-39 | matches on the same date tie, and a later match never compares before an earlier one |
| Handlers.LaterOrSame | internal/handlers.go:153-155 | the negated comparator is the ascending one with its arguments swapped |
| Handlers.DateOrdersArePreorders | internal/handlers.go:37-39 | both date comparators are total preorders, each the converse of the other |
| Handlers.NormalizeMatches | internal/handlers.go:143-152 | only the two team names are rewritten; league, goals and date pass through unchanged |
| Handlers.MatchesToCheck | internal/handlers.go:156-165 | "home" keeps the matches with the team at home, "away" those with it away, anything else none |
| Handlers.LastMatchesService | internal/handlers.go:142-167 | every result has the team on the requested side, any other venue gives no result, and there are at most count results |
| Handlers.PrefixIsWindow | internal/handlers.go:166 | the first count of a newest-first ordering form a most-recent window |
| Handlers.LastMatchesMostRecent | internal/handlers.go:153-166 | the result is newest first, drawn from the team's matches at the venue, as long as count allows, and no omitted match is newer than a returned one |
| Handlers.LastGoalsMostRecent | internal/handlers.go:37-51 | sorting oldest first, filtering, reversing and taking count selects a most-recent window of the same matches |
| Handlers.WindowDatesAgree | internal/handlers.go:37-51 | two most-recent windows of the same matches have the same dates position by position |
| Handlers.ServicesAgree | internal/handlers.go:153-166 | lastMatchesService and lastGoalsService look at matches on the same dates in the same order |
| Handlers.LastGoalsService | internal/handlers.go:26-66 | echoes the team; the two results are the team's own and the opponents' goals over some most-recent window of the team's matches at the venue, and over every such window when no two of those matches share a date; any other venue gives 0 and 0 |
| Handlers.WindowUnique | internal/handlers.go:37-51 | when no two candidate matches share a date there is exactly one most-recent window |
| Handlers.OpponentGoals | internal/handlers.go:52-63 | in one match the team's goals plus the opponent's goals are the match's goals |
| Handlers.GoalsFor | internal/handlers.go:52-57 | the team's goals summed over the window, equal to lo.Sum's left-to-right accumulation: the sum of all but the last match plus the last match's goals |
| Handlers.GoalsAgainst | internal/handlers.go:58-63 | the opponents' goals summed over the window, equal to lo.Sum's left-to-right accumulation |
| Handlers.GoalsSplit | internal/handlers.go:52-63 | goals for plus goals against is every goal scored in the window |
| Handlers.GoalsSwap | internal/handlers.go:52-63 | an away side's goals for and against are a home side's goals against and for |
| Handlers.GoalsAppend | internal/handlers.go:52-63 | both sums add over a window split in two |
| Handlers.GoalsBounded | internal/handlers.go:52-63 | with non-negative scores both sums lie between 0 and the total goals |
| Handlers.TeamList | internal/handlers.go:102-106 | the list has each match's home then away team, in match order |
| Handlers.TeamListMembers | internal/handlers.go:102-106 | the collected names are exactly the home and away teams of the matches |
| Handlers.ShortNameLe | internal/handlers.go:107-109 | two names compare equal both ways exactly when their normalised names are equal |
| Handlers.ShortNameLePreorder | internal/handlers.go:107-109 | comparing normalised names is a total preorder |
| Handlers.SortedUniqueTeams | internal/handlers.go:107-110 | sorting then de-duplicating keeps exactly the collected names, ordered by short name |
| Handlers.TeamResponses | internal/handlers.go:107-113 | no name twice, names exactly those collected, each short name its normalised name, ordered by short name |
| Handlers.TeamsService | internal/handlers.go:101-115 | no name twice, the names are exactly the teams that played, each short name is its normalised name, ordered by short name |
| Domain.ToLower | internal/domain.go:29 | keeps the length, leaves no upper-case letter, turns each upper-case letter into its lower-case letter and leaves every other character as it is |
| Domain.RemoveSpaces | internal/domain.go:29 | the result holds no space and is no longer than the input |
| Domain.Normalize | internal/domain.go:28-30 | a normalised name holds no space and no upper-case letter |
| Domain.Match.IdempotentKey | internal/domain.go:27-32 | the key starts with the normalised home name, ends with the formatted date, and before the date holds no space and no upper-case letter |
| Domain.RemoveSpacesToLower | internal/domain.go:29 | removing spaces and lower-casing commute |
| Domain.NormalizeIdempotent | internal/domain.go:28-30 | normalising twice is normalising once |
| Domain.NormalizeIgnoresSpace | internal/domain.go:28-30 | inserting a space anywhere leaves the normalised name unchanged |
| Domain.NormalizeIgnoresCase | internal/domain.go:28-30 | names equal up to letter case normalise alike |
| Domain.KeyIgnoresLeagueAndGoals | internal/domain.go:27-32 | the key does not depend on league or goals |
| Domain.KeyIgnoresSpaces | internal/domain.go:28-31 | adding or removing any number of spaces anywhere in either team name, or in both, leaves the key unchanged |
| Domain.KeyIgnoresHomeSpace | internal/domain.go:28-31 | inserting one space into the home name alone leaves the key unchanged |
| Domain.KeyIgnoresCase | internal/domain.go:28-31 | changing the letter case of either team name leaves the key unchanged |
| Domain.KeyExample | internal/domain_test.go:12-27 | Manchester United v Liverpool on 15 April 2023 at 15:00 UTC has key manchesterunited-liverpool-2023-04-15T15:00:00Z |

## Left out

- HTTP layer: the echo handlers (`LastGoalsHandler`, `LastGoalsHtmlHandler`, `TeamsHandler`, `TeamsHtmlHandler`, `LastMatchesHandler`, `ResultMatrixHandler`). They only bind requests and render JSON or HTML.
- `resultMatrixService`: it fills 121 named response fields by reflection, which is serialisation.
- `internal/csv.go`, `internal/config.go`, `tks/main.go`: downloads, file parsing, configuration loading, server start-up and browser launch. These are I/O and concurrency.
- Floating point: the engine is modelled over exact reals. Rounding, `math.Exp` itself and `math.Pow` for non-integral exponents are not modelled.
- Engine.NewResultMatrix: requires both match counts to be positive, where Go produces infinite or NaN lambdas for a zero count.
- Engine.CalcCoefficient: `exp` is a parameter; its positivity and exp(0) = 1 are taken as preconditions wherever a lemma needs them.
- Engine.CalcGenericOverXGoalsProbability: requires x <= 11, where Go would index past the grid and panic.
- Engine.ResultMatrix.GetResultProbability: requires indices in 0..10, where Go would panic out of range.
- Engine.ResultMatrix.GetResultProbability: only the lower bound 0 of a cell is proved. The upper bound 1 needs bounds on `exp` (for example that e^-x * x^i / i! is at most 1), and the model assumes nothing about `exp` beyond what each lemma requires.
- Engine.ResultMatrix.GetOverGoalsProbability: the sixteen over/under getters are two methods taking the line N in 0..7; each branch follows the Go getter for that line.
- Engine.Fact: Go's `int` overflows beyond 20!; the model's integers are unbounded, and only 0..10 are used.
- The regression fixture's numeric probabilities (for example Total ≈ 1.0 within 1e-4): these are empirical floating-point values. Only the fixture's lambdas are stated.
- `AsOdds` is defined in a file that is not part of this model and is not used by the core.
- Domain.ToLower: lower-cases ASCII letters only. Go's `strings.ToLower` also maps non-ASCII letters.
- Domain.Match.IdempotentKey: RFC 3339 formatting of `time.Time` is the parameter `rfc3339`, and dates are integers.
- Handlers.TeamsService: `NormalizeName` is a parameter, and `strings.Compare` is modelled as lexicographic order on characters, which agrees with byte order on UTF-8.
- Handlers.LastMatchesService: models the unstable in-place sort by one particular order (SortBy on values). Its contract and LastMatchesMostRecent use only "sorted and a permutation", so they hold for any order of matches on the same date. The in-place update of the Go slice is not modelled.
- Handlers.LastGoalsService: when two of the team's matches at the venue share a date at the `count` cut, Go's unstable sort may keep either, so the sums are promised only to be those of some most-recent window. Which window, and so which sums, is not determined. The body computes the sums of the window the insertion sort picks.
- Handlers.LastGoalsService: sums are unbounded integers. Go's `int` wrap-around on overflow is not modelled.
