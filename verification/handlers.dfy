/**
 * The recent-form selection services: the most recent matches of a team at
 * home or away, the goals scored and conceded over that window, and the list
 * of all teams with their short names.
 *
 * Team-name normalisation is a parameter `normalizeName`. Dates are integers
 * ordered as instants. The library's in-place sort is modelled by SortBy on
 * values; the in-place reverse works on an array.
 */
module Handlers {
  import opened Domain
  import opened Collections

  datatype LastMatchesRequest = LastMatchesRequest(team: string, count: int, where: string)

  datatype LastGoalsRequest = LastGoalsRequest(team: string, where: string, count: int, kind: string)

  datatype LastGoals = LastGoals(team: string, homeGoals: int, awayGoals: int)

  datatype TeamResponse = TeamResponse(name: string, shortName: string)

  datatype TeamsResponse = TeamsResponse(allTeams: seq<TeamResponse>)

  // ---------------------------------------------------------------------------
  // Pipeline stages shared by the services
  // ---------------------------------------------------------------------------

  /** Rewrites both team names of every match with normalizeName; nothing else changes. */
  function NormalizeMatches(matches: seq<Match>, normalizeName: string -> string): (r: seq<Match>)
    ensures |r| == |matches|
    ensures forall k :: 0 <= k < |matches| ==>
      && r[k].homeTeam == normalizeName(matches[k].homeTeam)
      && r[k].awayTeam == normalizeName(matches[k].awayTeam)
      && r[k].league == matches[k].league
      && r[k].homeGoals == matches[k].homeGoals
      && r[k].awayGoals == matches[k].awayGoals
      && r[k].matchDate == matches[k].matchDate
  {
    seq(|matches|, k requires 0 <= k < |matches| =>
      matches[k].(homeTeam := normalizeName(matches[k].homeTeam), awayTeam := normalizeName(matches[k].awayTeam)))
  }

  /** The ascending comparator on match dates; matches on the same date tie. */
  predicate EarlierOrSame(a: Match, b: Match)
    ensures a.matchDate == b.matchDate ==> EarlierOrSame(a, b)
    ensures a.matchDate > b.matchDate ==> !EarlierOrSame(a, b)
  {
    a.matchDate <= b.matchDate
  }

  /** The descending comparator: the ascending one negated, so its arguments swap. */
  predicate LaterOrSame(a: Match, b: Match)
    ensures LaterOrSame(a, b) <==> EarlierOrSame(b, a)
  {
    a.matchDate >= b.matchDate
  }

  lemma DateOrdersArePreorders()
    ensures TotalPreorder(EarlierOrSame) && TotalPreorder(LaterOrSame)
    ensures forall a, b :: EarlierOrSame(a, b) ==> LaterOrSame(b, a)
  {
  }

  /**
   * The matches a request looks at: those with `team` as home side when
   * `where` is "home", as away side when it is "away", none otherwise.
   */
  function MatchesToCheck(matches: seq<Match>, where: string, team: string): (r: seq<Match>)
    ensures where == "home" ==> forall m :: m in r <==> m in matches && m.homeTeam == team
    ensures where == "away" ==> forall m :: m in r <==> m in matches && m.awayTeam == team
    ensures where != "home" && where != "away" ==> r == []
  {
    if where == "home" then Filter(matches, (m: Match) => m.homeTeam == team)
    else if where == "away" then Filter(matches, (m: Match) => m.awayTeam == team)
    else []
  }

  /** Selecting from two orderings of the same matches selects the same matches. */
  lemma MatchesToCheckPermutation(s: seq<Match>, t: seq<Match>, where: string, team: string)
    requires multiset(s) == multiset(t)
    ensures multiset(MatchesToCheck(s, where, team)) == multiset(MatchesToCheck(t, where, team))
  {
    if where == "home" {
      FilterPermutation(s, t, (m: Match) => m.homeTeam == team);
    } else if where == "away" {
      FilterPermutation(s, t, (m: Match) => m.awayTeam == team);
    }
  }

  lemma MatchesToCheckSorted(s: seq<Match>, where: string, team: string, le: (Match, Match) -> bool)
    requires SortedBy(s, le)
    ensures SortedBy(MatchesToCheck(s, where, team), le)
  {
    if where == "home" {
      FilterSorted(s, (m: Match) => m.homeTeam == team, le);
    } else if where == "away" {
      FilterSorted(s, (m: Match) => m.awayTeam == team, le);
    }
  }

  /** The normalised matches of `team` at venue `where`, in input order. */
  function Candidates(matches: seq<Match>, where: string, team: string, normalizeName: string -> string): seq<Match> {
    MatchesToCheck(NormalizeMatches(matches, normalizeName), where, team)
  }

  // ---------------------------------------------------------------------------
  // The most-recent window
  // ---------------------------------------------------------------------------

  /**
   * `w` is a most-recent window of `count` matches taken from `candidates`:
   * newest first, drawn from the candidates, as long as `count` allows, and
   * no candidate left out is newer than one taken.
   */
  ghost predicate MostRecentWindow(w: seq<Match>, candidates: seq<Match>, count: int) {
    && SortedBy(w, LaterOrSame)
    && multiset(w) <= multiset(candidates)
    && |w| == Clamp(count, |candidates|)
    && forall x, y :: x in w && y in multiset(candidates) - multiset(w) ==> y.matchDate <= x.matchDate
  }

  /** Every element of a newest-first sequence before index n is at least as new as every element from n on. */
  lemma SplitOrdered(s: seq<Match>, n: nat)
    requires SortedBy(s, LaterOrSame) && n <= |s|
    ensures forall x, y :: x in s[..n] && y in s[n..] ==> y.matchDate <= x.matchDate
  {
    forall x, y | x in s[..n] && y in s[n..] ensures y.matchDate <= x.matchDate {
      var i :| 0 <= i < n && s[..n][i] == x;
      var j :| 0 <= j < |s| - n && s[n..][j] == y;
      assert s[i] == x && s[n + j] == y;
    }
  }

  lemma PrefixSorted<T>(s: seq<T>, n: nat, le: (T, T) -> bool)
    requires SortedBy(s, le) && n <= |s|
    ensures SortedBy(s[..n], le)
  {
    forall i, j | 0 <= i < j < n ensures le(s[..n][i], s[..n][j]) {
      assert s[..n][i] == s[i] && s[..n][j] == s[j];
    }
  }

  lemma PrefixMultiset<T>(s: seq<T>, n: nat)
    requires n <= |s|
    ensures multiset(s[..n]) <= multiset(s)
    ensures multiset(s) - multiset(s[..n]) == multiset(s[n..])
  {
    assert s == s[..n] + s[n..];
  }

  /** The first `count` of a newest-first ordering of the candidates form a most-recent window. */
  lemma PrefixIsWindow(s: seq<Match>, candidates: seq<Match>, count: int)
    requires SortedBy(s, LaterOrSame)
    requires multiset(s) == multiset(candidates)
    ensures MostRecentWindow(Slice(s, 0, count), candidates, count)
  {
    assert |s| == |multiset(s)| == |candidates|;
    var n := Clamp(count, |s|);
    assert Slice(s, 0, count) == s[..n];
    PrefixSorted(s, n, LaterOrSame);
    PrefixMultiset(s, n);
    SplitOrdered(s, n);
  }

  /** Matches dated `d` or later. */
  function DatedFrom(d: int): Match -> bool {
    (m: Match) => m.matchDate >= d
  }

  /** How many matches of `s` are dated `d` or later. */
  function CountFrom(s: seq<Match>, d: int): nat {
    |Filter(s, DatedFrom(d))|
  }

  lemma CountFromPermutation(a: seq<Match>, b: seq<Match>, d: int)
    requires multiset(a) == multiset(b)
    ensures CountFrom(a, d) == CountFrom(b, d)
  {
    var fa, fb := Filter(a, DatedFrom(d)), Filter(b, DatedFrom(d));
    FilterPermutation(a, b, DatedFrom(d));
    assert |fa| == |multiset(fa)| && |fb| == |multiset(fb)|;
  }

  /** The candidates a most-recent window leaves out, as a sequence. */
  lemma WindowRest(w: seq<Match>, candidates: seq<Match>, count: int) returns (rest: seq<Match>)
    requires MostRecentWindow(w, candidates, count)
    ensures multiset(w + rest) == multiset(candidates)
    ensures forall x, y :: x in w && y in rest ==> y.matchDate <= x.matchDate
  {
    var left := multiset(candidates) - multiset(w);
    rest := SeqOf(left);
    assert forall y :: y in rest ==> y in left;
  }

  /**
   * A most-recent window holds as many matches dated `d` or later as the
   * candidates do, up to its own length.
   */
  lemma WindowCount(w: seq<Match>, candidates: seq<Match>, count: int, d: int)
    requires MostRecentWindow(w, candidates, count)
    ensures CountFrom(w, d) == if CountFrom(candidates, d) < |w| then CountFrom(candidates, d) else |w|
  {
    var rest := WindowRest(w, candidates, count);
    CountFromPermutation(w + rest, candidates, d);
    FilterAppend(w, rest, DatedFrom(d));
    if x :| x in w && x.matchDate < d {
      FilterNone(rest, DatedFrom(d));
    } else {
      FilterAll(w, DatedFrom(d));
    }
  }

  /** In a newest-first sequence at least k + 1 matches are dated no earlier than the one at index k. */
  lemma SortedCountAtLeast(w: seq<Match>, k: nat)
    requires SortedBy(w, LaterOrSame) && k < |w|
    ensures CountFrom(w, w[k].matchDate) >= k + 1
  {
    var keep := DatedFrom(w[k].matchDate);
    var front := w[..k + 1];
    assert w == front + w[k + 1..];
    FilterAppend(front, w[k + 1..], keep);
    forall x | x in front ensures keep(x) {
      var i :| 0 <= i < k + 1 && front[i] == x;
      assert w[i] == x;
    }
    FilterAll(front, keep);
  }

  /** In a newest-first sequence at most k matches are strictly newer than the one at index k. */
  lemma SortedCountAbove(w: seq<Match>, k: nat, d: int)
    requires SortedBy(w, LaterOrSame) && k < |w| && d > w[k].matchDate
    ensures CountFrom(w, d) <= k
  {
    var keep := DatedFrom(d);
    var back := w[k..];
    assert w == w[..k] + back;
    FilterAppend(w[..k], back, keep);
    forall y | y in back ensures !keep(y) {
      var j :| 0 <= j < |back| && back[j] == y;
      assert w[k + j] == y;
    }
    FilterNone(back, keep);
  }

  /**
   * Two most-recent windows of the same candidates have the same dates,
   * position by position; they can differ only in which of several matches
   * on one date they hold.
   */
  lemma WindowDatesAgree(w1: seq<Match>, w2: seq<Match>, candidates: seq<Match>, count: int)
    requires MostRecentWindow(w1, candidates, count) && MostRecentWindow(w2, candidates, count)
    ensures |w1| == |w2|
    ensures forall k :: 0 <= k < |w1| ==> w1[k].matchDate == w2[k].matchDate
  {
    forall k | 0 <= k < |w1| ensures w1[k].matchDate == w2[k].matchDate {
      var d1, d2 := w1[k].matchDate, w2[k].matchDate;
      WindowCount(w1, candidates, count, d1);
      WindowCount(w2, candidates, count, d1);
      WindowCount(w1, candidates, count, d2);
      WindowCount(w2, candidates, count, d2);
      SortedCountAtLeast(w1, k);
      SortedCountAtLeast(w2, k);
      if d1 > d2 {
        SortedCountAbove(w2, k, d1);
      } else if d2 > d1 {
        SortedCountAbove(w1, k, d2);
      }
    }
  }

  // ---------------------------------------------------------------------------
  // lastMatchesService
  // ---------------------------------------------------------------------------

  /**
   * The last `count` matches of the team at the venue: normalise, sort
   * newest first, select by venue, take the first `count`.
   */
  function LastMatchesService(matches: seq<Match>, req: LastMatchesRequest, normalizeName: string -> string): (r: seq<Match>)
    ensures req.where == "home" ==> forall m :: m in r ==> m.homeTeam == req.team
    ensures req.where == "away" ==> forall m :: m in r ==> m.awayTeam == req.team
    ensures req.where != "home" && req.where != "away" ==> r == []
    ensures req.count >= 0 ==> |r| <= req.count
  {
    var sorted := SortBy(NormalizeMatches(matches, normalizeName), LaterOrSame);
    var toCheck := MatchesToCheck(sorted, req.where, req.team);
    assert forall m :: m in toCheck[..Clamp(req.count, |toCheck|)] ==> m in toCheck;
    Slice(toCheck, 0, req.count)
  }

  /** lastMatchesService returns a most-recent window of the team's matches at the venue. */
  lemma LastMatchesMostRecent(matches: seq<Match>, req: LastMatchesRequest, normalizeName: string -> string)
    ensures MostRecentWindow(LastMatchesService(matches, req, normalizeName),
                             Candidates(matches, req.where, req.team, normalizeName), req.count)
  {
    var normalized := NormalizeMatches(matches, normalizeName);
    var sorted := SortBy(normalized, LaterOrSame);
    DateOrdersArePreorders();
    SortBySorted(normalized, LaterOrSame);
    MatchesToCheckSorted(sorted, req.where, req.team, LaterOrSame);
    MatchesToCheckPermutation(sorted, normalized, req.where, req.team);
    PrefixIsWindow(MatchesToCheck(sorted, req.where, req.team), Candidates(matches, req.where, req.team, normalizeName), req.count);
  }

  // ---------------------------------------------------------------------------
  // lastGoalsService
  // ---------------------------------------------------------------------------

  /** Goals of the side the request is about in one match. */
  function OwnGoals(m: Match, where: string): int {
    if where == "home" then m.homeGoals else m.awayGoals
  }

  /** Goals of the opponent in one match. */
  function OpponentGoals(m: Match, where: string): (g: int)
    ensures OwnGoals(m, where) + g == m.homeGoals + m.awayGoals
  {
    if where == "home" then m.awayGoals else m.homeGoals
  }

  /** Own goals summed over a window; the sum agrees with a left-to-right accumulation. */
  function GoalsFor(w: seq<Match>, where: string): (g: int)
    ensures w != [] ==> g == GoalsFor(w[..|w| - 1], where) + OwnGoals(w[|w| - 1], where)
  {
    if w == [] then 0
    else
      var rest, front := w[1..], w[..|w| - 1];
      assert rest == [] ==> front == [];
      assert rest != [] ==> rest[..|rest| - 1] == front[1..] && rest[|rest| - 1] == w[|w| - 1];
      OwnGoals(w[0], where) + GoalsFor(rest, where)
  }

  /** Opponent goals summed over a window; the sum agrees with a left-to-right accumulation. */
  function GoalsAgainst(w: seq<Match>, where: string): (g: int)
    ensures w != [] ==> g == GoalsAgainst(w[..|w| - 1], where) + OpponentGoals(w[|w| - 1], where)
  {
    if w == [] then 0
    else
      var rest, front := w[1..], w[..|w| - 1];
      assert rest == [] ==> front == [];
      assert rest != [] ==> rest[..|rest| - 1] == front[1..] && rest[|rest| - 1] == w[|w| - 1];
      OpponentGoals(w[0], where) + GoalsAgainst(rest, where)
  }

  function TotalGoals(w: seq<Match>): int {
    if w == [] then 0 else w[0].homeGoals + w[0].awayGoals + TotalGoals(w[1..])
  }

  /** Goals for and against add up to all goals scored in the window. */
  lemma {:induction false} GoalsSplit(w: seq<Match>, where: string)
    ensures GoalsFor(w, where) + GoalsAgainst(w, where) == TotalGoals(w)
  {
    if w != [] {
      GoalsSplit(w[1..], where);
    }
  }

  /** An away team's goals for are the home side's goals against, and the other way round. */
  lemma {:induction false} GoalsSwap(w: seq<Match>)
    ensures GoalsFor(w, "away") == GoalsAgainst(w, "home")
    ensures GoalsAgainst(w, "away") == GoalsFor(w, "home")
  {
    if w != [] {
      GoalsSwap(w[1..]);
    }
  }

  /** Summing over a window split in two sums the two parts. */
  lemma {:induction false} GoalsAppend(a: seq<Match>, b: seq<Match>, where: string)
    ensures GoalsFor(a + b, where) == GoalsFor(a, where) + GoalsFor(b, where)
    ensures GoalsAgainst(a + b, where) == GoalsAgainst(a, where) + GoalsAgainst(b, where)
  {
    if a == [] {
      assert a + b == b;
    } else {
      assert (a + b)[0] == a[0] && (a + b)[1..] == a[1..] + b;
      GoalsAppend(a[1..], b, where);
    }
  }

  /** With non-negative scores both sums are non-negative and at most the total. */
  lemma {:induction false} GoalsBounded(w: seq<Match>, where: string)
    requires forall m :: m in w ==> m.homeGoals >= 0 && m.awayGoals >= 0
    ensures 0 <= GoalsFor(w, where) <= TotalGoals(w)
    ensures 0 <= GoalsAgainst(w, where) <= TotalGoals(w)
  {
    if w != [] {
      assert forall m :: m in w[1..] ==> m in w;
      GoalsBounded(w[1..], where);
    }
  }

  /** The window lastGoalsService sums over: sort oldest first, select, reverse, take `count`. */
  function LastGoalsWindow(matches: seq<Match>, where: string, team: string, count: int, normalizeName: string -> string): seq<Match> {
    var sorted := SortBy(NormalizeMatches(matches, normalizeName), EarlierOrSame);
    Slice(Reversed(MatchesToCheck(sorted, where, team)), 0, count)
  }

  /**
   * Sorting oldest first and reversing selects a most-recent window of the
   * same candidates as lastMatchesService.
   */
  lemma LastGoalsMostRecent(matches: seq<Match>, where: string, team: string, count: int, normalizeName: string -> string)
    ensures MostRecentWindow(LastGoalsWindow(matches, where, team, count, normalizeName),
                             Candidates(matches, where, team, normalizeName), count)
  {
    var normalized := NormalizeMatches(matches, normalizeName);
    var sorted := SortBy(normalized, EarlierOrSame);
    var toCheck := MatchesToCheck(sorted, where, team);
    DateOrdersArePreorders();
    SortBySorted(normalized, EarlierOrSame);
    MatchesToCheckSorted(sorted, where, team, EarlierOrSame);
    ReversedSorted(toCheck, EarlierOrSame, LaterOrSame);
    ReversedMultiset(toCheck);
    MatchesToCheckPermutation(sorted, normalized, where, team);
    PrefixIsWindow(Reversed(toCheck), Candidates(matches, where, team, normalizeName), count);
  }

  /** No two matches of the sequence share a date. */
  ghost predicate DistinctDates(s: seq<Match>) {
    forall i, j :: 0 <= i < j < |s| ==> s[i].matchDate != s[j].matchDate
  }

  /** When no two candidates share a date there is exactly one most-recent window. */
  lemma WindowUnique(w1: seq<Match>, w2: seq<Match>, candidates: seq<Match>, count: int)
    requires MostRecentWindow(w1, candidates, count) && MostRecentWindow(w2, candidates, count)
    requires DistinctDates(candidates)
    ensures w1 == w2
  {
    WindowDatesAgree(w1, w2, candidates, count);
    forall k | 0 <= k < |w1| ensures w1[k] == w2[k] {
      assert w1[k] in multiset(w1) && w2[k] in multiset(w2);
      var i :| 0 <= i < |candidates| && candidates[i] == w1[k];
      var j :| 0 <= j < |candidates| && candidates[j] == w2[k];
      assert candidates[i].matchDate == candidates[j].matchDate;
    }
  }

  /**
   * The team's own and opponents' goals over its last `count` matches at
   * the venue; the matches are reversed in place before the window is taken.
   * The sort is not stable, so matches on the same date may be cut either
   * way: the sums are those of some most-recent window, and of the only one
   * when the candidates' dates are distinct.
   */
  method LastGoalsService(matches: seq<Match>, req: LastGoalsRequest, normalizeName: string -> string) returns (r: LastGoals)
    ensures r.team == req.team
    ensures exists w :: && MostRecentWindow(w, Candidates(matches, req.where, req.team, normalizeName), req.count)
                        && r.homeGoals == GoalsFor(w, req.where) && r.awayGoals == GoalsAgainst(w, req.where)
    ensures DistinctDates(Candidates(matches, req.where, req.team, normalizeName)) ==>
              forall w :: MostRecentWindow(w, Candidates(matches, req.where, req.team, normalizeName), req.count) ==>
                r.homeGoals == GoalsFor(w, req.where) && r.awayGoals == GoalsAgainst(w, req.where)
    ensures req.where != "home" && req.where != "away" ==> r.homeGoals == 0 && r.awayGoals == 0
  {
    var normalized := NormalizeMatches(matches, normalizeName);
    var sorted := SortBy(normalized, EarlierOrSame);
    var toCheck := MatchesToCheck(sorted, req.where, req.team);
    var buffer := new Match[|toCheck|](k requires 0 <= k < |toCheck| => toCheck[k]);
    assert buffer[..] == toCheck;
    Reverse(buffer);
    var window := Slice(buffer[..], 0, req.count);
    r := LastGoals(req.team, GoalsFor(window, req.where), GoalsAgainst(window, req.where));
    var candidates := Candidates(matches, req.where, req.team, normalizeName);
    assert window == LastGoalsWindow(matches, req.where, req.team, req.count, normalizeName);
    LastGoalsMostRecent(matches, req.where, req.team, req.count, normalizeName);
    forall w | DistinctDates(candidates) && MostRecentWindow(w, candidates, req.count) ensures w == window {
      WindowUnique(w, window, candidates, req.count);
    }
  }

  // ---------------------------------------------------------------------------
  // teamsService
  // ---------------------------------------------------------------------------

  /** Home and away team of every match, in match order. */
  function TeamList(matches: seq<Match>): (r: seq<string>)
    ensures |r| == 2 * |matches|
    ensures forall k :: 0 <= k < |matches| ==> r[2 * k] == matches[k].homeTeam && r[2 * k + 1] == matches[k].awayTeam
  {
    if matches == [] then []
    else
      var last := |matches| - 1;
      TeamList(matches[..last]) + [matches[last].homeTeam, matches[last].awayTeam]
  }

  ghost function TeamsOf(matches: seq<Match>): set<string> {
    (set m | m in matches :: m.homeTeam) + (set m | m in matches :: m.awayTeam)
  }

  ghost function Names(teams: seq<TeamResponse>): set<string> {
    set t | t in teams :: t.name
  }

  lemma TeamListMembers(matches: seq<Match>)
    ensures forall t :: t in TeamList(matches) <==> t in TeamsOf(matches)
  {
  }

  /** Compares two team names by their normalised forms. */
  function ShortNameLe(normalizeName: string -> string): (le: (string, string) -> bool)
    ensures forall a, b :: le(a, b) && le(b, a) <==> normalizeName(a) == normalizeName(b)
  {
    LexLeTies();
    (a: string, b: string) => LexLe(normalizeName(a), normalizeName(b))
  }

  /** Two strings compare equal exactly when they are equal. */
  lemma LexLeTies()
    ensures forall x, y :: LexLe(x, y) && LexLe(y, x) <==> x == y
  {
    forall x, y | LexLe(x, y) && LexLe(y, x) ensures x == y {
      LexLeAntisymmetric(x, y);
    }
  }

  lemma ShortNameLePreorder(normalizeName: string -> string)
    ensures TotalPreorder(ShortNameLe(normalizeName))
  {
    var le := ShortNameLe(normalizeName);
    forall a, b ensures le(a, b) || le(b, a) {
      LexLeTotal(normalizeName(a), normalizeName(b));
    }
    forall a, b, c | le(a, b) && le(b, c) ensures le(a, c) {
      LexLeTransitive(normalizeName(a), normalizeName(b), normalizeName(c));
    }
  }

  /**
   * Every team that played, once, with its short name, ordered by short
   * name: collect home and away teams, sort, de-duplicate.
   */
  method TeamsService(matches: seq<Match>, normalizeName: string -> string) returns (r: TeamsResponse)
    ensures forall i, j :: 0 <= i < j < |r.allTeams| ==> r.allTeams[i].name != r.allTeams[j].name
    ensures Names(r.allTeams) == TeamsOf(matches)
    ensures forall t :: t in r.allTeams ==> t.shortName == normalizeName(t.name)
    ensures forall i, j :: 0 <= i < j < |r.allTeams| ==> LexLe(r.allTeams[i].shortName, r.allTeams[j].shortName)
  {
    var allTeams: seq<string> := [];
    for k := 0 to |matches|
      invariant allTeams == TeamList(matches[..k])
    {
      var prefix := matches[..k + 1];
      assert prefix[..k] == matches[..k] && prefix[k] == matches[k];
      allTeams := allTeams + [matches[k].homeTeam];
      allTeams := allTeams + [matches[k].awayTeam];
      assert allTeams == TeamList(prefix);
    }
    assert matches[..|matches|] == matches;
    r := TeamsResponse(TeamResponses(allTeams, normalizeName));
    NamesOfAllTeams(matches, r.allTeams);
  }

  lemma NamesOfAllTeams(matches: seq<Match>, teams: seq<TeamResponse>)
    requires forall t :: t in Names(teams) <==> t in TeamList(matches)
    ensures Names(teams) == TeamsOf(matches)
  {
    TeamListMembers(matches);
  }

  /** Sorts the collected names by short name, drops repeats and pairs each with its short name. */
  function TeamResponses(allTeams: seq<string>, normalizeName: string -> string): (r: seq<TeamResponse>)
    ensures forall i, j :: 0 <= i < j < |r| ==> r[i].name != r[j].name
    ensures forall t :: t in Names(r) <==> t in allTeams
    ensures forall k :: 0 <= k < |r| ==> r[k].shortName == normalizeName(r[k].name)
    ensures forall i, j :: 0 <= i < j < |r| ==> LexLe(r[i].shortName, r[j].shortName)
  {
    var unique := Uniq(SortBy(allTeams, ShortNameLe(normalizeName)));
    var r := seq(|unique|, k requires 0 <= k < |unique| => TeamResponse(unique[k], normalizeName(unique[k])));
    SortedUniqueTeams(allTeams, normalizeName);
    ResponseNames(unique, r);
    r
  }

  /** Sorting and de-duplicating keeps exactly the collected names, in short-name order. */
  lemma SortedUniqueTeams(allTeams: seq<string>, normalizeName: string -> string)
    ensures forall t :: t in Uniq(SortBy(allTeams, ShortNameLe(normalizeName))) <==> t in allTeams
    ensures SortedBy(Uniq(SortBy(allTeams, ShortNameLe(normalizeName))), ShortNameLe(normalizeName))
  {
    var le := ShortNameLe(normalizeName);
    var sorted := SortBy(allTeams, le);
    ShortNameLePreorder(normalizeName);
    SortBySorted(allTeams, le);
    UniqFromSorted(sorted, {}, le);
    forall t ensures t in sorted <==> t in allTeams {
      assert t in sorted <==> t in multiset(sorted);
      assert t in allTeams <==> t in multiset(allTeams);
    }
  }

  lemma ResponseNames(unique: seq<string>, teams: seq<TeamResponse>)
    requires |teams| == |unique|
    requires forall k :: 0 <= k < |unique| ==> teams[k].name == unique[k]
    ensures forall t :: t in Names(teams) <==> t in unique
  {
    forall t ensures t in Names(teams) <==> t in unique {
      if t in unique {
        var k :| 0 <= k < |unique| && unique[k] == t;
        assert teams[k] in teams;
      }
      if t in Names(teams) {
        var x :| x in teams && x.name == t;
        var k :| 0 <= k < |teams| && teams[k] == x;
        assert unique[k] == t;
      }
    }
  }

  /**
   * lastMatchesService and lastGoalsService, given the same team, venue and
   * count, look at matches on the same dates in the same order.
   */
  lemma ServicesAgree(matches: seq<Match>, team: string, where: string, count: int, kind: string, normalizeName: string -> string)
    ensures |LastMatchesService(matches, LastMatchesRequest(team, count, where), normalizeName)|
            == |LastGoalsWindow(matches, where, team, count, normalizeName)|
    ensures forall k :: 0 <= k < |LastGoalsWindow(matches, where, team, count, normalizeName)| ==>
              LastMatchesService(matches, LastMatchesRequest(team, count, where), normalizeName)[k].matchDate
              == LastGoalsWindow(matches, where, team, count, normalizeName)[k].matchDate
  {
    var req := LastMatchesRequest(team, count, where);
    LastMatchesMostRecent(matches, req, normalizeName);
    LastGoalsMostRecent(matches, where, team, count, normalizeName);
    WindowDatesAgree(LastMatchesService(matches, req, normalizeName),
                     LastGoalsWindow(matches, where, team, count, normalizeName),
                     Candidates(matches, where, team, normalizeName), count);
  }
}
