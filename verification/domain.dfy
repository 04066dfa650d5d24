/**
 * The match record and its idempotent key: both team names with spaces
 * removed and lower-cased, joined by '-' with the match date in RFC 3339
 * form. Dates are abstract instants (integers); the RFC 3339 formatter is
 * passed in. Lower-casing is modelled on ASCII letters only.
 */
module Domain {

  datatype Match = Match(
    league: string,
    homeTeam: string,
    awayTeam: string,
    homeGoals: int,
    awayGoals: int,
    matchDate: int)
  {
    /** "<home>-<away>-<date>" with each team name passed through Normalize. */
    function IdempotentKey(rfc3339: int -> string): (key: string)
      ensures |key| == |Normalize(homeTeam)| + |Normalize(awayTeam)| + 2 + |rfc3339(matchDate)|
      ensures key[..|Normalize(homeTeam)|] == Normalize(homeTeam)
      ensures key[|key| - |rfc3339(matchDate)|..] == rfc3339(matchDate)
      ensures forall k :: 0 <= k < |key| - |rfc3339(matchDate)| ==> key[k] != ' ' && !IsUpper(key[k])
    {
      var home, away := Normalize(homeTeam), Normalize(awayTeam);
      assert forall k :: 0 <= k < |home| ==> home[k] in home;
      assert forall k :: 0 <= k < |away| ==> away[k] in away;
      home + "-" + away + "-" + rfc3339(matchDate)
    }
  }

  predicate IsUpper(c: char) {
    'A' <= c <= 'Z'
  }

  function LowerChar(c: char): (d: char)
    ensures !IsUpper(d)
    ensures d == ' ' <==> c == ' '
  {
    if IsUpper(c) then (c as int - 'A' as int + 'a' as int) as char else c
  }

  /** ASCII lower-casing: upper-case letters become their lower-case letter, every other character stays. */
  function ToLower(s: string): (r: string)
    ensures |r| == |s|
    ensures forall c :: c in r ==> !IsUpper(c)
    ensures forall k :: 0 <= k < |s| && !IsUpper(s[k]) ==> r[k] == s[k]
    ensures forall k :: 0 <= k < |s| && IsUpper(s[k]) ==> r[k] as int == s[k] as int + ('a' as int - 'A' as int)
  {
    seq(|s|, k requires 0 <= k < |s| => LowerChar(s[k]))
  }

  /** Deletes every space character. */
  function RemoveSpaces(s: string): (r: string)
    ensures ' ' !in r
    ensures |r| <= |s|
  {
    if s == [] then []
    else (if s[0] == ' ' then [] else [s[0]]) + RemoveSpaces(s[1..])
  }

  /** The key's name normalisation: remove spaces, then lower-case. */
  function Normalize(name: string): (r: string)
    ensures ' ' !in r
    ensures forall c :: c in r ==> !IsUpper(c)
  {
    ToLower(RemoveSpaces(name))
  }

  lemma {:induction false} RemoveSpacesAppend(a: string, b: string)
    ensures RemoveSpaces(a + b) == RemoveSpaces(a) + RemoveSpaces(b)
  {
    if a == [] {
      assert a + b == b;
    } else {
      assert (a + b)[0] == a[0] && (a + b)[1..] == a[1..] + b;
      RemoveSpacesAppend(a[1..], b);
    }
  }

  lemma {:induction false} RemoveSpacesOfSpaceless(s: string)
    requires ' ' !in s
    ensures RemoveSpaces(s) == s
  {
    if s != [] {
      RemoveSpacesOfSpaceless(s[1..]);
    }
  }

  /** Lower-casing and removing spaces can be done in either order. */
  lemma {:induction false} RemoveSpacesToLower(s: string)
    ensures RemoveSpaces(ToLower(s)) == ToLower(RemoveSpaces(s))
  {
    if s != [] {
      RemoveSpacesToLower(s[1..]);
      assert ToLower(s) == [LowerChar(s[0])] + ToLower(s[1..]);
      var tail := RemoveSpaces(s[1..]);
      if s[0] != ' ' {
        assert ToLower([s[0]] + tail) == [LowerChar(s[0])] + ToLower(tail);
      }
    }
  }

  /** Normalising twice is normalising once. */
  lemma NormalizeIdempotent(name: string)
    ensures Normalize(Normalize(name)) == Normalize(name)
  {
    var once := Normalize(name);
    RemoveSpacesOfSpaceless(once);
    assert ToLower(once) == once;
  }

  lemma RemoveSpacesOfSpace()
    ensures RemoveSpaces(" ") == []
  {
    assert " "[0] == ' ' && " "[1..] == [];
  }

  lemma RemoveSpacesIgnoresSpace(front: string, back: string)
    ensures RemoveSpaces(front + " " + back) == RemoveSpaces(front + back)
  {
    RemoveSpacesOfSpace();
    RemoveSpacesAppend(front, " ");
    RemoveSpacesAppend(front + " ", back);
    RemoveSpacesAppend(front, back);
  }

  /** Inserting a space anywhere in a name leaves its normalisation unchanged. */
  lemma NormalizeIgnoresSpace(name: string, at: nat)
    requires at <= |name|
    ensures Normalize(name[..at] + " " + name[at..]) == Normalize(name)
  {
    RemoveSpacesIgnoresSpace(name[..at], name[at..]);
    assert name[..at] + name[at..] == name;
  }

  /** Names that agree up to the case of ASCII letters normalise alike. */
  lemma NormalizeIgnoresCase(a: string, b: string)
    requires ToLower(a) == ToLower(b)
    ensures Normalize(a) == Normalize(b)
  {
    RemoveSpacesToLower(a);
    RemoveSpacesToLower(b);
  }

  /** The key depends on the teams and the date only, not on league or goals. */
  lemma KeyIgnoresLeagueAndGoals(m: Match, league: string, homeGoals: int, awayGoals: int, rfc3339: int -> string)
    ensures m.(league := league, homeGoals := homeGoals, awayGoals := awayGoals).IdempotentKey(rfc3339)
            == m.IdempotentKey(rfc3339)
  {
  }

  /** Adding or removing spaces anywhere in either team name, or in both, leaves the key unchanged. */
  lemma KeyIgnoresSpaces(m: Match, homeTeam: string, awayTeam: string, rfc3339: int -> string)
    requires RemoveSpaces(homeTeam) == RemoveSpaces(m.homeTeam) && RemoveSpaces(awayTeam) == RemoveSpaces(m.awayTeam)
    ensures m.(homeTeam := homeTeam, awayTeam := awayTeam).IdempotentKey(rfc3339) == m.IdempotentKey(rfc3339)
  {
  }

  /** One space inserted into the home name alone is an instance of KeyIgnoresSpaces. */
  lemma KeyIgnoresHomeSpace(m: Match, at: nat, rfc3339: int -> string)
    requires at <= |m.homeTeam|
    ensures m.(homeTeam := m.homeTeam[..at] + " " + m.homeTeam[at..]).IdempotentKey(rfc3339) == m.IdempotentKey(rfc3339)
  {
    RemoveSpacesIgnoresSpace(m.homeTeam[..at], m.homeTeam[at..]);
    assert m.homeTeam[..at] + m.homeTeam[at..] == m.homeTeam;
    KeyIgnoresSpaces(m, m.homeTeam[..at] + " " + m.homeTeam[at..], m.awayTeam, rfc3339);
  }

  /** Changing the case of either team name leaves the key unchanged. */
  lemma KeyIgnoresCase(m: Match, homeTeam: string, awayTeam: string, rfc3339: int -> string)
    requires ToLower(homeTeam) == ToLower(m.homeTeam) && ToLower(awayTeam) == ToLower(m.awayTeam)
    ensures m.(homeTeam := homeTeam, awayTeam := awayTeam).IdempotentKey(rfc3339) == m.IdempotentKey(rfc3339)
  {
    NormalizeIgnoresCase(homeTeam, m.homeTeam);
    NormalizeIgnoresCase(awayTeam, m.awayTeam);
  }

  // The example lemmas take their strings as parameters pinned by `requires`
  // rather than as literals: on a literal the verifier unrolls the recursive
  // functions character by character and runs out of resources.

  lemma NormalizeHomeExample(first: string, second: string)
    requires first == "Manchester" && second == "United"
    ensures Normalize(first + " " + second) == "manchesterunited"
  {
    var joined := first + second;
    RemoveSpacesIgnoresSpace(first, second);
    RemoveSpacesOfSpaceless(joined);
    LowerExample(joined);
  }

  lemma LowerExample(s: string)
    requires s == "ManchesterUnited"
    ensures ToLower(s) == "manchesterunited"
  {
  }

  lemma NormalizeAwayExample(away: string)
    requires away == "Liverpool"
    ensures Normalize(away) == "liverpool"
  {
    RemoveSpacesOfSpaceless(away);
    LowerAwayExample(away);
  }

  lemma LowerAwayExample(s: string)
    requires s == "Liverpool"
    ensures ToLower(s) == "liverpool"
  {
  }

  /**
   * The documented example: Manchester United v Liverpool on 15 April 2023
   * at 15:00 UTC. The home name is given as its two words around a space.
   */
  lemma KeyExample(first: string, second: string, away: string, date: int, rfc3339: int -> string)
    requires first == "Manchester" && second == "United" && away == "Liverpool"
    requires rfc3339(date) == "2023-04-15T15:00:00Z"
    ensures Match("Premier League", first + " " + second, away, 2, 1, date).IdempotentKey(rfc3339)
            == "manchesterunited-liverpool-2023-04-15T15:00:00Z"
  {
    NormalizeHomeExample(first, second);
    NormalizeAwayExample(away);
  }
}
