/** `calculateTeamStats`: recomputing a team's record from the lists of its
    home and away matches. */
module TeamStats {
  import opened TournamentTypes
  import opened Standings

  /** One match as seen by the team: goals scored, goals conceded. */
  datatype Side = Side(scored: int, conceded: int)

  /** The team's view of its home matches followed by its away matches. */
  function Sides(homeMatches: seq<Match>, awayMatches: seq<Match>): (r: seq<Side>)
    ensures |r| == |homeMatches| + |awayMatches|
  {
    seq(|homeMatches|, k requires 0 <= k < |homeMatches| => Side(homeMatches[k].homeScore, homeMatches[k].awayScore))
    + seq(|awayMatches|, k requires 0 <= k < |awayMatches| => Side(awayMatches[k].awayScore, awayMatches[k].homeScore))
  }

  /** Entry k of the team's view: a home match for k below the number of
      home matches, an away match after that. */
  lemma SideAt(homeMatches: seq<Match>, awayMatches: seq<Match>, k: nat)
    requires k < |homeMatches| + |awayMatches|
    ensures k < |homeMatches| ==> Sides(homeMatches, awayMatches)[k] == Side(homeMatches[k].homeScore, homeMatches[k].awayScore)
    ensures |homeMatches| <= k ==>
              Sides(homeMatches, awayMatches)[k] == Side(awayMatches[k - |homeMatches|].awayScore, awayMatches[k - |homeMatches|].homeScore)
  {
  }

  /** The team with all seven counters at zero and every other field kept. */
  function Zeroed(t: Team): (r: Team)
    ensures r.id == t.id && r.name == t.name && r.played == t.played
    ensures Decided(r) == 0 && r.goalsFor == 0 && r.goalsAgainst == 0 && StatsConsistent(r)
  {
    t.(wins := 0, draws := 0, losses := 0, goalsFor := 0, goalsAgainst := 0, points := 0, goalDifference := 0)
  }

  /** The record obtained by submitting the given results one after another. */
  function Replay(t: Team, sides: seq<Side>): Team {
    if sides == [] then t
    else
      var last := sides[|sides| - 1];
      RecordResult(Replay(t, sides[..|sides| - 1]), last.scored, last.conceded)
  }

  /** Replaying results counts one decided match per result, keeps the team's
      identity, and leaves points and goal difference consistent. */
  lemma {:induction false} ReplayCounts(t: Team, sides: seq<Side>)
    ensures Decided(Replay(t, sides)) == Decided(t) + |sides|
    ensures Replay(t, sides).id == t.id && Replay(t, sides).name == t.name && Replay(t, sides).played == t.played
    ensures StatsConsistent(t) ==> StatsConsistent(Replay(t, sides))
  {
    if sides != [] {
      ReplayCounts(t, sides[..|sides| - 1]);
    }
  }

  /** The five counters `calculateTeamStats` keeps. */
  datatype Tally = Tally(wins: int, draws: int, losses: int, goalsFor: int, goalsAgainst: int)

  /** The counters after one more match. */
  function Count(c: Tally, s: Side): Tally {
    Tally(if s.scored > s.conceded then c.wins + 1 else c.wins,
          if s.scored == s.conceded then c.draws + 1 else c.draws,
          if s.scored < s.conceded then c.losses + 1 else c.losses,
          c.goalsFor + s.scored, c.goalsAgainst + s.conceded)
  }

  /** The counters after the first k of the given matches, starting from zero. */
  function TallyUpTo(sides: seq<Side>, k: nat): Tally
    requires k <= |sides|
  {
    if k == 0 then Tally(0, 0, 0, 0, 0) else Count(TallyUpTo(sides, k - 1), sides[k - 1])
  }

  /** The counters after all the given matches. */
  function TallyOf(sides: seq<Side>): Tally {
    TallyUpTo(sides, |sides|)
  }

  /** The count of a prefix does not look past the prefix. */
  lemma {:induction false} TallyUpToPrefix(sides: seq<Side>, j: nat, k: nat)
    requires k <= j <= |sides|
    ensures TallyUpTo(sides[..j], k) == TallyUpTo(sides, k)
  {
    if k > 0 {
      TallyUpToPrefix(sides, j, k - 1);
    }
  }

  /** The team carrying the given counters, with points and goal difference
      computed from them. */
  function WithTally(t: Team, c: Tally): (r: Team)
    ensures StatsConsistent(r)
  {
    t.(wins := c.wins, draws := c.draws, losses := c.losses,
       goalsFor := c.goalsFor, goalsAgainst := c.goalsAgainst,
       points := c.wins * 3 + c.draws, goalDifference := c.goalsFor - c.goalsAgainst)
  }

  /** Tallying the matches with counters gives the same record as submitting
      them one by one to the zeroed team. */
  lemma {:induction false} ReplayIsTally(t: Team, sides: seq<Side>)
    ensures Replay(Zeroed(t), sides) == WithTally(t, TallyOf(sides))
  {
    if sides != [] {
      ReplayIsTally(t, sides[..|sides| - 1]);
      TallyUpToPrefix(sides, |sides| - 1, |sides| - 1);
    }
  }

  /** The counters after the first k home matches, starting from zero. */
  function HomeTally(homeMatches: seq<Match>, k: nat): Tally
    requires k <= |homeMatches|
  {
    if k == 0 then Tally(0, 0, 0, 0, 0)
    else Count(HomeTally(homeMatches, k - 1), Side(homeMatches[k - 1].homeScore, homeMatches[k - 1].awayScore))
  }

  /** The counters c after the first k away matches as well. */
  function AwayTally(c: Tally, awayMatches: seq<Match>, k: nat): Tally
    requires k <= |awayMatches|
  {
    if k == 0 then c
    else Count(AwayTally(c, awayMatches, k - 1), Side(awayMatches[k - 1].awayScore, awayMatches[k - 1].homeScore))
  }

  /** The record `calculateTeamStats` returns: the team with the counters of
      all home matches and then all away matches. */
  function Recalculated(team: Team, homeMatches: seq<Match>, awayMatches: seq<Match>): Team {
    WithTally(team, AwayTally(HomeTally(homeMatches, |homeMatches|), awayMatches, |awayMatches|))
  }

  lemma {:induction false} HomeTallyIsTally(homeMatches: seq<Match>, awayMatches: seq<Match>, k: nat)
    requires k <= |homeMatches|
    ensures HomeTally(homeMatches, k) == TallyUpTo(Sides(homeMatches, awayMatches), k)
  {
    if k > 0 {
      HomeTallyIsTally(homeMatches, awayMatches, k - 1);
      SideAt(homeMatches, awayMatches, k - 1);
    }
  }

  lemma {:induction false} AwayTallyIsTally(homeMatches: seq<Match>, awayMatches: seq<Match>, k: nat)
    requires k <= |awayMatches|
    ensures AwayTally(HomeTally(homeMatches, |homeMatches|), awayMatches, k)
            == TallyUpTo(Sides(homeMatches, awayMatches), |homeMatches| + k)
  {
    if k == 0 {
      HomeTallyIsTally(homeMatches, awayMatches, |homeMatches|);
    } else {
      AwayTallyIsTally(homeMatches, awayMatches, k - 1);
      SideAt(homeMatches, awayMatches, |homeMatches| + k - 1);
    }
  }

  /** Counting the matches gives the same record as clearing the team's
      counters and submitting its home and then its away results one by one,
      as the score handler does. */
  lemma RecalculatedIsReplay(team: Team, homeMatches: seq<Match>, awayMatches: seq<Match>)
    ensures Recalculated(team, homeMatches, awayMatches) == Replay(Zeroed(team), Sides(homeMatches, awayMatches))
  {
    AwayTallyIsTally(homeMatches, awayMatches, |awayMatches|);
    ReplayIsTally(team, Sides(homeMatches, awayMatches));
  }

  /** `calculateTeamStats`: tallies the home matches, then the away matches,
      with local counters, and returns the team with those counters. */
  method CalculateTeamStats(team: Team, homeMatches: seq<Match>, awayMatches: seq<Match>) returns (r: Team)
    ensures r == Recalculated(team, homeMatches, awayMatches)
  {
    var wins, draws, losses, goalsFor, goalsAgainst := 0, 0, 0, 0, 0;
    for k := 0 to |homeMatches|
      invariant HomeTally(homeMatches, k) == Tally(wins, draws, losses, goalsFor, goalsAgainst)
    {
      var m := homeMatches[k];
      goalsFor := goalsFor + m.homeScore;
      goalsAgainst := goalsAgainst + m.awayScore;
      if m.homeScore > m.awayScore {
        wins := wins + 1;
      } else if m.homeScore == m.awayScore {
        draws := draws + 1;
      } else {
        losses := losses + 1;
      }
    }
    ghost var home := Tally(wins, draws, losses, goalsFor, goalsAgainst);
    for k := 0 to |awayMatches|
      invariant AwayTally(home, awayMatches, k) == Tally(wins, draws, losses, goalsFor, goalsAgainst)
    {
      var m := awayMatches[k];
      goalsFor := goalsFor + m.awayScore;
      goalsAgainst := goalsAgainst + m.homeScore;
      if m.awayScore > m.homeScore {
        wins := wins + 1;
      } else if m.awayScore == m.homeScore {
        draws := draws + 1;
      } else {
        losses := losses + 1;
      }
    }
    r := team.(wins := wins, draws := draws, losses := losses,
               goalsFor := goalsFor, goalsAgainst := goalsAgainst,
               points := wins * 3 + draws, goalDifference := goalsFor - goalsAgainst);
  }

  /** What the recomputed record promises: one decided match per match
      passed in, points and goal difference consistent, identity kept. */
  lemma RecalculatedRecord(team: Team, homeMatches: seq<Match>, awayMatches: seq<Match>)
    ensures Decided(Recalculated(team, homeMatches, awayMatches)) == |homeMatches| + |awayMatches|
    ensures StatsConsistent(Recalculated(team, homeMatches, awayMatches))
    ensures Recalculated(team, homeMatches, awayMatches).id == team.id
    ensures Recalculated(team, homeMatches, awayMatches).name == team.name
    ensures Recalculated(team, homeMatches, awayMatches).played == team.played
  {
    RecalculatedIsReplay(team, homeMatches, awayMatches);
    ReplayCounts(Zeroed(team), Sides(homeMatches, awayMatches));
  }
}
