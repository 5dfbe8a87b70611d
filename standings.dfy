/** Group-stage bookkeeping shared by the tournament page and the local
    index page: applying one result to the two teams of a group, and
    recomputing a team's record from lists of its home and away matches. */
module Standings {
  import opened Wrappers
  import opened TournamentTypes

  datatype Outcome = Win | Draw | Loss

  /** The outcome for a side that scored `scored` and conceded `conceded`. */
  function OutcomeOf(scored: int, conceded: int): (o: Outcome)
    ensures o == Win <==> scored > conceded
    ensures o == Draw <==> scored == conceded
    ensures o == Loss <==> scored < conceded
  {
    if scored > conceded then Win else if scored == conceded then Draw else Loss
  }

  /** One result seen from both sides: a win for one is a loss for the other,
      and a draw is a draw for both. */
  lemma OutcomesMirror(a: int, b: int)
    ensures OutcomeOf(a, b) == Win <==> OutcomeOf(b, a) == Loss
    ensures OutcomeOf(a, b) == Draw <==> OutcomeOf(b, a) == Draw
  {
  }

  /** The number of wins, draws and losses recorded on a team. */
  function Decided(t: Team): int {
    t.wins + t.draws + t.losses
  }

  /** One side's update of a submitted score: goals are added, exactly one of
      win, draw or loss is counted, and points and goal difference are
      recomputed from the new counts. */
  function RecordResult(t: Team, scored: int, conceded: int): (r: Team)
    ensures r.id == t.id && r.name == t.name && r.played == t.played
    ensures r.goalsFor == t.goalsFor + scored && r.goalsAgainst == t.goalsAgainst + conceded
    ensures Decided(r) == Decided(t) + 1
    ensures r.wins == t.wins + (if OutcomeOf(scored, conceded) == Win then 1 else 0)
    ensures r.draws == t.draws + (if OutcomeOf(scored, conceded) == Draw then 1 else 0)
    ensures r.losses == t.losses + (if OutcomeOf(scored, conceded) == Loss then 1 else 0)
    ensures StatsConsistent(r)
  {
    var goalsFor := t.goalsFor + scored;
    var goalsAgainst := t.goalsAgainst + conceded;
    var wins := if scored > conceded then t.wins + 1 else t.wins;
    var draws := if scored == conceded then t.draws + 1 else t.draws;
    var losses := if scored < conceded then t.losses + 1 else t.losses;
    t.(wins := wins, draws := draws, losses := losses,
       goalsFor := goalsFor, goalsAgainst := goalsAgainst,
       points := wins * 3 + draws, goalDifference := goalsFor - goalsAgainst)
  }

  /** The teams of the scored group after a result: the home branch is tested
      first, so a team whose id is both home and away gets the home update. */
  function ScoreTeams(teams: seq<Team>, homeId: string, awayId: string, homeScore: int, awayScore: int): (r: seq<Team>)
    ensures |r| == |teams|
  {
    seq(|teams|, i requires 0 <= i < |teams| =>
      if teams[i].id == homeId then RecordResult(teams[i], homeScore, awayScore)
      else if teams[i].id == awayId then RecordResult(teams[i], awayScore, homeScore)
      else teams[i])
  }

  /** The group list after `handleSubmitScore`: only the group with the given
      id has its teams rescored. */
  function ApplyScore(groups: seq<Group>, homeId: string, awayId: string, homeScore: int, awayScore: int, groupId: string): (r: seq<Group>)
    ensures |r| == |groups|
  {
    seq(|groups|, g requires 0 <= g < |groups| =>
      if groups[g].id == groupId
      then groups[g].(teams := ScoreTeams(groups[g].teams, homeId, awayId, homeScore, awayScore))
      else groups[g])
  }

  /** Only the home and away teams of the scored group change; each counts
      exactly one more decided match and ends with consistent points and goal
      difference; the home side's goals for are the away side's goals
      against, and the other way round. */
  lemma ApplyScoreEffect(groups: seq<Group>, homeId: string, awayId: string, homeScore: int, awayScore: int, groupId: string, g: nat, i: nat)
    requires g < |groups| && i < |groups[g].teams|
    ensures |ApplyScore(groups, homeId, awayId, homeScore, awayScore, groupId)[g].teams| == |groups[g].teams|
    ensures ApplyScore(groups, homeId, awayId, homeScore, awayScore, groupId)[g].id == groups[g].id
    ensures ApplyScore(groups, homeId, awayId, homeScore, awayScore, groupId)[g].name == groups[g].name
    ensures groups[g].id != groupId ==> ApplyScore(groups, homeId, awayId, homeScore, awayScore, groupId)[g] == groups[g]
    ensures groups[g].teams[i].id != homeId && groups[g].teams[i].id != awayId ==>
              ApplyScore(groups, homeId, awayId, homeScore, awayScore, groupId)[g].teams[i] == groups[g].teams[i]
    ensures groups[g].id == groupId && groups[g].teams[i].id == homeId ==>
              ApplyScore(groups, homeId, awayId, homeScore, awayScore, groupId)[g].teams[i]
              == RecordResult(groups[g].teams[i], homeScore, awayScore)
    ensures groups[g].id == groupId && groups[g].teams[i].id == awayId && awayId != homeId ==>
              ApplyScore(groups, homeId, awayId, homeScore, awayScore, groupId)[g].teams[i]
              == RecordResult(groups[g].teams[i], awayScore, homeScore)
  {
  }

  /** Goals are credited crosswise: what the home team scores the away team
      concedes, and the other way round; and exactly one side wins unless it
      is a draw. */
  lemma ScoreCrosswise(home: Team, away: Team, homeScore: int, awayScore: int)
    ensures RecordResult(home, homeScore, awayScore).goalsFor - home.goalsFor
            == RecordResult(away, awayScore, homeScore).goalsAgainst - away.goalsAgainst
    ensures RecordResult(away, awayScore, homeScore).goalsFor - away.goalsFor
            == RecordResult(home, homeScore, awayScore).goalsAgainst - home.goalsAgainst
    ensures RecordResult(home, homeScore, awayScore).wins == home.wins + 1
            <==> RecordResult(away, awayScore, homeScore).losses == away.losses + 1
    ensures RecordResult(home, homeScore, awayScore).draws == home.draws + 1
            <==> RecordResult(away, awayScore, homeScore).draws == away.draws + 1
  {
    OutcomesMirror(homeScore, awayScore);
  }

  /** When the home and away ids coincide only the home update is applied:
      the team counts one decided match, not two. */
  lemma SameIdGetsHomeUpdate(groups: seq<Group>, id: string, homeScore: int, awayScore: int, groupId: string, g: nat, i: nat)
    requires g < |groups| && i < |groups[g].teams|
    requires groups[g].id == groupId && groups[g].teams[i].id == id
    ensures ApplyScore(groups, id, id, homeScore, awayScore, groupId)[g].teams[i]
            == RecordResult(groups[g].teams[i], homeScore, awayScore)
    ensures Decided(ApplyScore(groups, id, id, homeScore, awayScore, groupId)[g].teams[i])
            == Decided(groups[g].teams[i]) + 1
  {
  }
}
