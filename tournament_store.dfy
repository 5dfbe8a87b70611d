/** The tournament store's roster and score operations, on the groups as the
    store holds them. Each operation either refuses, leaving the groups as
    they were, or gives the groups it writes back. */
module TournamentStore {
  import opened Wrappers
  import opened TournamentTypes
  import opened Roster
  import Seqs
  import Standings
  import Text

  /** Why the store did not write. */
  datatype StoreError = NoTournament | AlreadyInGroup | GroupNotFound | TeamNotFound

  /** The match record written beside a score. */
  datatype MatchLog = MatchLog(groupId: string, homeTeamId: string, awayTeamId: string,
                               homeScore: int, awayScore: int, playedAt: string)

  /** `played` after `JSON.parse(JSON.stringify(...))`: a missing field stays
      missing and not-a-number is written out as `null`. */
  function JsonPlayed(p: PlayedCount): (r: PlayedCount)
    ensures r != NaN
    ensures p != NaN ==> r == p
  {
    if p == NaN then Null else p
  }

  /** `JSON.parse(JSON.stringify(team))`: every other field is a string or an
      integer and comes through as it was. */
  function JsonCopy(t: Team): (r: Team)
    ensures r.played == JsonPlayed(t.played)
    ensures r.(played := t.played) == t
  {
    t.(played := JsonPlayed(t.played))
  }

  /** `played++`: a number goes up by one, `null` counts as 0, and a missing
      field or not-a-number gives not-a-number. */
  function PlusPlus(p: PlayedCount): (r: PlayedCount)
    ensures r.Count? <==> p.Count? || p == Null
    ensures p.Count? ==> r == Count(p.n + 1)
    ensures p == Null ==> r == Count(1)
  {
    match p
    case Count(n) => Count(n + 1)
    case Null => Count(1)
    case _ => NaN
  }

  /** The `played` the store writes back for a stored `played`: the JSON copy
      incremented. A number goes up by one; a stored not-a-number (or `null`)
      restarts at 1; a missing field becomes not-a-number. */
  function Inc(played: PlayedCount): (r: PlayedCount)
    ensures played.Count? ==> r == Count(played.n + 1)
    ensures played == Null || played == NaN ==> r == Count(1)
    ensures played == Missing ==> r == NaN
  {
    PlusPlus(JsonPlayed(played))
  }

  /** `played` after the store has credited k results in a row. */
  function ScoredTimes(played: PlayedCount, k: nat): PlayedCount {
    if k == 0 then played else Inc(ScoredTimes(played, k - 1))
  }

  /** A numeric count is the number of results credited on top of it. */
  lemma {:induction false} CountedTimes(n: int, k: nat)
    ensures ScoredTimes(Count(n), k) == Count(n + k)
  {
    if k > 0 {
      CountedTimes(n, k - 1);
    }
  }

  /** A team made without a `played` field (the tournament page's
      `createTeam`) is not-a-number after its first result and counts from 1
      after its second, so it stays one behind the results credited. */
  lemma {:induction false} MissingCountLagsByOne(k: nat)
    requires k >= 1
    ensures ScoredTimes(Missing, k) == if k == 1 then NaN else Count(k - 1)
  {
    if k > 1 {
      MissingCountLagsByOne(k - 1);
    }
  }

  /** No two teams of the list share an id. */
  predicate TeamIdsDistinct(teams: seq<Team>) {
    forall i, j :: 0 <= i < j < |teams| ==> teams[i].id != teams[j].id
  }

  // ---------------------------------------------------------------------------
  // Adding

  /** The team `addTeam` creates: the given id and name, every count zero,
      `played` included. */
  function NewTeam(id: string, name: string): (t: Team)
    ensures t.id == id && t.name == name && t.played == Count(0)
    ensures t.wins == 0 && t.draws == 0 && t.losses == 0 && t.points == 0
    ensures t.goalsFor == 0 && t.goalsAgainst == 0 && t.goalDifference == 0
  {
    Team(id, name, 0, 0, 0, 0, 0, 0, 0, Count(0))
  }

  /** `addTeam`: refused without a tournament, when the group already holds
      the name up to case, or when the group's record is missing; otherwise
      the new team is appended to the group. The boolean answer is whether
      the result is a success. */
  function AddTeam(tournamentId: string, groups: seq<Group>, groupId: string, teamName: string, newId: string)
    : (r: Result<seq<Group>, StoreError>)
    ensures r == Failure(NoTournament) <==> tournamentId == ""
    ensures r == Failure(AlreadyInGroup) <==> tournamentId != "" && InGroupAlready(groups, groupId, teamName)
    ensures r == Failure(GroupNotFound) <==> tournamentId != "" && FindGroup(groups, groupId).None?
    ensures r.Failure? ==> r.error != TeamNotFound
    ensures r.Success? ==> r.value == AddToGroup(groups, groupId, NewTeam(newId, teamName))
  {
    if tournamentId == "" then Failure(NoTournament)
    else if InGroupAlready(groups, groupId, teamName) then Failure(AlreadyInGroup)
    else if FindGroup(groups, groupId).None? then Failure(GroupNotFound)
    else Success(AddToGroup(groups, groupId, NewTeam(newId, teamName)))
  }

  /** A successful addition, with group ids distinct, gives the tournament
      one more team, appended to the target group with zero counts; no team
      of that group had the name up to case. */
  lemma AddTeamAdds(tournamentId: string, groups: seq<Group>, groupId: string, teamName: string, newId: string)
    requires DistinctIds(groups)
    requires AddTeam(tournamentId, groups, groupId, teamName, newId).Success?
    ensures var r := AddTeam(tournamentId, groups, groupId, teamName, newId).value;
            var g := FindGroup(groups, groupId).value;
            && TotalTeams(r) == TotalTeams(groups) + 1
            && r[g].teams == groups[g].teams + [NewTeam(newId, teamName)]
            && StatsConsistent(r[g].teams[|groups[g].teams|])
            && (forall i :: 0 <= i < |groups[g].teams| ==> !Text.SameIgnoringCase(groups[g].teams[i].name, teamName))
  {
    var g := FindGroup(groups, groupId).value;
    var team := NewTeam(newId, teamName);
    AddToGroupCount(groups, groupId, team);
    PresentDistinctIdCountsOnce(groups, g);
    AddToGroupEffect(groups, groupId, team, g);
    assert AddToGroup(groups, groupId, team)[g].teams
        == AddToGroup(groups, groupId, team)[g].teams[..|groups[g].teams|] + [team];
  }

  // ---------------------------------------------------------------------------
  // Removing

  /** Teams other than the given one, compared as whole records. */
  function NotThis(team: Team): Team -> bool {
    (t: Team) => t != team
  }

  /** `removeTeam`: refused without a tournament or when the team is not in
      the group; otherwise `arrayRemove` drops from the group every record
      equal to the one found. */
  function RemoveTeam(tournamentId: string, groups: seq<Group>, groupId: string, teamId: string)
    : (r: Result<seq<Group>, StoreError>)
    ensures r == Failure(NoTournament) <==> tournamentId == ""
    ensures r == Failure(TeamNotFound) <==>
              tournamentId != "" && (FindGroup(groups, groupId).None?
                                     || FindTeam(groups[FindGroup(groups, groupId).value].teams, teamId).None?)
    ensures r.Success? ==> |r.value| == |groups|
  {
    if tournamentId == "" then Failure(NoTournament)
    else match FindGroup(groups, groupId)
      case None => Failure(TeamNotFound)
      case Some(g) =>
        match FindTeam(groups[g].teams, teamId)
        case None => Failure(TeamNotFound)
        case Some(i) =>
          var found := groups[g].teams[i];
          Success(seq(|groups|, h requires 0 <= h < |groups| =>
            if groups[h].id == groupId then groups[h].(teams := Seqs.Filter(groups[h].teams, NotThis(found)))
            else groups[h]))
  }

  /** Removing by record is removing by id when the group's ids are distinct
      and group ids are distinct: the store and the pages agree. */
  lemma RemoveByRecordIsById(tournamentId: string, groups: seq<Group>, groupId: string, teamId: string)
    requires DistinctIds(groups)
    requires forall g :: 0 <= g < |groups| ==> TeamIdsDistinct(groups[g].teams)
    requires RemoveTeam(tournamentId, groups, groupId, teamId).Success?
    ensures RemoveTeam(tournamentId, groups, groupId, teamId).value == RemoveFromGroup(groups, groupId, teamId)
  {
    var g := FindGroup(groups, groupId).value;
    var found := groups[g].teams[FindTeam(groups[g].teams, teamId).value];
    var r := RemoveTeam(tournamentId, groups, groupId, teamId).value;
    var s := RemoveFromGroup(groups, groupId, teamId);
    forall h | 0 <= h < |groups|
      ensures r[h] == s[h]
    {
      if groups[h].id == groupId {
        assert h == g;
        SameFilter(groups[g].teams, found, teamId);
      }
    }
  }

  /** With distinct ids, dropping the record with the id equals dropping by id. */
  lemma {:induction false} SameFilter(teams: seq<Team>, found: Team, teamId: string)
    requires TeamIdsDistinct(teams) && found.id == teamId
    requires found in teams
    ensures Seqs.Filter(teams, NotThis(found)) == Seqs.Filter(teams, NotId(teamId))
  {
    if teams != [] {
      if teams[0] == found {
        Seqs.FilterKeepsAll(teams[1..], NotThis(found));
        Seqs.FilterKeepsAll(teams[1..], NotId(teamId));
      } else {
        assert teams[0].id != teamId;
        SameFilter(teams[1..], found, teamId);
      }
    }
  }

  // ---------------------------------------------------------------------------
  // Renaming

  /** `editTeam`: refused without a tournament or when the group's record is
      missing; otherwise the team with the id is renamed in that group. */
  function EditTeam(tournamentId: string, groups: seq<Group>, groupId: string, teamId: string, newName: string)
    : (r: Result<seq<Group>, StoreError>)
    ensures r == Failure(NoTournament) <==> tournamentId == ""
    ensures r == Failure(GroupNotFound) <==> tournamentId != "" && FindGroup(groups, groupId).None?
    ensures r.Success? ==> r.value == RenameInGroup(groups, groupId, teamId, newName)
  {
    if tournamentId == "" then Failure(NoTournament)
    else if FindGroup(groups, groupId).None? then Failure(GroupNotFound)
    else Success(RenameInGroup(groups, groupId, teamId, newName))
  }

  // ---------------------------------------------------------------------------
  // Scores

  /** One side's record after `submitScore`'s JSON copy and field-by-field
      update: played
      and goals go up, goal difference is recomputed, and the outcome adds a
      win and three points, a draw and one point, or a loss. */
  function Credited(t: Team, scored: int, conceded: int): (r: Team)
    ensures r.id == t.id && r.name == t.name && r.played == Inc(t.played)
    ensures r.goalsFor == t.goalsFor + scored && r.goalsAgainst == t.goalsAgainst + conceded
    ensures r.goalDifference == r.goalsFor - r.goalsAgainst
    ensures Standings.Decided(r) == Standings.Decided(t) + 1
    ensures r.points - t.points == 3 * (r.wins - t.wins) + (r.draws - t.draws)
  {
    var won := scored > conceded;
    var drew := scored == conceded;
    t.(played := Inc(t.played),
       goalsFor := t.goalsFor + scored,
       goalsAgainst := t.goalsAgainst + conceded,
       goalDifference := (t.goalsFor + scored) - (t.goalsAgainst + conceded),
       wins := if won then t.wins + 1 else t.wins,
       draws := if drew then t.draws + 1 else t.draws,
       losses := if !won && !drew then t.losses + 1 else t.losses,
       points := if won then t.points + 3 else if drew then t.points + 1 else t.points)
  }

  /** The store adds points to what was there, where the pages recompute
      them from the counts: on a record whose points and goal difference are
      consistent both give the same record apart from `played`, and the
      result stays consistent. */
  lemma CreditedAgreesWithRecord(t: Team, scored: int, conceded: int)
    requires StatsConsistent(t)
    ensures Credited(t, scored, conceded) == Standings.RecordResult(t, scored, conceded).(played := Inc(t.played))
    ensures StatsConsistent(Credited(t, scored, conceded))
  {
  }

  /** On a record whose points are off, the store keeps them off by the
      same amount: the update never repairs an inconsistent record. */
  lemma CreditedKeepsOffset(t: Team, scored: int, conceded: int)
    ensures var r := Credited(t, scored, conceded);
            r.points - (3 * r.wins + r.draws) == t.points - (3 * t.wins + t.draws)
  {
  }

  /** The JSON copies of the two found records, then their field-by-field
      update in the program's order: played, goals, goal difference, then
      the one result branch. */
  method UpdateStats(home: Team, away: Team, homeScore: int, awayScore: int) returns (h: Team, a: Team)
    ensures h == Credited(home, homeScore, awayScore)
    ensures a == Credited(away, awayScore, homeScore)
  {
    h, a := JsonCopy(home), JsonCopy(away);
    h := h.(played := PlusPlus(h.played));
    a := a.(played := PlusPlus(a.played));
    h := h.(goalsFor := h.goalsFor + homeScore);
    a := a.(goalsFor := a.goalsFor + awayScore);
    h := h.(goalsAgainst := h.goalsAgainst + awayScore);
    a := a.(goalsAgainst := a.goalsAgainst + homeScore);
    h := h.(goalDifference := h.goalsFor - h.goalsAgainst);
    a := a.(goalDifference := a.goalsFor - a.goalsAgainst);
    if homeScore > awayScore {
      h := h.(wins := h.wins + 1);
      h := h.(points := h.points + 3);
      a := a.(losses := a.losses + 1);
    } else if homeScore < awayScore {
      a := a.(wins := a.wins + 1);
      a := a.(points := a.points + 3);
      h := h.(losses := h.losses + 1);
    } else {
      h := h.(draws := h.draws + 1);
      a := a.(draws := a.draws + 1);
      h := h.(points := h.points + 1);
      a := a.(points := a.points + 1);
    }
  }

  /** `teams.map(t => t.id === homeId ? home : t.id === awayId ? away : t)`. */
  function ReplaceTeams(teams: seq<Team>, homeId: string, awayId: string, home: Team, away: Team): (r: seq<Team>)
    ensures |r| == |teams|
    ensures forall i :: 0 <= i < |teams| && teams[i].id != homeId && teams[i].id != awayId ==> r[i] == teams[i]
    ensures forall i :: 0 <= i < |teams| && teams[i].id == homeId ==> r[i] == home
    ensures forall i :: 0 <= i < |teams| && teams[i].id != homeId && teams[i].id == awayId ==> r[i] == away
  {
    seq(|teams|, i requires 0 <= i < |teams| =>
      if teams[i].id == homeId then home else if teams[i].id == awayId then away else teams[i])
  }

  /** `submitScore`: refused without a tournament, when the group's record
      is missing, or when either team is not in it; otherwise the two teams'
      updated records replace them in the group and the match record is
      written. */
  method SubmitScore(tournamentId: string, groups: seq<Group>, homeTeamId: string, awayTeamId: string,
                     homeScore: int, awayScore: int, groupId: string, playedAt: string)
    returns (r: Result<(seq<Group>, MatchLog), StoreError>)
    ensures r == Failure(NoTournament) <==> tournamentId == ""
    ensures r == Failure(GroupNotFound) <==> tournamentId != "" && FindGroup(groups, groupId).None?
    ensures r == Failure(TeamNotFound) <==>
              tournamentId != "" && FindGroup(groups, groupId).Some?
              && (FindTeam(groups[FindGroup(groups, groupId).value].teams, homeTeamId).None?
                  || FindTeam(groups[FindGroup(groups, groupId).value].teams, awayTeamId).None?)
    ensures r.Success? ==> r.value == StoreScore(groups, homeTeamId, awayTeamId, homeScore, awayScore, groupId, playedAt)
  {
    if tournamentId == "" {
      return Failure(NoTournament);
    }
    var g := FindGroup(groups, groupId);
    if g.None? {
      return Failure(GroupNotFound);
    }
    var teams := groups[g.value].teams;
    var hi := FindTeam(teams, homeTeamId);
    var ai := FindTeam(teams, awayTeamId);
    if hi.None? || ai.None? {
      return Failure(TeamNotFound);
    }
    var home, away := UpdateStats(teams[hi.value], teams[ai.value], homeScore, awayScore);
    var updated := ReplaceTeams(teams, homeTeamId, awayTeamId, home, away);
    r := Success((groups[g.value := groups[g.value].(teams := updated)],
                  MatchLog(groupId, homeTeamId, awayTeamId, homeScore, awayScore, playedAt)));
  }

  /** What a successful `submitScore` writes, for a group and both teams
      that are present. */
  function StoreScore(groups: seq<Group>, homeTeamId: string, awayTeamId: string,
                      homeScore: int, awayScore: int, groupId: string, playedAt: string)
    : (r: (seq<Group>, MatchLog))
    requires FindGroup(groups, groupId).Some?
    requires FindTeam(groups[FindGroup(groups, groupId).value].teams, homeTeamId).Some?
    requires FindTeam(groups[FindGroup(groups, groupId).value].teams, awayTeamId).Some?
    ensures |r.0| == |groups|
    ensures forall h :: 0 <= h < |groups| && h != FindGroup(groups, groupId).value ==> r.0[h] == groups[h]
    ensures r.1 == MatchLog(groupId, homeTeamId, awayTeamId, homeScore, awayScore, playedAt)
  {
    var g := FindGroup(groups, groupId).value;
    var teams := groups[g].teams;
    var home := Credited(teams[FindTeam(teams, homeTeamId).value], homeScore, awayScore);
    var away := Credited(teams[FindTeam(teams, awayTeamId).value], awayScore, homeScore);
    (groups[g := groups[g].(teams := ReplaceTeams(teams, homeTeamId, awayTeamId, home, away))],
     MatchLog(groupId, homeTeamId, awayTeamId, homeScore, awayScore, playedAt))
  }

  /** In the scored group only the home and away teams change, keeping their
      places; with the group's ids distinct and its records consistent each
      gets exactly the page's update, with `played` as Inc gives it, so the
      store and the page agree on every other count. */
  lemma StoreScoreAgreesWithPage(groups: seq<Group>, homeTeamId: string, awayTeamId: string,
                                 homeScore: int, awayScore: int, groupId: string, playedAt: string, i: nat)
    requires FindGroup(groups, groupId).Some?
    requires FindTeam(groups[FindGroup(groups, groupId).value].teams, homeTeamId).Some?
    requires FindTeam(groups[FindGroup(groups, groupId).value].teams, awayTeamId).Some?
    requires var teams := groups[FindGroup(groups, groupId).value].teams;
             TeamIdsDistinct(teams) && i < |teams| && StatsConsistent(teams[i])
    ensures var g := FindGroup(groups, groupId).value;
            var after := StoreScore(groups, homeTeamId, awayTeamId, homeScore, awayScore, groupId, playedAt).0[g].teams[i];
            var page := Standings.ScoreTeams(groups[g].teams, homeTeamId, awayTeamId, homeScore, awayScore)[i];
            && after.(played := page.played) == page
            && (groups[g].teams[i].id == homeTeamId || groups[g].teams[i].id == awayTeamId ==>
                  after.played == Inc(groups[g].teams[i].played))
            && (groups[g].teams[i].id != homeTeamId && groups[g].teams[i].id != awayTeamId ==>
                  after == groups[g].teams[i])
  {
    var g := FindGroup(groups, groupId).value;
    var teams := groups[g].teams;
    var t := teams[i];
    if t.id == homeTeamId {
      assert FindTeam(teams, homeTeamId).value == i;
      CreditedAgreesWithRecord(t, homeScore, awayScore);
    } else if t.id == awayTeamId {
      assert FindTeam(teams, awayTeamId).value == i;
      CreditedAgreesWithRecord(t, awayScore, homeScore);
    }
  }
}
