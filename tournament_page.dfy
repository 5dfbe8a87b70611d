/** The administrator's tournament page: adding, removing and renaming teams
    with its checks, renaming a team in the stored fixtures, and submitting a
    group-stage score. Each handler maps the page's state to the state it
    hands to the store. */
module TournamentPage {
  import opened Wrappers
  import opened TournamentTypes
  import opened Roster
  import Text
  import InitialTournamentData
  import Standings

  /** The most teams a group may hold. */
  const MaxTeamsPerGroup := 4

  /** Why a request was turned down. */
  datatype Rejection = GroupNotFound | GroupFull | DuplicateName

  /** Some team of some group, other than one with id `except` when given,
      has the name up to case. */
  predicate NameTaken(groups: seq<Group>, name: string, except: Option<string>) {
    exists g, i :: 0 <= g < |groups| && 0 <= i < |groups[g].teams|
      && (except.None? || groups[g].teams[i].id != except.value)
      && Text.SameIgnoringCase(groups[g].teams[i].name, name)
  }

  /** `handleAddTeam`: the group must exist and hold fewer than four teams,
      and no team anywhere may have the name up to case; then a fresh team
      with the given id is appended to the group. */
  function AddTeam(groups: seq<Group>, groupId: string, teamName: string, teamId: string): (r: Result<seq<Group>, Rejection>)
    ensures r == Failure(GroupNotFound) <==> FindGroup(groups, groupId).None?
    ensures r == Failure(GroupFull) <==>
              FindGroup(groups, groupId).Some? && |groups[FindGroup(groups, groupId).value].teams| >= MaxTeamsPerGroup
    ensures r == Failure(DuplicateName) <==>
              FindGroup(groups, groupId).Some? && |groups[FindGroup(groups, groupId).value].teams| < MaxTeamsPerGroup
              && NameTaken(groups, teamName, None)
    ensures r.Success? ==> r.value == AddToGroup(groups, groupId, InitialTournamentData.CreateTeam(teamId, teamName))
  {
    match FindGroup(groups, groupId)
    case None => Failure(GroupNotFound)
    case Some(g) =>
      if |groups[g].teams| >= MaxTeamsPerGroup then Failure(GroupFull)
      else if NameTaken(groups, teamName, None) then Failure(DuplicateName)
      else Success(AddToGroup(groups, groupId, InitialTournamentData.CreateTeam(teamId, teamName)))
  }

  /** An accepted addition gives the tournament exactly one more team, with
      zero statistics, at the end of the target group; the group then holds
      at most four teams and every other group is unchanged. */
  lemma AddTeamAccepted(groups: seq<Group>, groupId: string, teamName: string, teamId: string)
    requires DistinctIds(groups)
    requires AddTeam(groups, groupId, teamName, teamId).Success?
    ensures var r := AddTeam(groups, groupId, teamName, teamId).value;
            var g := FindGroup(groups, groupId).value;
            && TotalTeams(r) == TotalTeams(groups) + 1
            && |r[g].teams| <= MaxTeamsPerGroup
            && r[g].teams[..|groups[g].teams|] == groups[g].teams
            && r[g].teams[|groups[g].teams|] == InitialTournamentData.CreateTeam(teamId, teamName)
            && InitialTournamentData.Unplayed(r[g].teams[|groups[g].teams|])
            && (forall h :: 0 <= h < |groups| && h != g ==> r[h] == groups[h])
  {
    var g := FindGroup(groups, groupId).value;
    var team := InitialTournamentData.CreateTeam(teamId, teamName);
    AddToGroupCount(groups, groupId, team);
    PresentDistinctIdCountsOnce(groups, g);
    AddToGroupEffect(groups, groupId, team, g);
    forall h | 0 <= h < |groups| && h != g
      ensures AddToGroup(groups, groupId, team)[h] == groups[h]
    {
      AddToGroupEffect(groups, groupId, team, h);
    }
  }

  /** `handleRemoveTeam`: the group with the id keeps, in order, the teams
      whose id differs; nothing is checked. */
  function RemoveTeam(groups: seq<Group>, groupId: string, teamId: string): (r: seq<Group>)
    ensures |r| == |groups|
    ensures forall g :: 0 <= g < |groups| && groups[g].id != groupId ==> r[g] == groups[g]
    ensures forall g :: 0 <= g < |groups| ==> r[g].id == groups[g].id && r[g].name == groups[g].name
    ensures forall g, i :: 0 <= g < |groups| && groups[g].id == groupId && 0 <= i < |r[g].teams|
              ==> r[g].teams[i].id != teamId
    ensures forall g, t :: 0 <= g < |groups| && groups[g].id == groupId ==>
              multiset(r[g].teams)[t] == if t.id == teamId then 0 else multiset(groups[g].teams)[t]
    ensures forall g :: 0 <= g < |groups| ==> |r[g].teams| <= |groups[g].teams|
  {
    RemoveFromGroup(groups, groupId, teamId)
  }

  /** The teams kept in the target group stay in their order: with the
      group's teams split into a front and a back, what is left is what is
      left of the front followed by what is left of the back. */
  lemma RemoveTeamKeepsOrder(groups: seq<Group>, groupId: string, teamId: string, g: nat, front: seq<Team>, back: seq<Team>)
    requires g < |groups| && groups[g].id == groupId && groups[g].teams == front + back
    ensures RemoveTeam(groups, groupId, teamId)[g].teams == Without(front, teamId) + Without(back, teamId)
  {
    WithoutKeepsOrder(front, back, teamId);
  }

  /** The name the team had: `targetGroup?.teams.find(...)?.name`. */
  function CurrentName(groups: seq<Group>, groupId: string, teamId: string): (r: Option<string>)
    ensures r.Some? <==>
              FindGroup(groups, groupId).Some? && FindTeam(groups[FindGroup(groups, groupId).value].teams, teamId).Some?
  {
    match FindGroup(groups, groupId)
    case None => None
    case Some(g) =>
      match FindTeam(groups[g].teams, teamId)
      case None => None
      case Some(i) => Some(groups[g].teams[i].name)
  }

  /** Each fixture's home and away name, replaced by `newName` where it was
      `oldName`. */
  function RenameInFixtures(fixtures: seq<Fixture>, oldName: string, newName: string): (r: seq<Fixture>)
    ensures |r| == |fixtures|
  {
    seq(|fixtures|, k requires 0 <= k < |fixtures| =>
      fixtures[k].(homeTeam := if fixtures[k].homeTeam == oldName then newName else fixtures[k].homeTeam,
                   awayTeam := if fixtures[k].awayTeam == oldName then newName else fixtures[k].awayTeam))
  }

  /** After renaming no fixture names the old team (unless the name is
      unchanged), fixtures that did not name it are untouched, and matchday,
      round and group never change. Renaming back restores fixtures that did
      not already name the new team. */
  lemma RenameInFixturesEffect(fixtures: seq<Fixture>, oldName: string, newName: string, k: nat)
    requires k < |fixtures|
    ensures var f := RenameInFixtures(fixtures, oldName, newName)[k];
            && f.matchday == fixtures[k].matchday && f.round == fixtures[k].round
            && f.groupId == fixtures[k].groupId
            && (oldName != newName ==> f.homeTeam != oldName && f.awayTeam != oldName)
            && (fixtures[k].homeTeam != oldName && fixtures[k].awayTeam != oldName ==> f == fixtures[k])
            && (fixtures[k].homeTeam != newName && fixtures[k].awayTeam != newName ==>
                  RenameInFixtures(RenameInFixtures(fixtures, oldName, newName), newName, oldName)[k] == fixtures[k])
  {
  }

  /** `handleEditTeam`: rejected when another team (by id) anywhere has the
      new name up to case. Otherwise the team is renamed in its group and, if
      it was found there with a non-empty name, that name is replaced in
      every fixture. */
  function EditTeam(groups: seq<Group>, fixtures: seq<Fixture>, groupId: string, teamId: string, newName: string)
    : (r: Result<(seq<Group>, seq<Fixture>), Rejection>)
    ensures r.Failure? <==> NameTaken(groups, newName, Some(teamId))
    ensures r.Failure? ==> r.error == DuplicateName
    ensures r.Success? ==> r.value.0 == RenameInGroup(groups, groupId, teamId, newName)
    ensures r.Success? && CurrentName(groups, groupId, teamId).Some? && CurrentName(groups, groupId, teamId).value != "" ==>
              r.value.1 == RenameInFixtures(fixtures, CurrentName(groups, groupId, teamId).value, newName)
    ensures r.Success? && (CurrentName(groups, groupId, teamId).None? || CurrentName(groups, groupId, teamId).value == "") ==>
              r.value.1 == fixtures
  {
    if NameTaken(groups, newName, Some(teamId)) then Failure(DuplicateName)
    else
      var renamed := RenameInGroup(groups, groupId, teamId, newName);
      match CurrentName(groups, groupId, teamId)
      case Some(was) => if was != "" then Success((renamed, RenameInFixtures(fixtures, was, newName))) else Success((renamed, fixtures))
      case None => Success((renamed, fixtures))
  }

  /** An accepted rename leaves no team of another id sharing the new name up
      to case. */
  lemma EditTeamAccepted(groups: seq<Group>, fixtures: seq<Fixture>, groupId: string, teamId: string, newName: string)
    requires EditTeam(groups, fixtures, groupId, teamId, newName).Success?
    ensures !NameTaken(EditTeam(groups, fixtures, groupId, teamId, newName).value.0, newName, Some(teamId))
  {
    var r := EditTeam(groups, fixtures, groupId, teamId, newName).value.0;
    forall g, i | 0 <= g < |r| && 0 <= i < |r[g].teams| && r[g].teams[i].id != teamId
      ensures !Text.SameIgnoringCase(r[g].teams[i].name, newName)
    {
      RenameEffect(groups, groupId, teamId, newName, g, i);
    }
  }

  /** `handleSubmitScore`: one new match is appended to the match list, with
      the given id and date, and the score is applied to the group. */
  function SubmitScore(groups: seq<Group>, matches: seq<Match>, homeId: string, awayId: string,
                       homeScore: int, awayScore: int, groupId: string, matchId: string, date: string)
    : (r: (seq<Group>, seq<Match>))
    ensures |r.1| == |matches| + 1 && r.1[..|matches|] == matches
    ensures r.1[|matches|] == Match(matchId, homeId, awayId, homeScore, awayScore, groupId, date)
    ensures r.0 == Standings.ApplyScore(groups, homeId, awayId, homeScore, awayScore, groupId)
  {
    (Standings.ApplyScore(groups, homeId, awayId, homeScore, awayScore, groupId),
     matches + [Match(matchId, homeId, awayId, homeScore, awayScore, groupId, date)])
  }
}
