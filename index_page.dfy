/** The local page's roster handlers: they rebuild the groups with no check
    at all. Removing, renaming and scoring there are the shared rebuilds of
    the roster and standings modules; adding makes its team id from a clock
    reading. */
module IndexPage {
  import opened TournamentTypes
  import opened Roster
  import InitialTournamentData
  import TournamentPage

  /** The id of a team added at clock reading `now`: "team-" followed by it. */
  function TeamId(now: string): (id: string)
    ensures |id| == 5 + |now| && id[..5] == "team-" && id[5..] == now
  {
    "team-" + now
  }

  /** Two different clock readings give two different team ids, and an id
      gives back the reading it was made from. */
  lemma TeamIdsDistinct(now: string, later: string)
    ensures TeamId(now)[5..] == now
    ensures now != later ==> TeamId(now) != TeamId(later)
  {
    assert TeamId(now)[5..] == now;
    assert TeamId(later)[5..] == later;
  }

  /** `handleAddTeam`: a fresh team named `teamName` is appended to every
      group with the id, whatever the group holds already. */
  function AddTeam(groups: seq<Group>, groupId: string, teamName: string, now: string): (r: seq<Group>)
    ensures |r| == |groups|
    ensures forall g :: 0 <= g < |groups| ==> r[g].id == groups[g].id && r[g].name == groups[g].name
  {
    AddToGroup(groups, groupId, InitialTournamentData.CreateTeam(TeamId(now), teamName))
  }

  /** Where the tournament page turns a request down for a full group or a
      name already in use, the local page adds the team anyway: the group
      grows by one and the tournament by one team. */
  lemma AddsWhatThePageRefuses(groups: seq<Group>, groupId: string, teamName: string, now: string, teamId: string)
    requires DistinctIds(groups)
    requires TournamentPage.AddTeam(groups, groupId, teamName, teamId).Failure?
    requires TournamentPage.AddTeam(groups, groupId, teamName, teamId).error != TournamentPage.GroupNotFound
    ensures var g := FindGroup(groups, groupId).value;
            && |AddTeam(groups, groupId, teamName, now)[g].teams| == |groups[g].teams| + 1
            && TotalTeams(AddTeam(groups, groupId, teamName, now)) == TotalTeams(groups) + 1
  {
    var g := FindGroup(groups, groupId).value;
    var team := InitialTournamentData.CreateTeam(TeamId(now), teamName);
    AddToGroupEffect(groups, groupId, team, g);
    AddToGroupCount(groups, groupId, team);
    PresentDistinctIdCountsOnce(groups, g);
  }

  /** With no group of that id nothing changes. */
  lemma AddToUnknownGroup(groups: seq<Group>, groupId: string, teamName: string, now: string)
    requires FindGroup(groups, groupId).None?
    ensures AddTeam(groups, groupId, teamName, now) == groups
  {
    forall g | 0 <= g < |groups|
      ensures AddTeam(groups, groupId, teamName, now)[g] == groups[g]
    {
      AddToGroupEffect(groups, groupId, InitialTournamentData.CreateTeam(TeamId(now), teamName), g);
    }
  }
}
