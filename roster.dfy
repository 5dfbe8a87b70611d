/** Rebuilding the group list after a roster change: `groups.map(...)` with
    the one group whose id matches getting a new teams array. These are the
    local page's handlers as they stand, and the tournament page's after its
    checks have passed. */
module Roster {
  import opened Wrappers
  import opened TournamentTypes
  import Seqs
  import Text

  /** Groups with the given id. */
  function GroupIdIs(id: string): Group -> bool {
    (g: Group) => g.id == id
  }

  /** Teams with the given id. */
  function TeamIdIs(id: string): Team -> bool {
    (t: Team) => t.id == id
  }

  /** `groups.find(g => g.id === id)`, as the index of the first match. */
  function FindGroup(groups: seq<Group>, id: string): (r: Option<nat>)
    ensures r.Some? ==> r.value < |groups| && groups[r.value].id == id
    ensures r.Some? ==> forall g :: 0 <= g < r.value ==> groups[g].id != id
    ensures r.None? <==> forall g :: 0 <= g < |groups| ==> groups[g].id != id
  {
    Seqs.FindFirst(groups, GroupIdIs(id))
  }

  /** `teams.find(t => t.id === id)`, as the index of the first match. */
  function FindTeam(teams: seq<Team>, id: string): (r: Option<nat>)
    ensures r.Some? ==> r.value < |teams| && teams[r.value].id == id
    ensures r.Some? ==> forall i :: 0 <= i < r.value ==> teams[i].id != id
    ensures r.None? <==> forall i :: 0 <= i < |teams| ==> teams[i].id != id
  {
    Seqs.FindFirst(teams, TeamIdIs(id))
  }

  /** Number of teams over all groups. */
  function TotalTeams(groups: seq<Group>): nat {
    if groups == [] then 0 else |groups[0].teams| + TotalTeams(groups[1..])
  }

  /** Number of groups carrying the given id. */
  function GroupsWithId(groups: seq<Group>, id: string): nat {
    if groups == [] then 0 else (if groups[0].id == id then 1 else 0) + GroupsWithId(groups[1..], id)
  }

  /** Group ids are pairwise different, as the initial groups' are. */
  predicate DistinctIds(groups: seq<Group>) {
    forall g, h :: 0 <= g < h < |groups| ==> groups[g].id != groups[h].id
  }

  /** `groups.find(g => g.id === groupId)?.teams?.some(t => t.name.toLowerCase()
      === name.toLowerCase())`: the group exists and one of its teams has the
      name up to case. */
  predicate InGroupAlready(groups: seq<Group>, groupId: string, name: string) {
    match FindGroup(groups, groupId)
    case None => false
    case Some(g) => exists i :: 0 <= i < |groups[g].teams| && Text.SameIgnoringCase(groups[g].teams[i].name, name)
  }

  // ---------------------------------------------------------------------------
  // Adding

  /** `{ ...group, teams: [...group.teams, newTeam] }` for the matching group. */
  function AddToGroup(groups: seq<Group>, groupId: string, team: Team): (r: seq<Group>)
    ensures |r| == |groups|
  {
    seq(|groups|, g requires 0 <= g < |groups| =>
      if groups[g].id == groupId then groups[g].(teams := groups[g].teams + [team]) else groups[g])
  }

  /** The team goes to the end of every group with that id, after its
      existing teams in their order; every other group is untouched. */
  lemma AddToGroupEffect(groups: seq<Group>, groupId: string, team: Team, g: nat)
    requires g < |groups|
    ensures AddToGroup(groups, groupId, team)[g].id == groups[g].id
    ensures AddToGroup(groups, groupId, team)[g].name == groups[g].name
    ensures groups[g].id != groupId ==> AddToGroup(groups, groupId, team)[g] == groups[g]
    ensures groups[g].id == groupId ==>
              |AddToGroup(groups, groupId, team)[g].teams| == |groups[g].teams| + 1
              && AddToGroup(groups, groupId, team)[g].teams[..|groups[g].teams|] == groups[g].teams
              && AddToGroup(groups, groupId, team)[g].teams[|groups[g].teams|] == team
  {
    if groups[g].id == groupId {
      assert AddToGroup(groups, groupId, team)[g].teams == groups[g].teams + [team];
    }
  }

  /** The tournament gains one team per group carrying the id: exactly one
      when the id names exactly one group. */
  lemma {:induction false} AddToGroupCount(groups: seq<Group>, groupId: string, team: Team)
    ensures TotalTeams(AddToGroup(groups, groupId, team)) == TotalTeams(groups) + GroupsWithId(groups, groupId)
  {
    if groups != [] {
      assert AddToGroup(groups, groupId, team)[1..] == AddToGroup(groups[1..], groupId, team);
      AddToGroupCount(groups[1..], groupId, team);
    }
  }

  /** With distinct ids and the group present, exactly one group carries it. */
  lemma {:induction false} PresentDistinctIdCountsOnce(groups: seq<Group>, g: nat)
    requires DistinctIds(groups) && g < |groups|
    ensures GroupsWithId(groups, groups[g].id) == 1
  {
    if g == 0 {
      AbsentIdCountsZero(groups[1..], groups[0].id);
    } else {
      PresentDistinctIdCountsOnce(groups[1..], g - 1);
    }
  }

  lemma {:induction false} AbsentIdCountsZero(groups: seq<Group>, id: string)
    requires forall g :: 0 <= g < |groups| ==> groups[g].id != id
    ensures GroupsWithId(groups, id) == 0
  {
    if groups != [] {
      AbsentIdCountsZero(groups[1..], id);
    }
  }

  // ---------------------------------------------------------------------------
  // Removing

  /** Teams other than the one with the given id. */
  function NotId(id: string): Team -> bool {
    (t: Team) => t.id != id
  }

  /** `teams.filter(team => team.id !== teamId)`: every team with the id is
      dropped and every other team is kept as often as it occurs. */
  function Without(teams: seq<Team>, teamId: string): (r: seq<Team>)
    ensures forall t :: multiset(r)[t] == if t.id == teamId then 0 else multiset(teams)[t]
  {
    Seqs.FilterCounts(teams, NotId(teamId));
    Seqs.Filter(teams, NotId(teamId))
  }

  /** The kept teams stay in their order: removing from a list split in two
      is removing from each part, the parts kept in the same order. */
  lemma WithoutKeepsOrder(front: seq<Team>, back: seq<Team>, teamId: string)
    ensures Without(front + back, teamId) == Without(front, teamId) + Without(back, teamId)
  {
    Seqs.FilterConcat(front, back, NotId(teamId));
  }

  /** `group.teams.filter(team => team.id !== teamId)` for the matching group. */
  function RemoveFromGroup(groups: seq<Group>, groupId: string, teamId: string): (r: seq<Group>)
    ensures |r| == |groups|
  {
    seq(|groups|, g requires 0 <= g < |groups| =>
      if groups[g].id == groupId then groups[g].(teams := Without(groups[g].teams, teamId))
      else groups[g])
  }

  /** In a group with the id no team with teamId is left, every other team
      stays; groups with another id are untouched. */
  lemma RemoveFromGroupEffect(groups: seq<Group>, groupId: string, teamId: string, g: nat)
    requires g < |groups|
    ensures RemoveFromGroup(groups, groupId, teamId)[g].id == groups[g].id
    ensures RemoveFromGroup(groups, groupId, teamId)[g].name == groups[g].name
    ensures groups[g].id != groupId ==> RemoveFromGroup(groups, groupId, teamId)[g] == groups[g]
    ensures groups[g].id == groupId ==>
              (forall t :: t in RemoveFromGroup(groups, groupId, teamId)[g].teams ==> t.id != teamId)
              && (forall t :: t in groups[g].teams && t.id != teamId ==> t in RemoveFromGroup(groups, groupId, teamId)[g].teams)
  {
    if groups[g].id == groupId {
      var kept := RemoveFromGroup(groups, groupId, teamId)[g].teams;
      assert kept == Seqs.Filter(groups[g].teams, NotId(teamId));
      forall t | t in kept
        ensures t.id != teamId
      {
        var i :| 0 <= i < |kept| && kept[i] == t;
      }
      forall t | t in groups[g].teams && t.id != teamId
        ensures t in kept
      {
        var i :| 0 <= i < |groups[g].teams| && groups[g].teams[i] == t;
      }
    }
  }

  /** Removing the team that was just added gives back the groups, when no
      team of the target group already had the new team's id. */
  lemma RemoveUndoesAdd(groups: seq<Group>, groupId: string, team: Team)
    requires forall g, i :: 0 <= g < |groups| && groups[g].id == groupId && 0 <= i < |groups[g].teams|
               ==> groups[g].teams[i].id != team.id
    ensures RemoveFromGroup(AddToGroup(groups, groupId, team), groupId, team.id) == groups
  {
    var r := RemoveFromGroup(AddToGroup(groups, groupId, team), groupId, team.id);
    forall g | 0 <= g < |groups|
      ensures r[g] == groups[g]
    {
      if groups[g].id == groupId {
        var ts := groups[g].teams;
        Seqs.FilterConcat(ts, [team], NotId(team.id));
        Seqs.FilterKeepsAll(ts, NotId(team.id));
        assert Seqs.Filter([team], NotId(team.id)) == [];
      }
    }
  }

  // ---------------------------------------------------------------------------
  // Renaming

  /** `{ ...team, name: newName }` for the team with the id, in the matching group. */
  function RenameInGroup(groups: seq<Group>, groupId: string, teamId: string, newName: string): (r: seq<Group>)
    ensures |r| == |groups|
  {
    seq(|groups|, g requires 0 <= g < |groups| =>
      if groups[g].id == groupId
      then groups[g].(teams := seq(|groups[g].teams|, i requires 0 <= i < |groups[g].teams| =>
             if groups[g].teams[i].id == teamId then groups[g].teams[i].(name := newName) else groups[g].teams[i]))
      else groups[g])
  }

  /** Only names change, and a name changes exactly for the teams with the id
      in a group with the group id; groups keep their size and order. */
  lemma RenameEffect(groups: seq<Group>, groupId: string, teamId: string, newName: string, g: nat, i: nat)
    requires g < |groups| && i < |groups[g].teams|
    ensures |RenameInGroup(groups, groupId, teamId, newName)[g].teams| == |groups[g].teams|
    ensures RenameInGroup(groups, groupId, teamId, newName)[g].id == groups[g].id
    ensures RenameInGroup(groups, groupId, teamId, newName)[g].name == groups[g].name
    ensures RenameInGroup(groups, groupId, teamId, newName)[g].teams[i]
            == groups[g].teams[i].(name := RenameInGroup(groups, groupId, teamId, newName)[g].teams[i].name)
    ensures RenameInGroup(groups, groupId, teamId, newName)[g].teams[i].name == newName
            || RenameInGroup(groups, groupId, teamId, newName)[g].teams[i] == groups[g].teams[i]
    ensures groups[g].id == groupId && groups[g].teams[i].id == teamId ==>
              RenameInGroup(groups, groupId, teamId, newName)[g].teams[i].name == newName
    ensures !(groups[g].id == groupId && groups[g].teams[i].id == teamId) ==>
              RenameInGroup(groups, groupId, teamId, newName)[g].teams[i] == groups[g].teams[i]
  {
  }

  /** A second rename of the same team overrides the first. */
  lemma RenameTwice(groups: seq<Group>, groupId: string, teamId: string, first: string, second: string)
    ensures RenameInGroup(RenameInGroup(groups, groupId, teamId, first), groupId, teamId, second)
            == RenameInGroup(groups, groupId, teamId, second)
  {
    var a := RenameInGroup(RenameInGroup(groups, groupId, teamId, first), groupId, teamId, second);
    var b := RenameInGroup(groups, groupId, teamId, second);
    forall g | 0 <= g < |groups|
      ensures a[g] == b[g]
    {
      if groups[g].id == groupId {
        assert a[g].teams == b[g].teams;
      }
    }
  }
}
