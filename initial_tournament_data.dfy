/** The constructors of fresh tournament data: an empty team record and the
    initial, empty groups. */
module InitialTournamentData {
  import opened Wrappers
  import opened TournamentTypes

  /** A team that has played nothing: every statistic zero. */
  predicate Unplayed(t: Team) {
    t.wins == 0 && t.draws == 0 && t.losses == 0 && t.goalsFor == 0
    && t.goalsAgainst == 0 && t.points == 0 && t.goalDifference == 0
  }

  /** `createTeam(id, name)`: the given id and name, all seven statistics 0,
      and no `played` field. */
  function CreateTeam(id: string, name: string): (t: Team)
    ensures t.id == id && t.name == name && t.played == Missing
    ensures Unplayed(t) && StatsConsistent(t)
  {
    Team(id, name, 0, 0, 0, 0, 0, 0, 0, Missing)
  }

  /** The fixed list of group names; it has four entries. */
  const GroupNames: seq<string> := ["Group A", "Group B", "Group C", "Group D"]

  /** Id of the i-th group: "group-" followed by the character with code 97 + i. */
  function GroupId(i: nat): (id: string)
    requires i < 0xD800 - 97
    ensures |id| == 7 && id[..6] == "group-" && id[6] as int == 97 + i
  {
    "group-" + [(97 + i) as char]
  }

  /** `groupNames[i]`, undefined past the end of the list. */
  function GroupName(i: nat): Option<string> {
    if i < |GroupNames| then Some(GroupNames[i]) else None
  }

  /** What `createInitialGroups(k)` returns. */
  function InitialGroupsOf(k: nat): (gs: seq<Group>)
    requires k < 0xD800 - 97
  {
    seq(k, i requires 0 <= i < k => Group(GroupId(i), GroupName(i), []))
  }

  /** `createInitialGroups(numberOfGroups)`: pushes one empty group per index. */
  method CreateInitialGroups(numberOfGroups: int) returns (groups: seq<Group>)
    requires numberOfGroups < 0xD800 - 97
    ensures |groups| == if numberOfGroups < 0 then 0 else numberOfGroups
    ensures forall i :: 0 <= i < |groups| ==> groups[i].teams == [] && groups[i].id == GroupId(i)
    ensures groups == InitialGroupsOf(|groups|)
  {
    groups := [];
    var i := 0;
    while i < numberOfGroups
      invariant 0 <= i && (numberOfGroups < 0 ==> i == 0) && (0 <= numberOfGroups ==> i <= numberOfGroups)
      invariant groups == InitialGroupsOf(i)
    {
      groups := groups + [Group(GroupId(i), GroupName(i), [])];
      i := i + 1;
    }
  }

  /** Different indices give different group ids. */
  lemma GroupIdsDistinct(i: nat, j: nat)
    requires i < 0xD800 - 97 && j < 0xD800 - 97 && i != j
    ensures GroupId(i) != GroupId(j)
  {
    assert GroupId(i)[6] != GroupId(j)[6];
  }

  /** Every group made has a distinct id and no teams; the first four are named
      Group A to Group D and the fifth and sixth have no name. */
  lemma InitialGroupsShape(k: nat)
    requires k < 0xD800 - 97
    ensures forall i, j :: 0 <= i < j < k ==> InitialGroupsOf(k)[i].id != InitialGroupsOf(k)[j].id
    ensures forall i :: 0 <= i < k ==> InitialGroupsOf(k)[i].teams == []
    ensures forall i :: 0 <= i < k && i < 4 ==> InitialGroupsOf(k)[i].name == Some(GroupNames[i])
    ensures forall i :: 4 <= i < k ==> InitialGroupsOf(k)[i].name == None
  {
    forall i, j | 0 <= i < j < k
      ensures InitialGroupsOf(k)[i].id != InitialGroupsOf(k)[j].id
    {
      GroupIdsDistinct(i, j);
    }
  }

  /** The default `initialGroups` list. */
  const InitialGroups: seq<Group> := [
    Group("group-a", Some("Group A"), []),
    Group("group-b", Some("Group B"), []),
    Group("group-c", Some("Group C"), []),
    Group("group-d", Some("Group D"), [])
  ]

  /** `initialGroups` is what `createInitialGroups(4)` builds. */
  lemma InitialGroupsAreFourCreated()
    ensures InitialGroups == InitialGroupsOf(4)
  {
    assert GroupId(0) == "group-a" && GroupId(1) == "group-b";
    assert GroupId(2) == "group-c" && GroupId(3) == "group-d";
  }
}
