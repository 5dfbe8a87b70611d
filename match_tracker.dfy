/** The match tracker: team names by id, a group's recorded matches, how
    many each team has played, the badge that count earns, and the recent
    matches newest first. */
module MatchTracker {
  import opened TournamentTypes
  import Seqs
  import Roster

  /** The name shown for an id no team carries. */
  const UnknownTeam := "Unknown Team"

  /** `getTeamName`: scanning the groups in order, the name of the first
      team with the id in the first group that has one. */
  function TeamName(groups: seq<Group>, teamId: string): (r: string)
    ensures (forall g, i :: 0 <= g < |groups| && 0 <= i < |groups[g].teams| ==> groups[g].teams[i].id != teamId)
            ==> r == UnknownTeam
    ensures forall g :: 0 <= g < |groups| && Roster.FindTeam(groups[g].teams, teamId).Some?
              && (forall h :: 0 <= h < g ==> Roster.FindTeam(groups[h].teams, teamId).None?)
              ==> r == groups[g].teams[Roster.FindTeam(groups[g].teams, teamId).value].name
  {
    if groups == [] then UnknownTeam
    else match Roster.FindTeam(groups[0].teams, teamId)
      case Some(i) => groups[0].teams[i].name
      case None =>
        var r := TeamName(groups[1..], teamId);
        assert forall g :: 1 <= g < |groups| ==> groups[1..][g - 1] == groups[g];
        r
  }

  /** Matches of the given group. */
  function OfGroup(groupId: string): Match -> bool {
    (m: Match) => m.groupId == groupId
  }

  /** Matches of the given group that the team played, home or away. */
  function OfTeamInGroup(teamId: string, groupId: string): Match -> bool {
    (m: Match) => m.groupId == groupId && (m.homeTeam == teamId || m.awayTeam == teamId)
  }

  /** Matches the team played, home or away. */
  function OfTeam(teamId: string): Match -> bool {
    (m: Match) => m.homeTeam == teamId || m.awayTeam == teamId
  }

  /** `getMatchesForGroup`: the group's matches, in the order recorded. */
  function MatchesForGroup(matches: seq<Match>, groupId: string): (r: seq<Match>)
    ensures forall k :: 0 <= k < |r| ==> r[k].groupId == groupId
    ensures forall k :: 0 <= k < |matches| && matches[k].groupId == groupId ==> matches[k] in r
  {
    Seqs.Filter(matches, OfGroup(groupId))
  }

  /** Each match of the group is listed as often as it was recorded. */
  lemma GroupMatchesComplete(matches: seq<Match>, groupId: string, m: Match)
    requires m.groupId == groupId
    ensures multiset(MatchesForGroup(matches, groupId))[m] == multiset(matches)[m]
  {
    Seqs.FilterMultiset(matches, OfGroup(groupId), m);
  }

  /** `getTeamMatchCount`: the number of the group's matches the team played. */
  function TeamMatchCount(matches: seq<Match>, teamId: string, groupId: string): nat {
    |Seqs.Filter(matches, OfTeamInGroup(teamId, groupId))|
  }

  /** A team's count is the number of its matches among the group's, so it
      never exceeds the number of the group's matches. */
  lemma TeamMatchCountBounded(matches: seq<Match>, teamId: string, groupId: string)
    ensures TeamMatchCount(matches, teamId, groupId)
            == |Seqs.Filter(MatchesForGroup(matches, groupId), OfTeam(teamId))|
    ensures TeamMatchCount(matches, teamId, groupId) <= |MatchesForGroup(matches, groupId)|
  {
    Seqs.FilterFilter(matches, OfGroup(groupId), OfTeam(teamId), OfTeamInGroup(teamId, groupId));
  }

  /** Recording one more match of the group adds one to the count of each
      team that played in it and leaves every other count alone. */
  lemma TeamMatchCountAfterRecord(matches: seq<Match>, m: Match, teamId: string, groupId: string)
    ensures TeamMatchCount(matches + [m], teamId, groupId)
            == TeamMatchCount(matches, teamId, groupId)
               + (if m.groupId == groupId && (m.homeTeam == teamId || m.awayTeam == teamId) then 1 else 0)
  {
    Seqs.FilterConcat(matches, [m], OfTeamInGroup(teamId, groupId));
    assert [m][1..] == [];
  }

  datatype Badge = Destructive | Secondary | Default

  /** The badge beside a team's count: destructive for none, secondary for
      one or two, default from three on. */
  function BadgeFor(count: int): (b: Badge)
    ensures b == Destructive <==> count == 0
    ensures b == Secondary <==> count != 0 && count < 3
    ensures b == Default <==> count != 0 && count >= 3
  {
    if count == 0 then Destructive else if count < 3 then Secondary else Default
  }

  /** For a match count, the badge goes destructive, secondary, default as
      the count grows: it never steps back. */
  lemma BadgeMonotone(a: nat, b: nat)
    requires a <= b
    ensures BadgeFor(a) == Secondary ==> BadgeFor(b) != Destructive
    ensures BadgeFor(a) == Default ==> BadgeFor(b) == Default
  {
  }

  /** `getMatchesForGroup(id).slice().reverse()`: the group's matches, newest
      first, on a copy. */
  function RecentFirst(matches: seq<Match>, groupId: string): (r: seq<Match>)
    ensures |r| == |MatchesForGroup(matches, groupId)|
  {
    Seqs.Reverse(MatchesForGroup(matches, groupId))
  }

  /** A match just recorded joins the end of its own group's matches. */
  lemma GroupMatchesAfterRecord(matches: seq<Match>, m: Match)
    ensures MatchesForGroup(matches + [m], m.groupId) == MatchesForGroup(matches, m.groupId) + [m]
  {
    Seqs.FilterConcat(matches, [m], OfGroup(m.groupId));
    assert [m][1..] == [];
  }

  /** The listing holds the group's matches, each as often as recorded, and
      a match just recorded for the group comes first, ahead of the listing
      as it was. */
  lemma RecentFirstAfterRecord(matches: seq<Match>, m: Match)
    ensures RecentFirst(matches + [m], m.groupId) == [m] + RecentFirst(matches, m.groupId)
    ensures multiset(RecentFirst(matches, m.groupId)) == multiset(MatchesForGroup(matches, m.groupId))
  {
    var before := MatchesForGroup(matches, m.groupId);
    GroupMatchesAfterRecord(matches, m);
    Seqs.ReverseAppend(before, m);
    Seqs.ReversePermutes(before);
  }
}
