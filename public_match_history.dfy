/** The public match history: each group's recorded matches newest first,
    with team names looked up by id and a win, draw or loss badge per side. */
module PublicMatchHistory {
  import opened TournamentTypes
  import Seqs
  import Roster
  import Standings
  import MatchTracker

  datatype ResultBadge = W | D | L

  /** `getResultBadge`: D for equal scores; otherwise W for the side that
      scored more and L for the other. */
  function ResultBadgeFor(homeScore: int, awayScore: int, isHome: bool): (b: ResultBadge)
    ensures b == D <==> homeScore == awayScore
    ensures b == W <==> (isHome && homeScore > awayScore) || (!isHome && awayScore > homeScore)
  {
    if homeScore == awayScore then D
    else if (isHome && homeScore > awayScore) || (!isHome && awayScore > homeScore) then W
    else L
  }

  /** Outside a draw the two sides of a match show opposite badges. */
  lemma BadgesOpposite(homeScore: int, awayScore: int)
    requires homeScore != awayScore
    ensures ResultBadgeFor(homeScore, awayScore, true) != ResultBadgeFor(homeScore, awayScore, false)
    ensures ResultBadgeFor(homeScore, awayScore, true) in {W, L} && ResultBadgeFor(homeScore, awayScore, false) in {W, L}
  {
  }

  /** Each side's badge is the outcome the standings credit to that side. */
  lemma BadgeIsOutcome(homeScore: int, awayScore: int)
    ensures ResultBadgeFor(homeScore, awayScore, true) == W <==> Standings.OutcomeOf(homeScore, awayScore) == Standings.Win
    ensures ResultBadgeFor(homeScore, awayScore, true) == L <==> Standings.OutcomeOf(homeScore, awayScore) == Standings.Loss
    ensures ResultBadgeFor(homeScore, awayScore, false) == W <==> Standings.OutcomeOf(awayScore, homeScore) == Standings.Win
    ensures ResultBadgeFor(homeScore, awayScore, false) == L <==> Standings.OutcomeOf(awayScore, homeScore) == Standings.Loss
  {
  }

  /** No two teams of the tournament share an id. */
  predicate TeamIdsUnique(groups: seq<Group>) {
    forall g, i, h, j ::
      0 <= g < |groups| && 0 <= i < |groups[g].teams| && 0 <= h < |groups| && 0 <= j < |groups[h].teams| && (g != h || i != j) ==>
        groups[g].teams[i].id != groups[h].teams[j].id
  }

  /** `getTeamName`: when ids are unique the name shown for a team's id is
      that team's own name. */
  lemma TeamNameOfMember(groups: seq<Group>, g: nat, i: nat)
    requires TeamIdsUnique(groups) && g < |groups| && i < |groups[g].teams|
    ensures MatchTracker.TeamName(groups, groups[g].teams[i].id) == groups[g].teams[i].name
  {
    var id := groups[g].teams[i].id;
    var found := Roster.FindTeam(groups[g].teams, id);
    assert found.Some?;
    assert found.value == i;
    forall h | 0 <= h < g
      ensures Roster.FindTeam(groups[h].teams, id).None?
    {
      forall j | 0 <= j < |groups[h].teams|
        ensures groups[h].teams[j].id != id
      {
      }
    }
  }

  /** The history lists the group's matches newest first: read from the end
      it is the order in which they were recorded. */
  lemma HistoryReversesRecordOrder(matches: seq<Match>, groupId: string)
    ensures Seqs.Reverse(MatchTracker.RecentFirst(matches, groupId)) == MatchTracker.MatchesForGroup(matches, groupId)
  {
    var s := MatchTracker.MatchesForGroup(matches, groupId);
    var r := Seqs.Reverse(Seqs.Reverse(s));
    assert forall k :: 0 <= k < |s| ==> r[k] == s[k];
  }
}
