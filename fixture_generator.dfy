/** The fixture generator component: a double round robin per group, the
    number of matchdays to offer, and the fixtures of one matchday. */
module FixtureGenerator {
  import opened Wrappers
  import TournamentTypes
  import RoundRobin
  import Seqs
  import Arith

  /** The generator's own fixture record, by team name (it has no group id). */
  datatype Fixture = Fixture(homeTeam: string, awayTeam: string, matchday: int, round: int)

  /** A positional pairing with positions replaced by names. */
  function Named(teams: seq<string>, p: RoundRobin.Pairing): Fixture
    requires p.home < |teams| && p.away < |teams|
  {
    Fixture(teams[p.home], teams[p.away], p.matchday, p.round)
  }

  /** What `generateDoubleRoundRobin(teams)` returns. */
  function DoubleRoundRobin(teams: seq<string>): (r: seq<Fixture>)
    ensures |r| == |RoundRobin.Schedule(|teams|)|
  {
    var s := RoundRobin.Schedule(|teams|);
    seq(|s|, k requires 0 <= k < |s| =>
      RoundRobin.EntryWellFormed(|teams|, k); Named(teams, s[k]))
  }

  /** The fixture the generator pushes for day i, slot j of a round: the
      entry of the specification at that slot's position. */
  lemma PushedFixture(teams: seq<string>, round: nat, i: nat, j: nat, home: int, away: int)
    requires 2 <= |teams| && 1 <= round <= 2 && i < |teams| - 1 && j < |teams| / 2
    requires home == if round == 1 then RoundRobin.Home(|teams|, i, j) else RoundRobin.Away(|teams|, i, j)
    requires away == if round == 1 then RoundRobin.Away(|teams|, i, j) else RoundRobin.Home(|teams|, i, j)
    ensures 0 <= home < |teams| && 0 <= away < |teams|
    ensures RoundRobin.Position(|teams|, round, i, j) < |DoubleRoundRobin(teams)|
    ensures DoubleRoundRobin(teams)[RoundRobin.Position(|teams|, round, i, j)]
            == Fixture(teams[home], teams[away], i + 1 + (round - 1) * (|teams| - 1), round)
  {
    var n := |teams|;
    RoundRobin.PositionIsSlot(n, round, i, j);
    RoundRobin.SlotValid(n, i, j);
    assert (round - 1) * (n - 1) == if round == 1 then 0 else n - 1;
  }

  /** One push of the inner loop: a prefix of the output, as long as the
      slot's position, stays a prefix once the slot's fixture is appended. */
  lemma PushStep(teams: seq<string>, fixtures: seq<Fixture>, round: nat, base: nat, i: nat, j: nat,
                 matchday: int, home: int, away: int)
    requires 2 <= |teams| && 1 <= round <= 2 && i < |teams| - 1 && j < |teams| / 2
    requires base == (if round == 1 then 0 else |teams| - 1) && matchday == i + 1
    requires home == if round == 1 then RoundRobin.Home(|teams|, i, j) else RoundRobin.Away(|teams|, i, j)
    requires away == if round == 1 then RoundRobin.Away(|teams|, i, j) else RoundRobin.Home(|teams|, i, j)
    requires fixtures <= DoubleRoundRobin(teams) && |fixtures| == (base + i) * (|teams| / 2) + j
    ensures 0 <= home < |teams| && 0 <= away < |teams|
    ensures fixtures + [Fixture(teams[home], teams[away], matchday + (round - 1) * (|teams| - 1), round)]
            <= DoubleRoundRobin(teams)
  {
    PushedFixture(teams, round, i, j, home, away);
    assert |fixtures| == RoundRobin.Position(|teams|, round, i, j);
    Seqs.PrefixExtend(fixtures, DoubleRoundRobin(teams),
                      Fixture(teams[home], teams[away], matchday + (round - 1) * (|teams| - 1), round));
  }

  /** `generateDoubleRoundRobin`: the circle method, pushing fixtures round by
      round, day by day, slot by slot. */
  method GenerateDoubleRoundRobin(teams: seq<string>) returns (fixtures: seq<Fixture>)
    ensures fixtures == DoubleRoundRobin(teams)
  {
    fixtures := [];
    var n := |teams|;
    if n < 2 {
      return;
    }
    ghost var all := DoubleRoundRobin(teams);
    ghost var h := n / 2;
    for round := 1 to 3
      invariant |fixtures| == (round - 1) * ((n - 1) * h)
      invariant fixtures <= all
    {
      ghost var base := if round == 1 then 0 else n - 1;
      var matchday := 1;
      for i := 0 to n - 1
        invariant matchday == i + 1
        invariant |fixtures| == (base + i) * h
        invariant fixtures <= all
      {
        for j := 0 to n / 2
          invariant |fixtures| == (base + i) * h + j
          invariant fixtures <= all
        {
          var home := (i + j) % (n - 1);
          var away := (n - 1 - j + i) % (n - 1);
          if j == 0 {
            away := n - 1;
          }
          if round == 2 {
            home, away := away, home;
          }
          PushStep(teams, fixtures, round, base, i, j, matchday, home, away);
          fixtures := fixtures + [Fixture(teams[home], teams[away], matchday + (round - 1) * (n - 1), round)];
        }
        Arith.Distribute(base + i, 1, h);
        matchday := matchday + 1;
      }
      Arith.Distribute(n - 1, n - 1, h);
    }
    RoundRobin.ScheduleSize(n);
  }

  /** No two positions of the roster hold the same name. */
  predicate DistinctNames(teams: seq<string>) {
    forall a, b :: 0 <= a < b < |teams| ==> teams[a] != teams[b]
  }

  /** The fixture is between teams a and b, in either order. */
  predicate Between(f: Fixture, a: string, b: string) {
    (f.homeTeam == a && f.awayTeam == b) || (f.homeTeam == b && f.awayTeam == a)
  }

  /** Sizes: nothing for fewer than two teams, n (n - 1) for an even roster. */
  lemma GeneratedSize(teams: seq<string>)
    ensures |teams| < 2 ==> DoubleRoundRobin(teams) == []
    ensures 2 <= |teams| ==> |DoubleRoundRobin(teams)| == 2 * (|teams| - 1) * (|teams| / 2)
    ensures 2 <= |teams| && |teams| % 2 == 0 ==> |DoubleRoundRobin(teams)| == |teams| * (|teams| - 1)
  {
    RoundRobin.ScheduleSize(|teams|);
  }

  /** Every generated fixture is between two roster members at distinct
      positions (so between two different teams when names are distinct), on
      a matchday of its own round's range. */
  lemma GeneratedFixtureWellFormed(teams: seq<string>, k: nat)
    requires k < |DoubleRoundRobin(teams)|
    ensures DoubleRoundRobin(teams)[k].homeTeam in teams && DoubleRoundRobin(teams)[k].awayTeam in teams
    ensures DistinctNames(teams) ==> DoubleRoundRobin(teams)[k].homeTeam != DoubleRoundRobin(teams)[k].awayTeam
    ensures DoubleRoundRobin(teams)[k].round == 1 ==> 1 <= DoubleRoundRobin(teams)[k].matchday <= |teams| - 1
    ensures DoubleRoundRobin(teams)[k].round == 2 ==> |teams| <= DoubleRoundRobin(teams)[k].matchday <= 2 * (|teams| - 1)
    ensures DoubleRoundRobin(teams)[k].round == 1 || DoubleRoundRobin(teams)[k].round == 2
  {
    RoundRobin.EntryWellFormed(|teams|, k);
  }

  /** Distinct names, even roster: every two different teams meet in exactly
      one fixture of round 1, and again, home and away reversed, in exactly one
      fixture of round 2. */
  lemma GeneratedEvenDoubleRoundRobin(teams: seq<string>, x: nat, y: nat) returns (k: nat)
    requires DistinctNames(teams) && 2 <= |teams| && |teams| % 2 == 0
    requires x < |teams| && y < |teams| && x != y
    ensures k < |DoubleRoundRobin(teams)| / 2 && Between(DoubleRoundRobin(teams)[k], teams[x], teams[y])
    ensures DoubleRoundRobin(teams)[k + |DoubleRoundRobin(teams)| / 2].homeTeam == DoubleRoundRobin(teams)[k].awayTeam
    ensures DoubleRoundRobin(teams)[k + |DoubleRoundRobin(teams)| / 2].awayTeam == DoubleRoundRobin(teams)[k].homeTeam
    ensures forall k' :: 0 <= k' < |DoubleRoundRobin(teams)| && Between(DoubleRoundRobin(teams)[k'], teams[x], teams[y]) ==>
              k' == k || k' == k + |DoubleRoundRobin(teams)| / 2
  {
    var n := |teams|;
    k := RoundRobin.EvenDoubleRoundRobin(n, x, y);
    forall k' | 0 <= k' < |DoubleRoundRobin(teams)| && Between(DoubleRoundRobin(teams)[k'], teams[x], teams[y])
      ensures k' == k || k' == k + |DoubleRoundRobin(teams)| / 2
    {
      RoundRobin.EntryWellFormed(n, k');
      assert RoundRobin.Meets(RoundRobin.Schedule(n)[k'], x, y);
    }
  }

  /** Distinct names: no team plays twice on one matchday. */
  lemma GeneratedNoDoubleBooking(teams: seq<string>, k1: nat, k2: nat)
    requires DistinctNames(teams)
    requires k1 < |DoubleRoundRobin(teams)| && k2 < |DoubleRoundRobin(teams)| && k1 != k2
    requires DoubleRoundRobin(teams)[k1].matchday == DoubleRoundRobin(teams)[k2].matchday
    ensures DoubleRoundRobin(teams)[k1].homeTeam != DoubleRoundRobin(teams)[k2].homeTeam
    ensures DoubleRoundRobin(teams)[k1].homeTeam != DoubleRoundRobin(teams)[k2].awayTeam
    ensures DoubleRoundRobin(teams)[k1].awayTeam != DoubleRoundRobin(teams)[k2].homeTeam
    ensures DoubleRoundRobin(teams)[k1].awayTeam != DoubleRoundRobin(teams)[k2].awayTeam
  {
    var n := |teams|;
    RoundRobin.EntryWellFormed(n, k1);
    RoundRobin.EntryWellFormed(n, k2);
    RoundRobin.NoDoubleBooking(n, k1, k2);
  }

  /** A group of three: the first two teams are never scheduled against each
      other, since no bye is added for an odd roster. */
  lemma GeneratedThreeTeamsMissFirstPair(teams: seq<string>)
    requires |teams| == 3 && DistinctNames(teams)
    ensures |DoubleRoundRobin(teams)| == 4
    ensures forall k :: 0 <= k < 4 ==> !Between(DoubleRoundRobin(teams)[k], teams[0], teams[1])
  {
    RoundRobin.ThreeTeamsNeverPairFirstTwo();
    forall k | 0 <= k < 4
      ensures !Between(DoubleRoundRobin(teams)[k], teams[0], teams[1])
    {
      RoundRobin.EntryWellFormed(3, k);
    }
  }

  // ---------------------------------------------------------------------------
  // Per-group generation

  /** `group.teams.map(team => team.name)`. */
  function TeamNames(g: TournamentTypes.Group): (names: seq<string>)
    ensures |names| == |g.teams| && forall i :: 0 <= i < |g.teams| ==> names[i] == g.teams[i].name
  {
    seq(|g.teams|, i requires 0 <= i < |g.teams| => g.teams[i].name)
  }

  /** What `allFixtures` holds after the groups are visited in order: a later
      group with the same id overwrites an earlier one. */
  function FixturesByGroup(groups: seq<TournamentTypes.Group>): map<string, seq<Fixture>>
  {
    if groups == [] then map[]
    else
      var g := groups[|groups| - 1];
      var acc := FixturesByGroup(groups[..|groups| - 1]);
      if |g.teams| >= 2 then acc[g.id := DoubleRoundRobin(TeamNames(g))] else acc
  }

  /** `allFixtures`: the `forEach` filling one entry per group of at least two teams. */
  method AllFixtures(groups: seq<TournamentTypes.Group>) returns (byGroup: map<string, seq<Fixture>>)
    ensures byGroup == FixturesByGroup(groups)
  {
    byGroup := map[];
    for i := 0 to |groups|
      invariant byGroup == FixturesByGroup(groups[..i])
    {
      var group := groups[i];
      if |group.teams| >= 2 {
        var teamNames := TeamNames(group);
        var generated := GenerateDoubleRoundRobin(teamNames);
        byGroup := byGroup[group.id := generated];
      }
      assert groups[..i + 1][..i] == groups[..i];
    }
    assert groups[..|groups|] == groups;
  }

  /** A group id has an entry exactly when some group with that id has at
      least two teams; the entry is the schedule of the last such group. */
  lemma {:induction false} FixturesByGroupEntries(groups: seq<TournamentTypes.Group>, id: string)
    ensures id in FixturesByGroup(groups) <==>
              exists i :: 0 <= i < |groups| && groups[i].id == id && |groups[i].teams| >= 2
    ensures forall i :: 0 <= i < |groups| && groups[i].id == id && |groups[i].teams| >= 2
                        && (forall l :: i < l < |groups| && groups[l].id == id ==> |groups[l].teams| < 2)
                        ==> FixturesByGroup(groups)[id] == DoubleRoundRobin(TeamNames(groups[i]))
  {
    if groups != [] {
      var init := groups[..|groups| - 1];
      FixturesByGroupEntries(init, id);
      assert forall i :: 0 <= i < |init| ==> init[i] == groups[i];
    }
  }

  /** Every entry is the schedule of some group with at least two teams. */
  lemma {:induction false} FixturesByGroupSource(groups: seq<TournamentTypes.Group>, id: string)
    requires id in FixturesByGroup(groups)
    ensures exists i :: 0 <= i < |groups| && |groups[i].teams| >= 2
                        && FixturesByGroup(groups)[id] == DoubleRoundRobin(TeamNames(groups[i]))
  {
    var init := groups[..|groups| - 1];
    var g := groups[|groups| - 1];
    if !(|g.teams| >= 2 && g.id == id) {
      FixturesByGroupSource(init, id);
      var i :| 0 <= i < |init| && |init[i].teams| >= 2 && FixturesByGroup(init)[id] == DoubleRoundRobin(TeamNames(init[i]));
      assert init[i] == groups[i];
    }
  }

  // ---------------------------------------------------------------------------
  // Matchday selector

  /** `Math.max(...groups.map(g => g.teams.length))`; None stands for the
      -Infinity of an empty list. */
  function LargestGroup(groups: seq<TournamentTypes.Group>): (r: Option<nat>)
    ensures r == None <==> groups == []
    ensures r.Some? ==> (exists i :: 0 <= i < |groups| && |groups[i].teams| == r.value)
    ensures r.Some? ==> forall i :: 0 <= i < |groups| ==> |groups[i].teams| <= r.value
  {
    if groups == [] then None
    else
      var rest := LargestGroup(groups[1..]);
      var here := |groups[0].teams|;
      if rest.Some? && rest.value > here then Some(rest.value) else Some(here)
  }

  /** `maxMatchdays`: 2 (t - 1) for the largest group size t when t >= 2, else 0. */
  function MaxMatchdays(groups: seq<TournamentTypes.Group>): nat {
    match LargestGroup(groups)
    case Some(t) => if t >= 2 then (t - 1) * 2 else 0
    case None => 0
  }

  /** Every generated fixture falls on a matchday the selector offers. */
  lemma GeneratedMatchdaysOffered(groups: seq<TournamentTypes.Group>, id: string, k: nat)
    requires id in FixturesByGroup(groups) && k < |FixturesByGroup(groups)[id]|
    ensures 1 <= FixturesByGroup(groups)[id][k].matchday <= MaxMatchdays(groups)
  {
    FixturesByGroupSource(groups, id);
    var i :| 0 <= i < |groups| && |groups[i].teams| >= 2
             && FixturesByGroup(groups)[id] == DoubleRoundRobin(TeamNames(groups[i]));
    GeneratedFixtureWellFormed(TeamNames(groups[i]), k);
  }

  /** Generated fixtures on the given matchday. */
  function OnMatchday(matchday: int): Fixture -> bool {
    (f: Fixture) => f.matchday == matchday
  }

  /** `getFixturesForMatchday(groupId, matchday)`: that group's fixtures on
      that matchday in generation order; none for a group without an entry. */
  function FixturesForMatchday(byGroup: map<string, seq<Fixture>>, groupId: string, matchday: int): (r: seq<Fixture>)
    ensures groupId !in byGroup ==> r == []
    ensures groupId in byGroup ==> forall f :: f in r <==> f in byGroup[groupId] && f.matchday == matchday
    ensures groupId in byGroup ==>
              forall f :: multiset(r)[f] == if f.matchday == matchday then multiset(byGroup[groupId])[f] else 0
  {
    if groupId in byGroup then
      Seqs.FilterCounts(byGroup[groupId], OnMatchday(matchday));
      Seqs.Filter(byGroup[groupId], OnMatchday(matchday))
    else []
  }
}
