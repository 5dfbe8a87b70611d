/** The records of the tournament: teams, groups, scheduled fixtures, recorded
    matches and knockout matches. Ids, names and dates are strings; counts,
    goals and scores are unbounded integers. */
module TournamentTypes {
  import opened Wrappers

  /** A team's `played` field as the program may hold it: missing, `null`,
      not-a-number, or a number. */
  datatype PlayedCount = Missing | Null | NaN | Count(n: int)

  /** A team's standing in its group. `played` is missing on teams made by
      `createTeam`, which has no such field; the store's `addTeam` sets it
      to 0. */
  datatype Team = Team(
    id: string,
    name: string,
    wins: int,
    draws: int,
    losses: int,
    goalsFor: int,
    goalsAgainst: int,
    points: int,
    goalDifference: int,
    played: PlayedCount)

  /** A group; `name` is None where the group list had no name to give. */
  datatype Group = Group(id: string, name: Option<string>, teams: seq<Team>)

  /** A stored fixture, by team name. */
  datatype Fixture = Fixture(homeTeam: string, awayTeam: string, matchday: int, round: int, groupId: string)

  /** Fixtures on the given matchday. */
  function OnMatchday(matchday: int): Fixture -> bool {
    (f: Fixture) => f.matchday == matchday
  }

  /** A recorded result; `homeTeam` and `awayTeam` hold team ids. */
  datatype Match = Match(
    id: string,
    homeTeam: string,
    awayTeam: string,
    homeScore: int,
    awayScore: int,
    groupId: string,
    date: string)

  datatype KnockoutRound = Quarter | Semi | Final

  /** Points are three per win and one per draw; goal difference is goals
      scored minus goals conceded. */
  predicate StatsConsistent(t: Team) {
    t.points == 3 * t.wins + t.draws && t.goalDifference == t.goalsFor - t.goalsAgainst
  }

  /** A knockout match. Its team names and scores are updated in place once
      results come in, so it is an object; id, round and number never change. */
  class KnockoutMatch {
    const id: string
    var homeTeam: string
    var awayTeam: string
    var homeScore: Option<int>
    var awayScore: Option<int>
    const round: KnockoutRound
    const matchNumber: int

    constructor (id: string, homeTeam: string, awayTeam: string,
                 homeScore: Option<int>, awayScore: Option<int>,
                 round: KnockoutRound, matchNumber: int)
      ensures this.id == id && this.homeTeam == homeTeam && this.awayTeam == awayTeam
      ensures this.homeScore == homeScore && this.awayScore == awayScore
      ensures this.round == round && this.matchNumber == matchNumber
    {
      this.id := id;
      this.homeTeam := homeTeam;
      this.awayTeam := awayTeam;
      this.homeScore := homeScore;
      this.awayScore := awayScore;
      this.round := round;
      this.matchNumber := matchNumber;
    }
  }

  /** The values a knockout match holds at one moment. */
  datatype BracketEntry = BracketEntry(
    id: string,
    homeTeam: string,
    awayTeam: string,
    homeScore: Option<int>,
    awayScore: Option<int>,
    round: KnockoutRound,
    matchNumber: int)

  function Snapshot(m: KnockoutMatch): BracketEntry
    reads m
  {
    BracketEntry(m.id, m.homeTeam, m.awayTeam, m.homeScore, m.awayScore, m.round, m.matchNumber)
  }

  function Snapshots(ms: seq<KnockoutMatch>): (r: seq<BracketEntry>)
    reads ms
    ensures |r| == |ms| && forall i :: 0 <= i < |ms| ==> r[i] == Snapshot(ms[i])
  {
    seq(|ms|, i reads ms requires 0 <= i < |ms| => Snapshot(ms[i]))
  }
}
