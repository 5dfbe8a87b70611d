/** The bracket view: the knockout matches split by round, the score inputs
    kept per match id, and when a match offers score entry. */
module KnockoutBracket {
  import opened Wrappers
  import opened TournamentTypes
  import Seqs
  import Knockout

  /** Matches of the given round. */
  function InRound(round: KnockoutRound): BracketEntry -> bool {
    (m: BracketEntry) => m.round == round
  }

  /** `matches.filter(m => m.round === 'quarter')`. */
  function Quarters(ms: seq<BracketEntry>): seq<BracketEntry> {
    Seqs.Filter(ms, InRound(Quarter))
  }

  /** `matches.filter(m => m.round === 'semi')`. */
  function Semis(ms: seq<BracketEntry>): seq<BracketEntry> {
    Seqs.Filter(ms, InRound(Semi))
  }

  /** `matches.find(m => m.round === 'final')`. */
  function FinalMatch(ms: seq<BracketEntry>): (r: Option<BracketEntry>)
    ensures r.Some? ==> r.value in ms && r.value.round == Final
    ensures r.None? <==> forall i :: 0 <= i < |ms| ==> ms[i].round != Final
    ensures r.Some? ==> exists i :: 0 <= i < |ms| && ms[i] == r.value && forall k :: 0 <= k < i ==> ms[k].round != Final
  {
    if ms == [] then None
    else if ms[0].round == Final then Some(ms[0])
    else
      var r := FinalMatch(ms[1..]);
      assert r.Some? ==> exists i :: 0 <= i < |ms| - 1 && ms[1..][i] == r.value && forall k :: 0 <= k < i ==> ms[1..][k].round != Final;
      r
  }

  /** Each section lists exactly the matches of its round, in order: for a
      freshly drawn bracket, the four quarter-finals, the two semi-finals and
      the final. */
  lemma DrawnBracketSections(groups: seq<Group>)
    requires Knockout.GenerateKnockoutBracket(groups, 4).Some?
    ensures var b := Knockout.GenerateKnockoutBracket(groups, 4).value;
            && Quarters(b) == b[..4] && Semis(b) == b[4..6] && FinalMatch(b) == Some(b[6])
  {
    SectionsOfLayout(Knockout.GenerateKnockoutBracket(groups, 4).value);
  }

  /** Sections of any seven matches laid out as four quarter-finals, two
      semi-finals and a final. */
  lemma SectionsOfLayout(b: seq<BracketEntry>)
    requires |b| == 7
    requires forall i :: 0 <= i < 4 ==> b[i].round == Quarter
    requires b[4].round == Semi && b[5].round == Semi && b[6].round == Final
    ensures Quarters(b) == b[..4] && Semis(b) == b[4..6] && FinalMatch(b) == Some(b[6])
  {
    Seqs.FilterWindow(b, InRound(Quarter), 0, 4);
    Seqs.FilterWindow(b, InRound(Semi), 4, 6);
    var r := FinalMatch(b);
    var i :| 0 <= i < |b| && b[i] == r.value && forall k :: 0 <= k < i ==> b[k].round != Final;
    assert i == 6;
  }

  /** Score entry is shown for a match that has no home score yet and whose
      two team names are both filled in. */
  predicate EntryOffered(m: BracketEntry) {
    m.homeScore.None? && m.homeTeam != "" && m.awayTeam != ""
  }

  /** A freshly drawn bracket offers entry for the quarter-finals with named
      teams and for nothing else. */
  lemma DrawnBracketOffers(groups: seq<Group>, i: nat)
    requires Knockout.GenerateKnockoutBracket(groups, 4).Some? && i < 7
    ensures var b := Knockout.GenerateKnockoutBracket(groups, 4).value;
            EntryOffered(b[i]) <==> i < 4 && b[i].homeTeam != "" && b[i].awayTeam != ""
  {
  }

  /** Once a result is recorded, its match no longer offers entry. */
  lemma RecordedNotOffered(es: seq<BracketEntry>, matchId: string, homeScore: int, awayScore: int,
                           parseInt: string -> Option<int>, i: nat)
    requires i < |es| && es[i].id == matchId
    ensures !EntryOffered(Knockout.ScoreBracket(es, matchId, homeScore, awayScore, parseInt)[i])
  {
    Knockout.ScoreBracketEffect(es, matchId, homeScore, awayScore, parseInt, i);
  }

  // ---------------------------------------------------------------------------
  // The score inputs

  /** The two inputs of one match; a field is None until it is typed into
      (`{ ...prev[id], home: value }` leaves `away` undefined). */
  datatype ScoreInput = ScoreInput(home: Option<string>, away: Option<string>)

  /** What the two inputs of a match display: `scores[id]?.home || ''`. */
  function Shown(scores: map<string, ScoreInput>, matchId: string): (r: (string, string))
    ensures matchId !in scores ==> r == ("", "")
  {
    if matchId in scores then (scores[matchId].home.GetOr(""), scores[matchId].away.GetOr("")) else ("", "")
  }

  /** The scores to submit for a match: none when the match has no inputs
      or either input does not parse as an integer. */
  function ParsedScores(scores: map<string, ScoreInput>, matchId: string, parseInt: string -> Option<int>)
    : (r: Option<(int, int)>)
    ensures r.Some? ==> matchId in scores && scores[matchId].home.Some? && scores[matchId].away.Some?
    ensures r.Some? ==> parseInt(scores[matchId].home.value) == Some(r.value.0)
                        && parseInt(scores[matchId].away.value) == Some(r.value.1)
    ensures r.None? ==> matchId !in scores || scores[matchId].home.None? || scores[matchId].away.None?
                        || parseInt(scores[matchId].home.value).None? || parseInt(scores[matchId].away.value).None?
  {
    if matchId !in scores then None
    else
      var input := scores[matchId];
      if input.home.None? || input.away.None? then None
      else
        match (parseInt(input.home.value), parseInt(input.away.value))
        case (Some(h), Some(a)) => Some((h, a))
        case _ => None
  }

  /** After a submission clears the inputs, submitting again does nothing
      until something is typed, since the empty string does not parse. */
  lemma ClearedInputsDoNotSubmit(scores: map<string, ScoreInput>, matchId: string, parseInt: string -> Option<int>)
    requires parseInt("") == None
    ensures ParsedScores(scores[matchId := ScoreInput(Some(""), Some(""))], matchId, parseInt).None?
    ensures Shown(scores[matchId := ScoreInput(Some(""), Some(""))], matchId) == ("", "")
  {
  }

  /** The score inputs of the bracket, per match id. */
  class ScoreForm {
    var scores: map<string, ScoreInput>

    constructor ()
      ensures scores == map[]
    {
      scores := map[];
    }

    /** Typing into the home input of a match. */
    method SetHome(matchId: string, value: string)
      modifies this
      ensures scores == old(scores)[matchId := ScoreInput(Some(value),
                                       if matchId in old(scores) then old(scores)[matchId].away else None)]
    {
      var away := if matchId in scores then scores[matchId].away else None;
      scores := scores[matchId := ScoreInput(Some(value), away)];
    }

    /** Typing into the away input of a match. */
    method SetAway(matchId: string, value: string)
      modifies this
      ensures scores == old(scores)[matchId := ScoreInput(
                                       if matchId in old(scores) then old(scores)[matchId].home else None, Some(value))]
    {
      var home := if matchId in scores then scores[matchId].home else None;
      scores := scores[matchId := ScoreInput(home, Some(value))];
    }

    /** `handleSubmitScore`: when both inputs of the match parse, the scores
      are handed on once and only that match's inputs are emptied; otherwise
      nothing happens. */
    method HandleSubmitScore(matchId: string, parseInt: string -> Option<int>) returns (call: Option<(int, int)>)
      modifies this
      ensures call == ParsedScores(old(scores), matchId, parseInt)
      ensures call.None? ==> scores == old(scores)
      ensures call.Some? ==> scores == old(scores)[matchId := ScoreInput(Some(""), Some(""))]
    {
      if matchId !in scores {
        return None;
      }
      var score := scores[matchId];
      var homeScore := if score.home.Some? then parseInt(score.home.value) else None;
      var awayScore := if score.away.Some? then parseInt(score.away.value) else None;
      if homeScore.None? || awayScore.None? {
        return None;
      }
      call := Some((homeScore.value, awayScore.value));
      scores := scores[matchId := ScoreInput(Some(""), Some(""))];
    }
  }
}
