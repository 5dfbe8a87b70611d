/** The knockout stage of the tournament page: drawing the eight group
    qualifiers into quarter-finals, and recording a knockout result, which
    writes the winner into the next round's match object in place. */
module Knockout {
  import opened Wrappers
  import opened TournamentTypes
  import opened Ranking
  import Seqs

  /** The ids of a drawn bracket, in order: four quarter-finals, two
      semi-finals and the final. */
  const DrawnIds: seq<string> := ["q1", "q2", "q3", "q4", "s1", "s2", "f1"]

  /** Seven matches carrying the drawn ids in order. */
  predicate DrawnLayout(es: seq<BracketEntry>) {
    |es| == 7 && forall i :: 0 <= i < 7 ==> es[i].id == DrawnIds[i]
  }

  /** A `parseInt` that reads the match numbers of the drawn ids. */
  predicate ReadsMatchNumbers(parseInt: string -> Option<int>) {
    parseInt("1") == Some(1) && parseInt("2") == Some(2) && parseInt("3") == Some(3) && parseInt("4") == Some(4)
  }

  /** A knockout match with both scores unset. */
  function Unplayed(id: string, homeTeam: string, awayTeam: string, round: KnockoutRound, matchNumber: int): BracketEntry {
    BracketEntry(id, homeTeam, awayTeam, None, None, round, matchNumber)
  }

  /** `generateKnockoutBracket` for four groups: rejected unless there are
      exactly eight qualifiers; otherwise seeds 0 v 5, 2 v 7, 4 v 3 and 6 v 1
      meet in the quarter-finals, and the semi-finals and final wait with
      empty team names. Every score is unset. */
  function GenerateKnockoutBracket(groups: seq<Group>, numberOfGroups: int): (r: Option<seq<BracketEntry>>)
    requires numberOfGroups == 4
    ensures r.None? <==> |Qualifiers(groups)| != 2 * numberOfGroups
    ensures r.Some? ==> |r.value| == 7
    ensures r.Some? ==> forall i :: 0 <= i < 7 ==> r.value[i].homeScore.None? && r.value[i].awayScore.None?
    ensures r.Some? ==> forall i :: 4 <= i < 7 ==> r.value[i].homeTeam == "" && r.value[i].awayTeam == ""
    ensures r.Some? ==> forall i :: 0 <= i < 4 ==> r.value[i].round == Quarter && r.value[i].matchNumber == i + 1
    ensures r.Some? ==> r.value[4].round == Semi && r.value[5].round == Semi && r.value[6].round == Final
    ensures r.Some? ==> r.value[4].matchNumber == 1 && r.value[5].matchNumber == 2 && r.value[6].matchNumber == 1
    ensures r.Some? ==> DrawnLayout(r.value)
  {
    var top := Qualifiers(groups);
    if |top| != numberOfGroups * 2 then None
    else Some([
      Unplayed("q1", top[0].name, top[5].name, Quarter, 1),
      Unplayed("q2", top[2].name, top[7].name, Quarter, 2),
      Unplayed("q3", top[4].name, top[3].name, Quarter, 3),
      Unplayed("q4", top[6].name, top[1].name, Quarter, 4),
      Unplayed("s1", "", "", Semi, 1),
      Unplayed("s2", "", "", Semi, 2),
      Unplayed("f1", "", "", Final, 1)])
  }

  /** The public view's knockout tab opens exactly when the draw succeeded:
      a drawn bracket always has matches, and with no bracket stored the
      list is empty. */
  lemma KnockoutTabOpensOnDraw(groups: seq<Group>, numberOfGroups: int)
    requires numberOfGroups == 4
    ensures !HasKnockoutMatches([])
    ensures GenerateKnockoutBracket(groups, numberOfGroups).Some? <==>
              HasKnockoutMatches(GenerateKnockoutBracket(groups, numberOfGroups).GetOr([]))
  {
  }

  /** With four groups of at least two teams the bracket is drawn, and every
      quarter-final puts one group's winner against another group's
      runner-up: A1 v C2, B1 v D2, C1 v B2, D1 v A2. */
  lemma BracketSeeding(groups: seq<Group>)
    requires |groups| == 4 && forall g :: 0 <= g < 4 ==> |groups[g].teams| >= 2
    ensures GenerateKnockoutBracket(groups, 4).Some?
    ensures var b := GenerateKnockoutBracket(groups, 4).value;
            && b[0].homeTeam == TopTwo(groups[0].teams)[0].name && b[0].awayTeam == TopTwo(groups[2].teams)[1].name
            && b[1].homeTeam == TopTwo(groups[1].teams)[0].name && b[1].awayTeam == TopTwo(groups[3].teams)[1].name
            && b[2].homeTeam == TopTwo(groups[2].teams)[0].name && b[2].awayTeam == TopTwo(groups[1].teams)[1].name
            && b[3].homeTeam == TopTwo(groups[3].teams)[0].name && b[3].awayTeam == TopTwo(groups[0].teams)[1].name
  {
    QualifierSeeds(groups, 0);
    QualifierSeeds(groups, 1);
    QualifierSeeds(groups, 2);
    QualifierSeeds(groups, 3);
  }

  /** With four groups, one holding fewer than two teams, the draw is refused. */
  lemma BracketNeedsFullGroups(groups: seq<Group>, g: nat)
    requires |groups| == 4 && g < 4 && |groups[g].teams| < 2
    ensures GenerateKnockoutBracket(groups, 4).None?
  {
    QualifiersByGroup(groups, []);
    assert groups + [] == groups;
    CountBelowFull(groups, g);
  }

  lemma {:induction false} CountBelowFull(groups: seq<Group>, g: nat)
    requires g < |groups| && |groups[g].teams| < 2
    ensures QualifierCount(groups) < 2 * |groups|
  {
    if g == 0 {
      CountAtMostFull(groups[1..]);
    } else {
      CountBelowFull(groups[1..], g - 1);
    }
  }

  lemma {:induction false} CountAtMostFull(groups: seq<Group>)
    ensures QualifierCount(groups) <= 2 * |groups|
  {
    if groups != [] {
      CountAtMostFull(groups[1..]);
    }
  }

  // ---------------------------------------------------------------------------
  // Recording a knockout result

  /** JavaScript's `%`, whose remainder takes the sign of the dividend. */
  function JsRem(a: int, b: int): int
    requires b != 0
  {
    if a >= 0 then a % b else -((-a) % b)
  }

  /** `s.startsWith(c)` for one character. */
  predicate StartsWith(s: string, c: char) {
    |s| > 0 && s[0] == c
  }

  /** `matches.find(m => m.id === id)`, as the index of the first match. */
  function FindEntry(es: seq<BracketEntry>, id: string): (r: Option<nat>)
    ensures r.Some? ==> r.value < |es| && es[r.value].id == id
    ensures r.Some? ==> forall i :: 0 <= i < r.value ==> es[i].id != id
    ensures r.None? <==> forall i :: 0 <= i < |es| ==> es[i].id != id
  {
    Seqs.FindFirst(es, EntryIdIs(id))
  }

  /** Bracket entries with the given id. */
  function EntryIdIs(id: string): BracketEntry -> bool {
    (e: BracketEntry) => e.id == id
  }

  /** `{ ...match, homeScore, awayScore }` for every match with the id. */
  function SetScores(es: seq<BracketEntry>, matchId: string, homeScore: int, awayScore: int): (r: seq<BracketEntry>)
    ensures |r| == |es|
  {
    seq(|es|, i requires 0 <= i < |es| =>
      if es[i].id == matchId then es[i].(homeScore := Some(homeScore), awayScore := Some(awayScore)) else es[i])
  }

  /** The team that goes through: home only when it scored more, so a draw
      sends the away team. */
  function Winner(homeTeam: string, awayTeam: string, homeScore: int, awayScore: int): (w: string)
    ensures w == homeTeam || w == awayTeam
    ensures homeScore > awayScore ==> w == homeTeam
    ensures homeScore <= awayScore && homeTeam != awayTeam ==> w == awayTeam
  {
    if homeScore > awayScore then homeTeam else awayTeam
  }

  /** Writes the winner into the home or the away slot of the first match
      with the id, if there is one. */
  function Place(es: seq<BracketEntry>, id: string, winner: string, home: bool): (r: seq<BracketEntry>)
    ensures |r| == |es|
  {
    match FindEntry(es, id)
    case None => es
    case Some(i) => es[i := if home then es[i].(homeTeam := winner) else es[i].(awayTeam := winner)]
  }

  /** Where a result is carried: the id of the next match and whether the
      winner takes its home slot. A quarter-final number up to 2 feeds "s1",
      any other (or none) "s2"; an odd number takes the home slot. Semi-final
      number 1 feeds the final's home slot, any other its away slot. A final
      feeds nothing. */
  function Route(matchId: string, parseInt: string -> Option<int>): Option<(string, bool)> {
    if StartsWith(matchId, 'q') then
      var q := parseInt(matchId[1..]);
      Some((if q.Some? && q.value <= 2 then "s1" else "s2", q.Some? && JsRem(q.value, 2) == 1))
    else if StartsWith(matchId, 's') then
      Some(("f1", parseInt(matchId[1..]) == Some(1)))
    else None
  }

  /** Carries the result of the first match with the id, once its scores
      are set, to the next match its id routes to. */
  function Propagate(scored: seq<BracketEntry>, matchId: string, homeScore: int, awayScore: int,
                     parseInt: string -> Option<int>): (r: seq<BracketEntry>)
    ensures |r| == |scored|
  {
    match FindEntry(scored, matchId)
    case None => scored
    case Some(c) =>
      var winner := Winner(scored[c].homeTeam, scored[c].awayTeam, homeScore, awayScore);
      match Route(matchId, parseInt)
      case None => scored
      case Some(next) => Place(scored, next.0, winner, next.1)
  }

  /** `handleKnockoutScore` on the values of the matches: the scores are set
      on the matches with the id, and the winner of the first of them is
      carried to the next match its id routes to. */
  function ScoreBracket(es: seq<BracketEntry>, matchId: string, homeScore: int, awayScore: int,
                        parseInt: string -> Option<int>): (r: seq<BracketEntry>)
    ensures |r| == |es|
  {
    Propagate(SetScores(es, matchId, homeScore, awayScore), matchId, homeScore, awayScore, parseInt)
  }

  /** Only the scored matches get scores, and they get exactly the submitted
      ones; ids, rounds and numbers never change; team names change in at
      most one match, the one the result is routed to, and only in the slot
      the route names. */
  lemma ScoreBracketEffect(es: seq<BracketEntry>, matchId: string, homeScore: int, awayScore: int,
                           parseInt: string -> Option<int>, i: nat)
    requires i < |es|
    ensures var r := ScoreBracket(es, matchId, homeScore, awayScore, parseInt);
            && r[i].id == es[i].id && r[i].round == es[i].round && r[i].matchNumber == es[i].matchNumber
            && (es[i].id == matchId ==> r[i].homeScore == Some(homeScore) && r[i].awayScore == Some(awayScore))
            && (es[i].id != matchId ==> r[i].homeScore == es[i].homeScore && r[i].awayScore == es[i].awayScore)
            && (Route(matchId, parseInt).None? ==> r[i].homeTeam == es[i].homeTeam && r[i].awayTeam == es[i].awayTeam)
            && (Route(matchId, parseInt).Some? && FindEntry(es, Route(matchId, parseInt).value.0) != Some(i) ==>
                  r[i].homeTeam == es[i].homeTeam && r[i].awayTeam == es[i].awayTeam)
            && (Route(matchId, parseInt).Some? && Route(matchId, parseInt).value.1 ==> r[i].awayTeam == es[i].awayTeam)
            && (Route(matchId, parseInt).Some? && !Route(matchId, parseInt).value.1 ==> r[i].homeTeam == es[i].homeTeam)
  {
    var scored := SetScores(es, matchId, homeScore, awayScore);
    SameIdsAfterScores(es, matchId, homeScore, awayScore);
    match FindEntry(scored, matchId)
    case None =>
    case Some(c) =>
      var winner := Winner(scored[c].homeTeam, scored[c].awayTeam, homeScore, awayScore);
      match Route(matchId, parseInt)
      case None =>
      case Some(next) =>
        PlaceEffect(scored, next.0, winner, next.1, i);
  }

  /** Placing a winner changes one slot of one match and nothing else. */
  lemma PlaceEffect(es: seq<BracketEntry>, id: string, winner: string, home: bool, i: nat)
    requires i < |es|
    ensures var r := Place(es, id, winner, home);
            && r[i].id == es[i].id && r[i].round == es[i].round && r[i].matchNumber == es[i].matchNumber
            && r[i].homeScore == es[i].homeScore && r[i].awayScore == es[i].awayScore
            && (FindEntry(es, id) != Some(i) ==> r[i] == es[i])
            && (home ==> r[i].awayTeam == es[i].awayTeam)
            && (!home ==> r[i].homeTeam == es[i].homeTeam)
            && (FindEntry(es, id) == Some(i) ==> (if home then r[i].homeTeam else r[i].awayTeam) == winner)
  {
  }

  /** Setting scores keeps every id, so the lookups find the same matches. */
  lemma SameIdsAfterScores(es: seq<BracketEntry>, matchId: string, homeScore: int, awayScore: int)
    ensures forall id :: FindEntry(SetScores(es, matchId, homeScore, awayScore), id) == FindEntry(es, id)
  {
    forall id
      ensures FindEntry(SetScores(es, matchId, homeScore, awayScore), id) == FindEntry(es, id)
    {
      FindEntrySameIds(SetScores(es, matchId, homeScore, awayScore), es, id);
    }
  }

  lemma {:induction false} FindEntrySameIds(a: seq<BracketEntry>, b: seq<BracketEntry>, id: string)
    requires |a| == |b| && forall i :: 0 <= i < |a| ==> a[i].id == b[i].id
    ensures FindEntry(a, id) == FindEntry(b, id)
  {
    if a != [] && a[0].id != id {
      FindEntrySameIds(a[1..], b[1..], id);
    }
  }

  /** Where the winner of quarter-final n (n from 1 to 4, as parsed from its
      id) goes: semi-final "s1" for 1 and 2, "s2" for 3 and 4; the home slot
      for 1 and 3, the away slot for 2 and 4. A semi-final numbered 1 feeds
      the final's home slot and any other the away slot; a final result goes
      nowhere. */
  lemma RoutingTable(matchId: string, parseInt: string -> Option<int>, n: int)
    requires |matchId| > 0 && parseInt(matchId[1..]) == Some(n)
    ensures matchId[0] == 'q' && 1 <= n <= 4 ==>
              Route(matchId, parseInt) == Some((if n <= 2 then "s1" else "s2", n == 1 || n == 3))
    ensures matchId[0] == 's' ==> Route(matchId, parseInt) == Some(("f1", n == 1))
    ensures matchId[0] == 'f' ==> Route(matchId, parseInt).None?
  {
  }

  /** A quarter-final id whose number does not parse still routes, to the
      away slot of "s2". */
  lemma UnparsedQuarterGoesToSecondSemiAway(matchId: string, parseInt: string -> Option<int>)
    requires StartsWith(matchId, 'q') && parseInt(matchId[1..]).None?
    ensures Route(matchId, parseInt) == Some(("s2", false))
  {
  }

  /** The winner is written where the route says, in the first match with
      the routed id, when the scored match exists. */
  lemma WinnerIsPlaced(es: seq<BracketEntry>, matchId: string, homeScore: int, awayScore: int,
                       parseInt: string -> Option<int>, c: nat, n: nat)
    requires FindEntry(es, matchId) == Some(c)
    requires Route(matchId, parseInt).Some? && FindEntry(es, Route(matchId, parseInt).value.0) == Some(n)
    ensures var r := ScoreBracket(es, matchId, homeScore, awayScore, parseInt);
            var w := Winner(es[c].homeTeam, es[c].awayTeam, homeScore, awayScore);
            (if Route(matchId, parseInt).value.1 then r[n].homeTeam else r[n].awayTeam) == w
  {
    SameIdsAfterScores(es, matchId, homeScore, awayScore);
  }

  /** In the drawn layout each id is found at its own position. */
  lemma DrawnFind(es: seq<BracketEntry>, i: nat)
    requires DrawnLayout(es) && i < 7
    ensures FindEntry(es, DrawnIds[i]) == Some(i)
  {
    var r := FindEntry(es, DrawnIds[i]);
    assert es[i].id == DrawnIds[i];
    forall j | 0 <= j < i
      ensures es[j].id != DrawnIds[i]
    {
      assert es[j].id == DrawnIds[j];
      assert DrawnIds[j][0] != DrawnIds[i][0] || DrawnIds[j][1] != DrawnIds[i][1];
    }
  }

  /** Scoring keeps the drawn layout. */
  lemma ScoringKeepsLayout(es: seq<BracketEntry>, matchId: string, homeScore: int, awayScore: int,
                           parseInt: string -> Option<int>)
    requires DrawnLayout(es)
    ensures DrawnLayout(ScoreBracket(es, matchId, homeScore, awayScore, parseInt))
  {
    forall i | 0 <= i < 7
      ensures ScoreBracket(es, matchId, homeScore, awayScore, parseInt)[i].id == DrawnIds[i]
    {
      ScoreBracketEffect(es, matchId, homeScore, awayScore, parseInt, i);
    }
  }

  /** In a drawn bracket the winner of quarter-final k goes to semi-final
      (k + 1) / 2, in its home slot for odd k and its away slot for even k. */
  lemma QuarterWinnerAdvances(es: seq<BracketEntry>, k: nat, homeScore: int, awayScore: int,
                              parseInt: string -> Option<int>)
    requires DrawnLayout(es) && ReadsMatchNumbers(parseInt) && 1 <= k <= 4
    ensures var r := ScoreBracket(es, DrawnIds[k - 1], homeScore, awayScore, parseInt);
            var w := Winner(es[k - 1].homeTeam, es[k - 1].awayTeam, homeScore, awayScore);
            && DrawnLayout(r)
            && (k % 2 == 1 ==> r[4 + (k - 1) / 2].homeTeam == w)
            && (k % 2 == 0 ==> r[4 + (k - 1) / 2].awayTeam == w)
  {
    var id := DrawnIds[k - 1];
    var s := 4 + (k - 1) / 2;
    assert id[1..] == [id[1]];
    assert parseInt(id[1..]) == Some(k);
    RoutingTable(id, parseInt, k);
    var home := k % 2 == 1;
    assert Route(id, parseInt) == Some((DrawnIds[s], home));
    DrawnFind(es, k - 1);
    DrawnFind(es, s);
    assert FindEntry(es, Route(id, parseInt).value.0) == Some(s);
    WinnerIsPlaced(es, id, homeScore, awayScore, parseInt, k - 1, s);
    var r := ScoreBracket(es, id, homeScore, awayScore, parseInt);
    assert (if home then r[s].homeTeam else r[s].awayTeam)
        == Winner(es[k - 1].homeTeam, es[k - 1].awayTeam, homeScore, awayScore);
    ScoringKeepsLayout(es, id, homeScore, awayScore, parseInt);
  }

  /** In a drawn bracket the winner of semi-final k goes to the final, in
      its home slot for k = 1 and its away slot for k = 2. */
  lemma SemiWinnerAdvances(es: seq<BracketEntry>, k: nat, homeScore: int, awayScore: int,
                           parseInt: string -> Option<int>)
    requires DrawnLayout(es) && ReadsMatchNumbers(parseInt) && 1 <= k <= 2
    ensures var r := ScoreBracket(es, DrawnIds[3 + k], homeScore, awayScore, parseInt);
            var w := Winner(es[3 + k].homeTeam, es[3 + k].awayTeam, homeScore, awayScore);
            && DrawnLayout(r)
            && (k == 1 ==> r[6].homeTeam == w)
            && (k == 2 ==> r[6].awayTeam == w)
  {
    var id := DrawnIds[3 + k];
    assert id[1..] == [id[1]];
    assert parseInt(id[1..]) == Some(k);
    RoutingTable(id, parseInt, k);
    DrawnFind(es, 3 + k);
    DrawnFind(es, 6);
    WinnerIsPlaced(es, id, homeScore, awayScore, parseInt, 3 + k, 6);
    ScoringKeepsLayout(es, id, homeScore, awayScore, parseInt);
  }

  // ---------------------------------------------------------------------------
  // The same, on the match objects

  /** `matches.find(m => m.id === id)` over the objects. */
  method FindMatch(ms: seq<KnockoutMatch>, id: string) returns (r: Option<nat>)
    ensures r == FindEntry(Snapshots(ms), id)
  {
    var i := 0;
    while i < |ms| && ms[i].id != id
      invariant 0 <= i <= |ms|
      invariant forall k :: 0 <= k < i ==> ms[k].id != id
    {
      i := i + 1;
    }
    r := if i < |ms| then Some(i) else None;
  }

  /** `knockoutMatches.map(...)`: a new object with the scores for each
      match with the id, the same object for every other match. */
  method WithScores(ms: seq<KnockoutMatch>, matchId: string, homeScore: int, awayScore: int)
    returns (updated: seq<KnockoutMatch>)
    requires forall i, j :: 0 <= i < j < |ms| ==> ms[i] != ms[j]
    ensures |updated| == |ms|
    ensures forall i :: 0 <= i < |ms| && ms[i].id != matchId ==> updated[i] == ms[i]
    ensures forall i :: 0 <= i < |ms| && ms[i].id == matchId ==> fresh(updated[i])
    ensures forall i, j :: 0 <= i < j < |ms| ==> updated[i] != updated[j]
    ensures Snapshots(updated) == SetScores(Snapshots(ms), matchId, homeScore, awayScore)
  {
    ghost var scored := SetScores(Snapshots(ms), matchId, homeScore, awayScore);
    updated := [];
    var i := 0;
    while i < |ms|
      invariant 0 <= i <= |ms| && |updated| == i
      invariant forall k :: 0 <= k < i && ms[k].id != matchId ==> updated[k] == ms[k]
      invariant forall k :: 0 <= k < i && ms[k].id == matchId ==> fresh(updated[k])
      invariant forall k, l :: 0 <= k < l < i ==> updated[k] != updated[l]
      invariant forall k :: 0 <= k < i ==> Snapshot(updated[k]) == scored[k]
    {
      if ms[i].id == matchId {
        var m := new KnockoutMatch(ms[i].id, ms[i].homeTeam, ms[i].awayTeam, Some(homeScore), Some(awayScore),
                                   ms[i].round, ms[i].matchNumber);
        updated := updated + [m];
      } else {
        updated := updated + [ms[i]];
      }
      i := i + 1;
    }
  }

  /** Writes the winner into one slot of the n-th match object. */
  method PlaceWinner(ms: seq<KnockoutMatch>, n: nat, winner: string, home: bool, ghost before: seq<BracketEntry>)
    requires n < |ms| && forall i, j :: 0 <= i < j < |ms| ==> ms[i] != ms[j]
    requires Snapshots(ms) == before
    modifies ms[n]
    ensures Snapshots(ms) == before[n := if home then before[n].(homeTeam := winner) else before[n].(awayTeam := winner)]
  {
    if home {
      ms[n].homeTeam := winner;
    } else {
      ms[n].awayTeam := winner;
    }
    assert forall k :: 0 <= k < |ms| && k != n ==> ms[k] != ms[n];
  }

  /** The propagation step on the objects: finds the scored match and the
      match its id routes to, and writes the winner into that one. */
  method PropagateWinner(updated: seq<KnockoutMatch>, matchId: string, homeScore: int, awayScore: int,
                         parseInt: string -> Option<int>, ghost scored: seq<BracketEntry>)
    requires forall i, j :: 0 <= i < j < |updated| ==> updated[i] != updated[j]
    requires Snapshots(updated) == scored
    modifies updated
    ensures Snapshots(updated) == Propagate(scored, matchId, homeScore, awayScore, parseInt)
  {
    var completed := FindMatch(updated, matchId);
    if completed.Some? {
      var c := completed.value;
      var winner := if homeScore > awayScore then updated[c].homeTeam else updated[c].awayTeam;
      var route := Route(matchId, parseInt);
      if route.Some? {
        var next := FindMatch(updated, route.value.0);
        if next.Some? {
          PlaceWinner(updated, next.value, winner, route.value.1, scored);
        }
      }
    }
  }

  /** `handleKnockoutScore`: the matches with the id are replaced by new
      objects carrying the scores, and their old objects are left as they
      were; every other match is the same object as before, so writing the
      winner into the next match changes an object the previous list holds
      too. */
  method HandleKnockoutScore(ms: seq<KnockoutMatch>, matchId: string, homeScore: int, awayScore: int,
                             parseInt: string -> Option<int>) returns (updated: seq<KnockoutMatch>)
    requires forall i, j :: 0 <= i < j < |ms| ==> ms[i] != ms[j]
    modifies ms
    ensures |updated| == |ms|
    ensures forall i :: 0 <= i < |ms| && ms[i].id != matchId ==> updated[i] == ms[i]
    ensures forall i :: 0 <= i < |ms| && ms[i].id == matchId ==> fresh(updated[i])
    ensures Snapshots(updated) == ScoreBracket(old(Snapshots(ms)), matchId, homeScore, awayScore, parseInt)
    ensures forall i :: 0 <= i < |ms| && ms[i].id == matchId ==> Snapshot(ms[i]) == old(Snapshot(ms[i]))
  {
    updated := WithScores(ms, matchId, homeScore, awayScore);
    assert forall i, k :: 0 <= i < |ms| && 0 <= k < |ms| && ms[i].id == matchId ==> updated[k] != ms[i];
    PropagateWinner(updated, matchId, homeScore, awayScore, parseInt, Snapshots(updated));
  }
}
