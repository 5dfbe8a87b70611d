/** The standings order used by the group table, the public view and the
    knockout draw: points descending, then goal difference descending, with
    ties kept in their previous order (the array sort is stable), and the
    top-two qualification built on it. */
module Ranking {
  import opened TournamentTypes
  import Seqs

  /** The comparator `b.points - a.points || b.goalDifference - a.goalDifference`:
      negative when a is placed first, positive when b is, zero for a tie. */
  function Compare(a: Team, b: Team): int {
    if b.points - a.points != 0 then b.points - a.points else b.goalDifference - a.goalDifference
  }

  /** a is placed strictly before b: more points, or as many points and a
      better goal difference. */
  predicate RanksAbove(a: Team, b: Team) {
    a.points > b.points || (a.points == b.points && a.goalDifference > b.goalDifference)
  }

  /** a and b tie under the comparator. */
  predicate SameRank(a: Team, b: Team) {
    a.points == b.points && a.goalDifference == b.goalDifference
  }

  /** The comparator's sign is exactly the ranking: negative iff a ranks
      above b, positive iff b ranks above a, zero iff they tie. */
  lemma CompareSign(a: Team, b: Team)
    ensures Compare(a, b) < 0 <==> RanksAbove(a, b)
    ensures Compare(a, b) > 0 <==> RanksAbove(b, a)
    ensures Compare(a, b) == 0 <==> SameRank(a, b)
  {
  }

  /** Teams ranked no better than `k` would be placed at or after it. */
  lemma NotAboveTransitive(a: Team, b: Team, c: Team)
    requires !RanksAbove(a, b) && !RanksAbove(b, c)
    ensures !RanksAbove(a, c)
  {
  }

  /** Listed from top to bottom: no team ranks above one listed before it. */
  predicate Sorted(s: seq<Team>) {
    forall i, j :: 0 <= i < j < |s| ==> !RanksAbove(s[j], s[i])
  }

  /** Places x into an ordered list the way a stable insertion works: it moves
      in front of the trailing teams it ranks above and stops behind the first
      team it does not rank above. */
  function InsertLast(t: seq<Team>, x: Team): (r: seq<Team>)
    ensures |r| == |t| + 1
  {
    if t == [] || !RanksAbove(x, t[|t| - 1]) then t + [x]
    else InsertLast(t[..|t| - 1], x) + [t[|t| - 1]]
  }

  /** `teams.sort(compare)` with a stable sort: each team in turn is inserted
      into the ordered list of the teams before it. */
  function Standings(s: seq<Team>): (r: seq<Team>)
    ensures |r| == |s|
  {
    if s == [] then [] else InsertLast(Standings(s[..|s| - 1]), s[|s| - 1])
  }

  lemma {:induction false} InsertLastPermutes(t: seq<Team>, x: Team)
    ensures multiset(InsertLast(t, x)) == multiset(t) + multiset{x}
  {
    if t != [] && RanksAbove(x, t[|t| - 1]) {
      InsertLastPermutes(t[..|t| - 1], x);
      assert t == t[..|t| - 1] + [t[|t| - 1]];
    }
  }

  lemma {:induction false} InsertLastSorted(t: seq<Team>, x: Team)
    requires Sorted(t)
    ensures Sorted(InsertLast(t, x))
  {
    if t != [] {
      var last := t[|t| - 1];
      var init := t[..|t| - 1];
      if !RanksAbove(x, last) {
        forall i | 0 <= i < |t|
          ensures !RanksAbove(x, t[i])
        {
          if i < |t| - 1 {
            NotAboveTransitive(x, last, t[i]);
          }
        }
      } else {
        InsertLastSorted(init, x);
        InsertLastPermutes(init, x);
        var r := InsertLast(init, x);
        forall i | 0 <= i < |r|
          ensures !RanksAbove(last, r[i])
        {
          assert r[i] in multiset(init) + multiset{x};
          if r[i] != x {
            assert r[i] in init;
          }
        }
      }
    }
  }

  /** The standings are ordered. */
  lemma {:induction false} StandingsSorted(s: seq<Team>)
    ensures Sorted(Standings(s))
  {
    if s != [] {
      StandingsSorted(s[..|s| - 1]);
      InsertLastSorted(Standings(s[..|s| - 1]), s[|s| - 1]);
    }
  }

  /** The standings hold exactly the teams of the group, each as often. */
  lemma {:induction false} StandingsPermutes(s: seq<Team>)
    ensures multiset(Standings(s)) == multiset(s)
  {
    if s != [] {
      StandingsPermutes(s[..|s| - 1]);
      InsertLastPermutes(Standings(s[..|s| - 1]), s[|s| - 1]);
      assert s == s[..|s| - 1] + [s[|s| - 1]];
    }
  }

  /** The teams tied with k. */
  function TiedWith(k: Team): Team -> bool {
    t => SameRank(t, k)
  }

  lemma FilterSingle(x: Team, p: Team -> bool)
    ensures Seqs.Filter([x], p) == if p(x) then [x] else []
  {
    assert [x][1..] == [];
  }

  lemma {:induction false} InsertLastKeepsTies(t: seq<Team>, x: Team, k: Team)
    ensures Seqs.Filter(InsertLast(t, x), TiedWith(k)) == Seqs.Filter(t + [x], TiedWith(k))
  {
    var p := TiedWith(k);
    if t != [] && RanksAbove(x, t[|t| - 1]) {
      var init := t[..|t| - 1];
      var last := t[|t| - 1];
      assert t == init + [last];
      assert !(p(x) && p(last));
      var fx := if p(x) then [x] else [];
      var fl := if p(last) then [last] else [];
      calc {
        Seqs.Filter(InsertLast(t, x), p);
        Seqs.Filter(InsertLast(init, x) + [last], p);
        { Seqs.FilterConcat(InsertLast(init, x), [last], p); FilterSingle(last, p); }
        Seqs.Filter(InsertLast(init, x), p) + fl;
        { InsertLastKeepsTies(init, x, k); }
        Seqs.Filter(init + [x], p) + fl;
        { Seqs.FilterConcat(init, [x], p); FilterSingle(x, p); }
        Seqs.Filter(init, p) + fx + fl;
        Seqs.Filter(init, p) + fl + fx;
        { Seqs.FilterConcat(init, [last], p); FilterSingle(last, p); }
        Seqs.Filter(t, p) + fx;
        { Seqs.FilterConcat(t, [x], p); FilterSingle(x, p); }
        Seqs.Filter(t + [x], p);
      }
    }
  }

  /** Stability: the teams tied with any k appear in the standings in the
      same relative order as in the input. */
  lemma {:induction false} StandingsStable(s: seq<Team>, k: Team)
    ensures Seqs.Filter(Standings(s), TiedWith(k)) == Seqs.Filter(s, TiedWith(k))
  {
    if s != [] {
      var init := s[..|s| - 1];
      var x := s[|s| - 1];
      StandingsStable(init, k);
      InsertLastKeepsTies(Standings(init), x, k);
      Seqs.FilterConcat(Standings(init), [x], TiedWith(k));
      Seqs.FilterConcat(init, [x], TiedWith(k));
      assert s == init + [x];
    }
  }

  /** A list already in order is left as it is. */
  lemma {:induction false} StandingsOfSorted(s: seq<Team>)
    requires Sorted(s)
    ensures Standings(s) == s
  {
    if s != [] {
      var init := s[..|s| - 1];
      assert Sorted(init);
      StandingsOfSorted(init);
      if |init| > 0 {
        assert !RanksAbove(s[|s| - 1], init[|init| - 1]);
      }
      assert s == init + [s[|s| - 1]];
    }
  }

  // ---------------------------------------------------------------------------
  // Qualification

  function Min(a: int, b: int): int {
    if a < b then a else b
  }

  /** `[...group.teams].sort(compare).slice(0, 2)`, on a copy of the group's
      teams. */
  function TopTwo(teams: seq<Team>): (r: seq<Team>)
    ensures |r| == Min(2, |teams|)
  {
    Standings(teams)[..Min(2, |teams|)]
  }

  /** The teams of the group that do not qualify. */
  function LeftOut(teams: seq<Team>): (r: seq<Team>)
    ensures |r| == |teams| - Min(2, |teams|)
  {
    Standings(teams)[Min(2, |teams|)..]
  }

  /** The qualifiers and the teams left out together are the group's teams,
      each as often; no team left out ranks above a qualifier, and the first
      qualifier is not ranked below the second. */
  lemma TopTwoChosen(teams: seq<Team>)
    ensures multiset(TopTwo(teams)) + multiset(LeftOut(teams)) == multiset(teams)
    ensures forall i, j :: 0 <= i < |TopTwo(teams)| && 0 <= j < |LeftOut(teams)| ==>
              !RanksAbove(LeftOut(teams)[j], TopTwo(teams)[i])
    ensures |teams| >= 2 ==> !RanksAbove(TopTwo(teams)[1], TopTwo(teams)[0])
  {
    var s := Standings(teams);
    var m := Min(2, |teams|);
    StandingsSorted(teams);
    StandingsPermutes(teams);
    assert s == TopTwo(teams) + LeftOut(teams);
    forall i, j | 0 <= i < |TopTwo(teams)| && 0 <= j < |LeftOut(teams)|
      ensures !RanksAbove(LeftOut(teams)[j], TopTwo(teams)[i])
    {
      assert LeftOut(teams)[j] == s[m + j];
    }
  }

  /** `groups.flatMap(group => topTwo(group))`: every group's qualifiers in
      group order. */
  function Qualifiers(groups: seq<Group>): (r: seq<Team>)
  {
    if groups == [] then [] else TopTwo(groups[0].teams) + Qualifiers(groups[1..])
  }

  function Ids(ts: seq<Team>): (r: seq<string>)
    ensures |r| == |ts| && forall i :: 0 <= i < |ts| ==> r[i] == ts[i].id
  {
    seq(|ts|, i requires 0 <= i < |ts| => ts[i].id)
  }

  /** `qualifiedTeams`: the ids of the qualifiers. */
  function QualifiedIds(groups: seq<Group>): (r: seq<string>)
    ensures |r| == |Qualifiers(groups)|
    ensures forall i :: 0 <= i < |r| ==> r[i] == Qualifiers(groups)[i].id
  {
    Ids(Qualifiers(groups))
  }

  /** How many qualifiers the groups give: min(2, size) per group. */
  function QualifierCount(groups: seq<Group>): nat {
    if groups == [] then 0 else Min(2, |groups[0].teams|) + QualifierCount(groups[1..])
  }

  /** Each group contributes exactly min(2, size) teams, and the groups'
      contributions come in group order. */
  lemma {:induction false} QualifiersByGroup(groups: seq<Group>, more: seq<Group>)
    ensures |Qualifiers(groups)| == QualifierCount(groups)
    ensures Qualifiers(groups + more) == Qualifiers(groups) + Qualifiers(more)
  {
    if groups != [] {
      assert (groups + more)[1..] == groups[1..] + more;
      QualifiersByGroup(groups[1..], more);
    } else {
      assert groups + more == more;
    }
  }

  /** With four full groups there are exactly eight qualifiers, and seeds 2g
      and 2g+1 are the first and second of group g. */
  lemma {:induction false} QualifierSeeds(groups: seq<Group>, g: nat)
    requires g < |groups| && forall h :: 0 <= h < |groups| ==> |groups[h].teams| >= 2
    ensures |Qualifiers(groups)| == 2 * |groups|
    ensures Qualifiers(groups)[2 * g] == TopTwo(groups[g].teams)[0]
    ensures Qualifiers(groups)[2 * g + 1] == TopTwo(groups[g].teams)[1]
  {
    if g == 0 {
      QualifiersFull(groups[1..]);
    } else {
      QualifierSeeds(groups[1..], g - 1);
    }
  }

  lemma {:induction false} QualifiersFull(groups: seq<Group>)
    requires forall h :: 0 <= h < |groups| ==> |groups[h].teams| >= 2
    ensures |Qualifiers(groups)| == 2 * |groups|
  {
    if groups != [] {
      QualifiersFull(groups[1..]);
    }
  }

  /** `hasKnockoutMatches`. */
  function HasKnockoutMatches(matches: seq<BracketEntry>): (b: bool)
    ensures b <==> |matches| > 0
  {
    |matches| > 0
  }
}
