/** The group table: `group.teams.sort(compare)` reorders the group's own
    array of teams in place before the rows are drawn. */
module GroupTable {
  import opened TournamentTypes
  import opened Ranking

  /** The ordered prefix `s` with x inserted, when x has already moved in
      front of s[j..]: inserting into the first j entries and appending the
      rest gives the same list. */
  lemma InsertLastShift(s: seq<Team>, x: Team, j: nat)
    requires 0 < j <= |s| && RanksAbove(x, s[j - 1])
    requires InsertLast(s, x) == InsertLast(s[..j], x) + s[j..]
    ensures InsertLast(s, x) == InsertLast(s[..j - 1], x) + s[j - 1..]
  {
    assert s[..j][..j - 1] == s[..j - 1];
    assert [s[j - 1]] + s[j..] == s[j - 1..];
  }

  /** The insertion stops at j: x does not rank above s[j - 1]. */
  lemma InsertLastStop(s: seq<Team>, x: Team, j: nat)
    requires j <= |s| && (j == 0 || !RanksAbove(x, s[j - 1]))
    requires InsertLast(s, x) == InsertLast(s[..j], x) + s[j..]
    ensures InsertLast(s, x) == s[..j] + [x] + s[j..]
  {
  }

  /** One step of the outer loop: the standings of one more team are the
      standings so far with the next team inserted. */
  lemma StandingsStep(all: seq<Team>, i: nat)
    requires i < |all|
    ensures Standings(all[..i + 1]) == InsertLast(Standings(all[..i]), all[i])
  {
    assert all[..i + 1][..i] == all[..i];
  }

  /** The array after x has been written at j into the shifted prefix: its
      first i + 1 entries are the prefix with x inserted at j, and the rest
      is as it was. */
  lemma Assembled(before: seq<Team>, after: seq<Team>, i: nat, j: nat, x: Team)
    requires j <= i < |before| == |after|
    requires forall k :: 0 <= k < j ==> after[k] == before[k]
    requires after[j] == x
    requires forall k :: j < k <= i ==> after[k] == before[k - 1]
    requires forall k :: i < k < |after| ==> after[k] == before[k]
    ensures after[..i + 1] == before[..i][..j] + [x] + before[..i][j..]
    ensures after[i + 1..] == before[i + 1..]
  {
    var inserted := before[..i][..j] + [x] + before[..i][j..];
    forall k | 0 <= k <= i
      ensures after[k] == inserted[k]
    {
    }
  }

  /** The loop of the insertion: shifts up, one place each, the teams at the
      end of the ordered prefix a[..i] that x ranks above, and returns the
      gap left where x belongs. */
  method ShiftUp(a: array<Team>, i: int, x: Team) returns (j: int)
    requires 0 <= i < a.Length
    modifies a
    ensures 0 <= j <= i
    ensures forall k :: 0 <= k < j ==> a[k] == old(a[k])
    ensures forall k :: j < k <= i ==> a[k] == old(a[k - 1])
    ensures forall k :: i < k < a.Length ==> a[k] == old(a[k])
    ensures InsertLast(old(a[..i]), x) == old(a[..i])[..j] + [x] + old(a[..i])[j..]
  {
    ghost var sorted := a[..i];
    j := i;
    assert sorted[..j] == sorted;
    while j > 0 && RanksAbove(x, a[j - 1])
      invariant 0 <= j <= i
      invariant forall k :: 0 <= k < j ==> a[k] == old(a[k])
      invariant forall k :: j < k <= i ==> a[k] == old(a[k - 1])
      invariant forall k :: i < k < a.Length ==> a[k] == old(a[k])
      invariant InsertLast(sorted, x) == InsertLast(sorted[..j], x) + sorted[j..]
    {
      InsertLastShift(sorted, x, j);
      a[j] := a[j - 1];
      j := j - 1;
    }
    InsertLastStop(sorted, x, j);
  }

  /** Moves a[i] down into the ordered prefix a[..i], shifting the teams it
      ranks above one place up; the rest of the array is untouched. */
  method InsertAt(a: array<Team>, i: int)
    requires 0 <= i < a.Length
    modifies a
    ensures a[..i + 1] == InsertLast(old(a[..i]), old(a[i]))
    ensures a[i + 1..] == old(a[i + 1..])
  {
    ghost var before := a[..];
    var x := a[i];
    var j := ShiftUp(a, i, x);
    a[j] := x;
    Assembled(before, a[..], i, j, x);
    assert before[..i] == old(a[..i]);
  }

  /** Sorts the group's teams in place into the standings order; teams that
      tie keep their relative order. */
  method SortStandings(a: array<Team>)
    modifies a
    ensures a[..] == Standings(old(a[..]))
  {
    ghost var all := a[..];
    var i := 0;
    while i < a.Length
      invariant 0 <= i <= a.Length
      invariant a[..i] == Standings(all[..i])
      invariant a[i..] == all[i..]
    {
      InsertAt(a, i);
      StandingsStep(all, i);
      i := i + 1;
    }
    assert all[..a.Length] == all;
  }
}
