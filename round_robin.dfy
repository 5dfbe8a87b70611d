/** The circle-method double round robin of the fixture generator, described by
    roster POSITION: entry k of `Schedule(n)` is the k-th fixture the generator
    pushes for a roster of n teams. The generator itself (module
    FixtureGenerator) only replaces positions by team names.

    Shape of the output for n >= 2 teams, with m = n - 1 and h = n / 2:
    two rounds, each of m days, each day h fixtures, in that nesting order.
    Day i (0-based) of round 1, slot j, pairs positions
      (i + j) mod m  against  n - 1          when j == 0,
      (i + j) mod m  against  (i - j) mod m  otherwise;
    round 2 repeats round 1 with home and away swapped and the matchday
    moved up by m. No bye is added when n is odd. */
module RoundRobin {
  import Arith

  /** One scheduled fixture, by roster position. */
  datatype Pairing = Pairing(home: nat, away: nat, matchday: int, round: int)

  /** Number of fixtures the generator pushes per round: m days of h slots. */
  function FixturesPerRound(n: nat): nat {
    if n < 2 then 0 else (n - 1) * (n / 2)
  }

  /** Round 1, day i, slot j: position of the home team. */
  function Home(n: nat, i: nat, j: nat): nat
    requires 2 <= n && i < n - 1 && j < n / 2
  {
    (i + j) % (n - 1)
  }

  /** Round 1, day i, slot j: position of the away team (the last position is
      the fixed pivot of slot 0). */
  function Away(n: nat, i: nat, j: nat): nat
    requires 2 <= n && i < n - 1 && j < n / 2
  {
    if j == 0 then n - 1 else (n - 1 - j + i) % (n - 1)
  }

  /** Day i, slot j of round r (1 or 2). */
  function Slot(n: nat, r: nat, i: nat, j: nat): Pairing
    requires 2 <= n && 1 <= r <= 2 && i < n - 1 && j < n / 2
  {
    if r == 1 then Pairing(Home(n, i, j), Away(n, i, j), i + 1, 1)
    else Pairing(Away(n, i, j), Home(n, i, j), i + 1 + (n - 1), 2)
  }

  /** Where day i, slot j of round r lands in the output. */
  function Position(n: nat, r: nat, i: nat, j: nat): nat
    requires 2 <= n && 1 <= r <= 2 && i < n - 1 && j < n / 2
  {
    (if r == 1 then i else n - 1 + i) * (n / 2) + j
  }

  /** The k-th fixture pushed: k / h counts the days already completed. */
  function EntryAt(n: nat, k: nat): Pairing
    requires 2 <= n && k < 2 * FixturesPerRound(n)
  {
    var m, h := n - 1, n / 2;
    Arith.QuotientBounds(k, h, m);
    var q := k / h;
    if q < m then Slot(n, 1, q, k % h) else Slot(n, 2, q - m, k % h)
  }

  /** Everything the generator pushes for a roster of n teams, in push order. */
  function Schedule(n: nat): (s: seq<Pairing>)
    ensures |s| == 2 * FixturesPerRound(n)
  {
    if n < 2 then []
    else seq(2 * FixturesPerRound(n), k requires 0 <= k < 2 * FixturesPerRound(n) => EntryAt(n, k))
  }

  /** The fixture pairs positions x and y, in either order. */
  predicate Meets(p: Pairing, x: nat, y: nat) {
    (p.home == x && p.away == y) || (p.home == y && p.away == x)
  }

  // ---------------------------------------------------------------------------
  // Size

  /** Fewer than two teams give nothing; otherwise 2 * (n - 1) * floor(n / 2)
      fixtures, which is n * (n - 1) for an even roster. */
  lemma ScheduleSize(n: nat)
    ensures n < 2 ==> Schedule(n) == []
    ensures 2 <= n ==> |Schedule(n)| == 2 * (n - 1) * (n / 2)
    ensures 2 <= n && n % 2 == 0 ==> |Schedule(n)| == n * (n - 1)
  {
    if 2 <= n && n % 2 == 0 {
      assert n == 2 * (n / 2);
      assert 2 * (n - 1) * (n / 2) == (n - 1) * (2 * (n / 2));
    }
  }

  // ---------------------------------------------------------------------------
  // Index arithmetic

  /** The remainders of the circle method written without `%`. */
  lemma HomeAwayValues(n: nat, i: nat, j: nat)
    requires 2 <= n && i < n - 1 && j < n / 2
    ensures Home(n, i, j) == if i + j < n - 1 then i + j else i + j - (n - 1)
    ensures j == 0 ==> Away(n, i, j) == n - 1
    ensures 0 < j ==> Away(n, i, j) == if j <= i then i - j else i - j + (n - 1)
  {
    Arith.ModSmall(i + j, n - 1);
    if 0 < j {
      Arith.ModSmall(n - 1 - j + i, n - 1);
    }
  }

  /** Day i, slot j of round r is pushed at `Position(n, r, i, j)`. */
  lemma PositionIsSlot(n: nat, r: nat, i: nat, j: nat)
    requires 2 <= n && 1 <= r <= 2 && i < n - 1 && j < n / 2
    ensures Position(n, r, i, j) < |Schedule(n)|
    ensures Schedule(n)[Position(n, r, i, j)] == Slot(n, r, i, j)
  {
    var m, h := n - 1, n / 2;
    var q := if r == 1 then i else m + i;
    var k := Position(n, r, i, j);
    assert k == q * h + j;
    Arith.DivModSplit(q, h, j);
    Arith.MulMonotone(q + 1, 2 * m, h);
    Arith.Distribute(q, 1, h);
    Arith.Distribute(m, m, h);
    assert k < |Schedule(n)|;
    assert Schedule(n)[k] == EntryAt(n, k);
  }

  /** Every pushed fixture is some slot of some day. */
  lemma EntryIsSlot(n: nat, k: nat) returns (r: nat, i: nat, j: nat)
    requires k < |Schedule(n)|
    ensures 2 <= n && 1 <= r <= 2 && i < n - 1 && j < n / 2
    ensures k == Position(n, r, i, j) && Schedule(n)[k] == Slot(n, r, i, j)
    ensures k / (n / 2) == (if r == 1 then i else n - 1 + i)
    ensures (r == 1) == (k < FixturesPerRound(n))
  {
    var m, h := n - 1, n / 2;
    Arith.QuotientBounds(k, h, m);
    var q := k / h;
    if q < m {
      r, i := 1, q;
    } else {
      r, i := 2, q - m;
    }
    j := k % h;
  }

  // ---------------------------------------------------------------------------
  // Shape of every fixture

  /** Home and away are distinct valid positions; the last position plays only
      in slot 0. */
  lemma SlotValid(n: nat, i: nat, j: nat)
    requires 2 <= n && i < n - 1 && j < n / 2
    ensures Home(n, i, j) < n - 1 && Away(n, i, j) < n
    ensures Home(n, i, j) != Away(n, i, j)
    ensures (Away(n, i, j) == n - 1) == (j == 0)
  {
    HomeAwayValues(n, i, j);
  }

  /** Every fixture pairs two distinct positions of the roster; its matchday is
      one more than the number of completed days; round 1 holds matchdays
      1 .. n - 1 and round 2 holds n .. 2 (n - 1), so the rounds never overlap. */
  lemma EntryWellFormed(n: nat, k: nat)
    requires k < |Schedule(n)|
    ensures Schedule(n)[k].home < n && Schedule(n)[k].away < n
    ensures Schedule(n)[k].home != Schedule(n)[k].away
    ensures Schedule(n)[k].matchday == k / (n / 2) + 1
    ensures Schedule(n)[k].round == (if k < FixturesPerRound(n) then 1 else 2)
    ensures Schedule(n)[k].round == 1 ==> 1 <= Schedule(n)[k].matchday <= n - 1
    ensures Schedule(n)[k].round == 2 ==> n <= Schedule(n)[k].matchday <= 2 * (n - 1)
  {
    var r, i, j := EntryIsSlot(n, k);
    SlotValid(n, i, j);
  }

  /** The second half of the output is the first half with home and away
      swapped, round 2 and the matchday moved up by n - 1. */
  lemma SecondRoundMirrorsFirst(n: nat, k: nat)
    requires k < FixturesPerRound(n)
    ensures k + FixturesPerRound(n) < |Schedule(n)|
    ensures Schedule(n)[k].round == 1
    ensures Schedule(n)[k + FixturesPerRound(n)]
         == Pairing(Schedule(n)[k].away, Schedule(n)[k].home, Schedule(n)[k].matchday + (n - 1), 2)
  {
    var r, i, j := EntryIsSlot(n, k);
    Arith.Distribute(n - 1, i, n / 2);
    PositionIsSlot(n, 2, i, j);
  }

  // ---------------------------------------------------------------------------
  // No double booking

  /** Two slots of one day never share a team. */
  lemma DaySlotsDisjoint(n: nat, i: nat, j1: nat, j2: nat)
    requires 2 <= n && i < n - 1 && j1 < n / 2 && j2 < n / 2 && j1 != j2
    ensures Home(n, i, j1) != Home(n, i, j2) && Home(n, i, j1) != Away(n, i, j2)
    ensures Away(n, i, j1) != Home(n, i, j2) && Away(n, i, j1) != Away(n, i, j2)
  {
    HomeAwayValues(n, i, j1);
    HomeAwayValues(n, i, j2);
  }

  /** No position plays twice on one matchday, for every roster size. */
  lemma NoDoubleBooking(n: nat, k1: nat, k2: nat)
    requires k1 < |Schedule(n)| && k2 < |Schedule(n)| && k1 != k2
    requires Schedule(n)[k1].matchday == Schedule(n)[k2].matchday
    ensures Schedule(n)[k1].home != Schedule(n)[k2].home
    ensures Schedule(n)[k1].home != Schedule(n)[k2].away
    ensures Schedule(n)[k1].away != Schedule(n)[k2].home
    ensures Schedule(n)[k1].away != Schedule(n)[k2].away
  {
    var r1, i1, j1 := EntryIsSlot(n, k1);
    var r2, i2, j2 := EntryIsSlot(n, k2);
    EntryWellFormed(n, k1);
    EntryWellFormed(n, k2);
    DaySlotsDisjoint(n, i1, j1, j2);
  }

  /** With an even roster every position plays on every matchday. Together with
      NoDoubleBooking: exactly once. */
  lemma EvenMatchdayCoversEveryTeam(n: nat, md: int, t: nat)
    requires 2 <= n && n % 2 == 0 && 1 <= md <= 2 * (n - 1) && t < n
    ensures exists k :: 0 <= k < |Schedule(n)| && Schedule(n)[k].matchday == md
                        && (Schedule(n)[k].home == t || Schedule(n)[k].away == t)
  {
    var m, h := n - 1, n / 2;
    var r: nat := if md <= m then 1 else 2;
    var i: nat := if md <= m then md - 1 else md - 1 - m;
    var j: nat;
    if t == m || t == i {
      j := 0;
    } else {
      var d := if t > i then t - i else t - i + m;
      j := if d < h then d else m - d;
    }
    HomeAwayValues(n, i, j);
    PositionIsSlot(n, r, i, j);
    var k := Position(n, r, i, j);
    assert Schedule(n)[k].matchday == md;
  }

  // ---------------------------------------------------------------------------
  // Every pair meets once per round when the roster is even

  /** The day and slot of round 1 at which two distinct positions meet. */
  lemma DayOfPair(n: nat, x: nat, y: nat) returns (i: nat, j: nat)
    requires 2 <= n && n % 2 == 0 && x < n && y < n && x != y
    ensures i < n - 1 && j < n / 2 && Meets(Slot(n, 1, i, j), x, y)
  {
    var m := n - 1;
    if x == m {
      i, j := y, 0;
      HomeAwayValues(n, i, j);
    } else if y == m {
      i, j := x, 0;
      HomeAwayValues(n, i, j);
    } else {
      i, j := InnerPairDay(n, x, y);
    }
  }

  /** Two distinct positions below the pivot meet in round 1 on the day and
      in the slot that their difference (modulo n - 1) picks out. */
  lemma InnerPairDay(n: nat, x: nat, y: nat) returns (i: nat, j: nat)
    requires 2 <= n && n % 2 == 0 && x < n - 1 && y < n - 1 && x != y
    ensures i < n - 1 && j < n / 2 && Meets(Slot(n, 1, i, j), x, y)
  {
    var m := n - 1;
    var d := if x > y then x - y else x - y + m;
    if d % 2 == 0 {
      i, j := EvenGapDay(n, x, y, d);
    } else {
      i, j := EvenGapDay(n, y, x, m - d);
    }
  }

  /** When x lies d places after y (modulo n - 1) with d even, x plays at
      home against y in slot d / 2. */
  lemma EvenGapDay(n: nat, x: nat, y: nat, d: nat) returns (i: nat, j: nat)
    requires 2 <= n && n % 2 == 0 && x < n - 1 && y < n - 1 && x != y
    requires 0 < d < n - 1 && d % 2 == 0
    requires d == (if x > y then x - y else x - y + (n - 1))
    ensures i < n - 1 && j < n / 2 && Meets(Slot(n, 1, i, j), x, y)
  {
    var m := n - 1;
    j := d / 2;
    assert d == 2 * j && 0 < j < n / 2;
    i := if x >= j then x - j else x - j + m;
    HomeAwayValues(n, i, j);
    assert Home(n, i, j) == x;
    assert Away(n, i, j) == y;
  }

  /** In an even roster a pair of positions fixes its day and slot. */
  lemma SlotDeterminedByPair(n: nat, i1: nat, j1: nat, i2: nat, j2: nat)
    requires 2 <= n && n % 2 == 0
    requires i1 < n - 1 && j1 < n / 2 && i2 < n - 1 && j2 < n / 2
    requires Meets(Slot(n, 1, i2, j2), Home(n, i1, j1), Away(n, i1, j1))
    ensures i1 == i2 && j1 == j2
  {
    HomeAwayValues(n, i1, j1);
    HomeAwayValues(n, i2, j2);
  }

  /** Even roster: every two distinct positions meet in round 1 ... */
  lemma EvenRoundCoversEveryPair(n: nat, x: nat, y: nat) returns (k: nat)
    requires 2 <= n && n % 2 == 0 && x < n && y < n && x != y
    ensures k < FixturesPerRound(n) && Meets(Schedule(n)[k], x, y)
  {
    var i, j := DayOfPair(n, x, y);
    PositionIsSlot(n, 1, i, j);
    k := Position(n, 1, i, j);
    Arith.MulMonotone(i + 1, n - 1, n / 2);
    Arith.Distribute(i, 1, n / 2);
  }

  /** ... and only once. */
  lemma EvenRoundMeetsOnce(n: nat, x: nat, y: nat, k1: nat, k2: nat)
    requires 2 <= n && n % 2 == 0
    requires k1 < FixturesPerRound(n) && k2 < FixturesPerRound(n)
    requires Meets(Schedule(n)[k1], x, y) && Meets(Schedule(n)[k2], x, y)
    ensures k1 == k2
  {
    var r1, i1, j1 := EntryIsSlot(n, k1);
    var r2, i2, j2 := EntryIsSlot(n, k2);
    SlotDeterminedByPair(n, i1, j1, i2, j2);
  }

  /** Even roster, the whole output: each pair of distinct positions meets in
      exactly one fixture of round 1, and in round 2 exactly in its mirror. */
  lemma EvenDoubleRoundRobin(n: nat, x: nat, y: nat) returns (k: nat)
    requires 2 <= n && n % 2 == 0 && x < n && y < n && x != y
    ensures k < FixturesPerRound(n) && Meets(Schedule(n)[k], x, y)
    ensures forall k' :: 0 <= k' < |Schedule(n)| && Meets(Schedule(n)[k'], x, y) ==>
              k' == k || k' == k + FixturesPerRound(n)
    ensures Schedule(n)[k + FixturesPerRound(n)].home == Schedule(n)[k].away
    ensures Schedule(n)[k + FixturesPerRound(n)].away == Schedule(n)[k].home
  {
    k := EvenRoundCoversEveryPair(n, x, y);
    SecondRoundMirrorsFirst(n, k);
    forall k' | 0 <= k' < |Schedule(n)| && Meets(Schedule(n)[k'], x, y)
      ensures k' == k || k' == k + FixturesPerRound(n)
    {
      var f := FixturesPerRound(n);
      if k' < f {
        EvenRoundMeetsOnce(n, x, y, k, k');
      } else {
        SecondRoundMirrorsFirst(n, k' - f);
        EvenRoundMeetsOnce(n, x, y, k, k' - f);
      }
    }
  }

  // ---------------------------------------------------------------------------
  // Odd rosters: no bye, so some pairs never meet

  /** With an odd roster, two positions below n - 1 whose difference is odd
      never meet, in either round: the circle is never padded with a bye. */
  lemma OddRosterSkipsOddDifferences(n: nat, x: nat, y: nat, k: nat)
    requires 3 <= n && n % 2 == 1 && x < n - 1 && y < n - 1 && (x - y) % 2 == 1
    requires k < |Schedule(n)|
    ensures !Meets(Schedule(n)[k], x, y)
  {
    var r, i, j := EntryIsSlot(n, k);
    HomeAwayValues(n, i, j);
  }

  /** Three teams: the first two never play each other; only four fixtures. */
  lemma ThreeTeamsNeverPairFirstTwo()
    ensures |Schedule(3)| == 4
    ensures forall k :: 0 <= k < |Schedule(3)| ==> !Meets(Schedule(3)[k], 0, 1)
  {
    forall k | 0 <= k < |Schedule(3)|
      ensures !Meets(Schedule(3)[k], 0, 1)
    {
      OddRosterSkipsOddDifferences(3, 0, 1, k);
    }
  }
}
