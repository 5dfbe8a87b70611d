/** The public fixtures view: the stored fixtures bucketed by group id, the
    largest matchday among them, and one group's fixtures of a matchday. */
module PublicFixturesView {
  import opened TournamentTypes
  import Seqs

  /** Fixtures of the given group. */
  function InGroup(groupId: string): Fixture -> bool {
    (f: Fixture) => f.groupId == groupId
  }

  /** Fixtures of the given group on the given matchday. */
  function InGroupOn(groupId: string, matchday: int): Fixture -> bool {
    (f: Fixture) => f.groupId == groupId && f.matchday == matchday
  }

  /** The group ids the fixtures mention. */
  function GroupIds(fixtures: seq<Fixture>): set<string> {
    set k | 0 <= k < |fixtures| :: fixtures[k].groupId
  }

  /** One bucket per group id mentioned, holding that group's fixtures in
      their original order. */
  function Buckets(fixtures: seq<Fixture>): map<string, seq<Fixture>> {
    map id | id in GroupIds(fixtures) :: Seqs.Filter(fixtures, InGroup(id))
  }

  /** Adding one fixture to the visited prefix appends it to its own bucket,
      which is created empty first if it was missing. */
  lemma BucketsStep(fixtures: seq<Fixture>, i: nat)
    requires i < |fixtures|
    ensures var b := Buckets(fixtures[..i]);
            var f := fixtures[i];
            Buckets(fixtures[..i + 1]) == b[f.groupId := (if f.groupId in b then b[f.groupId] else []) + [f]]
  {
    assert fixtures[..i + 1] == fixtures[..i] + [fixtures[i]];
    BucketsAppend(fixtures[..i], fixtures[i]);
  }

  lemma BucketsAppend(a: seq<Fixture>, f: Fixture)
    ensures var b := Buckets(a);
            Buckets(a + [f]) == b[f.groupId := (if f.groupId in b then b[f.groupId] else []) + [f]]
  {
    var b := Buckets(a);
    var after := Buckets(a + [f]);
    var expected := b[f.groupId := (if f.groupId in b then b[f.groupId] else []) + [f]];
    GroupIdsAppend(a, f);
    assert after.Keys == expected.Keys;
    forall id | id in after
      ensures after[id] == expected[id]
    {
      BucketAtAppend(a, f, id);
    }
  }

  lemma BucketAtAppend(a: seq<Fixture>, f: Fixture, id: string)
    requires id in GroupIds(a + [f])
    ensures var b := Buckets(a);
            Buckets(a + [f])[id] == b[f.groupId := (if f.groupId in b then b[f.groupId] else []) + [f]][id]
  {
    BucketAppend(a, f, id);
  }

  lemma GroupIdsAppend(a: seq<Fixture>, f: Fixture)
    ensures GroupIds(a + [f]) == GroupIds(a) + {f.groupId}
  {
    forall id | id in GroupIds(a + [f])
      ensures id in GroupIds(a) + {f.groupId}
    {
      var k :| 0 <= k < |a + [f]| && (a + [f])[k].groupId == id;
      if k < |a| {
        assert a[k].groupId == id;
      }
    }
    forall id | id in GroupIds(a)
      ensures id in GroupIds(a + [f])
    {
      var k :| 0 <= k < |a| && a[k].groupId == id;
      assert (a + [f])[k] == a[k];
    }
    assert (a + [f])[|a|] == f;
  }

  lemma BucketAppend(a: seq<Fixture>, f: Fixture, id: string)
    ensures Seqs.Filter(a + [f], InGroup(id))
            == Seqs.Filter(a, InGroup(id)) + (if f.groupId == id then [f] else [])
    ensures id !in GroupIds(a) ==> Seqs.Filter(a, InGroup(id)) == []
  {
    Seqs.FilterConcat(a, [f], InGroup(id));
    assert [f][1..] == [];
    if id !in GroupIds(a) {
      forall k | 0 <= k < |a|
        ensures a[k].groupId != id
      {
        assert a[k].groupId in GroupIds(a);
      }
      Seqs.FilterWindow(a, InGroup(id), 0, 0);
    }
  }

  /** `allFixtures`: each fixture, in order, is pushed onto the bucket of
      its group id, the bucket being created when first needed. */
  method GroupFixtures(fixtures: seq<Fixture>) returns (byGroup: map<string, seq<Fixture>>)
    ensures byGroup == Buckets(fixtures)
  {
    byGroup := map[];
    for i := 0 to |fixtures|
      invariant byGroup == Buckets(fixtures[..i])
    {
      var fixture := fixtures[i];
      if fixture.groupId !in byGroup {
        byGroup := byGroup[fixture.groupId := []];
      }
      byGroup := byGroup[fixture.groupId := byGroup[fixture.groupId] + [fixture]];
      BucketsStep(fixtures, i);
    }
    assert fixtures[..|fixtures|] == fixtures;
  }

  /** Every fixture lands in its own group's bucket as often as it occurs in
      the input, and in no other bucket. */
  lemma BucketsPartition(fixtures: seq<Fixture>, f: Fixture, id: string)
    requires id in Buckets(fixtures)
    ensures multiset(Buckets(fixtures)[id])[f] == if f.groupId == id then multiset(fixtures)[f] else 0
    ensures f in fixtures ==> f.groupId in Buckets(fixtures)
  {
    Seqs.FilterMultiset(fixtures, InGroup(id), f);
    if f in fixtures {
      var k :| 0 <= k < |fixtures| && fixtures[k] == f;
      assert f.groupId in GroupIds(fixtures);
    }
  }

  /** The largest matchday of a list, or `start` if that is larger. */
  method MaxIn(fs: seq<Fixture>, start: int) returns (r: int)
    ensures r >= start
    ensures forall f :: f in fs ==> f.matchday <= r
    ensures r == start || exists f :: f in fs && f.matchday == r
  {
    r := start;
    for k := 0 to |fs|
      invariant r >= start
      invariant forall j :: 0 <= j < k ==> fs[j].matchday <= r
      invariant r == start || exists j :: 0 <= j < k && fs[j].matchday == r
    {
      r := if r >= fs[k].matchday then r else fs[k].matchday;
    }
  }

  /** `maxMatchdays`: starting from 0, the larger of the running value and
      each fixture's matchday, over every bucket. The result bounds every
      matchday and is one of them unless it is 0. */
  method MaxMatchday(byGroup: map<string, seq<Fixture>>) returns (r: int)
    ensures r >= 0
    ensures forall id, f :: id in byGroup && f in byGroup[id] ==> f.matchday <= r
    ensures r == 0 || exists id, f :: id in byGroup && f in byGroup[id] && f.matchday == r
  {
    r := 0;
    var todo := byGroup.Keys;
    while todo != {}
      invariant todo <= byGroup.Keys && r >= 0
      invariant forall id, f :: id in byGroup && id !in todo && f in byGroup[id] ==> f.matchday <= r
      invariant r == 0 || exists id, f :: id in byGroup && id !in todo && f in byGroup[id] && f.matchday == r
      decreases |todo|
    {
      var id :| id in todo;
      r := MaxIn(byGroup[id], r);
      todo := todo - {id};
    }
  }

  /** Every stored fixture is held by its own group's bucket, so the
      largest matchday over the buckets bounds every fixture's matchday; with
      no fixtures there are no buckets and that largest matchday is 0. */
  lemma BucketsHoldEveryFixture(fixtures: seq<Fixture>)
    ensures forall k :: 0 <= k < |fixtures| ==>
              fixtures[k].groupId in Buckets(fixtures) && fixtures[k] in Buckets(fixtures)[fixtures[k].groupId]
    ensures fixtures == [] <==> Buckets(fixtures) == map[]
  {
    forall k | 0 <= k < |fixtures|
      ensures fixtures[k].groupId in Buckets(fixtures) && fixtures[k] in Buckets(fixtures)[fixtures[k].groupId]
    {
      assert fixtures[k].groupId in GroupIds(fixtures);
    }
    if fixtures != [] {
      assert fixtures[0].groupId in GroupIds(fixtures);
    }
  }

  /** `getFixturesForMatchday`: the bucket's fixtures on that matchday, or
      none for a group without a bucket. */
  function FixturesForMatchday(byGroup: map<string, seq<Fixture>>, groupId: string, matchday: int): seq<Fixture> {
    if groupId in byGroup then Seqs.Filter(byGroup[groupId], OnMatchday(matchday)) else []
  }

  /** Over the buckets of a fixture list, the fixtures of a matchday are
      exactly the group's fixtures on that matchday, in their original
      order; a group with no fixtures gets none. */
  lemma MatchdayFixtures(fixtures: seq<Fixture>, groupId: string, matchday: int)
    ensures FixturesForMatchday(Buckets(fixtures), groupId, matchday)
            == Seqs.Filter(fixtures, InGroupOn(groupId, matchday))
  {
    if groupId in Buckets(fixtures) {
      Seqs.FilterFilter(fixtures, InGroup(groupId), OnMatchday(matchday), InGroupOn(groupId, matchday));
    } else {
      Seqs.FilterWindow(fixtures, InGroupOn(groupId, matchday), 0, 0);
    }
  }
}
