/**
 * The retention engine on the concrete inputs its test suite uses: fixed timestamps in seconds
 * since the epoch, the snapshot sets of each test, and what each operation must return or leave.
 */
module Scenarios {
  import opened Wrappers
  import opened Sequences
  import opened Resources
  import opened Durations
  import opened Retention
  import opened Selection
  import opened Expiration

  const Hour: int := 3600

  /** A v1alpha1 snapshot with the given identity, age, owning-schedule label and source claim. */
  function Snap(namespace: string, name: string, created: int, schedule: string, pvc: string): (r: MultiversionSnapshot)
    ensures r.Version() == V1Alpha1 && r.Meta().namespace == namespace && r.Key() == ObjectKey(namespace, name)
    ensures r.CreationTime() == created && r.ScheduleLabel() == Some(schedule)
    ensures r.SourceVolume() == if pvc == "" then None else Some(pvc)
  {
    var labels := map["foo" := "bar", ScheduleKey := schedule];
    var source := if pvc == "" then None else Some(TypedLocalObjectReference("PersistentVolumeClaim", pvc));
    WrapSnapshotAlpha(VolumeSnapshotAlpha(ObjectMeta(name, namespace, created, labels), source))
  }

  /** A v1alpha1 snapshot with only a creation time, as the filter and sort tests build them. */
  function Aged(created: int): MultiversionSnapshot
  {
    WrapSnapshotAlpha(VolumeSnapshotAlpha(ObjectMeta("", "", created, map[]), None))
  }

  function Schedule(name: string, namespace: string, expires: string, maxCount: Option<nat>): SnapshotSchedule
  {
    SnapshotSchedule(name, namespace, Retention(expires, maxCount))
  }

  const AlphaOnly := Capabilities(true, false)

  /** No `expires` gives no cutoff; "garbage" and "-10s" are errors; "1h" puts the cutoff an hour back. */
  lemma ExpirationTimes(now: int)
    ensures GetExpirationTime(Schedule("", "", "", None), now) == Ok(None)
    ensures GetExpirationTime(Schedule("", "", "garbage", None), now) == Err(UnparsableDuration("garbage"))
    ensures GetExpirationTime(Schedule("", "", "-10s", None), now) == Err(NonPositiveDuration(-10))
    ensures GetExpirationTime(Schedule("", "", "1h", None), 1359716645) == Ok(Some(1359716645 - Hour))
  {
    NegativeTenSeconds();
    OneHour();
  }

  /** "-10s" is ten seconds back. */
  lemma NegativeTenSeconds()
    ensures ParseDuration("-10s") == Some(-10)
  {
    assert DigitsValue("10") == 10 by {
      assert "10"[..1] == "1";
    }
    assert "-10s"[1..] == "10s";
    assert "10s"[..2] == "10";
  }

  /** "1h" is an hour. */
  lemma OneHour()
    ensures ParseDuration("1h") == Some(Hour)
  {
    assert "1h"[..1] == "1";
    assert "1"[..0] == [];
    assert DigitsValue("1") == 1;
  }

  /** Of five snapshots, the two created before 2000-01-01T00:00:00Z have expired. */
  lemma FilterFive()
    ensures var out := FilterExpiredSnaps(Slice([Aged(631152000), Aged(1265797805), Aged(946684740),
                                                  Aged(978307200), Aged(1104537600)]), 946684800);
            out.Slice? && out.items == [Aged(631152000), Aged(946684740)]
  {
    var items := [Aged(631152000), Aged(1265797805), Aged(946684740), Aged(978307200), Aged(1104537600)];
    FirstAndThird(CreatedBefore(946684800), items);
    assert FilterExpiredSnaps(Slice(items), 946684800) == Slice(Filter(CreatedBefore(946684800), items));
  }

  /** When of at least three snapshots only the first and third pass, filtering keeps those two. */
  lemma {:induction false} FirstAndThird(p: MultiversionSnapshot -> bool, items: seq<MultiversionSnapshot>)
    requires |items| >= 3 && p(items[0]) && !p(items[1]) && p(items[2])
    requires forall i :: 3 <= i < |items| ==> !p(items[i])
    ensures Filter(p, items) == [items[0], items[2]]
  {
    assert forall x :: x in items[3..] ==> !p(x);
    FilterNone(p, items[3..]);
    assert items[2..] == [items[2]] + items[3..];
    FilterCons(p, items[2], items[3..]);
    assert items[1..] == [items[1]] + items[2..];
    FilterCons(p, items[1], items[2..]);
    assert items == [items[0]] + items[1..];
    FilterCons(p, items[0], items[1..]);
  }

  /**
   * A schedule with an invalid name lists nothing and fails; schedule "s1" in the empty (every
   * namespace) scope owns "foo" and "bar" but not "baz", which belongs to "s2".
   */
  lemma SelectOwned()
    ensures SnapshotsFromSchedule(Schedule("%%!! Invalid !!%%", "", "", None), AlphaOnly, SelectionStore()).Err?
    ensures SnapshotsFromSchedule(Schedule("s1", "", "", None), AlphaOnly, SelectionStore())
         == Ok([Snap("default", "foo", 0, "s1", ""), Snap("default", "bar", 0, "s1", "")])
  {
    assert !IsAlphaNumeric("%%!! Invalid !!%%"[0]);
    assert ValidLabelValue("s1") by {
      forall i | 0 <= i < |"s1"| ensures IsAlphaNumeric("s1"[i]) || "s1"[i] in "-_." {
        assert i == 0 || i == 1;
      }
    }
    var store := SelectionStore();
    var owned := ListedAs(Schedule("s1", "", "", None), V1Alpha1);
    assert Filter(owned, store[2..]) == [] by {
      assert !owned(store[2]);
      assert store[2..][1..] == [];
    }
    assert Filter(owned, store[1..]) == [store[1]] by {
      assert owned(store[1]);
      assert store[1..][1..] == store[2..];
    }
    assert Filter(owned, store) == [store[0], store[1]];
    var schedule := Schedule("s1", "", "", None);
    assert ListVersion(schedule, AlphaOnly, V1Alpha1, store) == [store[0], store[1]];
    assert ListVersion(schedule, AlphaOnly, V1Beta1, store) == [];
    assert [store[0], store[1]] + [] == [store[0], store[1]];
  }

  function SelectionStore(): seq<MultiversionSnapshot>
  {
    [Snap("default", "foo", 0, "s1", ""), Snap("default", "bar", 0, "s1", ""), Snap("default", "baz", 0, "s2", "")]
  }

  /** The grouping test's snapshots: five with a source volume and one without. */
  function GroupingStore(): seq<MultiversionSnapshot>
  {
    [Snap("", "snap1-1", 0, "", "pvc1"), Snap("", "snap2-1", 0, "", "pvc2"),
     Snap("", "snap1-2", 0, "", "pvc1"), Snap("", "snap2-2", 0, "", "pvc2"),
     Snap("", "snap3-blah", 0, "", "pvc3"), Snap("", "i-have-nil-source", 0, "", "")]
  }

  /** The grouping test's snapshots form three groups, "snapN-…" under "pvcN", five in all. */
  lemma GroupThree(snaps: seq<MultiversionSnapshot>)
    requires snaps == GroupingStore()
    ensures var groups := GroupSnapsByPvc(snaps);
            && groups.Keys == {"pvc1", "pvc2", "pvc3"}
            && groups["pvc1"] == [Snap("", "snap1-1", 0, "", "pvc1"), Snap("", "snap1-2", 0, "", "pvc1")]
            && groups["pvc2"] == [Snap("", "snap2-1", 0, "", "pvc2"), Snap("", "snap2-2", 0, "", "pvc2")]
            && groups["pvc3"] == [Snap("", "snap3-blah", 0, "", "pvc3")]
  {
    assert Sources(snaps) == {"pvc1", "pvc2", "pvc3"} by {
      assert snaps[0].SourceVolume().value == "pvc1";
      assert snaps[1].SourceVolume().value == "pvc2";
      assert snaps[4].SourceVolume().value == "pvc3";
    }
    GroupOne(snaps);
    GroupTwo(snaps);
    GroupThreeOnly(snaps);
  }

  /** The grouping test's "pvc1" group: the first and third snapshots. */
  lemma GroupOne(snaps: seq<MultiversionSnapshot>)
    requires snaps == GroupingStore()
    ensures Filter(HasSource("pvc1"), snaps) == [snaps[0], snaps[2]]
  {
    var p := HasSource("pvc1");
    FilterSteps(p, snaps);
    assert Pick(p, snaps[0]) == [snaps[0]];
    assert Pick(p, snaps[1]) == [];
    assert Pick(p, snaps[2]) == [snaps[2]];
    assert Pick(p, snaps[3]) == [];
    assert Pick(p, snaps[4]) == [];
    assert Pick(p, snaps[5]) == [];
  }

  /** The grouping test's "pvc2" group: the second and fourth snapshots. */
  lemma GroupTwo(snaps: seq<MultiversionSnapshot>)
    requires snaps == GroupingStore()
    ensures Filter(HasSource("pvc2"), snaps) == [snaps[1], snaps[3]]
  {
    var p := HasSource("pvc2");
    FilterSteps(p, snaps);
    assert Pick(p, snaps[0]) == [];
    assert Pick(p, snaps[1]) == [snaps[1]];
    assert Pick(p, snaps[2]) == [];
    assert Pick(p, snaps[3]) == [snaps[3]];
    assert Pick(p, snaps[4]) == [];
    assert Pick(p, snaps[5]) == [];
  }

  /** The grouping test's "pvc3" group: the fifth snapshot. */
  lemma GroupThreeOnly(snaps: seq<MultiversionSnapshot>)
    requires snaps == GroupingStore()
    ensures Filter(HasSource("pvc3"), snaps) == [snaps[4]]
  {
    var p := HasSource("pvc3");
    FilterSteps(p, snaps);
    assert Pick(p, snaps[0]) == [];
    assert Pick(p, snaps[1]) == [];
    assert Pick(p, snaps[2]) == [];
    assert Pick(p, snaps[3]) == [];
    assert Pick(p, snaps[4]) == [snaps[4]];
    assert Pick(p, snaps[5]) == [];
  }

  /**
   * The age test's store: every combination of namespace "same" or "different", owning schedule
   * "schedule" or "different", and an age of one or 48 hours.
   */
  function TimeStore(now: int): seq<MultiversionSnapshot>
  {
    [Snap("same", "same-schedule-1h", now - 1 * Hour, "schedule", ""),
     Snap("different", "different-schedule-1h", now - 1 * Hour, "schedule", ""),
     Snap("same", "same-schedule-48h", now - 48 * Hour, "schedule", ""),
     Snap("different", "different-schedule-48h", now - 48 * Hour, "schedule", ""),
     Snap("same", "same-different-1h", now - 1 * Hour, "different", ""),
     Snap("different", "different-different-1h", now - 1 * Hour, "different", ""),
     Snap("same", "same-different-48h", now - 48 * Hour, "different", ""),
     Snap("different", "different-different-48h", now - 48 * Hour, "different", "")]
  }

  /**
   * Without `expires` age retention picks nothing. With "24h" the schedule "schedule" of namespace
   * "same" picks exactly its one snapshot older than a day, and removing it leaves the other seven.
   */
  lemma ExpireByTimeScenario(now: int, stored: seq<MultiversionSnapshot>)
    requires stored == TimeStore(now)
    ensures TimeCandidates(Schedule("schedule", "same", "", None), now, AlphaOnly, stored) == Ok([])
    ensures TimeCandidates(Schedule("schedule", "same", "24h", None), now, AlphaOnly, stored) == Ok([stored[2]])
    ensures RemoveKeys(stored, {stored[2].Key()}) == stored[..2] + stored[3..]
  {
    TimeListing(now, stored, "24h");
    DayOldGoes(now, stored);
    TimeKeysDistinct(now, stored);
    RemoveOne(stored, 2);
  }

  /** Of two owned snapshots, one an hour old and one two days old, a one-day limit picks the older. */
  lemma DayOldGoes(now: int, stored: seq<MultiversionSnapshot>)
    requires |stored| >= 3
    requires SnapshotsFromSchedule(Schedule("schedule", "same", "24h", None), AlphaOnly, stored) == Ok([stored[0], stored[2]])
    requires stored[0].CreationTime() == now - Hour && stored[2].CreationTime() == now - 48 * Hour
    ensures TimeCandidates(Schedule("schedule", "same", "24h", None), now, AlphaOnly, stored) == Ok([stored[2]])
  {
    var schedule := Schedule("schedule", "same", "24h", None);
    OneDay();
    assert GetExpirationTime(schedule, now) == Ok(Some(now - 24 * Hour));
    var owned := [stored[0], stored[2]];
    var expired := CreatedBefore(now - 24 * Hour);
    assert owned[1..] == [stored[2]] && owned[1..][1..] == [];
    assert Filter(expired, owned) == [stored[2]];
    assert FilterExpiredSnaps(Slice(owned), now - 24 * Hour).items == [stored[2]];
  }

  /**
   * The age test run on one cluster: without `expires` nothing goes and all eight snapshots
   * remain; with "24h" the call succeeds and seven remain.
   */
  method ExpireByTimeRun(now: int) returns (first: Option<Error>, second: Option<Error>, afterFirst: nat, afterSecond: nat)
    ensures first.None? && second.None?
    ensures afterFirst == 8 && afterSecond == 7
  {
    var stored := AgeTestStore(now);
    ghost var none: set<ObjectKey> := {};
    assert KeysOf([]) == none && none - {} == none && none * {} == {};
    RemoveKeysNone(stored);
    var c := new Cluster(stored, {});
    first := c.ExpireByTime(Schedule("schedule", "same", "", None), now, AlphaOnly);
    assert c.refused == {};
    assert first.None?;
    assert c.snapshots == stored;
    afterFirst := |c.snapshots|;
    second, afterSecond := TimeTestPrune(c, Schedule("schedule", "same", "24h", None), now, stored[2]);
  }

  /** The age test's second call, with a one-day limit, on the cluster still holding its store. */
  method TimeTestPrune(c: Cluster, dayExpiry: SnapshotSchedule, now: int, x: MultiversionSnapshot)
    returns (err: Option<Error>, remaining: nat)
    requires c.Valid() && c.refused == {}
    requires TimeCandidates(dayExpiry, now, AlphaOnly, c.snapshots) == Ok([x])
    requires |RemoveKeys(c.snapshots, {x.Key()})| == 7
    modifies c
    ensures err.None? && remaining == 7
  {
    KeysOfOne(x);
    assert {x.Key()} - c.refused == {x.Key()} && {x.Key()} * c.refused == {};
    err := c.ExpireByTime(dayExpiry, now, AlphaOnly);
    remaining := |c.snapshots|;
  }

  /** The age test's store, with what its two runs on one cluster rely on. */
  method AgeTestStore(now: int) returns (stored: seq<MultiversionSnapshot>)
    ensures |stored| == 8 && UniqueKeys(stored)
    ensures TimeCandidates(Schedule("schedule", "same", "", None), now, AlphaOnly, stored) == Ok([])
    ensures TimeCandidates(Schedule("schedule", "same", "24h", None), now, AlphaOnly, stored) == Ok([stored[2]])
    ensures |RemoveKeys(stored, {stored[2].Key()})| == 7
  {
    stored := TimeStore(now);
    TimeStoreUnique(now, stored);
    ExpireByTimeScenario(now, stored);
  }

  /** The age test's eight snapshots have distinct identities. */
  lemma TimeStoreUnique(now: int, stored: seq<MultiversionSnapshot>)
    requires stored == TimeStore(now)
    ensures UniqueKeys(stored)
  {
    forall i, j | 0 <= i < j < |stored| ensures stored[i].Key() != stored[j].Key() {
      assert i in {0, 1, 2, 3, 4, 5, 6} && j in {1, 2, 3, 4, 5, 6, 7};
    }
    DistinctKeysUnique(stored);
  }

  /** No other snapshot of the age test's store shares the identity of the one that expires. */
  lemma TimeKeysDistinct(now: int, stored: seq<MultiversionSnapshot>)
    requires stored == TimeStore(now)
    ensures forall i :: 0 <= i < |stored| && i != 2 ==> stored[i].Key() != stored[2].Key()
  {
    forall i | 0 <= i < |stored| && i != 2 ensures stored[i].Key() != stored[2].Key() {
      assert i in {0, 1, 3, 4, 5, 6, 7};
    }
  }

  /** "24h" is a day in seconds. */
  lemma OneDay()
    ensures ParseDuration("24h") == Some(24 * Hour)
  {
    assert "24h"[..2] == "24";
    assert DigitsValue("24") == 24 by {
      assert "24"[..1] == "2";
      assert "2"[..0] == [];
    }
  }

  /** "schedule" is a valid label value. */
  lemma ScheduleNameValid()
    ensures ValidLabelValue("schedule")
  {
    forall i | 0 <= i < |"schedule"| ensures IsAlphaNumeric("schedule"[i]) || "schedule"[i] in "-_." {
      assert i in {0, 1, 2, 3, 4, 5, 6, 7};
    }
  }

  /** Of the age test's store, the schedule "schedule" of namespace "same" owns the first and third. */
  lemma TimeListing(now: int, stored: seq<MultiversionSnapshot>, expires: string)
    requires stored == TimeStore(now)
    ensures SnapshotsFromSchedule(Schedule("schedule", "same", expires, None), AlphaOnly, stored) == Ok([stored[0], stored[2]])
  {
    var schedule := Schedule("schedule", "same", expires, None);
    ScheduleNameValid();
    var listed := ListedAs(schedule, V1Alpha1);
    assert listed(stored[0]) && !listed(stored[1]) && listed(stored[2]);
    assert !listed(stored[3]) && !listed(stored[4]) && !listed(stored[5]);
    assert !listed(stored[6]) && !listed(stored[7]);
    assert forall i :: 3 <= i < |stored| ==> !listed(stored[i]) by {
      forall i | 3 <= i < |stored| ensures !listed(stored[i]) {
        assert i in {3, 4, 5, 6, 7};
      }
    }
    FirstAndThird(listed, stored);
    assert Filter(listed, stored) == [stored[0], stored[2]];
    assert ListVersion(schedule, AlphaOnly, V1Beta1, stored) == [];
    assert [stored[0], stored[2]] + [] == [stored[0], stored[2]];
  }

  /**
   * The count test's store: four snapshots of "pvc1" owned by "schedule" in namespace "same", one
   * of "pvc1" in another namespace, one of another volume, and one owned by another schedule.
   */
  function CountStore(now: int): seq<MultiversionSnapshot>
  {
    [Snap("same", "same-schedule-1h", now - 1 * Hour, "schedule", "pvc1"),
     Snap("same", "same-schedule-12h", now - 12 * Hour, "schedule", "pvc1"),
     Snap("same", "same-schedule-24h", now - 24 * Hour, "schedule", "pvc1"),
     Snap("same", "same-schedule-48h", now - 48 * Hour, "schedule", "pvc1"),
     Snap("different", "different-schedule-48h", now - 48 * Hour, "schedule", "pvc1"),
     Snap("same", "same-schedule-2h", now - 2 * Hour, "schedule", "different"),
     Snap("same", "same-different-1h", now - 1 * Hour, "different", "pvc1")]
  }

  /**
   * With a count of three the schedule "schedule" picks only the oldest of its four "pvc1" snapshots, and removing it leaves six.
   */
  lemma ExpireByCountScenario(now: int, stored: seq<MultiversionSnapshot>)
    requires stored == CountStore(now)
    ensures CountCandidateKeys(Schedule("schedule", "same", "", Some(3)), AlphaOnly, stored) == Ok({stored[3].Key()})
    ensures |RemoveKeys(stored, {stored[3].Key()})| == 6
  {
    CountPicksOldest(now, stored);
    CountKeysDistinct(now, stored);
    RemoveOne(stored, 3);
  }

  /** The count test's schedule, with a count of three, picks the oldest "pvc1" snapshot it owns. */
  lemma CountPicksOldest(now: int, stored: seq<MultiversionSnapshot>)
    requires stored == CountStore(now)
    ensures CountCandidateKeys(Schedule("schedule", "same", "", Some(3)), AlphaOnly, stored) == Ok({stored[3].Key()})
  {
    var listed := [stored[0], stored[1], stored[2], stored[3], stored[5]];
    CountListing(now, stored, Some(3));
    var groups := GroupSnapsByPvc(listed);
    CountGroups(now, stored, listed);
    CountAges(now, stored);
    OldestGoes(groups["pvc1"], stored[3], 3);
    TwoGroups(groups, "pvc1", "different", stored[3]);
  }

  /** Of the count test's store, the schedule "schedule" of namespace "same" owns all but the fifth and seventh. */
  lemma CountListing(now: int, stored: seq<MultiversionSnapshot>, maxCount: Option<nat>)
    requires stored == CountStore(now)
    ensures SnapshotsFromSchedule(Schedule("schedule", "same", "", maxCount), AlphaOnly, stored)
         == Ok([stored[0], stored[1], stored[2], stored[3], stored[5]])
  {
    var schedule := Schedule("schedule", "same", "", maxCount);
    ScheduleNameValid();
    var owned := ListedAs(schedule, V1Alpha1);
    FilterSteps(owned, stored);
    assert Pick(owned, stored[0]) == [stored[0]];
    assert Pick(owned, stored[1]) == [stored[1]];
    assert Pick(owned, stored[2]) == [stored[2]];
    assert Pick(owned, stored[3]) == [stored[3]];
    assert Pick(owned, stored[4]) == [];
    assert Pick(owned, stored[5]) == [stored[5]];
    assert Pick(owned, stored[6]) == [];
    assert Filter(owned, stored) == [stored[0], stored[1], stored[2], stored[3], stored[5]];
    assert ListVersion(schedule, AlphaOnly, V1Beta1, stored) == [];
    assert [stored[0], stored[1], stored[2], stored[3], stored[5]] + [] == [stored[0], stored[1], stored[2], stored[3], stored[5]];
  }

  /** The count test's owned snapshots form a group of four for "pvc1" and a group of one for "different". */
  lemma CountGroups(now: int, stored: seq<MultiversionSnapshot>, listed: seq<MultiversionSnapshot>)
    requires stored == CountStore(now)
    requires listed == [stored[0], stored[1], stored[2], stored[3], stored[5]]
    ensures GroupSnapsByPvc(listed).Keys == {"pvc1", "different"}
    ensures GroupSnapsByPvc(listed)["pvc1"] == [stored[0], stored[1], stored[2], stored[3]]
    ensures GroupSnapsByPvc(listed)["different"] == [stored[5]]
  {
    assert Sources(listed) == {"pvc1", "different"} by {
      assert listed[0].SourceVolume().value == "pvc1";
      assert listed[4].SourceVolume().value == "different";
    }
    assert forall i :: 0 <= i < 4 ==> listed[i].SourceVolume() == Some("pvc1");
    assert listed[4].SourceVolume() == Some("different");
    CountGroupFirst(listed);
    CountGroupSecond(listed);
    assert listed[..4] == [stored[0], stored[1], stored[2], stored[3]];
  }

  /** Of the owned snapshots of the count test, the first four come from "pvc1". */
  lemma CountGroupFirst(listed: seq<MultiversionSnapshot>)
    requires |listed| == 5
    requires forall i :: 0 <= i < 4 ==> listed[i].SourceVolume() == Some("pvc1")
    requires listed[4].SourceVolume() == Some("different")
    ensures Filter(HasSource("pvc1"), listed) == listed[..4]
  {
    var p := HasSource("pvc1");
    assert forall x :: x in listed[..4] ==> p(x);
    FilterAll(p, listed[..4]);
    assert !p(listed[4]) && [listed[4]][1..] == [];
    assert listed == listed[..4] + [listed[4]];
    FilterAppend(p, listed[..4], [listed[4]]);
  }

  /** Of the owned snapshots of the count test, the last alone comes from "different". */
  lemma CountGroupSecond(listed: seq<MultiversionSnapshot>)
    requires |listed| == 5
    requires forall i :: 0 <= i < 4 ==> listed[i].SourceVolume() == Some("pvc1")
    requires listed[4].SourceVolume() == Some("different")
    ensures Filter(HasSource("different"), listed) == [listed[4]]
  {
    var p := HasSource("different");
    FilterSteps(p, listed);
    assert Pick(p, listed[0]) == [];
    assert Pick(p, listed[1]) == [];
    assert Pick(p, listed[2]) == [];
    assert Pick(p, listed[3]) == [];
    assert Pick(p, listed[4]) == [listed[4]];
  }

  /** Two groups, the first with one snapshot in excess and the second with none, give up that one. */
  lemma TwoGroups(groups: map<string, seq<MultiversionSnapshot>>, over: string, within: string, x: MultiversionSnapshot)
    requires groups.Keys == {over, within}
    requires Excess(groups[over], 3) == [x]
    requires |groups[within]| <= 3
    ensures CountKeys(groups, groups.Keys, 3) == {x.Key()}
  {
    forall q | q in groups && q != over ensures Excess(groups[q], 3) == [] {
      assert q in {over, within};
      ExcessWithinCount(groups[within], 3);
    }
    OneGroupExceeds(groups, over, 3);
    KeysOfOne(x);
  }

  /**
   * A group one larger than the count whose oldest member `x` is strictly older than all the
   * others gives up `x` alone.
   */
  lemma OldestGoes(group: seq<MultiversionSnapshot>, x: MultiversionSnapshot, maxCount: nat)
    requires |group| == maxCount + 1 && x in group
    requires forall y :: y in group && y != x ==> x.CreationTime() < y.CreationTime()
    ensures Excess(group, maxCount) == [x]
  {
    var sorted := SortSnapsByTime(Slice(group)).Elements();
    assert |sorted| == maxCount + 1;
    assert x in multiset(group);
    assert x in sorted;
    var j :| 0 <= j < |sorted| && sorted[j] == x;
    assert sorted[0] in multiset(group);
    if j > 0 {
      assert sorted[0].CreationTime() <= sorted[j].CreationTime();
    }
    assert sorted[0] == x;
    assert Excess(group, maxCount) == sorted[..1];
  }

  /** The fourth snapshot of the count test's store is the oldest of the first four. */
  lemma CountAges(now: int, stored: seq<MultiversionSnapshot>)
    requires stored == CountStore(now)
    ensures forall y :: y in [stored[0], stored[1], stored[2], stored[3]] && y != stored[3] ==>
              stored[3].CreationTime() < y.CreationTime()
  {
  }

  /**
   * The count test run on one cluster: without `maxCount` nothing goes and all seven snapshots
   * remain; with a count of three the call succeeds and six remain.
   */
  method ExpireByCountRun(now: int) returns (first: Option<Error>, second: Option<Error>, afterFirst: nat, afterSecond: nat)
    ensures first.None? && second.None?
    ensures afterFirst == 7 && afterSecond == 6
  {
    var stored := CountTestStore(now);
    ghost var none: set<ObjectKey> := {};
    assert none - {} == none && none * {} == {};
    RemoveKeysNone(stored);
    var c := new Cluster(stored, {});
    first := c.ExpireByCount(Schedule("schedule", "same", "", None), AlphaOnly);
    assert c.refused == {};
    assert first.None?;
    assert c.snapshots == stored;
    afterFirst := |c.snapshots|;
    second, afterSecond := CountTestPrune(c, Schedule("schedule", "same", "", Some(3)), {stored[3].Key()});
  }

  /** The count test's second call, with a count of three, on the cluster still holding its store. */
  method CountTestPrune(c: Cluster, keepThree: SnapshotSchedule, ghost gone: set<ObjectKey>) returns (err: Option<Error>, remaining: nat)
    requires c.Valid() && c.refused == {}
    requires CountCandidateKeys(keepThree, AlphaOnly, c.snapshots) == Ok(gone)
    requires |RemoveKeys(c.snapshots, gone)| == 6
    modifies c
    ensures err.None? && remaining == 6
  {
    assert gone - c.refused == gone && gone * c.refused == {};
    err := c.ExpireByCount(keepThree, AlphaOnly);
    remaining := |c.snapshots|;
  }

  /** The count test's store, with what its two runs on one cluster rely on. */
  method CountTestStore(now: int) returns (stored: seq<MultiversionSnapshot>)
    ensures |stored| == 7 && UniqueKeys(stored)
    ensures CountCandidateKeys(Schedule("schedule", "same", "", Some(3)), AlphaOnly, stored) == Ok({stored[3].Key()})
    ensures |RemoveKeys(stored, {stored[3].Key()})| == 6
  {
    stored := CountStore(now);
    CountStoreUnique(now, stored);
    ExpireByCountScenario(now, stored);
  }

  /** The count test's seven snapshots have distinct identities. */
  lemma CountStoreUnique(now: int, stored: seq<MultiversionSnapshot>)
    requires stored == CountStore(now)
    ensures UniqueKeys(stored)
  {
    forall i, j | 0 <= i < j < |stored| ensures stored[i].Key() != stored[j].Key() {
      assert i in {0, 1, 2, 3, 4, 5} && j in {1, 2, 3, 4, 5, 6};
    }
    DistinctKeysUnique(stored);
  }

  /** No other snapshot of the count test's store shares the identity of the one that goes. */
  lemma CountKeysDistinct(now: int, stored: seq<MultiversionSnapshot>)
    requires stored == CountStore(now)
    ensures forall i :: 0 <= i < |stored| && i != 3 ==> stored[i].Key() != stored[3].Key()
  {
    forall i | 0 <= i < |stored| && i != 3 ensures stored[i].Key() != stored[3].Key() {
      assert i in {0, 1, 2, 4, 5, 6};
    }
  }

  /**
   * The deletion test: of "foo" and "bar" in namespace "default" and "baz" and "splat" in
   * namespace "whatever", deleting "bar" and "baz" succeeds, after which "bar" is not found and
   * "splat" still is; deleting an empty batch then succeeds too.
   */
  method DeleteScenario() returns (err: Option<Error>, emptyErr: Option<Error>,
                                   barAfter: Option<MultiversionSnapshot>, splatAfter: Option<MultiversionSnapshot>)
    ensures err.None? && emptyErr.None?
    ensures barAfter.None? && splatAfter.Some? && splatAfter.value.Key() == ObjectKey("whatever", "splat")
  {
    var stored := [Snap("default", "foo", 0, "", ""), Snap("default", "bar", 0, "", ""),
                   Snap("whatever", "baz", 0, "", ""), Snap("whatever", "splat", 0, "", "")];
    DeleteStoreUnique(stored);
    var cluster := new Cluster(stored, {});
    var batch := [stored[1], stored[2]];
    var outcomes;
    outcomes, err := cluster.DeleteSnapshots(batch);
    BatchSucceedsIffNoneRefused(batch, outcomes, KeysOf(stored), {});
    DeleteBarAndBaz(stored, cluster.snapshots);
    barAfter := cluster.Get(ObjectKey("default", "bar"));
    splatAfter := cluster.Get(ObjectKey("whatever", "splat"));
    var none;
    none, emptyErr := cluster.DeleteSnapshots([]);
  }

  /** Deleting "bar" and "baz" from the deletion test's store leaves "splat" and not "bar". */
  lemma DeleteBarAndBaz(stored: seq<MultiversionSnapshot>, after: seq<MultiversionSnapshot>)
    requires stored == [Snap("default", "foo", 0, "", ""), Snap("default", "bar", 0, "", ""),
                        Snap("whatever", "baz", 0, "", ""), Snap("whatever", "splat", 0, "", "")]
    requires after == RemoveKeys(stored, KeysOf([stored[1], stored[2]]) - {})
    ensures ObjectKey("default", "bar") !in KeysOf(after)
    ensures ObjectKey("whatever", "splat") in KeysOf(after)
  {
    RemoveKeysMembers(stored, KeysOf([stored[1], stored[2]]) - {});
    assert KeysOf([stored[1], stored[2]]) == {stored[1].Key(), stored[2].Key()};
    assert stored[3] in after;
  }

  /** The deletion test's four snapshots have distinct identities. */
  lemma DeleteStoreUnique(stored: seq<MultiversionSnapshot>)
    requires stored == [Snap("default", "foo", 0, "", ""), Snap("default", "bar", 0, "", ""),
                        Snap("whatever", "baz", 0, "", ""), Snap("whatever", "splat", 0, "", "")]
    ensures UniqueKeys(stored)
  {
    DistinctFour(stored[0], stored[1], stored[2], stored[3]);
    assert stored == [stored[0], stored[1], stored[2], stored[3]];
  }

  /** Four snapshots with pairwise different identities have unique identities. */
  lemma DistinctFour(a: MultiversionSnapshot, b: MultiversionSnapshot, c: MultiversionSnapshot, d: MultiversionSnapshot)
    requires a.Key() != b.Key() && a.Key() != c.Key() && a.Key() != d.Key()
    requires b.Key() != c.Key() && b.Key() != d.Key() && c.Key() != d.Key()
    ensures UniqueKeys([a, b, c, d])
  {
    var s := [a, b, c, d];
    assert s[3..][1..] == [];
    assert s[2..][1..] == s[3..];
    assert s[1..][1..] == s[2..];
    assert KeysOf(s[3..]) == {d.Key()};
    assert KeysOf(s[2..]) == {c.Key(), d.Key()};
    assert KeysOf(s[1..]) == {b.Key(), c.Key(), d.Key()};
    assert UniqueKeys(s[3..]);
    assert UniqueKeys(s[2..]);
    assert UniqueKeys(s[1..]);
  }

  /** Filtering a list, one snapshot at a time from the front. */
  lemma FilterSteps(p: MultiversionSnapshot -> bool, s: seq<MultiversionSnapshot>)
    ensures Filter(p, s) == Filter(p, s[0..])
    ensures Filter(p, s[|s|..]) == []
    ensures forall i :: 0 <= i < |s| ==> Filter(p, s[i..]) == Pick(p, s[i]) + Filter(p, s[i + 1..])
  {
    assert s[0..] == s;
    forall i | 0 <= i < |s| ensures Filter(p, s[i..]) == Pick(p, s[i]) + Filter(p, s[i + 1..]) {
      assert s[i..][0] == s[i] && s[i..][1..] == s[i + 1..];
    }
  }

  function Pick(p: MultiversionSnapshot -> bool, x: MultiversionSnapshot): seq<MultiversionSnapshot>
  {
    if p(x) then [x] else []
  }

  /** Sorting puts the snapshot an hour back first and the one an hour ahead last; nil stays nil. */
  lemma SortThree(now: int)
    ensures SortSnapsByTime(Slice([Aged(now + Hour), Aged(now - Hour), Aged(now)])).items
         == [Aged(now - Hour), Aged(now), Aged(now + Hour)]
    ensures SortSnapsByTime(Nil) == Nil
  {
    var items := [Aged(now + Hour), Aged(now - Hour), Aged(now)];
    SortRotates(items[0], items[1], items[2]);
    assert SortSnapsByTime(Slice(items)) == Slice(SortSeq(items));
  }

  /** Three snapshots whose first is the newest and whose second is the oldest sort by rotating left. */
  lemma SortRotates(a: MultiversionSnapshot, b: MultiversionSnapshot, c: MultiversionSnapshot)
    requires b.CreationTime() < c.CreationTime() < a.CreationTime()
    ensures SortSeq([a, b, c]) == [b, c, a]
  {
    assert [c][1..] == [];
    assert SortSeq([c]) == [c];
    assert [b, c][1..] == [c];
    assert SortSeq([b, c]) == [b, c];
    assert [a, b, c][1..] == [b, c];
    assert [b, c][1..] == [c];
    assert InsertByTime(a, [c]) == [c, a];
  }
}
