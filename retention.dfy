/**
 * The retention rules as pure functions: the age cutoff, the age filter, grouping by source
 * volume and the stable sort by creation time.
 */
module Retention {
  import opened Wrappers
  import opened Sequences
  import opened Resources
  import opened Durations

  /**
   * The cutoff for age-based retention: a snapshot created before it has expired. No `expires`
   * means no cutoff and no error. A duration that does not parse or is not positive is an error.
   */
  function GetExpirationTime(schedule: SnapshotSchedule, now: int): (r: Result<Option<int>, Error>)
    ensures r == Ok(None) <==> schedule.retention.expires == ""
    ensures r.Err? <==> schedule.retention.expires != ""
                        && (ParseDuration(schedule.retention.expires).None?
                            || ParseDuration(schedule.retention.expires).value <= 0)
    ensures r.Ok? && r.value.Some? ==>
              r.value.value < now && ParseDuration(schedule.retention.expires) == Some(now - r.value.value)
  {
    var expires := schedule.retention.expires;
    if expires == "" then Ok(None)
    else
      match ParseDuration(expires)
      case None => Err(UnparsableDuration(expires))
      case Some(lifetime) =>
        if lifetime <= 0 then Err(NonPositiveDuration(lifetime)) else Ok(Some(now - lifetime))
  }

  function CreatedBefore(threshold: int): MultiversionSnapshot -> bool
  {
    (x: MultiversionSnapshot) => x.CreationTime() < threshold
  }

  /**
   * The snapshots created strictly before `threshold`, in their input order. The result is never
   * nil, even for a nil input.
   */
  function FilterExpiredSnaps(snaps: Slice<MultiversionSnapshot>, threshold: int): (r: Slice<MultiversionSnapshot>)
    ensures r.Slice?
    ensures forall x :: x in r.items <==> x in snaps.Elements() && x.CreationTime() < threshold
    ensures forall x :: multiset(r.items)[x] == if x.CreationTime() < threshold then multiset(snaps.Elements())[x] else 0
    ensures IsSubsequence(r.items, snaps.Elements())
  {
    FilterMembers(CreatedBefore(threshold), snaps.Elements());
    FilterCounts(CreatedBefore(threshold), snaps.Elements());
    FilterIsSubsequence(CreatedBefore(threshold), snaps.Elements());
    Slice(Filter(CreatedBefore(threshold), snaps.Elements()))
  }

  function HasSource(pvc: string): MultiversionSnapshot -> bool
  {
    (x: MultiversionSnapshot) => x.SourceVolume() == Some(pvc)
  }

  function IsSourced(): MultiversionSnapshot -> bool
  {
    (x: MultiversionSnapshot) => x.SourceVolume().Some?
  }

  /** The names of the source volumes the snapshots record. */
  function Sources(snaps: seq<MultiversionSnapshot>): set<string>
  {
    set x | x in snaps && x.SourceVolume().Some? :: x.SourceVolume().value
  }

  /**
   * Groups the snapshots by source volume, keeping input order within a group. There is one group
   * per recorded source volume. A snapshot without a source is in no group.
   */
  function GroupSnapsByPvc(snaps: seq<MultiversionSnapshot>): (groups: map<string, seq<MultiversionSnapshot>>)
    ensures groups.Keys == Sources(snaps)
    ensures forall pvc :: pvc in groups ==> groups[pvc] == Filter(HasSource(pvc), snaps)
  {
    if snaps == [] then map[]
    else
      var rest := GroupSnapsByPvc(snaps[1..]);
      assert snaps == [snaps[0]] + snaps[1..];
      assert Sources(snaps) == Sources([snaps[0]]) + Sources(snaps[1..]);
      match snaps[0].SourceVolume()
      case None => rest
      case Some(pvc) =>
        assert pvc !in rest ==> Filter(HasSource(pvc), snaps[1..]) == [] by {
          if pvc !in rest {
            FilterNone(HasSource(pvc), snaps[1..]);
          }
        }
        rest[pvc := [snaps[0]] + (if pvc in rest then rest[pvc] else [])]
  }

  /** The number of snapshots over all groups. */
  ghost function TotalGrouped(groups: map<string, seq<MultiversionSnapshot>>): nat
    decreases |groups|
  {
    if groups == map[] then 0
    else
      var pvc :| pvc in groups;
      |groups[pvc]| + TotalGrouped(groups - {pvc})
  }

  /** The total can be taken apart at any group, not only at the one `TotalGrouped` picks. */
  lemma {:induction false} TotalGroupedAt(groups: map<string, seq<MultiversionSnapshot>>, pvc: string)
    requires pvc in groups
    ensures TotalGrouped(groups) == |groups[pvc]| + TotalGrouped(groups - {pvc})
    decreases |groups|
  {
    var picked :| picked in groups && TotalGrouped(groups) == |groups[picked]| + TotalGrouped(groups - {picked});
    if picked != pvc {
      var both := groups - {picked} - {pvc};
      assert groups - {picked} - {pvc} == groups - {pvc} - {picked};
      assert |groups - {picked}| < |groups|;
      assert |groups - {pvc}| < |groups|;
      TotalGroupedAt(groups - {picked}, pvc);
      TotalGroupedAt(groups - {pvc}, picked);
    }
  }

  /**
   * Grouping invents nothing: every group member is one of the snapshots and has the group's
   * source volume. It also loses nothing: every snapshot with a source is in that source's group.
   */
  lemma GroupMembership(snaps: seq<MultiversionSnapshot>)
    ensures forall pvc, x :: pvc in GroupSnapsByPvc(snaps) && x in GroupSnapsByPvc(snaps)[pvc] ==>
              x in snaps && x.SourceVolume() == Some(pvc)
    ensures forall x :: x in snaps && x.SourceVolume().Some? ==>
              x.SourceVolume().value in GroupSnapsByPvc(snaps) && x in GroupSnapsByPvc(snaps)[x.SourceVolume().value]
  {
    var groups := GroupSnapsByPvc(snaps);
    forall pvc | pvc in groups
      ensures forall x :: x in groups[pvc] <==> x in snaps && x.SourceVolume() == Some(pvc)
    {
      FilterMembers(HasSource(pvc), snaps);
    }
    forall x | x in snaps && x.SourceVolume().Some?
      ensures x.SourceVolume().value in groups
    {
      assert x.SourceVolume().value in Sources(snaps);
    }
  }

  /** Replacing one group changes the total by the difference in that group's size. */
  lemma TotalGroupedUpdate(groups: map<string, seq<MultiversionSnapshot>>, pvc: string, g: seq<MultiversionSnapshot>)
    ensures TotalGrouped(groups[pvc := g]) + (if pvc in groups then |groups[pvc]| else 0) == TotalGrouped(groups) + |g|
  {
    var updated := groups[pvc := g];
    TotalGroupedAt(updated, pvc);
    assert updated - {pvc} == groups - {pvc};
    if pvc in groups {
      TotalGroupedAt(groups, pvc);
    } else {
      assert groups - {pvc} == groups;
    }
  }

  /** The groups together hold exactly as many snapshots as record a source volume. */
  lemma {:induction false} GroupTotal(snaps: seq<MultiversionSnapshot>)
    ensures TotalGrouped(GroupSnapsByPvc(snaps)) == |Filter(IsSourced(), snaps)|
  {
    if snaps != [] {
      GroupTotal(snaps[1..]);
      GroupTotalStep(snaps);
      assert IsSourced()(snaps[0]) == snaps[0].SourceVolume().Some?;
    }
  }

  /** Grouping one more snapshot adds one to the total exactly when it records a source volume. */
  lemma GroupTotalStep(snaps: seq<MultiversionSnapshot>)
    requires snaps != []
    ensures TotalGrouped(GroupSnapsByPvc(snaps))
         == TotalGrouped(GroupSnapsByPvc(snaps[1..])) + (if snaps[0].SourceVolume().Some? then 1 else 0)
  {
    var rest := GroupSnapsByPvc(snaps[1..]);
    match snaps[0].SourceVolume()
    case None =>
      assert GroupSnapsByPvc(snaps) == rest;
    case Some(pvc) =>
      var g := [snaps[0]] + (if pvc in rest then rest[pvc] else []);
      assert GroupSnapsByPvc(snaps) == rest[pvc := g];
      TotalGroupedUpdate(rest, pvc, g);
  }

  ghost predicate SortedByTime(s: seq<MultiversionSnapshot>)
  {
    forall i, j :: 0 <= i < j < |s| ==> s[i].CreationTime() <= s[j].CreationTime()
  }

  function CreatedAt(t: int): MultiversionSnapshot -> bool
  {
    (x: MultiversionSnapshot) => x.CreationTime() == t
  }

  /** Inserts `x` before the first element that is not older than it. */
  function InsertByTime(x: MultiversionSnapshot, s: seq<MultiversionSnapshot>): (r: seq<MultiversionSnapshot>)
    ensures multiset(r) == multiset(s) + multiset{x}
    ensures |r| == |s| + 1 && (r[0] == x || (s != [] && r[0] == s[0]))
  {
    if s == [] || x.CreationTime() <= s[0].CreationTime() then [x] + s
    else
      assert s == [s[0]] + s[1..];
      [s[0]] + InsertByTime(x, s[1..])
  }

  /** Inserting into a sorted sequence keeps it sorted. */
  lemma {:induction false} InsertKeepsSorted(x: MultiversionSnapshot, s: seq<MultiversionSnapshot>)
    requires SortedByTime(s)
    ensures SortedByTime(InsertByTime(x, s))
  {
    if s != [] && x.CreationTime() > s[0].CreationTime() {
      InsertKeepsSorted(x, s[1..]);
      var rest := InsertByTime(x, s[1..]);
      assert s[0].CreationTime() <= rest[0].CreationTime();
      assert InsertByTime(x, s) == [s[0]] + rest;
    }
  }

  /** Insertion sort by creation time. */
  function SortSeq(s: seq<MultiversionSnapshot>): (r: seq<MultiversionSnapshot>)
    ensures multiset(r) == multiset(s)
    ensures SortedByTime(r)
  {
    if s == [] then []
    else
      assert s == [s[0]] + s[1..];
      InsertKeepsSorted(s[0], SortSeq(s[1..]));
      InsertByTime(s[0], SortSeq(s[1..]))
  }

  /** Inserting keeps `x` ahead of every element created at the same time. */
  lemma {:induction false} InsertKeepsTies(x: MultiversionSnapshot, s: seq<MultiversionSnapshot>, t: int)
    ensures Filter(CreatedAt(t), InsertByTime(x, s)) == Filter(CreatedAt(t), [x] + s)
  {
    if s != [] && x.CreationTime() > s[0].CreationTime() {
      var p := CreatedAt(t);
      var rest := InsertByTime(x, s[1..]);
      var tail := Filter(p, s[1..]);
      assert InsertByTime(x, s) == [s[0]] + rest;
      InsertKeepsTies(x, s[1..], t);
      FilterCons(p, s[0], rest);
      FilterCons(p, x, s[1..]);
      assert s == [s[0]] + s[1..];
      FilterCons(p, x, s);
      FilterCons(p, s[0], s[1..]);
      // At most one of x and s[0] was created at t, so their order does not matter.
      if p(x) {
        assert !p(s[0]);
        assert Filter(p, InsertByTime(x, s)) == [x] + tail;
      } else {
        assert Filter(p, InsertByTime(x, s)) == (if p(s[0]) then [s[0]] else []) + tail;
      }
    }
  }

  /** The sort is stable: snapshots created at the same time keep their input order. */
  lemma {:induction false} SortKeepsTies(s: seq<MultiversionSnapshot>, t: int)
    ensures Filter(CreatedAt(t), SortSeq(s)) == Filter(CreatedAt(t), s)
  {
    if s != [] {
      SortKeepsTies(s[1..], t);
      InsertKeepsTies(s[0], SortSeq(s[1..]), t);
      FilterCons(CreatedAt(t), s[0], SortSeq(s[1..]));
      assert s == [s[0]] + s[1..];
      FilterCons(CreatedAt(t), s[0], s[1..]);
    }
  }

  /**
   * Sorts by creation time, oldest first, stably. A nil input gives nil. Otherwise the result
   * has the same snapshots, and those created at the same moment keep their input order.
   */
  function SortSnapsByTime(snaps: Slice<MultiversionSnapshot>): (r: Slice<MultiversionSnapshot>)
    ensures r.Nil? <==> snaps.Nil?
    ensures |r.Elements()| == |snaps.Elements()|
    ensures multiset(r.Elements()) == multiset(snaps.Elements())
    ensures SortedByTime(r.Elements())
    ensures forall t :: Filter(CreatedAt(t), r.Elements()) == Filter(CreatedAt(t), snaps.Elements())
  {
    match snaps
    case Nil => Nil
    case Slice(items) =>
      var sorted := SortSeq(items);
      assert |sorted| == |multiset(sorted)| == |multiset(items)| == |items|;
      forall t ensures Filter(CreatedAt(t), sorted) == Filter(CreatedAt(t), items) {
        SortKeepsTies(items, t);
      }
      Slice(sorted)
  }
}
