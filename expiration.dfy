/**
 * The expiration engine: the cluster's snapshot store, deletion of a batch of snapshots, and the
 * two retention evaluators, by age and by count per source volume.
 */
module Expiration {
  import opened Wrappers
  import opened Sequences
  import opened Resources
  import opened Retention
  import opened Selection

  /** What one delete call reports. An object that is already gone counts as deleted. */
  datatype DeleteOutcome = Deleted | AlreadyAbsent | Failed

  function KeyNotIn(keys: set<ObjectKey>): MultiversionSnapshot -> bool
  {
    (x: MultiversionSnapshot) => x.Key() !in keys
  }

  /** The snapshots whose identity is not in `keys`, in their order. */
  function RemoveKeys(snaps: seq<MultiversionSnapshot>, keys: set<ObjectKey>): seq<MultiversionSnapshot>
  {
    Filter(KeyNotIn(keys), snaps)
  }

  /** Removal takes away exactly the snapshots with a listed identity. Unique identities stay unique. */
  lemma RemoveKeysMembers(snaps: seq<MultiversionSnapshot>, keys: set<ObjectKey>)
    ensures forall x :: x in RemoveKeys(snaps, keys) <==> x in snaps && x.Key() !in keys
    ensures KeysOf(RemoveKeys(snaps, keys)) == KeysOf(snaps) - keys
  {
    FilterMembers(KeyNotIn(keys), snaps);
  }

  lemma {:induction false} RemoveKeysUnique(snaps: seq<MultiversionSnapshot>, keys: set<ObjectKey>)
    requires UniqueKeys(snaps)
    ensures UniqueKeys(RemoveKeys(snaps, keys))
  {
    if snaps != [] {
      RemoveKeysUnique(snaps[1..], keys);
      RemoveKeysMembers(snaps[1..], keys);
      var rest := RemoveKeys(snaps[1..], keys);
      if snaps[0].Key() !in keys {
        assert RemoveKeys(snaps, keys) == [snaps[0]] + rest;
        assert ([snaps[0]] + rest)[1..] == rest;
      }
    }
  }

  /** Removing one set of identities and then another removes their union. */
  lemma RemoveKeysTwice(snaps: seq<MultiversionSnapshot>, a: set<ObjectKey>, b: set<ObjectKey>)
    ensures RemoveKeys(RemoveKeys(snaps, a), b) == RemoveKeys(snaps, a + b)
  {
    FilterFilter(KeyNotIn(a), KeyNotIn(b), KeyNotIn(a + b), snaps);
  }

  /** Identities that no snapshot has make no difference to removal. */
  lemma RemoveAbsentKeys(snaps: seq<MultiversionSnapshot>, keys: set<ObjectKey>, absent: set<ObjectKey>)
    requires absent !! KeysOf(snaps)
    ensures RemoveKeys(snaps, keys + absent) == RemoveKeys(snaps, keys)
  {
    FilterCongruent(KeyNotIn(keys + absent), KeyNotIn(keys), snaps);
  }

  /**
   * The outcome a delete call reports for `key`, given the identities present before the batch
   * started, the identities the cluster refuses to delete and the identities requested earlier
   * in the batch.
   */
  function ExpectedOutcome(key: ObjectKey, present: set<ObjectKey>, refused: set<ObjectKey>,
                           earlier: set<ObjectKey>): DeleteOutcome
  {
    if key !in present then AlreadyAbsent
    else if key in refused then Failed
    else if key in earlier then AlreadyAbsent
    else Deleted
  }

  /** The outcome of the `j`th deletion of a batch. */
  function ExpectedAt(candidates: seq<MultiversionSnapshot>, j: nat, present: set<ObjectKey>, refused: set<ObjectKey>): DeleteOutcome
    requires j < |candidates|
  {
    ExpectedOutcome(candidates[j].Key(), present, refused, KeysOf(candidates[..j]))
  }

  /** The identities whose deletion failed, in request order. */
  function FailedKeys(candidates: seq<MultiversionSnapshot>, outcomes: seq<DeleteOutcome>): seq<ObjectKey>
    requires |candidates| == |outcomes|
  {
    if candidates == [] then []
    else
      var n := |candidates| - 1;
      FailedKeys(candidates[..n], outcomes[..n]) + (if outcomes[n] == Failed then [candidates[n].Key()] else [])
  }

  /** The batch's error: none if no deletion failed, otherwise one naming every failed identity. */
  function AggregateError(candidates: seq<MultiversionSnapshot>, outcomes: seq<DeleteOutcome>): Option<Error>
    requires |candidates| == |outcomes|
  {
    var failed := FailedKeys(candidates, outcomes);
    if failed == [] then None else Some(DeleteFailed(failed))
  }

  /** The failed identities are those requested, present before the batch and refused. */
  lemma {:induction false} FailedKeysExact(candidates: seq<MultiversionSnapshot>, outcomes: seq<DeleteOutcome>,
                                           present: set<ObjectKey>, refused: set<ObjectKey>)
    requires |candidates| == |outcomes|
    requires forall j :: 0 <= j < |candidates| ==>
               outcomes[j] == ExpectedOutcome(candidates[j].Key(), present, refused, KeysOf(candidates[..j]))
    ensures forall k :: k in FailedKeys(candidates, outcomes) <==> k in KeysOf(candidates) && k in refused && k in present
  {
    if candidates != [] {
      var n := |candidates| - 1;
      var front := candidates[..n];
      forall j | 0 <= j < n
        ensures outcomes[..n][j] == ExpectedOutcome(front[j].Key(), present, refused, KeysOf(front[..j]))
      {
        assert front[..j] == candidates[..j];
      }
      FailedKeysExact(front, outcomes[..n], present, refused);
      var last := candidates[n].Key();
      assert outcomes[n] == Failed <==> last in present && last in refused;
      KeysOfLast(candidates);
    }
  }

  /** The identities of a non-empty sequence are those of its front and that of its last element. */
  lemma KeysOfLast(snaps: seq<MultiversionSnapshot>)
    requires snaps != []
    ensures KeysOf(snaps) == KeysOf(snaps[..|snaps| - 1]) + {snaps[|snaps| - 1].Key()}
  {
    assert snaps == snaps[..|snaps| - 1] + [snaps[|snaps| - 1]];
  }

  /** A batch succeeds exactly when it asks for no present identity that the cluster refuses. */
  lemma BatchSucceedsIffNoneRefused(candidates: seq<MultiversionSnapshot>, outcomes: seq<DeleteOutcome>,
                                    present: set<ObjectKey>, refused: set<ObjectKey>)
    requires |candidates| == |outcomes|
    requires forall j :: 0 <= j < |candidates| ==>
               outcomes[j] == ExpectedOutcome(candidates[j].Key(), present, refused, KeysOf(candidates[..j]))
    ensures AggregateError(candidates, outcomes).None? <==> KeysOf(candidates) * refused * present == {}
    ensures AggregateError(candidates, outcomes).Some? ==>
              AggregateError(candidates, outcomes).value.DeleteFailed?
              && forall k :: k in AggregateError(candidates, outcomes).value.keys <==> k in KeysOf(candidates) * refused * present
  {
    FailedKeysExact(candidates, outcomes, present, refused);
    var failed := FailedKeys(candidates, outcomes);
    if KeysOf(candidates) * refused * present != {} {
      var k :| k in KeysOf(candidates) * refused * present;
      assert k in failed;
    }
    if failed != [] {
      assert failed[0] in KeysOf(candidates) * refused * present;
    }
  }

  /** The excess of a source volume's group: its oldest members beyond the newest `maxCount`. */
  function Excess(group: seq<MultiversionSnapshot>, maxCount: nat): seq<MultiversionSnapshot>
  {
    var sorted := SortSnapsByTime(Slice(group)).Elements();
    if |sorted| > maxCount then sorted[..|sorted| - maxCount] else []
  }

  /** The members of a group that count retention keeps: its newest `maxCount`. */
  function Kept(group: seq<MultiversionSnapshot>, maxCount: nat): seq<MultiversionSnapshot>
  {
    var sorted := SortSnapsByTime(Slice(group)).Elements();
    if |sorted| > maxCount then sorted[|sorted| - maxCount..] else sorted
  }

  /**
   * Count retention splits a group into its oldest `size - maxCount` members, which go, and its
   * newest `maxCount`, which stay. Nothing is lost or added.
   */
  lemma CountSplitsGroup(group: seq<MultiversionSnapshot>, maxCount: nat)
    ensures |Excess(group, maxCount)| == if |group| > maxCount then |group| - maxCount else 0
    ensures |Kept(group, maxCount)| == if |group| > maxCount then maxCount else |group|
    ensures Excess(group, maxCount) + Kept(group, maxCount) == SortSnapsByTime(Slice(group)).items
    ensures multiset(Excess(group, maxCount)) + multiset(Kept(group, maxCount)) == multiset(group)
  {
    var sorted := SortSnapsByTime(Slice(group)).items;
    if |sorted| > maxCount {
      var cut := |sorted| - maxCount;
      assert sorted == sorted[..cut] + sorted[cut..];
    }
  }

  /** Nothing count retention deletes from a group is newer than anything it keeps there. */
  lemma CountDeletesOldest(group: seq<MultiversionSnapshot>, maxCount: nat)
    ensures forall d, k :: d in Excess(group, maxCount) && k in Kept(group, maxCount) ==> d.CreationTime() <= k.CreationTime()
  {
    var sorted := SortSnapsByTime(Slice(group)).Elements();
    if |sorted| > maxCount {
      var cut := |sorted| - maxCount;
      assert Excess(group, maxCount) == sorted[..cut] && Kept(group, maxCount) == sorted[cut..];
      assert SortedByTime(sorted);
      SortedSplit(sorted, cut);
    } else {
      assert Excess(group, maxCount) == [];
    }
  }

  /** Cutting a sequence sorted by age leaves nothing before the cut newer than anything after it. */
  lemma SortedSplit(sorted: seq<MultiversionSnapshot>, cut: nat)
    requires SortedByTime(sorted) && cut <= |sorted|
    ensures forall d, k :: d in sorted[..cut] && k in sorted[cut..] ==> d.CreationTime() <= k.CreationTime()
  {
    forall d, k | d in sorted[..cut] && k in sorted[cut..] ensures d.CreationTime() <= k.CreationTime() {
      var i :| 0 <= i < cut && sorted[..cut][i] == d;
      var j :| 0 <= j < |sorted| - cut && sorted[cut..][j] == k;
      assert sorted[i] == d && sorted[cut + j] == k;
    }
  }

  /** The identities count retention deletes from the groups named in `pvcs`. */
  ghost function CountKeys(groups: map<string, seq<MultiversionSnapshot>>, pvcs: set<string>, maxCount: nat): set<ObjectKey>
  {
    set pvc, x | pvc in pvcs && pvc in groups && x in Excess(groups[pvc], maxCount) :: x.Key()
  }

  /** The snapshots age retention deletes for `schedule`, or the error that stops it. */
  function TimeCandidates(schedule: SnapshotSchedule, now: int, caps: Capabilities,
                          stored: seq<MultiversionSnapshot>): Result<seq<MultiversionSnapshot>, Error>
  {
    var threshold := GetExpirationTime(schedule, now);
    if threshold.Err? then Err(threshold.error)
    else if threshold.value.None? then Ok([])
    else
      var listed := SnapshotsFromSchedule(schedule, caps, stored);
      if listed.Err? then Err(listed.error)
      else Ok(FilterExpiredSnaps(Slice(listed.value), threshold.value.value).items)
  }

  /** The identities count retention deletes for `schedule`, or the error that stops it. */
  ghost function CountCandidateKeys(schedule: SnapshotSchedule, caps: Capabilities,
                                    stored: seq<MultiversionSnapshot>): Result<set<ObjectKey>, Error>
  {
    match schedule.retention.maxCount
    case None => Ok({})
    case Some(maxCount) =>
      match SnapshotsFromSchedule(schedule, caps, stored)
      case Err(e) => Err(e)
      case Ok(listed) =>
        var groups := GroupSnapsByPvc(listed);
        Ok(CountKeys(groups, groups.Keys, maxCount))
  }

  /**
   * Age retention picks exactly the schedule's snapshots created before the cutoff. With no
   * `expires` it picks nothing; it stops on a bad duration, or on a bad schedule name when there
   * is a cutoff to apply.
   */
  lemma TimeRetentionSelects(schedule: SnapshotSchedule, now: int, caps: Capabilities, stored: seq<MultiversionSnapshot>)
    requires UniqueKeys(stored)
    ensures schedule.retention.expires == "" ==> TimeCandidates(schedule, now, caps, stored) == Ok([])
    ensures TimeCandidates(schedule, now, caps, stored).Err? <==>
              GetExpirationTime(schedule, now).Err?
              || (schedule.retention.expires != "" && !ValidLabelValue(schedule.name))
    ensures TimeCandidates(schedule, now, caps, stored).Ok? && schedule.retention.expires != "" ==>
              forall x :: x in stored ==>
                (x.Key() in KeysOf(TimeCandidates(schedule, now, caps, stored).value) <==>
                   OwnedBy(schedule, caps, x) && x.CreationTime() < GetExpirationTime(schedule, now).value.value)
    ensures TimeCandidates(schedule, now, caps, stored).Ok? ==>
              KeysOf(TimeCandidates(schedule, now, caps, stored).value) <= KeysOf(stored)
  {
    var threshold := GetExpirationTime(schedule, now);
    var r := TimeCandidates(schedule, now, caps, stored);
    if r.Ok? && schedule.retention.expires != "" {
      var listed := SnapshotsFromSchedule(schedule, caps, stored).value;
      forall x | x in stored
        ensures x.Key() in KeysOf(r.value) <==> OwnedBy(schedule, caps, x) && x.CreationTime() < threshold.value.value
      {
        if x.Key() in KeysOf(r.value) {
          var y :| y in r.value && y.Key() == x.Key();
          UniqueKeysSame(stored, x, y);
        }
      }
    }
  }

  /**
   * Count retention picks, among the schedule's snapshots that record a source volume, exactly
   * those in the excess of their volume's group. With no `maxCount` it picks nothing; a bad
   * schedule name stops it when there is a count to apply.
   */
  lemma CountRetentionSelects(schedule: SnapshotSchedule, caps: Capabilities, stored: seq<MultiversionSnapshot>)
    requires UniqueKeys(stored)
    ensures schedule.retention.maxCount.None? ==> CountCandidateKeys(schedule, caps, stored) == Ok({})
    ensures CountCandidateKeys(schedule, caps, stored).Err? <==>
              schedule.retention.maxCount.Some? && !ValidLabelValue(schedule.name)
    ensures CountCandidateKeys(schedule, caps, stored).Ok? && schedule.retention.maxCount.Some? ==>
              forall x :: x in stored ==>
                (x.Key() in CountCandidateKeys(schedule, caps, stored).value <==>
                   && OwnedBy(schedule, caps, x)
                   && x.SourceVolume().Some?
                   && x in Excess(Filter(HasSource(x.SourceVolume().value), SnapshotsFromSchedule(schedule, caps, stored).value),
                                  schedule.retention.maxCount.value))
    ensures CountCandidateKeys(schedule, caps, stored).Ok? ==> CountCandidateKeys(schedule, caps, stored).value <= KeysOf(stored)
  {
    var r := CountCandidateKeys(schedule, caps, stored);
    if r.Ok? && schedule.retention.maxCount.Some? {
      var m := schedule.retention.maxCount.value;
      var listed := SnapshotsFromSchedule(schedule, caps, stored).value;
      var groups := GroupSnapsByPvc(listed);
      GroupMembership(listed);
      assert r.value == CountKeys(groups, groups.Keys, m);
      forall k | k in r.value ensures k in KeysOf(stored) {
        var pvc, y :| pvc in groups && y in Excess(groups[pvc], m) && y.Key() == k;
        ExcessFromGroup(groups[pvc], m);
      }
      forall x | x in stored
        ensures x.Key() in r.value <==>
                  && OwnedBy(schedule, caps, x)
                  && x.SourceVolume().Some?
                  && x in Excess(Filter(HasSource(x.SourceVolume().value), listed), m)
      {
        if x.Key() in r.value {
          var pvc, y :| pvc in groups && y in Excess(groups[pvc], m) && y.Key() == x.Key();
          ExcessFromGroup(groups[pvc], m);
          UniqueKeysSame(stored, x, y);
        }
        if OwnedBy(schedule, caps, x) && x.SourceVolume().Some? {
          var pvc := x.SourceVolume().value;
          if x in Excess(Filter(HasSource(pvc), listed), m) {
            assert pvc in groups && x in Excess(groups[pvc], m);
          }
        }
      }
    }
  }

  /**
   * Deleting a further batch `more`, after the identities `done` were requested, leaves the store
   * as if `done + more` had been requested at once. The refused identities of `more` are still
   * present when the batch starts, so each of them fails.
   */
  lemma BatchAfterBatch(before: seq<MultiversionSnapshot>, done: set<ObjectKey>, more: set<ObjectKey>, refused: set<ObjectKey>)
    requires more <= KeysOf(before)
    ensures RemoveKeys(RemoveKeys(before, done - refused), more - refused) == RemoveKeys(before, (done + more) - refused)
    ensures more * refused * KeysOf(RemoveKeys(before, done - refused)) == more * refused
  {
    RemoveKeysTwice(before, done - refused, more - refused);
    assert (done - refused) + (more - refused) == (done + more) - refused;
    RemoveKeysMembers(before, done - refused);
  }

  /** The failures collected so far grow by the refused identities of one more batch. */
  lemma FailedGrows(failed: seq<ObjectKey>, keys: seq<ObjectKey>, done: set<ObjectKey>, more: set<ObjectKey>, refused: set<ObjectKey>)
    requires forall k :: k in failed <==> k in done * refused
    requires forall k :: k in keys <==> k in more * refused
    ensures forall k :: k in failed + keys <==> k in (done + more) * refused
  {
  }

  /** One group more is processed: its excess joins the identities to delete, all of them in the store. */
  lemma CountLoopStep(before: seq<MultiversionSnapshot>, grouped: map<string, seq<MultiversionSnapshot>>,
                      pending: set<string>, pvc: string, maxCount: nat)
    requires pvc in pending && pending <= grouped.Keys
    requires forall x :: x in grouped[pvc] ==> x in before
    ensures CountKeys(grouped, grouped.Keys - (pending - {pvc}), maxCount)
         == CountKeys(grouped, grouped.Keys - pending, maxCount) + KeysOf(Excess(grouped[pvc], maxCount))
    ensures KeysOf(Excess(grouped[pvc], maxCount)) <= KeysOf(before)
  {
    ExcessFromGroup(grouped[pvc], maxCount);
    KeysOfSubset(Excess(grouped[pvc], maxCount), before);
    CountKeysAdd(grouped, grouped.Keys - pending, pvc, maxCount);
    assert (grouped.Keys - pending) + {pvc} == grouped.Keys - (pending - {pvc});
  }

  /** The excess of a group is the front of its sorted order, cut `maxCount` before the end. */
  lemma ExcessOfSorted(group: seq<MultiversionSnapshot>, maxCount: nat, sorted: seq<MultiversionSnapshot>)
    requires sorted == SortSnapsByTime(Slice(group)).Elements()
    ensures |sorted| > maxCount ==> Excess(group, maxCount) == sorted[..|sorted| - maxCount]
    ensures |sorted| <= maxCount ==> Excess(group, maxCount) == []
  {
  }

  /** Removing no identity changes nothing. */
  lemma RemoveKeysNone(snaps: seq<MultiversionSnapshot>)
    ensures RemoveKeys(snaps, {}) == snaps
  {
    FilterAll(KeyNotIn({}), snaps);
  }

  /** Removing the identity of one snapshot that no other shares takes out that snapshot alone. */
  lemma RemoveOne(snaps: seq<MultiversionSnapshot>, k: nat)
    requires k < |snaps|
    requires forall i :: 0 <= i < |snaps| && i != k ==> snaps[i].Key() != snaps[k].Key()
    ensures RemoveKeys(snaps, {snaps[k].Key()}) == snaps[..k] + snaps[k + 1..]
  {
    var p := KeyNotIn({snaps[k].Key()});
    assert snaps == snaps[..k] + ([snaps[k]] + snaps[k + 1..]);
    FilterAppend(p, snaps[..k], [snaps[k]] + snaps[k + 1..]);
    FilterCons(p, snaps[k], snaps[k + 1..]);
    forall x | x in snaps[..k] ensures p(x) {
      var i :| 0 <= i < k && snaps[..k][i] == x;
      assert snaps[i] == x;
    }
    forall x | x in snaps[k + 1..] ensures p(x) {
      var i :| 0 <= i < |snaps| - k - 1 && snaps[k + 1..][i] == x;
      assert snaps[k + 1 + i] == x;
    }
    FilterAll(p, snaps[..k]);
    FilterAll(p, snaps[k + 1..]);
  }

  lemma KeysOfSubset(a: seq<MultiversionSnapshot>, b: seq<MultiversionSnapshot>)
    requires forall x :: x in a ==> x in b
    ensures KeysOf(a) <= KeysOf(b)
  {
  }

  /** Adding one group to those processed adds the identities of that group's excess. */
  lemma CountKeysAdd(groups: map<string, seq<MultiversionSnapshot>>, done: set<string>, pvc: string, maxCount: nat)
    requires pvc in groups
    ensures CountKeys(groups, done + {pvc}, maxCount) == CountKeys(groups, done, maxCount) + KeysOf(Excess(groups[pvc], maxCount))
  {
  }

  /** A group no larger than the count loses nothing. */
  lemma ExcessWithinCount(group: seq<MultiversionSnapshot>, maxCount: nat)
    requires |group| <= maxCount
    ensures Excess(group, maxCount) == []
  {
    assert |SortSnapsByTime(Slice(group)).Elements()| == |group|;
  }

  /** When only one group is over the count, count retention deletes that group's excess alone. */
  lemma OneGroupExceeds(groups: map<string, seq<MultiversionSnapshot>>, pvc: string, maxCount: nat)
    requires pvc in groups
    requires forall q :: q in groups && q != pvc ==> Excess(groups[q], maxCount) == []
    ensures CountKeys(groups, groups.Keys, maxCount) == KeysOf(Excess(groups[pvc], maxCount))
  {
    var all := CountKeys(groups, groups.Keys, maxCount);
    var one := KeysOf(Excess(groups[pvc], maxCount));
    forall k | k in all ensures k in one {
      var q, y :| q in groups && y in Excess(groups[q], maxCount) && y.Key() == k;
      assert q == pvc;
    }
    forall k | k in one ensures k in all {
      var y :| y in Excess(groups[pvc], maxCount) && y.Key() == k;
    }
  }

  /** Everything count retention picks from a group is a member of the group. */
  lemma ExcessFromGroup(group: seq<MultiversionSnapshot>, maxCount: nat)
    ensures forall x :: x in Excess(group, maxCount) ==> x in group
  {
    var sorted := SortSnapsByTime(Slice(group)).items;
    forall x | x in Excess(group, maxCount) ensures x in group {
      assert x in sorted;
      assert x in multiset(sorted);
    }
  }

  /**
   * One step of a batch: with the identities `earlier` already requested, deleting `key` leaves
   * the store as if `earlier + {key}` had been requested. `key` is present at that point exactly
   * when it was present before the batch and no earlier request removed it.
   */
  lemma BatchStep(before: seq<MultiversionSnapshot>, earlier: set<ObjectKey>, key: ObjectKey, refused: set<ObjectKey>)
    ensures key in KeysOf(RemoveKeys(before, earlier - refused)) <==>
              key in KeysOf(before) && !(key in earlier && key !in refused)
    ensures key in KeysOf(RemoveKeys(before, earlier - refused)) && key !in refused ==>
              RemoveKeys(RemoveKeys(before, earlier - refused), {key}) == RemoveKeys(before, (earlier + {key}) - refused)
    ensures !(key in KeysOf(RemoveKeys(before, earlier - refused)) && key !in refused) ==>
              RemoveKeys(before, earlier - refused) == RemoveKeys(before, (earlier + {key}) - refused)
  {
    RemoveKeysMembers(before, earlier - refused);
    RemoveKeysTwice(before, earlier - refused, {key});
    if key in refused || key in earlier {
      assert (earlier + {key}) - refused == earlier - refused;
    } else {
      assert (earlier - refused) + {key} == (earlier + {key}) - refused;
      if key !in KeysOf(before) {
        RemoveAbsentKeys(before, earlier - refused, {key});
      }
    }
  }

  /**
   * One deletion of a batch: deleting the `i`th candidate from what the earlier ones left gives
   * the outcome `ExpectedAt` names and leaves the store without the first `i + 1` candidates.
   */
  lemma DeleteStep(before: seq<MultiversionSnapshot>, candidates: seq<MultiversionSnapshot>, i: nat,
                   refused: set<ObjectKey>, current: seq<MultiversionSnapshot>, o: DeleteOutcome,
                   after: seq<MultiversionSnapshot>)
    requires i < |candidates|
    requires current == RemoveKeys(before, KeysOf(candidates[..i]) - refused)
    requires o == (if candidates[i].Key() !in KeysOf(current) then AlreadyAbsent
                   else if candidates[i].Key() in refused then Failed
                   else Deleted)
    requires after == if o == Deleted then RemoveKeys(current, {candidates[i].Key()}) else current
    ensures o == ExpectedAt(candidates, i, KeysOf(before), refused)
    ensures after == RemoveKeys(before, KeysOf(candidates[..i + 1]) - refused)
  {
    var key := candidates[i].Key();
    BatchStep(before, KeysOf(candidates[..i]), key, refused);
    assert candidates[..i + 1] == candidates[..i] + [candidates[i]];
    assert KeysOf(candidates[..i + 1]) == KeysOf(candidates[..i]) + {key};
  }

  /** A cluster's volume snapshots, of both schema versions, as one store. */
  class Cluster {
    var snapshots: seq<MultiversionSnapshot>
    /** The identities whose deletion the cluster refuses (permissions, admission, outages). */
    const refused: set<ObjectKey>

    ghost predicate Valid()
      reads this
    {
      UniqueKeys(snapshots)
    }

    constructor (initial: seq<MultiversionSnapshot>, refused: set<ObjectKey>)
      requires UniqueKeys(initial)
      ensures Valid() && snapshots == initial && this.refused == refused
    {
      snapshots := initial;
      this.refused := refused;
    }

    /** Looks a snapshot up by identity. `None` plays the part of the cluster's NotFound error. */
    method Get(key: ObjectKey) returns (r: Option<MultiversionSnapshot>)
      ensures r.Some? <==> key in KeysOf(snapshots)
      ensures r.Some? ==> r.value in snapshots && r.value.Key() == key
    {
      r := None;
      var i := 0;
      while i < |snapshots|
        invariant 0 <= i <= |snapshots|
        invariant forall j :: 0 <= j < i ==> snapshots[j].Key() != key
      {
        if snapshots[i].Key() == key {
          return Some(snapshots[i]);
        }
        i := i + 1;
      }
    }

    /** One delete call. An absent object is reported as such, and that counts as success. */
    method Delete(key: ObjectKey) returns (outcome: DeleteOutcome)
      requires Valid()
      modifies this
      ensures Valid()
      ensures outcome == (if key !in KeysOf(old(snapshots)) then AlreadyAbsent
                          else if key in refused then Failed
                          else Deleted)
      ensures snapshots == if outcome == Deleted then RemoveKeys(old(snapshots), {key}) else old(snapshots)
    {
      var found := Get(key);
      if found.None? {
        outcome := AlreadyAbsent;
      } else if key in refused {
        outcome := Failed;
      } else {
        RemoveKeysUnique(snapshots, {key});
        snapshots := RemoveKeys(snapshots, {key});
        outcome := Deleted;
      }
    }

    /**
     * Deletes every candidate. A failure is recorded and the batch goes on. The store loses
     * exactly the candidates the cluster does not refuse to delete. The error names every failure.
     */
    method DeleteSnapshots(candidates: seq<MultiversionSnapshot>) returns (outcomes: seq<DeleteOutcome>, err: Option<Error>)
      requires Valid()
      modifies this
      ensures Valid()
      ensures snapshots == RemoveKeys(old(snapshots), KeysOf(candidates) - refused)
      ensures |outcomes| == |candidates|
      ensures forall j :: 0 <= j < |candidates| ==>
                outcomes[j] == ExpectedOutcome(candidates[j].Key(), KeysOf(old(snapshots)), refused, KeysOf(candidates[..j]))
      ensures err == AggregateError(candidates, outcomes)
    {
      ghost var before := snapshots;
      ghost var present := KeysOf(snapshots);
      outcomes := [];
      assert KeysOf(candidates[..0]) - refused == {};
      RemoveKeysNone(before);
      for i := 0 to |candidates|
        invariant Valid()
        invariant snapshots == RemoveKeys(before, KeysOf(candidates[..i]) - refused)
        invariant |outcomes| == i
        invariant forall j :: 0 <= j < i ==> outcomes[j] == ExpectedAt(candidates, j, present, refused)
      {
        ghost var current := snapshots;
        var o := Delete(candidates[i].Key());
        DeleteStep(before, candidates, i, refused, current, o, snapshots);
        ghost var done := outcomes;
        outcomes := outcomes + [o];
        assert forall j :: 0 <= j < i ==> outcomes[j] == done[j];
      }
      assert candidates[..|candidates|] == candidates;
      err := AggregateError(candidates, outcomes);
    }

    /**
     * Age retention: deletes the schedule's snapshots created before the cutoff. It does nothing
     * when the schedule sets no `expires`. A bad duration or schedule name deletes nothing and is
     * reported.
     */
    method ExpireByTime(schedule: SnapshotSchedule, now: int, caps: Capabilities) returns (err: Option<Error>)
      requires Valid()
      modifies this
      ensures Valid()
      ensures TimeCandidates(schedule, now, caps, old(snapshots)).Err? ==>
                err == Some(TimeCandidates(schedule, now, caps, old(snapshots)).error) && snapshots == old(snapshots)
      ensures TimeCandidates(schedule, now, caps, old(snapshots)).Ok? ==>
                var doomed := KeysOf(TimeCandidates(schedule, now, caps, old(snapshots)).value);
                && snapshots == RemoveKeys(old(snapshots), doomed - refused)
                && (err.None? <==> doomed * refused == {})
                && (err.Some? ==> err.value.DeleteFailed? && forall k :: k in err.value.keys <==> k in doomed * refused)
    {
      var threshold := GetExpirationTime(schedule, now);
      if threshold.Err? {
        return Some(threshold.error);
      }
      if threshold.value.None? {
        assert KeysOf([]) - refused == {};
        RemoveKeysNone(snapshots);
        return None;
      }
      var listed := SnapshotsFromSchedule(schedule, caps, snapshots);
      if listed.Err? {
        return Some(listed.error);
      }
      var expired := FilterExpiredSnaps(Slice(listed.value), threshold.value.value).items;
      ghost var present := KeysOf(snapshots);
      KeysOfSubset(expired, snapshots);
      var outcomes;
      outcomes, err := DeleteSnapshots(expired);
      BatchSucceedsIffNoneRefused(expired, outcomes, present, refused);
    }

    /**
     * Count retention for one source volume's group: sorts it by age and, when it holds more
     * than `maxCount`, deletes all but the newest `maxCount`. Returns the identities whose
     * deletion failed.
     */
    method ExpireGroup(group: seq<MultiversionSnapshot>, maxCount: nat) returns (failed: seq<ObjectKey>)
      requires Valid()
      modifies this
      ensures Valid()
      ensures snapshots == RemoveKeys(old(snapshots), KeysOf(Excess(group, maxCount)) - refused)
      ensures forall k :: k in failed <==> k in KeysOf(Excess(group, maxCount)) * refused * KeysOf(old(snapshots))
    {
      var list := SortSnapsByTime(Slice(group)).Elements();
      ghost var excess := Excess(group, maxCount);
      ExcessOfSorted(group, maxCount, list);
      if |list| > maxCount {
        ghost var present := KeysOf(snapshots);
        var outcomes, e := DeleteSnapshots(list[..|list| - maxCount]);
        BatchSucceedsIffNoneRefused(excess, outcomes, present, refused);
        failed := if e.Some? then e.value.keys else [];
      } else {
        assert KeysOf(excess) - refused == {};
        RemoveKeysNone(snapshots);
        failed := [];
      }
    }

    /**
     * Count retention: within the schedule's snapshots, keeps the newest `maxCount` per source
     * volume and deletes the rest. Groups are handled one at a time, in no particular order, and
     * a failed deletion does not stop the others.
     */
    method ExpireByCount(schedule: SnapshotSchedule, caps: Capabilities) returns (err: Option<Error>)
      requires Valid()
      modifies this
      ensures Valid()
      ensures CountCandidateKeys(schedule, caps, old(snapshots)).Err? ==>
                err == Some(CountCandidateKeys(schedule, caps, old(snapshots)).error) && snapshots == old(snapshots)
      ensures CountCandidateKeys(schedule, caps, old(snapshots)).Ok? ==>
                var doomed := CountCandidateKeys(schedule, caps, old(snapshots)).value;
                && snapshots == RemoveKeys(old(snapshots), doomed - refused)
                && (err.None? <==> doomed * refused == {})
                && (err.Some? ==> err.value.DeleteFailed? && forall k :: k in err.value.keys <==> k in doomed * refused)
    {
      if schedule.retention.maxCount.None? {
        assert {} - refused == {};
        RemoveKeysNone(snapshots);
        return None;
      }
      var maxCount := schedule.retention.maxCount.value;
      var listed := SnapshotsFromSchedule(schedule, caps, snapshots);
      if listed.Err? {
        return Some(listed.error);
      }
      var grouped := GroupSnapsByPvc(listed.value);
      GroupMembership(listed.value);
      ghost var before := snapshots;
      var pending := grouped.Keys;
      var failed: seq<ObjectKey> := [];
      ghost var done: set<ObjectKey> := {};
      assert CountKeys(grouped, grouped.Keys - pending, maxCount) == {};
      assert done - refused == {};
      RemoveKeysNone(before);
      while pending != {}
        invariant pending <= grouped.Keys
        invariant done == CountKeys(grouped, grouped.Keys - pending, maxCount)
        invariant Valid()
        invariant snapshots == RemoveKeys(before, done - refused)
        invariant forall k :: k in failed <==> k in done * refused
        decreases pending
      {
        var pvc :| pvc in pending;
        CountLoopStep(before, grouped, pending, pvc, maxCount);
        ghost var more := KeysOf(Excess(grouped[pvc], maxCount));
        BatchAfterBatch(before, done, more, refused);
        var keys := ExpireGroup(grouped[pvc], maxCount);
        FailedGrows(failed, keys, done, more, refused);
        failed := failed + keys;
        done := done + more;
        pending := pending - {pvc};
      }
      assert grouped.Keys - pending == grouped.Keys;
      if failed == [] {
        err := None;
      } else {
        assert failed[0] in failed;
        err := Some(DeleteFailed(failed));
      }
    }
  }
}
