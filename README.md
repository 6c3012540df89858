# Snapshot retention engine

This project models the retention (expiration) engine of snapscheduler. snapscheduler is a Kubernetes controller that takes volume snapshots on behalf of `SnapshotSchedule` resources. For each schedule the engine decides which of the schedule's snapshots to delete. It has two independent policies:

- **Age retention** (`expires`, a duration such as `"24h"`). It deletes the schedule's snapshots created before `now - expires`.
- **Count retention** (`maxCount`). It groups the schedule's snapshots by source volume claim, sorts each group oldest first, and deletes all but the newest `maxCount` of each group.

Snapshots come in two schema versions, v1alpha1 and v1beta1. Both sit behind one uniform view, `MultiversionSnapshot`. The schema versions the cluster serves are passed in as a `Capabilities` value.

The modules follow the engine's layers:

| file | module | contents |
|---|---|---|
| `wrappers.dfy` | `Wrappers` | `Option`, `Result`, and `Slice` (Go's nil-or-slice distinction) |
| `sequences.dfy` | `Sequences` | order-preserving `Filter` and its laws |
| `resources.dfy` | `Resources` | schedules, both snapshot versions, the uniform view and its wrappers, identities, errors |
| `durations.dfy` | `Durations` | the retention duration syntax, its parser and a formatter |
| `retention.dfy` | `Retention` | the pure rules: age cutoff, age filter, grouping by source volume, stable sort by creation time |
| `selection.dfy` | `Selection` | label-value validation and listing the snapshots a schedule owns |
| `expiration.dfy` | `Expiration` | the cluster store (`class Cluster`), batch deletion, and the two retention evaluators as methods |
| `scenarios.dfy` | `Scenarios` | the concrete inputs of the test suite and what each operation gives on them |

The cluster is a `class Cluster`:

- Its field `snapshots` is the list of stored snapshots. The predicate `Valid` states that no two of them share a namespace and name.
- Its constant `refused` is the set of identities whose deletion the cluster rejects. It stands for permission errors and outages. It lets the model describe partial failure.

Each evaluator method is specified against a pure description of its candidates:

- `TimeCandidates` for age retention;
- `CountCandidateKeys` for count retention.

The final store is the old store minus exactly those candidates the cluster does not refuse. The error names exactly the refused ones.

Timestamps are whole seconds, and `now` is a parameter.

## Model

| member | source | states |
|---|---|---|
| Durations.FormatParseRoundTrip | controllers/snapshots_expire_test.go:67-83 | a duration written as an optional minus sign, a decimal count and a unit h, m or s parses back to plus or minus count times the unit's seconds (so "1h" is 3600 and "-10s" is -10) |
| Durations.DigitsRoundTrip | controllers/snapshots_expire_test.go:74-77 | the decimal digits of a count read back as that count |
| Durations.ParseAcceptsOnlyDurations | controllers/snapshots_expire_test.go:54-72 | whatever parses is an optional sign followed by a bare "0" or by at least one decimal digit and a unit h, m or s, so texts such as "garbage" are rejected |
| Durations.NegativeSignNeverPositive | controllers/snapshots_expire_test.go:67-72 | a duration text starting with '-' never parses to a positive number of seconds, so it never yields a usable retention window |
| Retention.GetExpirationTime | controllers/snapshots_expire_test.go:51-83 | no `expires` gives no cutoff and no error; an unparsable or non-positive duration is an error; otherwise the cutoff lies strictly before `now`, exactly the parsed duration earlier |
| Retention.FilterExpiredSnaps | controllers/snapshots_expire_test.go:86-119 | the result is never nil; it holds exactly the snapshots created strictly before the cutoff, each as often as in the input, in input order (a subsequence) |
| Retention.GroupSnapsByPvc | controllers/snapshots_expire_test.go:253-300 | the groups are keyed by exactly the recorded source volumes; each group is the input's snapshots of that volume, in input order |
| Retention.GroupMembership | controllers/snapshots_expire_test.go:286-295 | every group member is an input snapshot of the group's volume, and every snapshot with a source volume is in its volume's group |
| Retention.GroupTotal | controllers/snapshots_expire_test.go:279-299 | the groups hold, in all, exactly as many snapshots as the input has with a recorded source |
| Retention.InsertKeepsSorted | controllers/snapshots_expire_test.go:321-329 | inserting into a list sorted by creation time keeps it sorted |
| Retention.SortSeq | controllers/snapshots_expire_test.go:321-329 | the sorted list is a permutation of the input and ascends by creation time |
| Retention.InsertKeepsTies | controllers/snapshots_expire_test.go:321-329 | inserting a snapshot into a list puts it ahead of the list's snapshots created at the same time, as if it had been prepended |
| Retention.SortKeepsTies | controllers/snapshots_expire_test.go:321-329 | sorting keeps the input order of snapshots created at the same time (a stable sort) |
| Retention.SortSnapsByTime | controllers/snapshots_expire_test.go:302-334 | nil sorts to nil and a non-nil list to a non-nil one; the result is a permutation of the input, ascends by creation time, and keeps ties in input order |
| Resources.WrapSnapshotAlpha | controllers/snapshots_expire_test.go:103-110 | the uniform view of a v1alpha1 snapshot is of version v1alpha1 and shows its identity, creation time and source reference's name; no source reference means no source volume |
| Resources.WrapSnapshotBeta | controllers/snapshots_expire_test.go:46 | the uniform view of a v1beta1 snapshot is of version v1beta1 and shows its identity, creation time and claim name; this second variant completes the two-version view of the registered snapshot types, and no test wraps a v1beta1 snapshot |
| Selection.SnapshotsFromSchedule | controllers/snapshots_expire_test.go:122-177 | a schedule name that is not a valid label value fails with an error naming it; otherwise the result holds exactly the stored snapshots in a served version, in scope of the schedule's namespace and labelled with the schedule's name, each once per stored copy |
| Expiration.BatchSucceedsIffNoneRefused | controllers/snapshots_expire_test.go:374-392 | a batch of deletions returns no error exactly when none of its present candidates is refused; otherwise the error lists exactly those |
| Expiration.FailedKeysExact | controllers/snapshots_expire_test.go:374-378 | the identities recorded as failed are those requested, present when the batch starts and refused |
| Expiration.RemoveKeysMembers | controllers/snapshots_expire_test.go:380-387 | removing a set of identities takes out exactly the snapshots with those identities and keeps the rest |
| Expiration.RemoveOne | controllers/snapshots_expire_test.go:380-387 | removing the identity of a snapshot no other shares takes out that snapshot alone and keeps the others in order |
| Expiration.CountSplitsGroup | controllers/snapshots_expire_test.go:412-420 | count retention splits a sorted group into `size - maxCount` snapshots to delete (none when the group is within the count) and the newest `maxCount` to keep, losing and adding nothing |
| Expiration.CountDeletesOldest | controllers/snapshots_expire_test.go:412-416 | nothing count retention deletes from a group is newer than anything it keeps there |
| Expiration.ExcessWithinCount | controllers/snapshots_expire_test.go:425 | a volume group no larger than the count loses nothing |
| Expiration.OneGroupExceeds | controllers/snapshots_expire_test.go:420-426 | when only one volume group is over the count, count retention deletes exactly that group's excess |
| Expiration.TimeRetentionSelects | controllers/snapshots_expire_test.go:198-250 | with no `expires` age retention picks nothing; it fails exactly on a bad duration, or on a bad schedule name when a cutoff applies; otherwise it picks exactly the schedule's snapshots created before the cutoff, and only snapshots that are stored |
| Expiration.CountRetentionSelects | controllers/snapshots_expire_test.go:410-472 | with no `maxCount` count retention picks nothing; it fails exactly on a bad schedule name when a count applies; otherwise it picks exactly the schedule's snapshots with a source volume that fall in their volume group's excess, and only identities of stored snapshots |
| Expiration.Cluster.constructor | controllers/snapshots_expire_test.go:42-49 | a cluster starts holding the given objects, with unique identities |
| Expiration.Cluster.Get | controllers/snapshots_expire_test.go:378-387 | a lookup finds a snapshot exactly when one with that identity is stored, and returns that snapshot; otherwise it reports not found |
| Expiration.Cluster.Delete | controllers/snapshots_expire_test.go:374-376 | one delete call reports an absent object as already absent, a refused one as failed, and otherwise removes exactly that object |
| Expiration.Cluster.DeleteSnapshots | controllers/snapshots_expire_test.go:336-393 | every candidate is attempted; the store loses exactly the candidates not refused; each outcome is absent, failed or deleted as the store stood; the error aggregates every failure and is absent when there is none, so an empty batch succeeds |
| Expiration.Cluster.ExpireByTime | controllers/snapshots_expire_test.go:180-250 | a bad duration or name deletes nothing and is returned; otherwise the store loses exactly the age candidates not refused, and the error is absent exactly when no candidate is refused and otherwise names exactly the refused ones |
| Expiration.Cluster.ExpireGroup | controllers/snapshots_expire_test.go:463-472 | for one volume group the store loses exactly the group's excess that is not refused, and the returned identities are exactly the refused ones present |
| Expiration.Cluster.ExpireByCount | controllers/snapshots_expire_test.go:395-473 | a bad name deletes nothing and is returned; otherwise the store loses exactly the count candidates of every group that are not refused, and the error is absent exactly when none is refused and otherwise names exactly the refused ones |
| Scenarios.ExpirationTimes | controllers/snapshots_expire_test.go:51-83 | no `expires` gives no cutoff; "garbage" and "-10s" are errors; "1h" at 2013-02-01T11:04:05Z gives a cutoff one hour earlier |
| Scenarios.FilterFive | controllers/snapshots_expire_test.go:86-119 | of the five test timestamps, exactly the two before 2000-01-01 are expired, in input order |
| Scenarios.SelectOwned | controllers/snapshots_expire_test.go:122-177 | the invalid name "%%!! Invalid !!%%" fails; "s1" owns "foo" and "bar" and not "baz" |
| Scenarios.GroupThree | controllers/snapshots_expire_test.go:253-300 | the test's snapshots form groups pvc1, pvc2 and pvc3 of sizes 2, 2 and 1, each named after its volume, and the sourceless one is in none |
| Scenarios.SortThree | controllers/snapshots_expire_test.go:302-334 | now+1h, now-1h and now sort to now-1h, now, now+1h; nil sorts to nil |
| Scenarios.DeleteScenario | controllers/snapshots_expire_test.go:336-393 | deleting "bar" and "baz" succeeds; "bar" is then not found and "splat" is; deleting an empty batch succeeds |
| Scenarios.ExpireByTimeScenario | controllers/snapshots_expire_test.go:180-250 | of the eight test snapshots, no `expires` picks none and "24h" picks exactly the one in namespace "same", owned by "schedule" and 48 hours old; removing it leaves the other seven |
| Scenarios.ExpireByCountScenario | controllers/snapshots_expire_test.go:395-473 | with a count of three, count retention picks exactly the oldest of the four "pvc1" snapshots that "schedule" owns in "same"; removing it leaves six of seven |
| Scenarios.ExpireByTimeRun | controllers/snapshots_expire_test.go:228-250 | on one cluster holding the eight test snapshots, age retention without `expires` succeeds and leaves all eight; the "24h" schedule then succeeds and leaves seven |
| Scenarios.ExpireByCountRun | controllers/snapshots_expire_test.go:448-472 | on one cluster holding the seven test snapshots, count retention without `maxCount` succeeds and leaves all seven; a count of three then succeeds and leaves six |
| Resources.DistinctKeysUnique | controllers/snapshots_expire_test.go:213-228 | snapshots whose identities differ pairwise make a store with unique identities, as the fake cluster each test builds requires |
| Scenarios.OldestGoes | controllers/snapshots_expire_test.go:412-416 | a group one larger than the count gives up its strictly oldest member alone |

## Left out

- The implementation file of the engine (`controllers/snapshots_expire.go`) is not part of this model. The model follows the test suite. Where the tests are silent, it follows the engine's documented design:
  - a zero duration is an error like a negative one (the tests check only "-10s");
  - the sort is stable;
  - a batch deletion goes on past failures and reports them all together;
  - count retention goes on past a failing group and aggregates every group's failures.
- Durations.ParseDuration: accepts only an optional sign, decimal digits and one unit out of h, m and s, or a bare "0". Go's full duration syntax is not modelled: fractions, compound values such as "1h30m", the ns/us/ms units and overflow.
- Timestamps are whole seconds. Sub-second precision is not modelled.
- Listing is over the `snapshots` field of the store. A failing list call is not modelled, so a listing fails only on an invalid schedule name.
- Selection.InScope: an empty schedule namespace lists every namespace. The test at lines 155-177 uses a schedule with no namespace and expects the snapshots of namespace "default", so this follows the cluster client's behaviour for an empty scope rather than requiring the namespaces to be equal.
- Selection.ValidLabelValue: the Kubernetes label value grammar. It is empty, or at most 63 letters, digits, '-', '_' and '.', starting and ending with a letter or digit.
- The logger and the request context are not modelled. Neither is cancellation.
- Scheme registration and the fake client's internals are not modelled. The store is the `Cluster` class.
- The process-wide version checker, and the test's toggling of it (lines 97-98 and 123), are replaced by a `Capabilities` parameter.
- Concurrency between schedules or between deletions is not modelled. Deletions run in list order.
- A refused deletion is modelled by the `refused` set. The causes of failures (permission, conflict, network) are not. The aggregate error carries the failed identities only.
- Expiration.Cluster.ExpireByCount: states which identities its error names, not their order. Groups are handled in an unspecified order.
- `maxCount` is modelled as a natural number. A negative `int32` count, which schema validation excludes, is not modelled.
- Only the name of a v1alpha1 source reference is used. Its kind is not checked.
- Labels other than the owning-schedule label take no part in selection.
- The age and count tests name their snapshots after a formatted creation time. The scenarios use other names that are just as distinct, since only the identities' distinctness matters there.
- Scenarios.Snap: gives every scenario snapshot an owning-schedule label. A snapshot with a source also gets the reference kind "PersistentVolumeClaim". The grouping and deletion tests' objects have neither. Neither addition changes grouping or deletion.
