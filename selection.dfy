/**
 * Listing the snapshots a schedule owns: those in the schedule's namespace whose owning-schedule
 * label equals the schedule's name, from every schema version the cluster serves.
 */
module Selection {
  import opened Wrappers
  import opened Sequences
  import opened Resources

  predicate IsAlphaNumeric(c: char)
  {
    'a' <= c <= 'z' || 'A' <= c <= 'Z' || '0' <= c <= '9'
  }

  const LabelValueMaxLength: nat := 63

  /**
   * The Kubernetes label value syntax: empty, or at most 63 characters from letters, digits,
   * '-', '_' and '.', starting and ending with a letter or digit.
   */
  predicate ValidLabelValue(v: string)
  {
    v == []
    || (&& |v| <= LabelValueMaxLength
        && IsAlphaNumeric(v[0])
        && IsAlphaNumeric(v[|v| - 1])
        && forall i :: 0 <= i < |v| ==> IsAlphaNumeric(v[i]) || v[i] in "-_.")
  }

  /**
   * A list call scoped to `scope` returns the objects of that namespace; an empty scope, as the
   * cluster client treats it, returns the objects of every namespace.
   */
  predicate InScope(scope: string, namespace: string)
  {
    scope == "" || namespace == scope
  }

  /** The snapshot is one the schedule's label selector matches, listed in a version the cluster serves. */
  predicate OwnedBy(schedule: SnapshotSchedule, caps: Capabilities, x: MultiversionSnapshot)
  {
    caps.Serves(x.Version()) && Selects(schedule, x)
  }

  /** The schedule's label selector, scoped to its namespace, matches the snapshot. */
  predicate Selects(schedule: SnapshotSchedule, x: MultiversionSnapshot)
  {
    InScope(schedule.namespace, x.Meta().namespace) && x.ScheduleLabel() == Some(schedule.name)
  }

  /** What one list call for `version` returns: the objects of that version the selector matches. */
  function ListedAs(schedule: SnapshotSchedule, version: SchemaVersion): MultiversionSnapshot -> bool
  {
    (x: MultiversionSnapshot) => x.Version() == version && Selects(schedule, x)
  }

  function ListVersion(schedule: SnapshotSchedule, caps: Capabilities, version: SchemaVersion,
                       stored: seq<MultiversionSnapshot>): seq<MultiversionSnapshot>
  {
    if caps.Serves(version) then Filter(ListedAs(schedule, version), stored) else []
  }

  /**
   * The snapshots the schedule owns, merged from one list call per served version. A schedule
   * name that is not a valid label value fails before anything is listed.
   */
  function SnapshotsFromSchedule(schedule: SnapshotSchedule, caps: Capabilities,
                                 stored: seq<MultiversionSnapshot>): (r: Result<seq<MultiversionSnapshot>, Error>)
    ensures r.Err? <==> !ValidLabelValue(schedule.name)
    ensures r.Err? ==> r.error == InvalidLabelValue(schedule.name)
    ensures r.Ok? ==> forall x :: x in r.value <==> x in stored && OwnedBy(schedule, caps, x)
    ensures r.Ok? ==> forall x :: multiset(r.value)[x] == if OwnedBy(schedule, caps, x) then multiset(stored)[x] else 0
  {
    if !ValidLabelValue(schedule.name) then Err(InvalidLabelValue(schedule.name))
    else
      FilterMembers(ListedAs(schedule, V1Alpha1), stored);
      FilterMembers(ListedAs(schedule, V1Beta1), stored);
      FilterCounts(ListedAs(schedule, V1Alpha1), stored);
      FilterCounts(ListedAs(schedule, V1Beta1), stored);
      Ok(ListVersion(schedule, caps, V1Alpha1, stored) + ListVersion(schedule, caps, V1Beta1, stored))
  }
}
