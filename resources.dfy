/**
 * The cluster objects the retention engine reads: snapshot schedules and volume snapshots in
 * either of the two schema versions the storage driver may serve, with a uniform view over both.
 */
module Resources {
  import opened Wrappers

  /** The label every snapshot carries, naming the schedule that created it. */
  const ScheduleKey: string := "snapscheduler.backube/schedule"

  /** A namespaced object identity: the target of get and delete calls. */
  datatype ObjectKey = ObjectKey(namespace: string, name: string)

  /** Timestamps are whole seconds. */
  datatype ObjectMeta = ObjectMeta(name: string, namespace: string, creationTimestamp: int, labels: map<string, string>)

  /** The v1alpha1 snapshot: its source is an optional typed reference to a volume claim. */
  datatype TypedLocalObjectReference = TypedLocalObjectReference(kind: string, name: string)
  datatype VolumeSnapshotAlpha = VolumeSnapshotAlpha(meta: ObjectMeta, source: Option<TypedLocalObjectReference>)

  /** The v1beta1 snapshot: its source names the volume claim directly, when there is one. */
  datatype VolumeSnapshotBeta = VolumeSnapshotBeta(meta: ObjectMeta, persistentVolumeClaimName: Option<string>)

  datatype SchemaVersion = V1Alpha1 | V1Beta1

  /** Which snapshot schema versions the cluster serves. It is fixed at startup and passed to every listing. */
  datatype Capabilities = Capabilities(v1Alpha1: bool, v1Beta1: bool) {
    predicate Serves(v: SchemaVersion)
    {
      match v
      case V1Alpha1 => v1Alpha1
      case V1Beta1 => v1Beta1
    }
  }

  /** A snapshot of either schema version, behind one read-only view. */
  datatype MultiversionSnapshot = Alpha(alpha: VolumeSnapshotAlpha) | Beta(beta: VolumeSnapshotBeta) {
    function Version(): SchemaVersion
    {
      if Alpha? then V1Alpha1 else V1Beta1
    }

    function Meta(): ObjectMeta
    {
      if Alpha? then alpha.meta else beta.meta
    }

    function Key(): ObjectKey
    {
      ObjectKey(Meta().namespace, Meta().name)
    }

    function CreationTime(): int
    {
      Meta().creationTimestamp
    }

    /** The name of the volume claim the snapshot was taken from, if one is recorded. */
    function SourceVolume(): Option<string>
    {
      match this
      case Alpha(a) => if a.source.Some? then Some(a.source.value.name) else None
      case Beta(b) => b.persistentVolumeClaimName
    }

    /** The value of the owning-schedule label, if the label is present. */
    function ScheduleLabel(): Option<string>
    {
      if ScheduleKey in Meta().labels then Some(Meta().labels[ScheduleKey]) else None
    }

    function AsAlpha(): Option<VolumeSnapshotAlpha>
    {
      if Alpha? then Some(alpha) else None
    }

    function AsBeta(): Option<VolumeSnapshotBeta>
    {
      if Beta? then Some(beta) else None
    }
  }

  /** Wraps a v1alpha1 snapshot. The uniform view shows its metadata and its source reference's name. */
  function WrapSnapshotAlpha(s: VolumeSnapshotAlpha): (r: MultiversionSnapshot)
    ensures r.Version() == V1Alpha1 && r.AsAlpha() == Some(s) && r.AsBeta() == None
    ensures r.Key() == ObjectKey(s.meta.namespace, s.meta.name) && r.CreationTime() == s.meta.creationTimestamp
    ensures s.source.None? <==> r.SourceVolume().None?
    ensures s.source.Some? ==> r.SourceVolume() == Some(s.source.value.name)
  {
    Alpha(s)
  }

  /** Wraps a v1beta1 snapshot. The uniform view shows its metadata and its claim name. */
  function WrapSnapshotBeta(s: VolumeSnapshotBeta): (r: MultiversionSnapshot)
    ensures r.Version() == V1Beta1 && r.AsBeta() == Some(s) && r.AsAlpha() == None
    ensures r.Key() == ObjectKey(s.meta.namespace, s.meta.name) && r.CreationTime() == s.meta.creationTimestamp
    ensures r.SourceVolume() == s.persistentVolumeClaimName
  {
    Beta(s)
  }

  /** The retention part of a schedule's spec. An empty `expires` means no age limit. */
  datatype Retention = Retention(expires: string, maxCount: Option<nat>)

  datatype SnapshotSchedule = SnapshotSchedule(name: string, namespace: string, retention: Retention)

  /** The errors the engine reports. */
  datatype Error =
    | UnparsableDuration(text: string)
    | NonPositiveDuration(seconds: int)
    | InvalidLabelValue(value: string)
    | DeleteFailed(keys: seq<ObjectKey>)

  /** The identities of a sequence of snapshots. */
  function KeysOf(snaps: seq<MultiversionSnapshot>): set<ObjectKey>
  {
    set x | x in snaps :: x.Key()
  }

  /** A lone snapshot's identities are its own. */
  lemma KeysOfOne(x: MultiversionSnapshot)
    ensures KeysOf([x]) == {x.Key()}
  {
    assert x in [x];
    forall k | k in KeysOf([x]) ensures k == x.Key() {
      var y :| y in [x] && y.Key() == k;
    }
  }

  /** No two snapshots share an identity: a cluster holds at most one object per namespace and name. */
  ghost predicate UniqueKeys(snaps: seq<MultiversionSnapshot>)
  {
    snaps == [] || (snaps[0].Key() !in KeysOf(snaps[1..]) && UniqueKeys(snaps[1..]))
  }

  /** Snapshots whose identities differ pairwise have unique identities. */
  lemma {:induction false} DistinctKeysUnique(snaps: seq<MultiversionSnapshot>)
    requires forall i, j :: 0 <= i < j < |snaps| ==> snaps[i].Key() != snaps[j].Key()
    ensures UniqueKeys(snaps)
  {
    if snaps != [] {
      var rest := snaps[1..];
      assert forall i, j :: 0 <= i < j < |rest| ==> rest[i].Key() == snaps[i + 1].Key() && rest[j].Key() == snaps[j + 1].Key();
      DistinctKeysUnique(rest);
    }
  }

  /** With unique identities, an identity names one snapshot. */
  lemma {:induction false} UniqueKeysSame(snaps: seq<MultiversionSnapshot>, x: MultiversionSnapshot, y: MultiversionSnapshot)
    requires UniqueKeys(snaps) && x in snaps && y in snaps && x.Key() == y.Key()
    ensures x == y
  {
    if x != snaps[0] && y != snaps[0] {
      UniqueKeysSame(snaps[1..], x, y);
    }
  }
}
