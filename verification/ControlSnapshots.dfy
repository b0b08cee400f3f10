/** Snapshots of a deployment's control files: taking, restoring and comparing them. */
module ControlSnapshots {
  import opened Common

  type Bytes = seq<Byte>

  datatype Control = Env | Config | CustomCss | InstallManifest | InstallLock | Intent | AdminAccessKey

  const REQUIRED: seq<Control> := [Env, Config, CustomCss, InstallManifest, InstallLock]
  const CONTROLS: seq<Control> := [Env, Config, CustomCss, InstallManifest, InstallLock, Intent, AdminAccessKey]
  const MAX_CONTROL_BYTES: nat := 16 * 1024 * 1024
  const PERMISSIONS: nat := 0x200                       // 0o1000, one more than 0o777

  lemma ControlsAreAll(c: Control)
    ensures c in CONTROLS
  {
    match c
    case Env => assert CONTROLS[0] == c;
    case Config => assert CONTROLS[1] == c;
    case CustomCss => assert CONTROLS[2] == c;
    case InstallManifest => assert CONTROLS[3] == c;
    case InstallLock => assert CONTROLS[4] == c;
    case Intent => assert CONTROLS[5] == c;
    case AdminAccessKey => assert CONTROLS[6] == c;
  }

  /** What is at a path. The mode has the permission bits and the three bits above. */
  datatype Node = Regular(bytes: Bytes, mode: nat) | Irregular

  type Deployment = map<Control, Node>

  datatype Record = Absent | Present(mode: nat, sha256: string, size: nat)

  /** A snapshot directory: its manifest's records, and the copied files. */
  datatype Snapshot = Snapshot(records: map<Control, Record>, copies: map<Control, Bytes>)

  /** SHA-256 of a file, and whether a text has the form of a digest. */
  datatype Hash = Hash(of: Bytes -> string, valid: string -> bool)

  predicate Openable(node: Node) {
    node.Regular? && |node.bytes| <= MAX_CONTROL_BYTES
  }

  function RecordOf(hash: Hash, node: Option<Node>): Record {
    if node.Some? && node.value.Regular? then Present(node.value.mode, hash.of(node.value.bytes), |node.value.bytes|)
    else Absent
  }

  function At(deployment: Deployment, c: Control): Option<Node> {
    if c in deployment then Some(deployment[c]) else None
  }

  /* Taking a snapshot. */

  predicate Snapshottable(deployment: Deployment, c: Control) {
    if c in deployment then Openable(deployment[c]) else c !in REQUIRED
  }

  /** The snapshot of these controls, of this deployment. */
  ghost predicate Captures(hash: Hash, snapshot: Snapshot, deployment: Deployment, controls: set<Control>) {
    && snapshot.records.Keys == controls
    && (forall c :: c in controls ==> snapshot.records[c] == RecordOf(hash, At(deployment, c)))
    && (forall c :: c in snapshot.copies <==> c in controls && c in deployment)
    && (forall c :: c in snapshot.copies ==> deployment[c].Regular? && deployment[c].bytes == snapshot.copies[c])
  }

  function UpTo(n: nat): set<Control>
    requires n <= |CONTROLS|
  {
    set i | 0 <= i < n :: CONTROLS[i]
  }

  lemma UpToNext(n: nat)
    requires n < |CONTROLS|
    ensures UpTo(n + 1) == UpTo(n) + {CONTROLS[n]}
  {
  }

  /** What can be captured: the five required controls are there, and everything that is
      there is a regular file of at most 16 MiB. */
  lemma SnapshottableExactly(deployment: Deployment)
    ensures (forall c :: Snapshottable(deployment, c)) <==>
            && {Env, Config, CustomCss, InstallManifest, InstallLock} <= deployment.Keys
            && forall c :: c in deployment ==> deployment[c].Regular? && |deployment[c].bytes| <= 16_777_216
  {
    if forall c :: Snapshottable(deployment, c) {
      forall c | c in {Env, Config, CustomCss, InstallManifest, InstallLock}
        ensures c in deployment
      {
        assert REQUIRED[0] == Env && REQUIRED[1] == Config && REQUIRED[2] == CustomCss;
        assert REQUIRED[3] == InstallManifest && REQUIRED[4] == InstallLock;
        assert Snapshottable(deployment, c);
      }
      assert forall c :: c in deployment ==> Snapshottable(deployment, c);
    }
  }

  /** `command_snapshot`. */
  method TakeSnapshot(hash: Hash, deployment: Deployment) returns (r: Option<Snapshot>)
    ensures r.Some? <==> forall c :: Snapshottable(deployment, c)
    ensures r.Some? ==> Captures(hash, r.value, deployment, UpTo(|CONTROLS|))
  {
    var records: map<Control, Record>, copies: map<Control, Bytes> := map[], map[];
    ghost var done: set<Control> := {};
    for i := 0 to |CONTROLS|
      invariant done == UpTo(i)
      invariant Captures(hash, Snapshot(records, copies), deployment, done)
      invariant forall c :: c in done ==> Snapshottable(deployment, c)
    {
      UpToNext(i);
      var c := CONTROLS[i];
      done := done + {c};
      if c !in deployment {
        if c in REQUIRED {
          assert !Snapshottable(deployment, c);
          return None;
        }
        records := records[c := Absent];
      } else {
        if !Openable(deployment[c]) {
          assert !Snapshottable(deployment, c);
          return None;
        }
        var payload := deployment[c].bytes;
        copies := copies[c := payload];
        records := records[c := Present(deployment[c].mode, hash.of(payload), |payload|)];
      }
    }
    forall c
      ensures Snapshottable(deployment, c)
    {
      ControlsAreAll(c);
    }
    return Some(Snapshot(records, copies));
  }

  /* Comparing. */

  predicate ValidRecord(hash: Hash, r: Record) {
    r.Present? ==> r.mode < PERMISSIONS && r.size <= MAX_CONTROL_BYTES && hash.valid(r.sha256)
  }

  /** `validate_snapshot`. */
  predicate ValidSnapshot(hash: Hash, snapshot: Snapshot) {
    && snapshot.records.Keys == UpTo(|CONTROLS|)
    && forall c :: c in snapshot.records ==> ValidRecord(hash, snapshot.records[c])
  }

  /** A record for each of the seven controls; what is present has a mode of nine
      permission bits, at most 16 MiB, and a digest. */
  lemma ValidExactly(hash: Hash, snapshot: Snapshot)
    ensures ValidSnapshot(hash, snapshot) <==>
            && (forall c: Control :: c in snapshot.records)
            && forall c :: c in snapshot.records && snapshot.records[c].Present? ==>
                 var r := snapshot.records[c]; r.mode <= 0x1ff && r.size <= 16_777_216 && hash.valid(r.sha256)
  {
    forall c: Control
      ensures c in UpTo(|CONTROLS|)
    {
      ControlsAreAll(c);
    }
  }

  /** The live control is as the record says. */
  predicate Unchanged(hash: Hash, node: Option<Node>, r: Record) {
    if r.Absent? then node.None?
    else node.Some? && Openable(node.value) && RecordOf(hash, node) == r
  }

  predicate MatchesSnapshot(hash: Hash, deployment: Deployment, snapshot: Snapshot) {
    && ValidSnapshot(hash, snapshot)
    && forall c :: c in snapshot.records ==> Unchanged(hash, At(deployment, c), snapshot.records[c])
  }

  /** `command_snapshot_matches`. */
  method SnapshotMatches(hash: Hash, deployment: Deployment, snapshot: Snapshot) returns (accepted: bool)
    ensures accepted <==> MatchesSnapshot(hash, deployment, snapshot)
  {
    if !ValidSnapshot(hash, snapshot) {
      return false;
    }
    for i := 0 to |CONTROLS|
      invariant forall c :: c in UpTo(i) ==> Unchanged(hash, At(deployment, c), snapshot.records[c])
    {
      UpToNext(i);
      var c := CONTROLS[i];
      assert c in UpTo(|CONTROLS|);
      var record := snapshot.records[c];
      var present := c in deployment;
      if record.Present? != present {
        return false;
      }
      if present {
        if !Openable(deployment[c]) {
          return false;
        }
        var live := deployment[c];
        if |live.bytes| != record.size || hash.of(live.bytes) != record.sha256 || live.mode != record.mode {
          return false;
        }
      }
    }
    return true;
  }

  /* Restoring. */

  class Target {
    var controls: Deployment
    var evidence: Deployment                 // controls that were moved aside
    const evidenceSafe: bool                 // whether what is at the evidence path can serve
    const failing: set<Control>              // controls whose move or replacement fails
    const unsynced: set<Control>             // those after whose move or replacement a sync fails

    constructor (controls: Deployment, evidence: Deployment, evidenceSafe: bool, failing: set<Control>,
                 unsynced: set<Control>)
      ensures this.controls == controls && this.evidence == evidence
      ensures this.evidenceSafe == evidenceSafe && this.failing == failing && this.unsynced == unsynced
    {
      this.controls, this.evidence := controls, evidence;
      this.evidenceSafe, this.failing, this.unsynced := evidenceSafe, failing, unsynced;
    }

    predicate Blocked(c: Control, record: Record)
      reads this
    {
      c in failing || (record.Absent? && (!evidenceSafe || c in evidence))
    }

    /** Whether a control is restored at all, and without an error after that. */
    predicate CanRestore(hash: Hash, c: Control, record: Record, copy: Option<Bytes>)
      reads this
    {
      Restorable(hash, record, copy, At(controls, c), Blocked(c, record))
    }

    predicate Completes(hash: Hash, c: Control, record: Record, copy: Option<Bytes>)
      reads this
    {
      && CanRestore(hash, c, record, copy)
      && (c in unsynced ==> record.Absent? && c !in controls)
    }

    /** One control: moved aside if the snapshot has none, replaced otherwise. A move or
        replacement that fails changes nothing; one after which a sync fails is done, and
        is reported as failed. */
    method RestoreControl(hash: Hash, c: Control, record: Record, copy: Option<Bytes>) returns (ok: bool)
      requires ValidRecord(hash, record)
      modifies this
      ensures ok <==> old(Completes(hash, c, record, copy))
      ensures old(CanRestore(hash, c, record, copy)) ==> Settled(hash, record, copy, At(controls, c))
      ensures !old(CanRestore(hash, c, record, copy)) ==> controls == old(controls) && evidence == old(evidence)
      ensures forall d :: d != c ==> At(controls, d) == At(old(controls), d)
      ensures forall d :: d in old(evidence) ==> d in evidence && evidence[d] == old(evidence)[d]
      ensures c in old(controls) && c !in controls ==> c in evidence && evidence[c] == old(controls)[c]
      ensures forall d :: d in evidence ==> d in old(evidence) || d == c
    {
      if record.Absent? {
        if c !in controls {
          return true;
        }
        if !Openable(controls[c]) || Blocked(c, record) {
          return false;
        }
        evidence := evidence[c := controls[c]];
        controls := controls - {c};
        return c !in unsynced;
      }
      if copy.None? || |copy.value| > MAX_CONTROL_BYTES {
        return false;
      }
      var payload := copy.value;
      if |payload| != record.size || hash.of(payload) != record.sha256 {
        return false;
      }
      if (c in controls && !controls[c].Regular?) || Blocked(c, record) {
        return false;
      }
      controls := controls[c := Regular(payload, record.mode % PERMISSIONS)];
      return c !in unsynced;
    }

    predicate AllComplete(hash: Hash, snapshot: Snapshot, which: set<Control>)
      reads this
      requires which <= snapshot.records.Keys
    {
      forall c :: c in which ==> Completes(hash, c, snapshot.records[c], Copy(snapshot, c))
    }

    /** `command_restore`: control by control, stopping at the first that fails. After
        success the comparison accepts, whatever the snapshot directory holds; after a
        failure each control is as it was or as the snapshot has it. */
    method Restore(hash: Hash, snapshot: Snapshot) returns (ok: bool)
      modifies this
      ensures ok ==> MatchesSnapshot(hash, controls, snapshot) && AllSettled(hash, snapshot, controls, UpTo(|CONTROLS|))
      ensures ok <==> ValidSnapshot(hash, snapshot) && old(AllComplete(hash, snapshot, UpTo(|CONTROLS|)))
      ensures if ValidSnapshot(hash, snapshot) then EachOldOrNew(hash, snapshot, old(controls), controls)
              else controls == old(controls) && evidence == old(evidence)
      ensures MovedAside(old(controls), controls, evidence)
    {
      if !ValidSnapshot(hash, snapshot) {
        return false;
      }
      ghost var done: set<Control> := {};
      for i := 0 to |CONTROLS|
        invariant done == UpTo(i) && done <= snapshot.records.Keys
        invariant forall c :: c !in done ==> At(controls, c) == At(old(controls), c)
        invariant forall c :: c !in done ==> (c in evidence <==> c in old(evidence))
        invariant AllSettled(hash, snapshot, controls, done)
        invariant old(AllComplete(hash, snapshot, done))
        invariant MovedAside(old(controls), controls, evidence)
      {
        UpToNext(i);
        FreshControl(i);
        var c := CONTROLS[i];
        ControlsAreListed(i);
        ghost var live, aside := controls, evidence;
        ok := RestoreControl(hash, c, snapshot.records[c], Copy(snapshot, c));
        StillAside(old(controls), live, aside, controls, evidence, c);
        if !ok {
          return false;
        }
        done := done + {c};
      }
      return true;
    }
  }

  ghost predicate EachOldOrNew(hash: Hash, snapshot: Snapshot, before: Deployment, controls: Deployment)
    requires snapshot.records.Keys == UpTo(|CONTROLS|)
  {
    forall c :: c in snapshot.records ==>
      At(controls, c) == At(before, c) || Settled(hash, snapshot.records[c], Copy(snapshot, c), At(controls, c))
  }

  /** Controls that disappeared are kept aside as they were. */
  predicate MovedAside(before: Deployment, controls: Deployment, evidence: Deployment) {
    forall c :: c in before && c !in controls ==> c in evidence && evidence[c] == before[c]
  }

  lemma StillAside(before: Deployment, live: Deployment, aside: Deployment, controls: Deployment, evidence: Deployment,
                   c: Control)
    requires MovedAside(before, live, aside) && At(live, c) == At(before, c)
    requires forall d :: d != c ==> At(controls, d) == At(live, d)
    requires forall d :: d in aside ==> d in evidence && evidence[d] == aside[d]
    requires c in live && c !in controls ==> c in evidence && evidence[c] == live[c]
    ensures MovedAside(before, controls, evidence)
  {
    forall d | d in before && d !in controls
      ensures d in evidence && evidence[d] == before[d]
    {
      if d != c {
        assert At(controls, d) == At(live, d);
      }
    }
  }

  /** The control is as the record says, with the bytes that the snapshot holds. */
  predicate Settled(hash: Hash, record: Record, copy: Option<Bytes>, node: Option<Node>) {
    && Unchanged(hash, node, record)
    && (record.Present? ==> copy.Some? && node == Some(Regular(copy.value, record.mode)))
  }

  predicate AllSettled(hash: Hash, snapshot: Snapshot, controls: Deployment, which: set<Control>)
    requires which <= snapshot.records.Keys
  {
    forall c :: c in which ==> Settled(hash, snapshot.records[c], Copy(snapshot, c), At(controls, c))
  }

  lemma ControlsAreListed(i: nat)
    requires i < |CONTROLS|
    ensures CONTROLS[i] in UpTo(|CONTROLS|)
  {
  }

  lemma FreshControl(i: nat)
    requires i < |CONTROLS|
    ensures CONTROLS[i] !in UpTo(i)
  {
  }

  function Copy(snapshot: Snapshot, c: Control): Option<Bytes> {
    if c in snapshot.copies then Some(snapshot.copies[c]) else None
  }

  /** When one control can be restored. */
  predicate Restorable(hash: Hash, record: Record, copy: Option<Bytes>, live: Option<Node>, blocked: bool) {
    match record
    case Absent => live.Some? ==> Openable(live.value) && !blocked
    case Present(_, sha256, size) =>
      && copy.Some? && |copy.value| <= MAX_CONTROL_BYTES && |copy.value| == size && hash.of(copy.value) == sha256
      && (live.Some? ==> live.value.Regular?) && !blocked
  }

  /** After a snapshot, any edits, and a successful restore, every control is what it was
      when the snapshot was taken: presence, bytes and mode. */
  lemma RestoredAsTaken(hash: Hash, snapshot: Snapshot, before: Deployment, after: Deployment)
    requires Captures(hash, snapshot, before, UpTo(|CONTROLS|)) && (forall c :: Snapshottable(before, c))
    requires AllSettled(hash, snapshot, after, UpTo(|CONTROLS|))
    ensures after == before
  {
    forall c
      ensures At(after, c) == At(before, c)
    {
      ControlsAreAll(c);
      assert c in snapshot.records;
    }
    assert forall c :: c in after <==> At(after, c).Some?;
    assert forall c :: c in before <==> At(before, c).Some?;
    assert forall c :: c in after ==> At(after, c).value == after[c] && At(before, c).value == before[c];
  }

  /** One control of a valid snapshot can be restored whatever regular file is there. */
  lemma TakenIsRestorable(hash: Hash, snapshot: Snapshot, before: Deployment, live: Deployment, c: Control)
    requires Captures(hash, snapshot, before, UpTo(|CONTROLS|)) && (forall d :: Snapshottable(before, d))
    requires c in live ==> Openable(live[c])
    ensures c in snapshot.records
    ensures Restorable(hash, snapshot.records[c], Copy(snapshot, c), At(live, c), false)
  {
    ControlsAreAll(c);
    assert Snapshottable(before, c);
  }

  /** Taken, edited in any way, and restored: if all modes have nine bits, nothing but
      regular files of at most 16 MiB is in the way, and no move, replacement or sync
      fails, every control is what it was. */
  method RestoreTaken(target: Target, hash: Hash, snapshot: Snapshot, ghost before: Deployment) returns (ok: bool)
    requires Captures(hash, snapshot, before, UpTo(|CONTROLS|)) && (forall c :: Snapshottable(before, c))
    requires (forall b :: hash.valid(hash.of(b))) && forall c :: c in before && before[c].Regular? ==> before[c].mode <= 0x1ff
    requires forall c :: c in target.controls ==>
               target.controls[c].Regular? && |target.controls[c].bytes| <= 16_777_216
    requires target.failing == {} && target.unsynced == {} && target.evidenceSafe && target.evidence == map[]
    modifies target
    ensures ok && target.controls == before
  {
    SnapshotIsUsable(hash, snapshot, before);
    forall c | c in UpTo(|CONTROLS|)
      ensures target.Completes(hash, c, snapshot.records[c], Copy(snapshot, c))
    {
      TakenIsRestorable(hash, snapshot, before, target.controls, c);
    }
    ok := target.Restore(hash, snapshot);
    RestoredAsTaken(hash, snapshot, before, target.controls);
  }

  /** A snapshot that was just taken can be restored exactly if no control carries a mode
      beyond the nine permission bits. */
  lemma SnapshotIsUsable(hash: Hash, snapshot: Snapshot, before: Deployment)
    requires Captures(hash, snapshot, before, UpTo(|CONTROLS|)) && (forall c :: Snapshottable(before, c))
    requires forall b :: hash.valid(hash.of(b))
    ensures MatchesSnapshot(hash, before, snapshot) <==> ValidSnapshot(hash, snapshot)
    ensures ValidSnapshot(hash, snapshot) <==> forall c :: c in before && before[c].Regular? ==> before[c].mode < PERMISSIONS
  {
    forall c
      ensures c in snapshot.records && Snapshottable(before, c)
    {
      ControlsAreAll(c);
    }
  }

  /** A concrete deployment with a set-user-id bit: its snapshot is taken and then
      refused. */
  lemma SetUserIdIsRefused(hash: Hash, snapshot: Snapshot)
    requires Captures(hash, snapshot, WithSetUserId(), UpTo(|CONTROLS|))
    ensures forall c :: Snapshottable(WithSetUserId(), c)
    ensures !ValidSnapshot(hash, snapshot)
  {
    ControlsAreAll(Env);
    assert snapshot.records[Env] == RecordOf(hash, Some(Regular([], 0x9a4)));
  }

  /** All controls with mode 0o644, and `.env` with mode 0o4644. */
  function WithSetUserId(): Deployment {
    map c | c in CONTROLS :: Regular([], if c == Env then 0x9a4 else 0x1a4)
  }
}
