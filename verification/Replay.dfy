/** How resent and late reports are answered in every reachable state. */
module Replay {
  import opened Text
  import opened Devices
  import opened Orphans
  import opened StateFiles
  import opened Commit
  import opened Protocol
  import opened Tracking
  import opened Durability

  /** The adapter hands an acknowledged report in again, with the same time and digest. */
  function Resend(a: Ack, payload: Payload, identityRejected: bool, pathsOpen: bool, now: Time): Step
  {
    BeginIngest(a.deviceId, a.collectedAt, Some(payload), a.digest, identityRejected, pathsOpen, now)
  }

  function Answer(s: State, step: Step): Prepared
    requires step.BeginIngest?
  {
    Prepare(s.mem, V2Request(step.id, step.collectedAt, step.payload, step.digest, step.identityRejected),
            step.now, true, step.pathsOpen)
  }

  /** The node may take device_v2 reports now, and the report is inside the clock window. */
  ghost predicate Open(s: State, d: DeviceId, collectedAt: Time, now: Time)
  {
    && s.up && s.inFlight.None? && s.tick.None? && d in s.mem.nodes && s.mem.nodes[d].enabled
    && OwnershipAllows(s.mem.nodes[d].ownership, DeviceV2, now) && WithinSkew(collectedAt, now)
  }

  /**
   * Resending any acknowledged report never commits it again and changes nothing. The answer is
   * "idempotent" exactly when the node still stands at that report, and "stale" otherwise.
   */
  lemma ResendIsNeverAccepted(run: seq<Step>, a: Ack, payload: Payload, identityRejected: bool, pathsOpen: bool, now: Time)
    requires Runs(INITIAL, run) && SoundRun(INITIAL, run, a.deviceId)
    requires a in Exec(INITIAL, run).acks && Open(Exec(INITIAL, run), a.deviceId, a.collectedAt, now)
    ensures var s, step := Exec(INITIAL, run), Resend(a, payload, identityRejected, pathsOpen, now);
            && Apply(s, step) == s
            && (Answer(s, step) == Refused(s.mem, IdempotentReplay) <==> s.mem.nodes[a.deviceId].collectedAt == a.collectedAt)
            && (Answer(s, step) == Refused(s.mem, StaleReport) <==> s.mem.nodes[a.deviceId].collectedAt != a.collectedAt)
  {
    RunKeepsDurable(INITIAL, run, a.deviceId);
    assert AckKept(Exec(INITIAL, run), a.deviceId, a);
  }

  /**
   * No report dated at or before an acknowledged one is ever committed, whatever it carries; one with the
   * acknowledged time and another digest is a conflict as long as the node stands at that report.
   */
  lemma NothingUpToAnAckIsAccepted(run: seq<Step>, a: Ack, step: Step)
    requires Runs(INITIAL, run) && SoundRun(INITIAL, run, a.deviceId)
    requires a in Exec(INITIAL, run).acks && step.BeginIngest? && step.id == a.deviceId && step.payload.Some?
    requires step.collectedAt <= a.collectedAt && Open(Exec(INITIAL, run), a.deviceId, step.collectedAt, step.now)
    ensures var s := Exec(INITIAL, run);
            && Apply(s, step) == s && Answer(s, step).Refused?
            && (Answer(s, step).error == ReportConflict <==>
                  step.collectedAt == s.mem.nodes[a.deviceId].collectedAt && step.digest != a.digest)
  {
    RunKeepsDurable(INITIAL, run, a.deviceId);
    assert AckKept(Exec(INITIAL, run), a.deviceId, a);
  }

  // ---- When the resend of the last report is idempotent

  function LastAcked(acks: seq<Ack>, d: DeviceId): Time
  {
    if acks == [] then 0
    else if acks[|acks| - 1].deviceId == d then acks[|acks| - 1].collectedAt
    else LastAcked(acks[..|acks| - 1], d)
  }

  lemma {:induction false} LastAckedIsAck(acks: seq<Ack>, d: DeviceId)
    ensures LastAcked(acks, d) == 0 || exists i :: 0 <= i < |acks| && acks[i].deviceId == d && acks[i].collectedAt == LastAcked(acks, d)
  {
    if acks != [] && acks[|acks| - 1].deviceId != d {
      var front := acks[..|acks| - 1];
      LastAckedIsAck(front, d);
      if LastAcked(front, d) != 0 {
        var i :| 0 <= i < |front| && front[i].deviceId == d && front[i].collectedAt == LastAcked(front, d);
        assert acks[i] == front[i];
      }
    }
  }

  predicate NotPast(file: File, d: DeviceId, limit: Time)
  {
    file.Some? ==> forall p :: p in Records(file.value, d) ==> Or(p.collectedAt, 0) <= limit
  }

  predicate OrphanNotPast(orphans: seq<Orphan>, d: DeviceId, limit: Time)
  {
    forall p :: p in About(orphans, d) ==> Or(p.collectedAt, 0) <= limit
  }

  /** Nothing durable or in memory is past the last acknowledged report. */
  ghost predicate Level(s: State, d: DeviceId, limit: Time)
  {
    && (forall f :: f in s.disk.primaryMaybe ==> NotPast(f, d, limit))
    && (forall f :: f in s.disk.backupMaybe ==> NotPast(f, d, limit))
    && (s.up && d in s.mem.nodes ==> Base(s, d).collectedAt <= limit)
    && (s.up ==> NotPast(s.tick, d, limit) && OrphanNotPast(s.mem.orphans, d, limit))
  }

  /** No write of this device's reports failed after its rename; a kill during a write counts as such a failure. */
  ghost predicate Calm(s: State, step: Step, d: DeviceId)
  {
    step.FinishIngest? && s.inFlight.Some? && s.inFlight.value.ack.deviceId == d ==> !step.env.primary.RenamedUnsynced?
  }

  ghost predicate CalmRun(s: State, run: seq<Step>, d: DeviceId)
    requires Runs(s, run)
    decreases |run|
  {
    run == [] || (Calm(s, run[0], d) && CalmRun(Apply(s, run[0]), run[1..], d))
  }

  lemma WriteKeepsLevel(disk: Disk, snapshot: Snapshot, env: WriteEnv, d: DeviceId, limit: Time)
    requires ValidDisk(disk)
    requires forall f :: f in disk.primaryMaybe ==> NotPast(f, d, limit)
    requires forall f :: f in disk.backupMaybe ==> NotPast(f, d, limit)
    requires NotPast(Some(snapshot), d, limit) || (!Write(disk, snapshot, env).1 && !env.primary.RenamedUnsynced?)
    ensures forall f :: f in Write(disk, snapshot, env).0.primaryMaybe ==> NotPast(f, d, limit)
    ensures forall f :: f in Write(disk, snapshot, env).0.backupMaybe ==> NotPast(f, d, limit)
  {
    WriteSettles(disk, snapshot, env);
  }

  /** Beginning an ingest keeps the fallback node; a legacy ticket cannot commit on a device_v2 device. */
  lemma UpdateKeepsBase(s: State, step: Step, d: DeviceId)
    requires WellFormed(s) && Guarded(s, d) && Enabled(s, step) && (step.BeginIngest? || step.LegacyCommit?)
    ensures var after := Apply(s, step);
            (d in after.mem.nodes <==> d in s.mem.nodes) && (d in s.mem.nodes ==> Base(after, d) == Base(s, d))
            && after.mem.orphans == s.mem.orphans && after.disk == s.disk && after.tick == s.tick && after.acks == s.acks && after.up == s.up
  {
    if step.BeginIngest? {
      PrepareFrame(s.mem, V2Request(step.id, step.collectedAt, step.payload, step.digest, step.identityRejected),
                   step.now, true, step.pathsOpen);
    } else {
      var req := LegacyRequest(step.legacyId, step.legacyCollectedAt, step.legacyPayload, step.ticket, step.connectionId);
      PrepareFrame(s.mem, req, step.now, false, true);
      if step.legacyId == d && d in s.mem.nodes { LegacyIsRefused(s.mem, req, step.now); }
    }
  }

  lemma LegacyIsRefused(mem: Memory, req: Request, now: Time)
    requires req.protocol.LegacySingleDevice? && !req.assignGeneration && req.deviceId in mem.nodes
    requires mem.nodes[req.deviceId].ownership.active == Some(DeviceV2)
    ensures Prepare(mem, req, now, false, true).mem == mem
  {
  }

  lemma LastAckedGrows(s: State, d: DeviceId, a: Ack)
    requires forall b :: b in s.acks && b.deviceId == d && a.deviceId == d ==> b.collectedAt < a.collectedAt
    ensures LastAcked(s.acks, d) <= LastAcked(s.acks + [a], d)
    ensures a.deviceId == d ==> LastAcked(s.acks + [a], d) == a.collectedAt
  {
    assert (s.acks + [a])[..|s.acks|] == s.acks;
    LastAckedIsAck(s.acks, d);
  }

  lemma FinishedAckIsNew(s: State, d: DeviceId)
    requires WellFormed(s) && Durable(s, d) && s.up && s.inFlight.Some?
    ensures forall b :: b in s.acks && b.deviceId == d && s.inFlight.value.ack.deviceId == d ==>
              b.collectedAt < s.inFlight.value.ack.collectedAt
  {
    forall b | b in s.acks && b.deviceId == d && s.inFlight.value.ack.deviceId == d
      ensures b.collectedAt < s.inFlight.value.ack.collectedAt
    {
      assert AckKept(s, d, b);
    }
  }

  lemma AckedFinishKeepsLevel(s: State, env: WriteEnv, now: Time, d: DeviceId)
    requires WellFormed(s) && Tracked(s, d) && Durable(s, d) && Level(s, d, LastAcked(s.acks, d))
    requires s.up && s.inFlight.Some? && Write(s.disk, SnapshotOf(s.mem, now), env).1
    ensures var after := ApplyFinish(s, env, now); Level(after, d, LastAcked(after.acks, d))
  {
    var ack := s.inFlight.value.ack;
    var limit := LastAcked(s.acks + [ack], d);
    FinishedAckIsNew(s, d);
    LastAckedGrows(s, d, ack);
    SnapshotNotPast(s, now, d, limit);
    WriteKeepsLevel(s.disk, SnapshotOf(s.mem, now), env, d, limit);
  }

  lemma FailedFinishKeepsLevel(s: State, env: WriteEnv, now: Time, d: DeviceId)
    requires WellFormed(s) && Tracked(s, d) && Durable(s, d) && Level(s, d, LastAcked(s.acks, d))
    requires s.up && s.inFlight.Some? && !Write(s.disk, SnapshotOf(s.mem, now), env).1
    requires s.inFlight.value.ack.deviceId == d ==> !env.primary.RenamedUnsynced?
    ensures var after := ApplyFinish(s, env, now); Level(after, d, LastAcked(after.acks, d))
  {
    var limit := LastAcked(s.acks, d);
    if s.inFlight.value.ack.deviceId != d { SnapshotNotPast(s, now, d, limit); }
    WriteKeepsLevel(s.disk, SnapshotOf(s.mem, now), env, d, limit);
  }

  lemma SnapshotNotPast(s: State, now: Time, d: DeviceId, limit: Time)
    requires WellFormed(s) && Tracked(s, d) && s.up && OrphanNotPast(s.mem.orphans, d, limit)
    requires d in s.mem.nodes ==> s.mem.nodes[d].collectedAt <= limit
    ensures NotPast(Some(SnapshotOf(s.mem, now)), d, limit)
  {
    SnapshotOneEntry(s.mem, now, d);
  }

  lemma WriteStepKeepsLevel(s: State, step: Step, d: DeviceId)
    requires WellFormed(s) && Tracked(s, d) && Durable(s, d) && Level(s, d, LastAcked(s.acks, d))
    requires Enabled(s, step) && (step.BeginTick? || step.FinishTick?)
    ensures Level(Apply(s, step), d, LastAcked(Apply(s, step).acks, d))
  {
    match step
    case BeginTick(now) => SnapshotNotPast(s, now, d, LastAcked(s.acks, d));
    case FinishTick(env) => WriteKeepsLevel(s.disk, s.tick.value, env, d, LastAcked(s.acks, d));
  }

  lemma ReloadKeepsLevel(s: State, disconnect: bool, d: DeviceId, limit: Time)
    requires WellFormed(s) && Durable(s, d) && Level(s, d, limit) && Enabled(s, Reload(disconnect))
    ensures Level(Apply(s, Reload(disconnect)), d, limit)
  {
    RebuiltConfigured(s.mem, disconnect);
    if d in s.mem.nodes { ReloadKeepsNode(s, disconnect, d); }
  }

  lemma StartKeepsLevel(s: State, step: Step, d: DeviceId, limit: Time)
    requires WellFormed(s) && Tracked(s, d) && Level(s, d, limit) && Enabled(s, step) && step.Start?
    ensures Level(Apply(s, step), d, limit)
  {
    if Restarted(step.registry, s.disk, step.readPrimary, step.readBackup).Some? {
      StartRecords(step.registry, s.disk, step.readPrimary, step.readBackup, d);
      var file := ReadBack(s.disk, step.readPrimary, step.readBackup).value;
      assert NotPast(file, d, limit);
    }
  }

  lemma OtherStepKeepsLevel(s: State, step: Step, d: DeviceId, limit: Time)
    requires Level(s, d, limit) && ValidDisk(s.disk) && Enabled(s, step)
    requires step.DrawTicket? || step.Connect? || step.Stop? || step.PowerLoss?
    ensures Level(Apply(s, step), d, limit)
  {
  }

  lemma StepKeepsLevel(s: State, step: Step, d: DeviceId)
    requires WellFormed(s) && Tracked(s, d) && Durable(s, d) && Level(s, d, LastAcked(s.acks, d))
    requires Enabled(s, step) && Calm(s, step, d) && Sound(s, step, d)
    ensures Level(Apply(s, step), d, LastAcked(Apply(s, step).acks, d))
  {
    match step
    case BeginIngest(_, _, _, _, _, _, _) => UpdateKeepsBase(s, step, d);
    case LegacyCommit(_, _, _, _, _, _) => UpdateKeepsBase(s, step, d);
    case FinishIngest(env, now) =>
      if Write(s.disk, SnapshotOf(s.mem, now), env).1 {
        AckedFinishKeepsLevel(s, env, now, d);
      } else {
        FailedFinishKeepsLevel(s, env, now, d);
      }
    case BeginTick(_) => WriteStepKeepsLevel(s, step, d);
    case FinishTick(_) => WriteStepKeepsLevel(s, step, d);
    case Reload(disconnect) => ReloadKeepsLevel(s, disconnect, d, LastAcked(s.acks, d));
    case Start(_, _, _) => StartKeepsLevel(s, step, d, LastAcked(s.acks, d));
    case _ => OtherStepKeepsLevel(s, step, d, LastAcked(s.acks, d));
  }

  lemma {:induction false} RunKeepsLevel(s: State, run: seq<Step>, d: DeviceId)
    requires WellFormed(s) && Tracked(s, d) && Durable(s, d) && Level(s, d, LastAcked(s.acks, d))
    requires Runs(s, run) && CalmRun(s, run, d) && SoundRun(s, run, d)
    ensures Durable(Exec(s, run), d) && Level(Exec(s, run), d, LastAcked(Exec(s, run).acks, d))
    decreases |run|
  {
    if run != [] {
      StepKeepsShape(s, run[0]);
      StepKeepsTracked(s, run[0], d);
      StepKeepsDurable(s, run[0], d);
      StepKeepsLevel(s, run[0], d);
      RunKeepsLevel(Apply(s, run[0]), run[1..], d);
    }
  }

  /**
   * In every run where no write of the device's reports failed after its rename, resending its last
   * acknowledged report is answered as idempotent, also after any number of restarts and power losses.
   */
  lemma LastReportIsIdempotent(run: seq<Step>, a: Ack, payload: Payload, identityRejected: bool, pathsOpen: bool, now: Time)
    requires Runs(INITIAL, run) && SoundRun(INITIAL, run, a.deviceId)
    requires CalmRun(INITIAL, run, a.deviceId)
    requires a in Exec(INITIAL, run).acks && a.collectedAt == LastAcked(Exec(INITIAL, run).acks, a.deviceId)
    requires Open(Exec(INITIAL, run), a.deviceId, a.collectedAt, now)
    ensures var s, step := Exec(INITIAL, run), Resend(a, payload, identityRejected, pathsOpen, now);
            Apply(s, step) == s && Answer(s, step) == Refused(s.mem, IdempotentReplay)
  {
    RunKeepsLevel(INITIAL, run, a.deviceId);
    assert AckKept(Exec(INITIAL, run), a.deviceId, a);
    ResendIsNeverAccepted(run, a, payload, identityRejected, pathsOpen, now);
  }

  // ---- No report beyond the clock window of the last contact is refused as old

  predicate NodeInSkew(n: Node) { n.collectedAt <= n.lastSeen + MAX_CLOCK_SKEW }

  predicate RecordInSkew(p: Persisted) { Or(p.collectedAt, 0) <= Or(p.lastSeen, 0) + MAX_CLOCK_SKEW }

  predicate FileInSkew(file: File)
  {
    file.Some? ==> forall p :: p in DeviceRecords(file.value.devices) + OrphanRecords(file.value.orphans) ==> RecordInSkew(p)
  }

  ghost predicate InSkew(s: State)
  {
    && (forall f :: f in s.disk.primaryMaybe ==> FileInSkew(f))
    && (forall f :: f in s.disk.backupMaybe ==> FileInSkew(f))
    && (s.up ==>
      && (forall d :: d in s.mem.nodes ==> NodeInSkew(s.mem.nodes[d]))
      && (s.inFlight.Some? ==> NodeInSkew(s.inFlight.value.before))
      && (forall p :: p in OrphanRecords(s.mem.orphans) ==> RecordInSkew(p))
      && FileInSkew(s.tick))
  }

  lemma SnapshotInSkew(s: State, now: Time)
    requires WellFormed(s) && InSkew(s) && s.up
    ensures FileInSkew(Some(SnapshotOf(s.mem, now)))
  {
    ListedMembers(s.mem.registry, s.mem.nodes);
  }

  lemma WriteInSkew(disk: Disk, snapshot: Snapshot, env: WriteEnv)
    requires ValidDisk(disk) && FileInSkew(Some(snapshot))
    requires forall f :: f in disk.primaryMaybe ==> FileInSkew(f)
    requires forall f :: f in disk.backupMaybe ==> FileInSkew(f)
    ensures forall f :: f in Write(disk, snapshot, env).0.primaryMaybe ==> FileInSkew(f)
    ensures forall f :: f in Write(disk, snapshot, env).0.backupMaybe ==> FileInSkew(f)
  {
    WriteSettles(disk, snapshot, env);
  }

  lemma StartInSkew(registry: Registry, disk: Disk, readPrimary: bool, readBackup: Access)
    requires DistinctIds(registry) && Restarted(registry, disk, readPrimary, readBackup).Some?
    requires ReadBack(disk, readPrimary, readBackup).Some?
    requires var file := ReadBack(disk, readPrimary, readBackup).value; FileInSkew(file) && FileOk(file)
    ensures var mem := Restarted(registry, disk, readPrimary, readBackup).value;
            && (forall d :: d in mem.nodes ==> NodeInSkew(mem.nodes[d]))
            && (forall p :: p in OrphanRecords(mem.orphans) ==> RecordInSkew(p))
  {
    var blank := Rebuilt(registry, map[], false);
    RebuiltShape(registry, map[], false);
    var mem := Restarted(registry, disk, readPrimary, readBackup).value;
    var file := ReadBack(disk, readPrimary, readBackup).value;
    if file.Some? {
      RestoreIsExplained(blank, file.value);
      RestoreOrphansKnown(blank, file.value);
    }
    forall d | d in mem.nodes ensures NodeInSkew(mem.nodes[d]) {
      var device :| device in registry && device.id == d;
      assert blank[d] == FreshNode(device);
    }
  }

  lemma BeginInSkew(s: State, step: Step)
    requires WellFormed(s) && InSkew(s) && Enabled(s, step) && step.BeginIngest?
    ensures InSkew(Apply(s, step))
  {
  }

  lemma LegacyInSkew(s: State, step: Step)
    requires WellFormed(s) && InSkew(s) && Enabled(s, step) && step.LegacyCommit?
    ensures InSkew(Apply(s, step))
  {
  }

  lemma ReloadInSkew(s: State, disconnect: bool)
    requires WellFormed(s) && InSkew(s) && Enabled(s, Reload(disconnect))
    ensures InSkew(Apply(s, Reload(disconnect)))
  {
    RebuiltConfigured(s.mem, disconnect);
    var after := Apply(s, Reload(disconnect));
    forall d | d in after.mem.nodes ensures NodeInSkew(after.mem.nodes[d]) {
      assert NodeBoundary(after.mem.nodes[d]) == NodeBoundary(s.mem.nodes[d]);
    }
  }

  lemma StepInSkew(s: State, step: Step)
    requires WellFormed(s) && InSkew(s) && Enabled(s, step)
    ensures InSkew(Apply(s, step))
  {
    match step
    case BeginIngest(_, _, _, _, _, _, _) => BeginInSkew(s, step);
    case LegacyCommit(_, _, _, _, _, _) => LegacyInSkew(s, step);
    case FinishIngest(env, now) => SnapshotInSkew(s, now); WriteInSkew(s.disk, SnapshotOf(s.mem, now), env);
    case BeginTick(now) => SnapshotInSkew(s, now);
    case FinishTick(env) => WriteInSkew(s.disk, s.tick.value, env);
    case Reload(disconnect) => ReloadInSkew(s, disconnect);
    case Start(registry, readPrimary, readBackup) =>
      if Restarted(registry, s.disk, readPrimary, readBackup).Some? {
        StartInSkew(registry, s.disk, readPrimary, readBackup);
      }
    case _ =>
  }

  lemma {:induction false} RunInSkew(s: State, run: seq<Step>)
    requires WellFormed(s) && InSkew(s) && Runs(s, run)
    ensures InSkew(Exec(s, run))
    decreases |run|
  {
    if run != [] {
      StepKeepsShape(s, run[0]);
      StepInSkew(s, run[0]);
      RunInSkew(Apply(s, run[0]), run[1..]);
    }
  }

  /** In every reachable state, a report dated past LastSeen plus the clock window is not refused as stale or conflicting. */
  lemma LaterReportIsNotStale(run: seq<Step>, d: DeviceId, req: Request, now: Time)
    requires Runs(INITIAL, run) && Exec(INITIAL, run).up && d in Exec(INITIAL, run).mem.nodes
    requires req.deviceId == d && req.collectedAt > Exec(INITIAL, run).mem.nodes[d].lastSeen + MAX_CLOCK_SKEW
    ensures var refusal := Decide(Some(Exec(INITIAL, run).mem.nodes[d]), true, false, req, now);
            refusal != Some(StaleReport) && refusal != Some(ReportConflict) && refusal != Some(IdempotentReplay)
  {
    RunInSkew(INITIAL, run);
  }
}
