/** A device that leaves the registry and returns finds its replay boundary; and three runs that show where guarantees end. */
module Custody {
  import opened Text
  import opened Devices
  import opened Orphans
  import opened StateFiles
  import opened Commit
  import opened Protocol
  import opened Tracking
  import opened Durability
  import opened Replay

  predicate Keeps(file: File, d: DeviceId, p: Persisted)
  {
    file.Some? && Records(file.value, d) == [p]
  }

  /** The unregistered device's entry p is in custody: on every possible file and in the orphan list. */
  ghost predicate InCustody(s: State, d: DeviceId, p: Persisted)
  {
    && (forall f :: f in s.disk.primaryMaybe ==> Keeps(f, d, p))
    && (s.up ==> d !in s.mem.nodes && About(s.mem.orphans, d) == [p] && (s.tick.Some? ==> Keeps(s.tick, d, p)))
  }

  /** Starts without the device, from a readable state file. */
  ghost predicate StartsWithout(step: Step, d: DeviceId)
  {
    step.Start? ==> d !in RegisteredIds(step.registry) && step.readPrimary
  }

  lemma WriteKeepsCustody(disk: Disk, snapshot: Snapshot, env: WriteEnv, d: DeviceId, p: Persisted)
    requires ValidDisk(disk) && Keeps(Some(snapshot), d, p) && forall f :: f in disk.primaryMaybe ==> Keeps(f, d, p)
    ensures forall f :: f in Write(disk, snapshot, env).0.primaryMaybe ==> Keeps(f, d, p)
  {
    WriteSettles(disk, snapshot, env);
  }

  lemma UpdateKeepsCustody(s: State, step: Step, d: DeviceId, p: Persisted)
    requires InCustody(s, d, p) && Enabled(s, step) && (step.BeginIngest? || step.LegacyCommit?)
    ensures InCustody(Apply(s, step), d, p)
  {
    if step.BeginIngest? {
      PrepareFrame(s.mem, V2Request(step.id, step.collectedAt, step.payload, step.digest, step.identityRejected),
                   step.now, true, step.pathsOpen);
    } else {
      PrepareFrame(s.mem, LegacyRequest(step.legacyId, step.legacyCollectedAt, step.legacyPayload, step.ticket, step.connectionId),
                   step.now, false, true);
    }
  }

  lemma WriteStepKeepsCustody(s: State, step: Step, d: DeviceId, p: Persisted)
    requires WellFormed(s) && InCustody(s, d, p) && Enabled(s, step)
    requires step.FinishIngest? || step.BeginTick? || step.FinishTick?
    ensures InCustody(Apply(s, step), d, p)
  {
    match step
    case FinishIngest(env, now) =>
      SnapshotOneEntry(s.mem, now, d);
      WriteKeepsCustody(s.disk, SnapshotOf(s.mem, now), env, d, p);
    case BeginTick(now) => SnapshotOneEntry(s.mem, now, d);
    case FinishTick(env) => WriteKeepsCustody(s.disk, s.tick.value, env, d, p);
  }

  lemma StepKeepsCustody(s: State, step: Step, d: DeviceId, p: Persisted)
    requires WellFormed(s) && InCustody(s, d, p) && Enabled(s, step) && StartsWithout(step, d)
    ensures InCustody(Apply(s, step), d, p)
  {
    match step
    case BeginIngest(_, _, _, _, _, _, _) => UpdateKeepsCustody(s, step, d, p);
    case LegacyCommit(_, _, _, _, _, _) => UpdateKeepsCustody(s, step, d, p);
    case FinishIngest(_, _) => WriteStepKeepsCustody(s, step, d, p);
    case BeginTick(_) => WriteStepKeepsCustody(s, step, d, p);
    case FinishTick(_) => WriteStepKeepsCustody(s, step, d, p);
    case Reload(disconnect) => RebuiltConfigured(s.mem, disconnect);
    case Start(registry, readPrimary, readBackup) =>
      assert Keeps(s.disk.primary, d, p);
      if Restarted(registry, s.disk, readPrimary, readBackup).Some? {
        StartRecords(registry, s.disk, readPrimary, readBackup, d);
      }
    case _ =>
  }

  lemma {:induction false} RunKeepsCustody(s: State, run: seq<Step>, d: DeviceId, p: Persisted)
    requires WellFormed(s) && InCustody(s, d, p) && Runs(s, run)
    requires forall step :: step in run ==> StartsWithout(step, d)
    ensures WellFormed(Exec(s, run)) && InCustody(Exec(s, run), d, p)
    decreases |run|
  {
    if run != [] {
      StepKeepsShape(s, run[0]);
      StepKeepsCustody(s, run[0], d, p);
      RunKeepsCustody(Apply(s, run[0]), run[1..], d, p);
    }
  }

  // ---- Leaving

  /** The node of a running process, its entry p on every possible file, and nothing of it in flight. */
  ghost predicate Resting(s: State, d: DeviceId, p: Persisted)
  {
    && s.up && d in s.mem.nodes && PersistedFromNode(d, s.mem.nodes[d]) == p && Decodes(p) && About(s.mem.orphans, d) == []
    && (forall f :: f in s.disk.primaryMaybe ==> Keeps(f, d, p))
    && (s.tick.Some? ==> Keeps(s.tick, d, p))
    && (s.inFlight.Some? ==> s.inFlight.value.ack.deviceId != d)
  }

  /** A step of the running process that commits no report of the device. */
  ghost predicate Quiet(s: State, step: Step, d: DeviceId)
    requires Enabled(s, step)
  {
    && !step.Stop? && !step.PowerLoss?
    && ((step.BeginIngest? && step.id == d) || (step.LegacyCommit? && step.legacyId == d) ==>
          Apply(s, step).mem.nodes == s.mem.nodes)
  }

  ghost predicate QuietRun(s: State, run: seq<Step>, d: DeviceId)
    requires Runs(s, run)
    decreases |run|
  {
    run == [] || (Quiet(s, run[0], d) && QuietRun(Apply(s, run[0]), run[1..], d))
  }

  /** A successful stats persist brings every device with a restorable payload to rest. */
  lemma PersistBringsRest(s: State, now: Time, env: WriteEnv, d: DeviceId)
    requires WellFormed(s) && Tracked(s, d) && s.up && s.inFlight.None? && s.tick.None? && d in s.mem.nodes
    requires Restorable(s.mem.nodes[d].payload) && Write(s.disk, SnapshotOf(s.mem, now), env).1
    ensures Resting(Apply(Apply(s, BeginTick(now)), FinishTick(env)), d, PersistedFromNode(d, s.mem.nodes[d]))
  {
    SnapshotOneEntry(s.mem, now, d);
    WriteSettles(s.disk, SnapshotOf(s.mem, now), env);
  }

  /** So does the acknowledgement of its own report. */
  lemma AckBringsRest(s: State, now: Time, env: WriteEnv, d: DeviceId)
    requires WellFormed(s) && Tracked(s, d) && s.up && s.inFlight.Some? && s.inFlight.value.ack.deviceId == d && d in s.mem.nodes
    requires Restorable(s.mem.nodes[d].payload) && Write(s.disk, SnapshotOf(s.mem, now), env).1
    ensures Resting(Apply(s, FinishIngest(env, now)), d, PersistedFromNode(d, s.mem.nodes[d]))
  {
    SnapshotOneEntry(s.mem, now, d);
    WriteSettles(s.disk, SnapshotOf(s.mem, now), env);
  }

  lemma UpdateKeepsRest(s: State, step: Step, d: DeviceId, p: Persisted)
    requires WellFormed(s) && Resting(s, d, p) && Enabled(s, step) && Quiet(s, step, d) && (step.BeginIngest? || step.LegacyCommit?)
    ensures Resting(Apply(s, step), d, p)
  {
    if step.BeginIngest? {
      var req := V2Request(step.id, step.collectedAt, step.payload, step.digest, step.identityRejected);
      PrepareFrame(s.mem, req, step.now, true, step.pathsOpen);
      CommitChangesNode(s.mem, req, step.now, step.pathsOpen);
    } else {
      PrepareFrame(s.mem, LegacyRequest(step.legacyId, step.legacyCollectedAt, step.legacyPayload, step.ticket, step.connectionId),
                   step.now, false, true);
    }
  }

  /** A committed device_v2 report shows in the node, so a step that changes no node has committed none. */
  lemma CommitChangesNode(mem: Memory, req: Request, now: Time, pathsOpen: bool)
    requires req.assignGeneration
    ensures Prepare(mem, req, now, true, pathsOpen).Committed? ==> Prepare(mem, req, now, true, pathsOpen).mem.nodes != mem.nodes
  {
    var p := Prepare(mem, req, now, true, pathsOpen);
    assert p.Committed? ==> p.mem.nodes[req.deviceId].generation > mem.nodes[req.deviceId].generation;
  }

  lemma WriteStepKeepsRest(s: State, step: Step, d: DeviceId, p: Persisted)
    requires WellFormed(s) && Tracked(s, d) && Resting(s, d, p) && Enabled(s, step)
    requires step.FinishIngest? || step.BeginTick? || step.FinishTick?
    ensures Resting(Apply(s, step), d, p)
  {
    match step
    case FinishIngest(env, now) =>
      SnapshotOneEntry(s.mem, now, d);
      WriteKeepsCustody(s.disk, SnapshotOf(s.mem, now), env, d, p);
    case BeginTick(now) => SnapshotOneEntry(s.mem, now, d);
    case FinishTick(env) => WriteKeepsCustody(s.disk, s.tick.value, env, d, p);
  }

  lemma ReloadKeepsRest(s: State, disconnect: bool, d: DeviceId, p: Persisted)
    requires WellFormed(s) && Resting(s, d, p) && Enabled(s, Reload(disconnect))
    ensures Resting(Apply(s, Reload(disconnect)), d, p)
  {
    RebuiltConfigured(s.mem, disconnect);
    RebuiltShape(s.mem.registry, s.mem.nodes, disconnect);
    var device :| device in s.mem.registry && device.id == d;
    assert Apply(s, Reload(disconnect)).mem.nodes[d] == CopyRuntime(device, s.mem.nodes[d], disconnect);
  }

  lemma StepKeepsRest(s: State, step: Step, d: DeviceId, p: Persisted)
    requires WellFormed(s) && Tracked(s, d) && Resting(s, d, p) && Enabled(s, step) && Quiet(s, step, d)
    ensures Resting(Apply(s, step), d, p)
  {
    match step
    case BeginIngest(_, _, _, _, _, _, _) => UpdateKeepsRest(s, step, d, p);
    case LegacyCommit(_, _, _, _, _, _) => UpdateKeepsRest(s, step, d, p);
    case FinishIngest(_, _) => WriteStepKeepsRest(s, step, d, p);
    case BeginTick(_) => WriteStepKeepsRest(s, step, d, p);
    case FinishTick(_) => WriteStepKeepsRest(s, step, d, p);
    case Reload(disconnect) => ReloadKeepsRest(s, disconnect, d, p);
    case _ =>
  }

  lemma {:induction false} RunKeepsRest(s: State, run: seq<Step>, d: DeviceId, p: Persisted)
    requires WellFormed(s) && Tracked(s, d) && Resting(s, d, p) && Runs(s, run) && QuietRun(s, run, d)
    ensures WellFormed(Exec(s, run)) && Resting(Exec(s, run), d, p)
    decreases |run|
  {
    if run != [] {
      StepKeepsShape(s, run[0]);
      StepKeepsTracked(s, run[0], d);
      StepKeepsRest(s, run[0], d, p);
      RunKeepsRest(Apply(s, run[0]), run[1..], d, p);
    }
  }

  /**
   * A device at rest: however long the process runs on without committing a report of it, and whatever
   * stops the process then, the entry is in custody.
   */
  lemma LeavingGivesCustody(s: State, run: seq<Step>, stop: Step, d: DeviceId, p: Persisted)
    requires WellFormed(s) && Tracked(s, d) && Resting(s, d, p) && Runs(s, run) && QuietRun(s, run, d)
    requires Enabled(Exec(s, run), stop) && (stop.Stop? || stop.PowerLoss?)
    ensures var gone := Apply(Exec(s, run), stop); WellFormed(gone) && !gone.up && InCustody(gone, d, p)
  {
    RunKeepsRest(s, run, d, p);
    StepKeepsShape(Exec(s, run), stop);
  }

  /**
   * Remove and re-add: a device absent for any number of restarts comes back with the collection
   * time, digest, generation and last contact it left with, and the counter is again past its generation.
   */
  lemma ReturnRestoresBoundary(s: State, run: seq<Step>, back: Step, d: DeviceId, p: Persisted)
    requires WellFormed(s) && InCustody(s, d, p) && Runs(s, run) && forall step :: step in run ==> StartsWithout(step, d)
    requires var gone := Exec(s, run); Enabled(gone, back) && back.Start? && back.readPrimary && d in RegisteredIds(back.registry)
    ensures var again := Apply(Exec(s, run), back);
            again.up ==>
              && d in again.mem.nodes && NodeBoundary(again.mem.nodes[d]) == RecordBoundary(p)
              && p.generation <= again.mem.updateId && About(again.mem.orphans, d) == []
  {
    RunKeepsCustody(s, run, d, p);
    var gone := Exec(s, run);
    assert Keeps(gone.disk.primary, d, p);
    if Apply(gone, back).up {
      StartRecords(back.registry, gone.disk, back.readPrimary, back.readBackup, d);
    }
  }

  // ---- Three concrete runs

  lemma {:induction false} Extend(s: State, run: seq<Step>, step: Step)
    requires Runs(s, run) && Enabled(Exec(s, run), step)
    ensures Runs(s, run + [step]) && Exec(s, run + [step]) == Apply(Exec(s, run), step)
    ensures SoundRun(s, run, "d") && Sound(Exec(s, run), step, "d") ==> SoundRun(s, run + [step], "d")
    decreases |run|
  {
    if run == [] {
      assert ([] + [step])[1..] == [];
    } else {
      Extend(Apply(s, run[0]), run[1..], step);
      assert (run + [step])[1..] == run[1..] + [step];
    }
  }

  const SYNCED := WriteEnv(true, true, Synced, Synced)

  const DEVICE := RegistryDevice("d", true, Ownership(DeviceV2Mode, Some(DeviceV2), None))

  function Report(t: Time, digest: Digest, payload: Payload): Step { BeginIngest("d", t, Some(payload), digest, false, true, t) }

  const STATS := Payload("stats", true)

  /** Whether a state file about the one device can be read back at all. */
  lemma SmallFileStarts(disk: Disk, readPrimary: bool, readBackup: Access)
    requires ReadBack(disk, readPrimary, readBackup).Some?
    requires var file := ReadBack(disk, readPrimary, readBackup).value;
             file.Some? ==> |file.value.devices| <= 1 && file.value.orphans == []
    ensures Restarted([DEVICE], disk, readPrimary, readBackup).Some?
  {
    var file := ReadBack(disk, readPrimary, readBackup).value;
    if file.Some? { RestoreConserves(Rebuilt([DEVICE], map[], false), file.value); }
  }

  /** The node a start on an empty disk makes. */
  lemma FirstStart() returns (s: State)
    ensures Enabled(INITIAL, Start([DEVICE], true, Usable)) && s == Apply(INITIAL, Start([DEVICE], true, Usable))
    ensures s == State(EMPTY_DISK, true, Memory([DEVICE], map["d" := FreshNode(DEVICE)], 0, []), multiset{}, None, None, [])
  {
    s := Apply(INITIAL, Start([DEVICE], true, Usable));
    assert [DEVICE][..0] == [];
    assert Rebuilt([DEVICE], map[], false) == map["d" := FreshNode(DEVICE)];
  }

  /** One report accepted in memory on top of a quiet state. */
  lemma ReportCommits(s: State, t: Time, digest: Digest, payload: Payload)
    requires s.up && s.inFlight.None? && s.tick.None? && s.mem.nodes.Keys == {"d"} && t > 0
    requires s.mem.nodes["d"].enabled && s.mem.nodes["d"].ownership == DEVICE.ownership
    requires s.mem.nodes["d"].collectedAt < t && s.mem.nodes["d"].generation <= s.mem.updateId
    ensures Enabled(s, Report(t, digest, payload))
    ensures var after := Apply(s, Report(t, digest, payload));
            && after.up && after.inFlight.Some? && after.inFlight.value.ack == Ack("d", t, digest)
            && after.tick.None? && after.disk == s.disk && after.acks == s.acks
            && after.mem.registry == s.mem.registry && after.mem.orphans == s.mem.orphans
            && after.mem.nodes.Keys == {"d"} && after.mem.nodes["d"].collectedAt == t
            && after.mem.nodes["d"].digest == Some(digest) && after.mem.nodes["d"].payload == Some(payload)
            && after.mem.nodes["d"].enabled && after.mem.nodes["d"].ownership == DEVICE.ownership
            && after.mem.nodes["d"].generation <= after.mem.updateId
            && after.inFlight.value.before == s.mem.nodes["d"]
  {
  }

  /** The first run up to its second report being in flight: one acknowledged report, its file settled. */
  lemma TwoReports() returns (run: seq<Step>)
    ensures Runs(INITIAL, run) && SoundRun(INITIAL, run, "d")
    ensures var s := Exec(INITIAL, run);
            && s.up && s.inFlight.Some? && s.inFlight.value.ack == Ack("d", 20, "b") && s.tick.None?
            && s.acks == [Ack("d", 10, "a")] && s.mem.registry == [DEVICE] && s.mem.orphans == []
            && s.mem.nodes.Keys == {"d"} && s.mem.nodes["d"].collectedAt == 20 && s.mem.nodes["d"].digest == Some("b")
            && s.mem.nodes["d"].payload == Some(STATS)
            && s.disk.primary.Some? && |s.disk.primary.value.devices| == 1
            && s.disk.primary.value.orphans == []
            && var p := s.disk.primary.value.devices[0];
               p.deviceId == "d" && Decodes(p) && p.collectedAt == Some(10)
  {
    var s := FirstStart();
    run := [] + [Start([DEVICE], true, Usable)];
    Extend(INITIAL, [], Start([DEVICE], true, Usable));
    assert OwnedByV2([DEVICE], "d") by { assert DEVICE in [DEVICE]; }
    ReportCommits(s, 10, "a", STATS);
    Extend(INITIAL, run, Report(10, "a", STATS));
    run := run + [Report(10, "a", STATS)];
    var t := Apply(s, Report(10, "a", STATS));
    Extend(INITIAL, run, FinishIngest(SYNCED, 10));
    run := run + [FinishIngest(SYNCED, 10)];
    assert [DEVICE][..0] == [];
    assert Listed([DEVICE], t.mem.nodes) == [PersistedFromNode("d", t.mem.nodes["d"])];
    var u := Apply(t, FinishIngest(SYNCED, 10));
    ReportCommits(u, 20, "b", STATS);
    Extend(INITIAL, run, Report(20, "b", STATS));
    run := run + [Report(20, "b", STATS)];
  }

  lemma {:induction false} StopAndStart(run: seq<Step>, last: Step, start: Step) returns (longer: seq<Step>)
    requires Runs(INITIAL, run)
    requires Enabled(Exec(INITIAL, run), last) && !last.Start? && Apply(Exec(INITIAL, run), last).up
    requires start.Start? && start.registry == [DEVICE]
    ensures longer == run + [last] + [Stop] + [start] && Runs(INITIAL, longer)
    ensures Exec(INITIAL, longer) == ApplyStart(Down(Apply(Exec(INITIAL, run), last), Apply(Exec(INITIAL, run), last).disk), start)
    ensures start.readPrimary && SoundRun(INITIAL, run, "d") && Sound(Exec(INITIAL, run), last, "d") ==> SoundRun(INITIAL, longer, "d")
  {
    longer := run + [last] + [Stop] + [start];
    Extend(INITIAL, run, last);
    Extend(INITIAL, run + [last], Stop);
    Extend(INITIAL, run + [last] + [Stop], start);
    assert OwnedByV2([DEVICE], "d") by { assert DEVICE in [DEVICE]; }
  }

  /**
   * Where idempotence ends: a report whose write failed only after the rename was refused, yet a
   * restart finds it on disk, so resending the last acknowledged report is answered as stale.
   */
  lemma UnsyncedRenameMakesResendStale() returns (run: seq<Step>)
    ensures Runs(INITIAL, run) && SoundRun(INITIAL, run, "d")
    ensures var s := Exec(INITIAL, run);
            && s.acks == [Ack("d", 10, "a")]
            && Answer(s, Resend(s.acks[0], STATS, false, true, 30)) == Refused(s.mem, StaleReport)
  {
    var before := TwoReports();
    var s := Exec(INITIAL, before);
    var env := WriteEnv(true, true, Synced, RenamedUnsynced);
    assert [DEVICE][..0] == [];
    assert Listed([DEVICE], s.mem.nodes) == [PersistedFromNode("d", s.mem.nodes["d"])];
    var failed := Apply(s, FinishIngest(env, 20));
    assert failed.disk.primary == Some(SnapshotOf(s.mem, 20)) && failed.acks == s.acks;
    SmallFileStarts(failed.disk, true, Usable);
    run := StopAndStart(before, FinishIngest(env, 20), Start([DEVICE], true, Usable));
    EntryOfOne(failed.disk.primary.value);
    RestartedAt(failed.disk, failed.disk.primary.value);
    StaleAnswer(Exec(INITIAL, run), 10, "a", 30);
  }

  lemma RestartedAt(disk: Disk, snapshot: Snapshot)
    requires disk.primary == Some(snapshot) && DistinctDevices(snapshot.devices) && |Records(snapshot, "d")| == 1
    requires Restarted([DEVICE], disk, true, Usable).Some?
    ensures var mem := Restarted([DEVICE], disk, true, Usable).value;
            && "d" in mem.nodes && mem.nodes["d"].enabled && mem.nodes["d"].ownership == DEVICE.ownership
            && mem.nodes["d"].collectedAt == Or(Records(snapshot, "d")[0].collectedAt, 0)
            && mem.nodes["d"].digest == Records(snapshot, "d")[0].digest
  {
    assert DEVICE in [DEVICE];
    assert "d" in RegisteredIds([DEVICE]);
    StartRecords([DEVICE], disk, true, Usable, "d");
    RestartedShape([DEVICE], disk, true, Usable);
  }

  lemma StaleAnswer(s: State, t: Time, digest: Digest, now: Time)
    requires "d" in s.mem.nodes && s.mem.nodes["d"].enabled && s.mem.nodes["d"].ownership == DEVICE.ownership
    requires 0 < t < s.mem.nodes["d"].collectedAt && WithinSkew(t, now)
    ensures Answer(s, Resend(Ack("d", t, digest), STATS, false, true, now)) == Refused(s.mem, StaleReport)
  {
  }

  lemma EntryOfOne(snapshot: Snapshot)
    requires |snapshot.devices| == 1 && snapshot.devices[0].deviceId == "d" && Decodes(snapshot.devices[0]) && snapshot.orphans == []
    ensures Records(snapshot, "d") == [snapshot.devices[0]]
  {
    assert snapshot.devices[..0] == [] && Entries([], "d") == [];
    assert Entries(snapshot.devices, "d") == [snapshot.devices[0]];
  }

  /**
   * Where durability ends: when the state file cannot be read at a start, the backup is used, and it
   * is one write behind, so an acknowledged report is gone from memory.
   */
  lemma UnreadablePrimaryLosesAck() returns (run: seq<Step>)
    ensures Runs(INITIAL, run)
    ensures var s := Exec(INITIAL, run);
            && s.up && s.acks == [Ack("d", 10, "a"), Ack("d", 20, "b")] && "d" in s.mem.nodes
            && s.mem.nodes["d"].collectedAt == 10
            && !Reaches(s.mem.nodes["d"].collectedAt, s.mem.nodes["d"].digest, s.acks[1])
  {
    var before := TwoReports();
    var s := Exec(INITIAL, before);
    RunKeepsDurable(INITIAL, before, "d");
    assert [DEVICE][..0] == [];
    assert Listed([DEVICE], s.mem.nodes) == [PersistedFromNode("d", s.mem.nodes["d"])];
    var acked := Apply(s, FinishIngest(SYNCED, 20));
    assert acked.disk.backup == s.disk.primary && acked.acks == s.acks + [Ack("d", 20, "b")];
    SmallFileStarts(acked.disk, false, Usable);
    run := StopAndStart(before, FinishIngest(SYNCED, 20), Start([DEVICE], false, Usable));
    EntryOfOne(acked.disk.backup.value);
    StartRecords([DEVICE], acked.disk, false, Usable, "d");
    assert "d" in RegisteredIds([DEVICE]) by { assert DEVICE in [DEVICE]; }
  }

  /** A start from a file whose only entry, the device's own, does not decode. */
  lemma RestartedAfresh(disk: Disk, snapshot: Snapshot)
    requires disk.primary == Some(snapshot) && DistinctDevices(snapshot.devices) && Records(snapshot, "d") == []
    requires Restarted([DEVICE], disk, true, Usable).Some?
    ensures var mem := Restarted([DEVICE], disk, true, Usable).value;
            && "d" in mem.nodes && mem.nodes["d"].enabled && mem.nodes["d"].ownership == DEVICE.ownership
            && mem.nodes["d"].collectedAt == 0 && mem.nodes["d"].generation <= mem.updateId
  {
    assert DEVICE in [DEVICE];
    assert "d" in RegisteredIds([DEVICE]);
    StartRecords([DEVICE], disk, true, Usable, "d");
    RestartedShape([DEVICE], disk, true, Usable);
  }

  /** A report accepted, written and acknowledged on an empty disk. */
  lemma OneReport(payload: Payload) returns (run: seq<Step>)
    ensures Runs(INITIAL, run) && forall step :: step in run ==> GoodStart(step, "d")
    ensures var s := Exec(INITIAL, run);
            && s.up && s.inFlight.Some? && s.tick.None? && s.acks == [] && s.disk == EMPTY_DISK
            && s.inFlight.value.ack == Ack("d", 10, "a")
            && s.mem.registry == [DEVICE] && s.mem.orphans == [] && s.mem.nodes.Keys == {"d"}
            && s.mem.nodes["d"].payload == Some(payload)
  {
    var s := FirstStart();
    run := [] + [Start([DEVICE], true, Usable)];
    Extend(INITIAL, [], Start([DEVICE], true, Usable));
    assert OwnedByV2([DEVICE], "d") by { assert DEVICE in [DEVICE]; }
    ReportCommits(s, 10, "a", payload);
    Extend(INITIAL, run, Report(10, "a", payload));
    run := run + [Report(10, "a", payload)];
  }

  /**
   * Where durability ends for a payload that a restart refuses: acknowledged, then forgotten by a good
   * start, so the same report is committed once more.
   */
  lemma UnrestorableReportIsForgotten(payload: Payload) returns (run: seq<Step>)
    requires !payload.restorable
    ensures Runs(INITIAL, run) && forall step :: step in run ==> GoodStart(step, "d")
    ensures var s := Exec(INITIAL, run);
            && s.up && s.acks == [Ack("d", 10, "a")] && "d" in s.mem.nodes && s.mem.nodes["d"].collectedAt == 0
            && Answer(s, Resend(s.acks[0], payload, false, true, 20)).Committed?
  {
    var before := OneReport(payload);
    var s := Exec(INITIAL, before);
    assert [DEVICE][..0] == [];
    assert Listed([DEVICE], s.mem.nodes) == [PersistedFromNode("d", s.mem.nodes["d"])];
    var acked := Apply(s, FinishIngest(SYNCED, 10));
    assert acked.disk.primary == Some(SnapshotOf(s.mem, 10)) && acked.acks == [] + [Ack("d", 10, "a")];
    SmallFileStarts(acked.disk, true, Usable);
    run := StopAndStart(before, FinishIngest(SYNCED, 10), Start([DEVICE], true, Usable));
    assert OwnedByV2([DEVICE], "d") by { assert DEVICE in [DEVICE]; }
    ForgottenEntry(acked.disk.primary.value);
    RestartedAfresh(acked.disk, acked.disk.primary.value);
    CommittedAgain(Exec(INITIAL, run), payload);
  }

  lemma ForgottenEntry(snapshot: Snapshot)
    requires |snapshot.devices| == 1 && !Decodes(snapshot.devices[0]) && snapshot.orphans == []
    ensures Records(snapshot, "d") == []
  {
    assert snapshot.devices[..0] == [] && Entries([], "d") == [];
    assert Entries(snapshot.devices, "d") == [];
  }

  lemma CommittedAgain(s: State, payload: Payload)
    requires "d" in s.mem.nodes && s.mem.nodes["d"].enabled && s.mem.nodes["d"].ownership == DEVICE.ownership
    requires s.mem.nodes["d"].collectedAt == 0 && s.mem.nodes["d"].generation <= s.mem.updateId
    ensures Answer(s, Resend(Ack("d", 10, "a"), payload, false, true, 20)).Committed?
  {
  }
}
