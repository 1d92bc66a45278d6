/** What every state file and the memory know about one device: at most one entry, which a restart finds again. */
module Tracking {
  import opened Text
  import opened Devices
  import opened Orphans
  import opened StateFiles
  import opened Commit
  import opened Protocol

  // ---- At most one entry per device

  ghost predicate OneEntry(file: File, d: DeviceId)
  {
    file.Some? ==> |Records(file.value, d)| <= 1
  }

  /** Every file holds at most one entry about the device, and a registered device has no orphaned one. */
  ghost predicate Tracked(s: State, d: DeviceId)
  {
    && (forall f :: f in s.disk.primaryMaybe ==> OneEntry(f, d))
    && (forall f :: f in s.disk.backupMaybe ==> OneEntry(f, d))
    && (s.up ==>
      && |About(s.mem.orphans, d)| <= (if d in s.mem.nodes then 0 else 1)
      && OneEntry(s.tick, d))
  }

  lemma SnapshotOneEntry(mem: Memory, now: Time, d: DeviceId)
    requires Configured(mem) && |About(mem.orphans, d)| <= (if d in mem.nodes then 0 else 1)
    ensures Records(SnapshotOf(mem, now), d)
         == if d in mem.nodes then EntryOf(mem.nodes, d) else About(mem.orphans, d)
  {
    SnapshotRecords(mem, now, d);
  }

  lemma WriteKeepsOneEntry(disk: Disk, snapshot: Snapshot, env: WriteEnv, d: DeviceId)
    requires ValidDisk(disk) && OneEntry(Some(snapshot), d)
    requires forall f :: f in disk.primaryMaybe ==> OneEntry(f, d)
    requires forall f :: f in disk.backupMaybe ==> OneEntry(f, d)
    ensures forall f :: f in Write(disk, snapshot, env).0.primaryMaybe ==> OneEntry(f, d)
    ensures forall f :: f in Write(disk, snapshot, env).0.backupMaybe ==> OneEntry(f, d)
  {
    WriteSettles(disk, snapshot, env);
  }

  /** Restarting: the node and the orphan list hold exactly what the file that was read knew. */
  lemma StartRecords(registry: Registry, disk: Disk, readPrimary: bool, readBackup: Access, d: DeviceId)
    requires DistinctIds(registry) && Restarted(registry, disk, readPrimary, readBackup).Some?
    requires ReadBack(disk, readPrimary, readBackup).Some? && OneEntry(ReadBack(disk, readPrimary, readBackup).value, d)
    ensures var mem := Restarted(registry, disk, readPrimary, readBackup).value;
            var file := ReadBack(disk, readPrimary, readBackup).value;
            var known := if file.Some? then Records(file.value, d) else [];
            && (d in mem.nodes <==> d in RegisteredIds(registry))
            && About(mem.orphans, d) == (if d in mem.nodes then [] else known)
            && (d in mem.nodes && known != [] ==>
                  NodeBoundary(mem.nodes[d]) == RecordBoundary(known[0]) && known[0].generation <= mem.updateId)
            && (d in mem.nodes && known == [] ==> NodeBoundary(mem.nodes[d]) == Boundary(0, None, 0, 0))
            && (d in mem.nodes ==> Restorable(mem.nodes[d].payload))
  {
    var blank := Rebuilt(registry, map[], false);
    RebuiltShape(registry, map[], false);
    var file := ReadBack(disk, readPrimary, readBackup).value;
    if d in blank {
      var device :| device in registry && device.id == d;
      assert blank[d] == FreshNode(device);
    }
    if file.Some? {
      if d in blank {
        RestoreFindsRegistered(blank, file.value, d);
      } else {
        RestoreKeepsUnregistered(blank, file.value, d);
        DevicesUnregistered(Restoring(blank, {}, [], 0), file.value.devices, file.value.generatedAt, d);
        OrphansUnregistered(TakeDevices(Restoring(blank, {}, [], 0), file.value.devices, file.value.generatedAt),
                            file.value.orphans, d);
      }
    }
  }

  /** An update touches neither the set of nodes nor the orphan list. */
  lemma PrepareFrame(mem: Memory, req: Request, now: Time, durable: bool, pathsOpen: bool)
    ensures var after := Prepare(mem, req, now, durable, pathsOpen).mem;
            && after.registry == mem.registry && after.orphans == mem.orphans && after.nodes.Keys == mem.nodes.Keys
            && forall d :: d in mem.nodes && d != req.deviceId ==> after.nodes[d] == mem.nodes[d]
  {
  }

  lemma UpdateKeepsTracked(s: State, step: Step, d: DeviceId)
    requires Tracked(s, d) && Enabled(s, step) && (step.BeginIngest? || step.LegacyCommit?)
    ensures Tracked(Apply(s, step), d)
  {
    if step.BeginIngest? {
      PrepareFrame(s.mem, V2Request(step.id, step.collectedAt, step.payload, step.digest, step.identityRejected),
                   step.now, true, step.pathsOpen);
    } else {
      PrepareFrame(s.mem, LegacyRequest(step.legacyId, step.legacyCollectedAt, step.legacyPayload, step.ticket, step.connectionId),
                   step.now, false, true);
    }
  }

  lemma WriteStepKeepsTracked(s: State, step: Step, d: DeviceId)
    requires WellFormed(s) && Tracked(s, d) && Enabled(s, step)
    requires step.FinishIngest? || step.BeginTick? || step.FinishTick?
    ensures Tracked(Apply(s, step), d)
  {
    match step
    case FinishIngest(env, now) =>
      SnapshotOneEntry(s.mem, now, d);
      WriteKeepsOneEntry(s.disk, SnapshotOf(s.mem, now), env, d);
    case BeginTick(now) => SnapshotOneEntry(s.mem, now, d);
    case FinishTick(env) => WriteKeepsOneEntry(s.disk, s.tick.value, env, d);
  }

  lemma StepKeepsTracked(s: State, step: Step, d: DeviceId)
    requires WellFormed(s) && Tracked(s, d) && Enabled(s, step)
    ensures Tracked(Apply(s, step), d)
  {
    match step
    case BeginIngest(_, _, _, _, _, _, _) => UpdateKeepsTracked(s, step, d);
    case LegacyCommit(_, _, _, _, _, _) => UpdateKeepsTracked(s, step, d);
    case FinishIngest(_, _) => WriteStepKeepsTracked(s, step, d);
    case BeginTick(_) => WriteStepKeepsTracked(s, step, d);
    case FinishTick(_) => WriteStepKeepsTracked(s, step, d);
    case Reload(disconnect) => RebuiltConfigured(s.mem, disconnect);
    case Start(registry, readPrimary, readBackup) =>
      if Restarted(registry, s.disk, readPrimary, readBackup).Some? {
        StartRecords(registry, s.disk, readPrimary, readBackup, d);
      }
    case _ =>
  }

  lemma {:induction false} RunKeepsTracked(s: State, run: seq<Step>, d: DeviceId)
    requires WellFormed(s) && Tracked(s, d) && Runs(s, run)
    ensures WellFormed(Exec(s, run)) && Tracked(Exec(s, run), d)
    decreases |run|
  {
    if run != [] {
      StepKeepsShape(s, run[0]);
      StepKeepsTracked(s, run[0], d);
      RunKeepsTracked(Apply(s, run[0]), run[1..], d);
    }
  }
}
