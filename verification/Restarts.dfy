/** When a start comes up: by what it can read and by how much of it no registered device takes. */
module Restarts {
  import opened Text
  import opened Devices
  import opened Orphans
  import opened StateFiles
  import opened Commit
  import opened Protocol
  import opened Tracking
  import opened Durability
  import opened Custody

  /** At most as many entries are left over as may be kept. */
  predicate Fits(file: File, registry: Registry)
  {
    file.Some? ==> Leftovers(file.value, RegisteredIds(registry)) <= 64
  }

  /** A start comes up exactly if there is a file to start from, or none at all, and what is left over fits. */
  lemma RestartedExactly(registry: Registry, disk: Disk, readPrimary: bool, readBackup: Access)
    requires DistinctIds(registry)
    ensures var file := ReadBack(disk, readPrimary, readBackup);
            Restarted(registry, disk, readPrimary, readBackup).Some? <==> file.Some? && Fits(file.value, registry)
  {
    RebuiltShape(registry, map[], false);
    var file := ReadBack(disk, readPrimary, readBackup);
    if file.Some? && file.value.Some? {
      RestoredExactly(Rebuilt(registry, map[], false), file.value.value);
    }
  }

  /** Which file that is, and when there is none: a missing primary with a backup that is damaged, or neither readable. */
  lemma ReadBackExactly(disk: Disk, readPrimary: bool, readBackup: Access)
    ensures var file := ReadBack(disk, readPrimary, readBackup);
            && (disk.primary.Some? && readPrimary ==> file == Some(disk.primary))
            && (disk.backup.Some? && readBackup.Usable? && (disk.primary.None? || !readPrimary) ==> file == Some(disk.backup))
            && (disk.backup.None? || !readBackup.Usable? ==>
                  (disk.primary.Some? && !readPrimary ==> file == None)
                  && (disk.primary.None? ==> file == if disk.backup.Some? && readBackup.Corrupt? then None else Some(None)))
  {
  }

  /** In every state in which a start is possible it leads to a running process exactly then. */
  lemma StartComesUpExactly(s: State, start: Step)
    requires WellFormed(s) && Enabled(s, start) && start.Start?
    ensures var file := ReadBack(s.disk, start.readPrimary, start.readBackup);
            Apply(s, start).up <==> file.Some? && Fits(file.value, start.registry)
    ensures Apply(s, start).up ==> Apply(s, start).mem.registry == start.registry && Apply(s, start).mem.nodes.Keys == RegisteredIds(start.registry)
    ensures !Apply(s, start).up ==> Apply(s, start) == s
    ensures Apply(s, start).disk == s.disk && Apply(s, start).acks == s.acks && Apply(s, start).inFlight.None? && Apply(s, start).tick.None?
  {
    RestartedExactly(start.registry, s.disk, start.readPrimary, start.readBackup);
    RebuiltShape(start.registry, map[], false);
    var blank, file := Rebuilt(start.registry, map[], false), ReadBack(s.disk, start.readPrimary, start.readBackup);
    if file.Some? && file.value.Some? {
      DevicesLeft(blank, file.value.value.devices, file.value.value.generatedAt);
      OrphansLeft(TakeDevices(Restoring(blank, {}, [], 0), file.value.value.devices, file.value.value.generatedAt), file.value.value.orphans);
    }
  }

  // ---- No state file ever holds more orphans than may be kept

  predicate FewOrphans(file: File) { file.Some? ==> |file.value.orphans| <= 64 }

  ghost predicate Few(s: State)
  {
    && (forall f :: f in s.disk.primaryMaybe ==> FewOrphans(f))
    && (forall f :: f in s.disk.backupMaybe ==> FewOrphans(f))
    && (s.up ==> |s.mem.orphans| <= 64 && FewOrphans(s.tick))
  }

  lemma WriteKeepsFew(disk: Disk, snapshot: Snapshot, env: WriteEnv)
    requires ValidDisk(disk) && |snapshot.orphans| <= 64
    requires forall f :: f in disk.primaryMaybe ==> FewOrphans(f)
    requires forall f :: f in disk.backupMaybe ==> FewOrphans(f)
    ensures forall f :: f in Write(disk, snapshot, env).0.primaryMaybe ==> FewOrphans(f)
    ensures forall f :: f in Write(disk, snapshot, env).0.backupMaybe ==> FewOrphans(f)
  {
    WriteSettles(disk, snapshot, env);
  }

  lemma UpdateKeepsOrphans(s: State, step: Step)
    requires Enabled(s, step) && (step.BeginIngest? || step.LegacyCommit?)
    ensures Apply(s, step).mem.orphans == s.mem.orphans && Apply(s, step).disk == s.disk && Apply(s, step).tick == s.tick
    ensures Apply(s, step).up == s.up
  {
  }

  lemma StartKeepsFew(s: State, step: Step)
    requires Few(s) && Enabled(s, step) && step.Start?
    ensures Few(Apply(s, step))
  {
    if Apply(s, step).up {
      var blank, file := Rebuilt(step.registry, map[], false), ReadBack(s.disk, step.readPrimary, step.readBackup).value;
      if file.Some? { RestoredExactly(blank, file.value); }
    }
  }

  lemma StepKeepsFew(s: State, step: Step)
    requires WellFormed(s) && Few(s) && Enabled(s, step)
    ensures Few(Apply(s, step))
  {
    match step
    case BeginIngest(_, _, _, _, _, _, _) => UpdateKeepsOrphans(s, step);
    case LegacyCommit(_, _, _, _, _, _) => UpdateKeepsOrphans(s, step);
    case FinishIngest(env, now) => WriteKeepsFew(s.disk, SnapshotOf(s.mem, now), env);
    case FinishTick(env) => WriteKeepsFew(s.disk, s.tick.value, env);
    case Start(_, _, _) => StartKeepsFew(s, step);
    case _ =>
  }

  lemma {:induction false} RunKeepsFew(s: State, run: seq<Step>)
    requires WellFormed(s) && Few(s) && Runs(s, run)
    ensures Few(Exec(s, run))
    decreases |run|
  {
    if run != [] {
      StepKeepsShape(s, run[0]);
      StepKeepsFew(s, run[0]);
      RunKeepsFew(Apply(s, run[0]), run[1..]);
    }
  }

  /** Each of the file's entries has a registered device that can read it back. */
  predicate AllClaimed(devices: seq<Persisted>, ids: set<DeviceId>)
  {
    forall p :: p in devices ==> !Unclaimed(p, ids)
  }

  lemma {:induction false} ClaimedLeaveNone(devices: seq<Persisted>, ids: set<DeviceId>)
    requires AllClaimed(devices, ids)
    ensures LeftDevices(devices, ids) == 0
    decreases |devices|
  {
    if devices != [] {
      var front := devices[..|devices| - 1];
      assert forall p :: p in front ==> p in devices;
      ClaimedLeaveNone(front, ids);
      assert devices[|devices| - 1] in devices;
    }
  }

  /**
   * In any reachable state, a start from a file all of whose entries have their registered device comes up:
   * a restart without a change of the registry does, if every payload was restorable.
   */
  lemma UnchangedRegistryComesUp(run: seq<Step>, start: Step)
    requires Runs(INITIAL, run) && Enabled(Exec(INITIAL, run), start) && start.Start?
    requires var file := ReadBack(Exec(INITIAL, run).disk, start.readPrimary, start.readBackup);
             file.Some? && (file.value.Some? ==> AllClaimed(file.value.value.devices, RegisteredIds(start.registry)))
    ensures Apply(Exec(INITIAL, run), start).up
  {
    var s := Exec(INITIAL, run);
    RunKeepsShape(INITIAL, run);
    RunKeepsFew(INITIAL, run);
    StartComesUpExactly(s, start);
    var file := ReadBack(s.disk, start.readPrimary, start.readBackup).value;
    if file.Some? { ClaimedLeaveNone(file.value.devices, RegisteredIds(start.registry)); }
  }

  // ---- What a start is for

  /** In every sound run, a start from a readable state file that leaves few enough over brings each acknowledged report back. */
  lemma AcknowledgedIsBack(run: seq<Step>, start: Step, a: Ack)
    requires Runs(INITIAL, run) && SoundRun(INITIAL, run, a.deviceId) && a in Exec(INITIAL, run).acks
    requires Enabled(Exec(INITIAL, run), start) && start.Start? && start.readPrimary
    requires Fits(Exec(INITIAL, run).disk.primary, start.registry)
    ensures var after := Apply(Exec(INITIAL, run), start);
            && after.up
            && (a.deviceId in RegisteredIds(start.registry) ==>
                  a.deviceId in after.mem.nodes
                  && Reaches(after.mem.nodes[a.deviceId].collectedAt, after.mem.nodes[a.deviceId].digest, a))
            && (a.deviceId !in RegisteredIds(start.registry) ==> KeptByOrphan(after.mem.orphans, a))
  {
    var s := Exec(INITIAL, run);
    RunKeepsDurable(INITIAL, run, a.deviceId);
    assert AckKept(s, a.deviceId, a) && Held(s.disk.primary, a);
    StartComesUpExactly(s, start);
    StartKeepsAck(s, start, a.deviceId, a);
  }

  /** A device in custody comes back with its boundary at every start that registers it and leaves few enough over. */
  lemma ReturnComesUp(s: State, run: seq<Step>, back: Step, d: DeviceId, p: Persisted)
    requires WellFormed(s) && InCustody(s, d, p) && Runs(s, run) && forall step :: step in run ==> StartsWithout(step, d)
    requires var gone := Exec(s, run); Enabled(gone, back) && back.Start? && back.readPrimary && d in RegisteredIds(back.registry)
    requires Fits(Exec(s, run).disk.primary, back.registry)
    ensures var again := Apply(Exec(s, run), back);
            && again.up && d in again.mem.nodes && NodeBoundary(again.mem.nodes[d]) == RecordBoundary(p)
            && p.generation <= again.mem.updateId && About(again.mem.orphans, d) == []
  {
    RunKeepsCustody(s, run, d, p);
    ReturnRestoresBoundary(s, run, back, d, p);
    assert Keeps(Exec(s, run).disk.primary, d, p);
    StartComesUpExactly(Exec(s, run), back);
  }
}
