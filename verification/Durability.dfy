/** Acknowledged means durable, and acknowledged at most once, over every run of the protocol. */
module Durability {
  import opened Text
  import opened Devices
  import opened Orphans
  import opened StateFiles
  import opened Commit
  import opened Protocol
  import opened Tracking

  ghost predicate OwnedByV2(registry: Registry, d: DeviceId)
  {
    exists device :: device in registry && device.id == d && device.ownership.active == Some(DeviceV2)
  }

  // ---- Acknowledged means durable, and acknowledged at most once

  /** A boundary at or past an acknowledged report; at the same time it carries that report's digest. */
  predicate Reaches(collectedAt: Time, digest: Option<Digest>, a: Ack)
  {
    collectedAt > a.collectedAt || (collectedAt == a.collectedAt && digest == Some(a.digest))
  }

  predicate Held(file: File, a: Ack)
  {
    && file.Some? && |Records(file.value, a.deviceId)| == 1
    && var p := Records(file.value, a.deviceId)[0];
       Reaches(Or(p.collectedAt, 0), p.digest, a)
  }

  /** The node as it stands if a running ingest were undone. */
  function Base(s: State, d: DeviceId): Node
    requires d in s.mem.nodes
  {
    if s.inFlight.Some? && s.inFlight.value.ack.deviceId == d then s.inFlight.value.before else s.mem.nodes[d]
  }

  /** The entry kept for an unregistered device reaches the report. */
  predicate KeptByOrphan(orphans: seq<Orphan>, a: Ack)
  {
    && |About(orphans, a.deviceId)| == 1
    && var p := About(orphans, a.deviceId)[0];
       Reaches(Or(p.collectedAt, 0), p.digest, a)
  }

  ghost predicate AckKept(s: State, d: DeviceId, a: Ack)
  {
    && a.collectedAt != 0
    && (forall f :: f in s.disk.primaryMaybe ==> Held(f, a))
    && (s.up && d in s.mem.nodes ==> Reaches(Base(s, d).collectedAt, Base(s, d).digest, a))
    && (s.up && d !in s.mem.nodes ==> KeptByOrphan(s.mem.orphans, a))
    && (s.up && s.tick.Some? ==> Held(s.tick, a))
  }

  /** A registered device is owned by device_v2, what it stands at can be read back, and its report in flight is newer. */
  ghost predicate Guarded(s: State, d: DeviceId)
  {
    s.up && d in s.mem.nodes ==>
      && s.mem.nodes[d].ownership.active == Some(DeviceV2)
      && Restorable(s.mem.nodes[d].payload) && Restorable(Base(s, d).payload)
      && (s.inFlight.Some? && s.inFlight.value.ack.deviceId == d ==>
        var f, n := s.inFlight.value, s.mem.nodes[d];
        && f.before.collectedAt < f.ack.collectedAt
        && n.collectedAt == f.ack.collectedAt && n.digest == Some(f.ack.digest))
  }

  ghost predicate Durable(s: State, d: DeviceId)
  {
    && Guarded(s, d)
    && (forall a :: a in s.acks && a.deviceId == d ==> AckKept(s, d, a))
    && (forall i, j :: 0 <= i < j < |s.acks| && s.acks[i].deviceId == d && s.acks[j].deviceId == d ==>
          s.acks[i].collectedAt < s.acks[j].collectedAt)
  }

  /**
   * The starts a device's guarantee is stated for: the state file is readable, and the device, if it
   * is registered at all, is owned by device_v2.
   */
  ghost predicate GoodStart(step: Step, d: DeviceId)
  {
    step.Start? ==> step.readPrimary && (d in RegisteredIds(step.registry) ==> OwnedByV2(step.registry, d))
  }

  /** Besides, a report of the device that is committed can be read back by a restart. */
  ghost predicate Sound(s: State, step: Step, d: DeviceId)
    requires Enabled(s, step)
  {
    && GoodStart(step, d)
    && (step.BeginIngest? && step.id == d && Apply(s, step).inFlight.Some? ==> Restorable(step.payload))
  }

  ghost predicate SoundRun(s: State, run: seq<Step>, d: DeviceId)
    requires Runs(s, run)
    decreases |run|
  {
    run == [] || (Sound(s, run[0], d) && SoundRun(Apply(s, run[0]), run[1..], d))
  }

  lemma BeginKeepsAck(s: State, step: Step, d: DeviceId, a: Ack)
    requires WellFormed(s) && Guarded(s, d) && AckKept(s, d, a) && Enabled(s, step) && step.BeginIngest? && Sound(s, step, d)
    ensures AckKept(Apply(s, step), d, a)
  {
  }

  lemma BeginKeepsGuarded(s: State, step: Step, d: DeviceId)
    requires WellFormed(s) && Guarded(s, d) && Enabled(s, step) && step.BeginIngest? && Sound(s, step, d)
    ensures Guarded(Apply(s, step), d)
  {
  }

  lemma LegacyKeepsNode(s: State, step: Step, d: DeviceId)
    requires WellFormed(s) && Guarded(s, d) && Enabled(s, step) && step.LegacyCommit?
    ensures var after := Apply(s, step);
            && (d in s.mem.nodes ==> d in after.mem.nodes && after.mem.nodes[d] == s.mem.nodes[d])
            && (d !in s.mem.nodes ==> d !in after.mem.nodes)
            && after.mem.orphans == s.mem.orphans && after.inFlight == s.inFlight && after.tick == s.tick && after.disk == s.disk
  {
  }

  lemma SnapshotHolds(mem: Memory, now: Time, d: DeviceId, a: Ack)
    requires Configured(mem) && |About(mem.orphans, d)| <= (if d in mem.nodes then 0 else 1) && a.deviceId == d
    requires if d in mem.nodes then Restorable(mem.nodes[d].payload) && Reaches(mem.nodes[d].collectedAt, mem.nodes[d].digest, a)
             else KeptByOrphan(mem.orphans, a)
    ensures Held(Some(SnapshotOf(mem, now)), a)
  {
    SnapshotOneEntry(mem, now, d);
  }

  lemma WriteHolds(disk: Disk, snapshot: Snapshot, env: WriteEnv, a: Ack)
    requires ValidDisk(disk) && Held(Some(snapshot), a)
    ensures var (after, ok) := Write(disk, snapshot, env);
            && ((forall f :: f in disk.primaryMaybe ==> Held(f, a)) ==> forall f :: f in after.primaryMaybe ==> Held(f, a))
            && (ok ==> forall f :: f in after.primaryMaybe ==> Held(f, a))
  {
    WriteSettles(disk, snapshot, env);
  }

  /** The snapshot of a finishing ingest holds every report kept so far and, for its own device, the one in flight. */
  lemma FinishSnapshotHolds(s: State, now: Time, d: DeviceId, a: Ack)
    requires WellFormed(s) && Tracked(s, d) && Guarded(s, d) && s.up && s.inFlight.Some? && a.deviceId == d
    requires AckKept(s, d, a) || a == s.inFlight.value.ack
    ensures Held(Some(SnapshotOf(s.mem, now)), a)
  {
    SnapshotHolds(s.mem, now, d, a);
  }

  lemma FinishKeepsAck(s: State, env: WriteEnv, now: Time, d: DeviceId, a: Ack)
    requires WellFormed(s) && Tracked(s, d) && Guarded(s, d) && Enabled(s, FinishIngest(env, now)) && a.deviceId == d
    requires AckKept(s, d, a) || (a == s.inFlight.value.ack && Write(s.disk, SnapshotOf(s.mem, now), env).1)
    ensures AckKept(Apply(s, FinishIngest(env, now)), d, a)
  {
    FinishSnapshotHolds(s, now, d, a);
    WriteHolds(s.disk, SnapshotOf(s.mem, now), env, a);
  }

  lemma FinishKeepsOrder(s: State, env: WriteEnv, now: Time, d: DeviceId, i: nat, j: nat)
    requires WellFormed(s) && Durable(s, d) && Enabled(s, FinishIngest(env, now))
    requires var acks := Apply(s, FinishIngest(env, now)).acks;
             i < j < |acks| && acks[i].deviceId == d && acks[j].deviceId == d
    ensures var acks := Apply(s, FinishIngest(env, now)).acks;
            acks[i].collectedAt < acks[j].collectedAt
  {
    if j == |s.acks| {
      assert s.acks[i] in s.acks;
      assert AckKept(s, d, s.acks[i]);
    }
  }

  lemma FinishKeepsDurable(s: State, env: WriteEnv, now: Time, d: DeviceId)
    requires WellFormed(s) && Tracked(s, d) && Durable(s, d) && Enabled(s, FinishIngest(env, now))
    ensures Durable(Apply(s, FinishIngest(env, now)), d)
  {
    var after := Apply(s, FinishIngest(env, now));
    forall a | a in after.acks && a.deviceId == d ensures AckKept(after, d, a) {
      FinishKeepsAck(s, env, now, d, a);
    }
    forall i, j | 0 <= i < j < |after.acks| && after.acks[i].deviceId == d && after.acks[j].deviceId == d
      ensures after.acks[i].collectedAt < after.acks[j].collectedAt
    {
      FinishKeepsOrder(s, env, now, d, i, j);
    }
  }

  lemma TickKeepsAck(s: State, step: Step, d: DeviceId, a: Ack)
    requires WellFormed(s) && Tracked(s, d) && Guarded(s, d) && AckKept(s, d, a) && a.deviceId == d
    requires Enabled(s, step) && (step.BeginTick? || step.FinishTick?)
    ensures AckKept(Apply(s, step), d, a)
  {
    if step.BeginTick? {
      SnapshotHolds(s.mem, step.now, d, a);
    } else {
      WriteHolds(s.disk, s.tick.value, step.env, a);
    }
  }

  lemma StartKeepsAck(s: State, step: Step, d: DeviceId, a: Ack)
    requires WellFormed(s) && Tracked(s, d) && AckKept(s, d, a) && a.deviceId == d
    requires Enabled(s, step) && step.Start? && step.readPrimary
    ensures AckKept(Apply(s, step), d, a)
  {
    assert Held(s.disk.primary, a);
    if Apply(s, step).up {
      StartRecords(step.registry, s.disk, step.readPrimary, step.readBackup, d);
    }
  }

  lemma StartKeepsGuarded(s: State, step: Step, d: DeviceId)
    requires WellFormed(s) && Tracked(s, d) && Enabled(s, step) && step.Start? && GoodStart(step, d)
    ensures Guarded(Apply(s, step), d)
  {
    var after := Apply(s, step);
    if after.up && d in after.mem.nodes {
      StartRecords(step.registry, s.disk, step.readPrimary, step.readBackup, d);
      RestartedShape(step.registry, s.disk, step.readPrimary, step.readBackup);
      var device :| device in step.registry && device.id == d && device.ownership.active == Some(DeviceV2);
      assert after.mem.nodes[d].ownership == device.ownership;
    }
  }

  lemma ReloadKeepsNode(s: State, disconnect: bool, d: DeviceId)
    requires WellFormed(s) && Enabled(s, Reload(disconnect)) && d in s.mem.nodes
    ensures var n := Apply(s, Reload(disconnect)).mem.nodes;
            && d in n && NodeBoundary(n[d]) == NodeBoundary(s.mem.nodes[d]) && n[d].payload == s.mem.nodes[d].payload
            && n[d].ownership == s.mem.nodes[d].ownership
  {
    RebuiltConfigured(s.mem, disconnect);
    RebuiltShape(s.mem.registry, s.mem.nodes, disconnect);
    var device :| device in s.mem.registry && device.id == d;
    assert Apply(s, Reload(disconnect)).mem.nodes[d].ownership == device.ownership == s.mem.nodes[d].ownership;
  }

  lemma ReloadKeepsAck(s: State, disconnect: bool, d: DeviceId, a: Ack)
    requires WellFormed(s) && AckKept(s, d, a) && Enabled(s, Reload(disconnect))
    ensures AckKept(Apply(s, Reload(disconnect)), d, a)
  {
    RebuiltConfigured(s.mem, disconnect);
    if d in s.mem.nodes { ReloadKeepsNode(s, disconnect, d); }
  }

  lemma ReloadKeepsGuarded(s: State, disconnect: bool, d: DeviceId)
    requires WellFormed(s) && Guarded(s, d) && Enabled(s, Reload(disconnect))
    ensures Guarded(Apply(s, Reload(disconnect)), d)
  {
    RebuiltConfigured(s.mem, disconnect);
    if d in s.mem.nodes { ReloadKeepsNode(s, disconnect, d); }
  }

  /** A report that is kept stays kept, whoever answered it and how. */
  lemma StepKeepsAck(s: State, step: Step, d: DeviceId, a: Ack)
    requires WellFormed(s) && Tracked(s, d) && Guarded(s, d) && AckKept(s, d, a) && a.deviceId == d
    requires Enabled(s, step) && Sound(s, step, d)
    ensures AckKept(Apply(s, step), d, a)
  {
    match step
    case BeginIngest(_, _, _, _, _, _, _) => BeginKeepsAck(s, step, d, a);
    case FinishIngest(env, now) => FinishKeepsAck(s, env, now, d, a);
    case LegacyCommit(_, _, _, _, _, _) => LegacyKeepsNode(s, step, d);
    case BeginTick(_) => TickKeepsAck(s, step, d, a);
    case FinishTick(_) => TickKeepsAck(s, step, d, a);
    case Reload(disconnect) => ReloadKeepsAck(s, disconnect, d, a);
    case Start(_, _, _) => StartKeepsAck(s, step, d, a);
    case _ =>
  }

  lemma StepKeepsGuarded(s: State, step: Step, d: DeviceId)
    requires WellFormed(s) && Tracked(s, d) && Guarded(s, d) && Enabled(s, step) && Sound(s, step, d)
    ensures Guarded(Apply(s, step), d)
  {
    match step
    case BeginIngest(_, _, _, _, _, _, _) => BeginKeepsGuarded(s, step, d);
    case LegacyCommit(_, _, _, _, _, _) => LegacyKeepsNode(s, step, d);
    case Reload(disconnect) => ReloadKeepsGuarded(s, disconnect, d);
    case Start(_, _, _) => StartKeepsGuarded(s, step, d);
    case _ =>
  }

  lemma StepKeepsDurable(s: State, step: Step, d: DeviceId)
    requires WellFormed(s) && Tracked(s, d) && Durable(s, d) && Enabled(s, step) && Sound(s, step, d)
    ensures Durable(Apply(s, step), d)
  {
    if step.FinishIngest? {
      FinishKeepsDurable(s, step.env, step.now, d);
    } else {
      StepKeepsGuarded(s, step, d);
      forall a | a in s.acks && a.deviceId == d ensures AckKept(Apply(s, step), d, a) { StepKeepsAck(s, step, d, a); }
    }
  }

  /** Over any sound run, a report that is kept stays kept. */
  lemma {:induction false} RunKeepsAck(s: State, run: seq<Step>, d: DeviceId, a: Ack)
    requires WellFormed(s) && Tracked(s, d) && Guarded(s, d) && AckKept(s, d, a) && a.deviceId == d
    requires Runs(s, run) && SoundRun(s, run, d)
    ensures AckKept(Exec(s, run), d, a)
    decreases |run|
  {
    if run != [] {
      StepKeepsShape(s, run[0]);
      StepKeepsTracked(s, run[0], d);
      StepKeepsAck(s, run[0], d, a);
      StepKeepsGuarded(s, run[0], d);
      RunKeepsAck(Apply(s, run[0]), run[1..], d, a);
    }
  }

  lemma {:induction false} RunKeepsDurable(s: State, run: seq<Step>, d: DeviceId)
    requires WellFormed(s) && Tracked(s, d) && Durable(s, d) && Runs(s, run) && SoundRun(s, run, d)
    ensures WellFormed(Exec(s, run)) && Tracked(Exec(s, run), d) && Durable(Exec(s, run), d)
    decreases |run|
  {
    if run != [] {
      StepKeepsShape(s, run[0]);
      StepKeepsTracked(s, run[0], d);
      StepKeepsDurable(s, run[0], d);
      RunKeepsDurable(Apply(s, run[0]), run[1..], d);
    }
  }

  /**
   * Acknowledged means durable: whatever happens, also across removal and return, every content the
   * state file may have holds each acknowledged report of the device or a later one, and so does the
   * node of a running process or, while the device is not registered, its orphan list.
   */
  lemma AcknowledgedIsDurable(run: seq<Step>, d: DeviceId)
    requires Runs(INITIAL, run) && SoundRun(INITIAL, run, d)
    ensures var s := Exec(INITIAL, run);
            forall a :: a in s.acks && a.deviceId == d ==>
              && (forall f :: f in s.disk.primaryMaybe ==> Held(f, a)) && Held(s.disk.primary, a)
              && (s.up ==> if d in s.mem.nodes then Reaches(Base(s, d).collectedAt, Base(s, d).digest, a)
                           else KeptByOrphan(s.mem.orphans, a))
  {
    RunKeepsDurable(INITIAL, run, d);
    var s := Exec(INITIAL, run);
    forall a | a in s.acks && a.deviceId == d ensures AckKept(s, d, a) {}
  }

  /** The acknowledged collection times of a device strictly increase over the whole run. */
  lemma AcknowledgedOnce(run: seq<Step>, d: DeviceId, i: nat, j: nat)
    requires Runs(INITIAL, run) && SoundRun(INITIAL, run, d)
    requires i < j < |Exec(INITIAL, run).acks|
    requires Exec(INITIAL, run).acks[i].deviceId == d && Exec(INITIAL, run).acks[j].deviceId == d
    ensures Exec(INITIAL, run).acks[i].collectedAt < Exec(INITIAL, run).acks[j].collectedAt
  {
    RunKeepsDurable(INITIAL, run, d);
  }

  /** For any start of a registered device, readable primary or not: an acknowledgement survives exactly if the file that was read holds it. */
  lemma AckSurvivesStart(s: State, start: Step, a: Ack)
    requires WellFormed(s) && Tracked(s, a.deviceId) && Enabled(s, start) && start.Start? && a.collectedAt != 0
    requires a.deviceId in RegisteredIds(start.registry) && Apply(s, start).up
    ensures var n := Apply(s, start).mem.nodes;
            a.deviceId in n
            && (Reaches(n[a.deviceId].collectedAt, n[a.deviceId].digest, a)
                <==> Held(ReadBack(s.disk, start.readPrimary, start.readBackup).value, a))
  {
    StartRecords(start.registry, s.disk, start.readPrimary, start.readBackup, a.deviceId);
  }

  lemma {:induction false} EntriesOfOne(devices: seq<Persisted>, p: Persisted)
    requires DistinctDevices(devices) && p in devices
    ensures Entries(devices, p.deviceId) == if Decodes(p) then [p] else []
    decreases |devices|
  {
    var front, last := devices[..|devices| - 1], devices[|devices| - 1];
    assert devices == front + [last];
    if p == last {
      EntriesOfOthers(front, p.deviceId);
    } else {
      EntriesOfOne(front, p);
      var i :| 0 <= i < |front| && front[i] == p;
      assert devices[i].deviceId != devices[|devices| - 1].deviceId;
    }
  }

  lemma {:induction false} EntriesOfOthers(devices: seq<Persisted>, d: DeviceId)
    requires forall i :: 0 <= i < |devices| ==> devices[i].deviceId != d
    ensures Entries(devices, d) == []
    decreases |devices|
  {
    if devices != [] { EntriesOfOthers(devices[..|devices| - 1], d); }
  }

  /**
   * What a good start rests on: the acknowledged report that the state file records for a registered
   * device survives the start exactly if the recorded payload is restorable. Otherwise the device starts afresh.
   */
  lemma AckSurvivesExactlyIfRestorable(s: State, start: Step, p: Persisted, a: Ack)
    requires WellFormed(s) && Tracked(s, a.deviceId) && Enabled(s, start) && start.Start? && start.readPrimary
    requires a.deviceId in RegisteredIds(start.registry) && Apply(s, start).up && a.collectedAt != 0
    requires s.disk.primary.Some? && p in s.disk.primary.value.devices && About(s.disk.primary.value.orphans, a.deviceId) == []
    requires p.deviceId == a.deviceId && Reaches(Or(p.collectedAt, 0), p.digest, a)
    ensures var n := Apply(s, start).mem.nodes;
            && a.deviceId in n
            && (Reaches(n[a.deviceId].collectedAt, n[a.deviceId].digest, a) <==> Restorable(p.payload))
            && (!Restorable(p.payload) ==> NodeBoundary(n[a.deviceId]) == Boundary(0, None, 0, 0))
  {
    EntriesOfOne(s.disk.primary.value.devices, p);
    StartRecords(start.registry, s.disk, start.readPrimary, start.readBackup, a.deviceId);
  }
}
