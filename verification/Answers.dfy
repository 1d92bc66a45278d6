/**
 * The two answers with success: a report whose commit was written, and a repeat of the report the node stands
 * at, which writes nothing. When the second is as durable as the first.
 */
module Answers {
  import opened Text
  import opened Devices
  import opened Orphans
  import opened StateFiles
  import opened Commit
  import opened Protocol
  import opened Tracking
  import opened Durability
  import opened Replay
  import opened Custody

  /** The report that a device_v2 request of this step names. */
  function Named(step: Step): Ack
    requires step.BeginIngest?
  {
    Ack(step.id, if step.collectedAt == 0 then step.now else step.collectedAt, step.digest)
  }

  /** The report is answered as accepted because the node already stands at it. */
  predicate Repeats(s: State, step: Step)
  {
    step.BeginIngest? && Answer(s, step).Refused? && Answer(s, step).error == IdempotentReplay
  }

  /** The report that this step answers with success, if it does. */
  function Success(s: State, step: Step): Option<Ack>
    requires Enabled(s, step)
  {
    if step.FinishIngest? && Write(s.disk, SnapshotOf(s.mem, step.now), step.env).1 then Some(s.inFlight.value.ack)
    else if Repeats(s, step) then Some(Named(step))
    else None
  }

  /** Every answer with success of a run, in order. */
  function Successes(s: State, run: seq<Step>): seq<Ack>
    requires Runs(s, run)
    decreases |run|
  {
    if run == [] then []
    else (if Success(s, run[0]).Some? then [Success(s, run[0]).value] else []) + Successes(Apply(s, run[0]), run[1..])
  }

  lemma StepAcks(s: State, step: Step)
    requires Enabled(s, step)
    ensures Apply(s, step).acks == s.acks + if step.FinishIngest? && Success(s, step).Some? then [Success(s, step).value] else []
  {
  }

  /** Every acknowledged report was answered with success, and none is forgotten. */
  lemma {:induction false} AcksAreSuccesses(s: State, run: seq<Step>)
    requires Runs(s, run)
    ensures forall a :: a in Exec(s, run).acks ==> a in s.acks || a in Successes(s, run)
    ensures forall a :: a in s.acks ==> a in Exec(s, run).acks
    decreases |run|
  {
    if run != [] {
      StepAcks(s, run[0]);
      AcksAreSuccesses(Apply(s, run[0]), run[1..]);
    }
  }

  // ---- What a repeat says about the state

  /** Every content the state file may have after a power loss holds the report. */
  predicate OnDisk(s: State, a: Ack)
  {
    forall f :: f in s.disk.primaryMaybe ==> Held(f, a)
  }

  lemma RepeatStands(s: State, step: Step)
    requires Enabled(s, step) && Repeats(s, step)
    ensures Apply(s, step) == s && s.up && s.inFlight.None? && s.tick.None? && step.id in s.mem.nodes
    ensures Named(step).collectedAt != 0 && s.mem.nodes[step.id].collectedAt == Named(step).collectedAt
    ensures s.mem.nodes[step.id].digest == Some(Named(step).digest)
  {
  }

  lemma RepeatIsKeptExactly(s: State, step: Step)
    requires Enabled(s, step) && Repeats(s, step)
    ensures AckKept(s, step.id, Named(step)) <==> OnDisk(s, Named(step))
  {
    RepeatStands(s, step);
  }

  // ---- Durable answers

  /** Each repeat of the device's is answered while every content the state file may have holds the report. */
  ghost predicate SecuredRun(s: State, run: seq<Step>, d: DeviceId)
    requires Runs(s, run)
    decreases |run|
  {
    run == [] || ((Repeats(s, run[0]) && run[0].id == d ==> OnDisk(s, Named(run[0]))) && SecuredRun(Apply(s, run[0]), run[1..], d))
  }

  lemma SuccessIsKept(s: State, step: Step, d: DeviceId)
    requires WellFormed(s) && Tracked(s, d) && Guarded(s, d) && Enabled(s, step)
    requires Success(s, step).Some? && Success(s, step).value.deviceId == d
    requires Repeats(s, step) ==> OnDisk(s, Named(step))
    ensures AckKept(Apply(s, step), d, Success(s, step).value)
  {
    if step.FinishIngest? {
      FinishKeepsAck(s, step.env, step.now, d, s.inFlight.value.ack);
    } else {
      RepeatStands(s, step);
    }
  }

  lemma {:induction false} SuccessesAreKept(s: State, run: seq<Step>, d: DeviceId)
    requires WellFormed(s) && Tracked(s, d) && Guarded(s, d) && Runs(s, run) && SoundRun(s, run, d) && SecuredRun(s, run, d)
    ensures forall a :: a in Successes(s, run) && a.deviceId == d ==> AckKept(Exec(s, run), d, a)
    decreases |run|
  {
    if run != [] {
      var next := Apply(s, run[0]);
      StepKeepsShape(s, run[0]);
      StepKeepsTracked(s, run[0], d);
      StepKeepsGuarded(s, run[0], d);
      SuccessesAreKept(next, run[1..], d);
      if Success(s, run[0]).Some? && Success(s, run[0]).value.deviceId == d {
        SuccessIsKept(s, run[0], d);
        RunKeepsAck(next, run[1..], d, Success(s, run[0]).value);
      }
    }
  }

  /**
   * Answered with success means durable, for both answers, if each repeat is answered while the report is on
   * every content of the state file.
   */
  lemma AnsweredIsDurable(run: seq<Step>, d: DeviceId, a: Ack)
    requires Runs(INITIAL, run) && SoundRun(INITIAL, run, d) && SecuredRun(INITIAL, run, d)
    requires a in Successes(INITIAL, run) && a.deviceId == d
    ensures var s := Exec(INITIAL, run);
            && OnDisk(s, a) && Held(s.disk.primary, a)
            && (s.up ==> if d in s.mem.nodes then Reaches(Base(s, d).collectedAt, Base(s, d).digest, a)
                         else KeptByOrphan(s.mem.orphans, a))
  {
    SuccessesAreKept(INITIAL, run, d);
    RunKeepsShape(INITIAL, run);
    assert AckKept(Exec(INITIAL, run), d, a);
  }

  // ---- Exactly when a repeat's answer is durable

  /** What a crash would come back to holds the report, and so does the running node. */
  ghost predicate Survives(s: State, a: Ack)
  {
    && Held(s.disk.primary, a)
    && (s.up && a.deviceId in s.mem.nodes ==> Reaches(Base(s, a.deviceId).collectedAt, Base(s, a.deviceId).digest, a))
  }

  ghost predicate SurvivesRun(s: State, rest: seq<Step>, a: Ack)
  {
    Runs(s, rest) && SoundRun(s, rest, a.deviceId) ==> Survives(Exec(s, rest), a)
  }

  lemma KeptSurvives(s: State, rest: seq<Step>, a: Ack)
    requires WellFormed(s) && Tracked(s, a.deviceId) && Guarded(s, a.deviceId) && AckKept(s, a.deviceId, a)
    ensures SurvivesRun(s, rest, a)
  {
    if Runs(s, rest) && SoundRun(s, rest, a.deviceId) {
      RunKeepsShape(s, rest);
      RunKeepsAck(s, rest, a.deviceId, a);
    }
  }

  lemma LossRun(s: State, f: File)
    requires WellFormed(s) && f in s.disk.primaryMaybe
    ensures var loss := PowerLoss(f, s.disk.backup);
            Runs(s, [loss]) && (forall d :: SoundRun(s, [loss], d)) && Exec(s, [loss]).disk.primary == f && !Exec(s, [loss]).up
  {
    var loss := PowerLoss(f, s.disk.backup);
    assert [loss][1..] == [];
  }

  /**
   * A repeat answered with success in any reachable state is durable, whatever happens next, if and only if
   * every content the state file may have at that moment holds the report.
   */
  lemma RepeatIsDurableExactly(run: seq<Step>, step: Step)
    requires Runs(INITIAL, run) && step.BeginIngest? && SoundRun(INITIAL, run, step.id)
    requires Enabled(Exec(INITIAL, run), step) && Repeats(Exec(INITIAL, run), step)
    ensures var s := Exec(INITIAL, run);
            OnDisk(s, Named(step)) <==> forall rest :: SurvivesRun(s, rest, Named(step))
  {
    var s, a := Exec(INITIAL, run), Named(step);
    RunKeepsDurable(INITIAL, run, step.id);
    RepeatIsKeptExactly(s, step);
    if OnDisk(s, a) {
      forall rest ensures SurvivesRun(s, rest, a) { KeptSurvives(s, rest, a); }
    } else {
      var f :| f in s.disk.primaryMaybe && !Held(f, a);
      LossRun(s, f);
      assert !SurvivesRun(s, [PowerLoss(f, s.disk.backup)], a);
    }
  }

  /** A power loss that leaves a content without the report, then a start that reads it. */
  lemma LostByStart(s: State, f: File, registry: Registry, a: Ack)
    requires WellFormed(s) && Tracked(s, a.deviceId) && f in s.disk.primaryMaybe && !Held(f, a) && a.collectedAt != 0
    requires DistinctIds(registry) && a.deviceId in RegisteredIds(registry)
    ensures var gone, start := Apply(s, PowerLoss(f, s.disk.backup)), Start(registry, true, Unreadable);
            var n := Apply(gone, start).mem.nodes;
            Apply(gone, start).up ==>
              a.deviceId in n && !Reaches(n[a.deviceId].collectedAt, n[a.deviceId].digest, a)
  {
    var loss := PowerLoss(f, s.disk.backup);
    var gone := Apply(s, loss);
    StepKeepsShape(s, loss);
    StepKeepsTracked(s, loss, a.deviceId);
    assert gone.disk.primary == f;
    if Apply(gone, Start(registry, true, Unreadable)).up {
      StartRecords(registry, gone.disk, true, Unreadable, a.deviceId);
    }
  }

  /** Otherwise some power loss forgets it: a start from what is left of the state file does not come up at the report. */
  lemma UnsecuredRepeatIsLost(run: seq<Step>, step: Step, registry: Registry) returns (loss: Step)
    requires Runs(INITIAL, run) && step.BeginIngest? && SoundRun(INITIAL, run, step.id)
    requires Enabled(Exec(INITIAL, run), step) && Repeats(Exec(INITIAL, run), step)
    requires !OnDisk(Exec(INITIAL, run), Named(step))
    requires DistinctIds(registry) && step.id in RegisteredIds(registry)
    ensures loss.PowerLoss? && Enabled(Exec(INITIAL, run), loss)
    ensures var after := Apply(Apply(Exec(INITIAL, run), loss), Start(registry, true, Unreadable));
            after.up ==>
              step.id in after.mem.nodes
              && !Reaches(after.mem.nodes[step.id].collectedAt, after.mem.nodes[step.id].digest, Named(step))
  {
    var s := Exec(INITIAL, run);
    RunKeepsDurable(INITIAL, run, step.id);
    RepeatStands(s, step);
    var f :| f in s.disk.primaryMaybe && !Held(f, Named(step));
    loss := PowerLoss(f, s.disk.backup);
    LostByStart(s, f, registry, Named(step));
  }

  // ---- When the report is on every content

  /** What the node stands at, the visible state file holds, and so does the snapshot of a running persist. */
  ghost predicate Visible(s: State, d: DeviceId, a: Ack)
  {
    s.up && d in s.mem.nodes && Reaches(Base(s, d).collectedAt, Base(s, d).digest, a) ==>
      && (s.disk.primary.Some? ==> Held(s.disk.primary, a))
      && (s.tick.Some? ==> Held(s.tick, a))
  }

  lemma NodeSnapshotHolds(s: State, now: Time, d: DeviceId, a: Ack)
    requires WellFormed(s) && Tracked(s, d) && Guarded(s, d) && s.up && d in s.mem.nodes && a.deviceId == d
    requires Reaches(Base(s, d).collectedAt, Base(s, d).digest, a) || Reaches(s.mem.nodes[d].collectedAt, s.mem.nodes[d].digest, a)
    ensures Held(Some(SnapshotOf(s.mem, now)), a)
  {
    SnapshotHolds(s.mem, now, d, a);
  }

  /** After a write that was told to hold the report, the visible file is as before or holds it. */
  lemma WriteShows(disk: Disk, snapshot: Snapshot, env: WriteEnv, a: Ack)
    requires ValidDisk(disk) && Held(Some(snapshot), a)
    ensures var (after, ok) := Write(disk, snapshot, env);
            (after.primary == disk.primary && !ok) || Held(after.primary, a)
  {
    WriteHolds(disk, snapshot, env, a);
    WriteSettles(disk, snapshot, env);
  }

  lemma FinishKeepsVisible(s: State, env: WriteEnv, now: Time, d: DeviceId, a: Ack)
    requires WellFormed(s) && Tracked(s, d) && Guarded(s, d) && Visible(s, d, a) && a.deviceId == d
    requires Enabled(s, FinishIngest(env, now))
    ensures Visible(Apply(s, FinishIngest(env, now)), d, a)
  {
    var after := Apply(s, FinishIngest(env, now));
    if d in after.mem.nodes && Reaches(Base(after, d).collectedAt, Base(after, d).digest, a) {
      NodeSnapshotHolds(s, now, d, a);
      WriteShows(s.disk, SnapshotOf(s.mem, now), env, a);
    }
  }

  lemma TickKeepsVisible(s: State, step: Step, d: DeviceId, a: Ack)
    requires WellFormed(s) && Tracked(s, d) && Guarded(s, d) && Visible(s, d, a) && a.deviceId == d
    requires Enabled(s, step) && (step.BeginTick? || step.FinishTick?)
    ensures Visible(Apply(s, step), d, a)
  {
    if d in s.mem.nodes && Reaches(Base(s, d).collectedAt, Base(s, d).digest, a) {
      if step.BeginTick? {
        NodeSnapshotHolds(s, step.now, d, a);
      } else {
        WriteShows(s.disk, s.tick.value, step.env, a);
      }
    }
  }

  lemma StartKeepsVisible(s: State, step: Step, d: DeviceId, a: Ack)
    requires WellFormed(s) && Tracked(s, d) && Enabled(s, step) && step.Start? && step.readPrimary
    requires a.deviceId == d && a.collectedAt != 0
    ensures Visible(Apply(s, step), d, a)
  {
    if Apply(s, step).up {
      StartRecords(step.registry, s.disk, step.readPrimary, step.readBackup, d);
    } else {
      assert !Apply(s, step).up;
    }
  }

  lemma StepKeepsVisible(s: State, step: Step, d: DeviceId, a: Ack)
    requires WellFormed(s) && Tracked(s, d) && Guarded(s, d) && Visible(s, d, a) && a.deviceId == d && a.collectedAt != 0
    requires Enabled(s, step) && Sound(s, step, d)
    ensures Visible(Apply(s, step), d, a)
  {
    match step
    case BeginIngest(_, _, _, _, _, _, _) => UpdateKeepsBase(s, step, d);
    case LegacyCommit(_, _, _, _, _, _) => UpdateKeepsBase(s, step, d);
    case FinishIngest(env, now) => FinishKeepsVisible(s, env, now, d, a);
    case BeginTick(_) => TickKeepsVisible(s, step, d, a);
    case FinishTick(_) => TickKeepsVisible(s, step, d, a);
    case Reload(disconnect) =>
      RebuiltConfigured(s.mem, disconnect);
      if d in s.mem.nodes { ReloadKeepsNode(s, disconnect, d); }
    case Start(_, _, _) => StartKeepsVisible(s, step, d, a);
    case _ =>
  }

  lemma {:induction false} RunKeepsVisible(s: State, run: seq<Step>, d: DeviceId, a: Ack)
    requires WellFormed(s) && Tracked(s, d) && Guarded(s, d) && Visible(s, d, a) && a.deviceId == d && a.collectedAt != 0
    requires Runs(s, run) && SoundRun(s, run, d)
    ensures Visible(Exec(s, run), d, a)
    decreases |run|
  {
    if run != [] {
      StepKeepsShape(s, run[0]);
      StepKeepsTracked(s, run[0], d);
      StepKeepsGuarded(s, run[0], d);
      StepKeepsVisible(s, run[0], d, a);
      RunKeepsVisible(Apply(s, run[0]), run[1..], d, a);
    }
  }

  /** With a settled directory, a repeat's report is on every content exactly if there is a state file; and an acknowledged one always is. */
  lemma SettledRepeatIsOnDisk(run: seq<Step>, step: Step)
    requires Runs(INITIAL, run) && step.BeginIngest? && SoundRun(INITIAL, run, step.id)
    requires Enabled(Exec(INITIAL, run), step) && Repeats(Exec(INITIAL, run), step)
    ensures var s := Exec(INITIAL, run);
            && (s.disk.primaryMaybe == {s.disk.primary} ==> (OnDisk(s, Named(step)) <==> s.disk.primary.Some?))
            && (Named(step) in s.acks ==> OnDisk(s, Named(step)))
  {
    var s := Exec(INITIAL, run);
    RunKeepsDurable(INITIAL, run, step.id);
    RepeatStands(s, step);
    RunKeepsVisible(INITIAL, run, step.id, Named(step));
    if Named(step) in s.acks { assert AckKept(s, step.id, Named(step)); }
  }

  // ---- Runs in which no write of the device's failed after its rename

  lemma CalmRepeatIsAcked(s: State, step: Step)
    requires step.BeginIngest? && WellFormed(s) && Durable(s, step.id) && Level(s, step.id, LastAcked(s.acks, step.id))
    requires Enabled(s, step) && Repeats(s, step)
    ensures Named(step) in s.acks
  {
    RepeatStands(s, step);
    LastAckedIsAck(s.acks, step.id);
    var i :| 0 <= i < |s.acks| && s.acks[i].deviceId == step.id && s.acks[i].collectedAt == LastAcked(s.acks, step.id);
    assert AckKept(s, step.id, s.acks[i]);
  }

  lemma {:induction false} CalmSuccesses(s: State, run: seq<Step>, d: DeviceId)
    requires WellFormed(s) && Tracked(s, d) && Durable(s, d) && Level(s, d, LastAcked(s.acks, d))
    requires Runs(s, run) && CalmRun(s, run, d) && SoundRun(s, run, d)
    ensures SecuredRun(s, run, d)
    ensures forall a :: a in Successes(s, run) && a.deviceId == d ==> a in Exec(s, run).acks
    decreases |run|
  {
    if run != [] {
      var step, next := run[0], Apply(s, run[0]);
      StepKeepsShape(s, step);
      StepKeepsTracked(s, step, d);
      StepKeepsDurable(s, step, d);
      StepKeepsLevel(s, step, d);
      CalmSuccesses(next, run[1..], d);
      StepAcks(s, step);
      AcksAreSuccesses(next, run[1..]);
      if Repeats(s, step) && step.id == d {
        CalmRepeatIsAcked(s, step);
        assert AckKept(s, d, Named(step));
      }
    }
  }

  /** Then a repeat is answered only for an acknowledged report, so every answer with success is durable. */
  lemma CalmAnswersAreDurable(run: seq<Step>, d: DeviceId, a: Ack)
    requires Runs(INITIAL, run) && SoundRun(INITIAL, run, d) && CalmRun(INITIAL, run, d)
    requires a in Successes(INITIAL, run) && a.deviceId == d
    ensures a in Exec(INITIAL, run).acks && OnDisk(Exec(INITIAL, run), a)
  {
    CalmSuccesses(INITIAL, run, d);
    AnsweredIsDurable(run, d, a);
  }

  // ---- A repeat that is lost

  lemma {:induction false} ExtendSuccesses(s: State, run: seq<Step>, step: Step)
    requires Runs(s, run) && Enabled(Exec(s, run), step) && Runs(s, run + [step])
    ensures Successes(s, run + [step])
         == Successes(s, run) + if Success(Exec(s, run), step).Some? then [Success(Exec(s, run), step).value] else []
    decreases |run|
  {
    if run == [] {
      assert ([] + [step])[1..] == [];
    } else {
      assert (run + [step])[1..] == run[1..] + [step];
      ExtendSuccesses(Apply(s, run[0]), run[1..], step);
    }
  }

  const REPEATED := Ack("d", 20, "b")

  function Twice(): Step { Resend(REPEATED, STATS, false, true, 30) }

  /** Report 20 was refused, its write having failed after the rename; a restart found it, and the node stands at it. */
  lemma UnsyncedIsFound() returns (run: seq<Step>, left: File)
    ensures Runs(INITIAL, run) && SoundRun(INITIAL, run, "d")
    ensures var s := Exec(INITIAL, run);
            && Enabled(s, Twice()) && Repeats(s, Twice()) && s.acks == [Ack("d", 10, "a")]
            && left in s.disk.primaryMaybe && left.Some? && DistinctDevices(left.value.devices)
            && |left.value.devices| == 1 && left.value.orphans == []
            && left.value.devices[0].deviceId == "d" && Decodes(left.value.devices[0])
            && left.value.devices[0].collectedAt == Some(10)
  {
    var before := TwoReports();
    var s := Exec(INITIAL, before);
    left := s.disk.primary;
    RunKeepsShape(INITIAL, before);
    var env := WriteEnv(true, true, Synced, RenamedUnsynced);
    assert [DEVICE][..0] == [];
    assert Listed([DEVICE], s.mem.nodes) == [PersistedFromNode("d", s.mem.nodes["d"])];
    var failed := Apply(s, FinishIngest(env, 20));
    assert failed.disk.primary == Some(SnapshotOf(s.mem, 20)) && failed.acks == s.acks && left in failed.disk.primaryMaybe;
    SmallFileStarts(failed.disk, true, Usable);
    run := StopAndStart(before, FinishIngest(env, 20), Start([DEVICE], true, Usable));
    EntryOfOne(failed.disk.primary.value);
    RestartedAt(failed.disk, failed.disk.primary.value);
    assert Records(failed.disk.primary.value, "d") == [PersistedFromNode("d", s.mem.nodes["d"])];
    RepeatAnswer(Exec(INITIAL, run));
  }

  lemma RepeatAnswer(s: State)
    requires "d" in s.mem.nodes && s.mem.nodes["d"].enabled && s.mem.nodes["d"].ownership == DEVICE.ownership
    requires s.mem.nodes["d"].collectedAt == 20 && s.mem.nodes["d"].digest == Some("b")
    ensures Repeats(s, Twice())
  {
  }

  lemma CommitAnswer(s: State)
    requires "d" in s.mem.nodes && s.mem.nodes["d"].enabled && s.mem.nodes["d"].ownership == DEVICE.ownership
    requires s.mem.nodes["d"].collectedAt == 10 && s.mem.nodes["d"].generation <= s.mem.updateId
    ensures Answer(s, Twice()).Committed?
  {
  }

  /** A start from one entry of the device at 10. */
  lemma BackAtTen(s: State, start: Step)
    requires start == Start([DEVICE], true, Usable) && !s.up && s.disk.primary.Some?
    requires var left := s.disk.primary.value;
             && |left.devices| == 1 && left.orphans == [] && left.devices[0].deviceId == "d" && Decodes(left.devices[0])
             && left.devices[0].collectedAt == Some(10)
    ensures var after := Apply(s, start);
            && after.up && after.acks == s.acks && "d" in after.mem.nodes && after.mem.nodes["d"].collectedAt == 10
            && after.mem.nodes["d"].enabled && after.mem.nodes["d"].ownership == DEVICE.ownership
  {
    SmallFileStarts(s.disk, true, Usable);
    EntryOfOne(s.disk.primary.value);
    RestartedAt(s.disk, s.disk.primary.value);
  }

  lemma Lengthen(run: seq<Step>, step: Step) returns (longer: seq<Step>)
    requires Runs(INITIAL, run) && SoundRun(INITIAL, run, "d")
    requires Enabled(Exec(INITIAL, run), step) && Sound(Exec(INITIAL, run), step, "d")
    ensures longer == run + [step] && Runs(INITIAL, longer) && SoundRun(INITIAL, longer, "d")
    ensures Exec(INITIAL, longer) == Apply(Exec(INITIAL, run), step)
    ensures forall a :: a in Successes(INITIAL, run) ==> a in Successes(INITIAL, longer)
    ensures Success(Exec(INITIAL, run), step).Some? ==> Success(Exec(INITIAL, run), step).value in Successes(INITIAL, longer)
  {
    longer := run + [step];
    Extend(INITIAL, run, step);
    ExtendSuccesses(INITIAL, run, step);
  }

  /** The found report is sent again and answered with success, then a power loss brings back the content before it. */
  lemma RepeatThenPowerLoss() returns (run: seq<Step>)
    ensures Runs(INITIAL, run) && SoundRun(INITIAL, run, "d") && REPEATED in Successes(INITIAL, run)
    ensures var s := Exec(INITIAL, run);
            && !s.up && s.acks == [Ack("d", 10, "a")] && s.disk.primary.Some?
            && var left := s.disk.primary.value;
               && DistinctDevices(left.devices) && |left.devices| == 1 && left.orphans == []
               && left.devices[0].deviceId == "d" && Decodes(left.devices[0]) && left.devices[0].collectedAt == Some(10)
  {
    var found, left := UnsyncedIsFound();
    var s := Exec(INITIAL, found);
    RunKeepsShape(INITIAL, found);
    RepeatStands(s, Twice());
    run := Lengthen(found, Twice());
    run := Lengthen(run, PowerLoss(left, s.disk.backup));
  }

  /**
   * Where the second answer's durability ends: a report answered with success as a repeat is gone after the
   * power loss, every start having read the state file, and is committed as a new one when it is sent again.
   */
  lemma RepeatedReportIsLost() returns (run: seq<Step>)
    ensures Runs(INITIAL, run) && SoundRun(INITIAL, run, "d") && REPEATED in Successes(INITIAL, run)
    ensures var s := Exec(INITIAL, run);
            && s.up && s.acks == [Ack("d", 10, "a")] && "d" in s.mem.nodes && s.mem.nodes["d"].collectedAt == 10
            && Answer(s, Twice()).Committed?
  {
    var lost := RepeatThenPowerLoss();
    var start := Start([DEVICE], true, Usable);
    assert OwnedByV2([DEVICE], "d") by { assert DEVICE in [DEVICE]; }
    BackAtTen(Exec(INITIAL, lost), start);
    run := Lengthen(lost, start);
    TicketProtocol(run);
    CommitAnswer(Exec(INITIAL, run));
  }
}
