/**
 * Which reports are committed: exactly those that meet every condition, for the reason of the first one they
 * miss, and over every run nothing is acknowledged that did not.
 */
module Admission {
  import opened Text
  import opened Devices
  import opened StateFiles
  import opened Commit
  import opened Protocol
  import opened Replay
  import opened Answers

  // ---- What a device_v2 report must meet

  /** The registry lets the device report by device_v2 at that time. */
  ghost predicate MayReport(registry: Registry, id: DeviceId, protocol: Devices.Protocol, now: Time)
  {
    exists device :: device in registry && device.id == id && device.enabled && OwnershipAllows(device.ownership, protocol, now)
  }

  predicate Disabled(registry: Registry, id: DeviceId)
  {
    exists device :: device in registry && device.id == id && !device.enabled
  }

  /** The report itself: readable, in the clock window, of an accepted identity, and a writable state file. */
  predicate Sendable(step: Step)
    requires step.BeginIngest?
  {
    step.payload.Some? && WithinSkew(Named(step).collectedAt, step.now) && !step.identityRejected && step.pathsOpen
  }

  /** Later than anything the device's node stands at. */
  predicate Newer(s: State, step: Step)
    requires step.BeginIngest?
  {
    step.id in s.mem.nodes && s.mem.nodes[step.id].collectedAt < Named(step).collectedAt
  }

  lemma RegistryDecides(mem: Memory, id: DeviceId, protocol: Devices.Protocol, now: Time)
    requires Configured(mem)
    ensures id in mem.nodes <==> id in RegisteredIds(mem.registry)
    ensures MayReport(mem.registry, id, protocol, now) <==>
            id in mem.nodes && mem.nodes[id].enabled && OwnershipAllows(mem.nodes[id].ownership, protocol, now)
    ensures Disabled(mem.registry, id) <==> id in mem.nodes && !mem.nodes[id].enabled
  {
    if id in mem.nodes {
      var device :| device in mem.registry && device.id == id;
      assert mem.nodes[id].enabled == device.enabled && mem.nodes[id].ownership == device.ownership;
    }
  }

  /** A report is committed if and only if it meets everything; otherwise the step changes nothing at all. */
  lemma CommittedExactly(s: State, step: Step)
    requires WellFormed(s) && TicketsOk(s) && Enabled(s, step) && step.BeginIngest?
    ensures Apply(s, step).inFlight.Some? <==> Sendable(step) && MayReport(s.mem.registry, step.id, DeviceV2, step.now) && Newer(s, step)
    ensures Apply(s, step).inFlight.None? ==> Apply(s, step) == s
    ensures Apply(s, step).inFlight.Some? ==>
              && Apply(s, step).inFlight.value.ack == Named(step)
              && Apply(s, step).mem.nodes.Keys == s.mem.nodes.Keys
              && var n := Apply(s, step).mem.nodes[step.id];
                 && n.payload == step.payload && n.lastSeen == step.now && n.collectedAt == Named(step).collectedAt
                 && n.digest == Some(step.digest) && n.protocol == DeviceV2 && !n.restored
                 && n.generation == s.mem.updateId + 1 == Apply(s, step).mem.updateId
                 && n.connected == s.mem.nodes[step.id].connected && n.connectionId == s.mem.nodes[step.id].connectionId
  {
    RegistryDecides(s.mem, step.id, DeviceV2, step.now);
  }

  /** In the clock window and decoded. */
  predicate Readable(step: Step)
    requires step.BeginIngest?
  {
    WithinSkew(Named(step).collectedAt, step.now) && step.payload.Some?
  }

  /** A refusal gives the first condition that the report does not meet, in the order in which they are checked. */
  lemma RefusalHasItsReason(s: State, step: Step)
    requires WellFormed(s) && TicketsOk(s) && Enabled(s, step) && step.BeginIngest? && Answer(s, step).Refused?
    ensures match Answer(s, step).error
            case ClockSkew => !WithinSkew(Named(step).collectedAt, step.now)
            case Undecodable => WithinSkew(Named(step).collectedAt, step.now) && step.payload.None?
            case NotRegistered => Readable(step) && step.id !in RegisteredIds(s.mem.registry)
            case DeviceDisabled => Readable(step) && Disabled(s.mem.registry, step.id)
            case InactiveOwner =>
              Readable(step) && step.id in RegisteredIds(s.mem.registry) && !Disabled(s.mem.registry, step.id)
              && !MayReport(s.mem.registry, step.id, DeviceV2, step.now)
            case StaleReport => Compared(s, step) && Named(step).collectedAt < s.mem.nodes[step.id].collectedAt
            case IdempotentReplay =>
              Compared(s, step) && Named(step).collectedAt == s.mem.nodes[step.id].collectedAt
              && s.mem.nodes[step.id].digest == Some(step.digest)
            case ReportConflict =>
              Compared(s, step) && Named(step).collectedAt == s.mem.nodes[step.id].collectedAt
              && s.mem.nodes[step.id].digest != Some(step.digest)
            case IdentityRejected => Compared(s, step) && Newer(s, step) && step.identityRejected
            case PersistenceFailed => Compared(s, step) && Newer(s, step) && !step.identityRejected && !step.pathsOpen
            case StaleGeneration => false
            case InactiveConnection => false
  {
    RegistryDecides(s.mem, step.id, DeviceV2, step.now);
  }

  /** The report comes to be compared with what the node stands at. */
  ghost predicate Compared(s: State, step: Step)
    requires step.BeginIngest?
  {
    Readable(step) && step.id in s.mem.nodes && MayReport(s.mem.registry, step.id, DeviceV2, step.now)
  }

  /** In any reachable state: an identity, a switch or a connection that is not right changes no node. */
  lemma RefusedChangesNoNode(run: seq<Step>, step: Step)
    requires Runs(INITIAL, run) && Enabled(Exec(INITIAL, run), step)
    requires var s := Exec(INITIAL, run);
             || (step.BeginIngest? && (step.identityRejected || !MayReport(LastRegistry(run), step.id, DeviceV2, step.now)))
             || (step.LegacyCommit? && !MayReport(LastRegistry(run), step.legacyId, LegacySingleDevice, step.now))
             || (step.LegacyCommit? && step.connectionId != 0 && step.legacyId in s.mem.nodes
                 && (!s.mem.nodes[step.legacyId].connected || s.mem.nodes[step.legacyId].connectionId != step.connectionId))
    ensures Apply(Exec(INITIAL, run), step).mem.nodes == Exec(INITIAL, run).mem.nodes
    ensures Apply(Exec(INITIAL, run), step).inFlight == Exec(INITIAL, run).inFlight
  {
    RunKeepsShape(INITIAL, run);
    TicketProtocol(run);
    RegistryIsLastStarts(run);
    if step.BeginIngest? {
      CommittedExactly(Exec(INITIAL, run), step);
    } else {
      LegacyCommittedExactly(Exec(INITIAL, run), step);
    }
  }

  // ---- Every acknowledged report met it

  /** The registry of the last start of a run. */
  function LastRegistry(run: seq<Step>): Registry
  {
    if run == [] then []
    else if run[|run| - 1].Start? then run[|run| - 1].registry
    else LastRegistry(run[..|run| - 1])
  }

  lemma {:induction false} RunsSnoc(s: State, run: seq<Step>)
    requires Runs(s, run) && run != []
    ensures var front, last := run[..|run| - 1], run[|run| - 1];
            Runs(s, front) && Enabled(Exec(s, front), last) && Exec(s, run) == Apply(Exec(s, front), last)
    decreases |run|
  {
    var front, last := run[..|run| - 1], run[|run| - 1];
    if |run| > 1 {
      RunsSnoc(Apply(s, run[0]), run[1..]);
      assert run[1..][..|run| - 2] == front[1..] && front[0] == run[0];
    } else {
      assert run[1..] == [];
    }
  }

  lemma RegistryStep(s: State, step: Step)
    requires Enabled(s, step)
    ensures Apply(s, step).up ==> Apply(s, step).mem.registry == if step.Start? then step.registry else s.mem.registry
    ensures Apply(s, step).up ==> step.Start? || s.up
  {
  }

  lemma {:induction false} RegistryIsLastStarts(run: seq<Step>)
    requires Runs(INITIAL, run) && Exec(INITIAL, run).up
    ensures Exec(INITIAL, run).mem.registry == LastRegistry(run)
    decreases |run|
  {
    if run != [] {
      RunsSnoc(INITIAL, run);
      var before := Exec(INITIAL, run[..|run| - 1]);
      RegistryStep(before, run[|run| - 1]);
      if before.up { RegistryIsLastStarts(run[..|run| - 1]); }
    }
  }

  /** Step i sent the report, met every condition, and was newer than anything the device's node stood at. */
  ghost predicate AdmittedAt(run: seq<Step>, i: nat, a: Ack)
  {
    && i < |run| && run[i].BeginIngest? && Named(run[i]) == a && Sendable(run[i])
    && MayReport(LastRegistry(run[..i]), a.deviceId, DeviceV2, run[i].now)
    && Runs(INITIAL, run[..i]) && Newer(Exec(INITIAL, run[..i]), run[i])
  }

  ghost predicate Admitted(run: seq<Step>, a: Ack) { exists i: nat :: AdmittedAt(run, i, a) }

  lemma AdmittedLater(run: seq<Step>, a: Ack)
    requires run != [] && Admitted(run[..|run| - 1], a)
    ensures Admitted(run, a)
  {
    var front := run[..|run| - 1];
    var i: nat :| AdmittedAt(front, i, a);
    assert run[..i] == front[..i];
    assert AdmittedAt(run, i, a);
  }

  lemma AckStep(s: State, step: Step, a: Ack)
    requires WellFormed(s) && Enabled(s, step)
    ensures a in Apply(s, step).acks ==> a in s.acks || (s.up && s.inFlight.Some? && s.inFlight.value.ack == a)
    ensures Apply(s, step).inFlight.Some? && !step.BeginIngest? ==> Apply(s, step).inFlight == s.inFlight && s.up
  {
  }

  /** Over every run, each acknowledged report and the one in flight were admitted. */
  lemma {:induction false} AcksAreAdmitted(run: seq<Step>, a: Ack)
    requires Runs(INITIAL, run)
    requires var s := Exec(INITIAL, run); a in s.acks || (s.inFlight.Some? && s.inFlight.value.ack == a)
    ensures Admitted(run, a)
    decreases |run|
  {
    if run != [] {
      var front, last := run[..|run| - 1], run[|run| - 1];
      RunsSnoc(INITIAL, run);
      var s := Exec(INITIAL, front);
      RunKeepsShape(INITIAL, front);
      TicketProtocol(front);
      AckStep(s, last, a);
      if a in s.acks || (s.inFlight.Some? && s.inFlight.value.ack == a) {
        AcksAreAdmitted(front, a);
        AdmittedLater(run, a);
      } else {
        CommittedExactly(s, last);
        RegistryIsLastStarts(front);
        assert AdmittedAt(run, |run| - 1, a);
      }
    }
  }

  lemma FinishKeepsOrUndoes(s: State, step: Step, env: WriteEnv, now: Time)
    requires WellFormed(s) && TicketsOk(s) && Enabled(s, step) && step.BeginIngest? && Apply(s, step).inFlight.Some?
    ensures var begun := Apply(s, step);
            && Enabled(begun, FinishIngest(env, now))
            && var done := Apply(begun, FinishIngest(env, now));
               if Write(s.disk, SnapshotOf(begun.mem, now), env).1 then
                 done.acks == s.acks + [Named(step)] && done.mem == begun.mem
               else done.acks == s.acks && done.mem == s.mem
  {
    CommittedExactly(s, step);
    var begun := Apply(s, step);
    assert begun.mem.nodes[step.id := s.mem.nodes[step.id]] == s.mem.nodes;
  }

  /**
   * And a report that meets everything is committed in any reachable state; it is acknowledged when its write
   * succeeds, and undone without a trace in memory when it fails.
   */
  lemma AdmissibleIsAcknowledged(run: seq<Step>, step: Step, env: WriteEnv, now: Time)
    requires Runs(INITIAL, run) && Enabled(Exec(INITIAL, run), step) && step.BeginIngest?
    requires Sendable(step) && MayReport(LastRegistry(run), step.id, DeviceV2, step.now) && Newer(Exec(INITIAL, run), step)
    ensures var s, begun := Exec(INITIAL, run), Apply(Exec(INITIAL, run), step);
            && begun.inFlight.Some? && Enabled(begun, FinishIngest(env, now))
            && var done := Apply(begun, FinishIngest(env, now));
               if Write(s.disk, SnapshotOf(begun.mem, now), env).1 then
                 done.acks == s.acks + [Named(step)] && done.mem == begun.mem
               else done.acks == s.acks && done.mem == s.mem
  {
    RunKeepsShape(INITIAL, run);
    TicketProtocol(run);
    RegistryIsLastStarts(run);
    CommittedExactly(Exec(INITIAL, run), step);
    FinishKeepsOrUndoes(Exec(INITIAL, run), step, env, now);
  }

  // ---- Legacy reports

  /** A legacy report commits exactly under an unspent ticket, from the node's live connection, if the registry lets it. */
  lemma LegacyCommittedExactly(s: State, step: Step)
    requires WellFormed(s) && TicketsOk(s) && Enabled(s, step) && step.LegacyCommit?
    ensures var after, at := Apply(s, step), if step.legacyCollectedAt == 0 then step.now else step.legacyCollectedAt;
            var admitted := step.legacyPayload.Some? && WithinSkew(at, step.now)
                            && MayReport(s.mem.registry, step.legacyId, LegacySingleDevice, step.now)
                            && step.ticket > s.mem.nodes[step.legacyId].generation
                            && (step.connectionId != 0 ==>
                                  s.mem.nodes[step.legacyId].connected && s.mem.nodes[step.legacyId].connectionId == step.connectionId);
            && (!admitted ==> after.mem == s.mem)
            && (admitted ==>
                 && step.legacyId in s.mem.nodes && after.mem.updateId == s.mem.updateId
                 && after.mem.nodes == s.mem.nodes[step.legacyId := s.mem.nodes[step.legacyId].(
                      payload := step.legacyPayload, lastSeen := step.now, collectedAt := at, generation := step.ticket,
                      protocol := LegacySingleDevice, restored := false)])
            && after.tickets == s.tickets - multiset{step.ticket} && after.acks == s.acks && after.disk == s.disk
  {
    RegistryDecides(s.mem, step.legacyId, LegacySingleDevice, step.now);
  }

  // ---- The steps beside the reports

  /** A drawn ticket is a new number, and nothing but the counter and the tickets change. */
  lemma TicketIsNew(s: State)
    requires WellFormed(s) && TicketsOk(s) && s.up
    ensures var after := Apply(s, DrawTicket);
            && after.mem.updateId == s.mem.updateId + 1 && after.tickets == s.tickets + multiset{s.mem.updateId + 1}
            && s.mem.updateId + 1 !in s.tickets && (forall d :: d in s.mem.nodes ==> s.mem.nodes[d].generation < s.mem.updateId + 1)
            && after == s.(mem := s.mem.(updateId := after.mem.updateId), tickets := after.tickets)
  {
  }

  /** A connection is noted at its device's node, and a legacy report from it is then no longer refused for its connection. */
  lemma ConnectionIsNoted(s: State, d: DeviceId, id: nat)
    requires WellFormed(s) && Enabled(s, Connect(d, id))
    ensures var after := Apply(s, Connect(d, id));
            && after.mem.nodes.Keys == s.mem.nodes.Keys && after == s.(mem := s.mem.(nodes := after.mem.nodes))
            && (forall other :: other in s.mem.nodes && other != d ==> after.mem.nodes[other] == s.mem.nodes[other])
            && (d in s.mem.nodes ==>
                 && after.mem.nodes[d].connected && after.mem.nodes[d].connectionId == id
                 && after.mem.nodes[d].(connected := s.mem.nodes[d].connected, connectionId := s.mem.nodes[d].connectionId) == s.mem.nodes[d])
  {
  }

  /** A stopping process loses its tickets and what it had in flight; the disk stays, or is what the power loss left. */
  lemma StopsExactly(s: State, primary: File, backup: File)
    requires WellFormed(s)
    ensures s.up ==>
              var stopped := Apply(s, Stop);
              !stopped.up && stopped.disk == s.disk && stopped.acks == s.acks && stopped.inFlight == None && stopped.tick == None
              && stopped.tickets == multiset{}
    ensures Enabled(s, PowerLoss(primary, backup)) <==> primary in s.disk.primaryMaybe && backup in s.disk.backupMaybe
    ensures Enabled(s, PowerLoss(primary, backup)) ==>
              var lost := Apply(s, PowerLoss(primary, backup));
              !lost.up && lost.disk.primary == primary && lost.disk.backup == backup && lost.acks == s.acks && lost.inFlight == None
              && lost.disk.primaryMaybe == {primary} && lost.disk.backupMaybe == {backup}
  {
  }

  /** A stats persist writes the snapshot that it took, whatever committed meanwhile, and changes nothing in memory. */
  lemma PersistWritesWhatItTook(s: State, now: Time, env: WriteEnv)
    requires WellFormed(s) && Enabled(s, BeginTick(now))
    ensures Apply(s, BeginTick(now)) == s.(tick := Some(SnapshotOf(s.mem, now)))
    ensures var begun := Apply(s, BeginTick(now));
            Enabled(begun, FinishTick(env)) && Apply(begun, FinishTick(env)) == s.(disk := Write(s.disk, SnapshotOf(s.mem, now), env).0)
  {
  }

  /** Who may step when: one report or one persist at a time, legacy work beside a persist, starts only of a stopped process. */
  lemma EnabledExactly(s: State, step: Step)
    requires WellFormed(s)
    ensures Enabled(s, step) <==>
      match step
      case BeginIngest(_, _, _, _, _, _, _) => s.up && s.inFlight == None && s.tick == None
      case BeginTick(_) => s.up && s.inFlight == None && s.tick == None
      case FinishIngest(_, _) => s.inFlight != None
      case FinishTick(_) => s.tick != None
      case LegacyCommit(ticket, _, _, _, _, _) => s.inFlight == None && s.tickets[ticket] > 0
      case DrawTicket => s.up
      case Stop => s.up
      case Connect(_, _) => s.up && s.inFlight == None
      case Reload(_) => s.up && s.inFlight == None
      case PowerLoss(primary, backup) => primary in s.disk.primaryMaybe && backup in s.disk.backupMaybe
      case Start(registry, _, _) => !s.up && DistinctIds(registry)
  {
  }
}
