/** The device-update protocol as a transition system over memory, disk, tickets and crashes. */
module Protocol {
  import opened Text
  import opened Devices
  import opened Orphans
  import opened StateFiles
  import opened Commit

  /** A report by device, collection time and digest, as an answer with success names it. */
  datatype Ack = Ack(deviceId: DeviceId, collectedAt: Time, digest: Digest)

  /** An ingest that has committed in memory, holds both locks and is about to write. */
  datatype InFlight = InFlight(before: Node, generation: nat, ack: Ack)

  /**
   * `tickets` are the legacy generations drawn and not yet committed or dropped; `tick` is the
   * snapshot a running stats persist took; `acks` is the history of the reports answered after their own
   * commit was written. A repeat that is answered with success changes no state and is not in it.
   */
  datatype State = State(
    disk: Disk, up: bool, mem: Memory, tickets: multiset<nat>,
    inFlight: Option<InFlight>, tick: Option<Snapshot>, acks: seq<Ack>)

  const INITIAL := State(EMPTY_DISK, false, Memory([], map[], 0, []), multiset{}, None, None, [])

  datatype Step =
    | BeginIngest(id: DeviceId, collectedAt: Time, payload: Option<Payload>, digest: Digest,
                  identityRejected: bool, pathsOpen: bool, now: Time)
    | FinishIngest(env: WriteEnv, now: Time)
    | DrawTicket
    | LegacyCommit(ticket: nat, legacyId: DeviceId, legacyCollectedAt: Time, legacyPayload: Option<Payload>,
                   connectionId: nat, now: Time)
    | Connect(connectedId: DeviceId, connectionId: nat)
    | BeginTick(now: Time)
    | FinishTick(env: WriteEnv)
    | Reload(disconnect: bool)
    | Stop
    | PowerLoss(primary: File, backup: File)
    | Start(registry: Registry, readPrimary: bool, readBackup: Access)

  /** The locks: an ingest needs the persist lock and the node lock, a tick holds the persist lock across its write. */
  predicate Enabled(s: State, step: Step)
  {
    match step
    case BeginIngest(_, _, _, _, _, _, _) => s.up && s.inFlight.None? && s.tick.None?
    case FinishIngest(_, _) => s.up && s.inFlight.Some?
    case DrawTicket => s.up
    case LegacyCommit(ticket, _, _, _, _, _) => s.up && s.inFlight.None? && ticket in s.tickets
    case Connect(_, _) => s.up && s.inFlight.None?
    case BeginTick(_) => s.up && s.inFlight.None? && s.tick.None?
    case FinishTick(_) => s.up && s.tick.Some?
    case Reload(_) => s.up && s.inFlight.None?
    case Stop => s.up
    case PowerLoss(primary, backup) => primary in s.disk.primaryMaybe && backup in s.disk.backupMaybe
    case Start(registry, _, _) => !s.up && DistinctIds(registry)
  }

  function Down(s: State, disk: Disk): State
  {
    State(disk, false, s.mem, multiset{}, None, None, s.acks)
  }

  function ApplyBegin(s: State, step: Step): State
    requires step.BeginIngest?
  {
    var req := V2Request(step.id, step.collectedAt, step.payload, step.digest, step.identityRejected);
    match Prepare(s.mem, req, step.now, true, step.pathsOpen)
    case Refused(mem, _) => s.(mem := mem)
    case Committed(mem, before, generation) =>
      var collectedAt := if step.collectedAt == 0 then step.now else step.collectedAt;
      s.(mem := mem, inFlight := Some(InFlight(before, generation, Ack(step.id, collectedAt, step.digest))))
  }

  function ApplyFinish(s: State, env: WriteEnv, now: Time): State
    requires s.inFlight.Some?
  {
    var f := s.inFlight.value;
    var (disk, ok) := Write(s.disk, SnapshotOf(s.mem, now), env);
    if ok then s.(disk := disk, inFlight := None, acks := s.acks + [f.ack])
    else s.(disk := disk, inFlight := None, mem := RolledBack(s.mem, f.ack.deviceId, f.before, f.generation, true))
  }

  function ApplyLegacy(s: State, step: Step): State
    requires step.LegacyCommit?
  {
    var req := LegacyRequest(step.legacyId, step.legacyCollectedAt, step.legacyPayload, step.ticket, step.connectionId);
    s.(mem := Prepare(s.mem, req, step.now, false, true).mem, tickets := s.tickets - multiset{step.ticket})
  }

  function ApplyConnect(s: State, id: DeviceId, connectionId: nat): State
  {
    if id !in s.mem.nodes then s
    else s.(mem := s.mem.(nodes := s.mem.nodes[id := s.mem.nodes[id].(connected := true, connectionId := connectionId)]))
  }

  function ApplyStart(s: State, step: Step): State
    requires step.Start?
  {
    match Restarted(step.registry, s.disk, step.readPrimary, step.readBackup)
    case None => s
    case Some(mem) => State(s.disk, true, mem, multiset{}, None, None, s.acks)
  }

  function Apply(s: State, step: Step): State
    requires Enabled(s, step)
  {
    match step
    case BeginIngest(_, _, _, _, _, _, _) => ApplyBegin(s, step)
    case FinishIngest(env, now) => ApplyFinish(s, env, now)
    case DrawTicket =>
      s.(mem := s.mem.(updateId := s.mem.updateId + 1), tickets := s.tickets + multiset{s.mem.updateId + 1})
    case LegacyCommit(_, _, _, _, _, _) => ApplyLegacy(s, step)
    case Connect(id, connectionId) => ApplyConnect(s, id, connectionId)
    case BeginTick(now) => s.(tick := Some(SnapshotOf(s.mem, now)))
    case FinishTick(env) => s.(disk := Write(s.disk, s.tick.value, env).0, tick := None)
    case Reload(disconnect) =>
      s.(mem := s.mem.(nodes := Rebuilt(s.mem.registry, s.mem.nodes, disconnect)))
    case Stop => Down(s, s.disk)
    case PowerLoss(primary, backup) => Down(s, Disk(primary, backup, {primary}, {backup}))
    case Start(_, _, _) => ApplyStart(s, step)
  }

  predicate Runs(s: State, run: seq<Step>)
    decreases |run|
  {
    run == [] || (Enabled(s, run[0]) && Runs(Apply(s, run[0]), run[1..]))
  }

  function Exec(s: State, run: seq<Step>): State
    requires Runs(s, run)
    decreases |run|
  {
    if run == [] then s else Exec(Apply(s, run[0]), run[1..])
  }

  // ---- Shape: locks, registry and files

  ghost predicate FileOk(file: File)
  {
    file.Some? ==> DistinctDevices(file.value.devices)
  }

  ghost predicate FilesOk(disk: Disk)
  {
    && ValidDisk(disk)
    && (forall f :: f in disk.primaryMaybe ==> FileOk(f))
    && (forall f :: f in disk.backupMaybe ==> FileOk(f))
  }

  ghost predicate WellFormed(s: State)
  {
    && FilesOk(s.disk)
    && (s.up ==>
      && Configured(s.mem)
      && !(s.inFlight.Some? && s.tick.Some?)
      && (s.tick.Some? ==> FileOk(s.tick))
      && (s.inFlight.Some? ==>
        var f := s.inFlight.value;
        && f.generation > 0 && f.ack.collectedAt != 0 && f.ack.deviceId in s.mem.nodes
        && f.before.enabled == s.mem.nodes[f.ack.deviceId].enabled
        && f.before.ownership == s.mem.nodes[f.ack.deviceId].ownership))
    && (!s.up ==> s.inFlight.None? && s.tick.None? && s.tickets == multiset{})
  }

  lemma ConfiguredUpdate(mem: Memory, id: DeviceId, node: Node, updateId: nat)
    requires Configured(mem) && id in mem.nodes
    requires node.enabled == mem.nodes[id].enabled && node.ownership == mem.nodes[id].ownership
    ensures Configured(mem.(nodes := mem.nodes[id := node], updateId := updateId))
  {
  }

  lemma WriteKeepsFiles(disk: Disk, snapshot: Snapshot, env: WriteEnv)
    requires FilesOk(disk) && DistinctDevices(snapshot.devices)
    ensures FilesOk(Write(disk, snapshot, env).0)
  {
    WriteSettles(disk, snapshot, env);
  }

  lemma RebuiltConfigured(mem: Memory, disconnect: bool)
    requires Configured(mem)
    ensures Configured(mem.(nodes := Rebuilt(mem.registry, mem.nodes, disconnect)))
    ensures var nodes := Rebuilt(mem.registry, mem.nodes, disconnect);
            nodes.Keys == mem.nodes.Keys
            && forall d :: d in mem.nodes ==> NodeBoundary(nodes[d]) == NodeBoundary(mem.nodes[d])
                                              && nodes[d].payload == mem.nodes[d].payload
  {
    RebuiltShape(mem.registry, mem.nodes, disconnect);
    var nodes := Rebuilt(mem.registry, mem.nodes, disconnect);
    forall d | d in mem.nodes
      ensures NodeBoundary(nodes[d]) == NodeBoundary(mem.nodes[d]) && nodes[d].payload == mem.nodes[d].payload
    {
      var device :| device in mem.registry && device.id == d;
    }
  }

  lemma BeginKeepsShape(s: State, step: Step)
    requires WellFormed(s) && Enabled(s, step) && step.BeginIngest?
    ensures WellFormed(Apply(s, step))
  {
    var req := V2Request(step.id, step.collectedAt, step.payload, step.digest, step.identityRejected);
    var p := Prepare(s.mem, req, step.now, true, step.pathsOpen);
    if p.Committed? {
      ConfiguredUpdate(s.mem, step.id, p.mem.nodes[step.id], p.mem.updateId);
    }
  }

  lemma FinishKeepsShape(s: State, env: WriteEnv, now: Time)
    requires WellFormed(s) && Enabled(s, FinishIngest(env, now))
    ensures WellFormed(Apply(s, FinishIngest(env, now)))
  {
    var f := s.inFlight.value;
    SnapshotRecords(s.mem, now, f.ack.deviceId);
    WriteKeepsFiles(s.disk, SnapshotOf(s.mem, now), env);
    ConfiguredUpdate(s.mem, f.ack.deviceId, f.before, RolledBack(s.mem, f.ack.deviceId, f.before, f.generation, true).updateId);
  }

  lemma LegacyKeepsShape(s: State, step: Step)
    requires WellFormed(s) && Enabled(s, step) && step.LegacyCommit?
    ensures WellFormed(Apply(s, step))
  {
    var req := LegacyRequest(step.legacyId, step.legacyCollectedAt, step.legacyPayload, step.ticket, step.connectionId);
    var p := Prepare(s.mem, req, step.now, false, true);
    if p.Committed? { ConfiguredUpdate(s.mem, step.legacyId, p.mem.nodes[step.legacyId], p.mem.updateId); }
  }

  lemma StepKeepsShape(s: State, step: Step)
    requires WellFormed(s) && Enabled(s, step)
    ensures WellFormed(Apply(s, step))
  {
    match step
    case BeginIngest(_, _, _, _, _, _, _) => BeginKeepsShape(s, step);
    case FinishIngest(env, now) => FinishKeepsShape(s, env, now);
    case LegacyCommit(_, _, _, _, _, _) => LegacyKeepsShape(s, step);
    case Connect(id, connectionId) =>
      if id in s.mem.nodes {
        ConfiguredUpdate(s.mem, id, s.mem.nodes[id].(connected := true, connectionId := connectionId), s.mem.updateId);
      }
    case BeginTick(now) => ListedMembers(s.mem.registry, s.mem.nodes);
    case FinishTick(env) => WriteKeepsFiles(s.disk, s.tick.value, env);
    case Reload(disconnect) => RebuiltConfigured(s.mem, disconnect);
    case Start(registry, readPrimary, readBackup) =>
      if Restarted(registry, s.disk, readPrimary, readBackup).Some? {
        RestartedShape(registry, s.disk, readPrimary, readBackup);
      }
    case _ =>
  }

  lemma {:induction false} RunKeepsShape(s: State, run: seq<Step>)
    requires WellFormed(s) && Runs(s, run)
    ensures WellFormed(Exec(s, run))
    decreases |run|
  {
    if run != [] {
      StepKeepsShape(s, run[0]);
      RunKeepsShape(Apply(s, run[0]), run[1..]);
    }
  }

  // ---- Tickets

  /** Outstanding tickets are distinct and within the counter; every accepted generation is within it. */
  ghost predicate TicketsOk(s: State)
  {
    s.up ==>
      && (forall t :: t in s.tickets ==> s.tickets[t] == 1 && 0 < t <= s.mem.updateId)
      && (forall d :: d in s.mem.nodes ==> s.mem.nodes[d].generation <= s.mem.updateId && s.mem.nodes[d].generation !in s.tickets)
      && (s.inFlight.Some? ==>
        var f := s.inFlight.value;
        && f.ack.deviceId in s.mem.nodes && s.mem.nodes[f.ack.deviceId].generation == f.generation
        && f.generation <= s.mem.updateId && f.generation !in s.tickets
        && f.before.generation < f.generation && f.before.generation !in s.tickets
        && forall d :: d in s.mem.nodes && d != f.ack.deviceId ==> s.mem.nodes[d].generation < f.generation)
  }

  /** With the counter ahead of every node, the check after the draw never refuses an assigned ticket. */
  lemma AssignedTicketIsNeverStale(mem: Memory, req: Request, now: Time, durable: bool, pathsOpen: bool)
    requires forall d :: d in mem.nodes ==> mem.nodes[d].generation <= mem.updateId
    requires req.assignGeneration
    ensures Prepare(mem, req, now, durable, pathsOpen).Refused? ==>
              Prepare(mem, req, now, durable, pathsOpen).error != StaleGeneration
              && Prepare(mem, req, now, durable, pathsOpen).mem == mem
    ensures var p := Prepare(mem, req, now, durable, pathsOpen);
            p.Committed? ==>
              p.generation == mem.updateId + 1 == p.mem.updateId
              && forall d :: d in mem.nodes ==> mem.nodes[d].generation < p.generation
  {
  }

  lemma BeginKeepsTickets(s: State, step: Step)
    requires WellFormed(s) && TicketsOk(s) && Enabled(s, step) && step.BeginIngest?
    ensures TicketsOk(Apply(s, step))
  {
    var req := V2Request(step.id, step.collectedAt, step.payload, step.digest, step.identityRejected);
    AssignedTicketIsNeverStale(s.mem, req, step.now, true, step.pathsOpen);
  }

  lemma LegacyKeepsTickets(s: State, step: Step)
    requires WellFormed(s) && TicketsOk(s) && Enabled(s, step) && step.LegacyCommit?
    ensures TicketsOk(Apply(s, step))
  {
    var after := Apply(s, step);
    assert s.tickets[step.ticket] == 1;
    assert forall t :: t in after.tickets ==> t in s.tickets && t != step.ticket;
  }

  lemma OtherStepKeepsTickets(s: State, step: Step)
    requires WellFormed(s) && TicketsOk(s) && Enabled(s, step)
    requires step.DrawTicket? || step.Connect? || step.BeginTick? || step.FinishTick? || step.Stop? || step.PowerLoss?
    ensures TicketsOk(Apply(s, step))
  {
  }

  lemma ReloadKeepsTickets(s: State, disconnect: bool)
    requires WellFormed(s) && TicketsOk(s) && Enabled(s, Reload(disconnect))
    ensures TicketsOk(Apply(s, Reload(disconnect)))
  {
    RebuiltConfigured(s.mem, disconnect);
    var nodes := Rebuilt(s.mem.registry, s.mem.nodes, disconnect);
    forall d | d in nodes ensures nodes[d].generation == s.mem.nodes[d].generation {
      assert NodeBoundary(nodes[d]) == NodeBoundary(s.mem.nodes[d]);
    }
  }

  lemma StepKeepsTickets(s: State, step: Step)
    requires WellFormed(s) && TicketsOk(s) && Enabled(s, step)
    ensures TicketsOk(Apply(s, step))
  {
    match step
    case BeginIngest(_, _, _, _, _, _, _) => BeginKeepsTickets(s, step);
    case FinishIngest(env, now) => FinishKeepsTickets(s, env, now);
    case LegacyCommit(_, _, _, _, _, _) => LegacyKeepsTickets(s, step);
    case Reload(disconnect) => ReloadKeepsTickets(s, disconnect);
    case Start(registry, readPrimary, readBackup) =>
      if Restarted(registry, s.disk, readPrimary, readBackup).Some? {
        RestartedShape(registry, s.disk, readPrimary, readBackup);
      }
    case _ => OtherStepKeepsTickets(s, step);
  }

  /** Undoing a ticket by compare-and-swap gives back exactly one number, and only if nobody holds a later one. */
  lemma FinishKeepsTickets(s: State, env: WriteEnv, now: Time)
    requires WellFormed(s) && TicketsOk(s) && Enabled(s, FinishIngest(env, now))
    ensures TicketsOk(Apply(s, FinishIngest(env, now)))
  {
    var f, after := s.inFlight.value, Apply(s, FinishIngest(env, now));
    if !Write(s.disk, SnapshotOf(s.mem, now), env).1 && s.mem.updateId == f.generation {
      forall t | t in after.tickets ensures t <= after.mem.updateId { assert t != f.generation; }
    }
  }

  lemma {:induction false} RunKeepsTickets(s: State, run: seq<Step>)
    requires WellFormed(s) && TicketsOk(s) && Runs(s, run)
    ensures TicketsOk(Exec(s, run))
    decreases |run|
  {
    if run != [] {
      StepKeepsShape(s, run[0]);
      StepKeepsTickets(s, run[0]);
      RunKeepsTickets(Apply(s, run[0]), run[1..]);
    }
  }

  /** The ticket protocol, for every interleaving from an empty disk. */
  lemma TicketProtocol(run: seq<Step>)
    requires Runs(INITIAL, run)
    ensures TicketsOk(Exec(INITIAL, run))
  {
    RunKeepsTickets(INITIAL, run);
  }
}
