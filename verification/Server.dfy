/** The server process itself: methods that change its fields, each tied to the functions the protocol steps use. */
module Server {
  import opened Text
  import opened Devices
  import opened Orphans
  import opened StateFiles
  import opened Commit
  import opened Protocol

  class App {
    const registry: Registry
    var nodes: map<DeviceId, Node>
    var updateId: nat
    var orphans: seq<Orphan>
    var disk: Disk

    function View(): Memory
      reads this
    {
      Memory(registry, nodes, updateId, orphans)
    }

    /** A process with its configuration applied; RestorePersistenceV2 follows before it serves. */
    constructor (registry: Registry, disk: Disk)
      ensures this.registry == registry && this.disk == disk
      ensures nodes == Rebuilt(registry, map[], false) && updateId == 0 && orphans == []
    {
      this.registry := registry;
      this.disk := disk;
      nodes, updateId, orphans := map[], 0, [];
      new;
      nodes := RebuildNodes(map[], false);
    }

    method RebuildNodes(previous: map<DeviceId, Node>, disconnect: bool) returns (result: map<DeviceId, Node>)
      ensures result == Rebuilt(registry, previous, disconnect)
    {
      result := map[];
      for i := 0 to |registry|
        invariant result == Rebuilt(registry[..i], previous, disconnect)
      {
        var node := FreshNode(registry[i]);
        if registry[i].id in previous { node := CopyRuntime(registry[i], previous[registry[i].id], disconnect); }
        assert registry[..i + 1][..i] == registry[..i];
        result := result[registry[i].id := node];
      }
      assert registry[..|registry|] == registry;
    }

    method ApplyValidatedConfig(disconnect: bool)
      modifies this`nodes
      ensures View() == old(View()).(nodes := Rebuilt(registry, old(nodes), disconnect))
    {
      nodes := RebuildNodes(nodes, disconnect);
    }

    method TakeSnapshot(now: Time) returns (snapshot: Snapshot)
      ensures snapshot == SnapshotOf(View(), now)
    {
      var devices: seq<Persisted> := [];
      for i := 0 to |registry|
        invariant devices == Listed(registry[..i], nodes)
      {
        var id := registry[i].id;
        assert registry[..i + 1][..i] == registry[..i];
        if id in nodes { devices := devices + [PersistedFromNode(id, nodes[id])]; }
      }
      assert registry[..|registry|] == registry;
      snapshot := Snapshot(now, devices, orphans);
    }

    method ReplaceFile(entry: Entry, file: File, outcome: WriteOutcome) returns (ok: bool)
      modifies this`disk
      ensures disk == AtomicWrite(old(disk), entry, file, outcome) && ok == outcome.Synced?
    {
      if outcome.Unchanged? { return false; }
      match entry {
        case Primary => disk := disk.(primary := file, primaryMaybe := disk.primaryMaybe + {file});
        case Backup => disk := disk.(backup := file, backupMaybe := disk.backupMaybe + {file});
      }
      if outcome.RenamedUnsynced? { return false; }
      disk := disk.(primaryMaybe := {disk.primary}, backupMaybe := {disk.backup});
      return true;
    }

    method WritePersistenceV2(snapshot: Snapshot, env: WriteEnv) returns (ok: bool)
      modifies this`disk
      ensures (disk, ok) == Write(old(disk), snapshot, env)
    {
      if !env.opens { return false; }
      if disk.primary.Some? && env.readable {
        var previous := disk.primary.value;
        var saved := ReplaceFile(Backup, disk.primary, env.backup);
        if !saved { return false; }
        if SameContent(snapshot, previous) { return true; }
      }
      ok := ReplaceFile(Primary, Some(snapshot), env.primary);
    }

    /**
     * One update under the node lock. Legacy connections draw tickets without that lock;
     * `drawnMeanwhile` counts the tickets they take between the commit and the answer.
     */
    method IngestDeviceUpdateAt(request: Request, now: Time, durable: bool, pathsOpen: bool,
                                drawnMeanwhile: nat, env: WriteEnv) returns (error: Option<Error>)
      modifies this`nodes, this`updateId, this`disk
      ensures var p := Prepare(old(View()), request, now, durable, pathsOpen);
              match p
              case Refused(mem, e) => error == Some(e) && View() == mem && disk == old(disk)
              case Committed(mem, before, generation) =>
                var raced := mem.(updateId := mem.updateId + drawnMeanwhile);
                if !durable then error == None && View() == raced && disk == old(disk)
                else
                  var (written, ok) := Write(old(disk), SnapshotOf(raced, now), env);
                  && disk == written
                  && error == (if ok then None else Some(PersistenceFailed))
                  && View() == if ok then raced else RolledBack(raced, request.deviceId, before, generation, request.assignGeneration)
    {
      var req := request;
      if req.collectedAt == 0 { req := req.(collectedAt := now); }
      if !WithinSkew(req.collectedAt, now) { return Some(ClockSkew); }
      if req.payload.None? { return Some(Undecodable); }
      var id := req.deviceId;
      var refusal := Decide(Lookup(nodes, id), true, false, req, now);
      if refusal.Some? { return refusal; }
      if durable && !pathsOpen { return Some(PersistenceFailed); }
      var generation, previousUpdateId := req.generation, 0;
      if req.assignGeneration {
        updateId := updateId + 1;
        generation := updateId;
        previousUpdateId := generation - 1;
      }
      if generation == 0 || generation <= nodes[id].generation { return Some(StaleGeneration); }
      var before := nodes[id];
      nodes := nodes[id := Accepted(before, req, generation, now)];
      updateId := updateId + drawnMeanwhile;
      if durable {
        var ok := PersistOrUndo(id, before, generation, previousUpdateId, req.assignGeneration, now, env);
        if !ok { return Some(PersistenceFailed); }
      }
      return None;
    }

    method PersistOrUndo(id: DeviceId, before: Node, generation: nat, previousUpdateId: nat, ownTicket: bool, now: Time, env: WriteEnv)
      returns (ok: bool)
      requires ownTicket ==> generation == previousUpdateId + 1
      modifies this`nodes, this`updateId, this`disk
      ensures (disk, ok) == Write(old(disk), SnapshotOf(old(View()), now), env)
      ensures View() == if ok then old(View()) else RolledBack(old(View()), id, before, generation, ownTicket)
    {
      var snapshot := TakeSnapshot(now);
      ok := WritePersistenceV2(snapshot, env);
      if !ok {
        nodes := nodes[id := before];
        if ownTicket && updateId == generation { updateId := previousUpdateId; }
      }
    }

    method PersistStats(now: Time, env: WriteEnv) returns (ok: bool)
      modifies this`disk
      ensures (disk, ok) == Write(old(disk), SnapshotOf(old(View()), now), env) && View() == old(View())
    {
      var snapshot := TakeSnapshot(now);
      ok := WritePersistenceV2(snapshot, env);
    }

    /** On failure the process does not start, and no node has changed. */
    method RestorePersistenceV2(readPrimary: bool, readBackup: Access) returns (ok: bool)
      requires nodes == Rebuilt(registry, map[], false) && updateId == 0 && orphans == []
      modifies this`nodes, this`updateId, this`orphans
      ensures var r := Restarted(registry, disk, readPrimary, readBackup);
              ok == r.Some? && View() == if ok then r.value else old(View())
    {
      var file: File := None;
      if disk.primary.Some? && readPrimary {
        file := disk.primary;
      } else if disk.backup.Some? && readBackup.Usable? {
        file := disk.backup;
      } else {
        return disk.primary.None? && (disk.backup.None? || readBackup.Unreadable?);
      }
      var outcome := RestoreSnapshot(nodes, file.value);
      if outcome.OrphanLimitExceeded? { return false; }
      nodes, orphans, updateId := outcome.nodes, outcome.orphans, outcome.updateId;
      return true;
    }
  }

  // ---- The methods are the protocol's steps

  function Draws(k: nat): seq<Step>
  {
    if k == 0 then [] else [DrawTicket] + Draws(k - 1)
  }

  lemma {:induction false} DrawsRun(s: State, k: nat, last: Step) returns (tickets: multiset<nat>)
    requires s.up && last.FinishIngest? && s.inFlight.Some?
    ensures Runs(s, Draws(k) + [last])
    ensures Exec(s, Draws(k) + [last])
         == Apply(s.(mem := s.mem.(updateId := s.mem.updateId + k), tickets := tickets), last)
    decreases k
  {
    if k == 0 {
      assert Draws(0) + [last] == [last];
      assert [last][1..] == [];
      tickets := s.tickets;
      assert s == s.(mem := s.mem.(updateId := s.mem.updateId + 0), tickets := s.tickets);
    } else {
      var next := Apply(s, DrawTicket);
      tickets := DrawsRun(next, k - 1, last);
      assert (Draws(k) + [last])[1..] == Draws(k - 1) + [last];
      assert next.(mem := next.mem.(updateId := next.mem.updateId + (k - 1)), tickets := tickets)
          == s.(mem := s.mem.(updateId := s.mem.updateId + k), tickets := tickets);
    }
  }

  /** A durable ingest as the method performs it is one run of protocol steps: begin, the tickets drawn meanwhile, finish. */
  lemma DurableIngestIsRun(s: State, begin: Step, k: nat, env: WriteEnv)
    requires Enabled(s, begin) && begin.BeginIngest?
    requires Prepare(s.mem, V2Request(begin.id, begin.collectedAt, begin.payload, begin.digest, begin.identityRejected),
                     begin.now, true, begin.pathsOpen).Committed?
    ensures var run := [begin] + (Draws(k) + [FinishIngest(env, begin.now)]);
            var p := Prepare(s.mem, V2Request(begin.id, begin.collectedAt, begin.payload, begin.digest, begin.identityRejected),
                             begin.now, true, begin.pathsOpen);
            var raced := p.mem.(updateId := p.mem.updateId + k);
            var (written, ok) := Write(s.disk, SnapshotOf(raced, begin.now), env);
            && Runs(s, run) && Exec(s, run).disk == written
            && Exec(s, run).mem == (if ok then raced else RolledBack(raced, begin.id, p.before, p.generation, true))
            && (ok <==> Exec(s, run).acks != s.acks)
  {
    var last := FinishIngest(env, begin.now);
    var mid := Apply(s, begin);
    var tickets := DrawsRun(mid, k, last);
    assert ([begin] + (Draws(k) + [last]))[1..] == Draws(k) + [last];
  }
}
