/** One server process: the update commit, the durable snapshot, reload and restart, as functions on memory. */
module Commit {
  import opened Text
  import opened Devices
  import opened Orphans
  import opened StateFiles

  datatype Memory = Memory(registry: Registry, nodes: map<DeviceId, Node>, updateId: nat, orphans: seq<Orphan>)

  function RegisteredIds(registry: Registry): set<DeviceId>
  {
    set device | device in registry :: device.id
  }

  // ---- The commit step

  datatype Prepared = Refused(mem: Memory, error: Error) | Committed(mem: Memory, before: Node, generation: nat)

  function Lookup(nodes: map<DeviceId, Node>, id: DeviceId): Option<Node>
  {
    if id in nodes then Some(nodes[id]) else None
  }

  /** From the clock check to the in-memory commit; `durable` says that the answer waits for the disk. */
  function Prepare(mem: Memory, request: Request, now: Time, durable: bool, pathsOpen: bool): Prepared
  {
    var req := if request.collectedAt == 0 then request.(collectedAt := now) else request;
    if !WithinSkew(req.collectedAt, now) then Refused(mem, ClockSkew)
    else if req.payload.None? then Refused(mem, Undecodable)
    else
      var node := Lookup(mem.nodes, req.deviceId);
      var refusal := Decide(node, true, false, req, now);
      if refusal.Some? then Refused(mem, refusal.value)
      else if durable && !pathsOpen then Refused(mem, PersistenceFailed)
      else
        var drawn := if req.assignGeneration then mem.(updateId := mem.updateId + 1) else mem;
        var generation := if req.assignGeneration then drawn.updateId else req.generation;
        if generation == 0 || generation <= node.value.generation then Refused(drawn, StaleGeneration)
        else Committed(drawn.(nodes := mem.nodes[req.deviceId := Accepted(node.value, req, generation, now)]),
                       node.value, generation)
  }

  /** Undo of a commit whose write failed: the node comes back, an assigned ticket only if nobody drew after it. */
  function RolledBack(mem: Memory, id: DeviceId, before: Node, generation: nat, ownTicket: bool): Memory
  {
    mem.(nodes := mem.nodes[id := before],
         updateId := if ownTicket && mem.updateId == generation && generation > 0 then generation - 1 else mem.updateId)
  }

  // ---- Snapshots

  function Listed(registry: Registry, nodes: map<DeviceId, Node>): seq<Persisted>
  {
    if registry == [] then []
    else
      var last := registry[|registry| - 1];
      Listed(registry[..|registry| - 1], nodes)
      + if last.id in nodes then [PersistedFromNode(last.id, nodes[last.id])] else []
  }

  function SnapshotOf(mem: Memory, now: Time): Snapshot
  {
    Snapshot(now, Listed(mem.registry, mem.nodes), mem.orphans)
  }

  // ---- Reload and restart

  function CopyRuntime(device: RegistryDevice, previous: Node, disconnect: bool): Node
  {
    FreshNode(device).(payload := previous.payload, lastSeen := previous.lastSeen, collectedAt := previous.collectedAt,
                       generation := previous.generation, digest := previous.digest, protocol := previous.protocol,
                       restored := previous.restored,
                       connected := !disconnect && previous.connected,
                       connectionId := if disconnect then 0 else previous.connectionId)
  }

  function RebuiltNode(device: RegistryDevice, previous: map<DeviceId, Node>, disconnect: bool): Node
  {
    if device.id in previous then CopyRuntime(device, previous[device.id], disconnect) else FreshNode(device)
  }

  function Rebuilt(registry: Registry, previous: map<DeviceId, Node>, disconnect: bool): map<DeviceId, Node>
  {
    if registry == [] then map[]
    else
      var last := registry[|registry| - 1];
      Rebuilt(registry[..|registry| - 1], previous, disconnect)
      [last.id := RebuiltNode(last, previous, disconnect)]
  }

  /** None when the state file cannot be used or the orphan limit is exceeded: the process does not start. */
  function Restarted(registry: Registry, disk: Disk, readPrimary: bool, readBackup: Access): Option<Memory>
  {
    var blank := Rebuilt(registry, map[], false);
    var file := ReadBack(disk, readPrimary, readBackup);
    if file.None? then None
    else if file.value.None? then Some(Memory(registry, blank, 0, []))
    else match Restored(blank, file.value.value)
      case OrphanLimitExceeded => None
      case RestoredState(nodes, orphans, updateId) => Some(Memory(registry, nodes, updateId, orphans))
  }

  // ---- Shape lemmas

  /** A reload keeps what a device's node stands at, and its connection unless clients are disconnected; a new device starts with nothing. */
  lemma RebuiltNodeExactly(device: RegistryDevice, previous: map<DeviceId, Node>, disconnect: bool)
    ensures var n := RebuiltNode(device, previous, disconnect);
            && n.enabled == device.enabled && n.ownership == device.ownership
            && (device.id in previous ==>
                 && NodeBoundary(n) == NodeBoundary(previous[device.id]) && n.payload == previous[device.id].payload
                 && n.protocol == previous[device.id].protocol && n.restored == previous[device.id].restored
                 && (disconnect ==> !n.connected && n.connectionId == 0)
                 && (!disconnect ==> n.connected == previous[device.id].connected && n.connectionId == previous[device.id].connectionId))
            && (device.id !in previous ==>
                 && NodeBoundary(n) == Boundary(0, None, 0, 0) && n.payload == None && n.protocol == NoProtocol
                 && !n.restored && !n.connected && n.connectionId == 0)
  {
  }

  /** Every registered device has one node that carries the registry's switch and ownership. */
  ghost predicate Configured(mem: Memory)
  {
    && DistinctIds(mem.registry)
    && mem.nodes.Keys == RegisteredIds(mem.registry)
    && forall device :: device in mem.registry ==>
         device.id in mem.nodes && mem.nodes[device.id].enabled == device.enabled
         && mem.nodes[device.id].ownership == device.ownership
  }

  lemma RegisteredSplit(registry: Registry)
    requires registry != [] && DistinctIds(registry)
    ensures var front, last := registry[..|registry| - 1], registry[|registry| - 1];
            && DistinctIds(front) && last.id !in RegisteredIds(front)
            && RegisteredIds(registry) == RegisteredIds(front) + {last.id}
  {
    var front, last := registry[..|registry| - 1], registry[|registry| - 1];
    assert registry == front + [last];
  }

  lemma {:induction false} RebuiltShape(registry: Registry, previous: map<DeviceId, Node>, disconnect: bool)
    requires DistinctIds(registry)
    ensures var nodes := Rebuilt(registry, previous, disconnect);
            && nodes.Keys == RegisteredIds(registry)
            && forall device :: device in registry ==>
                 device.id in nodes && nodes[device.id] == RebuiltNode(device, previous, disconnect)
  {
    if registry != [] {
      var front, last := registry[..|registry| - 1], registry[|registry| - 1];
      RegisteredSplit(registry);
      RebuiltShape(front, previous, disconnect);
      var nodes := Rebuilt(registry, previous, disconnect);
      forall device | device in registry
        ensures device.id in nodes && nodes[device.id] == RebuiltNode(device, previous, disconnect)
      {
        assert device in front || device == last;
        assert device in front ==> device.id in RegisteredIds(front);
      }
    }
  }

  /** The entry of a registered device, if a restart can read it. */
  function EntryOf(nodes: map<DeviceId, Node>, d: DeviceId): seq<Persisted>
  {
    if d in nodes && Restorable(nodes[d].payload) then [PersistedFromNode(d, nodes[d])] else []
  }

  lemma {:induction false} ListedEntries(registry: Registry, nodes: map<DeviceId, Node>, d: DeviceId)
    requires DistinctIds(registry)
    ensures Entries(Listed(registry, nodes), d) == if d in RegisteredIds(registry) then EntryOf(nodes, d) else []
  {
    if registry != [] {
      var front, last := registry[..|registry| - 1], registry[|registry| - 1];
      RegisteredSplit(registry);
      ListedEntries(front, nodes, d);
      var listed := Listed(front, nodes);
      if last.id in nodes {
        assert (listed + [PersistedFromNode(last.id, nodes[last.id])])[..|listed|] == listed;
      } else {
        assert Listed(registry, nodes) == listed;
      }
    }
  }

  lemma {:induction false} ListedMembers(registry: Registry, nodes: map<DeviceId, Node>)
    requires DistinctIds(registry)
    ensures DistinctDevices(Listed(registry, nodes))
    ensures forall p :: p in Listed(registry, nodes) ==>
              p.deviceId in nodes && p.deviceId in RegisteredIds(registry) && p == PersistedFromNode(p.deviceId, nodes[p.deviceId])
  {
    if registry != [] {
      var front, last := registry[..|registry| - 1], registry[|registry| - 1];
      assert registry == front + [last];
      ListedMembers(front, nodes);
      var out := Listed(registry, nodes);
      forall i, j | 0 <= i < j < |out| ensures out[i].deviceId != out[j].deviceId {
        assert out[i] in Listed(front, nodes);
      }
    }
  }

  /** A snapshot has each registered device's entry once, and each reclaimable orphan as it is. */
  lemma SnapshotRecords(mem: Memory, now: Time, d: DeviceId)
    requires Configured(mem)
    ensures DistinctDevices(SnapshotOf(mem, now).devices)
    ensures Records(SnapshotOf(mem, now), d)
         == EntryOf(mem.nodes, d) + About(mem.orphans, d)
  {
    ListedEntries(mem.registry, mem.nodes, d);
    ListedMembers(mem.registry, mem.nodes);
  }

  /** A start on an empty disk has fresh nodes; otherwise the nodes, orphans and counter come from one file. */
  lemma RestartedShape(registry: Registry, disk: Disk, readPrimary: bool, readBackup: Access)
    requires DistinctIds(registry)
    requires Restarted(registry, disk, readPrimary, readBackup).Some?
    requires ReadBack(disk, readPrimary, readBackup).value.Some? ==>
               DistinctDevices(ReadBack(disk, readPrimary, readBackup).value.value.devices)
    ensures var mem := Restarted(registry, disk, readPrimary, readBackup).value;
            Configured(mem) && forall d :: d in mem.nodes ==> mem.nodes[d].generation <= mem.updateId
  {
    var blank := Rebuilt(registry, map[], false);
    RebuiltShape(registry, map[], false);
    var file := ReadBack(disk, readPrimary, readBackup).value;
    if file.Some? {
      RestoreIsExplained(blank, file.value);
    }
  }
}
