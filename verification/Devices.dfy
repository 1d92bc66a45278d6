/** Device records, ingestion ownership and the mutation-free update decision. */
module Devices {
  import opened Text

  type DeviceId = string
  type Digest = string

  /** Nanoseconds; 0 is the zero time, which the server reads as "never". */
  type Time = nat

  const MAX_CLOCK_SKEW: nat := 300_000_000_000

  datatype Protocol = NoProtocol | LegacySingleDevice | DeviceV2

  datatype Mode = LegacyMode | DeviceV2Mode | CutoverMode

  datatype Ownership = Ownership(mode: Mode, active: Option<Protocol>, cutoverNotAfter: Option<Time>)

  predicate OwnershipAllows(o: Ownership, protocol: Protocol, now: Time)
  {
    && o.active == Some(protocol)
    && match o.mode
       case LegacyMode => protocol.LegacySingleDevice? && o.cutoverNotAfter.None?
       case DeviceV2Mode => protocol.DeviceV2? && o.cutoverNotAfter.None?
       case CutoverMode => !protocol.NoProtocol? && o.cutoverNotAfter.Some? && o.cutoverNotAfter.value > now
  }

  datatype RegistryDevice = RegistryDevice(id: DeviceId, enabled: bool, ownership: Ownership)

  /** The registry's devices in the order a snapshot lists them. */
  type Registry = seq<RegistryDevice>

  predicate DistinctIds(registry: Registry)
  {
    forall i, j :: 0 <= i < j < |registry| ==> registry[i].id != registry[j].id
  }

  /** All telemetry of a report. A restart reads it back only if what is persisted of it passes the checks then. */
  datatype Payload = Payload(content: string, restorable: bool)

  /** The part of a node that the protocol reads. */
  datatype Node = Node(
    enabled: bool, ownership: Ownership,
    connected: bool, connectionId: nat,
    payload: Option<Payload>,
    lastSeen: Time, collectedAt: Time, generation: nat, digest: Option<Digest>,
    protocol: Protocol, restored: bool)

  function FreshNode(device: RegistryDevice): Node
  {
    Node(device.enabled, device.ownership, false, 0, None, 0, 0, 0, None, NoProtocol, false)
  }

  /** A device entry of the state file. */
  datatype Persisted = Persisted(
    deviceId: DeviceId, generation: nat, lastSeen: Option<Time>, collectedAt: Option<Time>,
    protocol: Protocol, digest: Option<Digest>, payload: Option<Payload>)

  predicate Restorable(payload: Option<Payload>) { payload.Some? ==> payload.value.restorable }

  /** The strict decoders and checks of a restart accept the entry. */
  predicate Decodes(p: Persisted) { Restorable(p.payload) }

  function TimePointer(t: Time): Option<Time>
  {
    if t == 0 then None else Some(t)
  }

  function Or<T>(o: Option<T>, otherwise: T): T
  {
    if o.Some? then o.value else otherwise
  }

  function PersistedFromNode(id: DeviceId, node: Node): Persisted
  {
    Persisted(id, node.generation, TimePointer(node.lastSeen), TimePointer(node.collectedAt),
              node.protocol, node.digest, node.payload)
  }

  /** Works on a copy: an entry that does not decode leaves the node as it was. */
  function RestoreDevice(node: Node, p: Persisted): Option<Node>
  {
    if !Decodes(p) then None
    else Some(node.(lastSeen := Or(p.lastSeen, node.lastSeen),
                    collectedAt := Or(p.collectedAt, node.collectedAt),
                    generation := p.generation,
                    protocol := p.protocol,
                    restored := true, connected := false,
                    payload := if p.payload.Some? then p.payload else node.payload,
                    digest := if p.digest.Some? then p.digest else node.digest))
  }

  /** What replay classification compares: the last accepted report of a node. */
  datatype Boundary = Boundary(collectedAt: Time, digest: Option<Digest>, generation: nat, lastSeen: Time)

  function NodeBoundary(n: Node): Boundary { Boundary(n.collectedAt, n.digest, n.generation, n.lastSeen) }

  function RecordBoundary(p: Persisted): Boundary
  {
    Boundary(Or(p.collectedAt, 0), p.digest, p.generation, Or(p.lastSeen, 0))
  }

  datatype Error =
    | ClockSkew | Undecodable | NotRegistered | DeviceDisabled | InactiveOwner
    | StaleReport | ReportConflict | IdempotentReplay | IdentityRejected
    | StaleGeneration | InactiveConnection | PersistenceFailed

  /** One update as an adapter hands it over; payload None means the decoder refused it. */
  datatype Request = Request(
    deviceId: DeviceId, protocol: Protocol, collectedAt: Time, payload: Option<Payload>,
    generation: nat, assignGeneration: bool, connectionId: nat,
    digest: Option<Digest>, identityRejected: bool)

  /** The request the device_v2 HTTP adapter builds. */
  function V2Request(id: DeviceId, collectedAt: Time, payload: Option<Payload>, digest: Digest,
                     identityRejected: bool): Request
  {
    Request(id, DeviceV2, collectedAt, payload, 0, true, 0, Some(digest), identityRejected)
  }

  /** The request the legacy agent paths build around a ticket drawn earlier. */
  function LegacyRequest(id: DeviceId, collectedAt: Time, payload: Option<Payload>, ticket: nat,
                         connectionId: nat): Request
  {
    Request(id, LegacySingleDevice, collectedAt, payload, ticket, false, connectionId, None, false)
  }

  predicate WithinSkew(collectedAt: Time, now: Time)
  {
    collectedAt != 0 && now <= collectedAt + MAX_CLOCK_SKEW && collectedAt <= now + MAX_CLOCK_SKEW
  }

  /** None authorizes the commit; multiDevice says that a registry is loaded. */
  function Decide(node: Option<Node>, multiDevice: bool, failClosed: bool, req: Request, now: Time): Option<Error>
  {
    if node.None? then Some(NotRegistered)
    else var n := node.value;
    if !n.enabled then Some(DeviceDisabled)
    else if failClosed then Some(InactiveOwner)
    else if multiDevice && !OwnershipAllows(n.ownership, req.protocol, now) then Some(InactiveOwner)
    else if !multiDevice && !req.protocol.LegacySingleDevice? then Some(InactiveOwner)
    else if req.protocol.DeviceV2? && n.collectedAt != 0 && req.collectedAt < n.collectedAt then Some(StaleReport)
    else if req.protocol.DeviceV2? && n.collectedAt != 0 && req.collectedAt == n.collectedAt then
      if req.digest.Some? && req.digest == n.digest then Some(IdempotentReplay) else Some(ReportConflict)
    else if req.identityRejected then Some(IdentityRejected)
    else if !req.assignGeneration && (req.generation == 0 || req.generation <= n.generation) then Some(StaleGeneration)
    else if req.connectionId != 0 && (!n.connected || n.connectionId != req.connectionId) then Some(InactiveConnection)
    else None
  }

  /** Who may report: any owner under a registry, the legacy agents without one, and nobody once ownership has failed. */
  predicate OwnerMay(node: Node, multiDevice: bool, failClosed: bool, protocol: Protocol, now: Time)
  {
    match (failClosed, multiDevice)
    case (true, _) => false
    case (false, true) => OwnershipAllows(node.ownership, protocol, now)
    case (false, false) => protocol == LegacySingleDevice
  }

  /** An update is authorized exactly if it meets every condition, in each of the server's modes. */
  lemma AuthorizedExactly(node: Option<Node>, multiDevice: bool, failClosed: bool, req: Request, now: Time)
    ensures Decide(node, multiDevice, failClosed, req, now) == None <==>
            && node.Some? && node.value.enabled && OwnerMay(node.value, multiDevice, failClosed, req.protocol, now)
            && (req.protocol == DeviceV2 ==> node.value.collectedAt == 0 || node.value.collectedAt < req.collectedAt)
            && !req.identityRejected && (req.assignGeneration || node.value.generation < req.generation)
            && (req.connectionId > 0 ==> node.value.connected && req.connectionId == node.value.connectionId)
    ensures Decide(node, multiDevice, failClosed, req, now) == Some(InactiveOwner) <==>
            node.Some? && node.value.enabled && !OwnerMay(node.value, multiDevice, failClosed, req.protocol, now)
  {
  }

  /** The node after an authorized update. */
  function Accepted(node: Node, req: Request, generation: nat, now: Time): Node
  {
    node.(payload := req.payload, lastSeen := now, collectedAt := req.collectedAt, generation := generation,
          digest := if req.digest.Some? then req.digest else node.digest,
          protocol := req.protocol, restored := false)
  }

  /** Reading a written node back into the freshly built node of the same device works exactly if its payload is restorable. */
  lemma RestoreUndoesPersist(id: DeviceId, node: Node, device: RegistryDevice)
    ensures var back := RestoreDevice(FreshNode(device), PersistedFromNode(id, node));
            && (back.Some? <==> Restorable(node.payload))
            && (back.Some? ==>
                 && NodeBoundary(back.value) == NodeBoundary(node) && back.value.payload == node.payload
                 && back.value.protocol == node.protocol && back.value.restored && !back.value.connected
                 && back.value.enabled == device.enabled && back.value.ownership == device.ownership)
    ensures var p := PersistedFromNode(id, node);
            p.deviceId == id && (p.lastSeen == None <==> node.lastSeen == 0) && (p.collectedAt == None <==> node.collectedAt == 0)
  {
  }

  /** What is read over a node that already stands somewhere: absent fields leave the node's own. */
  lemma RestoreKeepsAbsent(node: Node, p: Persisted)
    ensures RestoreDevice(node, p).Some? <==> Restorable(p.payload)
    ensures Restorable(p.payload) ==>
              var n := RestoreDevice(node, p).value;
              && n.generation == p.generation && n.protocol == p.protocol && n.restored && !n.connected
              && n.enabled == node.enabled && n.ownership == node.ownership && n.connectionId == node.connectionId
              && (if p.lastSeen.Some? then Some(n.lastSeen) == p.lastSeen else n.lastSeen == node.lastSeen)
              && (if p.collectedAt.Some? then Some(n.collectedAt) == p.collectedAt else n.collectedAt == node.collectedAt)
              && (if p.digest.Some? then n.digest == p.digest else n.digest == node.digest)
              && (if p.payload.Some? then n.payload == p.payload else n.payload == node.payload)
  {
  }

  /** The clock window is five minutes to either side, in nanoseconds, and a time is needed. */
  lemma SkewExactly(collectedAt: Time, now: Time)
    ensures WithinSkew(collectedAt, now) <==>
            collectedAt > 0 && -300_000_000_000 <= collectedAt as int - now as int <= 300_000_000_000
  {
  }

  /** No protocol but the active one, in its own mode, or in a cutover until the cutover's end. */
  lemma OwnershipExactly(o: Ownership, protocol: Protocol, now: Time)
    ensures OwnershipAllows(o, protocol, now) ==>
              o.active == Some(protocol) && protocol in {LegacySingleDevice, DeviceV2} && (o.cutoverNotAfter.Some? <==> o.mode == CutoverMode)
    ensures o.mode == CutoverMode ==>
              (OwnershipAllows(o, protocol, now) <==>
                 o.active == Some(protocol) && protocol != NoProtocol && exists end :: o.cutoverNotAfter == Some(end) && now < end)
    ensures o.mode == LegacyMode && o.cutoverNotAfter == None ==> (OwnershipAllows(o, protocol, now) <==> o.active == Some(protocol) && protocol == LegacySingleDevice)
    ensures o.mode == DeviceV2Mode && o.cutoverNotAfter == None ==> (OwnershipAllows(o, protocol, now) <==> o.active == Some(protocol) && protocol == DeviceV2)
  {
    if o.cutoverNotAfter.Some? { assert o.cutoverNotAfter == Some(o.cutoverNotAfter.value); }
  }
}
