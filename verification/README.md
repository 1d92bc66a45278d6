# HardwareStatus: a verified model of the update protocol and its neighbours

HardwareStatus has a Go server that collects reports from devices and Python clients that send them.
This project models the parts whose correctness depends on more than one function, and proves what
they keep over every run.

**The device-update protocol** (`Devices`, `Orphans`, `StateFiles`, `Commit`, `Protocol`, `Tracking`,
`Admission`, `Durability`, `Replay`, `Custody`, `Restarts`, `Answers`, `Reports`, `Server`). An ingest
classifies a report against the device's replay boundary, draws a ticket, changes the node, writes the state file and its backup, and
only then answers; if the write fails it undoes node and ticket. Legacy connections draw tickets outside the
node lock, a stats loop writes concurrently, a reload rebuilds every node, and a restart matches the
file with the registry and keeps the rest as orphans. `Protocol` is the transition system; `Server`
holds the class whose methods change the fields step by step, each tied to the functions the
transitions use. A disk is what is visible plus, for each file, every content a power loss may leave:
a rename is visible at once and settles when the directory has been synced. A kill in the middle of a
write is a failing write followed by a stop or a power loss. A payload carries whether a restart's strict
decoders accept what is persisted of it; `Reports` says what a report's EasyTier document has to do with it.
The server answers with success in two cases: after a commit was written, and when a report repeats the one
its node stands at. `acks` records the first; `Answers` is about both.

**Around it**: the bounded rate limiter and its hint's way to the client (`RateLimiter`), ownership of
monitor workers by generation (`Monitors`), the block-device graph, its aliases and its search (`BlockGraph`), the
cache of SMART transports (`SmartCache`), chunked decoding by section 7.1 of RFC 9112 (`Chunked`, with
`Walks` for loops that may run in circles), the EasyTier aggregates and the round trip of their count
metadata (`EasyTierCollector`, `EasyTierTraffic`, `EasyTierCounts`), collection diagnostics against the degraded flag
(`Diagnostics`, `DiagnosticEntries`), version precedence by section 11 of Semantic Versioning 2.0.0 (`Versions`), and the
model catalog (`Catalog`). `Text` and `Sequences` hold what they share.

Times are integers. Digests are compared and never computed. `OwnershipAllows` is modelled as
`server/contracts/contracts.go:469` defines it. `dafny verify dfyconfig.toml` checks the whole project.

## What turned out to be conditional

Each of these has a lemma with an input or a run that shows it, beside the exact condition.

- A report whose commit was acknowledged is durable and accepted once, when what is persisted of it can be
  read back. A traffic total sent under a key in another letter case is decoded but not marked, passes the
  count check, is acknowledged, and is refused by the next start: the device starts afresh and the same
  report is committed again (`Reports.FoldedReportIsForgotten`). An acknowledgement survives a start that
  reads the state file exactly when the recorded payload is restorable
  (`Durability.AckSurvivesExactlyIfRestorable`), and a payload whose other domains can be read back is
  restorable exactly when it keeps no unmarked nonzero total of a traffic list (`Reports.RestorableExactly`).
- A report answered with success because it repeats the one the node stands at need not be durable: nothing
  is written for it, and what a restart found may be a write that failed after its rename, which a power loss
  can still take back (`Answers.RepeatedReportIsLost`). Such an answer is durable exactly when every content
  the state file may have at that moment holds the report (`Answers.RepeatIsDurableExactly`). They do for an
  acknowledged report and for any state file whose directory is settled (`Answers.SettledRepeatIsOnDisk`),
  and always when no write of the device's failed after its rename (`Answers.CalmAnswersAreDurable`).
- Falling back to the backup loses the last acknowledged report. For any start, an acknowledgement survives
  exactly when the file that was read holds it (`Durability.AckSurvivesStart`).
- Resending the last acknowledged report is not always idempotent after a restart: a write that fails
  after its rename leaves a refused report on disk. The answer is idempotent exactly when the node still
  stands at the report (`Replay.ResendIsNeverAccepted`).
- The chunk decoder never ends on a body that starts with the size `-6`: the pass leads back to the start
  and the list of pieces grows (`Chunked.MinusSixNeverEnds`). On every body it ends exactly when it ends
  within one pass more than the body has bytes (`Chunked.TerminatesExactly`), and always when no size line
  it reads has a minus sign.
- A retry hint rounded up to one second can be refused when the same key calls before it has passed;
  `RateLimiter.HintExactly` says exactly when. The client's wait reaches the hint exactly up to 300 seconds.
- A rate limiter whose entries live shorter than the window would forget refusals, and eviction changes no
  answer exactly when they live at least as long (`RateLimiter.TransparentExactly`). The server's limiters
  keep entries ten times as long as their window.
- `1.0.0-01.5` and `1.0.0-1.6` are not ordered either way: the comparison stops at two different
  spellings of one number.
- A disk that is neither healthy nor unsupported and carries no error degrades a device without a
  degraded entry. A degraded entry is stored exactly when some part of the report explains one
  (`Diagnostics.DegradedEntryIff`), and without such a disk every degraded device shows one.
- Path counts whose 64-bit sum wraps around pass the server's check. Given that check, they add up exactly
  when their sum is below 2^63 (`EasyTierCounts.PathsAddUp`).
- An alias with surrounding white space is accepted by the catalog and reachable by no lookup.
- A peer with the single tunnel `udp6` counts as unclassified, so it leaves the network's IPv6 verdict
  unknown: the transport name must be the first tunnel and a name ending in 6 must follow.

## Model

| member | source | states |
|---|---|---|
| Devices.RestoreUndoesPersist | server/device_persistence.go:99-188 | reading a persisted node back succeeds if and only if its payload is restorable, and then gives back collection time, digest, generation, last contact, payload and protocol |
| Devices.OwnershipExactly | server/contracts/contracts.go:469-474 | only the active protocol is ever allowed: in its own mode, or in a cutover until the cutover's end |
| Devices.AuthorizedExactly | server/device_ingestion.go:199-285 | with and without a registry and after ownership has failed, an update is authorized exactly if it meets every condition, and is refused for its owner exactly if the node is there and enabled and that protocol may not report |
| Devices.SkewExactly | server/device_ingestion.go:283-290 | a collection time is accepted up to five minutes to either side of now |
| Devices.RestoreKeepsAbsent | server/device_persistence.go:355-420 | fields that an entry does not have leave the node's own |
| Text.PrintParses | server/device_persistence.go:688-692 | decimal and hexadecimal printing and parsing are inverse; no leading zero is printed |
| Text.PrintInjective | server/device_persistence.go:688-692 | two numbers with one numeral are equal |
| Text.StripExactly | clients/unifi_model_catalog.py:326-330 | stripping cuts the white space off both ends and nothing else |
| Orphans.UniqueIdIsFresh | server/device_persistence.go:680-694 | the suffix search returns an unused identifier, the first unused suffix, within the number of used identifiers plus one |
| Orphans.UniqueOrphanID | server/device_persistence.go:680-694 | the open-ended loop terminates and returns that identifier |
| Orphans.DeduplicateOrphans | server/device_persistence.go:696-710 | the loop with its set of seen identifiers computes the specified deduplication |
| Orphans.DeduplicatedIsStrict | server/device_persistence.go:696-710 | as many orphans come out as went in, strictly increasing by identifier, hence pairwise distinct and sorted |
| Orphans.RenameRepeatsDistinct | server/device_persistence.go:696-705 | renaming changes identifiers only, and leaves no two equal |
| Orphans.RestoreSnapshot | server/device_persistence.go:271-330 | the restore loops compute the specified outcome, which Orphans.RestoredExactly characterizes; past the orphan limit nothing is handed over, so no node has changed |
| Orphans.RestoredExactly | server/device_persistence.go:285-328 | a restore is refused if and only if more than 64 entries are left over: entries of unregistered devices or that do not decode, and orphans that no registered device takes back; those are its orphans |
| Orphans.LeftEntryIsKept | server/device_persistence.go:287-300 | an unregistered device's entry is kept whole under a fresh identifier; one that does not decode is kept as its device and the snapshot's time |
| Orphans.RestoreConserves | server/device_persistence.go:271-328 | with distinct device IDs, restored nodes plus orphans equal persisted devices plus stored orphans |
| Orphans.RestoreIsExplained | server/device_persistence.go:271-328 | every node keeps its state or is exactly what one entry of the snapshot restores, with a generation within the new counter |
| Orphans.RestoreFindsRegistered | server/device_persistence.go:285-328 | a registered device with one known entry, filed as a device or as an orphan, gets exactly that entry back and leaves no orphan |
| Orphans.RestoreKeepsUnregistered | server/device_persistence.go:271-310 | an unregistered device's entry survives the restore in the orphan list |
| Orphans.RestoreOrphansKnown | server/device_persistence.go:271-328 | no entry is invented: every orphaned entry was in the snapshot |
| StateFiles.WriteSettles | server/device_persistence.go:23-61 | a write adds only its own snapshot to what a power loss may leave; an acknowledged write leaves exactly one possible content, the snapshot's, also when the unchanged primary was not rewritten |
| StateFiles.WriteExactly | server/device_persistence.go:23-61 | when a write succeeds, what is visible then, and what a power loss may leave, for every outcome of its steps |
| Commit.SnapshotRecords | server/device_persistence.go:72-97 | a snapshot holds one entry for each registered device, taken from its node, besides the orphans' entries |
| Commit.RebuiltShape | server/device_runtime.go:91-141 | rebuilding gives each registered device one node, with the registry's ownership and the previous node's replay boundary |
| Commit.RebuiltNodeExactly | server/device_runtime.go:91-141 | a reload keeps what a device's node stands at, and its connection unless clients are disconnected; a new device starts with nothing |
| Commit.RestartedShape | server/device_persistence.go:248-330 | after a restart every node carries the registry's ownership and a generation within the counter |
| Protocol.StepKeepsShape | server/device_ingestion.go:102-187 | every step keeps the state well formed: nodes match the registry, files hold distinct devices |
| Protocol.AssignedTicketIsNeverStale | server/device_ingestion.go:134-141 | when the counter is ahead of every node, the check after the draw never refuses an assigned ticket, and the ticket exceeds every node's generation |
| Protocol.FinishKeepsTickets | server/device_ingestion.go:176-179 | undoing a ticket by compare-and-swap never lets a later draw repeat an outstanding or accepted number |
| Protocol.TicketProtocol | server/device_ingestion.go:507-519 | in every reachable state outstanding tickets are pairwise distinct and within the counter, and so is every node's generation |
| Admission.CommittedExactly | server/device_ingestion.go:194-281 | a device_v2 report is committed if and only if it is readable, in the clock window, of an accepted identity, from a device that the registry has enabled and lets report by device_v2, newer than the node, and the state file is writable; otherwise the step changes nothing, and a commit makes exactly this node |
| Admission.RefusalHasItsReason | server/device_ingestion.go:194-281 | each refusal names the first condition, in the order checked, that the report does not meet |
| Admission.AcksAreAdmitted | server/device_ingestion.go:102-187 | over every run, each acknowledged report was sent by a step that met every condition, under the registry of the last start before it |
| Admission.AdmissibleIsAcknowledged | server/device_ingestion.go:102-187 | in every reachable state a report that meets every condition is committed, acknowledged when its write succeeds, and undone without a trace in memory when it fails |
| Admission.RefusedChangesNoNode | server/device_ingestion.go:254-281 | in every reachable state a rejected identity, a disabled or wrongly owned device, or another connection than the node's leaves all nodes as they were |
| Admission.LegacyCommittedExactly | server/device_ingestion.go:194-281 | a legacy report is committed if and only if the registry lets it, its ticket exceeds the node's generation and its connection is the node's; its ticket is spent in any case |
| Admission.TicketIsNew | server/device_ingestion.go:501-519 | a drawn ticket exceeds every number in use, and drawing changes nothing else |
| Admission.PersistWritesWhatItTook | server/app.go:459-473 | a stats persist writes the snapshot that it took and changes nothing in memory |
| Tracking.StartRecords | server/device_persistence.go:248-330 | after a restart the node and the orphan list hold exactly what the file that was read knew about a device |
| Durability.RunKeepsDurable | server/device_ingestion.go:102-187 | the durability invariant of a device holds along every run that reads its state file at starts, registers the device under device_v2 or leaves it out, and commits restorable payloads of it |
| Durability.RunKeepsAck | server/device_ingestion.go:102-187 | in every such run a report that is on every content of the state file and in memory stays so, whichever answer named it |
| Durability.AcknowledgedIsDurable | server/app.go:459-473 | in every such run every content the state file may have holds each report whose commit was acknowledged, or a later one, and so does the node of a running process or, while the device is not registered, the orphan list |
| Durability.AcknowledgedOnce | server/device_ingestion.go:228-252 | in every such run the collection times of the device's acknowledged commits strictly increase, over reloads, failed writes, power losses, restarts, removal and return |
| Durability.AckSurvivesStart | server/device_persistence.go:530-549 | for any start of a registered device, an unreadable or missing file included, an acknowledgement survives if and only if what was read holds it |
| Durability.AckSurvivesExactlyIfRestorable | server/device_persistence.go:287-300 | at a start that reads the state file, the acknowledged report it records survives if and only if the recorded payload is restorable; otherwise the device starts with no boundary at all |
| Reports.RestorableExactly | server/device_persistence.go:479-487 | a report's payload is restorable if and only if its other domains are and what is kept of its EasyTier document has no unmarked nonzero total of a traffic list; exactly spelled keys leave none |
| Reports.ExactReportsAreDurable | server/device_http_adapter.go:179-191 | for a device whose reports spell their EasyTier keys exactly and whose other domains can be read back, every report answered with success is durable when its repeats are answered while it is on every content of the state file |
| Reports.FoldedReportIsForgotten | server/device_persistence.go:297-300 | a run in which a complete report with one total under a key in another letter case is acknowledged, forgotten by a start that reads its file, and committed again |
| Replay.ResendIsNeverAccepted | server/device_ingestion.go:228-252 | under the conditions of durability, resending any acknowledged report never commits and changes nothing; the answer is idempotent if and only if the node still stands at it, and stale otherwise |
| Replay.NothingUpToAnAckIsAccepted | server/device_ingestion.go:228-252 | under the same conditions no report dated at or before an acknowledged one is committed, whatever it carries; it is a conflict if and only if the node stands at its time with another digest |
| Replay.LastReportIsIdempotent | server/device_ingestion.go:228-252 | under the same conditions, resending the last acknowledged report is answered as idempotent in every run where no write of the device's failed after its rename |
| Replay.LaterReportIsNotStale | server/device_ingestion.go:283-290 | in every reachable state a report dated past the last contact plus five minutes is not refused as stale or conflicting |
| Answers.AcksAreSuccesses | server/device_http_adapter.go:179-191 | every acknowledged commit is among the run's answers with success, and none is forgotten |
| Answers.AnsweredIsDurable | server/device_http_adapter.go:179-191 | under the conditions of durability, every report answered with success, after its commit or as a repeat, is held by every content of the state file and by the running node ever after, if each repeat was answered while its report was on every content |
| Answers.RepeatIsDurableExactly | server/device_http_adapter.go:179-191 | a repeat answered with success in any reachable state survives every further run if and only if every content the state file may have at that moment holds its report |
| Answers.UnsecuredRepeatIsLost | server/device_persistence.go:599-653 | otherwise there is a power loss after which a start from what is left of the state file does not come up at the report |
| Answers.RunKeepsVisible | server/device_ingestion.go:170-182 | along every run the visible state file, if there is one, holds what the node stands at, failed writes and their rollback included |
| Answers.SettledRepeatIsOnDisk | server/device_persistence.go:599-653 | when the directory is settled, a repeat's report is on every content if and only if there is a state file; an acknowledged report always is |
| Answers.CalmAnswersAreDurable | server/device_http_adapter.go:179-191 | in every run where no write of the device's failed after its rename, each answer with success names an acknowledged report, which every content of the state file holds |
| Answers.RepeatedReportIsLost | server/device_http_adapter.go:179-191 | a run of readable starts and restorable reports in which a report answered with success as a repeat is gone after a power loss and is committed as a new one |
| Custody.RunKeepsCustody | server/device_persistence.go:662-678 | while a device stays unregistered, any number of restarts keeps its entry in every content of the state file |
| Custody.PersistBringsRest | server/app.go:459-473 | a successful stats persist brings every device with a restorable payload to rest: its entry is on every content the state file may have |
| Custody.AckBringsRest | server/device_ingestion.go:170-187 | so does the acknowledgement of its own report |
| Custody.RunKeepsRest | server/device_ingestion.go:102-187 | a device stays at rest through any steps of the process, other devices' failed and acknowledged writes included, until a report of it is committed or the process stops |
| Custody.LeavingGivesCustody | server/app.go:459-473 | however long the process runs on after the device came to rest, and whatever stops it, leaves the node's entry in that custody |
| Custody.ReturnRestoresBoundary | server/device_persistence.go:285-328 | a device that returns has the collection time, digest, generation and last contact it left with, and the counter is at least its generation |
| Custody.UnsyncedRenameMakesResendStale | server/device_persistence.go:599-653 | a run in which a write failed after its rename and the restart makes the last acknowledged report stale |
| Custody.UnreadablePrimaryLosesAck | server/device_persistence.go:530-549 | a run in which an unreadable primary and the fallback to the backup lose an acknowledged report |
| Custody.UnrestorableReportIsForgotten | server/device_persistence.go:297-300 | for every payload that a restart refuses there is a run in which its report is acknowledged, forgotten by a start that reads the state file, and committed again |
| Restarts.RestartedExactly | server/device_persistence.go:248-330 | a start comes up if and only if it has a file, or none is there, and at most 64 entries are left over |
| Restarts.ReadBackExactly | server/device_persistence.go:530-558 | the readable primary is read, else the usable backup; nothing at all counts as a first start, and an unreadable primary or a damaged backup alone does not start |
| Restarts.StartComesUpExactly | server/device_persistence.go:248-330 | the same for the step from every well-formed state; one that does not come up changes nothing |
| Restarts.UnchangedRegistryComesUp | server/device_persistence.go:285-328 | in every reachable state a start from a file all of whose entries have a registered device that can read them comes up |
| Restarts.AcknowledgedIsBack | server/device_persistence.go:285-328 | in every sound run a start from the state file that leaves at most 64 entries over comes up with each acknowledged report, in its node or its orphan list |
| Restarts.ReturnComesUp | server/device_persistence.go:285-328 | a device in custody is back with its boundary after every start that registers it and leaves at most 64 entries over |
| Server.App.constructor | server/device_runtime.go:91-141 | a new process has one fresh node for each registered device |
| Server.App.RebuildNodes | server/device_runtime.go:91-141 | the loop builds the specified table of nodes |
| Server.App.ApplyValidatedConfig | server/app.go:250-269 | a reload replaces the nodes and nothing else of the state |
| Server.App.TakeSnapshot | server/device_persistence.go:72-97 | the loop over the sorted registry builds the specified snapshot |
| Server.App.ReplaceFile | server/device_persistence.go:599-653 | one atomic replacement: unchanged on early failure, changed but unsettled when the directory sync fails |
| Server.App.WritePersistenceV2 | server/device_persistence.go:23-61 | backup first, then the primary unless its content is unchanged, and the success it reports |
| Server.App.IngestDeviceUpdateAt | server/device_ingestion.go:86-187 | the whole new state and answer of an ingest, by the decision that the rows of Admission characterize: refusal, commit, write, rollback of the node and of an unraced ticket |
| Server.App.PersistOrUndo | server/device_ingestion.go:170-182 | the durable part: either the snapshot with the commit is written, or node and ticket are undone |
| Server.App.PersistStats | server/app.go:459-473 | a persist writes a snapshot of the current state and changes nothing in memory |
| Server.App.RestorePersistenceV2 | server/device_persistence.go:248-330 | a start reads the primary or the backup and installs nodes, orphans and counter, starts empty when the primary is missing and the backup gives nothing, or fails and changes nothing, exactly as Restarts.RestartedExactly says |
| Server.DurableIngestIsRun | server/device_ingestion.go:86-187 | a durable ingest as the method performs it is one run of protocol steps, with legacy tickets drawn in between |
| RateLimiter.BoundedRateLimiter.CleanupLocked | server/device_rate_limit.go:76-82 | the loop deletes exactly the entries not seen for the time to live; what that is for the table over all calls is RateLimiter.OnlyRecentKeysStay |
| RateLimiter.BoundedRateLimiter.Allow | server/device_rate_limit.go:40-74 | the new table and the answer of one call |
| RateLimiter.TableWithinCapacity | server/device_rate_limit.go:40-74 | no sequence of calls grows the table past its capacity |
| RateLimiter.EvictionIsTransparent | server/device_rate_limit.go:40-82 | with a time to live of at least the window, every call sequence that never meets a full table is answered, hints included, as by an unbounded limiter that never evicts |
| RateLimiter.ShortTtlForgets | server/device_rate_limit.go:76-82 | for every configuration with a shorter time to live, a call sequence that never meets a full table is answered differently from the unbounded limiter |
| RateLimiter.TransparentExactly | server/device_rate_limit.go:40-82 | eviction changes no answer of any call sequence that never meets a full table if and only if entries live at least as long as the window |
| RateLimiter.OnlyRecentKeysStay | server/device_rate_limit.go:76-82 | after any calls the table holds only the last caller and keys whose last call came less than the time to live before |
| RateLimiter.FullByOthers | server/device_rate_limit.go:48-56 | a call meets a full table only when at least as many other keys as fit called less than the time to live before |
| RateLimiter.NewcomerIsAdmitted | server/device_rate_limit.go:48-74 | a key that did not call within the time to live is admitted whenever fewer keys than fit did |
| RateLimiter.TwiceTheLimit | server/device_rate_limit.go:40-82 | any half-open interval one window long admits at most twice the limit for a key |
| RateLimiter.HintIsUsable | server/device_rate_limit.go:62-72 | after a count-based refusal, when the key's own calls in between came before its window ended, its next call at or after the hinted time and within the entry's life is admitted, whatever other keys do |
| RateLimiter.HintExactly | server/device_rate_limit.go:62-72 | for windows of any length, whatever the key's own calls did meanwhile, the call at or after the hinted time is admitted if and only if they opened no new window, or the last window they opened is over, or their calls in it have not used up the limit |
| RateLimiter.CountsLastWindow | server/device_rate_limit.go:40-74 | after any calls the key's bucket counts its own calls in the last window that they opened, up to the limit, or was evicted after that window |
| RateLimiter.SteadyFits | server/device_rate_limit.go:48-56 | a key whose calls come less than the time to live apart never meets a full table, as the exact statement asks |
| RateLimiter.ReachedTables | server/device_rate_limit.go:40-82 | the tables that calls in order of time reach have counts within the limit and no entry seen after the last call, as the two statements about hints assume |
| RateLimiter.HintIsRestOfWindow | server/device_rate_limit.go:62-72 | the hint reaches the end of the window and is exactly its rest unless rounded up to a second |
| RateLimiter.RoundedHintCanBeRefused | server/device_rate_limit.go:62-72 | a run that meets none of the three: a hint rounded up to a second, refused after the key's own calls used up the next window |
| RateLimiter.RetryAfterSeconds | server/device_http_adapter.go:485-493 | the header is the hint rounded up to whole seconds, at least 1 and at most 300 |
| RateLimiter.HintSurvivesTheWire | clients/device_client_transport.py:287-301 | the client reads the header back, and waits at least the hint if and only if that is at most 300 seconds, and less than a second longer |
| RateLimiter.ObedientClientIsAdmitted | clients/device_client_transport.py:369-378 | for every window up to 300 seconds, shorter than a second included, a key's only client that waits as told is admitted |
| Monitors.MonitorTable.InstallMonitorDefinitions | clients/device_client_transport.py:417-460 | the loop over the listed definitions, repeats included, gives the specified table and workers |
| Monitors.MonitorTable.WorkerPass | clients/client-linux.py:362-423 | the body of a worker's loop makes exactly the state of its check, store and wake steps, whose store takes effect by Monitors.OwnersStoreTakesEffect, and goes on if and only if it owned its name |
| Monitors.InstalledTable | clients/device_client_transport.py:417-460 | the installed table has exactly the listed names, each with its last listed definition, and the previous entry where the definition did not change |
| Monitors.RunKeepsValid | clients/client-linux.py:362-440 | every entry is served by one live worker of its generation with its definition, along every run |
| Monitors.NotOwnerIsReplaced | clients/client-linux.py:426-441 | a worker that does not own its name owns nothing, also one superseded within the install that started it |
| Monitors.ExactlyOneOwner | clients/client-linux.py:362-440 | under any interleaving each name is served by a running worker with the same host, type and interval, a stored latency was measured against that definition, and every other worker ever started under the name owns nothing |
| Monitors.ReplacedForGood | clients/client-linux.py:426-441 | a replaced worker owns nothing again, its writes change nothing, and its next ownership check stops it for good |
| Monitors.EveryOtherWorkerStops | clients/client-linux.py:426-441 | in any run, from the first moment a worker does not own its name, nothing it stores changes the table and its next ownership check stops it for good |
| Monitors.InstallRetires | clients/device_client_transport.py:417-460 | changing or dropping a definition replaces its worker |
| Monitors.InstallStartsAnew | clients/device_client_transport.py:417-460 | an install starts workers under generations never used before and leaves every earlier worker as it was |
| Monitors.OwnersStoreTakesEffect | clients/client-linux.py:434-440 | in every valid state a store by the owner sets exactly its entry's reading, to the latency measured against the entry's definition |
| Monitors.EntryReadsLastStore | clients/client-linux.py:434-440 | over every run an entry shows the latency that its owner stored last, and the initial value if and only if its owner has stored none |
| Monitors.GenerationsAreConsecutive | clients/device_client_transport.py:417-460 | over every run the generations given out are 1, 2, 3 and so on, one worker each |
| Monitors.StepsExactly | clients/client-linux.py:362-423 | what a worker can do in each phase; only http, https and tcp are probed and stored |
| BlockGraph.AppendBlockNode | clients/host_collector.py:1383-1403 | the recursive insertion adds the specified nodes and aliases, which BlockGraph.NodeIsAsListed and BlockGraph.AliasLeadsToItsDevice characterize |
| BlockGraph.AppendedWithinCap | clients/host_collector.py:1383-1384 | insertion of a whole subtree never passes the node cap |
| BlockGraph.NameOfPath | clients/host_collector.py:1376-1380 | a path in any directory is read as the name it ends with |
| BlockGraph.BlockNameExactly | clients/host_collector.py:1376-1380 | a text is read as a name exactly if it is that name or ends in it behind a slash |
| BlockGraph.KeyExactly | clients/host_collector.py:1386 | the kernel name names a block whenever it is not empty or missing, and the plain name does otherwise |
| BlockGraph.AliasExactly | clients/host_collector.py:1399-1401 | a block's aliases are its name, kernel name and path and its key under /dev |
| BlockGraph.StartExactly | clients/host_collector.py:1461-1462 | a search begins at what an alias names, and at the text's last part when it is no alias |
| BlockGraph.AliasLeadsToItsDevice | clients/host_collector.py:1399-1401 | in the topology of every listing an alias leads to a node under a name some block offers it for; below the node cap every offered alias is there, and one that belongs to a single device leads to it |
| BlockGraph.NodeIsAsListed | clients/host_collector.py:1386-1398 | for every listing below the node cap the usable names are the nodes, each of the type listed last, under the parent it named last or else under the other block it first stood under |
| BlockGraph.BuiltNode | clients/host_collector.py:1418-1436 | a built node leads on to the names in its slave directory or, without any, to that parent |
| BlockGraph.PartitionResolvesToItsDisk | clients/host_collector.py:1457-1484 | end to end: a device that is no disk, has no slaves and is listed under a disk resolves to exactly that disk, by every name or path that belongs to it alone |
| BlockGraph.BuildBlockDeviceGraph | clients/host_collector.py:1406-1438 | the nodes and aliases are those of the listing, within the node cap, and each node's slaves are the names in its directory, sorted and each once |
| BlockGraph.Search | clients/host_collector.py:1465-1483 | the stack loop terminates on every graph, cyclic ones included, and keeps the search invariant |
| BlockGraph.SearchIsComplete | clients/host_collector.py:1465-1483 | when simple chains fit the depth cap, every reachable disk has been found |
| BlockGraph.ResolveBackingPhysicalDisks | clients/host_collector.py:1457-1484 | from the node that the device's alias or its own last part names, only disks reachable through non-disk nodes are returned, sorted without repeats, and all of them when chains fit the depth cap: the node cap never cuts the search |
| SmartCache.Collector.QualifySmartTransport | clients/host_collector.py:1273-1306 | the new cache and the result of one qualification: the cached probe, the first usable candidate's, or the last failed one that tells something |
| SmartCache.CacheIsExplained | clients/host_collector.py:1273-1306 | over any run each cached transport was qualified by a usable probe, and a stored streak is below two and has its failure, with nothing usable since |
| SmartCache.UsableIsTrusted | clients/host_collector.py:1085-1094 | from the commands' output: a probe is usable if and only if a health that passed or failed is left, and unavailable if and only if there was no output at all |
| SmartCache.EvictionNeedsTwoFailures | clients/host_collector.py:1273-1306 | over any run, an eviction has an earlier availability failure with no usable probe since, and any probe that is no availability failure keeps the transport |
| SmartCache.ObservationNeverEvicts | clients/host_collector.py:1285-1290 | a failed health or an invalid value, in whatever output it came, never evicts a transport, and a failed health clears its streak |
| SmartCache.SecondFailureEvicts | clients/host_collector.py:1273-1306 | the second availability failure evicts: the path is qualified anew by its first usable candidate, or leaves the cache if and only if none is usable |
| SmartCache.CollectedExactly | clients/host_collector.py:1096-1190 | what a probe reports for every output: which verdicts are kept, their completeness, and which error comes first |
| SmartCache.UsableExactly | clients/host_collector.py:1244-1258 | the two patterns of usable probes, by what speaks against a probe |
| SmartCache.CandidatesInOrder | clients/host_collector.py:1235-1241 | sat and ata first, scsi last, the hint between, none twice |
| SmartCache.QualifiesFirstUsable | clients/host_collector.py:1291-1306 | a path that is not cached is cached if and only if a candidate is usable, under the first such one |
| Chunked.FindCrlf | clients/host_collector.py:2033-2035 | the first line break at or after any integer position, or none |
| Chunked.ReadChunk | clients/host_collector.py:2033-2041 | one pass for every size Python's integer reader accepts, negative ones included: the slice it appends and the position it leaves |
| Chunked.SizeIsSpelled | clients/host_collector.py:2036 | whatever is read as a size is spelled as white space, sign, prefix, digits in groups and white space, and is the number of those digits |
| Chunked.SpelledIsSize | clients/host_collector.py:2036 | every such spelling is read, as its number |
| Chunked.TerminatesExactly | clients/host_collector.py:2032-2041 | on every body the loop ends if and only if it ends within one pass more than the body has bytes |
| Chunked.ForwardTerminates | clients/host_collector.py:2032-2041 | it ends on every body where no size line that it reads has a minus sign before its semicolon |
| Chunked.MinusSixNeverEnds | clients/host_collector.py:2036-2041 | it never ends on any body that starts with the size -6: the pass leads back to the start |
| Chunked.DecodesToOne | clients/host_collector.py:2032-2042 | a body on which the loop ends has one result, a text or the error |
| Walks.EndsExactly | clients/host_collector.py:2032-2041 | a loop over n positions that is still going after n + 1 passes runs in a cycle and never ends |
| Chunked.DecodeChunked | clients/host_collector.py:2029-2042 | on every body on which it ends, the loop returns the text or the error that its passes collect |
| Chunked.DecodeUndoesEncode | clients/host_collector.py:2029-2042 | any non-empty chunks, with any data, extensions, trailer and any spelling of the sizes that Python reads, end the loop and decode to exactly their concatenation |
| Chunked.PlainRoundTrip | clients/host_collector.py:2029-2042 | the same for sizes printed in hexadecimal |
| Chunked.TruncatedIsRefused | clients/host_collector.py:2033-2035 | a body cut anywhere before its last size line is complete is refused, never taken for a shorter one |
| EasyTierCollector.ApplyPeers | clients/easytier_collector.py:602-681 | totals, path counts and the three-valued IPv6 verdict equal their definitions by filters and quantifiers over all remote peers; at most 16 rows are shown |
| EasyTierCollector.ReadTunnels | clients/easytier_collector.py:621-627 | the loop collects the accepted tunnel names without repeats |
| EasyTierCollector.SummaryAddsUp | clients/easytier_collector.py:656-662 | direct, relay and unknown add up to the total |
| EasyTierCollector.AggregatesIgnoreOrder | clients/easytier_collector.py:602-681 | permuting the observed peers changes nothing but the shown rows |
| EasyTierCollector.ClassifiedNeedsTwoTunnels | clients/easytier_collector.py:621-629 | a classified peer names its transport first and an IPv6 tunnel after it, so one tunnel alone leaves the network's verdict unknown |
| EasyTierCollector.PathExactly | clients/easytier_collector.py:611-620 | a direct path costs p2p in any letter case, a relayed one mentions a relay, and a local peer or the node itself is not remote |
| EasyTierCollector.TransportExactly | clients/easytier_collector.py:189-194 | a text names a transport if and only if, stripped and in lower case, the transport's name is all of it or is followed by a colon or two slashes |
| EasyTierCollector.TunnelsExactly | clients/easytier_collector.py:621-627 | the tunnels are the pieces that are names of up to 16 lower-case letters and digits |
| EasyTierCollector.TunnelsInOrder | clients/easytier_collector.py:625-627 | no tunnel comes twice, and the tunnels of the first pieces come first |
| EasyTierCollector.SplitExactly | clients/easytier_collector.py:624 | splitting at commas is undone by joining and leaves no comma |
| EasyTierCollector.RowExactly | clients/easytier_collector.py:628-640 | a row's transport and family by its tunnels, and when a peer counts as classified and as direct IPv6 UDP |
| EasyTierCollector.RouteRowExactly | clients/easytier_collector.py:687-700 | a route's path and whether it is the node's own |
| EasyTierCollector.ConnectorRowExactly | clients/easytier_collector.py:722-745 | a connector's transport by its scheme; it is active if and only if its status is 0 |
| EasyTierCollector.ApplyRoutes | clients/easytier_collector.py:684-716 | count metadata and the first 16 rows of the routes |
| EasyTierCollector.ApplyConnectors | clients/easytier_collector.py:718-748 | count metadata, the first 16 rows, and the two TCP flags as existence over all connectors |
| EasyTierTraffic.MetricSamples | clients/easytier_collector.py:361-393 | more than 256 items are refused, otherwise the loop keeps the distinct samples |
| EasyTierTraffic.DistinctIsFirsts | clients/easytier_collector.py:361-393 | the first sample of every identity is kept and no identity repeats |
| EasyTierTraffic.GroupByPair | clients/easytier_collector.py:772-783 | the dictionary loop makes one row for each instance pair, with the last value of each counter |
| EasyTierTraffic.PairsAreObserved | clients/easytier_collector.py:772-783 | the pairs are distinct, exactly those of the counted samples, and in the order they first appear |
| EasyTierTraffic.ValuesExactly | clients/easytier_collector.py:772-783 | a pair's counter has the value of the last sample that reports it, and none if and only if no sample does |
| EasyTierTraffic.ApplyStats | clients/easytier_collector.py:750-787 | totals and shown rows of both traffic lists |
| EasyTierTraffic.Collect | clients/easytier_collector.py:551-554 | whatever the five commands return, the payload's totals, path counts and all shown rows are the specified ones and its count metadata is exact |
| EasyTierTraffic.SentIsAcceptedForGood | server/easytier_validation.go:248-262 | a payload with exact counts has every required field, passes the server's check, arrives unchanged, and passes again unchanged after a restart |
| EasyTierCounts.PathsAddUp | server/easytier_validation.go:73-75 | in stats that pass the check, the path counts add up to the total if and only if their sum stays below 2^63 |
| EasyTierCounts.CountsCheckExactly | server/easytier_validation.go:73-75 | which counts pass the check: paths that add up in 64 bits, totals up to 100000, and for each list no metadata or exact metadata within its limit |
| EasyTierCounts.ReadExactly | server/easytier_validation.go:18-60 | the decoder keeps the last value that says something, in whatever letter case its key is |
| EasyTierCounts.RequiredExactly | server/easytier_validation.go:471-510 | the count and traffic fields without which a document is refused |
| EasyTierCounts.RefusedExactly | server/easytier_validation.go:18-60 | a document is refused by the decoder if and only if some entry is unknown, of another part, or of another type |
| EasyTierCounts.MetadataExactly | server/easytier_validation.go:223-247 | which exactly spelled keys set a list's presence bit |
| EasyTierCounts.WrappedPathsPass | server/easytier_validation.go:73-75 | path counts whose sum wraps pass the check without adding up |
| EasyTierCounts.MarshalPersisted | server/device_persistence.go:193-238 | the loop over the table of counts rewrites the sections as specified |
| EasyTierCounts.PersistThenRestore | server/device_persistence.go:479-487 | for all stats, persisting and restoring gives back totals, displayed counts, flags, rows and path counts; the presence bit afterwards is the one before or any nonzero metadata |
| EasyTierCounts.VerdictAfterRestart | server/easytier_validation.go:248-262 | the check's verdict after a restart is the one before, except exactly on an unmarked nonzero total of a traffic list |
| EasyTierCounts.DecodedSurvivesRestart | server/device_persistence.go:479-487 | what the decoder makes of any document with exactly spelled keys survives a restart unchanged, presence bits included |
| EasyTierCounts.AcceptedIsRereadable | server/device_persistence.go:479-487 | stats accepted from a document can be read back after a restart if and only if no traffic list has an unmarked nonzero total; exactly spelled keys are enough |
| EasyTierCounts.WireArrives | server/easytier_validation.go:223-247 | stats sent with every field meet the required fields and arrive as they were, all presence bits set |
| EasyTierCounts.FoldedTotalIsNotRestorable | server/easytier_validation.go:471-510 | a document with every required field and one more total under a key in another letter case is accepted and refused after a restart |
| Diagnostics.Append | server/collection_diagnostics.go:67-84 | an entry without domain or component, or with a seen key, is dropped; otherwise it is appended |
| Diagnostics.AddPhysicalDisk | server/collection_diagnostics.go:156-199 | the up to three entries of a disk, in order |
| Diagnostics.BuildCollectionDiagnostics | server/collection_diagnostics.go:251-348 | the whole walk over the report gathers the specified entries and truncates them |
| Diagnostics.AddAllIs | server/collection_diagnostics.go:67-84 | the gathered list has one entry for every key offered under a name, and nothing else |
| Diagnostics.TruncationConserves | server/collection_diagnostics.go:216-232 | at most 64 entries; shown and dropped together are the gathered ones; observed = displayed + dropped; no dropped entry is more severe than a shown one |
| Diagnostics.TruncationKeepsOrder | server/collection_diagnostics.go:216-232 | entries of one severity keep their order, and the shown ones are the first of it |
| Diagnostics.TruncationKeepsDegraded | server/collection_diagnostics.go:216-232 | truncation neither hides nor invents the degraded state |
| Diagnostics.BuiltHasNoRepeats | server/collection_diagnostics.go:216-232 | no key repeats in the stored list, the truncation marker included |
| Diagnostics.GatheredSize | server/extension_validation.go:456 | every report within the validators' bounds gathers at most MAX_GATHERED entries, fewer than 500 |
| Diagnostics.MarkerPassesExactly | server/collection_diagnostics.go:386-390 | a truncated list passes the persistence check of its counts if and only if at most 4096 entries were gathered |
| Diagnostics.MarkerAlwaysPasses | server/collection_diagnostics.go:386-390 | so the stored diagnostics of every report within the validators' bounds pass that check |
| Diagnostics.StorageHasOnlyFallback | server/device_ingestion.go:330-352 | the loops decide the quantified condition |
| Diagnostics.ExtensionHasBusinessError | server/device_ingestion.go:354-399 | the loops decide the quantified condition |
| Diagnostics.DegradedEntryIff | server/collection_diagnostics.go:251-348 | for every report the stored list has a degraded entry if and only if some part of the report explains one |
| Diagnostics.DegradedIsExplained | server/device_ingestion.go:151-169 | with no silent disk, a device marked degraded stores a degraded entry, even after truncation |
| Diagnostics.SilentDiskLeavesNoTrace | server/device_ingestion.go:354-399 | every silent disk whose health has not failed, alone in a report, marks the device degraded without any degraded entry |
| DiagnosticEntries.StatusExactly | server/collection_diagnostics.go:43-65 | the status of a part by its presence, staleness and error |
| DiagnosticEntries.DomainEntryExactly | server/collection_diagnostics.go:86-111 | every field of a domain's entry |
| DiagnosticEntries.DiskEntriesExactly | server/collection_diagnostics.go:156-199 | a disk offers exactly its error, a missing native status that the error does not name, and a failed health, with these fields |
| DiagnosticEntries.EndpointEntriesExactly | server/collection_diagnostics.go:320-337 | the one or two entries of an endpoint, always under a name |
| DiagnosticEntries.OfferedExactly | server/collection_diagnostics.go:251-348 | an entry is offered if and only if it is that of a part of the report or of a decode issue |
| DiagnosticEntries.WalkInOrder | server/collection_diagnostics.go:251-348 | the entries are offered domain by domain in a fixed order, the issues last and in theirs |
| DiagnosticEntries.SeverityExactly | server/collection_diagnostics.go:201-214 | degraded entries are shown first, then unavailable and stale ones, then partial ones; available ones come last |
| DiagnosticEntries.FlagExactly | server/device_ingestion.go:330-399 | a device is degraded if and only if there is a decode issue, a loud error of a part, a bad disk, or a storage error that is more than a fallback |
| Versions.CompareAtFirstDifference | clients/lucky_collector.py:377-388 | the pre-release comparison decides at the first differing identifier, else by length |
| Versions.AgreesExactly | clients/lucky_collector.py:391-397 | the source agrees with section 11 of Semantic Versioning 2.0.0 in both directions if and only if no tie of equal numbers comes first or the standard orders the two neither way |
| Versions.OlderIsTransitive | clients/lucky_collector.py:391-397 | being older is transitive on all parsed versions |
| Versions.OlderIsIrreflexive | clients/lucky_collector.py:391-397 | no version is older than itself |
| Versions.OlderIsTotalExactly | clients/lucky_collector.py:377-397 | two parsed versions are equal or ordered if and only if they do not tie |
| Versions.CanonicalTrichotomy | clients/lucky_collector.py:377-397 | without leading zeros exactly one of older, equal, newer holds, and older is the standard's precedence |
| Versions.LeadingZeroIsNotOrdered | clients/lucky_collector.py:377-388 | with a leading zero neither order is reported where the standard's rule orders the versions |
| Versions.WrittenIsRead | clients/lucky_collector.py:363-374 | a written version, with or without leading v and with any build metadata, is read back without them |
| Versions.SpelledIsRead | clients/lucky_collector.py:363-374 | every spelling is read, with leading zeros, build metadata, a leading v and white space around it |
| Versions.ReadIsSpelled | clients/lucky_collector.py:363-374 | and nothing else is read: an accepted text was spelled that way |
| Versions.CompareWritten | clients/lucky_collector.py:391-397 | build metadata and the leading v never change the answer |
| Catalog.RuntimeIdentifiers | clients/unifi_model_catalog.py:79-100 | the loop refuses exactly the models that repeat a verified alias, and returns their verified aliases |
| Catalog.Bundle | clients/unifi_model_catalog.py:247-276 | the two passes accept exactly the bundles with unique SKUs, one owner for each verified alias and no alias spelled like another model's SKU |
| Catalog.ResolveModel | clients/unifi_model_catalog.py:326-341 | the linear scan computes the specified lookup |
| Catalog.AliasLeadsToOwner | clients/unifi_model_catalog.py:326-341 | in an accepted bundle every verified alias leads to the model that owns it |
| Catalog.ResolvedOwns | clients/unifi_model_catalog.py:326-341 | a model found by alias owns that alias |
| Catalog.ResolvedExactly | clients/unifi_model_catalog.py:326-341 | a lookup in an accepted bundle finds a model if and only if it was asked for by its SKU, or by a verified alias of a known kind when no SKU answers; white space finds nothing |
| Catalog.OrderDoesNotMatter | clients/unifi_model_catalog.py:247-276 | a permutation of the models changes neither acceptance nor any lookup |
| Catalog.SkuAndAliasAgree | clients/unifi_model_catalog.py:326-341 | a lookup by SKU and one by alias that both succeed return the same model |
| Catalog.ReachableExactlyWhenStripped | clients/unifi_model_catalog.py:326-341 | a verified alias is reachable by some value if and only if it has no surrounding white space |

## Left out

- Durability.AcknowledgedIsDurable: stated for starts that read the primary file and register the device under device_v2 or leave it out; legacy updates write the collection time without a replay check, and the fallback to the backup is covered by the exact condition of Durability.AckSurvivesStart.
- Replay.LastReportIsIdempotent: excludes runs in which a write of the device's failed after its rename, because the property is false there; Replay.ResendIsNeverAccepted gives the exact condition.
- Custody.LeavingGivesCustody: speaks of the device's state as last written; a change made after the last successful write is in memory only.
- EasyTierCollector.AggregatesIgnoreOrder: for up to 256 observed peers; a longer list is refused before it is aggregated.
- BlockGraph.BuildBlockDeviceGraph: the `children` of an entry are a list, a type is the text after its white space was folded, and sizes, models and transports of nodes are left out.
- Orphans.UniqueOrphanID: the length limit of orphan identifiers is checked elsewhere and not part of this model.
- The mode without a registry, in which nodes are rebuilt from the legacy configuration, and traffic baselines.
- The TCP agent's connection handling; it appears as the steps that draw a ticket, connect, and commit later. Its collection times are not monotone.
- The ticket counter and generations are unbounded; the server's 64-bit wrap-around is not modelled there.
- Registry order: the registry is listed in the order in which the server sorts it.
- JSON text, file formats, HTTP, authentication, digests and the contents of payloads. A report's EasyTier counts are followed by `Reports`; whether a restart reads its other domains back is a flag and not derived from their contents.
- Rendering a corrupt entry's device as a digest: the model uses the identifier itself.
- Monitor probing and its timing: a probe's result is the parameter of the step that stores it. Workers without a generation, used by the older TCP mode, are not modelled.
- Chunked.DecodeChunked: bodies on which the source's loop does not end have no result; the header check and the JSON decoding after the loop are left out.
- RateLimiter.HintSurvivesTheWire: the header is plain decimal digits, and the ceiling is taken on integers, without the rounding to floating-point seconds.
- Versions.WrittenIsRead: digits and letters are ASCII.
- EasyTierCollector.ReadTunnels: letters are ASCII.
- EasyTier fields other than counts, rows and paths, the traffic rates, and row contents: rows are strings. Two spellings of one JSON key both carrying rows are taken as the last one.
- The text filter of diagnostics is a parameter; the joined key of an entry is a tuple, so a separator inside a field is not modelled. The list lengths that Diagnostics.GatheredSize assumes are those the report validators and the decoder enforce; the validators themselves are left out.
- Catalog checks of a single model's own fields other than repeated aliases are one flag; provenance and checksums of the catalog file.
- The field-by-field shape checks of client configuration and extension payloads, and the device runner's retry backoff: one branch settles each.
