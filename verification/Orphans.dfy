/** Restoring a state snapshot: matching entries to registered nodes and keeping the rest as orphans. */
module Orphans {
  import opened Text
  import opened Sequences
  import opened Devices

  const MAX_ORPHANED_DEVICES: nat := 64

  datatype Reason = UnmatchedV1 | AmbiguousV1 | RemovedDevice | UnknownV2 | CorruptEntry

  /** What an orphan keeps: a whole entry, a summary of one that did not decode, or foreign data. */
  datatype Kept = Record(record: Persisted) | Summary(reference: string, observedAt: Time) | Foreign(data: string)

  datatype Orphan = Orphan(orphanId: string, deviceId: Option<DeviceId>, reason: Reason, sourceVersion: nat, kept: Kept)

  datatype Snapshot = Snapshot(generatedAt: Time, devices: seq<Persisted>, orphans: seq<Orphan>)

  predicate DistinctDevices(devices: seq<Persisted>)
  {
    forall i, j :: 0 <= i < j < |devices| ==> devices[i].deviceId != devices[j].deviceId
  }

  function Ids(orphans: seq<Orphan>): set<string>
  {
    set o | o in orphans :: o.orphanId
  }

  // ---- Fresh orphan identifiers

  function Candidate(base: string, suffix: nat): string
  {
    base + "-" + Print(suffix, 10)
  }

  lemma CandidateInjective(base: string, i: nat, j: nat)
    requires Candidate(base, i) == Candidate(base, j)
    ensures i == j
  {
    assert Candidate(base, i)[|base| + 1..] == Print(i, 10);
    assert Candidate(base, j)[|base| + 1..] == Print(j, 10);
    PrintInjective(i, j, 10);
  }

  /** The used identifiers that no suffix below `suffix` produces. */
  ghost function Untried(base: string, used: set<string>, suffix: nat): set<string>
  {
    set u | u in used && forall k :: 2 <= k < suffix ==> u != Candidate(base, k)
  }

  lemma UntriedShrinks(base: string, used: set<string>, suffix: nat)
    requires 2 <= suffix && Candidate(base, suffix) in used
    ensures |Untried(base, used, suffix + 1)| + 1 == |Untried(base, used, suffix)|
  {
    var c := Candidate(base, suffix);
    forall k | 2 <= k < suffix ensures c != Candidate(base, k) {
      if c == Candidate(base, k) { CandidateInjective(base, suffix, k); }
    }
    assert Untried(base, used, suffix) == Untried(base, used, suffix + 1) + {c};
  }

  /** The first unused suffixed identifier, counting up from `suffix`. */
  function FirstFree(base: string, used: set<string>, suffix: nat): string
    requires 2 <= suffix
    decreases |Untried(base, used, suffix)|
  {
    var candidate := Candidate(base, suffix);
    if candidate in used then UntriedShrinks(base, used, suffix); FirstFree(base, used, suffix + 1)
    else candidate
  }

  function UniqueId(base: string, used: set<string>): string
  {
    if base !in used then base else FirstFree(base, used, 2)
  }

  lemma {:induction false} FirstFreeIsLeast(base: string, used: set<string>, suffix: nat) returns (k: nat)
    requires 2 <= suffix
    ensures suffix <= k <= suffix + |Untried(base, used, suffix)|
    ensures FirstFree(base, used, suffix) == Candidate(base, k) && Candidate(base, k) !in used
    ensures forall j :: suffix <= j < k ==> Candidate(base, j) in used
    decreases |Untried(base, used, suffix)|
  {
    if Candidate(base, suffix) in used {
      UntriedShrinks(base, used, suffix);
      k := FirstFreeIsLeast(base, used, suffix + 1);
    } else {
      k := suffix;
    }
  }

  /** The open-ended suffix search is right: the result is unused, minimal, and found within |used| + 1. */
  lemma UniqueIdIsFresh(base: string, used: set<string>)
    ensures UniqueId(base, used) !in used
    ensures UniqueId(base, used) != base ==>
              base in used && exists k :: 2 <= k <= |used| + 1 && UniqueId(base, used) == Candidate(base, k)
                                          && forall j :: 2 <= j < k ==> Candidate(base, j) in used
  {
    if base in used {
      var k := FirstFreeIsLeast(base, used, 2);
      var rest := Untried(base, used, 2);
      assert rest <= used;
      if k > |used| + 1 {
        // base itself is used and is no candidate, so a full round of suffixes cannot all be used
        var tried := Tried(base, used, k);
        assert base !in tried && tried <= used - {base};
        SubsetSize(tried, used - {base});
      }
    }
  }

  /** The candidates with suffixes 2 to k-1, all of them used. */
  lemma {:induction false} Tried(base: string, used: set<string>, k: nat) returns (tried: set<string>)
    requires 2 <= k && forall j :: 2 <= j < k ==> Candidate(base, j) in used
    ensures |tried| == k - 2 && tried <= used
    ensures forall t :: t in tried ==> exists j :: 2 <= j < k && t == Candidate(base, j)
    ensures base !in tried
  {
    tried := {};
    for i := 2 to k
      invariant |tried| == i - 2 && tried <= used && base !in tried
      invariant forall t :: t in tried ==> exists j :: 2 <= j < i && t == Candidate(base, j)
    {
      var c := Candidate(base, i);
      assert |c| > |base|;
      if c in tried {
        var j :| 2 <= j < i && c == Candidate(base, j);
        CandidateInjective(base, i, j);
      }
      tried := tried + {c};
    }
  }

  method UniqueOrphanID(base: string, existing: seq<Orphan>) returns (id: string)
    ensures id == UniqueId(base, Ids(existing))
  {
    var used: set<string> := {};
    for i := 0 to |existing|
      invariant used == Ids(existing[..i])
    {
      used := used + {existing[i].orphanId};
      assert existing[..i + 1] == existing[..i] + [existing[i]];
    }
    assert existing[..|existing|] == existing;
    if base !in used { return base; }
    var suffix := 2;
    while true
      invariant 2 <= suffix && FirstFree(base, used, suffix) == UniqueId(base, used)
      decreases |Untried(base, used, suffix)|
    {
      id := Candidate(base, suffix);
      if id !in used { return; }
      UntriedShrinks(base, used, suffix);
      suffix := suffix + 1;
    }
  }

  // ---- Deduplication

  predicate OrphanLe(a: Orphan, b: Orphan) { !Less(b.orphanId, a.orphanId) }

  lemma OrphanLeIsOrder()
    ensures TotalPreorder(OrphanLe)
  {
    forall a: Orphan, b: Orphan ensures OrphanLe(a, b) || OrphanLe(b, a) {
      if Less(a.orphanId, b.orphanId) && Less(b.orphanId, a.orphanId) {
        LessTransitive(a.orphanId, b.orphanId, a.orphanId);
        LessIrreflexive(a.orphanId);
      }
    }
    forall a: Orphan, b: Orphan, c: Orphan | OrphanLe(a, b) && OrphanLe(b, c) ensures OrphanLe(a, c) {
      if Less(c.orphanId, a.orphanId) {
        LessTotal(a.orphanId, b.orphanId);
        if a.orphanId != b.orphanId { LessTransitive(c.orphanId, a.orphanId, b.orphanId); }
      }
    }
  }

  function Renamed(o: Orphan, before: seq<Orphan>): Orphan
  {
    if o.orphanId in Ids(before) then o.(orphanId := UniqueId(o.orphanId, Ids(before))) else o
  }

  function RenameRepeats(input: seq<Orphan>): seq<Orphan>
  {
    if input == [] then []
    else
      var before := RenameRepeats(input[..|input| - 1]);
      before + [Renamed(input[|input| - 1], before)]
  }

  function Deduplicated(input: seq<Orphan>): seq<Orphan>
  {
    StableSort(RenameRepeats(input), OrphanLe)
  }

  function IdOf(o: Orphan): string { o.orphanId }

  lemma RenamedIsFresh(o: Orphan, before: seq<Orphan>)
    ensures var r := Renamed(o, before); r.orphanId !in Ids(before) && r == o.(orphanId := r.orphanId)
  {
    UniqueIdIsFresh(o.orphanId, Ids(before));
  }

  lemma DistinctSnoc(s: seq<Orphan>, o: Orphan)
    requires DistinctBy(s, IdOf) && o.orphanId !in Ids(s)
    ensures DistinctBy(s + [o], IdOf)
  {
    forall i | 0 <= i < |s| ensures IdOf(s[i]) != IdOf(o) { assert s[i] in s; }
  }

  lemma {:induction false} RenameRepeatsDistinct(input: seq<Orphan>)
    ensures var out := RenameRepeats(input);
            && |out| == |input| && DistinctBy(out, IdOf)
            && (forall i :: 0 <= i < |input| ==> out[i] == input[i].(orphanId := out[i].orphanId))
    decreases |input|
  {
    if input != [] {
      var before, last := RenameRepeats(input[..|input| - 1]), input[|input| - 1];
      RenameRepeatsDistinct(input[..|input| - 1]);
      RenamedIsFresh(last, before);
      DistinctSnoc(before, Renamed(last, before));
    }
  }

  /** Orphan identifiers come out strictly increasing, hence pairwise distinct; nothing else changes or is lost. */
  lemma DeduplicatedIsStrict(input: seq<Orphan>)
    ensures |Deduplicated(input)| == |input|
    ensures multiset(Deduplicated(input)) == multiset(RenameRepeats(input))
    ensures forall i, j :: 0 <= i < j < |input| ==>
              Less(Deduplicated(input)[i].orphanId, Deduplicated(input)[j].orphanId)
  {
    var renamed, out := RenameRepeats(input), Deduplicated(input);
    RenameRepeatsDistinct(input);
    SortMultiset(renamed, OrphanLe);
    OrphanLeIsOrder();
    SortSorted(renamed, OrphanLe);
    PermutationDistinct(renamed, out, IdOf);
    forall i, j | 0 <= i < j < |input| ensures Less(out[i].orphanId, out[j].orphanId) {
      assert IdOf(out[i]) != IdOf(out[j]);
      LessTotal(out[i].orphanId, out[j].orphanId);
      assert OrphanLe(out[i], out[j]);
    }
  }

  method DeduplicateOrphans(input: seq<Orphan>) returns (result: seq<Orphan>)
    ensures result == Deduplicated(input)
  {
    var seen: set<string> := {};
    result := [];
    for i := 0 to |input|
      invariant result == RenameRepeats(input[..i]) && seen == Ids(result)
    {
      var orphan := input[i];
      if orphan.orphanId in seen {
        var id := UniqueOrphanID(orphan.orphanId, result);
        orphan := orphan.(orphanId := id);
      }
      seen := seen + {orphan.orphanId};
      assert input[..i + 1][..i] == input[..i];
      assert Ids(result + [orphan]) == Ids(result) + {orphan.orphanId};
      result := result + [orphan];
    }
    assert input[..|input|] == input;
    result := StableSort(result, OrphanLe);
  }

  // ---- Restoring

  datatype Restoring = Restoring(nodes: map<DeviceId, Node>, restored: set<DeviceId>, orphans: seq<Orphan>, maxGeneration: nat)

  function Max(a: nat, b: nat): nat { if a > b then a else b }

  function OrphanFromPersisted(p: Persisted, existing: seq<Orphan>): Orphan
  {
    Orphan(UniqueId("v2-" + p.deviceId, Ids(existing)), Some(p.deviceId), UnknownV2, 2, Record(p))
  }

  function CorruptOrphan(p: Persisted, observedAt: Time, existing: seq<Orphan>): Orphan
  {
    Orphan(UniqueId("corrupt-" + p.deviceId, Ids(existing)), None, CorruptEntry, 2, Summary(p.deviceId, observedAt))
  }

  function TakeRecord(acc: Restoring, node: Node, p: Persisted): Restoring
  {
    Restoring(acc.nodes[p.deviceId := node], acc.restored + {p.deviceId}, acc.orphans, Max(acc.maxGeneration, p.generation))
  }

  function TakeDevice(acc: Restoring, p: Persisted, observedAt: Time): Restoring
  {
    if p.deviceId !in acc.nodes then
      acc.(orphans := acc.orphans + [OrphanFromPersisted(p, acc.orphans)])
    else
      var candidate := RestoreDevice(acc.nodes[p.deviceId], p);
      if candidate.None? then acc.(orphans := acc.orphans + [CorruptOrphan(p, observedAt, acc.orphans)])
      else TakeRecord(acc, candidate.value, p)
  }

  /** An orphan that a registered device may reclaim: a whole entry, filed under the entry's own device. */
  predicate IsAbout(o: Orphan, d: DeviceId)
  {
    o.deviceId == Some(d) && o.sourceVersion == 2 && o.kept.Record? && o.kept.record.deviceId == d && Decodes(o.kept.record)
  }

  function TakeOrphan(acc: Restoring, o: Orphan): Restoring
  {
    if o.deviceId.Some? && o.deviceId.value in acc.nodes && o.deviceId.value !in acc.restored
       && IsAbout(o, o.deviceId.value) then
      TakeRecord(acc, RestoreDevice(acc.nodes[o.deviceId.value], o.kept.record).value, o.kept.record)
    else acc.(orphans := acc.orphans + [o])
  }

  function TakeDevices(acc: Restoring, devices: seq<Persisted>, observedAt: Time): Restoring
  {
    if devices == [] then acc
    else TakeDevice(TakeDevices(acc, devices[..|devices| - 1], observedAt), devices[|devices| - 1], observedAt)
  }

  function TakeOrphans(acc: Restoring, orphans: seq<Orphan>): Restoring
  {
    if orphans == [] then acc
    else TakeOrphan(TakeOrphans(acc, orphans[..|orphans| - 1]), orphans[|orphans| - 1])
  }

  function Matched(nodes: map<DeviceId, Node>, snapshot: Snapshot): Restoring
  {
    TakeOrphans(TakeDevices(Restoring(nodes, {}, [], 0), snapshot.devices, snapshot.generatedAt), snapshot.orphans)
  }

  datatype Outcome = OrphanLimitExceeded | RestoredState(nodes: map<DeviceId, Node>, orphans: seq<Orphan>, updateId: nat)

  function Restored(nodes: map<DeviceId, Node>, snapshot: Snapshot): Outcome
  {
    var all := Matched(nodes, snapshot);
    var orphans := Deduplicated(all.orphans);
    if |orphans| > MAX_ORPHANED_DEVICES then OrphanLimitExceeded
    else RestoredState(all.nodes, orphans, all.maxGeneration)
  }

  method RestoreSnapshot(nodes: map<DeviceId, Node>, snapshot: Snapshot) returns (r: Outcome)
    ensures r == Restored(nodes, snapshot)
  {
    ghost var start := Restoring(nodes, {}, [], 0);
    var candidates, restored, orphans, maxGeneration := nodes, {}, [], 0;
    for i := 0 to |snapshot.devices|
      invariant Restoring(candidates, restored, orphans, maxGeneration)
             == TakeDevices(start, snapshot.devices[..i], snapshot.generatedAt)
    {
      var p := snapshot.devices[i];
      assert snapshot.devices[..i + 1][..i] == snapshot.devices[..i];
      if p.deviceId !in candidates {
        var id := UniqueOrphanID("v2-" + p.deviceId, orphans);
        orphans := orphans + [Orphan(id, Some(p.deviceId), UnknownV2, 2, Record(p))];
        continue;
      }
      var node := RestoreDevice(candidates[p.deviceId], p);
      if node.None? {
        var id := UniqueOrphanID("corrupt-" + p.deviceId, orphans);
        orphans := orphans + [Orphan(id, None, CorruptEntry, 2, Summary(p.deviceId, snapshot.generatedAt))];
        continue;
      }
      candidates := candidates[p.deviceId := node.value];
      restored := restored + {p.deviceId};
      if p.generation > maxGeneration { maxGeneration := p.generation; }
    }
    assert snapshot.devices[..|snapshot.devices|] == snapshot.devices;
    ghost var middle := Restoring(candidates, restored, orphans, maxGeneration);
    for i := 0 to |snapshot.orphans|
      invariant Restoring(candidates, restored, orphans, maxGeneration) == TakeOrphans(middle, snapshot.orphans[..i])
    {
      var o := snapshot.orphans[i];
      assert snapshot.orphans[..i + 1][..i] == snapshot.orphans[..i];
      if o.deviceId.Some? && o.deviceId.value in candidates && o.deviceId.value !in restored && IsAbout(o, o.deviceId.value) {
        var p := o.kept.record;
        candidates := candidates[p.deviceId := RestoreDevice(candidates[p.deviceId], p).value];
        restored := restored + {p.deviceId};
        if p.generation > maxGeneration { maxGeneration := p.generation; }
        continue;
      }
      orphans := orphans + [o];
    }
    assert snapshot.orphans[..|snapshot.orphans|] == snapshot.orphans;
    orphans := DeduplicateOrphans(orphans);
    if |orphans| > MAX_ORPHANED_DEVICES { return OrphanLimitExceeded; }
    return RestoredState(candidates, orphans, maxGeneration);
  }

  // ---- Conservation

  lemma {:induction false} DevicesConserved(acc: Restoring, devices: seq<Persisted>, at: Time)
    requires DistinctDevices(devices) && acc.restored == {}
    ensures var out := TakeDevices(acc, devices, at);
            && out.nodes.Keys == acc.nodes.Keys && out.restored <= out.nodes.Keys
            && (forall d :: d in out.restored ==> exists i :: 0 <= i < |devices| && devices[i].deviceId == d)
            && |out.restored| + |out.orphans| == |devices| + |acc.orphans|
  {
    if devices != [] {
      var front, p := devices[..|devices| - 1], devices[|devices| - 1];
      DevicesConserved(acc, front, at);
      var mid, out := TakeDevices(acc, front, at), TakeDevices(acc, devices, at);
      assert p.deviceId !in mid.restored;
      forall d | d in out.restored ensures exists i :: 0 <= i < |devices| && devices[i].deviceId == d {
        if d in mid.restored {
          var i :| 0 <= i < |front| && front[i].deviceId == d;
          assert devices[i].deviceId == d;
        } else {
          assert devices[|devices| - 1].deviceId == d;
        }
      }
    }
  }

  lemma {:induction false} OrphansConserved(acc: Restoring, orphans: seq<Orphan>)
    requires acc.restored <= acc.nodes.Keys
    ensures var out := TakeOrphans(acc, orphans);
            && out.nodes.Keys == acc.nodes.Keys && out.restored <= out.nodes.Keys
            && |out.restored| + |out.orphans| == |orphans| + |acc.restored| + |acc.orphans|
  {
    if orphans != [] { OrphansConserved(acc, orphans[..|orphans| - 1]); }
  }

  /** Every persisted device and stored orphan ends in exactly one restored node or one orphan. */
  lemma RestoreConserves(nodes: map<DeviceId, Node>, snapshot: Snapshot)
    requires DistinctDevices(snapshot.devices)
    ensures var all := Matched(nodes, snapshot);
            && |all.restored| + |Deduplicated(all.orphans)| == |snapshot.devices| + |snapshot.orphans|
            && all.restored <= nodes.Keys && all.nodes.Keys == nodes.Keys
  {
    var start := Restoring(nodes, {}, [], 0);
    DevicesConserved(start, snapshot.devices, snapshot.generatedAt);
    OrphansConserved(TakeDevices(start, snapshot.devices, snapshot.generatedAt), snapshot.orphans);
    DeduplicatedIsStrict(Matched(nodes, snapshot).orphans);
  }

  /** A node either keeps its state or is exactly what one entry of the snapshot restores, within the counter. */
  ghost predicate Explained(nodes: map<DeviceId, Node>, out: Restoring, records: set<Persisted>)
  {
    && out.nodes.Keys == nodes.Keys
    && forall d :: d in nodes ==>
         if d !in out.restored then out.nodes[d] == nodes[d]
         else exists p :: p in records && p.deviceId == d && Decodes(p) && p.generation <= out.maxGeneration
                          && RestoreDevice(nodes[d], p) == Some(out.nodes[d])
  }

  lemma ExplainedByRecord(nodes: map<DeviceId, Node>, acc: Restoring, records: set<Persisted>, p: Persisted)
    requires Explained(nodes, acc, records) && p.deviceId in nodes && p.deviceId !in acc.restored && Decodes(p)
    ensures Explained(nodes, TakeRecord(acc, RestoreDevice(acc.nodes[p.deviceId], p).value, p), records + {p})
  {
    var out := TakeRecord(acc, RestoreDevice(acc.nodes[p.deviceId], p).value, p);
    forall d | d in nodes && d in out.restored
      ensures exists q :: q in records + {p} && q.deviceId == d && Decodes(q) && q.generation <= out.maxGeneration
                          && RestoreDevice(nodes[d], q) == Some(out.nodes[d])
    {
      if d == p.deviceId {
        assert RestoreDevice(nodes[d], p) == Some(out.nodes[d]);
      } else {
        var q :| q in records && q.deviceId == d && Decodes(q) && q.generation <= acc.maxGeneration
                 && RestoreDevice(nodes[d], q) == Some(acc.nodes[d]);
        assert q in records + {p};
      }
    }
  }

  lemma ExplainedMonotone(nodes: map<DeviceId, Node>, out: Restoring, a: set<Persisted>, b: set<Persisted>)
    requires Explained(nodes, out, a) && a <= b
    ensures Explained(nodes, out, b)
  {
  }

  function DeviceRecords(devices: seq<Persisted>): set<Persisted> { set p | p in devices }

  function OrphanRecords(orphans: seq<Orphan>): set<Persisted>
  {
    set o | o in orphans && o.kept.Record? :: o.kept.record
  }

  lemma {:induction false} DevicesExplained(nodes: map<DeviceId, Node>, devices: seq<Persisted>, at: Time)
    requires DistinctDevices(devices)
    ensures Explained(nodes, TakeDevices(Restoring(nodes, {}, [], 0), devices, at), DeviceRecords(devices))
  {
    if devices != [] {
      var front, p := devices[..|devices| - 1], devices[|devices| - 1];
      var start := Restoring(nodes, {}, [], 0);
      DevicesExplained(nodes, front, at);
      DevicesConserved(start, front, at);
      var mid := TakeDevices(start, front, at);
      assert DeviceRecords(devices) == DeviceRecords(front) + {p};
      assert p.deviceId !in mid.restored;
      if p.deviceId in nodes && Decodes(p) {
        ExplainedByRecord(nodes, mid, DeviceRecords(front), p);
      } else {
        assert Explained(nodes, TakeDevice(mid, p, at), DeviceRecords(front));
        ExplainedMonotone(nodes, TakeDevice(mid, p, at), DeviceRecords(front), DeviceRecords(devices));
      }
    }
  }

  lemma {:induction false} OrphansExplained(nodes: map<DeviceId, Node>, acc: Restoring, orphans: seq<Orphan>, records: set<Persisted>)
    requires Explained(nodes, acc, records)
    ensures Explained(nodes, TakeOrphans(acc, orphans), records + OrphanRecords(orphans))
  {
    if orphans == [] {
      assert records + OrphanRecords(orphans) == records;
    } else {
      var front, o := orphans[..|orphans| - 1], orphans[|orphans| - 1];
      OrphansExplained(nodes, acc, front, records);
      var mid := TakeOrphans(acc, front);
      var before, after := records + OrphanRecords(front), records + OrphanRecords(orphans);
      assert before <= after;
      assert o in orphans;
      if TakeOrphan(mid, o).restored == mid.restored && TakeOrphan(mid, o).nodes == mid.nodes {
        ExplainedMonotone(nodes, mid, before, after);
        ExplainedFrame(nodes, mid, TakeOrphan(mid, o), after);
      } else {
        ExplainedByRecord(nodes, mid, before, o.kept.record);
        ExplainedMonotone(nodes, TakeOrphan(mid, o), before + {o.kept.record}, after);
      }
    }
  }

  lemma ExplainedFrame(nodes: map<DeviceId, Node>, a: Restoring, b: Restoring, records: set<Persisted>)
    requires Explained(nodes, a, records) && a.nodes == b.nodes && a.restored == b.restored
    requires a.maxGeneration <= b.maxGeneration
    ensures Explained(nodes, b, records)
  {
  }

  /** Restoring invents nothing: each node is untouched or comes from one entry, and the counter covers it. */
  lemma RestoreIsExplained(nodes: map<DeviceId, Node>, snapshot: Snapshot)
    requires DistinctDevices(snapshot.devices)
    ensures Explained(nodes, Matched(nodes, snapshot), DeviceRecords(snapshot.devices) + OrphanRecords(snapshot.orphans))
  {
    DevicesExplained(nodes, snapshot.devices, snapshot.generatedAt);
    OrphansExplained(nodes, TakeDevices(Restoring(nodes, {}, [], 0), snapshot.devices, snapshot.generatedAt),
                     snapshot.orphans, DeviceRecords(snapshot.devices));
  }

  // ---- What happens to the entries about one device

  /** The restorable entries of a device among the persisted devices, in order. */
  predicate IsEntry(p: Persisted, d: DeviceId) { p.deviceId == d && Decodes(p) }

  function Entries(devices: seq<Persisted>, d: DeviceId): seq<Persisted>
  {
    if devices == [] then []
    else
      var last := devices[|devices| - 1];
      Entries(devices[..|devices| - 1], d) + if IsEntry(last, d) then [last] else []
  }

  function About(orphans: seq<Orphan>, d: DeviceId): seq<Persisted>
  {
    if orphans == [] then []
    else
      var last := orphans[|orphans| - 1];
      About(orphans[..|orphans| - 1], d) + if IsAbout(last, d) then [last.kept.record] else []
  }

  /** Everything a snapshot knows about a device, registered or not. */
  function Records(snapshot: Snapshot, d: DeviceId): seq<Persisted>
  {
    Entries(snapshot.devices, d) + About(snapshot.orphans, d)
  }

  lemma {:induction false} AboutAppend(a: seq<Orphan>, b: seq<Orphan>, d: DeviceId)
    ensures About(a + b, d) == About(a, d) + About(b, d)
  {
    if b == [] {
      assert a + b == a;
    } else {
      assert (a + b)[..|a + b| - 1] == a + b[..|b| - 1];
      AboutAppend(a, b[..|b| - 1], d);
    }
  }

  lemma AboutWithout(b: seq<Orphan>, i: nat, d: DeviceId)
    requires i < |b|
    ensures multiset(About(b, d)) == multiset(About(b[..i] + b[i + 1..], d)) + multiset(About([b[i]], d))
  {
    var before, it, after := b[..i], [b[i]], b[i + 1..];
    assert b == before + it + after;
    AboutThree(before, it, after, d);
  }

  lemma AboutThree(before: seq<Orphan>, it: seq<Orphan>, after: seq<Orphan>, d: DeviceId)
    ensures multiset(About(before + it + after, d)) == multiset(About(before + after, d)) + multiset(About(it, d))
  {
    AboutAppend(before + it, after, d);
    AboutAppend(before, it, d);
    AboutAppend(before, after, d);
  }

  lemma MultisetWithout(b: seq<Orphan>, i: nat)
    requires i < |b|
    ensures multiset(b[..i] + b[i + 1..]) == multiset(b) - multiset{b[i]}
  {
    assert b == b[..i] + [b[i]] + b[i + 1..];
  }

  lemma {:induction false} AboutPermutation(a: seq<Orphan>, b: seq<Orphan>, d: DeviceId)
    requires multiset(a) == multiset(b)
    ensures multiset(About(a, d)) == multiset(About(b, d))
  {
    assert |multiset(a)| == |multiset(b)|;
    if a != [] {
      var last := |a| - 1;
      assert a[last] in multiset(b);
      var i :| 0 <= i < |b| && b[i] == a[last];
      MultisetWithout(a, last);
      MultisetWithout(b, i);
      AboutPermutation(a[..last] + a[last + 1..], b[..i] + b[i + 1..], d);
      AboutWithout(a, last, d);
      AboutWithout(b, i, d);
    }
  }

  lemma {:induction false} AboutRenamed(input: seq<Orphan>, d: DeviceId)
    ensures About(RenameRepeats(input), d) == About(input, d)
  {
    if input != [] {
      var before := RenameRepeats(input[..|input| - 1]);
      AboutRenamed(input[..|input| - 1], d);
      assert RenameRepeats(input)[..|before|] == before;
    }
  }

  lemma AboutDeduplicated(input: seq<Orphan>, d: DeviceId)
    ensures multiset(About(Deduplicated(input), d)) == multiset(About(input, d))
    ensures |About(Deduplicated(input), d)| == |About(input, d)|
    ensures |About(input, d)| <= 1 ==> About(Deduplicated(input), d) == About(input, d)
  {
    SortMultiset(RenameRepeats(input), OrphanLe);
    AboutPermutation(RenameRepeats(input), Deduplicated(input), d);
    AboutRenamed(input, d);
    var x, y := About(Deduplicated(input), d), About(input, d);
    assert |multiset(x)| == |multiset(y)|;
    if |y| == 1 {
      assert x[0] in multiset(x) && y == [y[0]];
      assert x[0] in multiset(y);
    }
  }

  /** An unregistered device's entries all move to the orphan list. */
  lemma {:induction false} DevicesUnregistered(acc: Restoring, devices: seq<Persisted>, at: Time, d: DeviceId)
    requires d !in acc.nodes
    ensures var out := TakeDevices(acc, devices, at);
            d !in out.nodes && About(out.orphans, d) == About(acc.orphans, d) + Entries(devices, d)
  {
    if devices != [] {
      var front, p := devices[..|devices| - 1], devices[|devices| - 1];
      DevicesUnregistered(acc, front, at, d);
      var mid := TakeDevices(acc, front, at);
      if TakeDevice(mid, p, at).orphans != mid.orphans {
        AboutAppend(mid.orphans, [TakeDevice(mid, p, at).orphans[|mid.orphans|]], d);
      }
    }
  }

  lemma {:induction false} OrphansUnregistered(acc: Restoring, orphans: seq<Orphan>, d: DeviceId)
    requires d !in acc.nodes
    ensures var out := TakeOrphans(acc, orphans);
            d !in out.nodes && About(out.orphans, d) == About(acc.orphans, d) + About(orphans, d)
  {
    if orphans != [] {
      OrphansUnregistered(acc, orphans[..|orphans| - 1], d);
      AboutAppend(TakeOrphans(acc, orphans[..|orphans| - 1]).orphans, [orphans[|orphans| - 1]], d);
    }
  }

  lemma MatchedUnregistered(nodes: map<DeviceId, Node>, snapshot: Snapshot, d: DeviceId)
    requires d !in nodes
    ensures About(Matched(nodes, snapshot).orphans, d) == Records(snapshot, d)
  {
    var start := Restoring(nodes, {}, [], 0);
    var mid := TakeDevices(start, snapshot.devices, snapshot.generatedAt);
    var known := Entries(snapshot.devices, d);
    DevicesUnregistered(start, snapshot.devices, snapshot.generatedAt, d);
    assert About(mid.orphans, d) == known by { assert About([], d) == [] && [] + known == known; }
    OrphansUnregistered(mid, snapshot.orphans, d);
  }

  lemma RestoreKeepsUnregistered(nodes: map<DeviceId, Node>, snapshot: Snapshot, d: DeviceId)
    requires d !in nodes && |Records(snapshot, d)| <= 1
    ensures About(Deduplicated(Matched(nodes, snapshot).orphans), d) == Records(snapshot, d)
  {
    MatchedUnregistered(nodes, snapshot, d);
    AboutDeduplicated(Matched(nodes, snapshot).orphans, d);
  }

  /** Where a registered device stands while entries are taken: not yet restored, or restored from `found`. */
  ghost predicate Standing(acc: Restoring, d: DeviceId, node: Node, found: seq<Persisted>)
  {
    && d in acc.nodes && About(acc.orphans, d) == []
    && if found == [] then d !in acc.restored && acc.nodes[d] == node
       else d in acc.restored && |found| == 1 && found[0].generation <= acc.maxGeneration
            && RestoreDevice(node, found[0]) == Some(acc.nodes[d])
  }

  lemma AboutSnoc(orphans: seq<Orphan>, o: Orphan, d: DeviceId)
    requires !IsAbout(o, d)
    ensures About(orphans + [o], d) == About(orphans, d)
  {
    AboutAppend(orphans, [o], d);
    assert About([o], d) == [];
  }

  /** One entry more: another device's leaves d as it stands, and d's own is the first found. */
  lemma DeviceRegistered(mid: Restoring, p: Persisted, at: Time, d: DeviceId, node: Node, found: seq<Persisted>)
    requires Standing(mid, d, node, found) && (IsEntry(p, d) ==> found == [])
    ensures Standing(TakeDevice(mid, p, at), d, node, if IsEntry(p, d) then found + [p] else found)
  {
    var after := TakeDevice(mid, p, at);
    if |after.orphans| > |mid.orphans| { AboutSnoc(mid.orphans, after.orphans[|mid.orphans|], d); }
  }

  lemma {:induction false} DevicesRegistered(acc: Restoring, devices: seq<Persisted>, at: Time, d: DeviceId, node: Node)
    requires Standing(acc, d, node, []) && |Entries(devices, d)| <= 1
    ensures Standing(TakeDevices(acc, devices, at), d, node, Entries(devices, d))
    decreases |devices|
  {
    if devices != [] {
      var front, p := devices[..|devices| - 1], devices[|devices| - 1];
      DevicesRegistered(acc, front, at, d, node);
      DeviceRegistered(TakeDevices(acc, front, at), p, at, d, node, Entries(front, d));
    }
  }

  lemma {:induction false} OrphansRegistered(acc: Restoring, orphans: seq<Orphan>, d: DeviceId, node: Node, found: seq<Persisted>)
    requires Standing(acc, d, node, found) && |found + About(orphans, d)| <= 1
    ensures Standing(TakeOrphans(acc, orphans), d, node, found + About(orphans, d))
  {
    if orphans == [] {
      assert found + About(orphans, d) == found;
    } else {
      var front, o := orphans[..|orphans| - 1], orphans[|orphans| - 1];
      OrphansRegistered(acc, front, d, node, found);
      AboutAppend(TakeOrphans(acc, front).orphans, [o], d);
      var before, after := found + About(front, d), found + About(orphans, d);
      if IsAbout(o, d) { assert after == before + [o.kept.record]; } else { assert after == before; }
    }
  }

  /** A registered device with one known entry gets exactly that entry back, wherever it was kept. */
  lemma RestoreFindsRegistered(nodes: map<DeviceId, Node>, snapshot: Snapshot, d: DeviceId)
    requires d in nodes && |Records(snapshot, d)| <= 1
    ensures var all, known := Matched(nodes, snapshot), Records(snapshot, d);
            && About(Deduplicated(all.orphans), d) == [] && d in all.nodes
            && (known == [] ==> all.nodes[d] == nodes[d])
            && (known != [] ==> RestoreDevice(nodes[d], known[0]) == Some(all.nodes[d])
                                && known[0].generation <= all.maxGeneration)
  {
    var start := Restoring(nodes, {}, [], 0);
    DevicesRegistered(start, snapshot.devices, snapshot.generatedAt, d, nodes[d]);
    var mid := TakeDevices(start, snapshot.devices, snapshot.generatedAt);
    OrphansRegistered(mid, snapshot.orphans, d, nodes[d], Entries(snapshot.devices, d));
    AboutDeduplicated(Matched(nodes, snapshot).orphans, d);
  }

  // ---- What an entry becomes that is not taken

  /** An unregistered device's entry is kept whole; one that cannot be read is kept as its device and the snapshot's time. */
  lemma LeftEntryIsKept(acc: Restoring, p: Persisted, at: Time)
    requires Unclaimed(p, acc.nodes.Keys)
    ensures var after := TakeDevice(acc, p, at);
            && after.nodes == acc.nodes && after.restored == acc.restored && after.maxGeneration == acc.maxGeneration
            && |after.orphans| == |acc.orphans| + 1 && after.orphans[..|acc.orphans|] == acc.orphans
            && var o := after.orphans[|acc.orphans|];
               && o.sourceVersion == 2 && o.orphanId !in Ids(acc.orphans)
               && (p.deviceId !in acc.nodes ==> o.deviceId == Some(p.deviceId) && o.reason == UnknownV2 && o.kept == Record(p))
               && (p.deviceId in acc.nodes ==> o.deviceId == None && o.reason == CorruptEntry && o.kept == Summary(p.deviceId, at))
               && var base := (if p.deviceId in acc.nodes then "corrupt-" else "v2-") + p.deviceId;
                  base !in Ids(acc.orphans) ==> o.orphanId == base
  {
    UniqueIdIsFresh("v2-" + p.deviceId, Ids(acc.orphans));
    UniqueIdIsFresh("corrupt-" + p.deviceId, Ids(acc.orphans));
  }

  /** A taken entry's generation counts, the highest one in the end. */
  lemma TakenEntryCounts(acc: Restoring, p: Persisted, at: Time)
    requires !Unclaimed(p, acc.nodes.Keys)
    ensures var after := TakeDevice(acc, p, at);
            && after.orphans == acc.orphans && after.restored == acc.restored + {p.deviceId}
            && after.maxGeneration >= acc.maxGeneration && after.maxGeneration >= p.generation
            && after.maxGeneration in {acc.maxGeneration, p.generation}
  {
  }

  // ---- When the orphan limit is met

  /** An entry that no registered device can take. */
  predicate Unclaimed(p: Persisted, ids: set<DeviceId>) { p.deviceId !in ids || !Decodes(p) }

  function LeftDevices(devices: seq<Persisted>, ids: set<DeviceId>): nat
  {
    if devices == [] then 0
    else LeftDevices(devices[..|devices| - 1], ids) + if Unclaimed(devices[|devices| - 1], ids) then 1 else 0
  }

  /** The registered devices that take an orphan back: they have no entry of their own, and an orphan is about them. */
  function Reclaiming(snapshot: Snapshot, ids: set<DeviceId>): set<DeviceId>
  {
    set d | d in ids && Entries(snapshot.devices, d) == [] && About(snapshot.orphans, d) != []
  }

  /** How many entries and orphans of a file the registered devices leave over. */
  function Leftovers(snapshot: Snapshot, ids: set<DeviceId>): int
  {
    LeftDevices(snapshot.devices, ids) + |snapshot.orphans| - |Reclaiming(snapshot, ids)|
  }

  lemma {:induction false} DevicesLeft(nodes: map<DeviceId, Node>, devices: seq<Persisted>, at: Time)
    ensures var out := TakeDevices(Restoring(nodes, {}, [], 0), devices, at);
            && |out.orphans| == LeftDevices(devices, nodes.Keys) && out.nodes.Keys == nodes.Keys
            && out.restored == set d | d in nodes && Entries(devices, d) != []
    decreases |devices|
  {
    if devices != [] {
      var front, p := devices[..|devices| - 1], devices[|devices| - 1];
      DevicesLeft(nodes, front, at);
      forall d | d in nodes && d != p.deviceId ensures Entries(devices, d) == Entries(front, d) {
        assert Entries(front, d) + [] == Entries(front, d);
      }
    }
  }

  lemma {:induction false} OrphansLeft(acc: Restoring, orphans: seq<Orphan>)
    ensures var out := TakeOrphans(acc, orphans);
            && out.nodes.Keys == acc.nodes.Keys
            && out.restored == acc.restored + set d | d in acc.nodes && About(orphans, d) != []
    decreases |orphans|
  {
    if orphans != [] {
      var front, o := orphans[..|orphans| - 1], orphans[|orphans| - 1];
      OrphansLeft(acc, front);
      forall d | d in acc.nodes && !IsAbout(o, d) ensures About(orphans, d) == About(front, d) {
        assert About(front, d) + [] == About(front, d);
      }
    }
  }

  /** A restore is refused exactly when more than 64 entries are left over, and those are its orphans. */
  lemma RestoredExactly(nodes: map<DeviceId, Node>, snapshot: Snapshot)
    ensures Restored(nodes, snapshot).RestoredState? <==> Leftovers(snapshot, nodes.Keys) <= 64
    ensures Restored(nodes, snapshot).RestoredState? ==> |Restored(nodes, snapshot).orphans| == Leftovers(snapshot, nodes.Keys)
  {
    var start := Restoring(nodes, {}, [], 0);
    var mid := TakeDevices(start, snapshot.devices, snapshot.generatedAt);
    DevicesLeft(nodes, snapshot.devices, snapshot.generatedAt);
    OrphansLeft(mid, snapshot.orphans);
    OrphansConserved(mid, snapshot.orphans);
    DeduplicatedIsStrict(Matched(nodes, snapshot).orphans);
    var all := Matched(nodes, snapshot);
    var back := Reclaiming(snapshot, nodes.Keys);
    assert all.restored == mid.restored + back && mid.restored !! back;
  }

  // ---- No entry is invented

  lemma {:induction false} DevicesOrphansKnown(acc: Restoring, devices: seq<Persisted>, at: Time, known: set<Persisted>)
    requires OrphanRecords(acc.orphans) <= known && DeviceRecords(devices) <= known
    ensures OrphanRecords(TakeDevices(acc, devices, at).orphans) <= known
  {
    if devices != [] {
      var front := devices[..|devices| - 1];
      assert DeviceRecords(front) <= DeviceRecords(devices);
      assert devices[|devices| - 1] in DeviceRecords(devices);
      DevicesOrphansKnown(acc, front, at, known);
    }
  }

  lemma {:induction false} OrphansOrphansKnown(acc: Restoring, orphans: seq<Orphan>, known: set<Persisted>)
    requires OrphanRecords(acc.orphans) <= known && OrphanRecords(orphans) <= known
    ensures OrphanRecords(TakeOrphans(acc, orphans).orphans) <= known
  {
    if orphans != [] {
      var front, last := orphans[..|orphans| - 1], orphans[|orphans| - 1];
      assert OrphanRecords(front) <= OrphanRecords(orphans);
      assert last.kept.Record? ==> last.kept.record in OrphanRecords(orphans);
      OrphansOrphansKnown(acc, front, known);
    }
  }

  /** Entries kept by the orphan list after a restore were in the snapshot before it. */
  lemma RestoreOrphansKnown(nodes: map<DeviceId, Node>, snapshot: Snapshot)
    ensures OrphanRecords(Deduplicated(Matched(nodes, snapshot).orphans))
         <= DeviceRecords(snapshot.devices) + OrphanRecords(snapshot.orphans)
  {
    var known := DeviceRecords(snapshot.devices) + OrphanRecords(snapshot.orphans);
    var start := Restoring(nodes, {}, [], 0);
    DevicesOrphansKnown(start, snapshot.devices, snapshot.generatedAt, known);
    OrphansOrphansKnown(TakeDevices(start, snapshot.devices, snapshot.generatedAt), snapshot.orphans, known);
    var all := Matched(nodes, snapshot).orphans;
    RenameRepeatsDistinct(all);
    SortMembers(RenameRepeats(all), OrphanLe);
    forall p | p in OrphanRecords(Deduplicated(all)) ensures p in known {
      var o :| o in Deduplicated(all) && o.kept.Record? && o.kept.record == p;
      var i :| 0 <= i < |all| && RenameRepeats(all)[i] == o;
      assert all[i] in all && all[i].kept == o.kept;
      assert p in OrphanRecords(all);
    }
  }
}
