/** The per-path cache of qualified SMART transports. */
module SmartCache {
  import opened Text

  const FAILURE_THRESHOLD: nat := 2

  type Path = string
  type Transport = string

  datatype Health = Passed | Failed | OtherHealth

  datatype Completeness = Complete | Partial | OtherCompleteness

  /** The fields of a probe's report that qualification reads. */
  datatype Smart = Smart(health: Health, completeness: Completeness, attributeCheck: bool, nativeUnavailable: bool)

  datatype ErrorCode =
    | ValueInvalid | SectorSizeUnknown | ReturnStatusUnavailable | SmartctlUnavailable | OtherError(code: string)

  datatype Probe = Probe(smart: Option<Smart>, error: Option<ErrorCode>)

  predicate Usable(p: Probe)
  {
    && p.smart.Some? && !p.smart.value.health.OtherHealth?
    && var s := p.smart.value;
       || (s.completeness.Complete? && p.error in {None, Some(ValueInvalid), Some(SectorSizeUnknown)})
       || (s.completeness.Partial? && s.attributeCheck && s.nativeUnavailable
           && p.error in {Some(ReturnStatusUnavailable), Some(ValueInvalid), Some(SectorSizeUnknown)})
  }

  predicate Unavailable(p: Probe) { p.error == Some(SmartctlUnavailable) }

  /** A verdict that says something about the disk: failed health, or a value that did not parse. */
  predicate Observation(p: Probe)
  {
    p.error == Some(ValueInvalid) || (p.smart.Some? && p.smart.value.health.Failed?)
  }

  // ---- Where a probe's report comes from

  /**
   * What the two smartctl calls gave: any output at all, the health it names, whether the native return
   * status is missing, whether the attribute table is there, and whether a bounded field is out of range
   * or a sector count has no sector size.
   */
  datatype Output = Output(any: bool, health: Health, incomplete: bool, attributes: bool, outOfRange: bool, noSectorSize: bool)

  function Collected(o: Output): Probe
  {
    if !o.any then Probe(None, Some(SmartctlUnavailable))
    else
      var fallback := o.incomplete && !o.health.OtherHealth? && o.attributes;
      var health := if o.incomplete && !fallback then OtherHealth else o.health;
      var smart :=
        if fallback then Smart(health, Partial, true, true)
        else if o.incomplete then Smart(health, OtherCompleteness, false, true)
        else if !health.OtherHealth? then Smart(health, Complete, false, false)
        else Smart(health, OtherCompleteness, false, false);
      var error :=
        if o.noSectorSize then Some(SectorSizeUnknown)
        else if health.OtherHealth? || o.outOfRange then Some(ValueInvalid)
        else if fallback then Some(ReturnStatusUnavailable)
        else None;
      Probe(Some(smart), error)
  }

  /** Qualification's two patterns accept exactly the probes with a passed or failed verdict left. */
  lemma UsableIsTrusted(o: Output)
    ensures Usable(Collected(o)) <==> Collected(o).smart.Some? && !Collected(o).smart.value.health.OtherHealth?
    ensures Unavailable(Collected(o)) <==> !o.any
  {
  }

  /** A probe is usable when its verdict is known and neither an error nor a missing piece of evidence speaks against it. */
  lemma UsableExactly(p: Probe)
    ensures Usable(p) <==>
            && p.smart.Some? && p.smart.value.health in {Passed, Failed} && !p.smart.value.completeness.OtherCompleteness?
            && (p.error.Some? ==> !p.error.value.OtherError? && !p.error.value.SmartctlUnavailable?)
            && (p.smart.value.completeness.Complete? ==> p.error != Some(ReturnStatusUnavailable))
            && (p.smart.value.completeness.Partial? ==> p.error.Some? && p.smart.value.attributeCheck && p.smart.value.nativeUnavailable)
  {
  }

  /**
   * What a probe reports for each output: a verdict without the native status stands only on the attribute table,
   * then as partial; a sector count without a size goes before an invalid value, and that before the missing status.
   */
  lemma CollectedExactly(o: Output)
    requires o.any
    ensures var p := Collected(o);
            && p.smart.Some?
            && (Usable(p) <==> o.health in {Passed, Failed} && (o.incomplete ==> o.attributes))
            && (Usable(p) ==> p.smart.value.health == o.health && (p.smart.value.completeness.Partial? <==> o.incomplete))
            && (!Usable(p) ==> p.smart.value.health == OtherHealth && p.smart.value.completeness == OtherCompleteness)
            && (p.smart.value.attributeCheck <==> Usable(p) && o.incomplete)
            && (p.smart.value.nativeUnavailable <==> o.incomplete)
            && (p.error == Some(SectorSizeUnknown) <==> o.noSectorSize)
            && (p.error == Some(ValueInvalid) <==> !o.noSectorSize && (o.outOfRange || !Usable(p)))
            && (p.error == Some(ReturnStatusUnavailable) <==> !o.noSectorSize && !o.outOfRange && Usable(p) && o.incomplete)
            && (p.error == None <==> !o.noSectorSize && !o.outOfRange && Usable(p) && !o.incomplete)
  {
  }

  datatype Slot = Slot(transport: Transport, streak: nat)

  type Cache = map<Path, Slot>

  /** The transports tried in order when nothing usable is cached; the hint is already checked for safe text. */
  function Candidates(hint: Option<Transport>): seq<Transport>
  {
    ["sat", "ata"] + (if hint.Some? && hint.value !in ["sat", "ata"] then [hint.value] else [])
    + (if hint == Some("scsi") then [] else ["scsi"])
  }

  /** Both native transports first, the one that every bridge speaks last, the scan's hint between, and none of them twice. */
  lemma CandidatesInOrder(hint: Option<Transport>)
    ensures var c := Candidates(hint);
            && |c| >= 3 && c[0] == "sat" && c[1] == "ata" && c[|c| - 1] == "scsi"
            && (forall i, j :: 0 <= i < j < |c| ==> c[i] != c[j])
            && (forall t :: t in c <==> t in {"sat", "ata", "scsi"} || hint == Some(t))
  {
    assert "sat"[0] != "ata"[0] && |"scsi"| != |"sat"| && |"scsi"| != |"ata"|;
  }

  /** The probe answers of one call: the cached transport's and, per candidate, the later ones. */
  datatype World = World(cached: Probe, later: map<Transport, Probe>)

  function ProbeOf(w: World, t: Transport): Probe
  {
    if t in w.later then w.later[t] else Probe(None, Some(SmartctlUnavailable))
  }

  datatype Source = CachedProbe | QualifiedProbe | Unqualified

  datatype Result = Result(probe: Probe, effective: Option<Transport>, source: Source)

  function FirstUsable(w: World, ts: seq<Transport>): Option<Transport>
  {
    if ts == [] then None
    else if Usable(ProbeOf(w, ts[0])) then Some(ts[0])
    else FirstUsable(w, ts[1..])
  }

  /** No usable probe comes before the one found, and none at all when none is found. */
  lemma {:induction false} FirstUsableIsFirst(w: World, ts: seq<Transport>)
    ensures FirstUsable(w, ts).None? <==> forall t :: t in ts ==> !Usable(ProbeOf(w, t))
    ensures FirstUsable(w, ts).Some? ==> exists k :: FirstUsableAt(w, ts, k) && ts[k] == FirstUsable(w, ts).value
    decreases |ts|
  {
    if ts != [] {
      assert ts == [ts[0]] + ts[1..];
      if Usable(ProbeOf(w, ts[0])) {
        assert FirstUsableAt(w, ts, 0);
      } else {
        FirstUsableIsFirst(w, ts[1..]);
        if FirstUsable(w, ts[1..]).Some? {
          var k :| FirstUsableAt(w, ts[1..], k) && ts[1..][k] == FirstUsable(w, ts[1..]).value;
          forall j | 0 <= j < k + 1 ensures !Usable(ProbeOf(w, ts[j])) { if j > 0 { assert ts[j] == ts[1..][j - 1]; } }
          assert FirstUsableAt(w, ts, k + 1);
        }
      }
    }
  }

  predicate FirstUsableAt(w: World, ts: seq<Transport>, k: int)
  {
    0 <= k < |ts| && Usable(ProbeOf(w, ts[k])) && forall j :: 0 <= j < k ==> !Usable(ProbeOf(w, ts[j]))
  }

  /** Qualification from scratch: the first usable candidate is cached, otherwise the cache is left alone. */
  function Requalified(cache: Cache, path: Path, hint: Option<Transport>, w: World): Cache
  {
    var found := FirstUsable(w, Candidates(hint));
    if found.Some? then cache[path := Slot(found.value, 0)] else cache
  }

  function Qualified(cache: Cache, path: Path, hint: Option<Transport>, w: World): Cache
  {
    if path !in cache then Requalified(cache, path, hint, w)
    else if Usable(w.cached) then cache[path := cache[path].(streak := 0)]
    else if !Unavailable(w.cached) then cache
    else if cache[path].streak + 1 < FAILURE_THRESHOLD then cache[path := cache[path].(streak := cache[path].streak + 1)]
    else Requalified(cache - {path}, path, hint, w)
  }

  /** The cached entry of the path is dropped in this call, whether or not the call then qualifies one anew. */
  predicate Evicts(cache: Cache, path: Path, w: World)
  {
    path in cache && Unavailable(w.cached) && cache[path].streak + 1 >= FAILURE_THRESHOLD
  }

  /** A failure that says more than that smartctl gave nothing. */
  predicate Tells(p: Probe) { p.error.Some? && !Unavailable(p) }

  /** The last probe that tells something or, when none does, the last one. */
  predicate MostTelling(w: World, ts: seq<Transport>, k: int)
  {
    && 0 <= k < |ts|
    && (forall j :: k < j < |ts| ==> !Tells(ProbeOf(w, ts[j])))
    && (Tells(ProbeOf(w, ts[k])) || (k == |ts| - 1 && forall j :: 0 <= j < |ts| ==> !Tells(ProbeOf(w, ts[j]))))
  }

  class Collector {
    var cache: Cache

    constructor ()
      ensures cache == map[]
    {
      cache := map[];
    }

    method QualifySmartTransport(path: Path, hint: Option<Transport>, w: World) returns (r: Result)
      modifies this
      ensures cache == Qualified(old(cache), path, hint, w)
      ensures r.source.CachedProbe? <==> path in old(cache) && !Evicts(old(cache), path, w)
      ensures r.source.CachedProbe? ==> r.probe == w.cached && r.effective == Some(old(cache)[path].transport)
      ensures r.source.QualifiedProbe? ==>
                r.effective == FirstUsable(w, Candidates(hint)) && r.effective.Some?
                && r.probe == ProbeOf(w, r.effective.value) && Usable(r.probe)
      ensures r.source.Unqualified? ==> r.effective.None? && !Usable(r.probe) && FirstUsable(w, Candidates(hint)).None?
      ensures r.source.Unqualified? ==> exists k :: MostTelling(w, Candidates(hint), k) && r.probe == ProbeOf(w, Candidates(hint)[k])
    {
      if path in cache {
        var slot := cache[path];
        if Usable(w.cached) {
          cache := cache[path := slot.(streak := 0)];
          return Result(w.cached, Some(slot.transport), CachedProbe);
        }
        if Unavailable(w.cached) {
          var streak := slot.streak + 1;
          if streak < FAILURE_THRESHOLD {
            cache := cache[path := slot.(streak := streak)];
            return Result(w.cached, Some(slot.transport), CachedProbe);
          }
          cache := cache - {path};
        } else {
          return Result(w.cached, Some(slot.transport), CachedProbe);
        }
      }
      var last, preferred: Option<Probe> := Probe(None, None), None;
      var candidates := Candidates(hint);
      ghost var telling := -1;
      for i := 0 to |candidates|
        invariant FirstUsable(w, candidates[i..]) == FirstUsable(w, candidates)
        invariant !Usable(last) && (preferred.Some? ==> !Usable(preferred.value))
        invariant i > 0 ==> last == ProbeOf(w, candidates[i - 1])
        invariant -1 <= telling < i && (preferred.Some? <==> telling >= 0)
        invariant telling >= 0 ==> Tells(ProbeOf(w, candidates[telling])) && preferred == Some(ProbeOf(w, candidates[telling]))
        invariant forall j :: telling < j < i ==> !Tells(ProbeOf(w, candidates[j]))
      {
        var probe := ProbeOf(w, candidates[i]);
        assert candidates[i..][1..] == candidates[i + 1..];
        if Usable(probe) {
          cache := cache[path := Slot(candidates[i], 0)];
          return Result(probe, Some(candidates[i]), QualifiedProbe);
        }
        last := probe;
        if probe.error.Some? && !Unavailable(probe) {
          preferred := Some(probe);
          telling := i;
        }
      }
      assert MostTelling(w, candidates, if telling >= 0 then telling else |candidates| - 1);
      assert candidates[|candidates|..] == [];
      return Result(if preferred.Some? then preferred.value else last, None, Unqualified);
    }
  }

  // ---- Runs

  /** One call of a run: the path, its scan hint and what the probes answered. */
  datatype Call = Call(path: Path, hint: Option<Transport>, world: World)

  function After(calls: seq<Call>): Cache
  {
    if calls == [] then map[]
    else
      var last := calls[|calls| - 1];
      Qualified(After(calls[..|calls| - 1]), last.path, last.hint, last.world)
  }

  /** The probe by which the call at k could have qualified the transport t for the path. */
  predicate QualifiedAt(calls: seq<Call>, k: nat, path: Path, t: Transport)
  {
    k < |calls| && calls[k].path == path && Usable(ProbeOf(calls[k].world, t))
  }

  /** Call k was an availability failure of the path's cached transport. */
  predicate FailedAt(calls: seq<Call>, k: int, path: Path)
  {
    0 <= k < |calls| && calls[k].path == path && Unavailable(calls[k].world.cached)
  }

  /** Between call k and the end no probe of the path's cached transport was usable or unavailable. */
  predicate QuietSince(calls: seq<Call>, k: int, path: Path)
  {
    forall j :: k < j < |calls| && 0 <= j && calls[j].path == path ==>
      !Usable(calls[j].world.cached) && !Unavailable(calls[j].world.cached)
  }

  /** The slot is below the threshold, its transport was qualified by a usable probe, and a streak of one has its failure. */
  ghost predicate Explained(calls: seq<Call>, path: Path)
    requires path in After(calls)
  {
    var slot := After(calls)[path];
    && slot.streak < FAILURE_THRESHOLD
    && (exists k :: QualifiedAt(calls, k, path, slot.transport))
    && (slot.streak == 1 ==> exists k :: FailedAt(calls, k, path) && QuietSince(calls, k, path))
  }

  lemma {:induction false} FirstUsableIsUsable(w: World, ts: seq<Transport>)
    ensures FirstUsable(w, ts).Some? ==> Usable(ProbeOf(w, FirstUsable(w, ts).value))
  {
    if ts != [] && !Usable(ProbeOf(w, ts[0])) { FirstUsableIsUsable(w, ts[1..]); }
  }

  lemma StillQualified(front: seq<Call>, last: Call, k: nat, path: Path, t: Transport)
    requires QualifiedAt(front, k, path, t)
    ensures QualifiedAt(front + [last], k, path, t)
  {
  }

  lemma StillFailed(front: seq<Call>, last: Call, k: int, path: Path)
    requires FailedAt(front, k, path) && QuietSince(front, k, path)
    requires last.path == path ==> !Usable(last.world.cached) && !Unavailable(last.world.cached)
    ensures FailedAt(front + [last], k, path) && QuietSince(front + [last], k, path)
  {
  }

  lemma CallKeepsExplained(front: seq<Call>, last: Call, path: Path)
    requires forall p :: p in After(front) ==> Explained(front, p)
    requires path in After(front + [last])
    ensures Explained(front + [last], path)
  {
    var calls := front + [last];
    assert calls[..|front|] == front;
    var before, after := After(front), After(calls);
    FirstUsableIsUsable(last.world, Candidates(last.hint));
    if path != last.path || (path in before && !Evicts(before, path, last.world)) {
      assert Explained(front, path) && after[path].transport == before[path].transport;
      var k :| QualifiedAt(front, k, path, before[path].transport);
      StillQualified(front, last, k, path, before[path].transport);
      if after[path].streak == 1 {
        if before[path].streak == 1 && after[path] == before[path] && (path != last.path || !Usable(last.world.cached)) {
          var f :| FailedAt(front, f, path) && QuietSince(front, f, path);
          StillFailed(front, last, f, path);
        } else {
          assert FailedAt(calls, |front|, path) && QuietSince(calls, |front|, path);
        }
      }
    } else {
      assert QualifiedAt(calls, |front|, path, after[path].transport);
    }
  }

  lemma {:induction false} CacheIsExplained(calls: seq<Call>)
    ensures forall path :: path in After(calls) ==> Explained(calls, path)
  {
    if calls != [] {
      var front, last := calls[..|calls| - 1], calls[|calls| - 1];
      assert calls == front + [last];
      CacheIsExplained(front);
      forall path | path in After(calls) ensures Explained(calls, path) {
        CallKeepsExplained(front, last, path);
      }
    }
  }

  /**
   * An entry is evicted only by the second availability failure in a row: there was an earlier one,
   * and no probe of the cached transport in between was usable. Any other result leaves the transport
   * and, unless usable, the streak as they were.
   */
  lemma EvictionNeedsTwoFailures(calls: seq<Call>, next: Call)
    requires next.path in After(calls)
    ensures Evicts(After(calls), next.path, next.world) ==>
              Unavailable(next.world.cached)
              && exists k :: FailedAt(calls, k, next.path) && QuietSince(calls, k, next.path)
    ensures !Unavailable(next.world.cached) ==>
              var after := Qualified(After(calls), next.path, next.hint, next.world);
              && next.path in after && after[next.path].transport == After(calls)[next.path].transport
              && (!Usable(next.world.cached) ==> after == After(calls))
  {
    CacheIsExplained(calls);
    assert Explained(calls, next.path);
  }

  /** A failed health or an invalid value, however smartctl came to report it, never evicts, and a failed health clears the streak. */
  lemma ObservationNeverEvicts(cache: Cache, path: Path, hint: Option<Transport>, o: Output, w: World)
    requires path in cache && w.cached == Collected(o) && Observation(w.cached)
    ensures !Evicts(cache, path, w)
    ensures var after := Qualified(cache, path, hint, w);
            && path in after && after[path].transport == cache[path].transport
            && (w.cached.smart.value.health.Failed? ==> after[path].streak == 0)
  {
    UsableIsTrusted(o);
  }

  /**
   * And it is evicted then: two availability failures of a cached path, with no usable probe between, drop its
   * transport; the path is qualified anew by its first usable candidate, or leaves the cache when it has none.
   */
  lemma SecondFailureEvicts(cache: Cache, first: Call, between: World, second: World)
    requires first.path in cache && Unavailable(first.world.cached) && Unavailable(second.cached)
    requires !Usable(between.cached) && !Unavailable(between.cached)
    ensures var c1 := Qualified(cache, first.path, first.hint, first.world);
            !Evicts(cache, first.path, first.world) ==>
              var c2 := Qualified(c1, first.path, first.hint, between);
              && c2 == c1 && Evicts(c2, first.path, second)
              && var c3 := Qualified(c2, first.path, first.hint, second);
                 && (first.path in c3 <==> exists t :: t in Candidates(first.hint) && Usable(ProbeOf(second, t)))
                 && (first.path in c3 ==>
                       && c3[first.path].streak == 0
                       && exists k :: FirstUsableAt(second, Candidates(first.hint), k) && Candidates(first.hint)[k] == c3[first.path].transport)
  {
    FirstUsableIsFirst(second, Candidates(first.hint));
  }

  /** A path that is not cached is cached exactly when a candidate is usable, under the first such one; no other path changes. */
  lemma QualifiesFirstUsable(cache: Cache, path: Path, hint: Option<Transport>, w: World)
    requires path !in cache
    ensures var after := Qualified(cache, path, hint, w);
            && (path in after <==> exists t :: t in Candidates(hint) && Usable(ProbeOf(w, t)))
            && (path in after ==>
                  && after[path].streak == 0
                  && exists k :: FirstUsableAt(w, Candidates(hint), k) && Candidates(hint)[k] == after[path].transport)
  {
    FirstUsableIsFirst(w, Candidates(hint));
  }

  lemma OtherPathsStay(cache: Cache, path: Path, hint: Option<Transport>, w: World, other: Path)
    requires other != path
    ensures var after := Qualified(cache, path, hint, w);
            (other in after <==> other in cache) && (other in cache ==> after[other] == cache[other])
  {
  }
}
