/** What each diagnostic says: its fields by the part of the report that it stands for, and nothing offered besides. */
module DiagnosticEntries {
  import opened Text
  import opened Diagnostics

  // ---- Statuses

  /** A part that is there is what its error says, stale without one when it is, and available otherwise. */
  lemma StatusExactly(present: bool, stale: bool, error: Option<Error>)
    ensures var status := CollectionStatus(present, stale, error);
            && (status == NotReported <==> !present)
            && (status == Available <==> present && !stale && error == None)
            && (status == Stale <==> present && stale && error == None)
            && (status == NotInstalled <==> present && error.Some? && error.value.code == "not_installed")
            && (status == NotConfigured <==> present && error.Some? && error.value.code in {"not_configured", "not_reported"})
            && (status == Degraded <==> present && Loud(error))
            && (Loud(error) <==> error.Some? && error.value.code !in {"not_installed", "not_configured", "not_reported"})
  {
    CodesDiffer();
  }

  lemma CodesDiffer()
    ensures "not_installed" != "not_configured" && "not_installed" != "not_reported" && "not_configured" != "not_reported"
  {
    assert |"not_installed"| == 13 && |"not_configured"| == 14 && |"not_reported"| == 12;
  }

  /** An endpoint's status by its text; what is not known counts as degraded. */
  lemma ApiStatusExactly(value: string)
    ensures ApiStatus(value) == Available <==> value in {"ok", "available"}
    ensures ApiStatus(value) == Unsupported <==> value == "unsupported"
    ensures ApiStatus(value) == Partial <==> value == "partial"
    ensures ApiStatus(value) == NotConfigured <==> value in {"disabled", "not_configured"}
    ensures ApiStatus(value) == NotObserved <==> value == "not_collected"
    ensures ApiStatus(value) == Degraded <==>
            value !in {"ok", "available", "unsupported", "partial", "disabled", "not_configured", "not_collected"}
  {
    assert |"ok"| == 2 && |"available"| == 9 && |"unsupported"| == 11 && |"partial"| == 7 && |"disabled"| == 8;
    assert |"not_configured"| == 14 && |"not_collected"| == 13;
  }

  /** Degraded entries are shown first, then unavailable and stale ones, then partial ones; available ones come last. */
  lemma SeverityExactly(a: Diagnostic, b: Diagnostic)
    ensures a.status == Degraded ==> NotLessSevere(a, b) && (NotLessSevere(b, a) <==> b.status == Degraded)
    ensures b.status == Available ==> NotLessSevere(a, b) && (NotLessSevere(b, a) <==> a.status == Available)
    ensures a.status in {Unavailable, Stale} ==> (NotLessSevere(b, a) <==> b.status in {Degraded, Unavailable, Stale})
    ensures a.status == Partial ==> (NotLessSevere(b, a) <==> b.status in {Degraded, Unavailable, Stale, Partial})
    ensures a.status !in {Degraded, Unavailable, Stale, Partial, Available} ==> (NotLessSevere(b, a) <==> b.status != Available)
  {
  }

  lemma MarkerExactly(observed: nat, displayed: nat)
    ensures var m := Marker(observed, displayed);
            && m.status == Partial && m.code == "diagnostics_truncated" && m.source == "server"
            && m.domain == m.component == m.field == m.resource == "collection_diagnostics"
            && m.reason == "Collection diagnostics were truncated" && m.observed == observed && m.displayed == displayed
  {
  }

  // ---- Entries

  /** The entry of a domain or component: its status, and the filtered fields of its error. */
  lemma DomainEntryExactly(domain: string, component: string, present: bool, stale: bool, error: Option<Error>, field: string, safe: Filtering)
    ensures var d := DomainDiagnostic(domain, component, present, stale, error, field, safe);
            && d.domain == domain && d.component == component && d.status == CollectionStatus(present, stale, error)
            && d.resource == "" && d.observed == d.displayed == 0
            && (error == None ==> d.code == d.field == d.source == d.reason == "")
            && (error.Some? ==>
                 && d.code == safe(error.value.code) && d.field == safe(field) && d.source == safe(error.value.source)
                 && var unconfigured := error.value.code == "not_reported"
                                        || (present && error.value.code == "not_configured" && safe(error.value.message) == "");
                    d.reason == if unconfigured then NOT_CONFIGURED_REASON else safe(error.value.message))
  {
    CodesDiffer();
    StatusExactly(present, stale, error);
  }

  lemma ErrorEntryExactly(domain: string, component: string, resource: string, field: string, error: Option<Error>, safe: Filtering, d: Diagnostic)
    ensures d in ErrorDiagnostics(domain, component, resource, field, error, safe) <==>
            && error.Some? && d.domain == domain && d.component == component && d.status == Degraded
            && d.code == safe(error.value.code) && d.reason == safe(error.value.message) && d.source == safe(error.value.source)
            && d.resource == safe(resource) && d.field == safe(field) && d.observed == d.displayed == 0
  {
  }

  /** A verdict that rests on the attribute table because the native status was not to be had. */
  lemma FallbackExactly(d: Disk)
    ensures FallbackObservation(d) <==>
            && d.smart in {Passed, Failed} && d.completeness.Some? && d.completeness.value == "partial"
            && d.healthSource.Some? && d.healthSource.value == "attribute_check"
            && d.nativeStatus.Some? && d.nativeStatus.value == "unavailable"
  {
  }

  /** An entry about a disk, named by its identifier or else its device. */
  predicate AboutDisk(d: Diagnostic, disk: Disk, safe: Filtering)
  {
    && d.domain == "hardware" && d.component == "storage.physical_disks" && d.observed == d.displayed == 0
    && d.resource == (if safe(disk.id) == "" then safe(disk.device) else safe(disk.id))
  }

  /** A disk offers at most three entries: its error, a missing native status that its error does not name, a failed health. */
  lemma DiskEntriesExactly(disk: Disk, safe: Filtering, d: Diagnostic)
    ensures d in DiskDiagnostics(disk, safe) <==>
      AboutDisk(d, disk, safe) && (DiskError(d, disk, safe) || MissingNative(d, disk) || FailedHealth(d, disk))
  {
    var all := DiskDiagnostics(disk, safe);
    if DiskError(d, disk, safe) && AboutDisk(d, disk, safe) { assert d == all[0]; }
    if FailedHealth(d, disk) && AboutDisk(d, disk, safe) { assert d == all[|all| - 1]; }
    if MissingNative(d, disk) && AboutDisk(d, disk, safe) { assert d == all[if disk.error.Some? then 1 else 0]; }
  }

  predicate DiskError(d: Diagnostic, disk: Disk, safe: Filtering)
  {
    && disk.error.Some? && d.code == safe(disk.error.value.code) && d.source == safe(disk.error.value.source)
    && d.field == "hardware.storage.physical_disks[].error"
    && (UsableFallback(disk) ==> d.status == Partial && d.reason == FALLBACK_REASON)
    && (!UsableFallback(disk) ==> d.status == Degraded && d.reason == safe(disk.error.value.message))
  }

  predicate MissingNative(d: Diagnostic, disk: Disk)
  {
    && FallbackObservation(disk) && (disk.error.Some? ==> disk.error.value.code != "smart_return_status_unavailable")
    && d.status == (if disk.smart == Failed then Degraded else Partial)
    && d.code == "smart_return_status_unavailable" && d.field == "hardware.storage.physical_disks[].native_status"
    && d.reason == FALLBACK_REASON && d.source == "smartctl"
  }

  predicate FailedHealth(d: Diagnostic, disk: Disk)
  {
    && disk.smart == Failed && d.status == Degraded && d.code == "smart_health_failed"
    && d.field == "hardware.storage.physical_disks[].smart_status" && d.reason == "SMART health check reported failed"
    && d.source == "smartctl"
  }

  /** An endpoint is always named, also when the filter leaves nothing of its name. */
  lemma EndpointEntriesExactly(e: Endpoint, safe: Filtering)
    ensures var all, name := EndpointDiagnostics(e, safe), if safe(e.name) == "" then "unknown" else safe(e.name);
            && |all| == (if e.error.Some? then 2 else 1)
            && all[0].domain == "unifi" && all[0].status == ApiStatus(e.status) && all[0].resource == name
            && all[0].component == (if safe("api.endpoint." + name) == "" then "api.endpoint.unknown" else safe("api.endpoint." + name))
            && all[0].code == all[0].field == all[0].reason == all[0].source == ""
            && all[0].observed == all[0].displayed == 0
            && (e.error.Some? ==> all[1..] == ErrorDiagnostics("unifi", "api.endpoint", name, "unifi.api.endpoints[].error", e.error, safe))
  {
  }

  lemma IssueEntryExactly(i: Issue, safe: Filtering)
    ensures var d := IssueDiagnostic(i, safe);
            && d.domain == d.component && d.resource == safe(d.domain) && d.status == Degraded
            && d.code == safe(i.code) && d.field == safe(i.field) && d.reason == safe(i.reason) && d.source == ""
            && d.observed == d.displayed == 0
            && (d.domain == "extension" <==> i.domain == ExtensionIssue) && (d.domain == "hardware" <==> i.domain == HardwareIssue)
            && (d.domain == "docker" <==> i.domain == DockerIssue) && (d.domain == "hermes" <==> i.domain == HermesIssue)
            && (d.domain == "lucky" <==> i.domain == LuckyIssue) && (d.domain == "easytier" <==> i.domain == EasyTierIssue)
            && (d.domain == "unifi" <==> i.domain == UnifiIssue) && (d.domain == "client_build" <==> i.domain == ClientBuildIssue)
  {
    NamesDiffer();
  }

  lemma NamesDiffer()
    ensures forall a: IssueDomain, b: IssueDomain :: a != b ==> DomainName(a) != DomainName(b)
  {
    assert "hermes"[0] != "docker"[0] && |"extension"| == 9 && |"hardware"| == 8 && |"lucky"| == |"unifi"| == 5 && "lucky"[0] != "unifi"[0];
    assert "hardware"[0] != "easytier"[0] && |"client_build"| == 12;
  }

  // ---- Nothing else is offered, and in which order

  /** The storage part of a report offers its own entry, its disks' and one for each filesystem's error. */
  ghost predicate StorageOffers(storage: Option<Storage>, safe: Filtering, d: Diagnostic)
  {
    if storage.None? then d == DomainDiagnostic("hardware", "storage", false, false, None, "", safe)
    else
      var s := storage.value;
      || d == DomainDiagnostic("hardware", "storage", true, s.stale, s.error, "hardware.storage.error", safe)
      || (exists disk :: disk in s.disks && d in DiskDiagnostics(disk, safe))
      || (exists f :: f in s.filesystems && FilesystemOffersIt(f, safe, d))
  }

  predicate FilesystemOffersIt(f: Filesystem, safe: Filtering, d: Diagnostic)
  {
    && f.error.Some?
    && d in ErrorDiagnostics("hardware", "storage.filesystems",
                             if safe(f.mountpoint) != "" then safe(f.mountpoint) else if f.source.None? then "" else safe(f.source.value),
                             "hardware.storage.filesystems[].error", f.error, safe)
  }

  lemma DisksOfferExactly(disks: seq<Disk>, safe: Filtering, d: Diagnostic)
    ensures d in AllOf(disks, DiskOffers(safe)) <==> exists disk :: disk in disks && d in DiskDiagnostics(disk, safe)
  {
    AllOfMember(disks, DiskOffers(safe), d);
    if x :| x in disks && d in DiskOffers(safe)(x) { assert d in DiskDiagnostics(x, safe); }
    if x :| x in disks && d in DiskDiagnostics(x, safe) { assert d in DiskOffers(safe)(x); }
  }

  lemma FilesystemOffersIs(f: Filesystem, safe: Filtering, d: Diagnostic)
    ensures d in FilesystemOffers(safe)(f) <==> FilesystemOffersIt(f, safe, d)
  {
  }

  lemma FilesystemsOfferExactly(filesystems: seq<Filesystem>, safe: Filtering, d: Diagnostic)
    ensures d in AllOf(filesystems, FilesystemOffers(safe)) <==> exists f :: f in filesystems && FilesystemOffersIt(f, safe, d)
  {
    AllOfMember(filesystems, FilesystemOffers(safe), d);
    if x :| x in filesystems && d in FilesystemOffers(safe)(x) { FilesystemOffersIs(x, safe, d); }
    if x :| x in filesystems && FilesystemOffersIt(x, safe, d) { FilesystemOffersIs(x, safe, d); }
  }

  lemma StorageOffersExactly(storage: Option<Storage>, safe: Filtering, d: Diagnostic)
    ensures d in StorageCandidates(storage, safe) <==> StorageOffers(storage, safe, d)
  {
    if storage.Some? {
      DisksOfferExactly(storage.value.disks, safe, d);
      FilesystemsOfferExactly(storage.value.filesystems, safe, d);
    }
  }

  lemma HardwareOffersExactly(hardware: Option<Hardware>, safe: Filtering, d: Diagnostic)
    ensures d in HardwareCandidates(hardware, safe) <==> HardwareOffers(hardware, safe, d)
  {
    if hardware.Some? { StorageOffersExactly(hardware.value.storage, safe, d); }
  }

  ghost predicate HardwareOffers(hardware: Option<Hardware>, safe: Filtering, d: Diagnostic)
  {
    if hardware.None? then d == DomainDiagnostic("hardware", "hardware", false, false, None, "", safe)
    else
      || d == DomainDiagnostic("hardware", "hardware", true, hardware.value.stale, hardware.value.error, "hardware.error", safe)
      || StorageOffers(hardware.value.storage, safe, d)
  }

  ghost predicate ServiceOffers(domain: string, service: Option<Service>, safe: Filtering, d: Diagnostic)
  {
    if service.None? then d == DomainDiagnostic(domain, domain, false, false, None, "", safe)
    else d == DomainDiagnostic(domain, domain, true, service.value.stale, service.value.error, domain + ".error", safe)
  }

  ghost predicate HermesOffers(hermes: Option<Hermes>, safe: Filtering, d: Diagnostic)
  {
    if hermes.None? then d == DomainDiagnostic("hermes", "hermes", false, false, None, "", safe)
    else
      || d == DomainDiagnostic("hermes", "hermes", true, hermes.value.stale, hermes.value.error, "hermes.error", safe)
      || exists p :: p in hermes.value.profiles && ProfileOffersIt(p, safe, d)
  }

  predicate ProfileOffersIt(p: Profile, safe: Filtering, d: Diagnostic)
  {
    d in ErrorDiagnostics("hermes", "profiles", p.name, "hermes.profiles[].error", p.error, safe)
  }

  lemma HermesOffersExactly(hermes: Option<Hermes>, safe: Filtering, d: Diagnostic)
    ensures d in HermesCandidates(hermes, safe) <==> HermesOffers(hermes, safe, d)
  {
    if hermes.Some? {
      AllOfMember(hermes.value.profiles, ProfileOffers(safe), d);
      if x :| x in hermes.value.profiles && d in ProfileOffers(safe)(x) { assert ProfileOffersIt(x, safe, d); }
      if x :| x in hermes.value.profiles && ProfileOffersIt(x, safe, d) { assert d in ProfileOffers(safe)(x); }
    }
  }

  ghost predicate ApiOffers(api: Option<Api>, safe: Filtering, d: Diagnostic)
  {
    if api.None? then d == DomainDiagnostic("unifi", "api", false, false, None, "", safe)
    else
      || d == DomainDiagnostic("unifi", "api", true, false, api.value.error, "unifi.api.error", safe)
      || exists e :: e in api.value.endpoints && d in EndpointDiagnostics(e, safe)
  }

  ghost predicate UnifiOffers(unifi: Option<Unifi>, safe: Filtering, d: Diagnostic)
  {
    if unifi.None? then d == DomainDiagnostic("unifi", "unifi", false, false, None, "", safe)
    else
      var u := unifi.value;
      || UnifiEntry(u, d)
      || d == DomainDiagnostic("unifi", "transport", true, u.stale, u.error, "unifi.transport", safe)
      || ApiOffers(u.api, safe, d)
  }

  /** The UniFi entry itself carries no error fields, only whether it is configured. */
  predicate UnifiEntry(u: Unifi, d: Diagnostic)
  {
    && d.domain == d.component == "unifi" && d.code == d.field == d.source == d.resource == "" && d.observed == d.displayed == 0
    && (!u.configured ==> d.status == NotConfigured)
    && (u.configured ==> d.status == CollectionStatus(true, u.stale, u.error))
    && d.reason == if d.status == NotConfigured then NOT_CONFIGURED_REASON else ""
  }

  lemma UnifiOffersExactly(unifi: Option<Unifi>, safe: Filtering, d: Diagnostic)
    ensures d in UnifiCandidates(unifi, safe) <==> UnifiOffers(unifi, safe, d)
  {
    if unifi.Some? && unifi.value.api.Some? {
      AllOfMember(unifi.value.api.value.endpoints, EndpointOffers(safe), d);
      if x :| x in unifi.value.api.value.endpoints && d in EndpointOffers(safe)(x) { assert d in EndpointDiagnostics(x, safe); }
      if x :| x in unifi.value.api.value.endpoints && d in EndpointDiagnostics(x, safe) { assert d in EndpointOffers(safe)(x); }
    }
  }

  ghost predicate Offered(ext: Extension, issues: seq<Issue>, safe: Filtering, d: Diagnostic)
  {
    || HardwareOffers(ext.hardware, safe, d) || ServiceOffers("docker", ext.docker, safe, d) || HermesOffers(ext.hermes, safe, d)
    || ServiceOffers("lucky", ext.lucky, safe, d) || ServiceOffers("easytier", ext.easytier, safe, d) || UnifiOffers(ext.unifi, safe, d)
    || d == DomainDiagnostic("client_build", "client_build", ext.clientBuild, false, None, "", safe)
    || exists i :: i in issues && d == IssueDiagnostic(i, safe)
  }

  lemma IssuesOfferExactly(issues: seq<Issue>, safe: Filtering, d: Diagnostic)
    ensures d in IssueCandidates(issues, safe) <==> exists i :: i in issues && d == IssueDiagnostic(i, safe)
  {
    AllOfMember(issues, IssueOffers(safe), d);
    if x :| x in issues && d in IssueOffers(safe)(x) { assert d == IssueDiagnostic(x, safe); }
    if x :| x in issues && d == IssueDiagnostic(x, safe) { assert d in IssueOffers(safe)(x); }
  }

  lemma ServiceOffersExactly(domain: string, service: Option<Service>, safe: Filtering, d: Diagnostic)
    ensures d in ServiceCandidates(domain, service, safe) <==> ServiceOffers(domain, service, safe, d)
  {
  }

  lemma InEight<T>(a: seq<T>, b: seq<T>, c: seq<T>, d: seq<T>, e: seq<T>, f: seq<T>, g: seq<T>, h: seq<T>, x: T)
    ensures x in a + b + c + d + e + f + g + h <==> x in a || x in b || x in c || x in d || x in e || x in f || x in g || x in h
  {
  }

  /** The entries offered are exactly those of the report's parts and issues. */
  lemma OfferedExactly(ext: Extension, issues: seq<Issue>, safe: Filtering, d: Diagnostic)
    ensures d in Candidates(ext, issues, safe) <==> Offered(ext, issues, safe, d)
  {
    InEight(HardwareCandidates(ext.hardware, safe), ServiceCandidates("docker", ext.docker, safe), HermesCandidates(ext.hermes, safe),
            ServiceCandidates("lucky", ext.lucky, safe), ServiceCandidates("easytier", ext.easytier, safe),
            UnifiCandidates(ext.unifi, safe), BuildCandidates(ext.clientBuild, safe), IssueCandidates(issues, safe), d);
    HardwareOffersExactly(ext.hardware, safe, d);
    ServiceOffersExactly("docker", ext.docker, safe, d);
    HermesOffersExactly(ext.hermes, safe, d);
    ServiceOffersExactly("lucky", ext.lucky, safe, d);
    ServiceOffersExactly("easytier", ext.easytier, safe, d);
    UnifiOffersExactly(ext.unifi, safe, d);
    IssuesOfferExactly(issues, safe, d);
  }

  ghost predicate AllIn(list: seq<Diagnostic>, domain: string) { forall d :: d in list ==> d.domain == domain }

  lemma StorageIsHardware(storage: Option<Storage>, safe: Filtering)
    ensures AllIn(StorageCandidates(storage, safe), "hardware")
  {
    forall d | d in StorageCandidates(storage, safe) ensures d.domain == "hardware" {
      StorageOffersExactly(storage, safe, d);
      if storage.Some? {
        if x :| x in storage.value.disks && d in DiskDiagnostics(x, safe) { DiskEntriesExactly(x, safe, d); }
      }
    }
  }

  lemma HardwareIsHardware(hardware: Option<Hardware>, safe: Filtering)
    ensures AllIn(HardwareCandidates(hardware, safe), "hardware") && HardwareCandidates(hardware, safe) != []
  {
    if hardware.Some? { StorageIsHardware(hardware.value.storage, safe); }
  }

  lemma ServiceIsOne(domain: string, service: Option<Service>, safe: Filtering)
    ensures AllIn(ServiceCandidates(domain, service, safe), domain) && |ServiceCandidates(domain, service, safe)| == 1
  {
  }

  lemma BuildIsOne(present: bool, safe: Filtering)
    ensures AllIn(BuildCandidates(present, safe), "client_build") && |BuildCandidates(present, safe)| == 1
  {
  }

  lemma HermesIsHermes(hermes: Option<Hermes>, safe: Filtering)
    ensures AllIn(HermesCandidates(hermes, safe), "hermes") && HermesCandidates(hermes, safe) != []
  {
    forall d | d in HermesCandidates(hermes, safe) ensures d.domain == "hermes" { HermesOffersExactly(hermes, safe, d); }
  }

  lemma UnifiIsUnifi(unifi: Option<Unifi>, safe: Filtering)
    ensures AllIn(UnifiCandidates(unifi, safe), "unifi") && UnifiCandidates(unifi, safe) != []
  {
    forall d | d in UnifiCandidates(unifi, safe) ensures d.domain == "unifi" { UnifiOffersExactly(unifi, safe, d); }
  }

  /** The walk goes through the domains in a fixed order and ends with the decode issues in theirs. */
  lemma WalkInOrder(ext: Extension, issues: seq<Issue>, safe: Filtering)
    returns (hardware: seq<Diagnostic>, docker: seq<Diagnostic>, hermes: seq<Diagnostic>, lucky: seq<Diagnostic>,
             easytier: seq<Diagnostic>, unifi: seq<Diagnostic>, build: seq<Diagnostic>, last: seq<Diagnostic>)
    ensures Candidates(ext, issues, safe) == hardware + docker + hermes + lucky + easytier + unifi + build + last
    ensures AllIn(hardware, "hardware") && AllIn(docker, "docker") && AllIn(hermes, "hermes") && AllIn(lucky, "lucky")
    ensures AllIn(easytier, "easytier") && AllIn(unifi, "unifi") && AllIn(build, "client_build")
    ensures |docker| == |lucky| == |easytier| == |build| == 1 && hardware != [] && hermes != [] && unifi != []
    ensures |last| == |issues| && forall i :: 0 <= i < |issues| ==> last[i] == IssueDiagnostic(issues[i], safe)
  {
    hardware, docker := HardwareCandidates(ext.hardware, safe), ServiceCandidates("docker", ext.docker, safe);
    hermes, lucky := HermesCandidates(ext.hermes, safe), ServiceCandidates("lucky", ext.lucky, safe);
    easytier, unifi := ServiceCandidates("easytier", ext.easytier, safe), UnifiCandidates(ext.unifi, safe);
    build, last := BuildCandidates(ext.clientBuild, safe), IssueCandidates(issues, safe);
    HardwareIsHardware(ext.hardware, safe);
    ServiceIsOne("docker", ext.docker, safe);
    HermesIsHermes(ext.hermes, safe);
    ServiceIsOne("lucky", ext.lucky, safe);
    ServiceIsOne("easytier", ext.easytier, safe);
    UnifiIsUnifi(ext.unifi, safe);
    BuildIsOne(ext.clientBuild, safe);
    IssuesInOrder(issues, safe);
  }

  lemma {:induction false} IssuesInOrder(issues: seq<Issue>, safe: Filtering)
    ensures var all := IssueCandidates(issues, safe); |all| == |issues| && forall i :: 0 <= i < |issues| ==> all[i] == IssueDiagnostic(issues[i], safe)
    decreases |issues|
  {
    if issues != [] { IssuesInOrder(issues[..|issues| - 1], safe); }
  }

  // ---- The flag

  /** The errors that a report's parts carry on their own, UniFi's aside. */
  function TopErrors(ext: Extension): seq<Option<Error>>
  {
    [if ext.hardware.Some? then ext.hardware.value.error else None, if ext.docker.Some? then ext.docker.value.error else None,
     if ext.hermes.Some? then ext.hermes.value.error else None, if ext.lucky.Some? then ext.lucky.value.error else None,
     if ext.easytier.Some? then ext.easytier.value.error else None]
  }

  /** A storage error that stands for nothing but disks judged by their attribute table. */
  ghost predicate MereFallback(s: Storage)
  {
    && s.error.Some? && s.error.value.code in {"smart_return_status_unavailable", "partial_failure"}
    && (exists d :: d in s.disks && UsableFallback(d))
    && (forall d :: d in s.disks && !UsableFallback(d) ==> d.collection == "healthy" || (d.collection == "unsupported" && d.error.None?))
    && forall f :: f in s.filesystems ==> f.collection == "healthy"
  }

  ghost predicate BadDisk(d: Disk)
  {
    d.smart == Failed || (!UsableFallback(d) && d.collection != "healthy" && (d.collection == "unsupported" ==> d.error.Some?))
  }

  lemma UsableFallbackExactly(d: Disk)
    ensures UsableFallback(d) <==>
            FallbackObservation(d) && d.smart == Passed && exists e :: d.error == Some(e) && e.code == "smart_return_status_unavailable"
  {
    if UsableFallback(d) { assert d.error == Some(d.error.value); }
  }

  /** A device is degraded exactly by a decode issue, a loud error of a part, a bad disk, or a storage error that is more than a fallback. */
  lemma FlagExactly(ext: Extension, issues: seq<Issue>)
    ensures DegradedFlag(ext, issues) <==>
      || issues != []
      || (exists i :: 0 <= i < |TopErrors(ext)| && Loud(TopErrors(ext)[i]))
      || (ext.hardware.Some? && ext.hardware.value.storage.Some?
          && var s := ext.hardware.value.storage.value;
             (Loud(s.error) && !MereFallback(s)) || exists d :: d in s.disks && BadDisk(d))
  {
    var errors := TopErrors(ext);
    assert errors[0] == if ext.hardware.Some? then ext.hardware.value.error else None;
    assert errors[1] == if ext.docker.Some? then ext.docker.value.error else None;
    assert errors[2] == if ext.hermes.Some? then ext.hermes.value.error else None;
    assert errors[3] == if ext.lucky.Some? then ext.lucky.value.error else None;
    assert errors[4] == if ext.easytier.Some? then ext.easytier.value.error else None;
    forall d: Disk ensures Faulty(d) <==> BadDisk(d) {}
    forall s: Storage ensures OnlyFallback(s) <==> MereFallback(s) { FallbackForms(s); }
  }

  lemma FallbackForms(s: Storage)
    ensures OnlyFallback(s) <==> MereFallback(s)
  {
    forall d: Disk ensures Excused(d) <==> (!UsableFallback(d) ==> d.collection == "healthy" || (d.collection == "unsupported" && d.error.None?)) {}
  }
}
