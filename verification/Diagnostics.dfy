/** Collection diagnostics: how they are gathered, truncated, and matched with the device's degraded flag. */
module Diagnostics {
  import opened Text
  import opened Sequences

  const MAX_DIAGNOSTICS := 64

  datatype Status = Available | Degraded | Unavailable | Stale | NotReported | NotConfigured | NotInstalled
                  | Unsupported | Partial | NotObserved

  datatype Diagnostic = Diagnostic(domain: string, component: string, status: Status, code: string, field: string,
                                   reason: string, source: string, resource: string, observed: nat, displayed: nat)

  datatype Error = Error(code: string, message: string, source: string)

  datatype Smart = Passed | Failed | OtherSmart

  datatype Disk = Disk(id: string, device: string, smart: Smart, collection: string, error: Option<Error>,
                       completeness: Option<string>, healthSource: Option<string>, nativeStatus: Option<string>)

  datatype Filesystem = Filesystem(mountpoint: string, source: Option<string>, collection: string, error: Option<Error>)

  datatype Storage = Storage(stale: bool, error: Option<Error>, disks: seq<Disk>, filesystems: seq<Filesystem>)

  datatype Hardware = Hardware(stale: bool, error: Option<Error>, storage: Option<Storage>)

  datatype Service = Service(stale: bool, error: Option<Error>)

  datatype Profile = Profile(name: string, error: Option<Error>)

  datatype Hermes = Hermes(stale: bool, error: Option<Error>, profiles: seq<Profile>)

  datatype Endpoint = Endpoint(name: string, status: string, error: Option<Error>)

  datatype Api = Api(error: Option<Error>, endpoints: seq<Endpoint>)

  datatype Unifi = Unifi(configured: bool, stale: bool, error: Option<Error>, api: Option<Api>)

  datatype Extension = Extension(hardware: Option<Hardware>, docker: Option<Service>, hermes: Option<Hermes>,
                                 lucky: Option<Service>, easytier: Option<Service>, unifi: Option<Unifi>, clientBuild: bool)

  /** The decoder names the domain of every issue it makes. */
  datatype IssueDomain = ExtensionIssue | HardwareIssue | DockerIssue | HermesIssue | LuckyIssue | EasyTierIssue | UnifiIssue | ClientBuildIssue

  function DomainName(d: IssueDomain): (name: string)
    ensures name != "" && name != "collection_diagnostics"
  {
    match d
    case ExtensionIssue => "extension"
    case HardwareIssue => "hardware"
    case DockerIssue => "docker"
    case HermesIssue => "hermes"
    case LuckyIssue => "lucky"
    case EasyTierIssue => "easytier"
    case UnifiIssue => "unifi"
    case ClientBuildIssue => "client_build"
  }

  datatype Issue = Issue(domain: IssueDomain, code: string, field: string, reason: string)

  /** The text filter; nothing below depends on what it keeps. */
  type Filtering = string -> string

  const NOT_CONFIGURED_REASON := "该组件未在配置文件中开启采集"
  const FALLBACK_REASON := "SMART 原生状态不可用，已使用属性检查结果"
  const NO_NATIVE_STATUS := "smart_return_status_unavailable"

  // ---- One diagnostic

  function CollectionStatus(present: bool, stale: bool, error: Option<Error>): Status
  {
    if !present then NotReported
    else if error.Some? then
      if error.value.code == "not_configured" then NotConfigured
      else if error.value.code == "not_reported" then NotConfigured
      else if error.value.code == "not_installed" then NotInstalled
      else Degraded
    else if stale then Stale
    else Available
  }

  function Blank(domain: string, component: string, status: Status): Diagnostic
  {
    Diagnostic(domain, component, status, "", "", "", "", "", 0, 0)
  }

  function DomainDiagnostic(domain: string, component: string, present: bool, stale: bool, error: Option<Error>,
                            field: string, safe: Filtering): Diagnostic
  {
    var d := Blank(domain, component, CollectionStatus(present, stale, error));
    var e := if error.None? then d
             else d.(code := safe(error.value.code), reason := safe(error.value.message),
                     source := safe(error.value.source), field := safe(field));
    if (e.status == NotConfigured && e.reason == "") || (error.Some? && error.value.code == "not_reported")
    then e.(reason := NOT_CONFIGURED_REASON)
    else e
  }

  function ErrorDiagnostics(domain: string, component: string, resource: string, field: string,
                            error: Option<Error>, safe: Filtering): seq<Diagnostic>
  {
    if error.None? then []
    else [Diagnostic(domain, component, Degraded, safe(error.value.code), safe(field), safe(error.value.message),
                     safe(error.value.source), safe(resource), 0, 0)]
  }

  predicate FallbackObservation(disk: Disk)
  {
    (disk.smart == Passed || disk.smart == Failed) && disk.completeness == Some("partial") &&
    disk.healthSource == Some("attribute_check") && disk.nativeStatus == Some("unavailable")
  }

  function DiskResource(disk: Disk, safe: Filtering): string
  {
    if safe(disk.id) != "" then safe(disk.id) else safe(disk.device)
  }

  function FilesystemResource(f: Filesystem, safe: Filtering): string
  {
    if safe(f.mountpoint) != "" then safe(f.mountpoint) else if f.source.Some? then safe(f.source.value) else ""
  }

  const DISKS := "storage.physical_disks"

  function DiskDiagnostics(disk: Disk, safe: Filtering): seq<Diagnostic>
  {
    var resource, fallback := DiskResource(disk, safe), FallbackObservation(disk);
    (if disk.error.None? then []
     else
       var limited := fallback && disk.smart == Passed && disk.error.value.code == NO_NATIVE_STATUS;
       [Diagnostic("hardware", DISKS, if limited then Partial else Degraded, safe(disk.error.value.code),
                   "hardware.storage.physical_disks[].error",
                   if limited then FALLBACK_REASON else safe(disk.error.value.message),
                   safe(disk.error.value.source), resource, 0, 0)]) +
    (if fallback && (disk.error.None? || disk.error.value.code != NO_NATIVE_STATUS)
     then [Diagnostic("hardware", DISKS, if disk.smart == Failed then Degraded else Partial, NO_NATIVE_STATUS,
                      "hardware.storage.physical_disks[].native_status", FALLBACK_REASON, "smartctl", resource, 0, 0)]
     else []) +
    (if disk.smart == Failed
     then [Diagnostic("hardware", DISKS, Degraded, "smart_health_failed",
                      "hardware.storage.physical_disks[].smart_status", "SMART health check reported failed",
                      "smartctl", resource, 0, 0)]
     else [])
  }

  function ApiStatus(value: string): Status
  {
    if value == "ok" || value == "available" then Available
    else if value == "unsupported" then Unsupported
    else if value == "partial" then Partial
    else if value == "disabled" || value == "not_configured" then NotConfigured
    else if value == "not_collected" then NotObserved
    else Degraded
  }

  function Or(text: string, fallback: string): string { if text == "" then fallback else text }

  function EndpointDiagnostics(e: Endpoint, safe: Filtering): seq<Diagnostic>
  {
    var name := Or(safe(e.name), "unknown");
    [Blank("unifi", Or(safe("api.endpoint." + name), "api.endpoint.unknown"), ApiStatus(e.status)).(resource := name)] +
    ErrorDiagnostics("unifi", "api.endpoint", name, "unifi.api.endpoints[].error", e.error, safe)
  }

  function IssueDiagnostic(i: Issue, safe: Filtering): Diagnostic
  {
    var name := DomainName(i.domain);
    Diagnostic(name, name, Degraded, safe(i.code), safe(i.field), safe(i.reason), "", safe(name), 0, 0)
  }

  // ---- Everything the source tries to append, in order

  function AllOf<T>(items: seq<T>, f: T -> seq<Diagnostic>): seq<Diagnostic>
  {
    if items == [] then [] else AllOf(items[..|items| - 1], f) + f(items[|items| - 1])
  }

  function DiskOffers(safe: Filtering): Disk -> seq<Diagnostic> { (d: Disk) => DiskDiagnostics(d, safe) }

  function FilesystemOffers(safe: Filtering): Filesystem -> seq<Diagnostic>
  {
    (f: Filesystem) => ErrorDiagnostics("hardware", "storage.filesystems", FilesystemResource(f, safe),
                                        "hardware.storage.filesystems[].error", f.error, safe)
  }

  function ProfileOffers(safe: Filtering): Profile -> seq<Diagnostic>
  {
    (p: Profile) => ErrorDiagnostics("hermes", "profiles", p.name, "hermes.profiles[].error", p.error, safe)
  }

  function EndpointOffers(safe: Filtering): Endpoint -> seq<Diagnostic> { (e: Endpoint) => EndpointDiagnostics(e, safe) }

  function IssueOffers(safe: Filtering): Issue -> seq<Diagnostic> { (i: Issue) => [IssueDiagnostic(i, safe)] }

  function StorageCandidates(storage: Option<Storage>, safe: Filtering): seq<Diagnostic>
  {
    if storage.None? then [DomainDiagnostic("hardware", "storage", false, false, None, "", safe)]
    else
      [DomainDiagnostic("hardware", "storage", true, storage.value.stale, storage.value.error, "hardware.storage.error", safe)] +
      AllOf(storage.value.disks, DiskOffers(safe)) +
      AllOf(storage.value.filesystems, FilesystemOffers(safe))
  }

  function HardwareCandidates(hardware: Option<Hardware>, safe: Filtering): seq<Diagnostic>
  {
    if hardware.None? then [DomainDiagnostic("hardware", "hardware", false, false, None, "", safe)]
    else
      [DomainDiagnostic("hardware", "hardware", true, hardware.value.stale, hardware.value.error, "hardware.error", safe)] +
      StorageCandidates(hardware.value.storage, safe)
  }

  function ServiceCandidates(domain: string, service: Option<Service>, safe: Filtering): seq<Diagnostic>
  {
    if service.None? then [DomainDiagnostic(domain, domain, false, false, None, "", safe)]
    else [DomainDiagnostic(domain, domain, true, service.value.stale, service.value.error, domain + ".error", safe)]
  }

  function HermesCandidates(hermes: Option<Hermes>, safe: Filtering): seq<Diagnostic>
  {
    if hermes.None? then [DomainDiagnostic("hermes", "hermes", false, false, None, "", safe)]
    else
      [DomainDiagnostic("hermes", "hermes", true, hermes.value.stale, hermes.value.error, "hermes.error", safe)] +
      AllOf(hermes.value.profiles, ProfileOffers(safe))
  }

  function UnifiStatus(u: Unifi): Status
  {
    if !u.configured then NotConfigured else CollectionStatus(true, u.stale, u.error)
  }

  function ApiCandidates(api: Option<Api>, safe: Filtering): seq<Diagnostic>
  {
    if api.None? then [DomainDiagnostic("unifi", "api", false, false, None, "", safe)]
    else
      [DomainDiagnostic("unifi", "api", true, false, api.value.error, "unifi.api.error", safe)] +
      AllOf(api.value.endpoints, EndpointOffers(safe))
  }

  function UnifiCandidates(unifi: Option<Unifi>, safe: Filtering): seq<Diagnostic>
  {
    if unifi.None? then [DomainDiagnostic("unifi", "unifi", false, false, None, "", safe)]
    else
      var status := UnifiStatus(unifi.value);
      [Blank("unifi", "unifi", status).(reason := if status == NotConfigured then NOT_CONFIGURED_REASON else "")] +
      [DomainDiagnostic("unifi", "transport", true, unifi.value.stale, unifi.value.error, "unifi.transport", safe)] +
      ApiCandidates(unifi.value.api, safe)
  }

  function BuildCandidates(present: bool, safe: Filtering): seq<Diagnostic>
  {
    [DomainDiagnostic("client_build", "client_build", present, false, None, "", safe)]
  }

  function IssueCandidates(issues: seq<Issue>, safe: Filtering): seq<Diagnostic>
  {
    AllOf(issues, IssueOffers(safe))
  }

  function Candidates(ext: Extension, issues: seq<Issue>, safe: Filtering): seq<Diagnostic>
  {
    HardwareCandidates(ext.hardware, safe) + ServiceCandidates("docker", ext.docker, safe) +
    HermesCandidates(ext.hermes, safe) + ServiceCandidates("lucky", ext.lucky, safe) +
    ServiceCandidates("easytier", ext.easytier, safe) + UnifiCandidates(ext.unifi, safe) +
    BuildCandidates(ext.clientBuild, safe) + IssueCandidates(issues, safe)
  }

  // ---- Appending without repeats

  datatype Key = Key(domain: string, component: string, status: Status, resource: string, code: string, field: string, source: string)

  function KeyOf(d: Diagnostic): Key { Key(d.domain, d.component, d.status, d.resource, d.code, d.field, d.source) }

  predicate Named(d: Diagnostic) { d.domain != "" && d.component != "" }

  ghost function Keys(list: seq<Diagnostic>): set<Key> { set d | d in list :: KeyOf(d) }

  ghost function Add(list: seq<Diagnostic>, d: Diagnostic): seq<Diagnostic>
  {
    if Named(d) && KeyOf(d) !in Keys(list) then list + [d] else list
  }

  ghost function AddAll(list: seq<Diagnostic>, more: seq<Diagnostic>): seq<Diagnostic>
  {
    if more == [] then list else Add(AddAll(list, more[..|more| - 1]), more[|more| - 1])
  }

  lemma {:induction false} AddAllAppend(list: seq<Diagnostic>, a: seq<Diagnostic>, b: seq<Diagnostic>)
    ensures AddAll(AddAll(list, a), b) == AddAll(list, a + b)
    decreases |b|
  {
    if b == [] {
      assert a + b == a;
    } else {
      AddAllAppend(list, a, b[..|b| - 1]);
      assert (a + b)[..|a + b| - 1] == a + b[..|b| - 1];
    }
  }

  ghost predicate NoRepeats(list: seq<Diagnostic>) { DistinctBy(list, KeyOf) }

  /** What remains has one entry for every key that was offered under a name, and nothing else. */
  lemma {:induction false} AddAllIs(more: seq<Diagnostic>)
    ensures NoRepeats(AddAll([], more))
    ensures forall d :: d in AddAll([], more) ==> d in more && Named(d)
    ensures forall d :: d in more && Named(d) ==> KeyOf(d) in Keys(AddAll([], more))
    decreases |more|
  {
    if more != [] {
      AddAllIs(more[..|more| - 1]);
      assert more == more[..|more| - 1] + [more[|more| - 1]];
      AddIs(AddAll([], more[..|more| - 1]), more[|more| - 1]);
    }
  }

  lemma AddIs(list: seq<Diagnostic>, d: Diagnostic)
    requires NoRepeats(list)
    ensures NoRepeats(Add(list, d))
    ensures forall e :: e in Add(list, d) ==> e in list || (e == d && Named(d))
    ensures Keys(Add(list, d)) == Keys(list) + if Named(d) then {KeyOf(d)} else {}
  {
    assert forall i :: 0 <= i < |list| ==> KeyOf(list[i]) in Keys(list);
    var after := Add(list, d);
    if |after| > |list| {
      assert after == list + [d];
      assert forall e :: e in after <==> e in list || e == d;
    }
  }

  /** The list being built and the keys seen, which the source passes by pointer. */
  datatype Gathering = Gathering(list: seq<Diagnostic>, seen: set<Key>)

  ghost predicate Valid(g: Gathering) { g.seen == Keys(g.list) }

  method Append(g: Gathering, d: Diagnostic) returns (h: Gathering)
    requires Valid(g)
    ensures Valid(h) && h.list == Add(g.list, d)
  {
    if d.domain == "" || d.component == "" { return g; }
    var key := KeyOf(d);
    if key in g.seen { return g; }
    h := Gathering(g.list + [d], g.seen + {key});
    assert forall e :: e in h.list <==> e in g.list || e == d;
    assert d in h.list;
  }

  method AppendAll(g: Gathering, more: seq<Diagnostic>) returns (h: Gathering)
    requires Valid(g)
    ensures Valid(h) && h.list == AddAll(g.list, more)
  {
    h := g;
    for i := 0 to |more|
      invariant Valid(h) && h.list == AddAll(g.list, more[..i])
    {
      assert more[..i + 1][..i] == more[..i];
      h := Append(h, more[i]);
    }
    assert more[..|more|] == more;
  }

  method AddPhysicalDisk(g: Gathering, disk: Disk, safe: Filtering) returns (h: Gathering)
    requires Valid(g)
    ensures Valid(h) && h.list == AddAll(g.list, DiskDiagnostics(disk, safe))
  {
    h := g;
    var resource, fallback := DiskResource(disk, safe), FallbackObservation(disk);
    ghost var offered: seq<Diagnostic> := [];
    if disk.error.Some? {
      var error := disk.error.value;
      var status, reason := Degraded, safe(error.message);
      if fallback && disk.smart == Passed && error.code == NO_NATIVE_STATUS {
        status, reason := Partial, FALLBACK_REASON;
      }
      var d := Diagnostic("hardware", DISKS, status, safe(error.code), "hardware.storage.physical_disks[].error",
                          reason, safe(error.source), resource, 0, 0);
      h := Append(h, d);
      OfferOne(g.list, offered, d);
      offered := offered + [d];
    }
    if fallback && (disk.error.None? || disk.error.value.code != NO_NATIVE_STATUS) {
      var status := if disk.smart == Failed then Degraded else Partial;
      var d := Diagnostic("hardware", DISKS, status, NO_NATIVE_STATUS, "hardware.storage.physical_disks[].native_status",
                          FALLBACK_REASON, "smartctl", resource, 0, 0);
      h := Append(h, d);
      OfferOne(g.list, offered, d);
      offered := offered + [d];
    }
    if disk.smart == Failed {
      var d := Diagnostic("hardware", DISKS, Degraded, "smart_health_failed", "hardware.storage.physical_disks[].smart_status",
                          "SMART health check reported failed", "smartctl", resource, 0, 0);
      h := Append(h, d);
      OfferOne(g.list, offered, d);
      offered := offered + [d];
    }
    assert offered == DiskDiagnostics(disk, safe);
  }

  lemma OfferOne(list: seq<Diagnostic>, offered: seq<Diagnostic>, d: Diagnostic)
    ensures AddAll(list, offered + [d]) == Add(AddAll(list, offered), d)
  {
    assert (offered + [d])[..|offered|] == offered;
  }

  /** The source's loops over profiles, filesystems, endpoints and issues. */
  method AppendEach<T>(g: Gathering, items: seq<T>, f: T -> seq<Diagnostic>) returns (h: Gathering)
    requires Valid(g)
    ensures Valid(h) && h.list == AddAll(g.list, AllOf(items, f))
  {
    h := g;
    for i := 0 to |items|
      invariant Valid(h) && h.list == AddAll(g.list, AllOf(items[..i], f))
    {
      assert items[..i + 1][..i] == items[..i];
      AddAllAppend(g.list, AllOf(items[..i], f), f(items[i]));
      h := AppendAll(h, f(items[i]));
    }
    assert items[..|items|] == items;
  }

  method AddDisks(g: Gathering, disks: seq<Disk>, safe: Filtering) returns (h: Gathering)
    requires Valid(g)
    ensures Valid(h) && h.list == AddAll(g.list, AllOf(disks, DiskOffers(safe)))
  {
    h := g;
    for i := 0 to |disks|
      invariant Valid(h) && h.list == AddAll(g.list, AllOf(disks[..i], DiskOffers(safe)))
    {
      assert disks[..i + 1][..i] == disks[..i];
      AddAllAppend(g.list, AllOf(disks[..i], DiskOffers(safe)), DiskDiagnostics(disks[i], safe));
      h := AddPhysicalDisk(h, disks[i], safe);
    }
    assert disks[..|disks|] == disks;
  }

  lemma AddAllOne(list: seq<Diagnostic>, d: Diagnostic)
    ensures AddAll(list, [d]) == Add(list, d)
  {
    assert [d][..0] == [];
  }

  method AddStorage(g: Gathering, storage: Option<Storage>, safe: Filtering) returns (h: Gathering)
    requires Valid(g)
    ensures Valid(h) && h.list == AddAll(g.list, StorageCandidates(storage, safe))
  {
    if storage.None? {
      var d := DomainDiagnostic("hardware", "storage", false, false, None, "", safe);
      AddAllOne(g.list, d);
      h := Append(g, d);
      return;
    }
    var d := DomainDiagnostic("hardware", "storage", true, storage.value.stale, storage.value.error, "hardware.storage.error", safe);
    ghost var disks, filesystems := AllOf(storage.value.disks, DiskOffers(safe)), AllOf(storage.value.filesystems, FilesystemOffers(safe));
    AddAllOne(g.list, d);
    AddAllAppend(g.list, [d], disks);
    AddAllAppend(g.list, [d] + disks, filesystems);
    h := Append(g, d);
    h := AddDisks(h, storage.value.disks, safe);
    h := AppendEach(h, storage.value.filesystems, FilesystemOffers(safe));
  }

  method AddHardware(g: Gathering, hardware: Option<Hardware>, safe: Filtering) returns (h: Gathering)
    requires Valid(g)
    ensures Valid(h) && h.list == AddAll(g.list, HardwareCandidates(hardware, safe))
  {
    if hardware.None? {
      var d := DomainDiagnostic("hardware", "hardware", false, false, None, "", safe);
      AddAllOne(g.list, d);
      h := Append(g, d);
      return;
    }
    var d := DomainDiagnostic("hardware", "hardware", true, hardware.value.stale, hardware.value.error, "hardware.error", safe);
    AddAllOne(g.list, d);
    AddAllAppend(g.list, [d], StorageCandidates(hardware.value.storage, safe));
    h := Append(g, d);
    h := AddStorage(h, hardware.value.storage, safe);
  }

  method AddHermes(g: Gathering, hermes: Option<Hermes>, safe: Filtering) returns (h: Gathering)
    requires Valid(g)
    ensures Valid(h) && h.list == AddAll(g.list, HermesCandidates(hermes, safe))
  {
    if hermes.None? {
      var d := DomainDiagnostic("hermes", "hermes", false, false, None, "", safe);
      AddAllOne(g.list, d);
      h := Append(g, d);
      return;
    }
    var d := DomainDiagnostic("hermes", "hermes", true, hermes.value.stale, hermes.value.error, "hermes.error", safe);
    AddAllOne(g.list, d);
    AddAllAppend(g.list, [d], AllOf(hermes.value.profiles, ProfileOffers(safe)));
    h := Append(g, d);
    h := AppendEach(h, hermes.value.profiles, ProfileOffers(safe));
  }

  method AddUnifi(g: Gathering, unifi: Option<Unifi>, safe: Filtering) returns (h: Gathering)
    requires Valid(g)
    ensures Valid(h) && h.list == AddAll(g.list, UnifiCandidates(unifi, safe))
  {
    if unifi.None? {
      var d := DomainDiagnostic("unifi", "unifi", false, false, None, "", safe);
      AddAllOne(g.list, d);
      h := Append(g, d);
      return;
    }
    var u := unifi.value;
    var status := if !u.configured then NotConfigured else CollectionStatus(true, u.stale, u.error);
    var d := Blank("unifi", "unifi", status).(reason := if status == NotConfigured then NOT_CONFIGURED_REASON else "");
    var t := DomainDiagnostic("unifi", "transport", true, u.stale, u.error, "unifi.transport", safe);
    ghost var api := ApiCandidates(u.api, safe);
    AddAllOne(g.list, d);
    OfferOne(g.list, [d], t);
    AddAllAppend(g.list, [d] + [t], api);
    h := Append(g, d);
    h := Append(h, t);
    if u.api.None? {
      var a := DomainDiagnostic("unifi", "api", false, false, None, "", safe);
      AddAllOne(h.list, a);
      h := Append(h, a);
      return;
    }
    var a := DomainDiagnostic("unifi", "api", true, false, u.api.value.error, "unifi.api.error", safe);
    AddAllOne(h.list, a);
    AddAllAppend(h.list, [a], AllOf(u.api.value.endpoints, EndpointOffers(safe)));
    h := Append(h, a);
    h := AppendEach(h, u.api.value.endpoints, EndpointOffers(safe));
  }

  /** The list before truncation. */
  ghost function Gathered(ext: Extension, issues: seq<Issue>, safe: Filtering): seq<Diagnostic>
  {
    AddAll([], Candidates(ext, issues, safe))
  }

  lemma GatheredInSteps(ext: Extension, issues: seq<Issue>, safe: Filtering)
    ensures Gathered(ext, issues, safe) ==
      AddAll(AddAll(AddAll(AddAll(AddAll(AddAll(AddAll(AddAll([],
        HardwareCandidates(ext.hardware, safe)), ServiceCandidates("docker", ext.docker, safe)),
        HermesCandidates(ext.hermes, safe)), ServiceCandidates("lucky", ext.lucky, safe)),
        ServiceCandidates("easytier", ext.easytier, safe)), UnifiCandidates(ext.unifi, safe)),
        BuildCandidates(ext.clientBuild, safe)), IssueCandidates(issues, safe))
  {
    var c1, c2 := HardwareCandidates(ext.hardware, safe), ServiceCandidates("docker", ext.docker, safe);
    var c3, c4 := HermesCandidates(ext.hermes, safe), ServiceCandidates("lucky", ext.lucky, safe);
    var c5, c6 := ServiceCandidates("easytier", ext.easytier, safe), UnifiCandidates(ext.unifi, safe);
    var c7, c8 := BuildCandidates(ext.clientBuild, safe), IssueCandidates(issues, safe);
    AddAllAppend([], c1, c2);
    AddAllAppend([], c1 + c2, c3);
    AddAllAppend([], c1 + c2 + c3, c4);
    AddAllAppend([], c1 + c2 + c3 + c4, c5);
    AddAllAppend([], c1 + c2 + c3 + c4 + c5, c6);
    AddAllAppend([], c1 + c2 + c3 + c4 + c5 + c6, c7);
    AddAllAppend([], c1 + c2 + c3 + c4 + c5 + c6 + c7, c8);
  }

  method BuildCollectionDiagnostics(ext: Extension, issues: seq<Issue>, safe: Filtering) returns (list: seq<Diagnostic>)
    ensures list == Limited(Gathered(ext, issues, safe))
  {
    var g := Gathering([], {});
    g := AddHardware(g, ext.hardware, safe);
    g := AppendAll(g, ServiceCandidates("docker", ext.docker, safe));
    g := AddHermes(g, ext.hermes, safe);
    g := AppendAll(g, ServiceCandidates("lucky", ext.lucky, safe));
    g := AppendAll(g, ServiceCandidates("easytier", ext.easytier, safe));
    g := AddUnifi(g, ext.unifi, safe);
    g := AppendAll(g, BuildCandidates(ext.clientBuild, safe));
    g := AppendEach(g, issues, IssueOffers(safe));
    GatheredInSteps(ext, issues, safe);
    list := Limited(g.list);
  }

  // ---- Truncation

  function Severity(status: Status): nat
  {
    match status
    case Degraded => 0
    case Unavailable => 1
    case Stale => 1
    case Partial => 2
    case Available => 4
    case _ => 3
  }

  predicate NotLessSevere(a: Diagnostic, b: Diagnostic) { Severity(a.status) <= Severity(b.status) }

  function Marker(observed: nat, displayed: nat): Diagnostic
  {
    Diagnostic("collection_diagnostics", "collection_diagnostics", Partial, "diagnostics_truncated", "collection_diagnostics",
               "Collection diagnostics were truncated", "server", "collection_diagnostics", observed, displayed)
  }

  function Ordered(list: seq<Diagnostic>): (r: seq<Diagnostic>)
    ensures |r| == |list|
  {
    SortMultiset(list, NotLessSevere);
    StableSort(list, NotLessSevere)
  }

  function Limited(list: seq<Diagnostic>): (r: seq<Diagnostic>)
    ensures |r| == if |list| <= MAX_DIAGNOSTICS then |list| else MAX_DIAGNOSTICS
  {
    if |list| <= MAX_DIAGNOSTICS then list
    else Ordered(list)[..MAX_DIAGNOSTICS - 1] + [Marker(|list|, MAX_DIAGNOSTICS - 1)]
  }

  ghost function Kept(list: seq<Diagnostic>): seq<Diagnostic>
  {
    if |list| <= MAX_DIAGNOSTICS then list else Limited(list)[..MAX_DIAGNOSTICS - 1]
  }

  ghost function Dropped(list: seq<Diagnostic>): seq<Diagnostic>
  {
    if |list| <= MAX_DIAGNOSTICS then [] else Ordered(list)[MAX_DIAGNOSTICS - 1..]
  }

  lemma OrderedIsSorted(list: seq<Diagnostic>)
    ensures multiset(Ordered(list)) == multiset(list)
    ensures Sorted(Ordered(list), NotLessSevere)
    ensures forall d :: d in Ordered(list) <==> d in list
  {
    SortMultiset(list, NotLessSevere);
    SortSorted(list, NotLessSevere);
    SortMembers(list, NotLessSevere);
  }

  /** Nothing is lost or invented, the counts add up, and no dropped entry is more severe than a shown one. */
  lemma TruncationConserves(list: seq<Diagnostic>)
    ensures |Limited(list)| <= MAX_DIAGNOSTICS
    ensures multiset(Kept(list)) + multiset(Dropped(list)) == multiset(list)
    ensures |list| > MAX_DIAGNOSTICS ==>
              var marker := Limited(list)[MAX_DIAGNOSTICS - 1];
              marker == Marker(|list|, MAX_DIAGNOSTICS - 1) && marker.observed == marker.displayed + |Dropped(list)| &&
              marker.displayed == |Kept(list)|
    ensures forall k, d :: k in Kept(list) && d in Dropped(list) ==> Severity(k.status) <= Severity(d.status)
  {
    if |list| > MAX_DIAGNOSTICS {
      OrderedIsSorted(list);
      assert Ordered(list) == Kept(list) + Dropped(list);
    }
  }

  /** Entries of one severity keep their order, and those shown are the first of it. */
  lemma TruncationKeepsOrder(list: seq<Diagnostic>, severity: nat)
    ensures var same := (d: Diagnostic) => Severity(d.status) == severity;
            Filter(Kept(list), same) + Filter(Dropped(list), same) == Filter(list, same)
  {
    var same := (d: Diagnostic) => Severity(d.status) == severity;
    if |list| > MAX_DIAGNOSTICS {
      SortStable(list, NotLessSevere, same);
      FilterAppend(Kept(list), Dropped(list), same);
      assert Ordered(list) == Kept(list) + Dropped(list);
    } else {
      assert Filter(list, same) + [] == Filter(list, same);
    }
  }

  ghost predicate HasDegraded(list: seq<Diagnostic>) { exists d :: d in list && d.status == Degraded }

  /** Truncation neither hides nor invents the degraded state. */
  lemma TruncationKeepsDegraded(list: seq<Diagnostic>)
    ensures HasDegraded(Limited(list)) <==> HasDegraded(list)
  {
    if |list| > MAX_DIAGNOSTICS {
      OrderedIsSorted(list);
      var ordered, limited := Ordered(list), Limited(list);
      assert limited[0] == ordered[0] && limited[0] in limited;
      if d :| d in list && d.status == Degraded {
        var i :| 0 <= i < |ordered| && ordered[i] == d;
        assert i > 0 ==> NotLessSevere(ordered[0], ordered[i]);
      }
      if d :| d in limited && d.status == Degraded {
        var i :| 0 <= i < |limited| && limited[i] == d;
        assert i < MAX_DIAGNOSTICS - 1 && limited[i] == ordered[i];
      }
    }
  }

  // ---- What the gathered list says

  lemma {:induction false} AllOfMember<T(!new)>(items: seq<T>, f: T -> seq<Diagnostic>, d: Diagnostic)
    ensures d in AllOf(items, f) <==> exists x :: x in items && d in f(x)
    decreases |items|
  {
    if items != [] {
      var front, last := items[..|items| - 1], items[|items| - 1];
      assert items == front + [last];
      AllOfMember(front, f, d);
      assert last in items;
      if x :| x in front && d in f(x) { assert x in items; }
      if x :| x in items && d in f(x) { assert x in front || x == last; }
    }
  }

  /** A named candidate of the degraded status. */
  ghost predicate Degrades(offered: seq<Diagnostic>) { exists d :: d in offered && Named(d) && d.status == Degraded }

  lemma DegradesAppend(a: seq<Diagnostic>, b: seq<Diagnostic>)
    ensures Degrades(a + b) <==> Degrades(a) || Degrades(b)
  {
    if d :| d in a && Named(d) && d.status == Degraded { assert d in a + b; }
    if d :| d in b && Named(d) && d.status == Degraded { assert d in a + b; }
    if d :| d in a + b && Named(d) && d.status == Degraded { assert d in a || d in b; }
  }

  lemma DegradesOne(d: Diagnostic)
    ensures Degrades([d]) <==> Named(d) && d.status == Degraded
  {
    assert d in [d];
  }

  lemma DegradesEach<T(!new)>(items: seq<T>, f: T -> seq<Diagnostic>)
    ensures Degrades(AllOf(items, f)) <==> exists x :: x in items && Degrades(f(x))
  {
    if d :| d in AllOf(items, f) && Named(d) && d.status == Degraded {
      AllOfMember(items, f, d);
      var x :| x in items && d in f(x);
      assert Degrades(f(x));
    }
    if x :| x in items && Degrades(f(x)) {
      var d :| d in f(x) && Named(d) && d.status == Degraded;
      AllOfMember(items, f, d);
    }
  }

  lemma GatheredDegrades(offered: seq<Diagnostic>)
    ensures HasDegraded(AddAll([], offered)) <==> Degrades(offered)
  {
    AddAllIs(offered);
    var list := AddAll([], offered);
    if d :| d in offered && Named(d) && d.status == Degraded {
      assert KeyOf(d) in Keys(list);
      var e :| e in list && KeyOf(e) == KeyOf(d);
      assert e.status == Degraded;
    }
  }

  // ---- The degraded flag of the device

  predicate UsableFallback(d: Disk)
  {
    FallbackObservation(d) && d.smart == Passed && d.error.Some? && d.error.value.code == NO_NATIVE_STATUS
  }

  predicate Excused(d: Disk)
  {
    UsableFallback(d) || d.collection == "healthy" || (d.collection == "unsupported" && d.error.None?)
  }

  predicate Faulty(d: Disk) { d.smart == Failed || !Excused(d) }

  predicate OnlyFallback(s: Storage)
  {
    && s.error.Some? && (s.error.value.code == NO_NATIVE_STATUS || s.error.value.code == "partial_failure")
    && (forall d :: d in s.disks ==> Excused(d)) && (exists d :: d in s.disks && UsableFallback(d))
    && (forall f :: f in s.filesystems ==> f.collection == "healthy")
  }

  predicate Loud(e: Option<Error>)
  {
    e.Some? && e.value.code != "not_reported" && e.value.code != "not_configured" && e.value.code != "not_installed"
  }

  predicate LoudService(s: Option<Service>) { s.Some? && Loud(s.value.error) }

  predicate StorageFault(s: Storage)
  {
    (!OnlyFallback(s) && Loud(s.error)) || exists d :: d in s.disks && Faulty(d)
  }

  predicate HardwareFault(h: Hardware) { Loud(h.error) || (h.storage.Some? && StorageFault(h.storage.value)) }

  predicate BusinessError(ext: Extension)
  {
    || (ext.hardware.Some? && HardwareFault(ext.hardware.value))
    || LoudService(ext.docker) || (ext.hermes.Some? && Loud(ext.hermes.value.error))
    || LoudService(ext.lucky) || LoudService(ext.easytier)
  }

  method StorageHasOnlyFallback(s: Storage) returns (r: bool)
    ensures r <==> OnlyFallback(s)
  {
    if s.error.None? || (s.error.value.code != NO_NATIVE_STATUS && s.error.value.code != "partial_failure") { return false; }
    var hasFallback := false;
    for i := 0 to |s.disks|
      invariant forall d :: d in s.disks[..i] ==> Excused(d)
      invariant hasFallback <==> exists d :: d in s.disks[..i] && UsableFallback(d)
    {
      var disk := s.disks[i];
      assert s.disks[..i + 1] == s.disks[..i] + [disk] && disk in s.disks && disk in s.disks[..i + 1];
      if UsableFallback(disk) { hasFallback := true; }
      else if disk.collection == "healthy" { }
      else if disk.collection == "unsupported" && disk.error.None? { }
      else { return false; }
    }
    assert s.disks[..|s.disks|] == s.disks;
    for i := 0 to |s.filesystems|
      invariant forall f :: f in s.filesystems[..i] ==> f.collection == "healthy"
    {
      assert s.filesystems[..i + 1] == s.filesystems[..i] + [s.filesystems[i]];
      if s.filesystems[i].collection != "healthy" { return false; }
    }
    assert s.filesystems[..|s.filesystems|] == s.filesystems;
    return hasFallback;
  }

  ghost predicate AnyLoud(errors: seq<Option<Error>>) { exists i :: 0 <= i < |errors| && Loud(errors[i]) }

  method WithError(errors: seq<Option<Error>>, e: Option<Error>) returns (more: seq<Option<Error>>)
    ensures AnyLoud(more) <==> AnyLoud(errors) || Loud(e)
  {
    more := errors + [e];
    assert more[|errors|] == e;
    if i :| 0 <= i < |errors| && Loud(errors[i]) { assert more[i] == errors[i]; }
  }

  method FindLoud(errors: seq<Option<Error>>) returns (r: bool)
    ensures r <==> AnyLoud(errors)
  {
    for i := 0 to |errors|
      invariant forall j :: 0 <= j < i ==> !Loud(errors[j])
    {
      if Loud(errors[i]) { return true; }
    }
    return false;
  }

  method StorageErrors(s: Storage) returns (faultyDisk: bool, error: Option<Error>)
    ensures faultyDisk || Loud(error) <==> StorageFault(s)
  {
    var only := StorageHasOnlyFallback(s);
    error := if only then None else s.error;
    for i := 0 to |s.disks|
      invariant forall d :: d in s.disks[..i] ==> !Faulty(d)
    {
      var disk := s.disks[i];
      assert s.disks[..i + 1] == s.disks[..i] + [disk] && disk in s.disks;
      if disk.smart == Failed ||
         (disk.collection != "healthy" && !(disk.collection == "unsupported" && disk.error.None?) && !UsableFallback(disk))
      {
        return true, error;
      }
    }
    assert s.disks[..|s.disks|] == s.disks;
    faultyDisk := false;
  }

  method ExtensionHasBusinessError(ext: Extension) returns (r: bool)
    ensures r <==> BusinessError(ext)
  {
    var errors: seq<Option<Error>> := [];
    if ext.hardware.Some? {
      var hardware := ext.hardware.value;
      errors := WithError(errors, hardware.error);
      if hardware.storage.Some? {
        var faultyDisk, error := StorageErrors(hardware.storage.value);
        if faultyDisk { return true; }
        errors := WithError(errors, error);
      }
    }
    if ext.docker.Some? { errors := WithError(errors, ext.docker.value.error); }
    if ext.hermes.Some? { errors := WithError(errors, ext.hermes.value.error); }
    if ext.lucky.Some? { errors := WithError(errors, ext.lucky.value.error); }
    if ext.easytier.Some? { errors := WithError(errors, ext.easytier.value.error); }
    r := FindLoud(errors);
  }

  // ---- When a degraded entry is there

  predicate DiskExplains(d: Disk) { d.smart == Failed || (d.error.Some? && !UsableFallback(d)) }

  predicate StorageExplains(s: Storage)
  {
    Loud(s.error) || (exists d :: d in s.disks && DiskExplains(d)) || (exists f :: f in s.filesystems && f.error.Some?)
  }

  predicate HardwareExplains(h: Hardware) { Loud(h.error) || (h.storage.Some? && StorageExplains(h.storage.value)) }

  predicate HermesExplains(h: Hermes) { Loud(h.error) || exists p :: p in h.profiles && p.error.Some? }

  predicate ApiExplains(a: Api) { Loud(a.error) || exists e :: e in a.endpoints && (ApiStatus(e.status) == Degraded || e.error.Some?) }

  predicate UnifiExplains(u: Unifi) { Loud(u.error) || (u.api.Some? && ApiExplains(u.api.value)) }

  /** Something in the report leaves a degraded entry. */
  predicate Explained(ext: Extension, issues: seq<Issue>)
  {
    || (ext.hardware.Some? && HardwareExplains(ext.hardware.value))
    || LoudService(ext.docker) || (ext.hermes.Some? && HermesExplains(ext.hermes.value))
    || LoudService(ext.lucky) || LoudService(ext.easytier)
    || (ext.unifi.Some? && UnifiExplains(ext.unifi.value))
    || issues != []
  }

  lemma DomainDegrades(domain: string, component: string, present: bool, stale: bool, error: Option<Error>, field: string, safe: Filtering)
    requires domain != "" && component != ""
    ensures Degrades([DomainDiagnostic(domain, component, present, stale, error, field, safe)]) <==> present && Loud(error)
  {
    DegradesOne(DomainDiagnostic(domain, component, present, stale, error, field, safe));
  }

  lemma DiskDegrades(d: Disk, safe: Filtering)
    ensures Degrades(DiskDiagnostics(d, safe)) <==> DiskExplains(d)
  {
    var all := DiskDiagnostics(d, safe);
    if d.smart == Failed { assert all[|all| - 1].status == Degraded && Named(all[|all| - 1]); }
    else if d.error.Some? { assert all[0] in all && Named(all[0]); }
  }

  lemma EndpointDegrades(e: Endpoint, safe: Filtering)
    ensures Degrades(EndpointDiagnostics(e, safe)) <==> ApiStatus(e.status) == Degraded || e.error.Some?
  {
    var name := Or(safe(e.name), "unknown");
    var first := Blank("unifi", Or(safe("api.endpoint." + name), "api.endpoint.unknown"), ApiStatus(e.status)).(resource := name);
    var more := ErrorDiagnostics("unifi", "api.endpoint", name, "unifi.api.endpoints[].error", e.error, safe);
    DegradesOne(first);
    DegradesAppend([first], more);
    if e.error.Some? { DegradesOne(more[0]); }
  }

  lemma StorageDegrades(storage: Option<Storage>, safe: Filtering)
    ensures Degrades(StorageCandidates(storage, safe)) <==> storage.Some? && StorageExplains(storage.value)
  {
    if storage.None? {
      DomainDegrades("hardware", "storage", false, false, None, "", safe);
    } else {
      var s := storage.value;
      var d := [DomainDiagnostic("hardware", "storage", true, s.stale, s.error, "hardware.storage.error", safe)];
      var disks, filesystems := AllOf(s.disks, DiskOffers(safe)), AllOf(s.filesystems, FilesystemOffers(safe));
      DomainDegrades("hardware", "storage", true, s.stale, s.error, "hardware.storage.error", safe);
      DegradesAppend(d, disks);
      DegradesAppend(d + disks, filesystems);
      DegradesEach(s.disks, DiskOffers(safe));
      DegradesEach(s.filesystems, FilesystemOffers(safe));
      forall x: Disk ensures Degrades(DiskOffers(safe)(x)) <==> DiskExplains(x) { DiskDegrades(x, safe); }
      forall f: Filesystem ensures Degrades(FilesystemOffers(safe)(f)) <==> f.error.Some? {
        if f.error.Some? { DegradesOne(FilesystemOffers(safe)(f)[0]); }
      }
    }
  }

  lemma HardwareDegrades(hardware: Option<Hardware>, safe: Filtering)
    ensures Degrades(HardwareCandidates(hardware, safe)) <==> hardware.Some? && HardwareExplains(hardware.value)
  {
    if hardware.None? {
      DomainDegrades("hardware", "hardware", false, false, None, "", safe);
    } else {
      var h := hardware.value;
      DomainDegrades("hardware", "hardware", true, h.stale, h.error, "hardware.error", safe);
      DegradesAppend([DomainDiagnostic("hardware", "hardware", true, h.stale, h.error, "hardware.error", safe)],
                     StorageCandidates(h.storage, safe));
      StorageDegrades(h.storage, safe);
    }
  }

  lemma ServiceDegrades(domain: string, service: Option<Service>, safe: Filtering)
    requires domain != ""
    ensures Degrades(ServiceCandidates(domain, service, safe)) <==> LoudService(service)
  {
    if service.None? { DomainDegrades(domain, domain, false, false, None, "", safe); }
    else { DomainDegrades(domain, domain, true, service.value.stale, service.value.error, domain + ".error", safe); }
  }

  lemma HermesDegrades(hermes: Option<Hermes>, safe: Filtering)
    ensures Degrades(HermesCandidates(hermes, safe)) <==> hermes.Some? && HermesExplains(hermes.value)
  {
    if hermes.None? {
      DomainDegrades("hermes", "hermes", false, false, None, "", safe);
    } else {
      var h := hermes.value;
      DomainDegrades("hermes", "hermes", true, h.stale, h.error, "hermes.error", safe);
      DegradesAppend([DomainDiagnostic("hermes", "hermes", true, h.stale, h.error, "hermes.error", safe)],
                     AllOf(h.profiles, ProfileOffers(safe)));
      DegradesEach(h.profiles, ProfileOffers(safe));
      forall p: Profile ensures Degrades(ProfileOffers(safe)(p)) <==> p.error.Some? {
        if p.error.Some? { DegradesOne(ProfileOffers(safe)(p)[0]); }
      }
    }
  }

  lemma ApiDegrades(api: Option<Api>, safe: Filtering)
    ensures Degrades(ApiCandidates(api, safe)) <==> api.Some? && ApiExplains(api.value)
  {
    if api.None? {
      DomainDegrades("unifi", "api", false, false, None, "", safe);
    } else {
      var a := api.value;
      DomainDegrades("unifi", "api", true, false, a.error, "unifi.api.error", safe);
      DegradesAppend([DomainDiagnostic("unifi", "api", true, false, a.error, "unifi.api.error", safe)],
                     AllOf(a.endpoints, EndpointOffers(safe)));
      DegradesEach(a.endpoints, EndpointOffers(safe));
      forall e: Endpoint ensures Degrades(EndpointOffers(safe)(e)) <==> ApiStatus(e.status) == Degraded || e.error.Some? {
        EndpointDegrades(e, safe);
      }
    }
  }

  lemma UnifiDegrades(unifi: Option<Unifi>, safe: Filtering)
    ensures Degrades(UnifiCandidates(unifi, safe)) <==> unifi.Some? && UnifiExplains(unifi.value)
  {
    if unifi.None? {
      DomainDegrades("unifi", "unifi", false, false, None, "", safe);
    } else {
      var u := unifi.value;
      var status := UnifiStatus(u);
      var d := Blank("unifi", "unifi", status).(reason := if status == NotConfigured then NOT_CONFIGURED_REASON else "");
      var t := DomainDiagnostic("unifi", "transport", true, u.stale, u.error, "unifi.transport", safe);
      DegradesOne(d);
      DomainDegrades("unifi", "transport", true, u.stale, u.error, "unifi.transport", safe);
      DegradesAppend([d], [t]);
      DegradesAppend([d] + [t], ApiCandidates(u.api, safe));
      ApiDegrades(u.api, safe);
    }
  }

  lemma IssuesDegrade(issues: seq<Issue>, safe: Filtering)
    ensures Degrades(IssueCandidates(issues, safe)) <==> issues != []
  {
    DegradesEach(issues, IssueOffers(safe));
    forall i: Issue ensures Degrades(IssueOffers(safe)(i)) { DegradesOne(IssueDiagnostic(i, safe)); }
    if issues != [] { assert issues[0] in issues; }
  }

  lemma CandidatesDegrade(ext: Extension, issues: seq<Issue>, safe: Filtering)
    ensures Degrades(Candidates(ext, issues, safe)) <==> Explained(ext, issues)
  {
    var c1, c2 := HardwareCandidates(ext.hardware, safe), ServiceCandidates("docker", ext.docker, safe);
    var c3, c4 := HermesCandidates(ext.hermes, safe), ServiceCandidates("lucky", ext.lucky, safe);
    var c5, c6 := ServiceCandidates("easytier", ext.easytier, safe), UnifiCandidates(ext.unifi, safe);
    var c7, c8 := BuildCandidates(ext.clientBuild, safe), IssueCandidates(issues, safe);
    DegradesAppend(c1, c2);
    DegradesAppend(c1 + c2, c3);
    DegradesAppend(c1 + c2 + c3, c4);
    DegradesAppend(c1 + c2 + c3 + c4, c5);
    DegradesAppend(c1 + c2 + c3 + c4 + c5, c6);
    DegradesAppend(c1 + c2 + c3 + c4 + c5 + c6, c7);
    DegradesAppend(c1 + c2 + c3 + c4 + c5 + c6 + c7, c8);
    HardwareDegrades(ext.hardware, safe);
    ServiceDegrades("docker", ext.docker, safe);
    HermesDegrades(ext.hermes, safe);
    ServiceDegrades("lucky", ext.lucky, safe);
    ServiceDegrades("easytier", ext.easytier, safe);
    UnifiDegrades(ext.unifi, safe);
    DomainDegrades("client_build", "client_build", ext.clientBuild, false, None, "", safe);
    IssuesDegrade(issues, safe);
  }

  ghost function Built(ext: Extension, issues: seq<Issue>, safe: Filtering): seq<Diagnostic>
  {
    Limited(Gathered(ext, issues, safe))
  }

  /** The stored list has a degraded entry exactly when something in the report explains one, truncated or not. */
  lemma DegradedEntryIff(ext: Extension, issues: seq<Issue>, safe: Filtering)
    ensures HasDegraded(Built(ext, issues, safe)) <==> Explained(ext, issues)
  {
    CandidatesDegrade(ext, issues, safe);
    GatheredDegrades(Candidates(ext, issues, safe));
    TruncationKeepsDegraded(Gathered(ext, issues, safe));
  }

  /** The flag an ingest stores. */
  predicate DegradedFlag(ext: Extension, issues: seq<Issue>) { |issues| > 0 || BusinessError(ext) }

  /** Neither healthy nor unsupported, and without an error to show. */
  predicate Silent(d: Disk) { d.collection != "healthy" && d.collection != "unsupported" && d.error.None? }

  ghost predicate NoSilentDisk(ext: Extension)
  {
    ext.hardware.Some? && ext.hardware.value.storage.Some? ==>
      forall d :: d in ext.hardware.value.storage.value.disks ==> !Silent(d)
  }

  /** With no silent disk, a degraded device always shows why. */
  lemma DegradedIsExplained(ext: Extension, issues: seq<Issue>, safe: Filtering)
    requires NoSilentDisk(ext)
    ensures DegradedFlag(ext, issues) ==> HasDegraded(Built(ext, issues, safe))
  {
    DegradedEntryIff(ext, issues, safe);
  }

  const NOTHING := Extension(None, None, None, None, None, None, true)

  /**
   * Every silent disk whose health has not failed breaks it: alone in a report, it degrades the device
   * without a trace. Validation lets it through as unavailable, permission_denied or invalid_data.
   */
  lemma SilentDiskLeavesNoTrace(d: Disk, safe: Filtering)
    requires Silent(d) && d.smart != Failed
    ensures var ext := NOTHING.(hardware := Some(Hardware(false, None, Some(Storage(false, None, [d], [])))));
            DegradedFlag(ext, []) && !HasDegraded(Built(ext, [], safe))
  {
    var storage := Storage(false, None, [d], []);
    DegradedEntryIff(NOTHING.(hardware := Some(Hardware(false, None, Some(storage)))), [], safe);
    assert d in storage.disks && Faulty(d);
    assert StorageFault(storage) && !StorageExplains(storage);
  }

  // ---- No repeated key, the marker included

  /** An entry about the report itself: of another domain than the marker, and without counts. */
  predicate NotMarker(d: Diagnostic) { d.domain != "collection_diagnostics" && d.observed == d.displayed == 0 }

  ghost predicate NoMarker(offered: seq<Diagnostic>) { forall d :: d in offered ==> NotMarker(d) }

  lemma NoMarkerEach<T(!new)>(items: seq<T>, f: T -> seq<Diagnostic>)
    requires forall x :: x in items ==> NoMarker(f(x))
    ensures NoMarker(AllOf(items, f))
  {
    forall d | d in AllOf(items, f) ensures NotMarker(d) {
      AllOfMember(items, f, d);
      var x :| x in items && d in f(x);
      assert NoMarker(f(x));
    }
  }

  lemma NoMarkerAppend(a: seq<Diagnostic>, b: seq<Diagnostic>)
    requires NoMarker(a) && NoMarker(b)
    ensures NoMarker(a + b)
  {
  }

  lemma HardwareHasNoMarker(hardware: Option<Hardware>, safe: Filtering)
    ensures NoMarker(HardwareCandidates(hardware, safe))
  {
    if hardware.Some? {
      var h := hardware.value;
      StorageHasNoMarker(h.storage, safe);
      NoMarkerAppend([DomainDiagnostic("hardware", "hardware", true, h.stale, h.error, "hardware.error", safe)],
                     StorageCandidates(h.storage, safe));
    }
  }

  lemma StorageHasNoMarker(storage: Option<Storage>, safe: Filtering)
    ensures NoMarker(StorageCandidates(storage, safe))
  {
    if storage.Some? {
      var s := storage.value;
      var first := [DomainDiagnostic("hardware", "storage", true, s.stale, s.error, "hardware.storage.error", safe)];
      NoMarkerEach(s.disks, DiskOffers(safe));
      NoMarkerEach(s.filesystems, FilesystemOffers(safe));
      NoMarkerAppend(first, AllOf(s.disks, DiskOffers(safe)));
      NoMarkerAppend(first + AllOf(s.disks, DiskOffers(safe)), AllOf(s.filesystems, FilesystemOffers(safe)));
    }
  }

  lemma HermesHasNoMarker(hermes: Option<Hermes>, safe: Filtering)
    ensures NoMarker(HermesCandidates(hermes, safe))
  {
    if hermes.Some? {
      var h := hermes.value;
      NoMarkerEach(h.profiles, ProfileOffers(safe));
      NoMarkerAppend([DomainDiagnostic("hermes", "hermes", true, h.stale, h.error, "hermes.error", safe)],
                     AllOf(h.profiles, ProfileOffers(safe)));
    }
  }

  lemma ApiHasNoMarker(api: Option<Api>, safe: Filtering)
    ensures NoMarker(ApiCandidates(api, safe))
  {
    if api.Some? {
      NoMarkerEach(api.value.endpoints, EndpointOffers(safe));
      NoMarkerAppend([DomainDiagnostic("unifi", "api", true, false, api.value.error, "unifi.api.error", safe)],
                     AllOf(api.value.endpoints, EndpointOffers(safe)));
    }
  }

  lemma UnifiHasNoMarker(unifi: Option<Unifi>, safe: Filtering)
    ensures NoMarker(UnifiCandidates(unifi, safe))
  {
    if unifi.Some? {
      var u := unifi.value;
      var status := UnifiStatus(u);
      var d := Blank("unifi", "unifi", status).(reason := if status == NotConfigured then NOT_CONFIGURED_REASON else "");
      var t := DomainDiagnostic("unifi", "transport", true, u.stale, u.error, "unifi.transport", safe);
      ApiHasNoMarker(u.api, safe);
      NoMarkerAppend([d] + [t], ApiCandidates(u.api, safe));
    }
  }

  lemma ServiceHasNoMarker(domain: string, service: Option<Service>, safe: Filtering)
    requires domain in {"docker", "lucky", "easytier"}
    ensures NoMarker(ServiceCandidates(domain, service, safe))
  {
  }

  lemma BuildHasNoMarker(present: bool, safe: Filtering)
    ensures NoMarker(BuildCandidates(present, safe))
  {
  }

  lemma IssuesHaveNoMarker(issues: seq<Issue>, safe: Filtering)
    ensures NoMarker(IssueCandidates(issues, safe))
  {
    NoMarkerEach(issues, IssueOffers(safe));
  }

  lemma CandidatesHaveNoMarker(ext: Extension, issues: seq<Issue>, safe: Filtering)
    ensures NoMarker(Candidates(ext, issues, safe))
  {
    var c1, c2 := HardwareCandidates(ext.hardware, safe), ServiceCandidates("docker", ext.docker, safe);
    var c3, c4 := HermesCandidates(ext.hermes, safe), ServiceCandidates("lucky", ext.lucky, safe);
    var c5, c6 := ServiceCandidates("easytier", ext.easytier, safe), UnifiCandidates(ext.unifi, safe);
    var c7, c8 := BuildCandidates(ext.clientBuild, safe), IssueCandidates(issues, safe);
    HardwareHasNoMarker(ext.hardware, safe);
    ServiceHasNoMarker("docker", ext.docker, safe);
    HermesHasNoMarker(ext.hermes, safe);
    ServiceHasNoMarker("lucky", ext.lucky, safe);
    ServiceHasNoMarker("easytier", ext.easytier, safe);
    UnifiHasNoMarker(ext.unifi, safe);
    BuildHasNoMarker(ext.clientBuild, safe);
    IssuesHaveNoMarker(issues, safe);
    NoMarkerInAny(c1, c2, c3, c4, c5, c6, c7, c8);
  }

  lemma NoMarkerInAny(c1: seq<Diagnostic>, c2: seq<Diagnostic>, c3: seq<Diagnostic>, c4: seq<Diagnostic>,
                      c5: seq<Diagnostic>, c6: seq<Diagnostic>, c7: seq<Diagnostic>, c8: seq<Diagnostic>)
    requires NoMarker(c1) && NoMarker(c2) && NoMarker(c3) && NoMarker(c4)
    requires NoMarker(c5) && NoMarker(c6) && NoMarker(c7) && NoMarker(c8)
    ensures NoMarker(c1 + c2 + c3 + c4 + c5 + c6 + c7 + c8)
  {
    NoMarkerAppend(c1 + c2 + c3, c4);
    NoMarkerAppend(c1 + c2 + c3 + c4 + c5 + c6 + c7, c8);
  }

  lemma LimitedHasNoRepeats(list: seq<Diagnostic>)
    requires NoRepeats(list) && NoMarker(list)
    ensures NoRepeats(Limited(list))
  {
    if |list| > MAX_DIAGNOSTICS {
      OrderedIsSorted(list);
      PermutationDistinct(list, Ordered(list), KeyOf);
      var marker := Marker(|list|, MAX_DIAGNOSTICS - 1);
      forall i | 0 <= i < MAX_DIAGNOSTICS - 1 ensures KeyOf(Ordered(list)[i]) != KeyOf(marker) {
        assert Ordered(list)[i] in list;
      }
    }
  }

  /** The stored list repeats no key and has at most 64 entries. */
  lemma BuiltHasNoRepeats(ext: Extension, issues: seq<Issue>, safe: Filtering)
    ensures NoRepeats(Built(ext, issues, safe)) && |Built(ext, issues, safe)| <= MAX_DIAGNOSTICS
  {
    AddAllIs(Candidates(ext, issues, safe));
    CandidatesHaveNoMarker(ext, issues, safe);
    LimitedHasNoRepeats(Gathered(ext, issues, safe));
  }

  /** The server's own check of the marker's counts, made when the state is persisted. */
  predicate MarkerCountsOk(d: Diagnostic)
  {
    d.observed != 0 || d.displayed != 0 ==>
      !(d.code != "diagnostics_truncated" || d.observed <= d.displayed || d.observed > 4096)
  }

  // ---- A validated report gathers few enough entries

  const MAX_DISKS := 64
  const MAX_FILESYSTEMS := 128
  const MAX_PROFILES := 64
  const MAX_ENDPOINTS := 24

  /** One from the version, and one at most for each other domain. */
  const MAX_DECODE_ISSUES := 8

  /** The sizes that the validation of an incoming report lets through. */
  predicate WithinBounds(ext: Extension, issues: seq<Issue>)
  {
    && |issues| <= MAX_DECODE_ISSUES
    && (ext.hardware.Some? && ext.hardware.value.storage.Some? ==>
         |ext.hardware.value.storage.value.disks| <= MAX_DISKS && |ext.hardware.value.storage.value.filesystems| <= MAX_FILESYSTEMS)
    && (ext.hermes.Some? ==> |ext.hermes.value.profiles| <= MAX_PROFILES)
    && (ext.unifi.Some? && ext.unifi.value.api.Some? ==> |ext.unifi.value.api.value.endpoints| <= MAX_ENDPOINTS)
  }

  lemma {:induction false} AllOfSize<T>(items: seq<T>, f: T -> seq<Diagnostic>, n: nat)
    requires forall x :: |f(x)| <= n
    ensures |AllOf(items, f)| <= n * |items|
    decreases |items|
  {
    if items != [] {
      AllOfSize(items[..|items| - 1], f, n);
      assert n * |items| == n * (|items| - 1) + n;
    }
  }

  lemma HardwareSize(hardware: Option<Hardware>, safe: Filtering)
    requires hardware.Some? && hardware.value.storage.Some? ==>
               |hardware.value.storage.value.disks| <= MAX_DISKS && |hardware.value.storage.value.filesystems| <= MAX_FILESYSTEMS
    ensures |HardwareCandidates(hardware, safe)| <= 2 + 3 * MAX_DISKS + MAX_FILESYSTEMS
  {
    if hardware.Some? && hardware.value.storage.Some? {
      var s := hardware.value.storage.value;
      AllOfSize(s.disks, DiskOffers(safe), 3);
      AllOfSize(s.filesystems, FilesystemOffers(safe), 1);
    }
  }

  lemma HermesSize(hermes: Option<Hermes>, safe: Filtering)
    requires hermes.Some? ==> |hermes.value.profiles| <= MAX_PROFILES
    ensures |HermesCandidates(hermes, safe)| <= 1 + MAX_PROFILES
  {
    if hermes.Some? { AllOfSize(hermes.value.profiles, ProfileOffers(safe), 1); }
  }

  lemma UnifiSize(unifi: Option<Unifi>, safe: Filtering)
    requires unifi.Some? && unifi.value.api.Some? ==> |unifi.value.api.value.endpoints| <= MAX_ENDPOINTS
    ensures |UnifiCandidates(unifi, safe)| <= 3 + 2 * MAX_ENDPOINTS
  {
    if unifi.Some? && unifi.value.api.Some? { AllOfSize(unifi.value.api.value.endpoints, EndpointOffers(safe), 2); }
  }

  lemma {:induction false} AddAllSize(list: seq<Diagnostic>, more: seq<Diagnostic>)
    ensures |AddAll(list, more)| <= |list| + |more|
    decreases |more|
  {
    if more != [] { AddAllSize(list, more[..|more| - 1]); }
  }

  const MAX_GATHERED := 2 + 3 * MAX_DISKS + MAX_FILESYSTEMS + 1 + MAX_PROFILES + 3 + 2 * MAX_ENDPOINTS + 4 + MAX_DECODE_ISSUES

  lemma GatheredSize(ext: Extension, issues: seq<Issue>, safe: Filtering)
    requires WithinBounds(ext, issues)
    ensures |Gathered(ext, issues, safe)| <= MAX_GATHERED
  {
    HardwareSize(ext.hardware, safe);
    HermesSize(ext.hermes, safe);
    UnifiSize(ext.unifi, safe);
    AllOfSize(issues, IssueOffers(safe), 1);
    AddAllSize([], Candidates(ext, issues, safe));
  }

  /** A list passes the check of its counts exactly when no more than 4096 entries were gathered. */
  lemma MarkerPassesExactly(list: seq<Diagnostic>)
    requires NoMarker(list)
    ensures (forall d :: d in Limited(list) ==> MarkerCountsOk(d)) <==> |list| <= 4096
  {
    if |list| > MAX_DIAGNOSTICS {
      OrderedIsSorted(list);
      var limited := Limited(list);
      var marker := limited[MAX_DIAGNOSTICS - 1];
      assert marker in limited;
      forall d | d in limited ensures d == marker || d in list {
        if d != marker { assert d in Ordered(list); }
      }
    }
  }

  /** The diagnostics of every validated report pass the check made when they are persisted. */
  lemma MarkerAlwaysPasses(ext: Extension, issues: seq<Issue>, safe: Filtering)
    requires WithinBounds(ext, issues)
    ensures forall d :: d in Built(ext, issues, safe) ==> MarkerCountsOk(d)
  {
    AddAllIs(Candidates(ext, issues, safe));
    CandidatesHaveNoMarker(ext, issues, safe);
    GatheredSize(ext, issues, safe);
    MarkerPassesExactly(Gathered(ext, issues, safe));
  }
}
