/** The collector's aggregates over EasyTier peers, routes, connectors and metric samples. */
module EasyTierCollector {
  import opened Text
  import opened Sequences
  import Counts = EasyTierCounts

  const MAX_ITEMS := 16
  const MAX_STATS_ITEMS := 64
  const MAX_SOURCE_ITEMS := 256

  function Observed<T>(value: seq<T>): seq<T>
  {
    if |value| <= MAX_SOURCE_ITEMS then value else value[..MAX_SOURCE_ITEMS]
  }

  function Cut<T>(rows: seq<T>, limit: nat): seq<T> { if |rows| <= limit then rows else rows[..limit] }

  // ---- Text of a peer row

  function LowerChar(c: char): char { if 'A' <= c <= 'Z' then 'a' + (c - 'A') else c }

  function Lower(s: string): string { if s == "" then "" else [LowerChar(s[0])] + Lower(s[1..]) }

  function SplitCommas(s: string): seq<string>
  {
    if s == "" then [""]
    else
      var rest := SplitCommas(s[1..]);
      if s[0] == ',' then [""] + rest
      else if rest == [] then [[s[0]]]
      else [[s[0]] + rest[0]] + rest[1..]
  }

  predicate Starts(s: string, p: string) { |p| <= |s| && s[..|p|] == p }

  predicate Contains(s: string, p: string) { exists i :: 0 <= i <= |s| && Starts(s[i..], p) }

  datatype Transport = Udp | Tcp | Quic | Wg | Wss | NoTransport

  predicate Named(text: string, name: string) { text == name || Starts(text, name + ":") || Starts(text, name + "//") }

  function TransportOf(value: string): Transport
  {
    var text := Lower(Strip(value));
    if Named(text, "udp") then Udp
    else if Named(text, "tcp") then Tcp
    else if Named(text, "quic") then Quic
    else if Named(text, "wg") then Wg
    else if Named(text, "wss") then Wss
    else NoTransport
  }

  /** A peer row after the text filter; `shown` stands for its other displayed fields. */
  datatype Peer = Peer(id: Option<string>, cost: Option<string>, tunnels: Option<string>, shown: string)

  datatype Path = DirectPath | RelayedPath | UnknownPath

  function CostOf(p: Peer): string { Lower(if p.cost.Some? then p.cost.value else "") }

  predicate Remote(p: Peer, own: Option<string>)
  {
    !((own.Some? && p.id == own) || CostOf(p) == "local")
  }

  function PathOf(p: Peer): Path
  {
    if CostOf(p) == "p2p" then DirectPath else if Contains(CostOf(p), "relay") then RelayedPath else UnknownPath
  }

  predicate Plain(c: char) { 'a' <= c <= 'z' || '0' <= c <= '9' }

  predicate TunnelName(s: string) { 1 <= |s| <= 16 && forall i :: 0 <= i < |s| ==> Plain(s[i]) }

  /** The accepted tunnel names, in order and without repeats. */
  function Tunnels(pieces: seq<string>): seq<string>
  {
    if pieces == [] then []
    else
      var before, item := Tunnels(pieces[..|pieces| - 1]), Lower(Strip(pieces[|pieces| - 1]));
      if TunnelName(item) && item !in before then before + [item] else before
  }

  function TunnelsOf(p: Peer): seq<string>
  {
    if p.tunnels.None? || p.tunnels.value == "" then [] else Tunnels(SplitCommas(p.tunnels.value))
  }

  function FirstTransport(tunnels: seq<string>): Transport { TransportOf(if tunnels == [] then "" else tunnels[0]) }

  predicate EndsIn6(s: string) { s != "" && s[|s| - 1] == '6' }

  predicate AnyIpv6(tunnels: seq<string>) { exists i :: 0 <= i < |tunnels| && EndsIn6(tunnels[i]) }

  /** Path, transport and family are all known. */
  predicate Classified(p: Peer)
  {
    PathOf(p) != UnknownPath && FirstTransport(TunnelsOf(p)) != NoTransport && AnyIpv6(TunnelsOf(p))
  }

  predicate Ipv6UdpDirect(p: Peer)
  {
    PathOf(p) == DirectPath && FirstTransport(TunnelsOf(p)) == Udp && AnyIpv6(TunnelsOf(p))
  }

  // ---- What is read from a peer row

  predicate Upper(c: char) { 65 <= c as int <= 90 }

  /** Lower case: every capital letter moves by 32, every other character stays. */
  lemma {:induction false} LowerExactly(s: string)
    ensures |Lower(s)| == |s|
    ensures forall i :: 0 <= i < |s| ==> Lower(s)[i] as int == s[i] as int + if Upper(s[i]) then 32 else 0
  {
    if s != "" { LowerExactly(s[1..]); }
  }

  function Joined(pieces: seq<string>): string
  {
    if pieces == [] then "" else if |pieces| == 1 then pieces[0] else pieces[0] + "," + Joined(pieces[1..])
  }

  /** Splitting is undone by joining, and leaves no comma in any piece. */
  lemma {:induction false} SplitExactly(s: string)
    ensures SplitCommas(s) != [] && Joined(SplitCommas(s)) == s
    ensures forall p :: p in SplitCommas(s) ==> ',' !in p
  {
    if s != "" {
      SplitExactly(s[1..]);
      var rest := SplitCommas(s[1..]);
      assert s == [s[0]] + s[1..];
      if s[0] == ',' {
        assert ([""] + rest)[1..] == rest && Joined([""] + rest) == "" + "," + Joined(rest);
      } else {
        assert SplitCommas(s) == [[s[0]] + rest[0]] + rest[1..];
        assert rest[0] in rest;
        assert forall p :: p in rest[1..] ==> p in rest;
        JoinedFirst([s[0]], rest);
      }
    }
  }

  lemma JoinedFirst(more: string, rest: seq<string>)
    requires rest != []
    ensures Joined([more + rest[0]] + rest[1..]) == more + Joined(rest)
  {
    var longer := [more + rest[0]] + rest[1..];
    assert longer[1..] == rest[1..];
    if |rest| > 1 { assert (more + rest[0]) + "," + Joined(rest[1..]) == more + (rest[0] + "," + Joined(rest[1..])); }
  }

  ghost predicate HasAt(s: string, p: string, i: nat) { i + |p| <= |s| && s[i..i + |p|] == p }

  lemma ContainsExactly(s: string, p: string)
    ensures Contains(s, p) <==> exists i :: HasAt(s, p, i)
  {
    if Contains(s, p) {
      var i :| 0 <= i <= |s| && Starts(s[i..], p);
      assert s[i..][..|p|] == s[i..i + |p|];
      assert HasAt(s, p, i);
    }
    if i: nat :| HasAt(s, p, i) {
      assert s[i..][..|p|] == s[i..i + |p|];
      assert Starts(s[i..], p);
    }
  }

  /** A direct path costs "p2p" in any case, a relayed one mentions a relay; a local peer or the node itself is not remote. */
  lemma PathExactly(p: Peer, own: Option<string>)
    ensures var cost := Lower(if p.cost.Some? then p.cost.value else "");
            && (PathOf(p) == DirectPath <==> cost == "p2p")
            && (PathOf(p) == RelayedPath <==> exists i :: HasAt(cost, "relay", i))
            && (Remote(p, own) <==> cost != "local" && (own.None? || p.id != own))
  {
    ContainsExactly(CostOf(p), "relay");
    if CostOf(p) == "p2p" {
      forall i: nat ensures !HasAt("p2p", "relay", i) {}
    }
  }

  /** The text is the name alone, or the name followed by a colon or two slashes. */
  ghost predicate NameLeads(text: string, name: string)
  {
    |name| <= |text| && text[..|name|] == name
    && (|text| == |name| || text[|name|] == ':' || (|text| >= |name| + 2 && text[|name|] == '/' && text[|name| + 1] == '/'))
  }

  lemma NamedExactly(text: string, name: string)
    ensures Named(text, name) <==> NameLeads(text, name)
  {
    if Starts(text, name + ":") { assert text[..|name|] == (name + ":")[..|name|] == name && text[|name|] == (name + ":")[|name|]; }
    if Starts(text, name + "//") {
      var n := |name|;
      assert text[..n] == (name + "//")[..n] == name;
      assert text[n] == (name + "//")[n] && text[n + 1] == (name + "//")[n + 1];
    }
    if NameLeads(text, name) {
      var n := |name|;
      if |text| == n {
        assert text == text[..n];
      } else if text[n] == ':' {
        assert text[..n + 1] == text[..n] + [text[n]] == name + ":";
      } else {
        assert text[..n + 2] == text[..n] + [text[n]] + [text[n + 1]] == name + "//";
      }
    }
  }

  const TRANSPORTS: map<string, Transport> := map["udp" := Udp, "tcp" := Tcp, "quic" := Quic, "wg" := Wg, "wss" := Wss]

  lemma OneNameLeads(text: string, a: string, b: string)
    requires a in TRANSPORTS && b in TRANSPORTS && NameLeads(text, a) && NameLeads(text, b)
    ensures a == b
  {
    assert a[0] == text[..|a|][0] == text[0] == text[..|b|][0] == b[0];
    assert a[1] == text[..|a|][1] == text[1] == text[..|b|][1] == b[1];
  }

  /** A text names a transport exactly if, in lower case and stripped, the transport's name leads it. */
  lemma TransportExactly(value: string, name: string)
    requires name in TRANSPORTS
    ensures TransportOf(value) == TRANSPORTS[name] <==> NameLeads(Lower(Strip(value)), name)
    ensures TransportOf(value) == NoTransport <==> forall n :: n in TRANSPORTS ==> !NameLeads(Lower(Strip(value)), n)
  {
    var text := Lower(Strip(value));
    forall n | n in TRANSPORTS ensures Named(text, n) <==> NameLeads(text, n) { NamedExactly(text, n); }
    forall a, b | a in TRANSPORTS && b in TRANSPORTS && NameLeads(text, a) && NameLeads(text, b) ensures a == b { OneNameLeads(text, a, b); }
  }

  predicate Names(piece: string, t: string) { Lower(Strip(piece)) == t && TunnelName(t) }

  lemma TunnelsStep(pieces: seq<string>, t: string)
    requires pieces != []
    ensures t in Tunnels(pieces) <==> t in Tunnels(pieces[..|pieces| - 1]) || Names(pieces[|pieces| - 1], t)
  {
  }

  /** The tunnels are the pieces that are names of up to 16 lower-case letters and digits. */
  lemma {:induction false} TunnelsExactly(pieces: seq<string>, t: string)
    ensures t in Tunnels(pieces) <==> exists i :: 0 <= i < |pieces| && Names(pieces[i], t)
    decreases |pieces|
  {
    if pieces != [] {
      var front, last := pieces[..|pieces| - 1], pieces[|pieces| - 1];
      TunnelsStep(pieces, t);
      TunnelsExactly(front, t);
      if i :| 0 <= i < |front| && Names(front[i], t) { assert Names(pieces[i], t); }
      if i :| 0 <= i < |pieces| && Names(pieces[i], t) { assert i < |front| ==> Names(front[i], t); }
      assert pieces[|front|] == last;
    }
  }

  /** None comes twice, and they stand in the order in which they come first. */
  lemma {:induction false} TunnelsInOrder(pieces: seq<string>, n: nat)
    requires n <= |pieces|
    ensures Tunnels(pieces[..n]) <= Tunnels(pieces)
    ensures forall i, j :: 0 <= i < j < |Tunnels(pieces)| ==> Tunnels(pieces)[i] != Tunnels(pieces)[j]
    decreases |pieces|
  {
    TunnelsAreNames(pieces);
    if n == |pieces| {
      assert pieces[..n] == pieces;
    } else {
      var front := pieces[..|pieces| - 1];
      TunnelsInOrder(front, n);
      assert front[..n] == pieces[..n];
    }
  }

  lemma TunnelNameExactly(s: string)
    ensures TunnelName(s) <==> 0 < |s| < 17 && forall i :: 0 <= i < |s| ==> 97 <= s[i] as int <= 122 || 48 <= s[i] as int <= 57
  {
  }

  /** What is observed, and what is shown of it, is the front of the list: all of a short one, 256 and as many as fit of a long one. */
  lemma FrontOfList<T>(value: seq<T>, limit: nat)
    ensures Observed(value) <= value && |Observed(value)| == (if |value| < 256 then |value| else 256)
    ensures Cut(value, limit) <= value && |Cut(value, limit)| == (if |value| < limit then |value| else limit)
  {
  }

  // ---- Peers

  datatype PeerRow = PeerRow(peer: Peer, tunnels: seq<string>, path: Path, transport: Transport, ipv6: bool)

  function RowOf(p: Peer): PeerRow
  {
    PeerRow(p, TunnelsOf(p), PathOf(p), FirstTransport(TunnelsOf(p)), AnyIpv6(TunnelsOf(p)))
  }

  datatype PeerStats = PeerStats(total: nat, displayed: nat, truncated: bool, direct: nat, relay: nat, unknown: nat,
                                 ipv6UdpDirect: Option<bool>, items: seq<PeerRow>)

  ghost function Remotes(peers: seq<Peer>, own: Option<string>): seq<Peer> { Filter(peers, (p: Peer) => Remote(p, own)) }

  ghost function OnPath(peers: seq<Peer>, path: Path): seq<Peer> { Filter(peers, (p: Peer) => PathOf(p) == path) }

  ghost function Rows(peers: seq<Peer>): seq<PeerRow> { seq(|peers|, i requires 0 <= i < |peers| => RowOf(peers[i])) }

  /** The definition by quantifiers: unknown unless there are remote peers and all of them are classified. */
  ghost function Verdict(remotes: seq<Peer>): Option<bool>
  {
    if remotes == [] || !AllClassified(remotes) then None else Some(AnyIpv6UdpDirect(remotes))
  }

  ghost predicate AllClassified(peers: seq<Peer>) { forall p :: p in peers ==> Classified(p) }

  ghost predicate AnyIpv6UdpDirect(peers: seq<Peer>) { exists p :: p in peers && Ipv6UdpDirect(p) }

  lemma VerdictStep(peers: seq<Peer>, p: Peer)
    ensures AllClassified(peers + [p]) <==> AllClassified(peers) && Classified(p)
    ensures AnyIpv6UdpDirect(peers + [p]) <==> AnyIpv6UdpDirect(peers) || Ipv6UdpDirect(p)
  {
    assert forall q :: q in peers + [p] <==> q in peers || q == p;
    assert p in peers + [p];
  }

  ghost predicate SummaryOf(r: PeerStats, remotes: seq<Peer>)
  {
    && r.total == |remotes|
    && r.direct == |OnPath(remotes, DirectPath)|
    && r.relay == |OnPath(remotes, RelayedPath)|
    && r.unknown == |OnPath(remotes, UnknownPath)|
    && r.ipv6UdpDirect == Verdict(remotes)
    && r.items == Cut(Rows(remotes), MAX_ITEMS)
    && r.displayed == |r.items|
    && (r.truncated <==> r.displayed < r.total)
  }

  method ReadTunnels(p: Peer) returns (tunnels: seq<string>)
    ensures tunnels == TunnelsOf(p)
  {
    tunnels := [];
    if p.tunnels.None? || p.tunnels.value == "" { return; }
    var pieces := SplitCommas(p.tunnels.value);
    for i := 0 to |pieces|
      invariant tunnels == Tunnels(pieces[..i])
    {
      var item := Lower(Strip(pieces[i]));
      assert pieces[..i + 1][..i] == pieces[..i];
      if TunnelName(item) && item !in tunnels { tunnels := tunnels + [item]; }
    }
    assert pieces[..|pieces|] == pieces;
  }

  method ReadRow(p: Peer) returns (row: PeerRow)
    ensures row == RowOf(p)
    ensures Classified(p) <==> row.path != UnknownPath && row.transport != NoTransport && row.ipv6
    ensures Ipv6UdpDirect(p) <==> row.path == DirectPath && row.transport == Udp && row.ipv6
  {
    var tunnels := ReadTunnels(p);
    row := PeerRow(p, tunnels, PathOf(p), FirstTransport(tunnels), AnyIpv6(tunnels));
  }

  lemma RemotesStep(peers: seq<Peer>, own: Option<string>, i: nat)
    requires i < |peers|
    ensures Remotes(peers[..i + 1], own) == Remotes(peers[..i], own) + if Remote(peers[i], own) then [peers[i]] else []
  {
    FilterAppend(peers[..i], [peers[i]], (p: Peer) => Remote(p, own));
    assert peers[..i + 1] == peers[..i] + [peers[i]];
  }

  lemma OnPathStep(remotes: seq<Peer>, p: Peer, path: Path)
    ensures |OnPath(remotes + [p], path)| == |OnPath(remotes, path)| + if PathOf(p) == path then 1 else 0
  {
    FilterAppend(remotes, [p], (q: Peer) => PathOf(q) == path);
  }

  lemma RowsStep(remotes: seq<Peer>, p: Peer)
    ensures Cut(Rows(remotes + [p]), MAX_ITEMS) ==
            Cut(Rows(remotes), MAX_ITEMS) + if |Cut(Rows(remotes), MAX_ITEMS)| < MAX_ITEMS then [RowOf(p)] else []
  {
    assert Rows(remotes + [p]) == Rows(remotes) + [RowOf(p)];
  }

  method ApplyPeers(value: seq<Peer>, own: Option<string>) returns (r: PeerStats)
    ensures SummaryOf(r, Remotes(Observed(value), own))
  {
    var peers := Observed(value);
    var items: seq<PeerRow> := [];
    var total, direct, relay, unknown := 0, 0, 0, 0;
    var observable, found := true, false;
    ghost var remotes: seq<Peer> := [];
    for i := 0 to |peers|
      invariant remotes == Remotes(peers[..i], own)
      invariant total == |remotes| && items == Cut(Rows(remotes), MAX_ITEMS)
      invariant direct == |OnPath(remotes, DirectPath)| && relay == |OnPath(remotes, RelayedPath)|
      invariant unknown == |OnPath(remotes, UnknownPath)|
      invariant observable <==> AllClassified(remotes)
      invariant observable ==> (found <==> AnyIpv6UdpDirect(remotes))
    {
      var peer := peers[i];
      RemotesStep(peers, own, i);
      if (own.Some? && peer.id == own) || CostOf(peer) == "local" { continue; }
      var row := ReadRow(peer);
      RowsStep(remotes, peer);
      OnPathStep(remotes, peer, DirectPath);
      OnPathStep(remotes, peer, RelayedPath);
      OnPathStep(remotes, peer, UnknownPath);
      if |items| < MAX_ITEMS { items := items + [row]; }
      total := total + 1;
      if row.path == RelayedPath { relay := relay + 1; }
      else if row.path == DirectPath { direct := direct + 1; }
      else { unknown := unknown + 1; }
      VerdictStep(remotes, peer);
      remotes := remotes + [peer];
      if row.path == UnknownPath || row.transport == NoTransport || !row.ipv6 {
        observable := false;
      } else if row.path == DirectPath && row.transport == Udp && row.ipv6 {
        found := true;
      }
    }
    assert peers[..|peers|] == peers;
    var verdict := if total != 0 && observable then Some(found) else None;
    r := PeerStats(total, |items|, |items| < total, direct, relay, unknown, verdict, items);
  }

  lemma {:induction false} PathsPartition(peers: seq<Peer>)
    ensures |OnPath(peers, DirectPath)| + |OnPath(peers, RelayedPath)| + |OnPath(peers, UnknownPath)| == |peers|
  {
    if peers != [] { PathsPartition(peers[1..]); }
  }

  /** Every remote peer is on exactly one path. */
  lemma SummaryAddsUp(r: PeerStats, remotes: seq<Peer>)
    requires SummaryOf(r, remotes)
    ensures r.direct + r.relay + r.unknown == r.total
    ensures r.displayed <= MAX_ITEMS && r.displayed <= r.total
  {
    PathsPartition(remotes);
  }

  // ---- The order of the observations does not matter

  lemma FilterInsert<T>(before: seq<T>, x: T, after: seq<T>, p: T -> bool)
    ensures multiset(Filter(before + [x] + after, p)) ==
            multiset(Filter(before + after, p)) + if p(x) then multiset{x} else multiset{}
  {
    FilterAppend(before, after, p);
    FilterAppend(before + [x], after, p);
    FilterAppend(before, [x], p);
  }

  lemma RemoveOne<T>(x: T, rest: seq<T>, before: seq<T>, after: seq<T>)
    requires multiset([x] + rest) == multiset(before + [x] + after)
    ensures multiset(rest) == multiset(before + after)
  {
    assert multiset([x] + rest) == multiset{x} + multiset(rest);
    assert multiset(before + [x] + after) == multiset{x} + multiset(before + after);
    assert multiset(rest) == multiset([x] + rest) - multiset{x};
  }

  lemma {:induction false} FilterMultiset<T>(a: seq<T>, b: seq<T>, p: T -> bool)
    requires multiset(a) == multiset(b)
    ensures multiset(Filter(a, p)) == multiset(Filter(b, p))
  {
    if a == [] {
      assert |b| == |multiset(b)| == 0;
    } else {
      var x, rest := a[0], a[1..];
      assert x in multiset(b);
      var i :| 0 <= i < |b| && b[i] == x;
      var before, after := b[..i], b[i + 1..];
      assert a == [x] + rest && b == before + [x] + after;
      RemoveOne(x, rest, before, after);
      FilterMultiset(rest, before + after, p);
      FilterInsert(before, x, after, p);
      FilterAppend([x], rest, p);
    }
  }

  lemma FilterOfPermutation<T>(a: seq<T>, b: seq<T>, p: T -> bool)
    requires multiset(a) == multiset(b)
    ensures multiset(Filter(a, p)) == multiset(Filter(b, p)) && |Filter(a, p)| == |Filter(b, p)|
  {
    FilterMultiset(a, b, p);
    assert |Filter(a, p)| == |multiset(Filter(a, p))| == |multiset(Filter(b, p))| == |Filter(b, p)|;
  }

  lemma VerdictOfPermutation(a: seq<Peer>, b: seq<Peer>)
    requires multiset(a) == multiset(b)
    ensures Verdict(a) == Verdict(b)
  {
    assert |a| == |multiset(a)| == |multiset(b)| == |b|;
    forall p ensures p in a <==> p in b {
      assert p in a <==> p in multiset(a);
      assert p in b <==> p in multiset(b);
    }
  }

  /** Reordering the observed peers moves rows across the display cut and changes no aggregate. */
  lemma AggregatesIgnoreOrder(a: seq<Peer>, b: seq<Peer>, own: Option<string>, ra: PeerStats, rb: PeerStats)
    requires multiset(a) == multiset(b) && |a| <= MAX_SOURCE_ITEMS
    requires SummaryOf(ra, Remotes(Observed(a), own)) && SummaryOf(rb, Remotes(Observed(b), own))
    ensures ra == rb.(items := ra.items)
  {
    assert |a| == |multiset(a)| == |multiset(b)| == |b|;
    var xs, ys := Remotes(a, own), Remotes(b, own);
    FilterOfPermutation(a, b, (p: Peer) => Remote(p, own));
    FilterOfPermutation(xs, ys, (p: Peer) => PathOf(p) == DirectPath);
    FilterOfPermutation(xs, ys, (p: Peer) => PathOf(p) == RelayedPath);
    FilterOfPermutation(xs, ys, (p: Peer) => PathOf(p) == UnknownPath);
    VerdictOfPermutation(xs, ys);
  }

  // ---- What a classified peer must report

  lemma {:induction false} TunnelsAreNames(pieces: seq<string>)
    ensures forall i :: 0 <= i < |Tunnels(pieces)| ==> TunnelName(Tunnels(pieces)[i])
    ensures forall i, j :: 0 <= i < j < |Tunnels(pieces)| ==> Tunnels(pieces)[i] != Tunnels(pieces)[j]
    decreases |pieces|
  {
    if pieces != [] { TunnelsAreNames(pieces[..|pieces| - 1]); }
  }

  lemma {:induction false} LowerPlain(s: string)
    requires forall i :: 0 <= i < |s| ==> Plain(s[i])
    ensures Lower(s) == s
  {
    if s != "" { LowerPlain(s[1..]); }
  }

  lemma NameTransport(s: string)
    requires TunnelName(s) && TransportOf(s) != NoTransport
    ensures s in {"udp", "tcp", "quic", "wg", "wss"} && !EndsIn6(s)
  {
    assert Plain(s[0]) && Plain(s[|s| - 1]);
    assert Strip(s) == s;
    LowerPlain(s);
    NotSeparated(s, "udp");
    NotSeparated(s, "tcp");
    NotSeparated(s, "quic");
    NotSeparated(s, "wg");
    NotSeparated(s, "wss");
  }

  lemma NotSeparated(s: string, name: string)
    requires TunnelName(s)
    ensures !Starts(s, name + ":") && !Starts(s, name + "//")
  {
    if |name| < |s| {
      assert Plain(s[|name|]);
      assert s[..|name| + 1][|name|] == s[|name|] && (name + ":")[|name|] == ':';
      if |name| + 2 <= |s| { assert s[..|name| + 2][|name|] == s[|name|] && (name + "//")[|name|] == '/'; }
    }
  }

  /**
   * A classified peer lists its transport first and an IPv6 tunnel after it: one tunnel alone is never
   * enough, so a single "udp6" tunnel leaves the verdict of the whole network unknown.
   */
  lemma ClassifiedNeedsTwoTunnels(p: Peer)
    requires Classified(p)
    ensures |TunnelsOf(p)| >= 2 && TunnelsOf(p)[0] in {"udp", "tcp", "quic", "wg", "wss"}
    ensures exists i :: 1 <= i < |TunnelsOf(p)| && EndsIn6(TunnelsOf(p)[i])
  {
    var tunnels := TunnelsOf(p);
    var i :| 0 <= i < |tunnels| && EndsIn6(tunnels[i]);
    TunnelsAreNames(SplitCommas(p.tunnels.value));
    NameTransport(tunnels[0]);
    assert i >= 1;
  }

  /** What a row says: the first tunnel's transport, whether any tunnel ends in 6; and when that makes it a direct IPv6 UDP peer. */
  lemma RowExactly(p: Peer)
    ensures var row, tunnels := RowOf(p), TunnelsOf(p);
            && row.peer == p && row.path == PathOf(p) && row.tunnels == tunnels
            && tunnels == (if p.tunnels.Some? && p.tunnels.value != "" then Tunnels(SplitCommas(p.tunnels.value)) else [])
            && (tunnels == [] ==> row.transport == NoTransport && !row.ipv6)
            && (tunnels != [] ==> row.transport == TransportOf(tunnels[0]))
            && (row.ipv6 <==> exists i :: 0 <= i < |tunnels| && tunnels[i] != "" && tunnels[i][|tunnels[i]| - 1] == '6')
            && (Classified(p) <==> row.path in {DirectPath, RelayedPath} && row.transport != NoTransport && row.ipv6)
            && (Ipv6UdpDirect(p) <==> Classified(p) && row.path == DirectPath && row.transport == Udp)
  {
    assert Strip("") == "" && Lower("") == "";
    if i :| 0 <= i < |TunnelsOf(p)| && EndsIn6(TunnelsOf(p)[i]) {}
    if i :| 0 <= i < |TunnelsOf(p)| && TunnelsOf(p)[i] != "" && TunnelsOf(p)[i][|TunnelsOf(p)[i]| - 1] == '6' {
      assert EndsIn6(TunnelsOf(p)[i]);
    }
  }

  // ---- Routes and connectors

  datatype Route = Route(id: Option<string>, nextHop: Option<string>, overlay: Option<string>, evidence: string, shown: string)

  datatype RouteRow = RouteRow(route: Route, path: Path, isLocal: bool)

  predicate Given(o: Option<string>) { o.Some? && o.value != "" }

  function RouteRowOf(t: Route, own: Option<string>, ownOverlay: Option<string>): RouteRow
  {
    var path := if Given(t.id) && Given(t.nextHop) && t.id == t.nextHop && (Contains(t.evidence, "direct") || Contains(t.evidence, "p2p"))
                then DirectPath
                else if Given(t.id) && Given(t.nextHop) && t.id != t.nextHop then RelayedPath
                else UnknownPath;
    RouteRow(t, path, (t.id.Some? && own.Some? && t.id == own) || (t.id.None? && ownOverlay.Some? && t.overlay == ownOverlay))
  }

  /** A route's path and whether it is the node's own, by what it says and where it leads. */
  lemma RouteRowExactly(t: Route, own: Option<string>, ownOverlay: Option<string>)
    ensures var row := RouteRowOf(t, own, ownOverlay);
            var known := t.id !in {None, Some("")} && t.nextHop !in {None, Some("")};
            && row.route == t
            && (row.path == RelayedPath <==> known && t.nextHop != t.id)
            && (row.path == DirectPath <==> known && t.nextHop == t.id && exists i :: HasAt(t.evidence, "direct", i) || HasAt(t.evidence, "p2p", i))
            && (t.id.Some? ==> (row.isLocal <==> own == t.id))
            && (t.id.None? ==> (row.isLocal <==> ownOverlay.Some? && ownOverlay == t.overlay))
  {
    ContainsExactly(t.evidence, "direct");
    ContainsExactly(t.evidence, "p2p");
  }

  ghost function Mapped<T, U>(s: seq<T>, f: T -> U): seq<U> { seq(|s|, i requires 0 <= i < |s| => f(s[i])) }

  lemma MappedStep<T, U>(s: seq<T>, f: T -> U, i: nat, limit: nat)
    requires i < |s|
    ensures var before := Cut(Mapped(s[..i], f), limit);
            Cut(Mapped(s[..i + 1], f), limit) == before + if |before| < limit then [f(s[i])] else []
  {
    assert Mapped(s[..i + 1], f) == Mapped(s[..i], f) + [f(s[i])];
  }

  datatype ListStats<T> = ListStats(total: nat, displayed: nat, truncated: bool, items: seq<T>)

  ghost predicate ListOf<T, U(!new)>(r: ListStats<U>, rows: seq<T>, f: T -> U, limit: nat)
  {
    && r.total == |rows|
    && r.items == Cut(Mapped(rows, f), limit)
    && r.displayed == |r.items|
    && (r.truncated <==> r.displayed < r.total)
  }

  method ApplyRoutes(value: seq<Route>, own: Option<string>, ownOverlay: Option<string>) returns (r: ListStats<RouteRow>)
    ensures ListOf(r, Observed(value), (t: Route) => RouteRowOf(t, own, ownOverlay), MAX_ITEMS)
  {
    var routes := Observed(value);
    ghost var f := (t: Route) => RouteRowOf(t, own, ownOverlay);
    var items: seq<RouteRow> := [];
    var total := 0;
    for i := 0 to |routes|
      invariant total == i && items == Cut(Mapped(routes[..i], f), MAX_ITEMS)
    {
      MappedStep(routes, f, i, MAX_ITEMS);
      total := total + 1;
      if |items| < MAX_ITEMS { items := items + [RouteRowOf(routes[i], own, ownOverlay)]; }
    }
    assert routes[..|routes|] == routes;
    r := ListStats(total, |items|, |items| < total, items);
  }

  /** A connector with its parsed scheme and its status number, if it has one in range. */
  datatype Connector = Connector(scheme: Option<string>, status: Option<nat>, shown: string)

  datatype ConnectorRow = ConnectorRow(connector: Connector, transport: Transport, active: bool)

  function SchemeTransport(c: Connector): Transport { TransportOf(if c.scheme.Some? then c.scheme.value else "") }

  function ConnectorRowOf(c: Connector): ConnectorRow
  {
    ConnectorRow(c, SchemeTransport(c), c.status == Some(0))
  }

  /** A connector's transport is its scheme's; it is active exactly in status 0. */
  lemma ConnectorRowExactly(c: Connector)
    ensures var row := ConnectorRowOf(c);
            && row.connector == c && (row.active <==> c.status.Some? && c.status.value < 1)
            && (c.scheme.None? ==> row.transport == NoTransport)
            && (c.scheme.Some? ==> row.transport == TransportOf(c.scheme.value))
  {
    assert Strip("") == "" && Lower("") == "";
  }

  method ApplyConnectors(value: seq<Connector>) returns (r: ListStats<ConnectorRow>, tcpConfigured: bool, tcpActive: bool)
    ensures ListOf(r, Observed(value), ConnectorRowOf, MAX_ITEMS)
    ensures tcpConfigured <==> exists c :: c in Observed(value) && SchemeTransport(c) == Tcp
    ensures tcpActive <==> exists c :: c in Observed(value) && SchemeTransport(c) == Tcp && c.status == Some(0)
  {
    var connectors := Observed(value);
    var items: seq<ConnectorRow> := [];
    tcpConfigured, tcpActive := false, false;
    for i := 0 to |connectors|
      invariant items == Cut(Mapped(connectors[..i], ConnectorRowOf), MAX_ITEMS)
      invariant tcpConfigured <==> exists c :: c in connectors[..i] && SchemeTransport(c) == Tcp
      invariant tcpActive <==> exists c :: c in connectors[..i] && SchemeTransport(c) == Tcp && c.status == Some(0)
    {
      var connector := connectors[i];
      MappedStep(connectors, ConnectorRowOf, i, MAX_ITEMS);
      assert connectors[..i + 1] == connectors[..i] + [connector];
      assert connector in connectors[..i + 1];
      var active := connector.status == Some(0);
      if |items| < MAX_ITEMS { items := items + [ConnectorRow(connector, SchemeTransport(connector), active)]; }
      if SchemeTransport(connector) == Tcp {
        tcpConfigured := true;
        if active { tcpActive := true; }
      }
    }
    assert connectors[..|connectors|] == connectors;
    r := ListStats(|connectors|, |items|, |items| < |connectors|, items);
  }
}
