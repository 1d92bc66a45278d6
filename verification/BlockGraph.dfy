/** The bounded block-device graph and the search for the physical disks behind a device. */
module BlockGraph {
  import opened Text
  import opened Sequences

  const MAX_DEPTH: nat := 16
  const MAX_NODES: nat := 256

  type Name = string

  /** A node's next hops are its slaves or, without any, its parent. */
  datatype Node = Node(kind: string, slaves: seq<string>, parent: Option<string>)

  type Graph = map<Name, Node>

  /** The nodes, and the names and paths under which a listing mentions them. */
  datatype Topology = Topology(nodes: Graph, aliases: map<string, Name>)

  // ---- Names

  predicate AsciiAlnum(c: char) { 'a' <= c <= 'z' || 'A' <= c <= 'Z' || '0' <= c <= '9' }

  predicate NameChar(c: char) { AsciiAlnum(c) || c in "._+-" }

  predicate IsName(s: string)
  {
    1 <= |s| <= 127 && AsciiAlnum(s[0]) && forall i :: 1 <= i < |s| ==> NameChar(s[i])
  }

  /** The text behind the last slash. */
  function Base(s: string): string
  {
    if '/' in s then Base(s[1..]) else s
  }

  function BlockName(s: string): (r: Option<Name>)
    ensures r.Some? ==> IsName(r.value)
  {
    if IsName(Base(s)) then Some(Base(s)) else None
  }

  lemma {:induction false} BaseOfPath(directory: string, s: string)
    requires '/' !in s
    ensures Base(directory + ['/'] + s) == s
  {
    var path := directory + ['/'] + s;
    assert path[|directory|] == '/';
    if directory == [] {
      assert path[1..] == s;
    } else {
      assert path[1..] == directory[1..] + ['/'] + s;
      BaseOfPath(directory[1..], s);
    }
  }

  /** A path in any directory and the bare name are read alike. */
  lemma NameOfPath(directory: string, n: Name)
    requires IsName(n)
    ensures BlockName(directory + ['/'] + n) == BlockName(n) == Some(n)
  {
    assert forall i :: 0 <= i < |n| ==> n[i] != '/';
    BaseOfPath(directory, n);
  }

  /** A name is 1 to 127 letters, digits and four more signs, the first of them a letter or digit. */
  lemma IsNameExactly(s: string)
    ensures IsName(s) <==>
            && 0 < |s| < 128 && Alphanumeric(s[0])
            && forall i :: 0 <= i < |s| ==> Alphanumeric(s[i]) || s[i] == '.' || s[i] == '_' || s[i] == '+' || s[i] == '-'
  {
  }

  predicate Alphanumeric(c: char)
  {
    var u := c as int;
    97 <= u <= 122 || 65 <= u <= 90 || 48 <= u <= 57
  }

  lemma {:induction false} BaseSplits(s: string) returns (directory: string)
    ensures '/' !in Base(s)
    ensures '/' in s ==> s == directory + ['/'] + Base(s)
    ensures '/' !in s ==> s == Base(s)
    decreases |s|
  {
    directory := "";
    if '/' in s {
      var rest := s[1..];
      assert s == [s[0]] + rest;
      var inner := BaseSplits(rest);
      if '/' in rest {
        directory := [s[0]] + inner;
      } else {
        assert s == "" + ['/'] + rest;
      }
    }
  }

  /** A text is read as a name exactly if it is one, or ends in one behind a slash. */
  lemma BlockNameExactly(s: string, n: Name)
    ensures BlockName(s) == Some(n) <==> IsName(n) && (s == n || exists directory: string :: s == directory + ['/'] + n)
  {
    var directory := BaseSplits(s);
    if BlockName(s) == Some(n) && '/' in s { assert s == directory + ['/'] + n; }
    if IsName(n) {
      assert forall i :: 0 <= i < |n| ==> n[i] != '/';
      if d: string :| s == d + ['/'] + n { NameOfPath(d, n); }
    }
  }

  /** The names among some texts, in order. */
  function Normalized(texts: seq<string>): seq<Name>
  {
    if texts == [] then []
    else
      var name := BlockName(texts[|texts| - 1]);
      Normalized(texts[..|texts| - 1]) + if name.Some? then [name.value] else []
  }

  function RawHops(n: Node): seq<string>
  {
    if n.slaves != [] then n.slaves
    else if n.parent.Some? then [n.parent.value]
    else []
  }

  function Hops(n: Node): seq<Name> { Normalized(RawHops(n)) }

  predicate IsDisk(n: Node) { n.kind == "disk" }

  // ---- Building the graph from the lsblk tree

  /** A JSON field: missing or another false value, a string, or a true value that is no string. */
  datatype Field = Absent | Str(text: string) | Other

  datatype Block =
    | NotAnObject
    | Block(name: Field, kname: Field, pkname: Field, path: Field, kind: string, children: seq<Block>)

  function FieldName(f: Field): Option<Name>
  {
    if f.Str? then BlockName(f.text) else None
  }

  /** The kernel name decides whenever it is there at all, even when it is no usable name. */
  function KeyOf(b: Block): Option<Name>
    requires b.Block?
  {
    if b.kname.Other? || (b.kname.Str? && b.kname.text != "") then FieldName(b.kname) else FieldName(b.name)
  }

  predicate Named(b: Block) { b.Block? && KeyOf(b).Some? }

  /** A block met in listing order: its name, type and own parent, and the name of the block it stands under. */
  datatype Visit = Visit(name: Name, kind: string, own: Option<Name>, above: Option<Name>)

  function VisitOf(b: Block, above: Option<Name>): Visit
    requires Named(b)
  {
    Visit(KeyOf(b).value, b.kind, FieldName(b.pkname), above)
  }

  function Visited(graph: Graph, v: Visit): Graph
  {
    var known := if v.name in graph then graph[v.name] else Node(v.kind, [], None);
    var parent :=
      if v.own.Some? then v.own
      else if v.above.Some? && v.above.value != v.name && known.parent.None? then v.above
      else known.parent;
    graph[v.name := Node(v.kind, known.slaves, parent)]
  }

  function AliasFields(b: Block): seq<Field>
    requires Named(b)
  {
    [b.name, b.kname, b.path, Str("/dev/" + KeyOf(b).value)]
  }

  /** What names a block: its kernel name whenever that is there at all, else its name, and neither if that is no text. */
  lemma KeyExactly(b: Block)
    requires b.Block?
    ensures b.kname == Other ==> KeyOf(b) == None
    ensures b.kname.Str? && |b.kname.text| > 0 ==> KeyOf(b) == BlockName(b.kname.text)
    ensures b.kname in {Absent, Str("")} ==> KeyOf(b) == if b.name.Str? then BlockName(b.name.text) else None
  {
  }

  predicate IsAlias(fields: seq<Field>, a: string) { a != "" && Str(a) in fields }

  lemma AliasExactly(b: Block, a: string)
    requires Named(b)
    ensures IsAlias(AliasFields(b), a) <==>
            |a| > 0 && (b.name == Str(a) || b.kname == Str(a) || b.path == Str(a) || a == "/dev" + ['/'] + KeyOf(b).value)
  {
    assert "/dev" + ['/'] == "/dev/";
    var fields := AliasFields(b);
    assert fields[0] == b.name && fields[1] == b.kname && fields[2] == b.path && fields[3] == Str("/dev/" + KeyOf(b).value);
  }

  /** Every alias of a block leads to it, a later block's over an earlier one's. */
  function UpdatedAliases(aliases: map<string, Name>, fields: seq<Field>, n: Name): map<string, Name>
  {
    if fields == [] then aliases
    else
      var before := UpdatedAliases(aliases, fields[..|fields| - 1], n);
      var last := fields[|fields| - 1];
      if last.Str? && last.text != "" then before[last.text := n] else before
  }

  lemma {:induction false} AliasUpdated(aliases: map<string, Name>, fields: seq<Field>, n: Name, a: string)
    ensures var after := UpdatedAliases(aliases, fields, n);
            && (a in after <==> a in aliases || IsAlias(fields, a))
            && (a in after ==> after[a] == if IsAlias(fields, a) then n else aliases[a])
  {
    if fields != [] {
      var shorter := fields[..|fields| - 1];
      AliasUpdated(aliases, shorter, n, a);
      assert fields == shorter + [fields[|fields| - 1]];
    }
  }

  function Updated(t: Topology, b: Block, above: Option<Name>): Topology
    requires Named(b)
  {
    Topology(Visited(t.nodes, VisitOf(b, above)), UpdatedAliases(t.aliases, AliasFields(b), KeyOf(b).value))
  }

  function Appended(t: Topology, b: Block, above: Option<Name>): Topology
    decreases b, 1, 0
  {
    if |t.nodes| >= MAX_NODES || !Named(b) then t
    else AppendedAll(Updated(t, b, above), b, |b.children|)
  }

  /** The first k children of a block added in order. */
  function AppendedAll(t: Topology, b: Block, k: nat): Topology
    requires b.Block? && k <= |b.children|
    decreases b, 0, k
  {
    if k == 0 then t else Appended(AppendedAll(t, b, k - 1), b.children[k - 1], KeyOf(b))
  }

  method PutAliases(aliases: map<string, Name>, fields: seq<Field>, n: Name) returns (result: map<string, Name>)
    ensures result == UpdatedAliases(aliases, fields, n)
  {
    result := aliases;
    assert fields[..0] == [];
    for i := 0 to |fields|
      invariant result == UpdatedAliases(aliases, fields[..i], n)
    {
      assert fields[..i + 1][..i] == fields[..i];
      if fields[i].Str? && fields[i].text != "" { result := result[fields[i].text := n]; }
    }
    assert fields[..|fields|] == fields;
  }

  method AppendBlockNode(t: Topology, b: Block, above: Option<Name>) returns (result: Topology)
    ensures result == Appended(t, b, above)
    decreases b
  {
    if b.NotAnObject? || |t.nodes| >= MAX_NODES { return t; }
    var name := KeyOf(b);
    if name.None? { return t; }
    var aliases := PutAliases(t.aliases, AliasFields(b), name.value);
    result := Topology(Visited(t.nodes, VisitOf(b, above)), aliases);
    for i := 0 to |b.children|
      invariant result == AppendedAll(Updated(t, b, above), b, i)
    {
      result := AppendBlockNode(result, b.children[i], name);
    }
  }

  lemma {:induction false} AppendedWithinCap(t: Topology, b: Block, above: Option<Name>)
    requires |t.nodes| <= MAX_NODES
    ensures |Appended(t, b, above).nodes| <= MAX_NODES
    decreases b, 1, 0
  {
    if |t.nodes| < MAX_NODES && Named(b) {
      PutSize(t.nodes, KeyOf(b).value, Visited(t.nodes, VisitOf(b, above))[KeyOf(b).value]);
      AppendedAllWithinCap(Updated(t, b, above), b, |b.children|);
    }
  }

  lemma {:induction false} AppendedAllWithinCap(t: Topology, b: Block, k: nat)
    requires |t.nodes| <= MAX_NODES && b.Block? && k <= |b.children|
    ensures |AppendedAll(t, b, k).nodes| <= MAX_NODES
    decreases b, 0, k
  {
    if k > 0 {
      AppendedAllWithinCap(t, b, k - 1);
      AppendedWithinCap(AppendedAll(t, b, k - 1), b.children[k - 1], KeyOf(b));
    }
  }

  // ---- Where an alias leads

  /** A block of the subtree that the listing names n carries the alias. */
  ghost predicate Offers(b: Block, a: string, n: Name)
    decreases b, 1, 0
  {
    Named(b) && ((KeyOf(b).value == n && IsAlias(AliasFields(b), a)) || OffersBelow(b, |b.children|, a, n))
  }

  ghost predicate OffersBelow(b: Block, k: nat, a: string, n: Name)
    requires b.Block? && k <= |b.children|
    decreases b, 0, k
  {
    exists i :: 0 <= i < k && Offers(b.children[i], a, n)
  }

  ghost predicate OffersAny(blocks: seq<Block>, a: string, n: Name)
  {
    exists i :: 0 <= i < |blocks| && Offers(blocks[i], a, n)
  }

  /** The alias is new under a name offered for it, or as it was. */
  ghost predicate Settled(t: Topology, result: Topology, a: string, offered: bool)
  {
    && t.nodes.Keys <= result.nodes.Keys
    && (a in t.aliases ==> a in result.aliases)
    && (a in result.aliases ==> offered || (a in t.aliases && result.aliases[a] == t.aliases[a]))
    && (a in result.aliases && (a in t.aliases ==> t.aliases[a] in t.nodes) ==> result.aliases[a] in result.nodes)
  }

  lemma SmallerBefore(t: Topology, result: Topology)
    requires t.nodes.Keys <= result.nodes.Keys
    ensures |t.nodes| <= |result.nodes|
  {
    SubsetSize(t.nodes.Keys, result.nodes.Keys);
    assert |t.nodes| == |t.nodes.Keys| && |result.nodes| == |result.nodes.Keys|;
  }

  lemma {:induction false} AliasAt(t: Topology, b: Block, above: Option<Name>, a: string)
    ensures var r := Appended(t, b, above); Settled(t, r, a, a in r.aliases && Offers(b, a, r.aliases[a]))
    ensures forall n :: |Appended(t, b, above).nodes| < MAX_NODES && Offers(b, a, n) ==> a in Appended(t, b, above).aliases
    decreases b, 1, 0
  {
    if |t.nodes| < MAX_NODES && Named(b) {
      AliasUpdated(t.aliases, AliasFields(b), KeyOf(b).value, a);
      AliasBelow(Updated(t, b, above), b, |b.children|, a);
    }
  }

  lemma {:induction false} AliasBelow(t: Topology, b: Block, k: nat, a: string)
    requires b.Block? && k <= |b.children|
    ensures var r := AppendedAll(t, b, k); Settled(t, r, a, a in r.aliases && OffersBelow(b, k, a, r.aliases[a]))
    ensures forall n :: |AppendedAll(t, b, k).nodes| < MAX_NODES && OffersBelow(b, k, a, n) ==> a in AppendedAll(t, b, k).aliases
    decreases b, 0, k
  {
    if k > 0 {
      var before := AppendedAll(t, b, k - 1);
      var after := AppendedAll(t, b, k);
      AliasBelow(t, b, k - 1, a);
      AliasAt(before, b.children[k - 1], KeyOf(b), a);
      SmallerBefore(before, after);
      forall n | |after.nodes| < MAX_NODES && OffersBelow(b, k, a, n) ensures a in after.aliases {
        if !OffersBelow(b, k - 1, a, n) { assert Offers(b.children[k - 1], a, n); }
      }
    }
  }

  /** The tree of a whole listing, as the nameless parent of its top entries. */
  function Root(devices: seq<Block>): Block { Block(Absent, Absent, Absent, Absent, "", devices) }

  function ListedTree(devices: seq<Block>): Topology
  {
    AppendedAll(Topology(map[], map[]), Root(devices), |devices|)
  }

  /**
   * A name or path leads to a node, under a name some block offers it for; below the node cap none that is
   * offered is missing, so one that belongs to a single device leads there.
   */
  lemma AliasLeadsToItsDevice(devices: seq<Block>, a: string)
    ensures var t := ListedTree(devices);
            && (a in t.aliases ==> t.aliases[a] in t.nodes && OffersAny(devices, a, t.aliases[a]))
            && (|t.nodes| < MAX_NODES ==>
                  (a in t.aliases <==> exists n :: OffersAny(devices, a, n))
                  && forall n :: OffersAny(devices, a, n) && (forall m :: OffersAny(devices, a, m) ==> m == n) ==>
                       StartOf(t, a) == Some(n))
  {
    var t := ListedTree(devices);
    AliasBelow(Topology(map[], map[]), Root(devices), |devices|, a);
    forall n ensures OffersBelow(Root(devices), |devices|, a, n) <==> OffersAny(devices, a, n) {
      if OffersAny(devices, a, n) {
        var i :| 0 <= i < |devices| && Offers(devices[i], a, n);
        assert Offers(Root(devices).children[i], a, n);
      }
    }
    forall n | OffersAny(devices, a, n) ensures IsName(n) {
      var i :| 0 <= i < |devices| && Offers(devices[i], a, n);
      OfferedIsName(devices[i], a, n);
    }
  }

  lemma {:induction false} OfferedIsName(b: Block, a: string, n: Name)
    requires Offers(b, a, n)
    ensures IsName(n)
    decreases b
  {
    if KeyOf(b).value != n || !IsAlias(AliasFields(b), a) {
      var i :| 0 <= i < |b.children| && Offers(b.children[i], a, n);
      OfferedIsName(b.children[i], a, n);
    }
  }

  /** A table that leads only to nodes, as every built one does. */
  ghost predicate LeadsToNodes(t: Topology)
  {
    forall a :: a in t.aliases ==> t.aliases[a] in t.nodes
  }

  // ---- What a node is, by the listing

  /** The usable blocks of a subtree in listing order; what stands under an unusable one is not met. */
  function VisitsOf(b: Block, above: Option<Name>): seq<Visit>
    decreases b, 1, 0
  {
    if Named(b) then [VisitOf(b, above)] + VisitsBelow(b, |b.children|) else []
  }

  function VisitsBelow(b: Block, k: nat): seq<Visit>
    requires b.Block? && k <= |b.children|
    decreases b, 0, k
  {
    if k == 0 then [] else VisitsBelow(b, k - 1) + VisitsOf(b.children[k - 1], KeyOf(b))
  }

  function ListedVisits(devices: seq<Block>): seq<Visit> { VisitsBelow(Root(devices), |devices|) }

  function VisitedAll(graph: Graph, visits: seq<Visit>): Graph
  {
    if visits == [] then graph else Visited(VisitedAll(graph, visits[..|visits| - 1]), visits[|visits| - 1])
  }

  lemma {:induction false} VisitedInTurn(graph: Graph, a: seq<Visit>, b: seq<Visit>)
    ensures VisitedAll(graph, a + b) == VisitedAll(VisitedAll(graph, a), b)
    decreases |b|
  {
    if b == [] {
      assert a + b == a;
    } else {
      assert (a + b)[..|a + b| - 1] == a + b[..|b| - 1];
      VisitedInTurn(graph, a, b[..|b| - 1]);
    }
  }

  lemma NodesGrow(t: Topology, b: Block, above: Option<Name>)
    ensures |t.nodes| <= |Appended(t, b, above).nodes|
  {
    AliasAt(t, b, above, "");
    SmallerBefore(t, Appended(t, b, above));
  }

  lemma NodesGrowBelow(t: Topology, b: Block, k: nat)
    requires b.Block? && k <= |b.children|
    ensures |t.nodes| <= |AppendedAll(t, b, k).nodes|
  {
    AliasBelow(t, b, k, "");
    SmallerBefore(t, AppendedAll(t, b, k));
  }

  /** Below the node cap the recursive insertion is the visits in turn. */
  lemma {:induction false} AppendedIsVisited(t: Topology, b: Block, above: Option<Name>)
    requires |Appended(t, b, above).nodes| < MAX_NODES
    ensures Appended(t, b, above).nodes == VisitedAll(t.nodes, VisitsOf(b, above))
    decreases b, 1, 0
  {
    NodesGrow(t, b, above);
    if Named(b) {
      var first := [VisitOf(b, above)];
      AppendedAllIsVisited(Updated(t, b, above), b, |b.children|);
      VisitedInTurn(t.nodes, first, VisitsBelow(b, |b.children|));
      assert first[..0] == [];
      assert VisitedAll(t.nodes, first) == Visited(t.nodes, first[0]);
    }
  }

  lemma {:induction false} AppendedAllIsVisited(t: Topology, b: Block, k: nat)
    requires b.Block? && k <= |b.children| && |AppendedAll(t, b, k).nodes| < MAX_NODES
    ensures AppendedAll(t, b, k).nodes == VisitedAll(t.nodes, VisitsBelow(b, k))
    decreases b, 0, k
  {
    if k > 0 {
      var before := AppendedAll(t, b, k - 1);
      NodesGrow(before, b.children[k - 1], KeyOf(b));
      AppendedAllIsVisited(t, b, k - 1);
      AppendedIsVisited(before, b.children[k - 1], KeyOf(b));
      VisitedInTurn(t.nodes, VisitsBelow(b, k - 1), VisitsOf(b.children[k - 1], KeyOf(b)));
    }
  }

  /** The last type listed for a name. */
  function LastKind(visits: seq<Visit>, n: Name): Option<string>
  {
    if visits == [] then None
    else
      var last := visits[|visits| - 1];
      if last.name == n then Some(last.kind) else LastKind(visits[..|visits| - 1], n)
  }

  /** The last own parent listed for a name. */
  function LastOwn(visits: seq<Visit>, n: Name): Option<Name>
  {
    if visits == [] then None
    else
      var last := visits[|visits| - 1];
      if last.name == n && last.own.Some? then last.own else LastOwn(visits[..|visits| - 1], n)
  }

  /** The first other block that one of this name stands under without naming a parent itself. */
  function FirstAbove(visits: seq<Visit>, n: Name): Option<Name>
  {
    if visits == [] then None
    else
      var before, last := FirstAbove(visits[..|visits| - 1], n), visits[|visits| - 1];
      if before.Some? then before
      else if last.name == n && last.own.None? && last.above.Some? && last.above.value != n then last.above
      else None
  }

  /** Its own parent decides; without one, the block it stood under first. */
  function ListedParent(visits: seq<Visit>, n: Name): Option<Name>
  {
    if LastOwn(visits, n).Some? then LastOwn(visits, n) else FirstAbove(visits, n)
  }

  lemma {:induction false} VisitedNode(visits: seq<Visit>, n: Name)
    ensures var graph := VisitedAll(map[], visits);
            && (n in graph <==> LastKind(visits, n).Some?)
            && (n in graph ==> graph[n] == Node(LastKind(visits, n).value, [], ListedParent(visits, n)))
    ensures LastKind(visits, n).None? ==> ListedParent(visits, n).None?
    decreases |visits|
  {
    if visits != [] { VisitedNode(visits[..|visits| - 1], n); }
  }

  /**
   * Below the node cap: the names listed are the nodes, each of the last type listed for it, under the parent
   * it was listed with last or, without any, under the block it stood under first.
   */
  lemma NodeIsAsListed(devices: seq<Block>, n: Name)
    requires |ListedTree(devices).nodes| < MAX_NODES
    ensures var nodes, visits := ListedTree(devices).nodes, ListedVisits(devices);
            && (n in nodes <==> LastKind(visits, n).Some?)
            && (n in nodes ==> nodes[n] == Node(LastKind(visits, n).value, [], ListedParent(visits, n)))
  {
    AppendedAllIsVisited(Topology(map[], map[]), Root(devices), |devices|);
    VisitedNode(ListedVisits(devices), n);
  }

  // ---- The kernel's slave lists

  function Head(entries: seq<string>): seq<string>
  {
    if |entries| <= MAX_NODES then entries else entries[..MAX_NODES]
  }

  lemma HeadExactly(entries: seq<string>)
    ensures Head(entries) <= entries && |Head(entries)| == if |entries| < 256 then |entries| else 256
  {
  }

  ghost predicate Strict(names: seq<Name>)
  {
    forall i, j :: 0 <= i < j < |names| ==> Less(names[i], names[j])
  }

  /** A node after its directory was read: the names in it, sorted and each once, replace its slaves. */
  ghost predicate Linked(before: Node, after: Node, entries: seq<string>)
  {
    if Normalized(Head(entries)) == [] then after == before
    else
      && after == before.(slaves := after.slaves) && Strict(after.slaves) && |after.slaves| <= MAX_NODES
      && forall n :: n in after.slaves <==> n in Normalized(Head(entries))
  }

  method LinkSlaves(node: Node, entries: seq<string>) returns (result: Node)
    ensures Linked(node, result, entries)
  {
    var read := Head(entries);
    var slaves: set<Name> := {};
    assert read[..0] == [];
    for i := 0 to |read|
      invariant |slaves| <= i && (slaves == {} <==> Normalized(read[..i]) == [])
      invariant forall n :: n in slaves <==> n in Normalized(read[..i])
    {
      assert read[..i + 1][..i] == read[..i];
      var name := BlockName(read[i]);
      if name.Some? { slaves := slaves + {name.value}; }
    }
    assert read[..|read|] == read;
    result := node;
    if slaves != {} {
      var names := SortNames(slaves);
      result := node.(slaves := names);
    }
  }

  function EntriesOf(listings: map<Name, seq<string>>, n: Name): seq<string>
  {
    if n in listings then listings[n] else []
  }

  /** The nodes and aliases of the listing, and each node's slaves by its directory. */
  ghost predicate Built(t: Topology, devices: seq<Block>, listings: map<Name, seq<string>>)
  {
    && |t.nodes| <= MAX_NODES
    && t.aliases == ListedTree(devices).aliases && LeadsToNodes(t)
    && t.nodes.Keys == ListedTree(devices).nodes.Keys
    && forall n :: n in t.nodes ==> Linked(ListedTree(devices).nodes[n], t.nodes[n], EntriesOf(listings, n))
  }

  /** The topology of a whole listing, with the slave directories that could be read. */
  method BuildBlockDeviceGraph(devices: seq<Block>, listings: map<Name, seq<string>>) returns (t: Topology)
    ensures Built(t, devices, listings)
  {
    t := Topology(map[], map[]);
    for i := 0 to |devices|
      invariant t == AppendedAll(Topology(map[], map[]), Root(devices), i)
    {
      t := AppendBlockNode(t, devices[i], None);
    }
    ghost var tree := t.nodes;
    AppendedAllWithinCap(Topology(map[], map[]), Root(devices), |devices|);
    forall a | a in t.aliases ensures t.aliases[a] in t.nodes { AliasLeadsToItsDevice(devices, a); }
    var graph, names := t.nodes, t.nodes.Keys;
    while names != {}
      invariant names <= graph.Keys && graph.Keys == tree.Keys
      invariant forall n :: n in names ==> graph[n] == tree[n]
      invariant forall n :: n in tree && n !in names ==> Linked(tree[n], graph[n], EntriesOf(listings, n))
      decreases names
    {
      var name :| name in names;
      names := names - {name};
      var node := LinkSlaves(graph[name], EntriesOf(listings, name));
      graph := graph[name := node];
    }
    assert |graph| == |graph.Keys| && |tree| == |tree.Keys|;
    t := Topology(graph, t.aliases);
  }

  // ---- Reachability

  /** A walk that leaves only nodes that are not disks. */
  ghost predicate Walk(g: Graph, path: seq<Name>)
  {
    && path != [] && (forall i :: 0 <= i < |path| ==> path[i] in g)
    && forall i :: 0 <= i < |path| - 1 ==> !IsDisk(g[path[i]]) && path[i + 1] in Hops(g[path[i]])
  }

  ghost predicate Reachable(g: Graph, start: Name, goal: Name)
  {
    exists path :: Walk(g, path) && path[0] == start && path[|path| - 1] == goal
  }

  ghost predicate Simple(path: seq<Name>)
  {
    forall i, j :: 0 <= i < j < |path| ==> path[i] != path[j]
  }

  /** No chain from the start that repeats no node has more links than the depth cap. */
  ghost predicate ShortChains(g: Graph, start: Name)
  {
    forall path :: Walk(g, path) && path[0] == start && Simple(path) ==> |path| - 1 <= MAX_DEPTH
  }

  /** The chain of visited nodes, none repeated, that pushed a pending entry. */
  ghost predicate PushedBy(g: Graph, start: Name, visited: set<Name>, entry: (Name, nat), path: seq<Name>)
  {
    && Walk(g, path) && path[0] == start && path[|path| - 1] == entry.0 && |path| - 1 == entry.1
    && Simple(path[..|path| - 1]) && forall i :: 0 <= i < |path| - 1 ==> path[i] in visited
  }

  ghost predicate Justified(g: Graph, start: Name, visited: set<Name>, entry: (Name, nat))
  {
    exists path :: PushedBy(g, start, visited, entry, path)
  }

  predicate Pushes(g: Graph, name: Name, child: Name)
  {
    name in g && !IsDisk(g[name]) && child in Hops(g[name]) && child in g
  }

  lemma WalkExtends(g: Graph, path: seq<Name>, child: Name)
    requires Walk(g, path) && Pushes(g, path[|path| - 1], child)
    ensures Walk(g, path + [child])
  {
  }

  lemma JustifiedChild(g: Graph, start: Name, visited: set<Name>, name: Name, depth: nat, child: Name)
    requires Justified(g, start, visited, (name, depth)) && name !in visited && Pushes(g, name, child)
    ensures Justified(g, start, visited + {name}, (child, depth + 1))
  {
    var path :| PushedBy(g, start, visited, (name, depth), path);
    var longer := path + [child];
    WalkExtends(g, path, child);
    assert longer[..|longer| - 1] == path;
    forall i, j | 0 <= i < j < |path| ensures path[i] != path[j] {
      if j < |path| - 1 { assert path[i] == path[..|path| - 1][i] && path[j] == path[..|path| - 1][j]; }
    }
    assert PushedBy(g, start, visited + {name}, (child, depth + 1), longer);
  }

  lemma JustifiedIsReachable(g: Graph, start: Name, visited: set<Name>, entry: (Name, nat))
    requires Justified(g, start, visited, entry)
    ensures Reachable(g, start, entry.0)
  {
    var path :| PushedBy(g, start, visited, entry, path);
  }

  lemma JustifiedIsShort(g: Graph, start: Name, visited: set<Name>, entry: (Name, nat))
    requires Justified(g, start, visited, entry) && entry.0 !in visited && ShortChains(g, start)
    ensures entry.1 <= MAX_DEPTH
  {
    var path :| PushedBy(g, start, visited, entry, path);
    forall i, j | 0 <= i < j < |path| ensures path[i] != path[j] {
      if j < |path| - 1 { assert path[i] == path[..|path| - 1][i] && path[j] == path[..|path| - 1][j]; }
    }
  }

  lemma JustifiedMonotone(g: Graph, start: Name, visited: set<Name>, more: set<Name>, entry: (Name, nat))
    requires Justified(g, start, visited, entry) && visited <= more
    ensures Justified(g, start, more, entry)
  {
    var path :| PushedBy(g, start, visited, entry, path);
    assert PushedBy(g, start, more, entry, path);
  }

  // ---- The search

  predicate NameLe(a: Name, b: Name) { !Less(b, a) }

  /** A set closed under pushing that holds the start holds everything reachable. */
  lemma {:induction false} ClosedHoldsWalk(g: Graph, closed: set<Name>, path: seq<Name>)
    requires Walk(g, path) && path[0] in closed
    requires forall n, child :: n in closed && Pushes(g, n, child) ==> child in closed
    ensures path[|path| - 1] in closed
    decreases |path|
  {
    if |path| > 1 {
      assert Pushes(g, path[0], path[1]);
      assert Walk(g, path[1..]);
      ClosedHoldsWalk(g, closed, path[1..]);
    }
  }

  function Pushed(g: Graph, hops: seq<Name>, depth: nat): seq<(Name, nat)>
  {
    if hops == [] then []
    else
      var last := hops[|hops| - 1];
      Pushed(g, hops[..|hops| - 1], depth) + if last in g then [(last, depth)] else []
  }

  lemma {:induction false} PushedMembers(g: Graph, hops: seq<Name>, depth: nat)
    ensures forall e :: e in Pushed(g, hops, depth) <==> e.0 in hops && e.0 in g && e.1 == depth
  {
    if hops != [] {
      PushedMembers(g, hops[..|hops| - 1], depth);
      assert hops == hops[..|hops| - 1] + [hops[|hops| - 1]];
    }
  }

  predicate Waiting(pending: seq<(Name, nat)>, name: Name)
  {
    exists i :: 0 <= i < |pending| && pending[i].0 == name
  }

  /** Nothing that was seen is forgotten: the start and every pushed child is visited or still waiting. */
  ghost predicate Covered(g: Graph, start: Name, pending: seq<(Name, nat)>, visited: set<Name>)
  {
    && (start in visited || Waiting(pending, start))
    && forall n, child :: n in visited && Pushes(g, n, child) ==> child in visited || Waiting(pending, child)
  }

  ghost predicate AllJustified(g: Graph, start: Name, pending: seq<(Name, nat)>, visited: set<Name>)
  {
    forall i :: 0 <= i < |pending| ==> pending[i].0 in g && Justified(g, start, visited, pending[i])
  }

  function DisksIn(g: Graph, visited: set<Name>): set<Name>
  {
    set n | n in visited && n in g && IsDisk(g[n])
  }

  /** The search's state between pops. */
  ghost predicate Searching(g: Graph, start: Name, pending: seq<(Name, nat)>, visited: set<Name>, physical: set<Name>)
  {
    && visited <= g.Keys && physical == DisksIn(g, visited)
    && AllJustified(g, start, pending, visited)
    && (forall n :: n in visited ==> Reachable(g, start, n))
    && (ShortChains(g, start) ==> Covered(g, start, pending, visited))
  }

  lemma WaitingSplit(rest: seq<(Name, nat)>, top: (Name, nat), more: seq<(Name, nat)>, name: Name)
    requires Waiting(rest + [top], name)
    ensures name == top.0 || Waiting(rest + more, name)
  {
    var i :| 0 <= i < |rest + [top]| && (rest + [top])[i].0 == name;
    if i < |rest| { assert (rest + more)[i].0 == name; }
  }

  lemma CoveredAfterPop(g: Graph, start: Name, rest: seq<(Name, nat)>, top: (Name, nat), more: seq<(Name, nat)>, visited: set<Name>)
    requires Covered(g, start, rest + [top], visited)
    requires forall child :: top.0 !in visited && Pushes(g, top.0, child) ==> Waiting(rest + more, child)
    ensures Covered(g, start, rest + more, visited + {top.0})
  {
    var after := visited + {top.0};
    if start !in after { WaitingSplit(rest, top, more, start); }
    forall n, child | n in after && Pushes(g, n, child) && child !in after ensures Waiting(rest + more, child) {
      if n in visited { WaitingSplit(rest, top, more, child); }
    }
  }

  lemma DiscardKeeps(g: Graph, start: Name, rest: seq<(Name, nat)>, top: (Name, nat), visited: set<Name>, physical: set<Name>)
    requires Searching(g, start, rest + [top], visited, physical) && (top.0 in visited || top.1 > MAX_DEPTH)
    ensures Searching(g, start, rest, visited, physical)
  {
    assert (rest + [top])[|rest|] == top;
    forall i | 0 <= i < |rest| ensures rest[i].0 in g && Justified(g, start, visited, rest[i]) {
      assert (rest + [top])[i] == rest[i];
    }
    if ShortChains(g, start) {
      if top.0 !in visited { JustifiedIsShort(g, start, visited, top); }
      CoveredAfterPop(g, start, rest, top, [], visited);
      assert rest + [] == rest && visited + {top.0} == visited;
    }
  }

  /** Expanding an unvisited node: its children wait, and what waited stays justified. */
  lemma ExpandJustified(g: Graph, start: Name, rest: seq<(Name, nat)>, top: (Name, nat), children: seq<(Name, nat)>, visited: set<Name>)
    requires AllJustified(g, start, rest + [top], visited) && top.0 !in visited
    requires forall i :: 0 <= i < |children| ==> Pushes(g, top.0, children[i].0) && children[i].1 == top.1 + 1
    ensures AllJustified(g, start, rest + children, visited + {top.0})
  {
    var later := rest + children;
    assert (rest + [top])[|rest|] == top;
    forall i | 0 <= i < |later| ensures later[i].0 in g && Justified(g, start, visited + {top.0}, later[i]) {
      if i < |rest| {
        assert (rest + [top])[i] == later[i];
        JustifiedMonotone(g, start, visited, visited + {top.0}, later[i]);
      } else {
        assert later[i] == children[i - |rest|];
        JustifiedChild(g, start, visited, top.0, top.1, later[i].0);
      }
    }
  }

  function ChildrenOf(g: Graph, name: Name, depth: nat): seq<(Name, nat)>
    requires name in g
  {
    if IsDisk(g[name]) then [] else Pushed(g, Hops(g[name]), depth)
  }

  lemma ChildrenArePushed(g: Graph, name: Name, depth: nat)
    requires name in g
    ensures var children := ChildrenOf(g, name, depth);
            && (forall i :: 0 <= i < |children| ==> Pushes(g, name, children[i].0) && children[i].1 == depth)
            && forall child :: Pushes(g, name, child) ==> (child, depth) in children
  {
    var children := ChildrenOf(g, name, depth);
    PushedMembers(g, Hops(g[name]), depth);
    forall i | 0 <= i < |children| ensures Pushes(g, name, children[i].0) && children[i].1 == depth {
      assert children[i] in children;
    }
  }

  lemma WaitingAfter(rest: seq<(Name, nat)>, more: seq<(Name, nat)>, child: Name, depth: nat)
    requires (child, depth) in more
    ensures Waiting(rest + more, child)
  {
    var i :| 0 <= i < |more| && more[i] == (child, depth);
    assert (rest + more)[|rest| + i].0 == child;
  }

  lemma ExpandKeeps(g: Graph, start: Name, rest: seq<(Name, nat)>, top: (Name, nat), visited: set<Name>, physical: set<Name>)
    requires Searching(g, start, rest + [top], visited, physical) && top.0 !in visited
    ensures top.0 in g
    ensures Searching(g, start, rest + ChildrenOf(g, top.0, top.1 + 1), visited + {top.0},
                      if IsDisk(g[top.0]) then physical + {top.0} else physical)
  {
    assert (rest + [top])[|rest|] == top;
    var children := ChildrenOf(g, top.0, top.1 + 1);
    ChildrenArePushed(g, top.0, top.1 + 1);
    JustifiedIsReachable(g, start, visited, top);
    ExpandJustified(g, start, rest, top, children, visited);
    if ShortChains(g, start) {
      forall child | Pushes(g, top.0, child) ensures Waiting(rest + children, child) {
        WaitingAfter(rest, children, child, top.1 + 1);
      }
      CoveredAfterPop(g, start, rest, top, children, visited);
    }
  }

  lemma StartIsSearching(g: Graph, start: Name)
    requires start in g
    ensures Searching(g, start, [(start, 0)], {}, {})
  {
    assert PushedBy(g, start, {}, (start, 0), [start]);
    assert [(start, 0 as nat)][0].0 == start;
  }

  method PushHops(g: Graph, hops: seq<string>, depth: nat, pending: seq<(Name, nat)>) returns (result: seq<(Name, nat)>)
    ensures result == pending + Pushed(g, Normalized(hops), depth)
  {
    result := pending;
    assert hops[..0] == [];
    for i := 0 to |hops|
      invariant result == pending + Pushed(g, Normalized(hops[..i]), depth)
    {
      assert hops[..i + 1][..i] == hops[..i];
      var child := BlockName(hops[i]);
      ghost var before := Normalized(hops[..i]);
      if child.Some? {
        assert (before + [child.value])[..|before|] == before;
        if child.value in g { result := result + [(child.value, depth)]; }
      } else {
        assert before + [] == before;
      }
    }
    assert hops[..|hops|] == hops;
  }

  /** One unvisited node popped: a disk is collected, any other node's next hops are pushed. */
  method Expand(g: Graph, ghost start: Name, top: (Name, nat), rest: seq<(Name, nat)>, visited: set<Name>, physical: set<Name>)
    returns (pending: seq<(Name, nat)>, disks: set<Name>)
    requires Searching(g, start, rest + [top], visited, physical) && top.0 !in visited
    ensures Searching(g, start, pending, visited + {top.0}, disks)
  {
    ExpandKeeps(g, start, rest, top, visited, physical);
    if IsDisk(g[top.0]) {
      assert rest + [] == rest;
      return rest, physical + {top.0};
    }
    pending := PushHops(g, RawHops(g[top.0]), top.1 + 1, rest);
    disks := physical;
  }

  method Search(start: Name, g: Graph) returns (pending: seq<(Name, nat)>, visited: set<Name>, physical: set<Name>)
    requires start in g
    ensures Searching(g, start, pending, visited, physical) && (pending == [] || |visited| >= MAX_NODES)
  {
    pending := [(start, 0)];
    visited, physical := {}, {};
    StartIsSearching(g, start);
    while pending != [] && |visited| < MAX_NODES
      invariant Searching(g, start, pending, visited, physical)
      decreases MAX_NODES - |visited|, |pending|
    {
      var top, rest := pending[|pending| - 1], pending[..|pending| - 1];
      assert pending == rest + [top];
      if top.0 in visited || top.1 > MAX_DEPTH {
        DiscardKeeps(g, start, rest, top, visited, physical);
        pending := rest;
      } else {
        pending, physical := Expand(g, start, top, rest, visited, physical);
        visited := visited + {top.0};
      }
    }
  }

  /** Where a search for a device name or path begins: at what its alias names, else at its own last part. */
  function StartOf(t: Topology, device: string): Option<Name>
  {
    if device in t.aliases && t.aliases[device] != "" then Some(t.aliases[device]) else BlockName(device)
  }

  /** An alias goes first when it leads anywhere; any other text is taken as a path or name. */
  lemma StartExactly(t: Topology, device: string)
    ensures device in t.aliases && |t.aliases[device]| > 0 ==> StartOf(t, device) == Some(t.aliases[device])
    ensures device !in t.aliases || t.aliases[device] == [] ==> StartOf(t, device) == BlockName(device)
  {
  }

  /** The disks behind a device, known to the topology or not. */
  ghost predicate Backs(t: Topology, device: string, d: Name)
  {
    StartOf(t, device).Some? && d in t.nodes && IsDisk(t.nodes[d]) && Reachable(t.nodes, StartOf(t, device).value, d)
  }

  ghost predicate Resolved(t: Topology, device: string, disks: seq<Name>)
  {
    && (forall d :: d in disks ==> Backs(t, device, d)) && Strict(disks)
    && (|t.nodes| <= MAX_NODES && (StartOf(t, device).Some? ==> ShortChains(t.nodes, StartOf(t, device).value)) ==>
          forall d :: Backs(t, device, d) ==> d in disks)
  }

  /**
   * The search on any topology, cyclic ones included: it stops and returns only reachable disks, in order
   * without repetition; on a graph of the builder's size it returns all of them when simple chains fit
   * the depth cap, so the node cap never cuts the search.
   */
  method ResolveBackingPhysicalDisks(device: string, t: Topology) returns (disks: seq<Name>)
    ensures Resolved(t, device, disks)
  {
    var start, g := StartOf(t, device), t.nodes;
    if start.None? { return []; }
    if start.value !in g {
      NothingReachable(g, start.value);
      return [];
    }
    var pending, visited, physical := Search(start.value, g);
    if |g| <= MAX_NODES {
      // the node cap can only stop the loop once every node has been visited
      SubsetSize(visited, g.Keys);
      assert |g| == |g.Keys|;
      SearchIsComplete(g, start.value, pending, visited, physical);
    }
    disks := SortNames(physical);
  }

  lemma NothingReachable(g: Graph, start: Name)
    requires start !in g
    ensures forall d :: d in g ==> !Reachable(g, start, d)
  {
  }

  lemma SearchIsComplete(g: Graph, start: Name, pending: seq<(Name, nat)>, visited: set<Name>, physical: set<Name>)
    requires Searching(g, start, pending, visited, physical) && start in g && (pending == [] || visited == g.Keys)
    ensures ShortChains(g, start) ==> forall d :: d in g && IsDisk(g[d]) && Reachable(g, start, d) ==> d in physical
  {
    if ShortChains(g, start) {
      forall d | d in g && IsDisk(g[d]) && Reachable(g, start, d) ensures d in physical {
        var path :| Walk(g, path) && path[0] == start && path[|path| - 1] == d;
        ClosedHoldsWalk(g, visited, path);
      }
    }
  }

  method SortNames(names: set<Name>) returns (sorted: seq<Name>)
    ensures forall n :: n in sorted <==> n in names
    ensures |sorted| == |names| && Strict(sorted)
  {
    sorted := [];
    var rest := names;
    while rest != {}
      invariant rest <= names && forall n :: n in sorted <==> n in names && n !in rest
      invariant |sorted| + |rest| == |names| && Strict(sorted)
      decreases rest
    {
      var name :| name in rest;
      rest := rest - {name};
      InsertStrict(name, sorted);
      InsertMultiset(name, sorted, NameLe);
      var next := Insert(name, sorted, NameLe);
      forall n ensures n in next <==> n in sorted || n == name { assert n in next <==> n in multiset(next); }
      sorted := next;
    }
  }

  lemma {:induction false} InsertStrict(name: Name, s: seq<Name>)
    requires name !in s && Strict(s)
    ensures Strict(Insert(name, s, NameLe)) && |Insert(name, s, NameLe)| == |s| + 1
  {
    if s != [] {
      LessTotal(name, s[0]);
      if NameLe(name, s[0]) {
        forall j | 0 <= j < |s| ensures Less(name, s[j]) {
          if j > 0 { LessTransitive(name, s[0], s[j]); }
        }
      } else {
        InsertStrict(name, s[1..]);
        InsertMultiset(name, s[1..], NameLe);
        var t := Insert(name, s[1..], NameLe);
        forall j | 0 <= j < |t| ensures Less(s[0], t[j]) { assert t[j] in multiset(t); }
      }
    }
  }

  // ---- From the listing to the disk

  lemma {:induction false} VisitsAreNamed(b: Block, above: Option<Name>)
    ensures forall v :: v in VisitsOf(b, above) ==> IsName(v.name)
    decreases b, 1, 0
  {
    if Named(b) { VisitsBelowAreNamed(b, |b.children|); }
  }

  lemma {:induction false} VisitsBelowAreNamed(b: Block, k: nat)
    requires b.Block? && k <= |b.children|
    ensures forall v :: v in VisitsBelow(b, k) ==> IsName(v.name)
    decreases b, 0, k
  {
    if k > 0 {
      VisitsBelowAreNamed(b, k - 1);
      VisitsAreNamed(b.children[k - 1], KeyOf(b));
    }
  }

  lemma {:induction false} KindIsListed(visits: seq<Visit>, n: Name)
    requires LastKind(visits, n).Some?
    ensures exists v :: v in visits && v.name == n
    decreases |visits|
  {
    if visits[|visits| - 1].name == n {
      assert visits[|visits| - 1] in visits;
    } else {
      var front := visits[..|visits| - 1];
      KindIsListed(front, n);
      var v :| v in front && v.name == n;
      assert v in visits;
    }
  }

  lemma NameIsBlockName(n: Name)
    requires IsName(n)
    ensures BlockName(n) == Some(n)
  {
    NameOfPath([], n);
  }

  lemma ListedNodeIsNamed(devices: seq<Block>, n: Name)
    requires LastKind(ListedVisits(devices), n).Some?
    ensures IsName(n)
  {
    VisitsBelowAreNamed(Root(devices), |devices|);
    KindIsListed(ListedVisits(devices), n);
  }

  /** The names in the slave directory of a node. */
  function Slaves(listings: map<Name, seq<string>>, n: Name): seq<Name>
  {
    if n in listings then Normalized(Head(listings[n])) else []
  }

  lemma {:induction false} NamesStay(names: seq<Name>)
    requires forall n :: n in names ==> IsName(n)
    ensures Normalized(names) == names
    decreases |names|
  {
    if names != [] {
      var front := names[..|names| - 1];
      assert forall n :: n in front ==> n in names;
      NamesStay(front);
      assert names[|names| - 1] in names;
      NameIsBlockName(names[|names| - 1]);
      assert names == front + [names[|names| - 1]];
    }
  }

  lemma {:induction false} NormalizedAreNames(texts: seq<string>)
    ensures forall n :: n in Normalized(texts) ==> IsName(n)
    decreases |texts|
  {
    if texts != [] { NormalizedAreNames(texts[..|texts| - 1]); }
  }

  lemma {:induction false} VisitParentIsName(b: Block, above: Option<Name>)
    requires above.Some? ==> IsName(above.value)
    ensures forall v :: v in VisitsOf(b, above) ==> (v.own.Some? ==> IsName(v.own.value)) && (v.above.Some? ==> IsName(v.above.value))
    decreases b, 1, 0
  {
    if Named(b) { VisitBelowParentIsName(b, |b.children|); }
  }

  lemma {:induction false} VisitBelowParentIsName(b: Block, k: nat)
    requires b.Block? && k <= |b.children|
    ensures forall v :: v in VisitsBelow(b, k) ==> (v.own.Some? ==> IsName(v.own.value)) && (v.above.Some? ==> IsName(v.above.value))
    decreases b, 0, k
  {
    if k > 0 {
      VisitBelowParentIsName(b, k - 1);
      VisitParentIsName(b.children[k - 1], KeyOf(b));
    }
  }

  lemma {:induction false} ParentIsName(visits: seq<Visit>, n: Name)
    requires forall v :: v in visits ==> (v.own.Some? ==> IsName(v.own.value)) && (v.above.Some? ==> IsName(v.above.value))
    ensures LastOwn(visits, n).Some? ==> IsName(LastOwn(visits, n).value)
    ensures FirstAbove(visits, n).Some? ==> IsName(FirstAbove(visits, n).value)
    decreases |visits|
  {
    if visits != [] {
      var front := visits[..|visits| - 1];
      assert forall v :: v in front ==> v in visits;
      ParentIsName(front, n);
      assert visits[|visits| - 1] in visits;
    }
  }

  /** Below the node cap a built node has the type it was listed with, and leads on to its slaves or, without any, its parent. */
  lemma BuiltNode(devices: seq<Block>, listings: map<Name, seq<string>>, t: Topology, n: Name)
    requires Built(t, devices, listings) && |ListedTree(devices).nodes| < MAX_NODES
    ensures var visits := ListedVisits(devices);
            && (n in t.nodes <==> LastKind(visits, n).Some?)
            && (n in t.nodes ==>
                 && t.nodes[n].kind == LastKind(visits, n).value
                 && forall h :: h in Hops(t.nodes[n]) <==>
                      if Slaves(listings, n) != [] then h in Slaves(listings, n) else ListedParent(visits, n) == Some(h))
  {
    var visits := ListedVisits(devices);
    NodeIsAsListed(devices, n);
    if n in t.nodes {
      var node := t.nodes[n];
      assert Linked(ListedTree(devices).nodes[n], node, EntriesOf(listings, n));
      if Slaves(listings, n) != [] {
        NormalizedAreNames(Head(listings[n]));
        NamesStay(node.slaves);
        assert Slaves(listings, n)[0] in node.slaves;
      } else if ListedParent(visits, n).Some? {
        VisitBelowParentIsName(Root(devices), |devices|);
        ParentIsName(visits, n);
        NamesStay([ListedParent(visits, n).value]);
      }
    }
  }

  /** A node that is no disk and leads on only to a disk: it alone is behind the node. */
  lemma OneHopToDisk(g: Graph, n: Name, d: Name)
    requires n in g && d in g && !IsDisk(g[n]) && IsDisk(g[d])
    requires forall h :: h in Hops(g[n]) <==> h == d
    ensures ShortChains(g, n) && forall x :: (x in g && IsDisk(g[x]) && Reachable(g, n, x)) <==> x == d
  {
    forall path | Walk(g, path) && path[0] == n ensures |path| <= 2 && (|path| == 2 ==> path[1] == d) {
      if |path| > 1 { assert path[1] in Hops(g[path[0]]); }
    }
    assert Walk(g, [n, d]) && [n, d][0] == n && [n, d][|[n, d]| - 1] == d;
  }

  /**
   * End to end, for every listing below the node cap: a device that is no disk, has no slaves and is listed under a
   * disk resolves to exactly that disk, by every name and path that belongs to it alone.
   */
  lemma PartitionResolvesToItsDisk(
      devices: seq<Block>, listings: map<Name, seq<string>>, t: Topology, a: string, n: Name, d: Name, disks: seq<Name>)
    requires Built(t, devices, listings) && |ListedTree(devices).nodes| < MAX_NODES && Resolved(t, a, disks)
    requires OffersAny(devices, a, n) && forall m :: OffersAny(devices, a, m) ==> m == n
    requires var visits := ListedVisits(devices);
             && LastKind(visits, n) != Some("disk") && ListedParent(visits, n) == Some(d) && LastKind(visits, d) == Some("disk")
    requires Slaves(listings, n) == []
    ensures disks == [d]
  {
    AliasLeadsToItsDevice(devices, a);
    assert StartOf(ListedTree(devices), a) == Some(n) && StartOf(t, a) == Some(n);
    BuiltNode(devices, listings, t, n);
    BuiltNode(devices, listings, t, d);
    assert a in t.aliases && t.aliases[a] == n;
    OneHopToDisk(t.nodes, n, d);
    forall x ensures x in disks <==> x == d {}
    OnlyOne(disks, d);
  }

  lemma OnlyOne(disks: seq<Name>, d: Name)
    requires Strict(disks) && forall x :: x in disks <==> x == d
    ensures disks == [d]
  {
    assert d in disks && disks[0] in disks;
    if |disks| > 1 {
      assert disks[1] in disks;
      LessIrreflexive(d);
    }
  }
}
