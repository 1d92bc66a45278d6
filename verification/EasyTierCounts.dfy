/** Count metadata of the five EasyTier lists: the server's check, its encoder, decoder and restart. */
module EasyTierCounts {

  datatype ListId = Peers | Routes | Connectors | ByInstance | Samples

  datatype Part = PeersPart | RoutesPart | ConnectorsPart | TrafficPart

  datatype Field = Total | Displayed | Truncated | Items | Direct | Relay | UnknownPath

  /** The fields beside the counts: those the server requires by name, and the rest. */
  datatype Other = TcpConfigured | TcpActive | BytesRx | BytesTx | BytesForwarded | Unrequired(part: Part, name: string)

  /**
   * A JSON key, known by the field it folds to. The struct decoder takes any letter case; a lookup in
   * a raw map finds the exact spelling only.
   */
  datatype Key = Key(list: ListId, field: Field, exact: bool) | Beside(other: Other, exact: bool) | Foreign(name: string)

  datatype Json = Null | Number(value: int) | Flag(flag: bool) | Array(rows: seq<string>)

  datatype Entry = Entry(key: Key, value: Json)

  type Section = seq<Entry>

  /** One list as decoded, with the unexported presence bit. */
  datatype Counted = Counted(total: int, displayed: int, truncated: bool, rows: seq<string>, present: bool)

  datatype Stats = Stats(peers: Counted, routes: Counted, connectors: Counted, byInstance: Counted, samples: Counted,
                         direct: int, relay: int, unknownPath: int)

  function Of(stats: Stats, id: ListId): Counted
  {
    match id
    case Peers => stats.peers
    case Routes => stats.routes
    case Connectors => stats.connectors
    case ByInstance => stats.byInstance
    case Samples => stats.samples
  }

  function PartOf(id: ListId): Part
  {
    match id
    case Peers => PeersPart
    case Routes => RoutesPart
    case Connectors => ConnectorsPart
    case ByInstance => TrafficPart
    case Samples => TrafficPart
  }

  function PartOfOther(o: Other): Part
  {
    match o
    case TcpConfigured => ConnectorsPart
    case TcpActive => ConnectorsPart
    case Unrequired(part, _) => part
    case _ => TrafficPart
  }

  /** The traffic lists omit a zero total and count it as metadata; the others always write it. */
  predicate TotalIsMetadata(id: ListId) { PartOf(id) == TrafficPart }

  function Limit(id: ListId): nat { if id == Samples then 64 else 16 }

  // ---- The server's check

  const MAX_COUNT := 100000

  /** A sum in the server's 64-bit signed integers. */
  function Wrap64(n: int): int
  {
    (n + 0x8000_0000_0000_0000) % 0x1_0000_0000_0000_0000 - 0x8000_0000_0000_0000
  }

  predicate DisplayedCountOk(total: int, displayed: int, truncated: bool, present: bool, rows: nat, limit: nat)
  {
    if rows > limit then false
    else if !present && displayed == 0 && !truncated then true
    else !(displayed != rows || displayed > total || truncated != (displayed < total))
  }

  predicate ListOk(c: Counted, limit: nat)
  {
    0 <= c.total <= MAX_COUNT && DisplayedCountOk(c.total, c.displayed, c.truncated, c.present, |c.rows|, limit)
  }

  predicate PathsOk(stats: Stats)
  {
    stats.direct >= 0 && stats.relay >= 0 && stats.unknownPath >= 0 &&
    Wrap64(stats.direct + stats.relay + stats.unknownPath) == stats.peers.total
  }

  predicate CountsOk(stats: Stats)
  {
    PathsOk(stats) && forall id: ListId :: ListOk(Of(stats, id), Limit(id))
  }

  /** Checked path counts add up to the total exactly if their sum does not wrap around. */
  lemma PathsAddUp(stats: Stats)
    requires CountsOk(stats)
    ensures stats.direct + stats.relay + stats.unknownPath == stats.peers.total <==>
            stats.direct + stats.relay + stats.unknownPath < 0x8000_0000_0000_0000
  {
    assert ListOk(Of(stats, Peers), Limit(Peers));
  }

  lemma WrappedPathsPass() returns (stats: Stats)
    ensures CountsOk(stats) && stats.direct + stats.relay + stats.unknownPath != stats.peers.total
    ensures stats.direct < 0x8000_0000_0000_0000 && stats.relay < 0x8000_0000_0000_0000
  {
    var none := Counted(0, 0, false, [], true);
    stats := Stats(none, none, none, none, none, 0x7FFF_FFFF_FFFF_FFFF, 0x7FFF_FFFF_FFFF_FFFF, 2);
  }

  // ---- Decoding

  /** The last entry for a field; null leaves a number or a flag as it was. */
  function Read(s: Section, id: ListId, field: Field): Json
  {
    if s == [] then Null
    else
      var e := s[|s| - 1];
      if e.key.Key? && e.key.list == id && e.key.field == field && (e.value != Null || field == Items) then e.value
      else Read(s[..|s| - 1], id, field)
  }

  function Int(j: Json): int { if j.Number? then j.value else 0 }

  function Bool(j: Json): bool { j.Flag? && j.flag }

  function Rows(j: Json): seq<string> { if j.Array? then j.rows else [] }

  predicate Holds(s: Section, key: Key)
  {
    if s == [] then false else s[|s| - 1].key == key || Holds(s[..|s| - 1], key)
  }

  predicate HasKey(s: Section, id: ListId, field: Field) { Holds(s, Key(id, field, true)) }

  predicate HasMetadata(s: Section, id: ListId)
  {
    HasKey(s, id, Displayed) || HasKey(s, id, Truncated) || (TotalIsMetadata(id) && HasKey(s, id, Total))
  }

  /** A strict decoder's demands on one entry; the values of the fields beside the counts are not modelled. */
  predicate Typed(e: Entry, part: Part)
  {
    match e.key
    case Foreign(_) => false
    case Beside(o, _) => PartOfOther(o) == part
    case Key(list, field, _) =>
      PartOf(list) == part &&
      match field
      case Truncated => e.value.Null? || e.value.Flag?
      case Items => e.value.Null? || e.value.Array?
      case Direct => part == PeersPart && (e.value.Null? || e.value.Number?)
      case Relay => part == PeersPart && (e.value.Null? || e.value.Number?)
      case UnknownPath => part == PeersPart && (e.value.Null? || e.value.Number?)
      case _ => e.value.Null? || e.value.Number?
  }

  predicate SectionTyped(s: Section, part: Part) { forall i :: 0 <= i < |s| ==> Typed(s[i], part) }

  type Document = map<Part, Section>

  function Get(doc: Document, part: Part): Section { if part in doc then doc[part] else [] }

  function DecodedList(s: Section, id: ListId): Counted
  {
    Counted(Int(Read(s, id, Total)), Int(Read(s, id, Displayed)), Bool(Read(s, id, Truncated)),
            Rows(Read(s, id, Items)), HasMetadata(s, id))
  }

  datatype Decoding = Refused | Decoded(stats: Stats)

  predicate DocumentTyped(doc: Document) { forall part: Part :: SectionTyped(Get(doc, part), part) }

  /** The strict decoder, then the marking of presence bits. */
  function Decode(doc: Document): Decoding
  {
    if !DocumentTyped(doc) then Refused
    else
      var peers, traffic := Get(doc, PeersPart), Get(doc, TrafficPart);
      Decoded(Stats(DecodedList(peers, Peers), DecodedList(Get(doc, RoutesPart), Routes),
                    DecodedList(Get(doc, ConnectorsPart), Connectors),
                    DecodedList(traffic, ByInstance), DecodedList(traffic, Samples),
                    Int(Read(peers, Peers, Direct)), Int(Read(peers, Peers, Relay)), Int(Read(peers, Peers, UnknownPath))))
  }

  /** The fields that must be there by their exact names before anything is decoded. */
  predicate RequiredParts(peers: Section, routes: Section, connectors: Section, traffic: Section)
  {
    && HasKey(peers, Peers, Total) && HasKey(peers, Peers, Direct) && HasKey(peers, Peers, Relay) && HasKey(peers, Peers, UnknownPath)
    && HasKey(routes, Routes, Total) && HasKey(connectors, Connectors, Total)
    && Holds(connectors, Beside(TcpConfigured, true)) && Holds(connectors, Beside(TcpActive, true))
    && Holds(traffic, Beside(BytesRx, true)) && Holds(traffic, Beside(BytesTx, true)) && Holds(traffic, Beside(BytesForwarded, true))
  }

  predicate Required(doc: Document)
  {
    RequiredParts(Get(doc, PeersPart), Get(doc, RoutesPart), Get(doc, ConnectorsPart), Get(doc, TrafficPart))
  }

  /** The server takes the document and keeps these stats. */
  predicate Accepted(doc: Document, stats: Stats) { Required(doc) && Decode(doc) == Decoded(stats) && CountsOk(stats) }

  lemma DecodeIs(doc: Document, stats: Stats)
    requires DocumentTyped(doc)
    requires forall id: ListId :: DecodedList(Get(doc, PartOf(id)), id) == Of(stats, id)
    requires Int(Read(Get(doc, PeersPart), Peers, Direct)) == stats.direct
    requires Int(Read(Get(doc, PeersPart), Peers, Relay)) == stats.relay
    requires Int(Read(Get(doc, PeersPart), Peers, UnknownPath)) == stats.unknownPath
    ensures Decode(doc) == Decoded(stats)
  {
    assert forall id: ListId :: DecodedList(Get(doc, PartOf(id)), id) == Of(stats, id);
    assert DecodedList(Get(doc, PartOf(Peers)), Peers) == stats.peers;
    assert DecodedList(Get(doc, PartOf(Routes)), Routes) == stats.routes;
    assert DecodedList(Get(doc, PartOf(Connectors)), Connectors) == stats.connectors;
    assert DecodedList(Get(doc, PartOf(ByInstance)), ByInstance) == stats.byInstance;
    assert DecodedList(Get(doc, PartOf(Samples)), Samples) == stats.samples;
  }

  // ---- The check and the decoder, exactly

  /** A list's counts pass without metadata, or with counts that tell how many of all rows are shown. */
  lemma ListCheckExactly(c: Counted, limit: nat)
    ensures ListOk(c, limit) <==>
      && -1 < c.total < 100001 && |c.rows| <= limit
      && ((!c.present && c.displayed == 0 && !c.truncated)
          || (c.displayed == |c.rows| <= c.total && (c.truncated <==> |c.rows| < c.total)))
  {
  }

  /** The whole check: 64 samples and 16 of everything else are shown, and the paths add up in 64 bits. */
  lemma CountsCheckExactly(stats: Stats)
    ensures CountsOk(stats) <==>
      && stats.direct > -1 && stats.relay > -1 && stats.unknownPath > -1 && WrapsTo(stats.direct + stats.relay + stats.unknownPath, stats.peers.total)
      && ListOk(stats.peers, 16) && ListOk(stats.routes, 16) && ListOk(stats.connectors, 16) && ListOk(stats.byInstance, 16)
      && ListOk(stats.samples, 64)
  {
    if CountsOk(stats) {
      forall id: ListId ensures ListOk(Of(stats, id), Limit(id)) {}
      assert ListOk(Of(stats, Peers), 16) && ListOk(Of(stats, Routes), 16) && ListOk(Of(stats, Connectors), 16);
      assert ListOk(Of(stats, ByInstance), 16) && ListOk(Of(stats, Samples), 64);
    }
    WrapExactly(stats.direct + stats.relay + stats.unknownPath, stats.peers.total);
  }

  /** The 64-bit result of a sum: in range, and off by whole rounds. */
  ghost predicate WrapsTo(n: int, r: int)
  {
    -0x8000_0000_0000_0000 <= r < 0x8000_0000_0000_0000 && exists k: int :: WrapsBy(n, r, k)
  }

  predicate WrapsBy(n: int, r: int, k: int) { n == r + k * 0x1_0000_0000_0000_0000 }

  lemma WrapExactly(n: int, r: int)
    ensures Wrap64(n) == r <==> WrapsTo(n, r)
  {
    var m := n + 0x8000_0000_0000_0000;
    assert WrapsBy(n, Wrap64(n), m / 0x1_0000_0000_0000_0000);
    if WrapsTo(n, r) {
      var k :| WrapsBy(n, r, k);
      assert m == (r + 0x8000_0000_0000_0000) + k * 0x1_0000_0000_0000_0000;
    }
  }

  /** An entry for a field that says something: any but a null, which only empties a list of rows. */
  predicate Says(e: Entry, id: ListId, field: Field)
  {
    && e.key.Key? && e.key.list == id && e.key.field == field
    && (e.value == Null ==> field == Items)
  }

  predicate LastSays(s: Section, id: ListId, field: Field, i: int)
  {
    0 <= i < |s| && Says(s[i], id, field) && forall j :: i < j < |s| ==> !Says(s[j], id, field)
  }

  /** The decoder keeps the last value that says something, in whatever letter case its key is. */
  lemma {:induction false} ReadExactly(s: Section, id: ListId, field: Field)
    ensures (forall i :: 0 <= i < |s| ==> !Says(s[i], id, field)) ==> Read(s, id, field) == Null
    ensures forall i :: LastSays(s, id, field, i) ==> Read(s, id, field) == s[i].value
    decreases |s|
  {
    if s != [] && !Says(s[|s| - 1], id, field) {
      var front := s[..|s| - 1];
      ReadExactly(front, id, field);
      forall i | LastSays(s, id, field, i) ensures Read(s, id, field) == s[i].value {
        assert LastSays(front, id, field, i);
      }
    }
  }

  /** A lookup in the raw map finds an exactly spelled key only. */
  lemma {:induction false} HoldsExactly(s: Section, key: Key)
    ensures Holds(s, key) <==> exists i :: 0 <= i < |s| && s[i].key == key
    decreases |s|
  {
    if s != [] {
      var front := s[..|s| - 1];
      HoldsExactly(front, key);
      if i :| 0 <= i < |front| && front[i].key == key { assert s[i].key == key; }
      if i :| 0 <= i < |s| && s[i].key == key {
        if i < |front| { assert front[i].key == key; }
      }
    }
  }

  /** What counts as metadata of a list: its two display fields, and the total only of a list under traffic. */
  lemma MetadataExactly(s: Section, id: ListId)
    ensures HasMetadata(s, id) <==> exists i :: 0 <= i < |s| && IsMetadata(s[i], id)
  {
    HoldsExactly(s, Key(id, Displayed, true));
    HoldsExactly(s, Key(id, Truncated, true));
    HoldsExactly(s, Key(id, Total, true));
    if HasMetadata(s, id) {
      if HasKey(s, id, Displayed) {
        var i :| 0 <= i < |s| && s[i].key == Key(id, Displayed, true);
        assert IsMetadata(s[i], id);
      } else if HasKey(s, id, Truncated) {
        var i :| 0 <= i < |s| && s[i].key == Key(id, Truncated, true);
        assert IsMetadata(s[i], id);
      } else {
        var i :| 0 <= i < |s| && s[i].key == Key(id, Total, true);
        assert IsMetadata(s[i], id);
      }
    }
    if i :| 0 <= i < |s| && IsMetadata(s[i], id) { assert s[i].key == Key(id, s[i].key.field, true); }
  }

  predicate IsMetadata(e: Entry, id: ListId)
  {
    && e.key.Key? && e.key.list == id && e.key.exact
    && (e.key.field == Displayed || e.key.field == Truncated || (e.key.field == Total && (id == ByInstance || id == Samples)))
  }

  function RequiredKeys(part: Part): set<Key>
  {
    match part
    case PeersPart => {Key(Peers, Total, true), Key(Peers, Direct, true), Key(Peers, Relay, true), Key(Peers, UnknownPath, true)}
    case RoutesPart => {Key(Routes, Total, true)}
    case ConnectorsPart => {Key(Connectors, Total, true), Beside(TcpConfigured, true), Beside(TcpActive, true)}
    case TrafficPart => {Beside(BytesRx, true), Beside(BytesTx, true), Beside(BytesForwarded, true)}
  }

  lemma RequiredExactly(doc: Document)
    ensures Required(doc) <==> forall part: Part, key :: key in RequiredKeys(part) ==> Holds(Get(doc, part), key)
  {
    if forall part: Part, key :: key in RequiredKeys(part) ==> Holds(Get(doc, part), key) {
      forall part: Part, key | key in RequiredKeys(part) ensures Holds(Get(doc, part), key) {}
      assert RequiredKeys(PeersPart) == {Key(Peers, Total, true), Key(Peers, Direct, true), Key(Peers, Relay, true), Key(Peers, UnknownPath, true)};
      assert Key(Peers, Total, true) in RequiredKeys(PeersPart) && Key(Peers, Direct, true) in RequiredKeys(PeersPart);
      assert Key(Peers, Relay, true) in RequiredKeys(PeersPart) && Key(Peers, UnknownPath, true) in RequiredKeys(PeersPart);
      assert Key(Routes, Total, true) in RequiredKeys(RoutesPart) && Key(Connectors, Total, true) in RequiredKeys(ConnectorsPart);
      assert Beside(TcpConfigured, true) in RequiredKeys(ConnectorsPart) && Beside(TcpActive, true) in RequiredKeys(ConnectorsPart);
      assert Beside(BytesRx, true) in RequiredKeys(TrafficPart) && Beside(BytesTx, true) in RequiredKeys(TrafficPart);
      assert Beside(BytesForwarded, true) in RequiredKeys(TrafficPart);
    }
  }

  /** A strict decoder refuses unknown keys, keys of another part, and values of another type; a null fits everywhere. */
  lemma TypedExactly(e: Entry, part: Part)
    ensures Typed(e, part) <==>
      && !e.key.Foreign?
      && (e.key.Beside? ==> PartOfOther(e.key.other) == part)
      && (e.key.Key? ==>
           && PartOf(e.key.list) == part
           && (e.key.field in {Direct, Relay, UnknownPath} ==> part == PeersPart)
           && (e.value == Null
               || (e.value.Flag? && e.key.field == Truncated) || (e.value.Array? && e.key.field == Items)
               || (e.value.Number? && e.key.field !in {Truncated, Items})))
  {
  }

  /** Peers, routes and connectors are parts of their own; both lists of samples are in traffic. */
  lemma PartsExactly(id: ListId, o: Other)
    ensures PartOf(id) == TrafficPart <==> id in {ByInstance, Samples}
    ensures PartOf(id) == PeersPart <==> id == Peers
    ensures PartOf(id) == RoutesPart <==> id == Routes
    ensures o in {TcpConfigured, TcpActive} ==> PartOfOther(o) == ConnectorsPart
    ensures o in {BytesRx, BytesTx, BytesForwarded} ==> PartOfOther(o) == TrafficPart
    ensures o.Unrequired? ==> PartOfOther(o) == o.part
  {
  }

  lemma RefusedExactly(doc: Document)
    ensures Decode(doc).Refused? <==> exists part: Part, i :: 0 <= i < |Get(doc, part)| && !Typed(Get(doc, part)[i], part)
  {
    if DocumentTyped(doc) {
      forall part: Part ensures SectionTyped(Get(doc, part), part) {}
    } else {
      var part: Part :| !SectionTyped(Get(doc, part), part);
      var i :| 0 <= i < |Get(doc, part)| && !Typed(Get(doc, part)[i], part);
    }
  }

  /** A list as it reads in its section. */
  predicate ReadsAs(s: Section, id: ListId, c: Counted)
  {
    && c.total == Int(Read(s, id, Total)) && c.displayed == Int(Read(s, id, Displayed))
    && c.truncated == Bool(Read(s, id, Truncated)) && c.rows == Rows(Read(s, id, Items))
    && c.present == HasMetadata(s, id)
  }

  /** A document is decoded list by list, each from its own part. */
  lemma DecodedExactly(doc: Document)
    requires Decode(doc).Decoded?
    ensures var stats := Decode(doc).stats;
            && ReadsAs(Get(doc, PeersPart), Peers, stats.peers) && ReadsAs(Get(doc, RoutesPart), Routes, stats.routes)
            && ReadsAs(Get(doc, ConnectorsPart), Connectors, stats.connectors)
            && ReadsAs(Get(doc, TrafficPart), ByInstance, stats.byInstance) && ReadsAs(Get(doc, TrafficPart), Samples, stats.samples)
            && stats.direct == Int(Read(Get(doc, PeersPart), Peers, Direct))
            && stats.relay == Int(Read(Get(doc, PeersPart), Peers, Relay))
            && stats.unknownPath == Int(Read(Get(doc, PeersPart), Peers, UnknownPath))
  {
  }

  // ---- Encoding

  /** What the plain encoder writes for a field of a list; Null where it omits a zero value. */
  function PlainSlot(c: Counted, id: ListId, field: Field): Json
  {
    match field
    case Total => if c.total != 0 || !TotalIsMetadata(id) then Number(c.total) else Null
    case Displayed => if c.displayed != 0 then Number(c.displayed) else Null
    case Truncated => if c.truncated then Flag(true) else Null
    case Items => if c.rows != [] then Array(c.rows) else Null
    case _ => Null
  }

  function Add(s: Section, id: ListId, field: Field, value: Json): Section
  {
    if value == Null then s else s + [Entry(Key(id, field, true), value)]
  }

  function AddList(s: Section, c: Counted, id: ListId): Section
  {
    Add(Add(Add(Add(s, id, Total, PlainSlot(c, id, Total)), id, Displayed, PlainSlot(c, id, Displayed)),
            id, Truncated, PlainSlot(c, id, Truncated)), id, Items, PlainSlot(c, id, Items))
  }

  function PathSlot(stats: Stats, field: Field): Json
  {
    match field
    case Direct => Number(stats.direct)
    case Relay => Number(stats.relay)
    case UnknownPath => Number(stats.unknownPath)
    case _ => Null
  }

  function Paths(stats: Stats): Section
  {
    Add(Add(Add([], Peers, Direct, Number(stats.direct)), Peers, Relay, Number(stats.relay)),
        Peers, UnknownPath, Number(stats.unknownPath))
  }

  function Plain(stats: Stats, part: Part): Section
  {
    match part
    case PeersPart => AddList(Paths(stats), stats.peers, Peers)
    case RoutesPart => AddList([], stats.routes, Routes)
    case ConnectorsPart => AddList([], stats.connectors, Connectors)
    case TrafficPart => AddList(AddList([], stats.byInstance, ByInstance), stats.samples, Samples)
  }

  /** Assignment to a key of the raw map. */
  function Without(s: Section, key: Key): Section
  {
    if s == [] then []
    else if s[|s| - 1].key == key then Without(s[..|s| - 1], key)
    else Without(s[..|s| - 1], key) + [s[|s| - 1]]
  }

  function Put(s: Section, id: ListId, field: Field, value: Json): Section
  {
    Without(s, Key(id, field, true)) + [Entry(Key(id, field, true), value)]
  }

  function Explicit(s: Section, c: Counted, id: ListId): Section
  {
    var s1 := if TotalIsMetadata(id) then Put(s, id, Total, Number(c.total)) else s;
    Put(Put(s1, id, Displayed, Number(c.displayed)), id, Truncated, Flag(c.truncated))
  }

  /** The source's table of counts, row by row. */
  const ROWS := 5

  function Row(n: nat): ListId
    requires n < ROWS
  {
    if n == 0 then Peers else if n == 1 then Routes else if n == 2 then Connectors else if n == 3 then ByInstance else Samples
  }

  function RowOf(id: ListId): (n: nat)
    ensures n < ROWS && Row(n) == id
    ensures forall m: nat :: m < ROWS && Row(m) == id ==> m == n
  {
    match id
    case Peers => 0
    case Routes => 1
    case Connectors => 2
    case ByInstance => 3
    case Samples => 4
  }

  /** The effect of one row of the table, among the first `n`, on its section. */
  function Mark(s: Section, stats: Stats, id: ListId, n: nat): Section
  {
    if RowOf(id) < n && Of(stats, id).present then Explicit(s, Of(stats, id), id) else s
  }

  /** A section after the first `n` rows. */
  function Marked(stats: Stats, part: Part, n: nat): Section
  {
    match part
    case PeersPart => Mark(Plain(stats, part), stats, Peers, n)
    case RoutesPart => Mark(Plain(stats, part), stats, Routes, n)
    case ConnectorsPart => Mark(Plain(stats, part), stats, Connectors, n)
    case TrafficPart => Mark(Mark(Plain(stats, part), stats, ByInstance, n), stats, Samples, n)
  }

  const PARTS: set<Part> := {PeersPart, RoutesPart, ConnectorsPart, TrafficPart}

  function DocumentOf(f: Part -> Section): Document { map part | part in PARTS :: f(part) }

  function MarkedDocument(stats: Stats, n: nat): Document { DocumentOf((part: Part) => Marked(stats, part, n)) }

  function Persisted(stats: Stats): Document { MarkedDocument(stats, ROWS) }

  lemma MarkedStep(stats: Stats, part: Part, n: nat)
    requires n < ROWS && part != PartOf(Row(n))
    ensures Marked(stats, part, n + 1) == Marked(stats, part, n)
  {
  }

  lemma MarkedHere(stats: Stats, n: nat)
    requires n < ROWS
    ensures var id := Row(n); var before := Marked(stats, PartOf(id), n);
            Marked(stats, PartOf(id), n + 1) == if Of(stats, id).present then Explicit(before, Of(stats, id), id) else before
  {
  }

  lemma OnePartChanges(f: Part -> Section, g: Part -> Section, part: Part)
    requires forall p: Part :: p != part ==> f(p) == g(p)
    ensures DocumentOf(g) == DocumentOf(f)[part := g(part)]
  {
    assert part in PARTS;
  }

  lemma MarkedDocumentStep(stats: Stats, n: nat)
    requires n < ROWS
    ensures var part := PartOf(Row(n));
            MarkedDocument(stats, n + 1) == MarkedDocument(stats, n)[part := Marked(stats, part, n + 1)]
  {
    var f, g := (part: Part) => Marked(stats, part, n), (part: Part) => Marked(stats, part, n + 1);
    forall p: Part | p != PartOf(Row(n)) ensures f(p) == g(p) { MarkedStep(stats, p, n); }
    OnePartChanges(f, g, PartOf(Row(n)));
  }

  lemma MarkedAt(stats: Stats, part: Part, n: nat)
    ensures part in MarkedDocument(stats, n) && MarkedDocument(stats, n)[part] == Marked(stats, part, n)
    ensures Get(MarkedDocument(stats, n), part) == Marked(stats, part, n)
  {
    assert part in PARTS;
  }

  method MarkSection(s: Section, count: Counted, id: ListId) returns (section: Section)
    ensures section == Explicit(s, count, id)
  {
    section := s;
    if TotalIsMetadata(id) { section := Put(section, id, Total, Number(count.total)); }
    section := Put(section, id, Displayed, Number(count.displayed));
    section := Put(section, id, Truncated, Flag(count.truncated));
  }

  lemma NothingMarked(stats: Stats)
    ensures MarkedDocument(stats, 0) == map part | part in PARTS :: Plain(stats, part)
  {
  }

  method MarshalPersisted(stats: Stats) returns (sections: Document)
    ensures sections == Persisted(stats)
  {
    NothingMarked(stats);
    sections := map part | part in PARTS :: Plain(stats, part);
    for i := 0 to ROWS
      invariant sections == MarkedDocument(stats, i)
    {
      var id := Row(i);
      var count := Of(stats, id);
      MarkedDocumentStep(stats, i);
      MarkedHere(stats, i);
      MarkedAt(stats, PartOf(id), i);
      if !count.present { continue; }
      var section := MarkSection(sections[PartOf(id)], count, id);
      sections := sections[PartOf(id) := section];
    }
  }

  // ---- Reading back what was written

  lemma ReadSnoc(s: Section, e: Entry, id: ListId, field: Field)
    ensures Read(s + [e], id, field) ==
      if e.key.Key? && e.key.list == id && e.key.field == field && (e.value != Null || field == Items) then e.value
      else Read(s, id, field)
    ensures HasKey(s + [e], id, field) <==> e.key == Key(id, field, true) || HasKey(s, id, field)
  {
    assert (s + [e])[..|s|] == s;
  }

  lemma ReadAdd(s: Section, id': ListId, field': Field, value: Json, id: ListId, field: Field)
    ensures var t, here := Add(s, id', field', value), value != Null && id == id' && field == field';
            Read(t, id, field) == (if here then value else Read(s, id, field)) &&
            (HasKey(t, id, field) <==> here || HasKey(s, id, field))
  {
    if value != Null { ReadSnoc(s, Entry(Key(id', field', true), value), id, field); }
  }

  lemma {:induction false} ReadWithout(s: Section, key: Key, id: ListId, field: Field)
    requires key.Key? && !(key.list == id && key.field == field)
    ensures Read(Without(s, key), id, field) == Read(s, id, field)
    ensures HasKey(Without(s, key), id, field) <==> HasKey(s, id, field)
    decreases |s|
  {
    if s != [] {
      var front, e := s[..|s| - 1], s[|s| - 1];
      ReadWithout(front, key, id, field);
      ReadSnoc(Without(front, key), e, id, field);
    }
  }

  lemma ReadPut(s: Section, id': ListId, field': Field, value: Json, id: ListId, field: Field)
    requires value != Null
    ensures var t := Put(s, id', field', value);
            Read(t, id, field) == (if id == id' && field == field' then value else Read(s, id, field)) &&
            (HasKey(t, id, field) <==> (id == id' && field == field') || HasKey(s, id, field))
  {
    var key := Key(id', field', true);
    ReadSnoc(Without(s, key), Entry(key, value), id, field);
    if !(id == id' && field == field') { ReadWithout(s, key, id, field); }
  }

  lemma ReadAddList(s: Section, c: Counted, id': ListId, id: ListId, field: Field)
    ensures var t, slot := AddList(s, c, id'), PlainSlot(c, id', field);
            Read(t, id, field) == (if id == id' && slot != Null then slot else Read(s, id, field)) &&
            (HasKey(t, id, field) <==> (id == id' && slot != Null) || HasKey(s, id, field))
  {
    var v1, v2 := PlainSlot(c, id', Total), PlainSlot(c, id', Displayed);
    var v3, v4 := PlainSlot(c, id', Truncated), PlainSlot(c, id', Items);
    var s1 := Add(s, id', Total, v1);
    var s2 := Add(s1, id', Displayed, v2);
    var s3 := Add(s2, id', Truncated, v3);
    ReadAdd(s, id', Total, v1, id, field);
    ReadAdd(s1, id', Displayed, v2, id, field);
    ReadAdd(s2, id', Truncated, v3, id, field);
    ReadAdd(s3, id', Items, v4, id, field);
  }

  /** Any metadata value that is not zero. */
  predicate Nonzero(c: Counted, id: ListId)
  {
    c.displayed != 0 || c.truncated || (TotalIsMetadata(id) && c.total != 0)
  }

  lemma ReadPaths(stats: Stats, id: ListId, field: Field)
    ensures Read(Paths(stats), id, field) == if id == Peers then PathSlot(stats, field) else Null
    ensures HasKey(Paths(stats), id, field) <==> id == Peers && PathSlot(stats, field) != Null
  {
    var d := Add([], Peers, Direct, Number(stats.direct));
    ReadAdd([], Peers, Direct, Number(stats.direct), id, field);
    ReadAdd(d, Peers, Relay, Number(stats.relay), id, field);
    ReadAdd(Add(d, Peers, Relay, Number(stats.relay)), Peers, UnknownPath, Number(stats.unknownPath), id, field);
  }

  /** The four fields of every list. */
  predicate OfList(field: Field) { field == Total || field == Displayed || field == Truncated || field == Items }

  lemma PlainTrafficHolds(b: Counted, t: Counted, id: ListId, field: Field)
    requires OfList(field) && TotalIsMetadata(id)
    ensures var s, slot := AddList(AddList([], b, ByInstance), t, Samples), PlainSlot(if id == Samples then t else b, id, field);
            Read(s, id, field) == slot && (HasKey(s, id, field) <==> slot != Null)
  {
    var first := AddList([], b, ByInstance);
    ReadAddList([], b, ByInstance, id, field);
    ReadAddList(first, t, Samples, id, field);
  }

  lemma PlainHolds(stats: Stats, id: ListId, field: Field)
    requires OfList(field)
    ensures Read(Plain(stats, PartOf(id)), id, field) == PlainSlot(Of(stats, id), id, field)
    ensures HasKey(Plain(stats, PartOf(id)), id, field) <==> PlainSlot(Of(stats, id), id, field) != Null
  {
    match id
    case Peers =>
      ReadPaths(stats, id, field);
      ReadAddList(Paths(stats), stats.peers, Peers, id, field);
    case Routes => ReadAddList([], stats.routes, Routes, id, field);
    case Connectors => ReadAddList([], stats.connectors, Connectors, id, field);
    case ByInstance => PlainTrafficHolds(stats.byInstance, stats.samples, id, field);
    case Samples => PlainTrafficHolds(stats.byInstance, stats.samples, id, field);
  }

  /** The plain encoding alone gives back every value; only presence bits over zeros are lost. */
  lemma PlainReads(stats: Stats, id: ListId)
    ensures DecodedList(Plain(stats, PartOf(id)), id) == Of(stats, id).(present := Nonzero(Of(stats, id), id))
  {
    PlainHolds(stats, id, Total);
    PlainHolds(stats, id, Displayed);
    PlainHolds(stats, id, Truncated);
    PlainHolds(stats, id, Items);
  }

  /** What the marshalled row of the table of counts sets; Null where it leaves the field alone. */
  function ExplicitSlot(c: Counted, id: ListId, field: Field): Json
  {
    match field
    case Total => if TotalIsMetadata(id) then Number(c.total) else Null
    case Displayed => Number(c.displayed)
    case Truncated => Flag(c.truncated)
    case _ => Null
  }

  lemma ExplicitReads(s: Section, c: Counted, id': ListId, id: ListId, field: Field)
    ensures var t, slot := Explicit(s, c, id'), ExplicitSlot(c, id', field);
            Read(t, id, field) == (if id == id' && slot != Null then slot else Read(s, id, field)) &&
            (HasKey(t, id, field) <==> (id == id' && slot != Null) || HasKey(s, id, field))
  {
    var s1 := if TotalIsMetadata(id') then Put(s, id', Total, Number(c.total)) else s;
    var s2 := Put(s1, id', Displayed, Number(c.displayed));
    ReadPut(s, id', Total, Number(c.total), id, field);
    ReadPut(s1, id', Displayed, Number(c.displayed), id, field);
    ReadPut(s2, id', Truncated, Flag(c.truncated), id, field);
  }

  lemma ExplicitDecodes(s: Section, c: Counted, id': ListId, id: ListId)
    ensures var was, now := DecodedList(s, id), DecodedList(Explicit(s, c, id'), id);
            now == if id != id' then was
                   else Counted(if TotalIsMetadata(id) then c.total else was.total, c.displayed, c.truncated, was.rows, true)
  {
    ExplicitReads(s, c, id', id, Total);
    ExplicitReads(s, c, id', id, Displayed);
    ExplicitReads(s, c, id', id, Truncated);
    ExplicitReads(s, c, id', id, Items);
  }

  /** A list as it comes back: the presence bit is also set by any nonzero metadata. */
  function RestoredList(c: Counted, id: ListId): Counted { c.(present := c.present || Nonzero(c, id)) }

  lemma MarkDecodes(s: Section, stats: Stats, id': ListId, id: ListId)
    ensures var was, now, c := DecodedList(s, id), DecodedList(Mark(s, stats, id', ROWS), id), Of(stats, id);
            now == if id != id' || !c.present then was
                   else Counted(if TotalIsMetadata(id) then c.total else was.total, c.displayed, c.truncated, was.rows, true)
  {
    if Of(stats, id').present { ExplicitDecodes(s, Of(stats, id'), id', id); }
  }

  lemma MarkedReads(stats: Stats, id: ListId)
    ensures DecodedList(Marked(stats, PartOf(id), ROWS), id) == RestoredList(Of(stats, id), id)
  {
    var s := Plain(stats, PartOf(id));
    PlainReads(stats, id);
    if PartOf(id) == TrafficPart {
      MarkDecodes(s, stats, ByInstance, id);
      MarkDecodes(Mark(s, stats, ByInstance, ROWS), stats, Samples, id);
    } else {
      MarkDecodes(s, stats, id, id);
    }
  }

  lemma PathsSurvive(stats: Stats, field: Field)
    requires !OfList(field)
    ensures Read(Marked(stats, PeersPart, ROWS), Peers, field) == PathSlot(stats, field)
  {
    var s := Plain(stats, PeersPart);
    ReadPaths(stats, Peers, field);
    ReadAddList(Paths(stats), stats.peers, Peers, Peers, field);
    ExplicitReads(s, stats.peers, Peers, Peers, field);
  }

  lemma {:induction false} WithoutTyped(s: Section, key: Key, part: Part)
    requires SectionTyped(s, part)
    ensures SectionTyped(Without(s, key), part)
    decreases |s|
  {
    if s != [] { WithoutTyped(s[..|s| - 1], key, part); }
  }

  lemma PutTyped(s: Section, id: ListId, field: Field, value: Json, part: Part)
    requires SectionTyped(s, part) && Typed(Entry(Key(id, field, true), value), part)
    ensures SectionTyped(Put(s, id, field, value), part)
  {
    WithoutTyped(s, Key(id, field, true), part);
  }

  lemma ExplicitTyped(s: Section, c: Counted, id: ListId)
    requires SectionTyped(s, PartOf(id))
    ensures SectionTyped(Explicit(s, c, id), PartOf(id))
  {
    var part := PartOf(id);
    var s1 := if TotalIsMetadata(id) then Put(s, id, Total, Number(c.total)) else s;
    PutTyped(s, id, Total, Number(c.total), part);
    PutTyped(s1, id, Displayed, Number(c.displayed), part);
    PutTyped(Put(s1, id, Displayed, Number(c.displayed)), id, Truncated, Flag(c.truncated), part);
  }

  lemma AddTyped(s: Section, id: ListId, field: Field, value: Json)
    requires SectionTyped(s, PartOf(id)) && Typed(Entry(Key(id, field, true), value), PartOf(id))
    ensures SectionTyped(Add(s, id, field, value), PartOf(id))
  {
  }

  lemma AddListTyped(s: Section, c: Counted, id: ListId)
    requires SectionTyped(s, PartOf(id))
    ensures SectionTyped(AddList(s, c, id), PartOf(id))
  {
    var s1 := Add(s, id, Total, PlainSlot(c, id, Total));
    AddTyped(s, id, Total, PlainSlot(c, id, Total));
    var s2 := Add(s1, id, Displayed, PlainSlot(c, id, Displayed));
    AddTyped(s1, id, Displayed, PlainSlot(c, id, Displayed));
    var s3 := Add(s2, id, Truncated, PlainSlot(c, id, Truncated));
    AddTyped(s2, id, Truncated, PlainSlot(c, id, Truncated));
    AddTyped(s3, id, Items, PlainSlot(c, id, Items));
  }

  lemma PlainTyped(stats: Stats, part: Part)
    ensures SectionTyped(Plain(stats, part), part)
  {
    match part
    case PeersPart => AddListTyped(Paths(stats), stats.peers, Peers);
    case RoutesPart => AddListTyped([], stats.routes, Routes);
    case ConnectorsPart => AddListTyped([], stats.connectors, Connectors);
    case TrafficPart =>
      AddListTyped([], stats.byInstance, ByInstance);
      AddListTyped(AddList([], stats.byInstance, ByInstance), stats.samples, Samples);
  }

  lemma MarkTyped(s: Section, stats: Stats, id: ListId)
    requires SectionTyped(s, PartOf(id))
    ensures SectionTyped(Mark(s, stats, id, ROWS), PartOf(id))
  {
    ExplicitTyped(s, Of(stats, id), id);
  }

  lemma MarkedTyped(stats: Stats, part: Part)
    ensures SectionTyped(Marked(stats, part, ROWS), part)
  {
    var s := Plain(stats, part);
    PlainTyped(stats, part);
    match part
    case PeersPart => MarkTyped(s, stats, Peers);
    case RoutesPart => MarkTyped(s, stats, Routes);
    case ConnectorsPart => MarkTyped(s, stats, Connectors);
    case TrafficPart =>
      MarkTyped(s, stats, ByInstance);
      MarkTyped(Mark(s, stats, ByInstance, ROWS), stats, Samples);
  }

  // ---- A restart

  function Restored(stats: Stats): Stats
  {
    stats.(peers := RestoredList(stats.peers, Peers), routes := RestoredList(stats.routes, Routes),
           connectors := RestoredList(stats.connectors, Connectors),
           byInstance := RestoredList(stats.byInstance, ByInstance), samples := RestoredList(stats.samples, Samples))
  }

  /** Persisting and restoring any stats gives back every count, flag and row, and no presence bit is lost. */
  lemma PersistThenRestore(stats: Stats)
    ensures Decode(Persisted(stats)) == Decoded(Restored(stats))
  {
    var doc := Persisted(stats);
    forall part: Part ensures SectionTyped(Get(doc, part), part) {
      MarkedAt(stats, part, ROWS);
      MarkedTyped(stats, part);
    }
    forall id: ListId ensures DecodedList(Get(doc, PartOf(id)), id) == Of(Restored(stats), id) {
      ListRestored(stats, id);
      RestoredAt(stats, id);
    }
    PathRestored(stats, Direct);
    PathRestored(stats, Relay);
    PathRestored(stats, UnknownPath);
    DecodeIs(doc, Restored(stats));
  }

  lemma PathRestored(stats: Stats, field: Field)
    requires !OfList(field)
    ensures Read(Get(Persisted(stats), PeersPart), Peers, field) == PathSlot(stats, field)
  {
    MarkedAt(stats, PeersPart, ROWS);
    PathsSurvive(stats, field);
  }

  lemma RestoredAt(stats: Stats, id: ListId)
    ensures Of(Restored(stats), id) == RestoredList(Of(stats, id), id)
  {
  }

  lemma ListRestored(stats: Stats, id: ListId)
    ensures DecodedList(Get(Persisted(stats), PartOf(id)), id) == RestoredList(Of(stats, id), id)
  {
    MarkedAt(stats, PartOf(id), ROWS);
    MarkedReads(stats, id);
  }

  /** A total that the check never looked at, because the decoder filled it from a key the marking did not find. */
  predicate UnmarkedTotal(c: Counted)
  {
    !c.present && c.displayed == 0 && !c.truncated && c.total != 0
  }

  /** The verdict after a restart is the one before it, except on an unmarked total of a traffic list. */
  lemma VerdictAfterRestart(stats: Stats)
    ensures CountsOk(Restored(stats)) <==>
            CountsOk(stats) && !UnmarkedTotal(stats.byInstance) && !UnmarkedTotal(stats.samples)
  {
    var after := Restored(stats);
    forall id: ListId
      ensures ListOk(Of(after, id), Limit(id)) <==>
              ListOk(Of(stats, id), Limit(id)) && !(TotalIsMetadata(id) && UnmarkedTotal(Of(stats, id)))
    {
      assert Of(after, id) == RestoredList(Of(stats, id), id);
    }
    assert !CountsOk(stats) ==> !CountsOk(after) by {
      if CountsOk(after) {
        forall id: ListId ensures ListOk(Of(stats, id), Limit(id)) { assert ListOk(Of(after, id), Limit(id)); }
      }
    }
    if CountsOk(after) {
      assert ListOk(Of(after, ByInstance), Limit(ByInstance)) && ListOk(Of(after, Samples), Limit(Samples));
    }
  }

  /** Every count field is spelled exactly as the encoder spells it. */
  predicate ExactKeys(doc: Document)
  {
    forall part: Part :: SectionExact(Get(doc, part))
  }

  predicate SectionExact(s: Section) { forall i :: 0 <= i < |s| ==> !s[i].key.Foreign? && s[i].key.exact }

  lemma {:induction false} ValueNeedsKey(s: Section, id: ListId, field: Field)
    requires SectionExact(s) && Read(s, id, field) != Null
    ensures HasKey(s, id, field)
    decreases |s|
  {
    var front, e := s[..|s| - 1], s[|s| - 1];
    if e.key != Key(id, field, true) { ValueNeedsKey(front, id, field); }
  }

  lemma ExactListIsMarked(s: Section, id: ListId)
    requires SectionExact(s)
    ensures RestoredList(DecodedList(s, id), id) == DecodedList(s, id)
  {
    if Read(s, id, Displayed) != Null { ValueNeedsKey(s, id, Displayed); }
    if Read(s, id, Truncated) != Null { ValueNeedsKey(s, id, Truncated); }
    if Read(s, id, Total) != Null { ValueNeedsKey(s, id, Total); }
  }

  /** Whatever the decoder makes of a document with exact keys survives a restart unchanged, presence bits included. */
  lemma DecodedSurvivesRestart(doc: Document)
    requires ExactKeys(doc) && Decode(doc).Decoded?
    ensures Decode(Persisted(Decode(doc).stats)) == Decode(doc)
  {
    PersistThenRestore(Decode(doc).stats);
    assert SectionExact(Get(doc, PeersPart)) && SectionExact(Get(doc, RoutesPart));
    assert SectionExact(Get(doc, ConnectorsPart)) && SectionExact(Get(doc, TrafficPart));
    ExactListIsMarked(Get(doc, PeersPart), Peers);
    ExactListIsMarked(Get(doc, RoutesPart), Routes);
    ExactListIsMarked(Get(doc, ConnectorsPart), Connectors);
    ExactListIsMarked(Get(doc, TrafficPart), ByInstance);
    ExactListIsMarked(Get(doc, TrafficPart), Samples);
  }

  lemma MarkedIsKept(stats: Stats)
    requires forall id: ListId :: Of(stats, id).present
    ensures Restored(stats) == stats
  {
    assert Of(stats, Peers).present && Of(stats, Routes).present && Of(stats, Connectors).present;
    assert Of(stats, ByInstance).present && Of(stats, Samples).present;
  }

  lemma MarkedSurvivesRestart(stats: Stats)
    requires forall id: ListId :: Of(stats, id).present
    ensures Decode(Persisted(stats)) == Decoded(stats)
  {
    MarkedIsKept(stats);
    PersistThenRestore(stats);
  }

  /** A restart reads the stats back and its check passes. */
  predicate Rereadable(stats: Stats)
  {
    var again := Decode(Persisted(stats));
    again.Decoded? && CountsOk(again.stats)
  }

  lemma RereadExactly(stats: Stats)
    requires CountsOk(stats)
    ensures Rereadable(stats) <==> !UnmarkedTotal(stats.byInstance) && !UnmarkedTotal(stats.samples)
  {
    PersistThenRestore(stats);
    VerdictAfterRestart(stats);
  }

  /** Accepted stats can be read back exactly if no traffic list has an unmarked total; exact keys are enough. */
  lemma AcceptedIsRereadable(doc: Document, stats: Stats)
    requires Accepted(doc, stats)
    ensures Rereadable(stats) <==> !UnmarkedTotal(stats.byInstance) && !UnmarkedTotal(stats.samples)
    ensures ExactKeys(doc) ==> Rereadable(stats)
  {
    RereadExactly(stats);
    if ExactKeys(doc) { DecodedSurvivesRestart(doc); }
  }

  // ---- A total under a key in another letter case

  function Zero(key: Key): Entry { Entry(key, Number(0)) }

  /** Every required field, all zero, and the total of the instance rows as 5 under a key that is not spelled exactly. */
  function FoldedTotal(): Document
  {
    map[PeersPart := [Zero(Key(Peers, Total, true)), Zero(Key(Peers, Direct, true)), Zero(Key(Peers, Relay, true)),
                      Zero(Key(Peers, UnknownPath, true))],
        RoutesPart := [Zero(Key(Routes, Total, true))],
        ConnectorsPart := [Zero(Key(Connectors, Total, true)), Zero(Beside(TcpConfigured, true)), Zero(Beside(TcpActive, true))],
        TrafficPart := [Zero(Beside(BytesRx, true)), Zero(Beside(BytesTx, true)), Zero(Beside(BytesForwarded, true))] +
                       [Entry(Key(ByInstance, Total, false), Number(5))]]
  }

  lemma {:induction false} HoldsMember(s: Section, i: nat)
    requires i < |s|
    ensures Holds(s, s[i].key)
    decreases |s|
  {
    if i < |s| - 1 { HoldsMember(s[..|s| - 1], i); }
  }

  lemma {:induction false} HoldsNot(s: Section, key: Key)
    requires forall i :: 0 <= i < |s| ==> s[i].key != key
    ensures !Holds(s, key)
    decreases |s|
  {
    if s != [] { HoldsNot(s[..|s| - 1], key); }
  }

  lemma {:induction false} ReadsZero(s: Section, id: ListId, field: Field)
    requires forall i :: 0 <= i < |s| ==> s[i].value == Number(0)
    ensures Read(s, id, field) == Null || Read(s, id, field) == Number(0)
    decreases |s|
  {
    if s != [] { ReadsZero(s[..|s| - 1], id, field); }
  }

  const NOTHING := Counted(0, 0, false, [], false)

  /** Zeros and no metadata key decode to nothing. */
  lemma ZerosDecode(s: Section, id: ListId)
    requires forall i :: 0 <= i < |s| ==> s[i].value == Number(0)
    requires forall i :: 0 <= i < |s| ==> s[i].key != Key(id, Displayed, true) && s[i].key != Key(id, Truncated, true)
    requires TotalIsMetadata(id) ==> forall i :: 0 <= i < |s| ==> s[i].key != Key(id, Total, true)
    ensures DecodedList(s, id) == NOTHING
  {
    ReadsZero(s, id, Total);
    ReadsZero(s, id, Displayed);
    ReadsZero(s, id, Truncated);
    ReadsZero(s, id, Items);
    HoldsNot(s, Key(id, Displayed, true));
    HoldsNot(s, Key(id, Truncated, true));
    if TotalIsMetadata(id) { HoldsNot(s, Key(id, Total, true)); }
  }

  lemma FoldedTrafficDecodes(zeros: Section, id: ListId)
    requires zeros == [Zero(Beside(BytesRx, true)), Zero(Beside(BytesTx, true)), Zero(Beside(BytesForwarded, true))]
    requires TotalIsMetadata(id)
    ensures DecodedList(zeros + [Entry(Key(ByInstance, Total, false), Number(5))], id) ==
            if id == ByInstance then NOTHING.(total := 5) else NOTHING
  {
    var last := Entry(Key(ByInstance, Total, false), Number(5));
    ZerosDecode(zeros, id);
    ReadSnoc(zeros, last, id, Total);
    ReadSnoc(zeros, last, id, Displayed);
    ReadSnoc(zeros, last, id, Truncated);
    ReadSnoc(zeros, last, id, Items);
  }

  function FoldedStats(): Stats { Stats(NOTHING, NOTHING, NOTHING, NOTHING.(total := 5), NOTHING, 0, 0, 0) }

  lemma FoldedListsDecode(id: ListId)
    ensures DecodedList(Get(FoldedTotal(), PartOf(id)), id) == Of(FoldedStats(), id)
  {
    var s := Get(FoldedTotal(), PartOf(id));
    if TotalIsMetadata(id) {
      FoldedTrafficDecodes(s[..3], id);
      assert s == s[..3] + [s[3]];
    } else {
      ZerosDecode(s, id);
    }
  }

  lemma FoldedPathsDecode(peers: Section)
    requires forall i :: 0 <= i < |peers| ==> peers[i].value == Number(0)
    ensures Int(Read(peers, Peers, Direct)) == Int(Read(peers, Peers, Relay)) == Int(Read(peers, Peers, UnknownPath)) == 0
  {
    ReadsZero(peers, Peers, Direct);
    ReadsZero(peers, Peers, Relay);
    ReadsZero(peers, Peers, UnknownPath);
  }

  lemma FoldedTotalIsTyped()
    ensures DocumentTyped(FoldedTotal())
  {
    forall part: Part ensures SectionTyped(Get(FoldedTotal(), part), part) {
      match part
      case PeersPart =>
      case RoutesPart =>
      case ConnectorsPart =>
      case TrafficPart =>
    }
  }

  lemma FoldedTotalDecodes(doc: Document, stats: Stats)
    requires doc == FoldedTotal() && stats == FoldedStats()
    ensures Decode(doc) == Decoded(stats)
  {
    FoldedTotalIsTyped();
    forall id: ListId ensures DecodedList(Get(doc, PartOf(id)), id) == Of(stats, id) { FoldedListsDecode(id); }
    FoldedPathsDecode(Get(doc, PeersPart));
    DecodeIs(doc, stats);
  }

  lemma FoldedTotalIsComplete()
    ensures Required(FoldedTotal())
  {
    var doc := FoldedTotal();
    var peers, routes := Get(doc, PeersPart), Get(doc, RoutesPart);
    var connectors, traffic := Get(doc, ConnectorsPart), Get(doc, TrafficPart);
    HoldsMember(peers, 0);
    HoldsMember(peers, 1);
    HoldsMember(peers, 2);
    HoldsMember(peers, 3);
    HoldsMember(routes, 0);
    HoldsMember(connectors, 0);
    HoldsMember(connectors, 1);
    HoldsMember(connectors, 2);
    HoldsMember(traffic, 0);
    HoldsMember(traffic, 1);
    HoldsMember(traffic, 2);
  }

  /** Without exact keys: the document is accepted, and its stats are refused after a restart. */
  lemma FoldedTotalIsNotRestorable() returns (doc: Document, stats: Stats)
    ensures doc == FoldedTotal() && Accepted(doc, stats) && !Rereadable(stats)
  {
    doc, stats := FoldedTotal(), FoldedStats();
    FoldedTotalIsComplete();
    FoldedTotalDecodes(doc, stats);
    forall id: ListId ensures WithoutMetadata(Of(stats, id)) { }
    WithoutMetadataPasses(stats);
    AcceptedIsRereadable(doc, stats);
  }

  predicate WithoutMetadata(c: Counted)
  {
    0 <= c.total <= MAX_COUNT && c.displayed == 0 && !c.truncated && c.rows == [] && !c.present
  }

  lemma WithoutMetadataPasses(stats: Stats)
    requires forall id: ListId :: WithoutMetadata(Of(stats, id))
    requires stats.direct == stats.relay == stats.unknownPath == stats.peers.total == 0
    ensures CountsOk(stats)
  {
    forall id: ListId ensures ListOk(Of(stats, id), Limit(id)) {
      assert WithoutMetadata(Of(stats, id));
    }
  }

  // ---- What a sender that writes every field puts on the wire

  function WireSlot(c: Counted, field: Field): Json
  {
    match field
    case Total => Number(c.total)
    case Displayed => Number(c.displayed)
    case Truncated => Flag(c.truncated)
    case Items => Array(c.rows)
    case _ => Null
  }

  function AddWire(s: Section, c: Counted, id: ListId): Section
  {
    Add(Add(Add(Add(s, id, Total, WireSlot(c, Total)), id, Displayed, WireSlot(c, Displayed)),
            id, Truncated, WireSlot(c, Truncated)), id, Items, WireSlot(c, Items))
  }

  /** The required fields beside the counts; their values do not matter here. */
  const CONNECTOR_FIELDS: Section := [Zero(Beside(TcpConfigured, true)), Zero(Beside(TcpActive, true))]
  const TRAFFIC_FIELDS: Section := [Zero(Beside(BytesRx, true)), Zero(Beside(BytesTx, true)), Zero(Beside(BytesForwarded, true))]

  function WirePart(stats: Stats, part: Part): Section
  {
    match part
    case PeersPart => AddWire(Paths(stats), stats.peers, Peers)
    case RoutesPart => AddWire([], stats.routes, Routes)
    case ConnectorsPart => AddWire(CONNECTOR_FIELDS, stats.connectors, Connectors)
    case TrafficPart => AddWire(AddWire(TRAFFIC_FIELDS, stats.byInstance, ByInstance), stats.samples, Samples)
  }

  function Wire(stats: Stats): Document { map part | part in PARTS :: WirePart(stats, part) }

  lemma ReadAddWire(s: Section, c: Counted, id': ListId, id: ListId, field: Field)
    ensures var t, slot := AddWire(s, c, id'), WireSlot(c, field);
            Read(t, id, field) == (if id == id' && slot != Null then slot else Read(s, id, field)) &&
            (HasKey(t, id, field) <==> (id == id' && slot != Null) || HasKey(s, id, field))
  {
    var v1, v2, v3, v4 := WireSlot(c, Total), WireSlot(c, Displayed), WireSlot(c, Truncated), WireSlot(c, Items);
    var s1 := Add(s, id', Total, v1);
    var s2 := Add(s1, id', Displayed, v2);
    var s3 := Add(s2, id', Truncated, v3);
    ReadAdd(s, id', Total, v1, id, field);
    ReadAdd(s1, id', Displayed, v2, id, field);
    ReadAdd(s2, id', Truncated, v3, id, field);
    ReadAdd(s3, id', Items, v4, id, field);
  }

  lemma WireHolds(stats: Stats, id: ListId, field: Field)
    requires OfList(field)
    ensures Read(WirePart(stats, PartOf(id)), id, field) == WireSlot(Of(stats, id), field)
    ensures HasKey(WirePart(stats, PartOf(id)), id, field)
  {
    match id
    case Peers => ReadAddWire(Paths(stats), stats.peers, Peers, id, field);
    case Routes => ReadAddWire([], stats.routes, Routes, id, field);
    case Connectors => ReadAddWire(CONNECTOR_FIELDS, stats.connectors, Connectors, id, field);
    case ByInstance =>
      ReadAddWire(TRAFFIC_FIELDS, stats.byInstance, ByInstance, id, field);
      ReadAddWire(AddWire(TRAFFIC_FIELDS, stats.byInstance, ByInstance), stats.samples, Samples, id, field);
    case Samples => ReadAddWire(AddWire(TRAFFIC_FIELDS, stats.byInstance, ByInstance), stats.samples, Samples, id, field);
  }

  lemma WireDecodes(stats: Stats, id: ListId)
    ensures DecodedList(WirePart(stats, PartOf(id)), id) == Of(stats, id).(present := true)
  {
    WireHolds(stats, id, Total);
    WireHolds(stats, id, Displayed);
    WireHolds(stats, id, Truncated);
    WireHolds(stats, id, Items);
  }

  lemma WirePaths(stats: Stats, field: Field)
    requires !OfList(field)
    ensures Read(WirePart(stats, PeersPart), Peers, field) == PathSlot(stats, field)
  {
    ReadPaths(stats, Peers, field);
    ReadAddWire(Paths(stats), stats.peers, Peers, Peers, field);
  }

  /** A section whose entries all pass some test stays so when a well-typed exact entry is added. */
  predicate Clean(s: Section, part: Part) { SectionTyped(s, part) && SectionExact(s) }

  lemma AddWireClean(s: Section, c: Counted, id: ListId)
    requires Clean(s, PartOf(id))
    ensures Clean(AddWire(s, c, id), PartOf(id))
  {
    var s1 := Add(s, id, Total, WireSlot(c, Total));
    assert Clean(s1, PartOf(id));
    var s2 := Add(s1, id, Displayed, WireSlot(c, Displayed));
    assert Clean(s2, PartOf(id));
    var s3 := Add(s2, id, Truncated, WireSlot(c, Truncated));
    assert Clean(s3, PartOf(id));
  }

  lemma WireClean(stats: Stats, part: Part)
    ensures Clean(WirePart(stats, part), part)
  {
    match part
    case PeersPart =>
      assert Clean(Paths(stats), PeersPart);
      AddWireClean(Paths(stats), stats.peers, Peers);
    case RoutesPart => AddWireClean([], stats.routes, Routes);
    case ConnectorsPart =>
      assert Clean(CONNECTOR_FIELDS, ConnectorsPart);
      AddWireClean(CONNECTOR_FIELDS, stats.connectors, Connectors);
    case TrafficPart =>
      assert Clean(TRAFFIC_FIELDS, TrafficPart);
      AddWireClean(TRAFFIC_FIELDS, stats.byInstance, ByInstance);
      AddWireClean(AddWire(TRAFFIC_FIELDS, stats.byInstance, ByInstance), stats.samples, Samples);
  }

  lemma AddHolds(s: Section, id: ListId, field: Field, value: Json, key: Key)
    requires Holds(s, key)
    ensures Holds(Add(s, id, field, value), key)
  {
    if value != Null { assert (s + [Entry(Key(id, field, true), value)])[..|s|] == s; }
  }

  lemma AddWireHolds(s: Section, c: Counted, id: ListId, key: Key)
    requires Holds(s, key)
    ensures Holds(AddWire(s, c, id), key)
  {
    var s1 := Add(s, id, Total, WireSlot(c, Total));
    var s2 := Add(s1, id, Displayed, WireSlot(c, Displayed));
    var s3 := Add(s2, id, Truncated, WireSlot(c, Truncated));
    AddHolds(s, id, Total, WireSlot(c, Total), key);
    AddHolds(s1, id, Displayed, WireSlot(c, Displayed), key);
    AddHolds(s2, id, Truncated, WireSlot(c, Truncated), key);
    AddHolds(s3, id, Items, WireSlot(c, Items), key);
  }

  lemma OtherFieldsAreSent(stats: Stats, i: nat)
    ensures i < |CONNECTOR_FIELDS| ==> Holds(WirePart(stats, ConnectorsPart), CONNECTOR_FIELDS[i].key)
    ensures i < |TRAFFIC_FIELDS| ==> Holds(WirePart(stats, TrafficPart), TRAFFIC_FIELDS[i].key)
  {
    if i < |CONNECTOR_FIELDS| {
      HoldsMember(CONNECTOR_FIELDS, i);
      AddWireHolds(CONNECTOR_FIELDS, stats.connectors, Connectors, CONNECTOR_FIELDS[i].key);
    }
    if i < |TRAFFIC_FIELDS| {
      HoldsMember(TRAFFIC_FIELDS, i);
      AddWireHolds(TRAFFIC_FIELDS, stats.byInstance, ByInstance, TRAFFIC_FIELDS[i].key);
      AddWireHolds(AddWire(TRAFFIC_FIELDS, stats.byInstance, ByInstance), stats.samples, Samples, TRAFFIC_FIELDS[i].key);
    }
  }

  lemma PathsAreSent(stats: Stats, field: Field)
    requires !OfList(field)
    ensures HasKey(WirePart(stats, PeersPart), Peers, field)
  {
    ReadPaths(stats, Peers, field);
    ReadAddWire(Paths(stats), stats.peers, Peers, Peers, field);
  }

  lemma PeersAreComplete(stats: Stats)
    ensures var peers := WirePart(stats, PeersPart);
            HasKey(peers, Peers, Total) && HasKey(peers, Peers, Direct) && HasKey(peers, Peers, Relay) && HasKey(peers, Peers, UnknownPath)
  {
    WireHolds(stats, Peers, Total);
    PathsAreSent(stats, Direct);
    PathsAreSent(stats, Relay);
    PathsAreSent(stats, UnknownPath);
  }

  lemma TrafficIsComplete(stats: Stats)
    ensures var traffic := WirePart(stats, TrafficPart);
            Holds(traffic, Beside(BytesRx, true)) && Holds(traffic, Beside(BytesTx, true)) && Holds(traffic, Beside(BytesForwarded, true))
  {
    OtherFieldsAreSent(stats, 0);
    OtherFieldsAreSent(stats, 1);
    OtherFieldsAreSent(stats, 2);
  }

  lemma ConnectorsAreComplete(stats: Stats)
    ensures var connectors := WirePart(stats, ConnectorsPart);
            HasKey(connectors, Connectors, Total) && Holds(connectors, Beside(TcpConfigured, true)) && Holds(connectors, Beside(TcpActive, true))
  {
    WireHolds(stats, Connectors, Total);
    OtherFieldsAreSent(stats, 0);
    OtherFieldsAreSent(stats, 1);
  }

  lemma WireIsComplete(stats: Stats)
    ensures Required(Wire(stats))
  {
    PeersAreComplete(stats);
    ConnectorsAreComplete(stats);
    TrafficIsComplete(stats);
    WireHolds(stats, Routes, Total);
    var doc := Wire(stats);
    assert RequiredParts(Get(doc, PeersPart), Get(doc, RoutesPart), Get(doc, ConnectorsPart), Get(doc, TrafficPart)) by {
      WireAt(stats, PeersPart);
      WireAt(stats, RoutesPart);
      WireAt(stats, ConnectorsPart);
      WireAt(stats, TrafficPart);
    }
  }

  /** Sent with every field, the stats arrive as they were, with every presence bit set. */
  lemma WireArrives(stats: Stats)
    requires forall id: ListId :: Of(stats, id).present
    ensures Required(Wire(stats)) && Decode(Wire(stats)) == Decoded(stats) && ExactKeys(Wire(stats))
  {
    WireIsComplete(stats);
    WireIsDecoded(stats);
  }

  lemma WireIsDecoded(stats: Stats)
    requires forall id: ListId :: Of(stats, id).present
    ensures Decode(Wire(stats)) == Decoded(stats) && ExactKeys(Wire(stats))
  {
    var doc := Wire(stats);
    forall part: Part ensures SectionTyped(Get(doc, part), part) && SectionExact(Get(doc, part)) {
      WireAt(stats, part);
      WireClean(stats, part);
    }
    forall id: ListId ensures DecodedList(Get(doc, PartOf(id)), id) == Of(stats, id) {
      WireAt(stats, PartOf(id));
      WireDecodes(stats, id);
    }
    WireAt(stats, PeersPart);
    WirePaths(stats, Direct);
    WirePaths(stats, Relay);
    WirePaths(stats, UnknownPath);
    DecodeIs(doc, stats);
  }

  lemma WireAt(stats: Stats, part: Part)
    ensures Get(Wire(stats), part) == WirePart(stats, part)
  {
  }
}
