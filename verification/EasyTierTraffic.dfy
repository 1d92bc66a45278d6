/** Metric samples, their per-instance grouping, and the payload the collector sends. */
module EasyTierTraffic {
  import opened Text
  import opened Sequences
  import opened EasyTierCollector
  import Counts = EasyTierCounts

  const MAX_SOURCE_STATS_ITEMS := 256

  datatype Sample = Sample(name: string, value: nat, labels: map<string, string>)

  predicate SameIdentity(a: Sample, b: Sample) { a.name == b.name && a.labels == b.labels }

  predicate Kept(samples: seq<Sample>, s: Sample) { exists i :: 0 <= i < |samples| && SameIdentity(samples[i], s) }

  /** The well-formed samples without repeats; None stands for a malformed item. */
  function Distinct(value: seq<Option<Sample>>): (r: seq<Sample>)
    ensures |r| <= |value|
  {
    if value == [] then []
    else
      var before, item := Distinct(value[..|value| - 1]), value[|value| - 1];
      if item.Some? && !Kept(before, item.value) then before + [item.value] else before
  }

  method MetricSamples(value: seq<Option<Sample>>) returns (r: Option<seq<Sample>>)
    ensures r == if |value| > MAX_SOURCE_STATS_ITEMS then None else Some(Distinct(value))
  {
    if |value| > MAX_SOURCE_STATS_ITEMS { return None; }
    var result: seq<Sample> := [];
    var identities: set<(string, map<string, string>)> := {};
    for i := 0 to |value|
      invariant result == Distinct(value[..i])
      invariant forall s: Sample :: (s.name, s.labels) in identities <==> Kept(result, s)
    {
      assert value[..i + 1][..i] == value[..i];
      if value[i].None? { continue; }
      var item := value[i].value;
      if (item.name, item.labels) in identities { continue; }
      KeptSnoc(result, item);
      identities := identities + {(item.name, item.labels)};
      result := result + [item];
    }
    assert value[..|value|] == value;
    r := Some(result);
  }

  lemma KeptSnoc(samples: seq<Sample>, item: Sample)
    ensures forall s: Sample :: Kept(samples + [item], s) <==> Kept(samples, s) || SameIdentity(item, s)
  {
    forall s: Sample ensures Kept(samples + [item], s) <==> Kept(samples, s) || SameIdentity(item, s) {
      var all := samples + [item];
      assert all[|samples|] == item;
      if Kept(samples, s) {
        var i :| 0 <= i < |samples| && SameIdentity(samples[i], s);
        assert SameIdentity(all[i], s);
      }
      if SameIdentity(item, s) { assert SameIdentity(all[|samples|], s); }
    }
  }

  predicate FirstOf(value: seq<Option<Sample>>, j: int, s: Sample)
  {
    0 <= j < |value| && value[j] == Some(s) &&
    forall k :: 0 <= k < j && value[k].Some? ==> !SameIdentity(value[k].value, s)
  }

  /** One sample for each identity observed, the first one. */
  lemma {:induction false} DistinctIsFirsts(value: seq<Option<Sample>>)
    ensures forall i, j :: 0 <= i < j < |Distinct(value)| ==> !SameIdentity(Distinct(value)[i], Distinct(value)[j])
    ensures forall s: Sample :: s in Distinct(value) <==> exists j :: FirstOf(value, j, s)
    ensures forall s: Sample :: Kept(Distinct(value), s) <==> exists j :: 0 <= j < |value| && value[j].Some? && SameIdentity(value[j].value, s)
    decreases |value|
  {
    if value != [] {
      var n := |value| - 1;
      var front, last := value[..n], value[n];
      DistinctIsFirsts(front);
      var before := Distinct(front);
      if last.Some? { KeptSnoc(before, last.value); }
      forall s: Sample ensures Kept(Distinct(value), s) <==> exists j :: 0 <= j < |value| && value[j].Some? && SameIdentity(value[j].value, s) {
        if exists j :: 0 <= j < n && front[j].Some? && SameIdentity(front[j].value, s) {
          var j :| 0 <= j < n && front[j].Some? && SameIdentity(front[j].value, s);
          assert value[j] == front[j];
        }
        if j :| 0 <= j < |value| && value[j].Some? && SameIdentity(value[j].value, s) {
          if j < n { assert front[j] == value[j]; }
        }
      }
      forall s: Sample ensures s in Distinct(value) <==> exists j :: FirstOf(value, j, s) {
        FirstsSnoc(front, last, s);
        assert value == front + [last];
        assert Kept(before, s) ==> exists j :: 0 <= j < n && front[j].Some? && SameIdentity(front[j].value, s);
      }
    }
  }

  lemma FirstsSnoc(front: seq<Option<Sample>>, last: Option<Sample>, s: Sample)
    ensures (exists j :: FirstOf(front + [last], j, s)) <==>
            (exists j :: FirstOf(front, j, s)) ||
            (last == Some(s) && forall k :: 0 <= k < |front| && front[k].Some? ==> !SameIdentity(front[k].value, s))
  {
    var all := front + [last];
    if j :| FirstOf(front, j, s) { assert FirstOf(all, j, s); }
    if last == Some(s) && forall k :: 0 <= k < |front| && front[k].Some? ==> !SameIdentity(front[k].value, s) {
      assert FirstOf(all, |front|, s);
    }
    if j :| FirstOf(all, j, s) {
      if j < |front| {
        forall k | 0 <= k < j && front[k].Some? ensures !SameIdentity(front[k].value, s) { assert all[k] == front[k]; }
        assert front[j] == all[j];
        assert FirstOf(front, j, s);
      }
      else {
        forall k | 0 <= k < |front| && front[k].Some? ensures !SameIdentity(front[k].value, s) { assert all[k] == front[k]; }
      }
    }
  }

  // ---- Grouping by instance pair

  datatype Counter = BytesRx | BytesTx | PacketsRx | PacketsTx

  function CounterOf(name: string): Option<Counter>
  {
    if name == "traffic_bytes_rx_by_instance" then Some(BytesRx)
    else if name == "traffic_bytes_tx_by_instance" then Some(BytesTx)
    else if name == "traffic_packets_rx_by_instance" then Some(PacketsRx)
    else if name == "traffic_packets_tx_by_instance" then Some(PacketsTx)
    else None
  }

  /** The four counters go by four names, and nothing else is a counter. */
  lemma CounterExactly(name: string)
    ensures CounterOf(name) == Some(BytesRx) <==> name == "traffic_bytes_rx_by_instance"
    ensures CounterOf(name) == Some(BytesTx) <==> name == "traffic_bytes_tx_by_instance"
    ensures CounterOf(name) == Some(PacketsRx) <==> name == "traffic_packets_rx_by_instance"
    ensures CounterOf(name) == Some(PacketsTx) <==> name == "traffic_packets_tx_by_instance"
  {
    if |name| == 28 {
      assert name == "traffic_bytes_rx_by_instance" ==> name[14] == 'r';
      assert name == "traffic_bytes_tx_by_instance" ==> name[14] == 't';
    } else if |name| == 30 {
      assert name == "traffic_packets_rx_by_instance" ==> name[16] == 'r';
      assert name == "traffic_packets_tx_by_instance" ==> name[16] == 't';
    }
  }

  datatype Key = Key(network: Option<string>, source: Option<string>, target: Option<string>)

  function Label(s: Sample, name: string): Option<string> { if name in s.labels then Some(s.labels[name]) else None }

  function KeyOf(s: Sample): Key { Key(Label(s, "network_name"), Label(s, "from_instance_id"), Label(s, "to_instance_id")) }

  /** The values reported for a pair; the last sample of a counter wins. */
  function ValuesOf(metrics: seq<Sample>, key: Key): map<Counter, nat>
  {
    if metrics == [] then map[]
    else
      var s, before := metrics[|metrics| - 1], ValuesOf(metrics[..|metrics| - 1], key);
      if CounterOf(s.name).Some? && KeyOf(s) == key then before[CounterOf(s.name).value := s.value] else before
  }

  /** A pair is told by three labels, each of which may be missing. */
  lemma KeyExactly(s: Sample)
    ensures KeyOf(s).network.Some? <==> "network_name" in s.labels
    ensures KeyOf(s).source.Some? <==> "from_instance_id" in s.labels
    ensures KeyOf(s).target.Some? <==> "to_instance_id" in s.labels
    ensures "network_name" in s.labels ==> KeyOf(s).network.value == s.labels["network_name"]
    ensures "from_instance_id" in s.labels ==> KeyOf(s).source.value == s.labels["from_instance_id"]
    ensures "to_instance_id" in s.labels ==> KeyOf(s).target.value == s.labels["to_instance_id"]
  {
  }

  predicate Reports(s: Sample, key: Key, counter: Counter) { CounterOf(s.name) == Some(counter) && KeyOf(s) == key }

  predicate LastReport(metrics: seq<Sample>, key: Key, counter: Counter, i: int)
  {
    0 <= i < |metrics| && Reports(metrics[i], key, counter) && forall j :: i < j < |metrics| ==> !Reports(metrics[j], key, counter)
  }

  /** A pair's counter has the value of the last sample that reports it, and none when no sample does. */
  lemma {:induction false} ValuesExactly(metrics: seq<Sample>, key: Key, counter: Counter)
    ensures counter in ValuesOf(metrics, key) <==> exists s :: s in metrics && Reports(s, key, counter)
    ensures counter in ValuesOf(metrics, key) ==>
              exists i :: LastReport(metrics, key, counter, i) && ValuesOf(metrics, key)[counter] == metrics[i].value
    decreases |metrics|
  {
    if metrics != [] {
      var front, last := metrics[..|metrics| - 1], metrics[|metrics| - 1];
      assert metrics == front + [last] && last in metrics;
      ValuesExactly(front, key, counter);
      if Reports(last, key, counter) {
        assert LastReport(metrics, key, counter, |front|);
      } else if counter in ValuesOf(front, key) {
        var i :| LastReport(front, key, counter, i) && ValuesOf(front, key)[counter] == front[i].value;
        assert LastReport(metrics, key, counter, i);
        assert front[i] in metrics;
      }
      if s :| s in metrics && Reports(s, key, counter) { assert s in front || s == last; }
    }
  }

  /** The pairs in the order they first appear. */
  function Pairs(metrics: seq<Sample>): (r: seq<Key>)
    ensures |r| <= |metrics|
  {
    if metrics == [] then []
    else
      var s, before := metrics[|metrics| - 1], Pairs(metrics[..|metrics| - 1]);
      if CounterOf(s.name).Some? && KeyOf(s) !in before then before + [KeyOf(s)] else before
  }

  lemma {:induction false} PairsAreObserved(metrics: seq<Sample>)
    ensures forall i, j :: 0 <= i < j < |Pairs(metrics)| ==> Pairs(metrics)[i] != Pairs(metrics)[j]
    ensures forall key :: key in Pairs(metrics) <==> exists s :: s in metrics && CounterOf(s.name).Some? && KeyOf(s) == key
    ensures forall key :: key in Pairs(metrics) <==> ValuesOf(metrics, key) != map[]
    ensures forall n :: 0 <= n <= |metrics| ==> Pairs(metrics[..n]) <= Pairs(metrics)
    decreases |metrics|
  {
    if metrics == [] {
      assert metrics[..0] == [];
    } else {
      var front, last := metrics[..|metrics| - 1], metrics[|metrics| - 1];
      assert metrics == front + [last];
      PairsAreObserved(front);
      assert last in metrics;
      forall n | 0 <= n <= |metrics| ensures Pairs(metrics[..n]) <= Pairs(metrics) {
        if n < |metrics| { assert metrics[..n] == front[..n]; } else { assert metrics[..n] == metrics; }
      }
      forall key ensures key in Pairs(metrics) <==> exists s :: s in metrics && CounterOf(s.name).Some? && KeyOf(s) == key {
        if s :| s in front && CounterOf(s.name).Some? && KeyOf(s) == key { assert s in metrics; }
        if s :| s in metrics && CounterOf(s.name).Some? && KeyOf(s) == key { assert s in front || s == last; }
      }
      forall key ensures key in Pairs(metrics) <==> ValuesOf(metrics, key) != map[] {
        if CounterOf(last.name).Some? && KeyOf(last) == key {
          assert CounterOf(last.name).value in ValuesOf(metrics, key);
        }
      }
    }
  }

  lemma AbsentPair(metrics: seq<Sample>, key: Key)
    requires key !in Pairs(metrics)
    ensures ValuesOf(metrics, key) == map[]
  {
    PairsAreObserved(metrics);
  }

  lemma GroupStep(front: seq<Sample>, s: Sample)
    ensures var counter, key := CounterOf(s.name), KeyOf(s);
            Pairs(front + [s]) == Pairs(front) + (if counter.Some? && key !in Pairs(front) then [key] else []) &&
            forall k :: ValuesOf(front + [s], k) ==
              if counter.Some? && key == k then ValuesOf(front, k)[counter.value := s.value] else ValuesOf(front, k)
  {
    assert (front + [s])[..|front|] == front;
  }

  datatype PairRow = PairRow(key: Key, values: map<Counter, nat>)

  ghost predicate Grouped(rows: seq<PairRow>, metrics: seq<Sample>)
  {
    |rows| == |Pairs(metrics)| &&
    forall i :: 0 <= i < |rows| ==> rows[i] == PairRow(Pairs(metrics)[i], ValuesOf(metrics, Pairs(metrics)[i]))
  }

  method GroupByPair(metrics: seq<Sample>) returns (rows: seq<PairRow>)
    ensures Grouped(rows, metrics)
  {
    var grouped: map<Key, map<Counter, nat>>, order: seq<Key> := map[], [];
    for i := 0 to |metrics|
      invariant order == Pairs(metrics[..i])
      invariant forall key :: key in grouped <==> key in order
      invariant forall key :: key in order ==> grouped[key] == ValuesOf(metrics[..i], key)
    {
      var sample := metrics[i];
      assert metrics[..i + 1] == metrics[..i] + [sample];
      GroupStep(metrics[..i], sample);
      if CounterOf(sample.name).None? { continue; }
      var key := KeyOf(sample);
      if key !in grouped {
        AbsentPair(metrics[..i], key);
        grouped := grouped[key := map[]];
        order := order + [key];
      }
      var row: map<Counter, nat> := grouped[key];
      row := row[CounterOf(sample.name).value := sample.value];
      grouped := grouped[key := row];
    }
    assert metrics[..|metrics|] == metrics;
    rows := seq(|order|, i requires 0 <= i < |order| => PairRow(order[i], grouped[order[i]]));
  }

  // ---- The payload

  /** The renderings of the rows, which the count check does not read. */
  datatype Rendering = Rendering(peer: PeerRow -> string, route: RouteRow -> string, connector: ConnectorRow -> string,
                                 pair: PairRow -> string, sample: Sample -> string)

  function Shown<T>(rows: seq<T>, render: T -> string): seq<string>
  {
    seq(|rows|, i requires 0 <= i < |rows| => render(rows[i]))
  }

  function ListCounts<T>(r: ListStats<T>, render: T -> string): Counts.Counted
  {
    Counts.Counted(r.total, r.displayed, r.truncated, Shown(r.items, render), true)
  }

  method CutList<T>(rows: seq<T>, limit: nat) returns (r: ListStats<T>)
    ensures r.total == |rows| && r.items == Cut(rows, limit) && r.displayed == |r.items|
    ensures r.truncated <==> r.displayed < r.total
  {
    var displayed := if |rows| <= limit then |rows| else limit;
    r := ListStats(|rows|, displayed, displayed < |rows|, rows[..displayed]);
  }

  ghost predicate Exact(c: Counts.Counted, limit: nat)
  {
    c.present && 0 <= c.total <= MAX_SOURCE_ITEMS && c.displayed == |c.rows| <= limit &&
    c.displayed <= c.total && (c.truncated <==> c.displayed < c.total)
  }

  ghost predicate WellCut<T>(r: ListStats<T>, limit: nat)
  {
    r.displayed == |r.items| <= limit && r.displayed <= r.total <= MAX_SOURCE_ITEMS && (r.truncated <==> r.displayed < r.total)
  }

  /** The distinct samples of an output that is there and not too long. */
  function Measured(stats: Option<seq<Option<Sample>>>): seq<Sample>
  {
    if stats.Some? && |stats.value| <= MAX_SOURCE_STATS_ITEMS then Distinct(stats.value) else []
  }

  method ApplyStats(stats: Option<seq<Option<Sample>>>) returns (b: ListStats<PairRow>, t: ListStats<Sample>)
    ensures WellCut(b, MAX_ITEMS) && WellCut(t, MAX_STATS_ITEMS)
    ensures var metrics := Measured(stats);
            t.total == |metrics| && t.items == Cut(metrics, MAX_STATS_ITEMS) &&
            b.total == |Pairs(metrics)| && exists rows :: Grouped(rows, metrics) && b.items == Cut(rows, MAX_ITEMS)
  {
    b, t := ListStats(0, 0, false, []), ListStats(0, 0, false, []);
    assert Grouped([], []) && Cut<PairRow>([], MAX_ITEMS) == [];
    if stats.None? { return; }
    var metrics := MetricSamples(stats.value);
    if metrics.None? { return; }
    t := CutList(metrics.value, MAX_STATS_ITEMS);
    var rows := GroupByPair(metrics.value);
    b := CutList(rows, MAX_ITEMS);
  }

  /** What the collector sends, on any output of the five commands; None stands for a missing or refused output. */
  method Collect(peers: seq<Peer>, own: Option<string>, routes: seq<Route>, overlay: Option<string>,
                 connectors: seq<Connector>, stats: Option<seq<Option<Sample>>>, render: Rendering)
    returns (sent: Counts.Stats)
    ensures WellFormed(sent)
    ensures var remotes := Remotes(Observed(peers), own);
            && sent.peers.total == |remotes| && sent.peers.rows == Shown(Cut(Rows(remotes), MAX_ITEMS), render.peer)
            && sent.direct == |OnPath(remotes, DirectPath)| && sent.relay == |OnPath(remotes, RelayedPath)|
            && sent.unknownPath == |OnPath(remotes, UnknownPath)|
    ensures sent.routes.total == |Observed(routes)| && sent.connectors.total == |Observed(connectors)|
    ensures sent.routes.rows == Shown(Cut(Mapped(Observed(routes), (t: Route) => RouteRowOf(t, own, overlay)), MAX_ITEMS), render.route)
    ensures sent.connectors.rows == Shown(Cut(Mapped(Observed(connectors), ConnectorRowOf), MAX_ITEMS), render.connector)
    ensures var metrics := Measured(stats);
            sent.samples.total == |metrics| && sent.byInstance.total == |Pairs(metrics)| &&
            sent.samples.rows == Shown(Cut(metrics, MAX_STATS_ITEMS), render.sample) &&
            exists rows :: Grouped(rows, metrics) && sent.byInstance.rows == Shown(Cut(rows, MAX_ITEMS), render.pair)
  {
    var p := ApplyPeers(peers, own);
    SummaryAddsUp(p, Remotes(Observed(peers), own));
    FilterShorter(Observed(peers), (q: Peer) => Remote(q, own));
    var r := ApplyRoutes(routes, own, overlay);
    var c, tcpConfigured, tcpActive := ApplyConnectors(connectors);
    var b, t := ApplyStats(stats);
    sent := Counts.Stats(
      Counts.Counted(p.total, p.displayed, p.truncated, Shown(p.items, render.peer), true),
      ListCounts(r, render.route), ListCounts(c, render.connector), ListCounts(b, render.pair), ListCounts(t, render.sample),
      p.direct, p.relay, p.unknown);
  }

  ghost predicate WellFormed(sent: Counts.Stats)
  {
    && Exact(sent.peers, MAX_ITEMS) && Exact(sent.routes, MAX_ITEMS) && Exact(sent.connectors, MAX_ITEMS)
    && Exact(sent.byInstance, MAX_ITEMS) && Exact(sent.samples, MAX_STATS_ITEMS)
    && sent.direct >= 0 && sent.relay >= 0 && sent.unknownPath >= 0
    && sent.direct + sent.relay + sent.unknownPath == sent.peers.total
  }

  lemma SentPassesCheck(sent: Counts.Stats)
    requires WellFormed(sent)
    ensures Counts.CountsOk(sent) && forall id: Counts.ListId :: Counts.Of(sent, id).present
  {
    forall id: Counts.ListId
      ensures Counts.ListOk(Counts.Of(sent, id), Counts.Limit(id)) && Counts.Of(sent, id).present
    {
    }
  }

  /** Whatever is sent passes the server's check, on arrival and again after a restart, and arrives unchanged. */
  lemma SentIsAcceptedForGood(sent: Counts.Stats)
    requires WellFormed(sent)
    ensures Counts.Accepted(Counts.Wire(sent), sent) && Counts.Decode(Counts.Persisted(sent)) == Counts.Decoded(sent)
  {
    SentPassesCheck(sent);
    Counts.WireArrives(sent);
    Counts.MarkedSurvivesRestart(sent);
  }
}
