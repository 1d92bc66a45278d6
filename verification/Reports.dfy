/** Which reports a restart can read back: what a report's EasyTier counts have to do with its payload's restorability. */
module Reports {
  import opened Text
  import opened Devices
  import opened Protocol
  import opened Durability
  import opened Replay
  import opened Custody
  import opened Answers
  import Counts = EasyTierCounts

  /** The placeholder that is kept when a document is refused: the report goes on without its counts. */
  function Degraded(): Counts.Stats
  {
    Counts.Stats(Counts.NOTHING, Counts.NOTHING, Counts.NOTHING, Counts.NOTHING, Counts.NOTHING, 0, 0, 0)
  }

  function Kept(doc: Counts.Document): Counts.Stats
  {
    var decoded := Counts.Decode(doc);
    if decoded.Decoded? && Counts.Accepted(doc, decoded.stats) then decoded.stats else Degraded()
  }

  /** Everything of a report but its EasyTier document, and whether a restart reads all of that back. */
  datatype Rest = Rest(content: string, readable: bool)

  /** What the server keeps of a report with an optional EasyTier document. */
  function PayloadOf(rest: Rest, easytier: Option<Counts.Document>): Payload
  {
    Payload(rest.content, rest.readable && (easytier.Some? ==> Counts.Rereadable(Kept(easytier.value))))
  }

  lemma DegradedList(id: Counts.ListId)
    ensures Counts.WithoutMetadata(Counts.Of(Degraded(), id)) && !Counts.UnmarkedTotal(Counts.Of(Degraded(), id))
  {
  }

  lemma DegradedPasses(stats: Counts.Stats)
    requires forall id: Counts.ListId :: Counts.WithoutMetadata(Counts.Of(stats, id)) && !Counts.UnmarkedTotal(Counts.Of(stats, id))
    requires stats.direct == stats.relay == stats.unknownPath == stats.peers.total == 0
    ensures Counts.Rereadable(stats)
  {
    Counts.WithoutMetadataPasses(stats);
    Counts.RereadExactly(stats);
    assert !Counts.UnmarkedTotal(Counts.Of(stats, Counts.ByInstance)) && !Counts.UnmarkedTotal(Counts.Of(stats, Counts.Samples));
  }

  lemma KeptCases(doc: Counts.Document, stats: Counts.Stats)
    requires stats == Kept(doc)
    ensures Counts.Accepted(doc, stats) || stats == Degraded()
  {
  }

  lemma KeptIsRereadable(doc: Counts.Document, stats: Counts.Stats)
    requires Counts.Accepted(doc, stats) || stats == Degraded()
    ensures Counts.Rereadable(stats) <==> !Counts.UnmarkedTotal(stats.byInstance) && !Counts.UnmarkedTotal(stats.samples)
    ensures Counts.ExactKeys(doc) ==> Counts.Rereadable(stats)
  {
    if Counts.Accepted(doc, stats) {
      Counts.AcceptedIsRereadable(doc, stats);
    } else {
      forall id: Counts.ListId
        ensures Counts.WithoutMetadata(Counts.Of(stats, id)) && !Counts.UnmarkedTotal(Counts.Of(stats, id))
      {
        DegradedList(id);
      }
      DegradedPasses(stats);
    }
  }

  /** A report is restorable exactly if its other parts are and it keeps no unmarked total of a traffic list; exact keys leave none. */
  lemma RestorableExactly(rest: Rest, doc: Counts.Document)
    ensures PayloadOf(rest, Some(doc)).restorable <==>
            rest.readable && !Counts.UnmarkedTotal(Kept(doc).byInstance) && !Counts.UnmarkedTotal(Kept(doc).samples)
    ensures Counts.ExactKeys(doc) ==> (PayloadOf(rest, Some(doc)).restorable <==> rest.readable)
  {
    KeptCases(doc, Kept(doc));
    KeptIsRereadable(doc, Kept(doc));
  }

  /** A report whose EasyTier document, if it has one, spells every key exactly, and whose other parts can be read back. */
  ghost predicate ExactReport(step: Step, d: DeviceId)
  {
    step.BeginIngest? && step.id == d && step.payload.Some? ==>
      exists rest: Rest, doc: Option<Counts.Document> ::
        && step.payload.value == PayloadOf(rest, doc) && rest.readable
        && (doc.Some? ==> Counts.ExactKeys(doc.value))
  }

  lemma ExactReportIsSound(s: State, step: Step, d: DeviceId)
    requires Enabled(s, step) && GoodStart(step, d) && ExactReport(step, d)
    ensures Sound(s, step, d)
  {
    if step.BeginIngest? && step.id == d && step.payload.Some? {
      var rest: Rest, doc: Option<Counts.Document> :|
        && step.payload.value == PayloadOf(rest, doc) && rest.readable
        && (doc.Some? ==> Counts.ExactKeys(doc.value));
      if doc.Some? { RestorableExactly(rest, doc.value); }
    }
  }

  lemma {:induction false} ExactReportsAreSound(s: State, run: seq<Step>, d: DeviceId)
    requires Runs(s, run) && forall step :: step in run ==> GoodStart(step, d) && ExactReport(step, d)
    ensures SoundRun(s, run, d)
    decreases |run|
  {
    if run != [] {
      ExactReportIsSound(s, run[0], d);
      ExactReportsAreSound(Apply(s, run[0]), run[1..], d);
    }
  }

  /**
   * For such a sender every report answered with success is durable, whichever of the two answers it was, if
   * each repeat is answered while its report is on every content of the state file.
   */
  lemma ExactReportsAreDurable(run: seq<Step>, d: DeviceId, a: Ack)
    requires Runs(INITIAL, run) && forall step :: step in run ==> GoodStart(step, d) && ExactReport(step, d)
    requires SecuredRun(INITIAL, run, d) && a in Successes(INITIAL, run) && a.deviceId == d
    ensures var s := Exec(INITIAL, run);
            && OnDisk(s, a)
            && (s.up ==> if d in s.mem.nodes then Reaches(Base(s, d).collectedAt, Base(s, d).digest, a)
                         else KeptByOrphan(s.mem.orphans, a))
  {
    ExactReportsAreSound(INITIAL, run, d);
    AnsweredIsDurable(run, d, a);
  }

  /**
   * And one report that is not exact: complete, accepted, acknowledged, and forgotten by a start that reads
   * its state file, so that it is committed again.
   */
  lemma FoldedReportIsForgotten(rest: Rest) returns (payload: Payload, run: seq<Step>)
    ensures payload == PayloadOf(rest, Some(Counts.FoldedTotal())) && !payload.restorable
    ensures Runs(INITIAL, run) && forall step :: step in run ==> GoodStart(step, "d")
    ensures var s := Exec(INITIAL, run);
            && s.up && s.acks == [Ack("d", 10, "a")] && "d" in s.mem.nodes && s.mem.nodes["d"].collectedAt == 0
            && Answer(s, Resend(s.acks[0], payload, false, true, 20)).Committed?
  {
    var doc, stats := Counts.FoldedTotalIsNotRestorable();
    payload := PayloadOf(rest, Some(doc));
    run := UnrestorableReportIsForgotten(payload);
  }
}
