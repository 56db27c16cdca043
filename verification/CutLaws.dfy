/** What a recoverable pair of journal and analyst store is, and so what a restore can ever give back
    (src/aegisflow/stream_recovery.py). */
module CutLaws {
  import opened Records
  import opened Ingest
  import opened Journal
  import opened Recovery

  /** Gapless whole lines within the limits, whose bytes are those of the checkpoint and whose dispositions are those
      of a fresh fold. */
  ghost predicate SoundJournal(e: Engine, db: Db, limits: Limits) {
    && db.meta.Some? && |db.rows| == db.meta.value.lines <= limits.maxJournalRecords
    && (forall i :: 0 <= i < |db.rows| ==> EndsLine(db.rows[i].raw) && |db.rows[i].raw| <= limits.maxLineBytes)
    && Sha256(Concat(Raws(db.rows))) == db.meta.value.prefix
    && |Concat(Raws(db.rows))| == db.meta.value.offset <= limits.maxJournalBytes
    && Replay(e, Raws(db.rows)).Replayed? && Replay(e, Raws(db.rows)).outcomes == Outcomes(db.rows)
  }

  /** Whatever recovery accepts is such a journal, and its report shows the alerts of the fold. */
  lemma AcceptedIsSound(e: Engine, db: Db)
    requires db.meta.Some? && Recover(e, db).Some?
    ensures SoundJournal(e, db, e.limits) && Recover(e, db).value == Replay(e, Raws(db.rows)).ram
    ensures db.rows != [] ==> db.snapshot.Some? && db.snapshot.value.analysis.alerts == e.analyse(Fed(e, Raws(db.rows))).alerts
  {
    RecoverSound(e, db);
    ReplayFeeds(e, Raws(db.rows));
  }

  /** The report that a journal must carry: run, evidence and counters of its own lines. */
  ghost predicate OwnReport(e: Engine, db: Db, r: Report) {
    && db.meta.Some? && db.snapshot == Some(r) && r.runId == db.meta.value.runId
    && r.analysis == e.analyse(Fed(e, Raws(db.rows)))
    && Replay(e, Raws(db.rows)).Replayed? && r.quality == Replay(e, Raws(db.rows)).ram.quality
    && r.offset == db.meta.value.offset && r.lines == |db.rows|
    && r.highWater == db.meta.value.highWater && r.batches == db.meta.value.batches
  }

  /** The store holds this report under its run, each alert as reported, and each incident as reported but for the
      status a review has given it. */
  ghost predicate ShowsReport(store: Store, r: Report) {
    && r.runId in store.runs && store.runs[r.runId] == r
    && (forall a :: a in r.analysis.alerts ==> a.alertId in store.alerts && store.alerts[a.alertId].payload == a)
    && (forall i :: i in r.analysis.incidents ==>
          i.incidentId in store.incidents && store.incidents[i.incidentId].payload.(status := i.status) == i)
  }

  /** A journal of at most twenty thousand lines and sixty-four mebibytes, of this release, that rebuilds, with its
      own report, and a store that shows this report. */
  ghost predicate OneEvidence(e: Engine, db: Db, store: Store) {
    && db.meta.Some? && db.snapshot.Some?
    && |db.rows| <= 20000 && db.meta.value.offset <= 67108864 && db.meta.value.contract.provenance == e.provenance
    && SoundJournal(e, db, db.meta.value.contract.limits) && OwnReport(e, db, db.snapshot.value)
    && ShowsReport(store, db.snapshot.value)
  }

  lemma {:induction false} LimitsDoNotCount(e: Engine, limits: Limits, raws: seq<Bytes>)
    ensures Replay(e.(limits := limits), raws) == Replay(e, raws)
  {
    if raws == [] {
    } else {
      LimitsDoNotCount(e, limits, raws[..|raws| - 1]);
    }
  }

  lemma {:induction false} LimitsDoNotFeed(e: Engine, limits: Limits, raws: seq<Bytes>)
    requires Replay(e, raws).Replayed?
    ensures Fed(e.(limits := limits), raws) == Fed(e, raws)
  {
    LimitsDoNotCount(e, limits, raws);
    ReplayFeeds(e, raws);
    ReplayFeeds(e.(limits := limits), raws);
  }

  lemma RebuiltIsOwn(e: Engine, db: Db)
    requires Rebuilds(e, db) && db.meta.value.runId == db.snapshot.value.runId
    ensures SoundJournal(e, db, db.meta.value.contract.limits) && OwnReport(e, db, db.snapshot.value)
  {
    var limits := db.meta.value.contract.limits;
    AcceptedIsSound(UnderContract(e, db), db);
    LimitsDoNotCount(e, limits, Raws(db.rows));
    ReplayFeeds(e, Raws(db.rows));
  }

  /** Any pair that the checks accept, whoever wrote it, is one evidence on its own source. */
  lemma PairIsOneEvidence(e: Engine, db: Db, store: Store, sourceId: nat, source: Bytes)
    requires Pair(e, db, store, sourceId, source)
    ensures OneEvidence(e, db, store)
    ensures sourceId == db.meta.value.contract.sourceId && Concat(Raws(db.rows)) <= source
  {
    RebuiltIsOwn(e, db);
    ShownReport(store, db.snapshot.value);
    var bytes := Concat(Raws(db.rows));
    assert source[..db.meta.value.offset] == bytes;
  }

  lemma ShownReport(store: Store, r: Report)
    requires Projected(store, r)
    ensures ShowsReport(store, r)
  {
  }

  /** And one evidence on its own source is accepted: the checks demand nothing more. */
  lemma OneEvidenceIsPair(e: Engine, db: Db, store: Store, sourceId: nat, source: Bytes)
    requires OneEvidence(e, db, store) && Continuous(db.rows)
    requires sourceId == db.meta.value.contract.sourceId && Concat(Raws(db.rows)) <= source
    ensures Pair(e, db, store, sourceId, source)
  {
    var limits := db.meta.value.contract.limits;
    LimitsDoNotCount(e, limits, Raws(db.rows));
    ReplayFeeds(e, Raws(db.rows));
    ContinuousLength(db.rows);
    assert source[..db.meta.value.offset] == Concat(Raws(db.rows));
  }

  /** Every restore, from any bundle and any anchor, gives back one evidence, on a source that still starts with the
      committed bytes, from files whose sizes and digests the anchor records. */
  lemma RestoredIsOneEvidence(e: Engine, c: Reader, b: Bundle, anchor: Manifest, sourceId: nat, source: Bytes)
    requires Restore(e, c, b, anchor, sourceId, source).Some?
    ensures var (db, store) := Restore(e, c, b, anchor, sourceId, source).value;
      && OneEvidence(e, db, store) && sourceId == db.meta.value.contract.sourceId && Concat(Raws(db.rows)) <= source
      && anchor.cut == Cut(db.meta.value.contract, db.meta.value.runId, db.meta.value.offset, db.meta.value.lines, db.meta.value.prefix)
      && b.journal.Some? && b.analyst.Some? && b.manifest == Some(anchor)
      && c.journal(b.journal.value) == Some(db) && c.store(b.analyst.value) == Some(store)
      && anchor.journal == FileMark(|b.journal.value|, Sha256(b.journal.value))
      && anchor.analyst == FileMark(|b.analyst.value|, Sha256(b.analyst.value))
      && 0 < |b.journal.value| <= 1073741824 && 0 < |b.analyst.value| <= 1073741824
  {
    var (db, store) := Restore(e, c, b, anchor, sourceId, source).value;
    PairIsOneEvidence(e, db, store, sourceId, source);
  }

  /** Whatever happens beside a backup, what it publishes is one evidence of a moment without a worker, on its source. */
  lemma PublishedIsOneEvidence(e: Engine, c: Reader, source: Bytes, sourceId: nat, actions: seq<Action>, m: Manifest)
    requires actions != []
    requires Publishes(e, c, Runs(e, c, Start(source, sourceId), actions[..|actions| - 1]), actions[|actions| - 1], m)
    ensures var w := Runs(e, c, Start(source, sourceId), actions).world;
      w.worker.Absent? && OneEvidence(e, w.db, w.store) && m.cut.lines == |w.db.rows| && m.cut.prefix == Sha256(Concat(Raws(w.db.rows)))
  {
    var w := Runs(e, c, Start(source, sourceId), actions).world;
    PublishedIsOneCut(e, c, source, sourceId, actions, m);
    RebuiltIsOwn(e, w.db);
    ShownReport(w.store, w.db.snapshot.value);
  }
}
