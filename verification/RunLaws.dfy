/** What the steps of the running system do and leave behind, in the words of the durable state
    (src/aegisflow/continuous_ingestion.py). */
module RunLaws {
  import opened Records
  import opened Ingest
  import opened Journal
  import opened Runs

  // --------------------------------------------------------- the own source

  /** The file is the recorded one and still starts with every committed byte. */
  ghost predicate StillThere(w: World) {
    w.db.meta.Some? && w.sourceId == w.db.meta.value.contract.sourceId && Concat(Raws(w.db.rows)) <= w.source
  }

  lemma IntactIsStillThere(e: Engine, w: World)
    requires JournalOk(e, w.db) && w.db.meta.Some?
    ensures SourceIntact(w.db.meta.value, w.sourceId, w.source) <==> StillThere(w)
  {
    var m, bytes := w.db.meta.value, Concat(Raws(w.db.rows));
    assert m.prefix.preimage == bytes && m.offset == |bytes|;
    if bytes <= w.source {
      assert w.source[..|bytes|] == bytes;
    }
  }

  /** Where a poll stands after its transaction: the world went on with what was committed, or the checkpoint stayed. */
  ghost predicate WentOn(w: World, w': World, c: Committed) {
    && c.Committed? && w'.db.meta == c.db.meta && w'.db.rows == c.db.rows && w'.source == w.source && w'.sourceId == w.sourceId
    && (w'.worker.Live? ==> w'.db.snapshot == c.db.snapshot)
  }

  ghost predicate Stood(w: World, w': World) {
    w'.db.meta == w.db.meta && w'.db.rows == w.db.rows && !w'.worker.Live?
  }

  lemma TransactWentOnOrStood(e: Engine, w: World, queue: seq<Bytes>, status: Status, fault: Fault, noted: bool, now: nat)
    requires w.worker.Live? && w.db.meta.Some?
    ensures var w' := Transact(e, w, queue, status, fault, noted, now);
      || Stood(w, w')
      || (w.db.meta.value.offset + |Concat(queue)| <= |w.source|
          && WentOn(w, w', Commit(e, w.db, w.worker.ram, queue, status, |w.source|, now)))
  {
  }

  /** The commit of a poll that read these lines. */
  ghost predicate CommitOf(e: Engine, w: World, now: nat, queue: seq<Bytes>, status: Status, c: Committed)
    requires w.worker.Live? && w.db.meta.Some? && w.db.meta.value.lines <= e.limits.maxJournalRecords
  {
    && SourceIntact(w.db.meta.value, w.sourceId, w.source) && PollScan(e, w.db.meta.value, w.source) == Scanned(queue, status)
    && w.db.meta.value.offset + |Concat(queue)| <= |w.source|
    && c == Commit(e, w.db, w.worker.ram, queue, status, |w.source|, now) && c.Committed?
  }

  lemma PollWentOn(e: Engine, w: World, fault: Fault, noted: bool, now: nat, w': World) returns (queue: seq<Bytes>, status: Status, c: Committed)
    requires Inv(e, w) && w.worker.Live? && w' == DoPoll(e, w, fault, noted, now) && !Stood(w, w')
    ensures CommitOf(e, w, now, queue, status, c) && WentOn(w, w', c)
  {
    var sent := Sent(w, w.worker.delivers);
    var scan := PollScan(e, w.db.meta.value, w.source);
    queue, status := scan.queue, scan.status;
    c := Commit(e, w.db, w.worker.ram, queue, status, |w.source|, now);
    TransactWentOnOrStood(e, sent, queue, status, fault, noted, now);
  }

  lemma OnlyPollsCommit(e: Engine, w: World, step: Step)
    requires Inv(e, w) && Apply(e, w, step).db.rows != w.db.rows
    ensures step.Poll? && w.worker.Live?
  {
    if step.Open? && w.db.meta.Some? {
      OpenKeepsDb(e, w, step.delivers, step.reachable, step.runId);
    }
  }

  lemma OpenKeepsDb(e: Engine, w: World, delivers: bool, reachable: bool, runId: string)
    requires w.db.meta.Some?
    ensures DoOpen(e, w, delivers, reachable, runId).db == w.db
  {
  }

  lemma CommitStep(e: Engine, w: World, step: Step, w': World)
    requires Inv(e, w) && w' == Apply(e, w, step) && w'.db.rows != w.db.rows
    ensures step.Poll? && w.worker.Live? && StillThere(w) && StillThere(w') && w'.source == w.source
  {
    OnlyPollsCommit(e, w, step);
    var queue, status, c := PollWentOn(e, w, step.fault, step.noted, step.now, w');
    IntactIsStillThere(e, w);
    GrownOnSource(e, w, step.fault, step.noted, step.now);
  }

  /** Lines are committed only by a live worker's poll, and only while the source is the recorded file with all
      committed bytes in place; it then holds the new ones as well. */
  lemma CommitsOnlyOnItsSource(e: Engine, source: Bytes, sourceId: nat, steps: seq<Step>, step: Step)
    ensures var w := Run(e, Initial(source, sourceId), steps); var w' := Apply(e, w, step);
      w'.db.rows != w.db.rows ==> step.Poll? && w.worker.Live? && StillThere(w) && StillThere(w') && w'.source == w.source
  {
    var w := Run(e, Initial(source, sourceId), steps);
    InitialInv(e, source, sourceId);
    EveryRunKeepsInv(e, Initial(source, sourceId), steps);
    if Apply(e, w, step).db.rows != w.db.rows {
      CommitStep(e, w, step, Apply(e, w, step));
    }
  }

  lemma GrownOnSource(e: Engine, w: World, fault: Fault, noted: bool, now: nat)
    requires Inv(e, w) && w.worker.Live? && SourceIntact(w.db.meta.value, w.sourceId, w.source)
    ensures StillThere(DoPoll(e, w, fault, noted, now))
  {
    PollStaysOnSource(e, w, fault, noted, now);
    PollKeepsInv(e, w, fault, noted, now);
    PollGrowsJournal(e, w, fault, noted, now);
    IntactIsStillThere(e, DoPoll(e, w, fault, noted, now));
  }

  // ------------------------------------------------------------- opening

  /** A worker opens a known journal only under the very limits and release it was begun with, on the recorded file
      with all committed bytes in place; it then remembers the fold, and the journal stays as it was. Otherwise
      nothing happens at all. */
  lemma OpensItsOwnOnly(e: Engine, begun: Engine, w: World, delivers: bool, reachable: bool, runId: string)
    requires JournalOk(begun, w.db) && w.db.meta.Some?
    ensures var w' := DoOpen(e, w, delivers, reachable, runId);
      w' != w ==>
        && w.worker.Absent? && e.limits == begun.limits && e.provenance == begun.provenance && StillThere(w)
        && w'.worker == Live(Replay(e, Raws(w.db.rows)).ram, delivers) && w'.db == w.db && w'.source == w.source
        && Replay(e, Raws(w.db.rows)).Replayed?
  {
    IntactIsStillThere(begun, w);
    if Recover(e, w.db).Some? {
      RecoverSound(e, w.db);
    }
  }

  /** The first open begins an empty journal under a run id that the store does not know. */
  lemma FirstOpen(e: Engine, w: World, delivers: bool, reachable: bool, runId: string)
    requires w.worker.Absent? && w.db.meta.None?
    ensures var w' := DoOpen(e, w, delivers, reachable, runId);
      if runId in w.store.runs then w' == w
      else w'.worker.Live? && w'.db.rows == [] && w'.db.snapshot.None? && w'.store == w.store
           && w'.db.meta == Some(Meta(Contract(w.sourceId, e.limits, e.provenance), runId, 0, 0, Sha256([]), 0, 0))
  {
  }

  // ------------------------------------------------------- what a poll says

  /** A poll after which the worker goes on reports itself: what is read and what is still to come are the whole
      source, at this time, without a failure. */
  lemma GoodPollTells(e: Engine, w: World, fault: Fault, noted: bool, now: nat, w': World)
    requires Inv(e, w) && w.worker.Live? && w' == DoPoll(e, w, fault, noted, now) && w'.worker.Live?
    ensures w'.db.snapshot.Some?
    ensures var r := w'.db.snapshot.value;
      && r.offset + r.backlog == |w'.source| && r.updatedAt == now && !r.failure
      && r.status in {Following, AwaitingPartial, CapacityReached} && r.runId == w.db.meta.value.runId
  {
    var queue, status, c := PollWentOn(e, w, fault, noted, now, w');
    ScanStatus(e, w.db.meta.value, w.source);
    CommitReports(e, w.db, w.worker.ram, queue, status, |w.source|, now, c);
  }

  lemma CommitReports(e: Engine, db: Db, ram: Ram, queue: seq<Bytes>, status: Status, size: nat, now: nat, c: Committed)
    requires db.meta.Some? && db.meta.value.offset + |Concat(queue)| <= size
    requires c == Commit(e, db, ram, queue, status, size, now) && c.Committed?
    ensures c.db.snapshot.Some?
    ensures var r := c.db.snapshot.value;
      r.offset + r.backlog == size && r.updatedAt == now && !r.failure && r.status == status && r.runId == db.meta.value.runId
  {
  }

  lemma {:induction false} LinesStatus(pending: Bytes, slots: nat, budget: int, maxLine: nat)
    ensures var scan := ScanLines(pending, slots, budget, maxLine); scan.Scanned? ==> !scan.status.Failed?
    decreases slots
  {
    if slots > 0 && pending != [] && |ReadLine(pending, maxLine + 1)| > 0 {
      var raw := ReadLine(pending, maxLine + 1);
      LinesStatus(pending[|raw|..], slots - 1, budget - |raw|, maxLine);
    }
  }

  lemma ScanStatus(e: Engine, m: Meta, source: Bytes)
    requires m.offset <= |source| && m.lines <= e.limits.maxJournalRecords
    ensures var scan := PollScan(e, m, source); scan.Scanned? ==> !scan.status.Failed?
  {
    var pending, budget := source[m.offset..], e.limits.maxJournalBytes - m.offset;
    var slots := MinNat(e.limits.batchRecords, e.limits.maxJournalRecords - m.lines);
    LinesStatus(pending, slots, budget, e.limits.maxLineBytes);
    PollScanQueue(e, m, source, pending, slots, budget);
  }

  lemma BrokenTransact(e: Engine, w: World, queue: seq<Bytes>, status: Status, fault: Fault, noted: bool, now: nat)
    requires w.worker.Live? && w.db.meta.Some? && !fault.UndeliveredAfter?
    requires Transact(e, w, queue, status, fault, noted, now).worker.Broken?
    ensures Transact(e, w, queue, status, fault, noted, now).db == Noted(w.db, noted, now)
  {
  }

  lemma BrokenPoll(e: Engine, w: World, fault: Fault, noted: bool, now: nat)
    requires Inv(e, w) && w.worker.Live? && DoPoll(e, w, fault, noted, now).worker.Broken? && !fault.UndeliveredAfter?
    ensures DoPoll(e, w, fault, noted, now).db == Noted(w.db, noted, now)
  {
    var m, sent := w.db.meta.value, Sent(w, w.worker.delivers);
    if SourceIntact(m, w.sourceId, w.source) && PollScan(e, m, w.source).Scanned? && !(w.worker.delivers && fault.UndeliveredBefore?) {
      var scan := PollScan(e, m, w.source);
      if Transact(e, sent, scan.queue, scan.status, fault, noted, now).worker.Broken? {
        BrokenTransact(e, sent, scan.queue, scan.status, fault, noted, now);
      }
    }
  }

  /** A poll that fails with an exception shows the failure on the last committed report, if that can be written, and
      changes nothing else about the journal. */
  lemma FailedPollTells(e: Engine, w: World, fault: Fault, noted: bool, now: nat, after: Db)
    requires Inv(e, w) && w.worker.Live? && !fault.UndeliveredAfter?
    requires DoPoll(e, w, fault, noted, now).worker.Broken? && after == DoPoll(e, w, fault, noted, now).db
    ensures after.rows == w.db.rows && after.meta == w.db.meta
    ensures noted && w.db.snapshot.Some? ==>
      after.snapshot == Some(w.db.snapshot.value.(status := Failed, updatedAt := now, failure := true))
    ensures !noted ==> after.snapshot == w.db.snapshot
  {
    BrokenPoll(e, w, fault, noted, now);
  }

  /** A failed worker does nothing more: only its exit lets another one open. */
  lemma FailedWorkerIsDone(e: Engine, w: World, step: Step)
    requires w.worker.Broken?
    ensures var w' := Apply(e, w, step);
      w'.db == w.db && (if step.Exit? then w'.worker.Absent? else w'.worker.Broken?)
  {
  }

  // ------------------------------------------------------------- the tallies

  /** Batches and the largest batch, against the number of lines. */
  ghost predicate Tallied(e: Engine, m: Meta) {
    && m.batches <= m.lines <= m.batches * m.highWater && m.highWater <= e.limits.batchRecords
    && (m.batches == 0 ==> m.highWater == 0)
  }

  ghost predicate TalliedDb(e: Engine, db: Db) {
    db.meta.Some? ==> Tallied(e, db.meta.value)
  }

  lemma OneBatchMore(e: Engine, m: Meta, n: nat)
    requires Tallied(e, m) && 0 < n <= e.limits.batchRecords
    ensures Tallied(e, m.(lines := m.lines + n, batches := m.batches + 1, highWater := if m.highWater < n then n else m.highWater))
  {
    var most := if m.highWater < n then n else m.highWater;
    assert m.batches * m.highWater <= m.batches * most;
    assert (m.batches + 1) * most == m.batches * most + most;
  }

  lemma CommitTallies(e: Engine, db: Db, ram: Ram, queue: seq<Bytes>, status: Status, size: nat, now: nat)
    requires db.meta.Some? && Tallied(e, db.meta.value) && |queue| <= e.limits.batchRecords
    requires db.meta.value.offset + |Concat(queue)| <= size && Commit(e, db, ram, queue, status, size, now).Committed?
    ensures TalliedDb(e, Commit(e, db, ram, queue, status, size, now).db)
  {
    if queue != [] {
      OneBatchMore(e, db.meta.value, |queue|);
    }
  }

  lemma PollTallies(e: Engine, w: World, fault: Fault, noted: bool, now: nat, w': World)
    requires Inv(e, w) && w.worker.Live? && TalliedDb(e, w.db) && w' == DoPoll(e, w, fault, noted, now)
    ensures TalliedDb(e, w'.db)
  {
    if !Stood(w, w') {
      var queue, status, c := PollWentOn(e, w, fault, noted, now, w');
      PollReads(e, w.db.meta.value, w.source);
      CommitTallies(e, w.db, w.worker.ram, queue, status, |w.source|, now);
    }
  }

  /** In every reachable state no batch was empty or above its limit, and the largest one stands in the checkpoint:
      there are at least as many lines as batches and at most that many times the largest. */
  lemma {:induction false} BatchesAddUp(e: Engine, source: Bytes, sourceId: nat, steps: seq<Step>)
    ensures TalliedDb(e, Run(e, Initial(source, sourceId), steps).db)
  {
    if steps == [] {
    } else {
      var n := |steps| - 1;
      BatchesAddUp(e, source, sourceId, steps[..n]);
      InitialInv(e, source, sourceId);
      EveryRunKeepsInv(e, Initial(source, sourceId), steps[..n]);
      var w := Run(e, Initial(source, sourceId), steps[..n]);
      if steps[n].Poll? && w.worker.Live? {
        PollTallies(e, w, steps[n].fault, steps[n].noted, steps[n].now, Apply(e, w, steps[n]));
      }
    }
  }
}
