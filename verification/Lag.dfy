/** How far the analyst store can fall behind the journal: the repository is not part of a checkpoint's contract
    (ContinuousIngestor.__init__ and _publish in src/aegisflow/continuous_ingestion.py). */
module Lag {
  import opened Records
  import opened Ingest
  import opened Journal
  import opened Runs
  import opened Drain
  import opened Projection

  // ------------------------------------------------- exactly when it lags

  /** At most one commit is not covered by a delivery. */
  predicate Near(w: World) {
    w.commits <= w.delivered + 1
  }

  /** A commit by a worker without a repository while an earlier commit is still undelivered. */
  predicate Overruns(e: Engine, w: World, step: Step) {
    w.worker.Live? && !w.worker.delivers && w.delivered < w.commits && Apply(e, w, step).commits > w.commits
  }

  lemma TransactStaysNear(
      e: Engine, w: World, queue: seq<Bytes>, status: Status, fault: Fault, noted: bool, now: nat)
    requires w.worker.Live? && w.db.meta.Some? && w.delivered <= w.commits
    ensures var w' := Transact(e, w, queue, status, fault, noted, now);
      && w.commits <= w'.commits <= w.commits + 1
      && (w'.delivered == w.delivered || w'.delivered == w'.commits)
      && (!w.worker.delivers ==> w'.delivered == w.delivered)
  {
  }

  lemma PollStaysNear(e: Engine, w: World, fault: Fault, noted: bool, now: nat)
    requires Inv(e, w) && w.worker.Live?
    ensures var w' := DoPoll(e, w, fault, noted, now);
      && w.commits <= w'.commits <= w.commits + 1
      && (w'.delivered == w.delivered || w'.delivered == w'.commits)
      && (!w.worker.delivers ==> w'.delivered == w.delivered)
  {
    if SourceIntact(w.db.meta.value, w.sourceId, w.source) {
      var scan := PollScan(e, w.db.meta.value, w.source);
      if scan.Scanned? {
        TransactStaysNear(e, Sent(w, w.worker.delivers), scan.queue, scan.status, fault, noted, now);
      }
    }
  }

  /** One step leaves the store near exactly if it is no overrun. */
  lemma StepStaysNearIff(e: Engine, w: World, step: Step)
    requires Inv(e, w) && Near(w)
    ensures Near(Apply(e, w, step)) <==> !Overruns(e, w, step)
  {
    match step
    case Poll(fault, noted, now) =>
      if w.worker.Live? { PollStaysNear(e, w, fault, noted, now); }
    case _ =>
  }

  ghost predicate AlwaysNear(e: Engine, w0: World, steps: seq<Step>) {
    forall k :: 0 <= k <= |steps| ==> Near(Run(e, w0, steps[..k]))
  }

  ghost predicate NoOverrun(e: Engine, w0: World, steps: seq<Step>) {
    forall k :: 0 <= k < |steps| ==> !Overruns(e, Run(e, w0, steps[..k]), steps[k])
  }

  lemma AlwaysNearSnoc(e: Engine, w0: World, steps: seq<Step>)
    requires steps != []
    ensures AlwaysNear(e, w0, steps) <==> AlwaysNear(e, w0, steps[..|steps| - 1]) && Near(Run(e, w0, steps))
  {
    var n := |steps| - 1;
    assert steps[..|steps|] == steps;
    forall k | 0 <= k <= n ensures Run(e, w0, steps[..n][..k]) == Run(e, w0, steps[..k]) {
      assert steps[..n][..k] == steps[..k];
    }
  }

  lemma NoOverrunSnoc(e: Engine, w0: World, steps: seq<Step>)
    requires steps != []
    ensures var n := |steps| - 1;
      NoOverrun(e, w0, steps) <==> NoOverrun(e, w0, steps[..n]) && !Overruns(e, Run(e, w0, steps[..n]), steps[n])
  {
    var n := |steps| - 1;
    forall k | 0 <= k <= n ensures Run(e, w0, steps[..n][..k]) == Run(e, w0, steps[..k]) {
      assert steps[..n][..k] == steps[..k];
    }
  }

  /** Over any run: all along at most one commit is undelivered exactly if no worker without a repository ever commits
      while a commit is undelivered. */
  lemma {:induction false} AlwaysNearIffNoOverrun(e: Engine, w0: World, steps: seq<Step>)
    requires Inv(e, w0) && Near(w0)
    ensures AlwaysNear(e, w0, steps) <==> NoOverrun(e, w0, steps)
  {
    if steps == [] {
      assert Run(e, w0, steps[..0]) == w0;
    } else {
      var n := |steps| - 1;
      AlwaysNearIffNoOverrun(e, w0, steps[..n]);
      AlwaysNearSnoc(e, w0, steps);
      NoOverrunSnoc(e, w0, steps);
      if AlwaysNear(e, w0, steps[..n]) {
        assert steps[..n][..n] == steps[..n];
        EveryRunKeepsInv(e, w0, steps[..n]);
        StepStaysNearIff(e, Run(e, w0, steps[..n]), steps[n]);
      }
    }
  }

  // -------------------------------------- undelivered commits and the content

  /** What the store shows after the run is what the journal held after k steps, when all commits up to the last
      delivery had been made and no other. */
  ghost predicate LastDelivered(e: Engine, w0: World, steps: seq<Step>, k: nat) {
    && k <= |steps|
    && Run(e, w0, steps[..k]).db.snapshot == StoredReport(Run(e, w0, steps))
    && Run(e, w0, steps[..k]).commits == Run(e, w0, steps).delivered
  }

  /** The ways a step can leave report and delivery. */
  ghost predicate DeliversOrKeeps(w: World, w': World) {
    || (StoredReport(w') == StoredReport(w) && w'.delivered == w.delivered)
    || (StoredReport(w') == w.db.snapshot && w'.delivered == w.commits)
    || (StoredReport(w') == w'.db.snapshot && w'.delivered == w'.commits)
  }

  lemma SentDelivers(e: Engine, w: World)
    requires Inv(e, w)
    ensures var sent := Sent(w, true); StoredReport(sent) == w.db.snapshot && sent.delivered == w.commits
  {
    DeliverStores(e, w);
  }

  lemma SettleDelivers(e: Engine, w: World, c: Committed, fault: Fault, noted: bool, now: nat)
    requires c.Committed? && JournalOk(e, c.db) && Extends(w.db, c.db) && w.worker.Live? && w.db.meta.Some? && c.db.snapshot.Some?
    ensures DeliversOrKeeps(w, Settle(w, c, w.worker.delivers, fault, noted, now))
  {
    DeliverStores(e, w.(db := c.db, worker := Live(c.ram, w.worker.delivers), commits := w.commits + 1));
  }

  lemma TransactDelivers(
      e: Engine, w: World, queue: seq<Bytes>, status: Status, fault: Fault, noted: bool, now: nat)
    requires Inv(e, w) && w.worker.Live? && QueueFits(e, w.db.meta.value, queue)
    ensures DeliversOrKeeps(w, Transact(e, w, queue, status, fault, noted, now))
  {
    BreakStores(w, noted, now);
    if !fault.DiesBeforeCommit? && !fault.BreaksInTransaction? && w.db.meta.value.offset + |Concat(queue)| <= |w.source| {
      var c := Commit(e, w.db, w.worker.ram, queue, status, |w.source|, now);
      if c.Committed? {
        CommitKeepsJournal(e, w.db, w.worker.ram, queue, status, |w.source|, now);
        assert Extends(w.db, c.db);
        SettleDelivers(e, w, c, fault, noted, now);
      }
    }
  }

  lemma PollDelivers(e: Engine, w: World, fault: Fault, noted: bool, now: nat)
    requires Inv(e, w) && w.worker.Live?
    ensures DeliversOrKeeps(w, DoPoll(e, w, fault, noted, now))
  {
    var sent := Sent(w, w.worker.delivers);
    SentKeepsInv(e, w, w.worker.delivers);
    SentDelivers(e, w);
    var m := w.db.meta.value;
    if SourceIntact(m, w.sourceId, w.source) && PollScan(e, m, w.source).Scanned? {
      var scan := PollScan(e, m, w.source);
      PollReads(e, m, w.source);
      TransactDelivers(e, sent, scan.queue, scan.status, fault, noted, now);
    }
  }

  lemma StepDelivers(e: Engine, w: World, step: Step)
    requires Inv(e, w)
    ensures DeliversOrKeeps(w, Apply(e, w, step))
  {
    match step
    case Poll(fault, noted, now) =>
      if w.worker.Live? { PollDelivers(e, w, fault, noted, now); }
    case Open(_, _, _) => SentDelivers(e, w);
    case Analyst(op) =>
      if !op.Reviewed? { ImportKeepsRuns(w.store, op.incidents, op.alerts); }
    case _ =>
  }

  lemma LastDeliveredAfterStep(e: Engine, w0: World, steps: seq<Step>, before: World, after: World, k: nat) returns (l: nat)
    requires steps != [] && before == Run(e, w0, steps[..|steps| - 1]) && after == Run(e, w0, steps)
    requires LastDelivered(e, w0, steps[..|steps| - 1], k) && DeliversOrKeeps(before, after)
    ensures LastDelivered(e, w0, steps, l)
  {
    var n := |steps| - 1;
    assert steps[..|steps|] == steps && steps[..n][..k] == steps[..k];
    l := if StoredReport(after) == after.db.snapshot && after.delivered == after.commits then |steps|
         else if StoredReport(after) == before.db.snapshot && after.delivered == before.commits then n
         else k;
  }

  /** In every reachable state, whoever delivers: the stored report is exactly the snapshot that the journal held when
      the commits up to the last delivery had been made. */
  lemma {:induction false} StoreShowsLastDelivery(e: Engine, source: Bytes, sourceId: nat, steps: seq<Step>) returns (k: nat)
    ensures LastDelivered(e, Initial(source, sourceId), steps, k)
  {
    var w0 := Initial(source, sourceId);
    if steps == [] {
      k := 0;
    } else {
      var n := |steps| - 1;
      var before := Run(e, w0, steps[..n]);
      var earlier := StoreShowsLastDelivery(e, source, sourceId, steps[..n]);
      InitialInv(e, source, sourceId);
      EveryRunKeepsInv(e, w0, steps[..n]);
      StepDelivers(e, before, steps[n]);
      k := LastDeliveredAfterStep(e, w0, steps, before, Run(e, w0, steps), earlier);
    }
  }

  // ------------------------------------------------- under a clock that ticks

  /** Every poll has a later time than those before it. */
  ghost predicate Ticking(steps: seq<Step>) {
    forall i, j :: 0 <= i < j < |steps| && steps[i].Poll? && steps[j].Poll? ==> steps[i].now < steps[j].now
  }

  /** A step keeps the snapshot or stamps a new one; a commit does the latter. */
  ghost predicate Stamps(w: World, w': World, step: Step) {
    && (w'.db.snapshot == w.db.snapshot || Stamped(w', step))
    && (w'.commits != w.commits ==> Stamped(w', step))
    && w.commits <= w'.commits
  }

  predicate Stamped(w: World, step: Step) {
    step.Poll? && w.db.snapshot.Some? && w.db.snapshot.value.updatedAt == step.now
  }

  lemma TransactStamps(
      e: Engine, w: World, queue: seq<Bytes>, status: Status, fault: Fault, noted: bool, now: nat)
    requires w.worker.Live? && w.db.meta.Some?
    ensures Stamps(w, Transact(e, w, queue, status, fault, noted, now), Poll(fault, noted, now))
  {
  }

  lemma StepStamps(e: Engine, w: World, step: Step)
    requires Inv(e, w)
    ensures Stamps(w, Apply(e, w, step), step)
  {
    match step
    case Poll(fault, noted, now) =>
      if w.worker.Live? && SourceIntact(w.db.meta.value, w.sourceId, w.source) {
        var scan := PollScan(e, w.db.meta.value, w.source);
        if scan.Scanned? {
          TransactStamps(e, Sent(w, w.worker.delivers), scan.queue, scan.status, fault, noted, now);
        }
      }
    case _ =>
  }

  /** A snapshot's time is that of a poll of the run. */
  ghost predicate Dated(w: World, steps: seq<Step>) {
    w.db.snapshot.Some? ==> exists i :: 0 <= i < |steps| && Stamped(w, steps[i])
  }

  lemma {:induction false} SnapshotsAreDated(e: Engine, w0: World, steps: seq<Step>)
    requires Inv(e, w0) && w0.db.snapshot.None?
    ensures Dated(Run(e, w0, steps), steps)
  {
    if steps == [] {
    } else {
      var n := |steps| - 1;
      var before, after := Run(e, w0, steps[..n]), Run(e, w0, steps);
      SnapshotsAreDated(e, w0, steps[..n]);
      EveryRunKeepsInv(e, w0, steps[..n]);
      StepStamps(e, before, steps[n]);
      if after.db.snapshot == before.db.snapshot && after.db.snapshot.Some? {
        var i :| 0 <= i < n && Stamped(before, steps[..n][i]);
        assert Stamped(after, steps[i]);
      }
    }
  }

  /** No snapshot is newer than that of `later`, and after more commits it is older. */
  ghost predicate Older(w: World, later: World) {
    && w.commits <= later.commits
    && (w.db.snapshot.Some? ==> later.db.snapshot.Some? && w.db.snapshot.value.updatedAt <= later.db.snapshot.value.updatedAt)
    && (w.commits < later.commits ==> later.db.snapshot.Some?)
    && (w.commits < later.commits && w.db.snapshot.Some? ==>
          w.db.snapshot.value.updatedAt < later.db.snapshot.value.updatedAt)
  }

  lemma OlderStep(w: World, before: World, after: World, step: Step)
    requires Older(w, before) && Stamps(before, after, step)
    requires Stamped(after, step) && before.db.snapshot.Some? ==> before.db.snapshot.value.updatedAt < step.now
    ensures Older(w, after)
  {
  }

  lemma TickStep(steps: seq<Step>, w: World, before: World, after: World)
    requires steps != [] && Ticking(steps) && Dated(before, steps[..|steps| - 1])
    requires Older(w, before) && Stamps(before, after, steps[|steps| - 1])
    ensures Older(w, after)
  {
    var n := |steps| - 1;
    if before.db.snapshot.Some? && steps[n].Poll? {
      var i :| 0 <= i < n && Stamped(before, steps[..n][i]);
      assert steps[i].now < steps[n].now;
    }
    OlderStep(w, before, after, steps[n]);
  }

  lemma {:induction false} SnapshotsTick(e: Engine, w0: World, steps: seq<Step>, k: nat)
    requires Inv(e, w0) && w0.db.snapshot.None? && Ticking(steps) && k <= |steps|
    ensures Older(Run(e, w0, steps[..k]), Run(e, w0, steps))
    decreases |steps|
  {
    if k == |steps| {
      assert steps[..k] == steps;
    } else {
      var n := |steps| - 1;
      var before, after := Run(e, w0, steps[..n]), Run(e, w0, steps);
      SnapshotsTick(e, w0, steps[..n], k);
      assert steps[..n][..k] == steps[..k];
      EveryRunKeepsInv(e, w0, steps[..n]);
      StepStamps(e, before, steps[n]);
      SnapshotsAreDated(e, w0, steps[..n]);
      TickStep(steps, Run(e, w0, steps[..k]), before, after);
    }
  }

  /** The same snapshot means the same commits. */
  lemma SameSnapshotSameCommits(e: Engine, w0: World, steps: seq<Step>, j: nat, k: nat)
    requires Inv(e, w0) && w0.db.snapshot.None? && Ticking(steps) && j <= k <= |steps|
    requires Run(e, w0, steps[..j]).db.snapshot == Run(e, w0, steps[..k]).db.snapshot
    ensures Run(e, w0, steps[..j]).commits == Run(e, w0, steps[..k]).commits
  {
    SnapshotsTick(e, w0, steps[..k], j);
    assert steps[..k][..j] == steps[..j];
    EveryRunKeepsInv(e, w0, steps[..j]);
  }

  /** The store shows a snapshot after which at most one commit was made. */
  ghost predicate Current(e: Engine, w0: World, steps: seq<Step>) {
    exists k: nat :: ShownSince(e, w0, steps, k)
  }

  /** Near the last delivery the store is current, and under a clock that ticks only there. */
  lemma CurrentIffNear(e: Engine, source: Bytes, sourceId: nat, steps: seq<Step>)
    ensures var w0 := Initial(source, sourceId); Near(Run(e, w0, steps)) ==> Current(e, w0, steps)
    ensures var w0 := Initial(source, sourceId); Ticking(steps) && Current(e, w0, steps) ==> Near(Run(e, w0, steps))
  {
    var w0 := Initial(source, sourceId);
    InitialInv(e, source, sourceId);
    var j := StoreShowsLastDelivery(e, source, sourceId, steps);
    if Near(Run(e, w0, steps)) {
      assert ShownSince(e, w0, steps, j);
    }
    if Ticking(steps) && Current(e, w0, steps) {
      var k: nat :| ShownSince(e, w0, steps, k);
      if j <= k {
        SameSnapshotSameCommits(e, w0, steps, j, k);
      } else {
        SameSnapshotSameCommits(e, w0, steps, k, j);
      }
    }
  }

  /** The property itself: under a clock that ticks, the store is at most one commit behind the journal all along a run
      exactly if no worker without a repository commits while a commit is undelivered. */
  lemma StoreKeepsUpIff(e: Engine, source: Bytes, sourceId: nat, steps: seq<Step>)
    requires Ticking(steps)
    ensures var w0 := Initial(source, sourceId);
      (forall l :: 0 <= l <= |steps| ==> Current(e, w0, steps[..l])) <==> NoOverrun(e, w0, steps)
  {
    var w0 := Initial(source, sourceId);
    InitialInv(e, source, sourceId);
    AlwaysNearIffNoOverrun(e, w0, steps);
    forall l | 0 <= l <= |steps| ensures Current(e, w0, steps[..l]) <==> Near(Run(e, w0, steps[..l])) {
      CurrentIffNear(e, source, sourceId, steps[..l]);
    }
  }

  /** Without a repository in some worker's hands nothing can overrun. */
  lemma {:induction false} DeliveringWorkersKeepUp(e: Engine, source: Bytes, sourceId: nat, steps: seq<Step>)
    requires AlwaysDelivers(steps)
    ensures NoOverrun(e, Initial(source, sourceId), steps)
  {
    var w0 := Initial(source, sourceId);
    forall k | 0 <= k < |steps| ensures !Overruns(e, Run(e, w0, steps[..k]), steps[k]) {
      AtMostOneCommitBehind(e, source, sourceId, steps[..k]);
    }
  }

  // ------------------------------------------------- a run that falls behind

  /** A poll with a fitting line in front of it commits a line, and at most a batch. */
  lemma BusyPoll(e: Engine, w: World, now: nat, w': World)
    requires Ready(e, w) && Fits(e, w.source, |w.db.rows| + 1) && w' == DoPoll(e, w, NoFault, false, now)
    ensures Ready(e, w') && w'.source == w.source && Counted(e, w, w') && |w.db.rows| < |w'.db.rows|
  {
    DrainStep(e, w, now);
  }

  /** Reopening at rest, with or without a repository. */
  lemma Reopens(e: Engine, w: World, delivers: bool, runId: string)
    requires Ready(e, w)
    ensures var x := DoOpen(e, w.(worker := Absent), delivers, true, runId);
      && Ready(e, x) && x.source == w.source && x.db == w.db && x.worker.delivers == delivers && x.commits == w.commits
      && (!delivers ==> x.delivered == w.delivered && x.store == w.store)
  {
    RecoverAccepts(e, w.db);
    OpenKeepsInv(e, w.(worker := Absent), delivers, true, runId);
  }

  lemma FirstOpen(e: Engine, source: Bytes, sourceId: nat, delivers: bool, runId: string)
    requires e.limits.Valid() && Clean(e, source) && NoLongLine(source, e.limits.maxLineBytes)
    ensures var x := DoOpen(e, Initial(source, sourceId), delivers, true, runId);
      && Ready(e, x) && x.source == source && x.db.rows == [] && x.db.snapshot.None? && x.worker.delivers == delivers
      && x.commits == x.delivered == 0 && x.store == EMPTY_STORE
  {
    InitialInv(e, source, sourceId);
    OpenKeepsInv(e, Initial(source, sourceId), delivers, true, runId);
    assert source[..0] == [];
  }

  predicate IsHandover(steps: seq<Step>, runId: string) {
    && |steps| == 6 && steps[0] == Open(true, true, runId) && steps[1] == Poll(NoFault, false, 1)
    && steps[2] == Exit && steps[3] == Open(false, true, runId)
    && steps[4] == Poll(NoFault, false, 2) && steps[5] == Poll(NoFault, false, 3)
  }

  /** A delivering poll, a handover to a worker without a repository, and two polls of that. */
  function Handover(runId: string): (steps: seq<Step>)
    ensures IsHandover(steps, runId) && Ticking(steps)
  {
    [Open(true, true, runId), Poll(NoFault, false, 1), Exit, Open(false, true, runId), Poll(NoFault, false, 2), Poll(NoFault, false, 3)]
  }

  lemma RunNext(e: Engine, w0: World, steps: seq<Step>, k: nat)
    requires k < |steps|
    ensures Run(e, w0, steps[..k + 1]) == Apply(e, Run(e, w0, steps[..k]), steps[k])
  {
    assert steps[..k + 1][..k] == steps[..k];
  }

  /** The states of the handover, by what matters. */
  ghost predicate HandedOver(e: Engine, w0: World, steps: seq<Step>) {
    && |steps| == 6
    && Run(e, w0, steps[..0]).commits == Run(e, w0, steps[..1]).commits == 0
    && Run(e, w0, steps[..2]).commits == Run(e, w0, steps[..3]).commits == Run(e, w0, steps[..4]).commits == 1
    && Run(e, w0, steps[..5]).commits == 2 && Run(e, w0, steps[..6]).commits == 3
    && Run(e, w0, steps[..6]).delivered == 1
    && |Run(e, w0, steps[..6]).db.rows| >= |Run(e, w0, steps[..2]).db.rows| + 2
  }

  /** The first worker, with a repository. */
  lemma Delivering(e: Engine, w0: World, w1: World, w2: World, runId: string)
    requires w0 == Initial(w0.source, w0.sourceId) && w1 == DoOpen(e, w0, true, true, runId)
    requires e.limits.Valid() && Clean(e, w0.source) && NoLongLine(w0.source, e.limits.maxLineBytes)
    requires Fits(e, w0.source, 1) && Ready(e, w1) && w2 == DoPoll(e, w1, NoFault, false, 1)
    ensures w1.commits == 0 && Ready(e, w2) && w2.source == w0.source
    ensures w2.commits == w2.delivered == 1 && |w2.db.rows| <= e.limits.batchRecords
  {
    FirstOpen(e, w0.source, w0.sourceId, true, runId);
    BusyPoll(e, w1, 1, w2);
  }

  /** One poll of the second, without. */
  lemma Silent(e: Engine, w: World, w': World, now: nat, lines: nat)
    requires Ready(e, w) && !w.worker.delivers && w' == DoPoll(e, w, NoFault, false, now)
    requires |w.db.rows| < lines && Fits(e, w.source, lines)
    ensures Ready(e, w') && !w'.worker.delivers && w'.source == w.source
    ensures w'.commits == w.commits + 1 && w'.delivered == w.delivered
    ensures |w.db.rows| < |w'.db.rows| <= |w.db.rows| + e.limits.batchRecords
  {
    FewerFit(e, w.source, |w.db.rows| + 1, lines);
    BusyPoll(e, w, now, w');
  }

  lemma OpensFirst(e: Engine, w0: World, steps: seq<Step>, runId: string) returns (w1: World)
    requires w0 == Initial(w0.source, w0.sourceId) && IsHandover(steps, runId)
    requires e.limits.Valid() && Clean(e, w0.source) && NoLongLine(w0.source, e.limits.maxLineBytes)
    ensures w1 == Run(e, w0, steps[..1]) == DoOpen(e, w0, true, true, runId) && Ready(e, w1)
  {
    assert steps[..0] == [] && Run(e, w0, []) == w0;
    RunNext(e, w0, steps, 0);
    w1 := Run(e, w0, steps[..1]);
    FirstOpen(e, w0.source, w0.sourceId, true, runId);
  }

  lemma FirstHalf(e: Engine, w0: World, steps: seq<Step>, runId: string) returns (w1: World)
    requires w0 == Initial(w0.source, w0.sourceId) && IsHandover(steps, runId)
    requires e.limits.Valid() && Clean(e, w0.source) && NoLongLine(w0.source, e.limits.maxLineBytes)
    requires Fits(e, w0.source, 1)
    ensures w1 == Run(e, w0, steps[..1]) && w1.commits == 0
    ensures var w2 := Run(e, w0, steps[..2]);
      && Ready(e, w2) && w2.source == w0.source && w2.commits == w2.delivered == 1 && |w2.db.rows| <= e.limits.batchRecords
  {
    w1 := OpensFirst(e, w0, steps, runId);
    PolledNext(e, w0, steps, 1, 1);
    Delivering(e, w0, w1, Run(e, w0, steps[..2]), runId);
  }

  /** The state after a poll in the run. */
  lemma PolledNext(e: Engine, w0: World, steps: seq<Step>, k: nat, now: nat)
    requires k < |steps| && steps[k] == Poll(NoFault, false, now) && Ready(e, Run(e, w0, steps[..k]))
    ensures Run(e, w0, steps[..k + 1]) == DoPoll(e, Run(e, w0, steps[..k]), NoFault, false, now)
  {
    RunNext(e, w0, steps, k);
    ReadyIsAt(e, Run(e, w0, steps[..k]));
  }

  lemma HandedToSilent(e: Engine, w0: World, steps: seq<Step>, runId: string)
    requires IsHandover(steps, runId) && Ready(e, Run(e, w0, steps[..2]))
    ensures var w2 := Run(e, w0, steps[..2]); var w4 := Run(e, w0, steps[..4]);
      && Ready(e, w4) && !w4.worker.delivers && w4.source == w2.source && w4.db == w2.db
      && Run(e, w0, steps[..3]).commits == w4.commits == w2.commits && w4.delivered == w2.delivered
  {
    RunNext(e, w0, steps, 2);
    RunNext(e, w0, steps, 3);
    Reopens(e, Run(e, w0, steps[..2]), false, runId);
  }

  lemma SecondHalf(e: Engine, w0: World, steps: seq<Step>, lines: nat)
    requires |steps| == 6 && steps[4] == Poll(NoFault, false, 2) && steps[5] == Poll(NoFault, false, 3)
    requires var w4 := Run(e, w0, steps[..4]);
      && Ready(e, w4) && !w4.worker.delivers && |w4.db.rows| + e.limits.batchRecords < lines && Fits(e, w4.source, lines)
    ensures var w4 := Run(e, w0, steps[..4]); var w6 := Run(e, w0, steps[..6]);
      && Run(e, w0, steps[..5]).commits == w4.commits + 1 && w6.commits == w4.commits + 2 && w6.delivered == w4.delivered
      && |w6.db.rows| >= |w4.db.rows| + 2
  {
    PolledNext(e, w0, steps, 4, 2);
    Silent(e, Run(e, w0, steps[..4]), Run(e, w0, steps[..5]), 2, lines);
    PolledNext(e, w0, steps, 5, 3);
    Silent(e, Run(e, w0, steps[..5]), Run(e, w0, steps[..6]), 3, lines);
  }

  lemma HandoverRuns(e: Engine, w0: World, steps: seq<Step>, runId: string)
    requires w0 == Initial(w0.source, w0.sourceId) && IsHandover(steps, runId)
    requires e.limits.Valid() && Clean(e, w0.source) && NoLongLine(w0.source, e.limits.maxLineBytes)
    requires Fits(e, w0.source, 2 * e.limits.batchRecords + 1)
    ensures HandedOver(e, w0, steps)
  {
    assert steps[..0] == [] && Run(e, w0, []) == w0;
    FewerFit(e, w0.source, 1, 2 * e.limits.batchRecords + 1);
    var w1 := FirstHalf(e, w0, steps, runId);
    HandedToSilent(e, w0, steps, runId);
    SecondHalf(e, w0, steps, 2 * e.limits.batchRecords + 1);
  }

  /** On any source with two batches and a line to commit, that run leaves the store two commits and two lines or more
      behind, without any failure: the last step is an overrun, and no snapshot the store could show is one commit old. */
  lemma WorkerWithoutRepositoryLags(e: Engine, source: Bytes, sourceId: nat, runId: string)
    requires e.limits.Valid() && Clean(e, source) && NoLongLine(source, e.limits.maxLineBytes)
    requires Fits(e, source, 2 * e.limits.batchRecords + 1)
    ensures var w0 := Initial(source, sourceId); var steps := Handover(runId);
      HandedOver(e, w0, steps) && !Current(e, w0, steps)
  {
    var w0, steps := Initial(source, sourceId), Handover(runId);
    HandoverRuns(e, w0, steps, runId);
    CurrentIffNear(e, source, sourceId, steps);
    assert steps[..6] == steps;
  }

  /** Draining without a repository. */
  lemma {:induction false} DrainSilently(e: Engine, w0: World, steps: seq<Step>) returns (more: seq<Step>)
    requires Ready(e, Run(e, w0, steps)) && !Run(e, w0, steps).worker.delivers
    requires |Run(e, w0, steps).db.rows| <= |CompleteLines(Run(e, w0, steps).source)|
    ensures var w := Run(e, w0, more);
      && w.source == Run(e, w0, steps).source && w.store == Run(e, w0, steps).store
      && w.db.meta.Some? && w.db.snapshot.Some?
      && Drained(e, w.source, |w.db.rows|, w.db.meta.value.offset, w.db.snapshot.value.status)
    decreases |CompleteLines(Run(e, w0, steps).source)| - |Run(e, w0, steps).db.rows|
  {
    more := steps + [Poll(NoFault, false, 0)];
    assert more[..|steps|] == steps;
    DrainStep(e, Run(e, w0, steps), 0);
    PolledNext(e, w0, more, |steps|, 0);
    assert more[..|more|] == more;
    if Unfinished(Run(e, w0, more).db.snapshot.value) {
      more := DrainSilently(e, w0, more);
    }
  }

  /** A worker opened without a repository commits every line of the source that fits, and the store shows none of it. */
  lemma SourceDrainsUnshown(e: Engine, source: Bytes, sourceId: nat, runId: string) returns (steps: seq<Step>)
    requires e.limits.Valid() && Clean(e, source) && NoLongLine(source, e.limits.maxLineBytes)
    ensures var w := Run(e, Initial(source, sourceId), steps);
      && w.source == source && w.store == EMPTY_STORE && w.db.meta.Some? && w.db.snapshot.Some?
      && Drained(e, source, |w.db.rows|, w.db.meta.value.offset, w.db.snapshot.value.status)
  {
    var w0, open := Initial(source, sourceId), [Open(false, true, runId)];
    assert open[..0] == [] && Run(e, w0, []) == w0;
    FirstOpen(e, source, sourceId, false, runId);
    steps := DrainSilently(e, w0, open);
  }
}
