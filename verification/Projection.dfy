/** What the analyst store shows of a stream, in every reachable state
    (ContinuousIngestor._publish in src/aegisflow/continuous_ingestion.py over src/aegisflow/api_store.py). */
module Projection {
  import opened Records
  import opened Ingest
  import opened Journal
  import opened Runs
  import AnalystStore

  /** The stream's row in analysis_runs. */
  function StoredReport(w: World): Option<Report> {
    if w.db.meta.Some? && w.db.meta.value.runId in w.store.runs
    then Some(w.store.runs[w.db.meta.value.runId]) else None
  }

  // ----------------------------------------- only committed snapshots show

  lemma DeliverStores(e: Engine, w: World)
    requires JournalOk(e, w.db)
    ensures StoredReport(w.(store := Deliver(w.store, w.db))) == if w.db.snapshot.Some? then w.db.snapshot else StoredReport(w)
  {
  }

  lemma SettleStores(e: Engine, w: World, c: Committed, fault: Fault, noted: bool, now: nat)
    requires c.Committed? && JournalOk(e, c.db) && Extends(w.db, c.db) && w.worker.Live? && w.db.meta.Some?
    ensures var w' := Settle(w, c, w.worker.delivers, fault, noted, now);
      StoredReport(w') == StoredReport(w) || StoredReport(w') == w'.db.snapshot
  {
    DeliverStores(e, w.(db := c.db, worker := Live(c.ram, w.worker.delivers), commits := w.commits + 1));
  }

  lemma BreakStores(w: World, noted: bool, now: nat)
    ensures StoredReport(Break(w, noted, now)) == StoredReport(w)
  {
  }

  lemma TransactStores(
      e: Engine, w: World, queue: seq<Bytes>, status: Status, fault: Fault, noted: bool, now: nat)
    requires Inv(e, w) && w.worker.Live? && QueueFits(e, w.db.meta.value, queue)
    ensures var w' := Transact(e, w, queue, status, fault, noted, now);
      StoredReport(w') == StoredReport(w) || StoredReport(w') == w'.db.snapshot
  {
    BreakStores(w, noted, now);
    if !fault.DiesBeforeCommit? && !fault.BreaksInTransaction? && w.db.meta.value.offset + |Concat(queue)| <= |w.source| {
      var c := Commit(e, w.db, w.worker.ram, queue, status, |w.source|, now);
      if c.Committed? {
        CommitKeepsJournal(e, w.db, w.worker.ram, queue, status, |w.source|, now);
        assert Extends(w.db, c.db);
        SettleStores(e, w, c, fault, noted, now);
      }
    }
  }

  lemma PollStores(e: Engine, w: World, fault: Fault, noted: bool, now: nat)
    requires Inv(e, w) && w.worker.Live?
    ensures var w' := DoPoll(e, w, fault, noted, now);
      StoredReport(w') == StoredReport(w) || StoredReport(w') == w.db.snapshot || StoredReport(w') == w'.db.snapshot
  {
    var sent := Sent(w, w.worker.delivers);
    SentKeepsInv(e, w, w.worker.delivers);
    DeliverStores(e, w);
    PollGrowsJournal(e, w, fault, noted, now);
    var m := w.db.meta.value;
    if SourceIntact(m, w.sourceId, w.source) && PollScan(e, m, w.source).Scanned? {
      var scan := PollScan(e, m, w.source);
      PollReads(e, m, w.source);
      TransactStores(e, sent, scan.queue, scan.status, fault, noted, now);
    }
  }

  lemma StepStores(e: Engine, w: World, step: Step)
    requires Inv(e, w)
    ensures var w' := Apply(e, w, step);
      StoredReport(w') == StoredReport(w) || StoredReport(w') == w.db.snapshot || StoredReport(w') == w'.db.snapshot
  {
    match step
    case Poll(fault, noted, now) =>
      if w.worker.Live? { PollStores(e, w, fault, noted, now); }
    case Open(_, _, _) => DeliverStores(e, w);
    case Analyst(op) =>
      if !op.Reviewed? { ImportKeepsRuns(w.store, op.incidents, op.alerts); }
    case _ =>
  }

  /** In every reachable state the stream's stored report is, to the byte, the snapshot that some earlier point of
      the run had committed, even when a poll fails half way. OnlyCommittedEvidenceShows says it of the other rows. */
  lemma {:induction false} OnlyCommittedSnapshotsShow(e: Engine, source: Bytes, sourceId: nat, steps: seq<Step>)
    ensures var w := Run(e, Initial(source, sourceId), steps);
      StoredReport(w).Some? ==>
        exists k :: 0 <= k <= |steps| && Run(e, Initial(source, sourceId), steps[..k]).db.snapshot == StoredReport(w)
  {
    var w0 := Initial(source, sourceId);
    var w := Run(e, w0, steps);
    assert steps[..|steps|] == steps;
    if steps == [] {
    } else {
      var n := |steps| - 1;
      var before := Run(e, w0, steps[..n]);
      InitialInv(e, source, sourceId);
      EveryRunKeepsInv(e, w0, steps[..n]);
      StepStores(e, before, steps[n]);
      OnlyCommittedSnapshotsShow(e, source, sourceId, steps[..n]);
      if StoredReport(w).Some? && StoredReport(w) == StoredReport(before) {
        var k :| 0 <= k <= n && Run(e, w0, steps[..n][..k]).db.snapshot == StoredReport(before);
        assert steps[..n][..k] == steps[..k];
      }
    }
  }

  // --------------------------------------------- at most one batch behind

  ghost predicate AlwaysDelivers(steps: seq<Step>) {
    forall k :: 0 <= k < |steps| && steps[k].Open? ==> steps[k].delivers
  }

  ghost predicate Close(w: World) {
    w.commits <= w.delivered + 1 && (w.worker.Live? ==> w.worker.delivers)
  }

  lemma TransactStaysClose(
      e: Engine, w: World, queue: seq<Bytes>, status: Status, fault: Fault, noted: bool, now: nat)
    requires Close(w) && w.worker.Live? && w.db.meta.Some? && w.delivered == w.commits
    ensures Close(Transact(e, w, queue, status, fault, noted, now))
  {
  }

  lemma PollStaysClose(e: Engine, w: World, fault: Fault, noted: bool, now: nat)
    requires Inv(e, w) && Close(w) && w.worker.Live?
    ensures Close(DoPoll(e, w, fault, noted, now))
  {
    var sent := Sent(w, w.worker.delivers);
    if SourceIntact(w.db.meta.value, w.sourceId, w.source) {
      var scan := PollScan(e, w.db.meta.value, w.source);
      if scan.Scanned? {
        TransactStaysClose(e, sent, scan.queue, scan.status, fault, noted, now);
      }
    }
  }

  lemma StepStaysClose(e: Engine, w: World, step: Step)
    requires Inv(e, w) && Close(w) && (step.Open? ==> step.delivers)
    ensures Close(Apply(e, w, step))
  {
    match step
    case Poll(fault, noted, now) =>
      if w.worker.Live? { PollStaysClose(e, w, fault, noted, now); }
    case _ =>
  }

  lemma TransactCommits(
      e: Engine, w: World, queue: seq<Bytes>, status: Status, fault: Fault, noted: bool, now: nat)
    requires w.worker.Live? && w.db.meta.Some?
    ensures w.commits <= Transact(e, w, queue, status, fault, noted, now).commits <= w.commits + 1
  {
  }

  lemma PollCommits(e: Engine, w: World, fault: Fault, noted: bool, now: nat)
    requires w.worker.Live? && w.db.meta.Some? && w.db.meta.value.lines <= e.limits.maxJournalRecords
    ensures w.commits <= DoPoll(e, w, fault, noted, now).commits <= w.commits + 1
  {
    if SourceIntact(w.db.meta.value, w.sourceId, w.source) {
      var scan := PollScan(e, w.db.meta.value, w.source);
      if scan.Scanned? {
        TransactCommits(e, Sent(w, w.worker.delivers), scan.queue, scan.status, fault, noted, now);
      }
    }
  }

  /** One step commits at most once, and only a live worker commits. */
  lemma StepCommits(e: Engine, w: World, step: Step)
    ensures w.commits <= Apply(e, w, step).commits <= w.commits + 1
    ensures Apply(e, w, step).commits != w.commits ==> w.worker.Live?
  {
    match step
    case Poll(fault, noted, now) =>
      if w.worker.Live? && w.db.meta.Some? && w.db.meta.value.lines <= e.limits.maxJournalRecords {
        PollCommits(e, w, fault, noted, now);
      }
    case _ =>
  }

  /** What a live worker with a repository leaves in the store is the snapshot it committed last. */
  lemma LiveShowsLatest(e: Engine, w: World)
    requires Inv(e, w) && w.worker.Live? && w.worker.delivers
    ensures StoredReport(w) == w.db.snapshot
  {
  }

  /** After k steps the journal held what the store shows at the end, and at most one commit followed. */
  ghost predicate ShownSince(e: Engine, w0: World, steps: seq<Step>, k: nat) {
    && k <= |steps|
    && Run(e, w0, steps[..k]).db.snapshot == StoredReport(Run(e, w0, steps))
    && Run(e, w0, steps).commits <= Run(e, w0, steps[..k]).commits + 1
  }

  /** One step more: what is shown stays, or is what the journal holds before or after the step. */
  lemma ShownAfterStep(e: Engine, w0: World, steps: seq<Step>, before: World, after: World, k: nat) returns (l: nat)
    requires steps != [] && before == Run(e, w0, steps[..|steps| - 1]) && after == Run(e, w0, steps)
    requires Inv(e, before) && Close(before) && ShownSince(e, w0, steps[..|steps| - 1], k)
    ensures ShownSince(e, w0, steps, l)
  {
    var n := |steps| - 1;
    StepStores(e, before, steps[n]);
    StepCommits(e, before, steps[n]);
    assert steps[..|steps|] == steps;
    if StoredReport(after) == after.db.snapshot {
      l := |steps|;
    } else if StoredReport(after) == before.db.snapshot {
      l := n;
    } else {
      assert steps[..n][..k] == steps[..k];
      if after.commits != before.commits {
        LiveShowsLatest(e, before);
      }
      l := k;
    }
  }

  lemma {:induction false} StaysShown(e: Engine, w0: World, steps: seq<Step>) returns (k: nat)
    requires Inv(e, w0) && Close(w0) && ShownSince(e, w0, [], 0) && AlwaysDelivers(steps)
    ensures Close(Run(e, w0, steps)) && ShownSince(e, w0, steps, k)
  {
    if steps == [] {
      k := 0;
    } else {
      var n := |steps| - 1;
      var l := StaysShown(e, w0, steps[..n]);
      var before := Run(e, w0, steps[..n]);
      EveryRunKeepsInv(e, w0, steps[..n]);
      StepStaysClose(e, before, steps[n]);
      k := ShownAfterStep(e, w0, steps, before, Run(e, w0, steps), l);
    }
  }

  /** When every worker is given the repository, the store is never more than one commit behind the journal, whatever
      failed or crashed: its report is the snapshot that the journal held at some point of the run, exactly, and at
      most one commit has followed. Between polls a live worker's store shows the latest snapshot itself. */
  lemma AtMostOneCommitBehind(e: Engine, source: Bytes, sourceId: nat, steps: seq<Step>)
    requires AlwaysDelivers(steps)
    ensures exists k: nat :: ShownSince(e, Initial(source, sourceId), steps, k)
    ensures var w := Run(e, Initial(source, sourceId), steps);
      Close(w) && (w.worker.Live? ==> StoredReport(w) == w.db.snapshot)
  {
    var w0 := Initial(source, sourceId);
    InitialInv(e, source, sourceId);
    EveryRunKeepsInv(e, w0, steps);
    assert Run(e, w0, []) == w0;
    var k := StaysShown(e, w0, steps);
    if Run(e, w0, steps).worker.Live? {
      LiveShowsLatest(e, Run(e, w0, steps));
    }
  }

  // ------------------------------------------ reviews survive every run

  lemma {:induction false} EffectsJoin(t: Store, a: seq<AnalystStore.Op<Report>>, b: seq<AnalystStore.Op<Report>>)
    ensures AnalystStore.Effects(t, a + b) == AnalystStore.Effects(AnalystStore.Effects(t, a), b)
  {
    if b == [] {
      assert a + b == a;
    } else {
      var init := b[..|b| - 1];
      EffectsJoin(t, a, init);
      assert (a + b)[..|a + b| - 1] == a + init;
    }
  }

  /** The projection of the snapshot that a journal holds. */
  predicate IsDelivery(op: AnalystStore.Op<Report>, db: Db) {
    && op.Projected? && db.snapshot == Some(op.report)
    && op.incidents == op.report.analysis.incidents && op.alerts == op.report.analysis.alerts && op.runId == op.report.runId
  }

  lemma DeliverIsAnOp(store: Store, db: Db) returns (ops: seq<AnalystStore.Op<Report>>)
    ensures Deliver(store, db) == AnalystStore.Effects(store, ops)
    ensures forall k :: 0 <= k < |ops| ==> IsDelivery(ops[k], db)
  {
    if db.snapshot.None? {
      ops := [];
    } else {
      var r := db.snapshot.value;
      ops := [AnalystStore.Projected(r.analysis.incidents, r.analysis.alerts, r.runId, r)];
      assert ops[..0] == [];
    }
  }

  lemma TransactIsOps(e: Engine, w: World, queue: seq<Bytes>, status: Status, fault: Fault, noted: bool, now: nat)
    returns (ops: seq<AnalystStore.Op<Report>>)
    requires w.worker.Live? && w.db.meta.Some?
    ensures Transact(e, w, queue, status, fault, noted, now).store == AnalystStore.Effects(w.store, ops)
    ensures forall k :: 0 <= k < |ops| ==> IsDelivery(ops[k], Transact(e, w, queue, status, fault, noted, now).db)
  {
    ops := [];
    if w.db.meta.value.offset + |Concat(queue)| <= |w.source| {
      var c := Commit(e, w.db, w.worker.ram, queue, status, |w.source|, now);
      if c.Committed? && Transact(e, w, queue, status, fault, noted, now).store != w.store {
        ops := DeliverIsAnOp(w.store, c.db);
      }
    }
  }

  lemma PollIsOps(e: Engine, w: World, fault: Fault, noted: bool, now: nat) returns (ops: seq<AnalystStore.Op<Report>>)
    requires w.worker.Live? && w.db.meta.Some? && w.db.meta.value.lines <= e.limits.maxJournalRecords
    ensures DoPoll(e, w, fault, noted, now).store == AnalystStore.Effects(w.store, ops)
    ensures forall k :: 0 <= k < |ops| ==> IsDelivery(ops[k], w.db) || IsDelivery(ops[k], DoPoll(e, w, fault, noted, now).db)
  {
    ops := [];
    if DoPoll(e, w, fault, noted, now).store == w.store {
      return;
    }
    var sent := Sent(w, w.worker.delivers);
    var first: seq<AnalystStore.Op<Report>> := [];
    if w.worker.delivers {
      first := DeliverIsAnOp(w.store, w.db);
    }
    var rest: seq<AnalystStore.Op<Report>> := [];
    if SourceIntact(w.db.meta.value, w.sourceId, w.source) {
      var scan := PollScan(e, w.db.meta.value, w.source);
      if scan.Scanned? {
        rest := TransactIsOps(e, sent, scan.queue, scan.status, fault, noted, now);
      }
    }
    ops := first + rest;
    EffectsJoin(w.store, first, rest);
  }

  lemma StepIsOps(e: Engine, w: World, step: Step) returns (ops: seq<AnalystStore.Op<Report>>)
    ensures Apply(e, w, step).store == AnalystStore.Effects(w.store, ops)
    ensures forall k :: 0 <= k < |ops| ==>
              step == Analyst(ops[k]) || IsDelivery(ops[k], w.db) || IsDelivery(ops[k], Apply(e, w, step).db)
  {
    ops := [];
    if Apply(e, w, step).store == w.store {
      return;
    }
    match step
    case Analyst(op) =>
      ops := [op];
      assert ops[..0] == [];
    case Poll(fault, noted, now) => ops := PollIsOps(e, w, fault, noted, now);
    case Open(_, _, _) => ops := DeliverIsAnOp(w.store, w.db);
    case _ =>
  }

  /** An analyst's step of the run, or the delivery of a snapshot that the journal held at some point of it. */
  ghost predicate Origin(e: Engine, w0: World, steps: seq<Step>, op: AnalystStore.Op<Report>) {
    Analyst(op) in steps || exists k :: 0 <= k <= |steps| && IsDelivery(op, Run(e, w0, steps[..k]).db)
  }

  lemma OriginStays(e: Engine, w0: World, steps: seq<Step>, op: AnalystStore.Op<Report>)
    requires steps != [] && Origin(e, w0, steps[..|steps| - 1], op)
    ensures Origin(e, w0, steps, op)
  {
    var init := steps[..|steps| - 1];
    if Analyst(op) !in init {
      var k :| 0 <= k <= |init| && IsDelivery(op, Run(e, w0, init[..k]).db);
      assert init[..k] == steps[..k];
    }
  }

  /** Whatever a run does to the store is a sequence of imports, projections and reviews: the analyst's own, and
      deliveries of committed snapshots. */
  lemma {:induction false} RunIsOps(e: Engine, w0: World, steps: seq<Step>) returns (ops: seq<AnalystStore.Op<Report>>)
    ensures Run(e, w0, steps).store == AnalystStore.Effects(w0.store, ops)
    ensures forall k :: 0 <= k < |ops| ==> Origin(e, w0, steps, ops[k])
  {
    if steps == [] {
      ops := [];
    } else {
      var n := |steps| - 1;
      var init := RunIsOps(e, w0, steps[..n]);
      var before := Run(e, w0, steps[..n]);
      var last := StepIsOps(e, before, steps[n]);
      ops := init + last;
      EffectsJoin(w0.store, init, last);
      forall k | 0 <= k < |ops| ensures Origin(e, w0, steps, ops[k]) {
        if k < |init| {
          OriginStays(e, w0, steps, init[k]);
        } else {
          assert steps[..|steps|] == steps;
          assert ops[k] == last[k - |init|];
          assert steps[n] in steps;
        }
      }
    }
  }

  // ------------------------------------ nothing uncommitted is ever shown

  /** A row's alert: an analyst imported it, or a snapshot the journal held reports it. */
  ghost predicate AlertOrigin(e: Engine, w0: World, steps: seq<Step>, a: Alert) {
    || (exists op :: Analyst(op) in steps && !op.Reviewed? && a in op.alerts)
    || (exists k :: 0 <= k <= |steps| && Reports(Run(e, w0, steps[..k]).db, a))
  }

  predicate Reports(db: Db, a: Alert) {
    db.snapshot.Some? && a in db.snapshot.value.analysis.alerts
  }

  /** A row's incident likewise, up to the status that a review writes into it. */
  ghost predicate IncidentOrigin(e: Engine, w0: World, steps: seq<Step>, i: Incident) {
    || (exists op :: Analyst(op) in steps && !op.Reviewed? && AnalystStore.ListedIn(op.incidents, i))
    || (exists k :: 0 <= k <= |steps| && ReportsIncident(Run(e, w0, steps[..k]).db, i))
  }

  ghost predicate ReportsIncident(db: Db, i: Incident) {
    db.snapshot.Some? && AnalystStore.ListedIn(db.snapshot.value.analysis.incidents, i)
  }

  /** In every reachable state each alert and each incident that the store shows was imported by an analyst or stood in
      a snapshot that the journal had committed: what a failing poll computed and never committed is nowhere. */
  lemma OnlyCommittedEvidenceShows(e: Engine, source: Bytes, sourceId: nat, steps: seq<Step>)
    ensures var w0 := Initial(source, sourceId); var w := Run(e, w0, steps);
      && (forall a :: a in w.store.alerts ==> AlertOrigin(e, w0, steps, w.store.alerts[a].payload))
      && (forall i :: i in w.store.incidents ==> IncidentOrigin(e, w0, steps, w.store.incidents[i].payload))
  {
    var w0 := Initial(source, sourceId);
    var w := Run(e, w0, steps);
    var ops := RunIsOps(e, w0, steps);
    AnalystStore.RowsComeFromOps(EMPTY_STORE, ops);
    forall a | a in w.store.alerts ensures AlertOrigin(e, w0, steps, w.store.alerts[a].payload) {
      var payload := w.store.alerts[a].payload;
      assert AnalystStore.AlertFrom(EMPTY_STORE, ops, payload);
      var k :| 0 <= k < |ops| && !ops[k].Reviewed? && payload in ops[k].alerts;
      AlertOriginOf(e, w0, steps, ops[k], payload);
    }
    forall i | i in w.store.incidents ensures IncidentOrigin(e, w0, steps, w.store.incidents[i].payload) {
      var payload := w.store.incidents[i].payload;
      assert AnalystStore.IncidentFrom(EMPTY_STORE, ops, payload);
      var k :| 0 <= k < |ops| && !ops[k].Reviewed? && AnalystStore.ListedIn(ops[k].incidents, payload);
      IncidentOriginOf(e, w0, steps, ops[k], payload);
    }
  }

  lemma AlertOriginOf(e: Engine, w0: World, steps: seq<Step>, op: AnalystStore.Op<Report>, a: Alert)
    requires Origin(e, w0, steps, op) && !op.Reviewed? && a in op.alerts
    ensures AlertOrigin(e, w0, steps, a)
  {
    if Analyst(op) !in steps {
      var k :| 0 <= k <= |steps| && IsDelivery(op, Run(e, w0, steps[..k]).db);
      assert Reports(Run(e, w0, steps[..k]).db, a);
    }
  }

  lemma IncidentOriginOf(e: Engine, w0: World, steps: seq<Step>, op: AnalystStore.Op<Report>, i: Incident)
    requires Origin(e, w0, steps, op) && !op.Reviewed? && AnalystStore.ListedIn(op.incidents, i)
    ensures IncidentOrigin(e, w0, steps, i)
  {
    if Analyst(op) !in steps {
      var k :| 0 <= k <= |steps| && IsDelivery(op, Run(e, w0, steps[..k]).db);
      assert ReportsIncident(Run(e, w0, steps[..k]).db, i);
    }
  }

  /** A review outlives any run: polls, crashes, redeliveries and foreign imports change the payload of a reviewed
      incident, never its status. */
  lemma ReviewOutlivesEveryRun(e: Engine, w: World, steps: seq<Step>, id: IncidentId)
    requires id in w.store.incidents
    requires forall op :: Analyst(op) in steps && op.Reviewed? && op.id == id ==> op.status !in AnalystStore.VALID_STATUSES
    ensures var w' := Run(e, w, steps);
      id in w'.store.incidents && w'.store.incidents[id].status == w.store.incidents[id].status
  {
    var ops := RunIsOps(e, w, steps);
    forall k | 0 <= k < |ops|
      ensures !(ops[k].Reviewed? && ops[k].id == id && ops[k].status in AnalystStore.VALID_STATUSES)
    {
      if ops[k].Reviewed? {
        assert Analyst(ops[k]) in steps;
      }
    }
    AnalystStore.ReviewSurvives(w.store, ops, id);
  }

  // ------------------------------------- right after a delivery

  lemma {:induction false} OpsStayKeyed(t: Store, ops: seq<AnalystStore.Op<Report>>)
    requires AnalystStore.Keyed(t)
    ensures AnalystStore.Keyed(AnalystStore.Effects(t, ops))
  {
    if ops == [] {
    } else {
      var op := ops[|ops| - 1];
      OpsStayKeyed(t, ops[..|ops| - 1]);
      if !op.Reviewed? {
        ImportStaysKeyed(AnalystStore.Effects(t, ops[..|ops| - 1]), op.incidents, op.alerts);
      }
    }
  }

  lemma ImportStaysKeyed(t: Store, incidents: seq<Incident>, alerts: seq<Alert>)
    requires AnalystStore.Keyed(t)
    ensures AnalystStore.Keyed(AnalystStore.Import(t, incidents, alerts))
  {
    UpsertIncidentsStayKeyed(t, incidents);
    UpsertAlertsStayKeyed(AnalystStore.UpsertIncidents(t, incidents), alerts, incidents);
  }

  lemma {:induction false} UpsertIncidentsStayKeyed(t: Store, incidents: seq<Incident>)
    requires AnalystStore.Keyed(t)
    ensures AnalystStore.Keyed(AnalystStore.UpsertIncidents(t, incidents))
    decreases |incidents|
  {
    if incidents == [] {
    } else {
      UpsertIncidentsStayKeyed(AnalystStore.UpsertIncident(t, incidents[0]), incidents[1..]);
    }
  }

  lemma {:induction false} UpsertAlertsStayKeyed(t: Store, alerts: seq<Alert>, incidents: seq<Incident>)
    requires AnalystStore.Keyed(t)
    ensures AnalystStore.Keyed(AnalystStore.UpsertAlerts(t, alerts, incidents))
    decreases |alerts|
  {
    if alerts == [] {
    } else {
      var owner := AnalystStore.Owner(incidents, alerts[0].alertId);
      UpsertAlertsStayKeyed(AnalystStore.UpsertAlert(t, alerts[0], owner), alerts[1..], incidents);
    }
  }

  /** In any reachable state, delivering the committed snapshot makes every incident it reports show exactly its
      present members, whatever reruns and imports the store went through before. */
  lemma DeliveryShowsMembers(e: Engine, source: Bytes, sourceId: nat, steps: seq<Step>, i: nat)
    ensures var w := Run(e, Initial(source, sourceId), steps);
      w.db.snapshot.Some? && i < |w.db.snapshot.value.analysis.incidents|
        && AnalystStore.Linked(w.db.snapshot.value.analysis.incidents, w.db.snapshot.value.analysis.alerts) ==>
        var inc := w.db.snapshot.value.analysis.incidents[i];
        var t := Deliver(w.store, w.db);
        && inc.incidentId in t.incidents
        && AnalystStore.Members(t, inc.incidentId) == (set a | a in inc.alertIds)
        && forall a :: a in inc.alertIds ==> t.alerts[a].payload in w.db.snapshot.value.analysis.alerts
  {
    var w := Run(e, Initial(source, sourceId), steps);
    var ops := RunIsOps(e, Initial(source, sourceId), steps);
    OpsStayKeyed(EMPTY_STORE, ops);
    if w.db.snapshot.Some? {
      var r := w.db.snapshot.value;
      if i < |r.analysis.incidents| && AnalystStore.Linked(r.analysis.incidents, r.analysis.alerts) {
        AnalystStore.ProjectionShowsCurrentMembers(w.store, r.analysis.incidents, r.analysis.alerts, r.runId, r, i);
        var t := Deliver(w.store, w.db);
        assert forall a :: a in r.analysis.incidents[i].alertIds ==> a in AnalystStore.Members(t, r.analysis.incidents[i].incidentId);
      }
    }
  }
}
