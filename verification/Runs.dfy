/** Every interleaving of source appends and edits, worker opens, polls, failures, crashes and analyst actions. */
module Runs {
  import opened Records
  import opened Ingest
  import opened Journal
  import AnalystStore

  type Store = AnalystStore.Tables<Report>

  /** A live worker's memory beside the journal: `delivers` says it was given a repository. */
  datatype Worker = Absent | Live(ram: Ram, delivers: bool) | Broken

  /** `commits` and `delivered` count committed polls and the commits covered by the last delivery; the code keeps
      neither. */
  datatype World = World(
    source: Bytes, sourceId: nat, db: Db, worker: Worker, store: Store, commits: nat, delivered: nat)

  /** Where a poll goes wrong. The process can die, or an exception can mark the worker failed. */
  datatype Fault =
    | NoFault
    | UndeliveredBefore
    | DiesBeforeCommit
    | BreaksInTransaction
    | DiesAfterCommit
    | UndeliveredAfter

  datatype Step =
    | Append(bytes: Bytes)
    | Tamper(source: Bytes, sourceId: nat)
    | Open(delivers: bool, reachable: bool, runId: string)
    | Poll(fault: Fault, noted: bool, now: nat)
    | Exit
    | Analyst(op: AnalystStore.Op<Report>)

  const EMPTY_STORE: Store := AnalystStore.Tables(map[], map[], map[])

  function Initial(source: Bytes, sourceId: nat): World {
    World(source, sourceId, EMPTY_DB, Absent, EMPTY_STORE, 0, 0)
  }

  // ------------------------------------------------------------------ steps

  function Deliver(store: Store, db: Db): Store {
    if db.snapshot.None? then store
    else
      var r := db.snapshot.value;
      AnalystStore.Project(store, r.analysis.incidents, r.analysis.alerts, r.runId, r)
  }

  /** The failure note on the last committed snapshot, when it can be written. */
  function Noted(db: Db, noted: bool, now: nat): Db {
    if noted && db.snapshot.Some?
    then db.(snapshot := Some(db.snapshot.value.(status := Failed, updatedAt := now, failure := true)))
    else db
  }

  function Break(w: World, noted: bool, now: nat): World {
    w.(worker := Broken, db := Noted(w.db, noted, now))
  }

  function DoOpen(e: Engine, w: World, delivers: bool, reachable: bool, runId: string): World {
    var contract := Contract(w.sourceId, e.limits, e.provenance);
    if !w.worker.Absent? then w
    else if w.db.meta.None? then
      if runId in w.store.runs then w
      else w.(worker := Live(FRESH_RAM, delivers),
              db := Db(Some(Meta(contract, runId, 0, 0, Sha256([]), 0, 0)), [], None))
    else if w.db.meta.value.contract != contract || !SourceIntact(w.db.meta.value, w.sourceId, w.source) then w
    else
      match Recover(e, w.db)
      case None => w
      case Some(ram) =>
        if !delivers then w.(worker := Live(ram, false))
        else if !reachable && w.db.snapshot.Some? then w
        else w.(worker := Live(ram, true), store := Deliver(w.store, w.db), delivered := w.commits)
  }

  /** Deliver the committed snapshot, when the worker has a repository. */
  function Sent(w: World, sends: bool): World {
    if sends then w.(store := Deliver(w.store, w.db), delivered := w.commits) else w
  }

  /** The end of a poll, from a committed transaction on. */
  function Settle(w: World, c: Committed, sends: bool, fault: Fault, noted: bool, now: nat): World
    requires c.Committed?
  {
    var done := w.(db := c.db, worker := Live(c.ram, sends), commits := w.commits + 1);
    if fault.DiesAfterCommit? then done.(worker := Absent)
    else if sends && fault.UndeliveredAfter? then Break(done, noted, now)
    else Sent(done, sends)
  }

  /** One poll's transaction over the lines it read. */
  function Transact(e: Engine, w: World, queue: seq<Bytes>, status: Status, fault: Fault, noted: bool, now: nat): World
    requires w.worker.Live? && w.db.meta.Some?
  {
    if fault.DiesBeforeCommit? then w.(worker := Absent)
    else if fault.BreaksInTransaction? || w.db.meta.value.offset + |Concat(queue)| > |w.source| then Break(w, noted, now)
    else
      var c := Commit(e, w.db, w.worker.ram, queue, status, |w.source|, now);
      if c.RolledBack? then Break(w, noted, now) else Settle(w, c, w.worker.delivers, fault, noted, now)
  }

  function DoPoll(e: Engine, w: World, fault: Fault, noted: bool, now: nat): World
    requires w.worker.Live? && w.db.meta.Some? && w.db.meta.value.lines <= e.limits.maxJournalRecords
  {
    if w.worker.delivers && w.db.snapshot.Some? && fault.UndeliveredBefore? then Break(w, noted, now)
    else
      var sent := Sent(w, w.worker.delivers);
      if !SourceIntact(w.db.meta.value, w.sourceId, w.source) then Break(sent, noted, now)
      else
        var scan := PollScan(e, w.db.meta.value, w.source);
        if scan.Oversize? then Break(sent, noted, now)
        else Transact(e, sent, scan.queue, scan.status, fault, noted, now)
  }

  /** A poll in which nothing goes wrong. */
  lemma GoodPoll(e: Engine, w: World, c: Committed, now: nat)
    requires w.worker.Live? && w.db.meta.Some? && w.db.meta.value.lines <= e.limits.maxJournalRecords
    requires SourceIntact(w.db.meta.value, w.sourceId, w.source)
    requires var scan := PollScan(e, w.db.meta.value, w.source);
      && scan.Scanned? && w.db.meta.value.offset + |Concat(scan.queue)| <= |w.source|
      && c == Commit(e, w.db, w.worker.ram, scan.queue, scan.status, |w.source|, now) && c.Committed?
    ensures var w' := DoPoll(e, w, NoFault, false, now);
      && w'.db == c.db && w'.worker == Live(c.ram, w.worker.delivers)
      && w'.source == w.source && w'.sourceId == w.sourceId && w'.commits == w.commits + 1
      && (if w.worker.delivers then w'.delivered == w'.commits else w'.delivered == w.delivered && w'.store == w.store)
  {
  }

  /** The stream's own run id is a fresh uuid4: no other run is saved under it. */
  predicate ForeignRun(db: Db, op: AnalystStore.Op<Report>) {
    op.Projected? && db.meta.Some? ==> op.runId != db.meta.value.runId
  }

  function Apply(e: Engine, w: World, step: Step): World {
    match step
    case Append(bytes) => w.(source := w.source + bytes)
    case Tamper(source, id) => w.(source := source, sourceId := id)
    case Open(delivers, reachable, runId) => DoOpen(e, w, delivers, reachable, runId)
    case Poll(fault, noted, now) =>
      if w.worker.Live? && w.db.meta.Some? && w.db.meta.value.lines <= e.limits.maxJournalRecords
      then DoPoll(e, w, fault, noted, now) else w
    case Exit => w.(worker := Absent)
    case Analyst(op) => if ForeignRun(w.db, op) then w.(store := AnalystStore.Effect(w.store, op)) else w
  }

  function Run(e: Engine, w: World, steps: seq<Step>): World {
    if steps == [] then w else Apply(e, Run(e, w, steps[..|steps| - 1]), steps[|steps| - 1])
  }

  // -------------------------------------------------------------- invariant

  function CommittedRam(e: Engine, db: Db): Ram {
    var r := Replay(e, Raws(db.rows));
    if r.Replayed? then r.ram else FRESH_RAM
  }

  /** The run's row in the store is the committed snapshot, whenever there is one. */
  ghost predicate UpToDate(w: World) {
    w.db.meta.Some? && w.db.snapshot.Some? ==>
      w.db.meta.value.runId in w.store.runs && w.store.runs[w.db.meta.value.runId] == w.db.snapshot.value
  }

  ghost predicate Inv(e: Engine, w: World) {
    && JournalOk(e, w.db)
    && (w.worker.Live? ==> w.db.meta.Some? && w.worker.ram == CommittedRam(e, w.db))
    && (w.worker.Live? && w.worker.delivers ==> UpToDate(w) && w.delivered == w.commits)
    && (w.db.meta.Some? && w.db.snapshot.None? ==> w.db.meta.value.runId !in w.store.runs)
    && (w.db.snapshot.None? ==> w.commits == 0)
    && w.delivered <= w.commits
  }

  lemma {:induction false} ImportKeepsRuns(t: Store, incidents: seq<Incident>, alerts: seq<Alert>)
    ensures AnalystStore.Import(t, incidents, alerts).runs == t.runs
  {
    UpsertIncidentsKeepRuns(t, incidents);
    UpsertAlertsKeepRuns(AnalystStore.UpsertIncidents(t, incidents), alerts, incidents);
  }

  lemma {:induction false} UpsertIncidentsKeepRuns(t: Store, incidents: seq<Incident>)
    ensures AnalystStore.UpsertIncidents(t, incidents).runs == t.runs
    decreases |incidents|
  {
    if incidents == [] {
    } else {
      UpsertIncidentsKeepRuns(AnalystStore.UpsertIncident(t, incidents[0]), incidents[1..]);
    }
  }

  lemma {:induction false} UpsertAlertsKeepRuns(t: Store, alerts: seq<Alert>, incidents: seq<Incident>)
    ensures AnalystStore.UpsertAlerts(t, alerts, incidents).runs == t.runs
    decreases |alerts|
  {
    if alerts == [] {
    } else {
      var owner := AnalystStore.Owner(incidents, alerts[0].alertId);
      UpsertAlertsKeepRuns(AnalystStore.UpsertAlert(t, alerts[0], owner), alerts[1..], incidents);
    }
  }

  lemma NotedKeepsJournal(e: Engine, db: Db, noted: bool, now: nat)
    requires JournalOk(e, db)
    ensures JournalOk(e, Noted(db, noted, now)) && Noted(db, noted, now).rows == db.rows
  {
  }

  lemma OpenKeepsInv(e: Engine, w: World, delivers: bool, reachable: bool, runId: string)
    requires Inv(e, w)
    ensures Inv(e, DoOpen(e, w, delivers, reachable, runId))
  {
    if w.worker.Absent? {
      if w.db.meta.None? {
        assert Raws([]) == [];
      } else {
        RecoverAccepts(e, w.db);
      }
    }
  }

  lemma BreakKeepsInv(e: Engine, w: World, noted: bool, now: nat)
    requires Inv(e, w)
    ensures Inv(e, Break(w, noted, now))
  {
    NotedKeepsJournal(e, w.db, noted, now);
  }

  lemma SettleKeepsInv(e: Engine, w: World, c: Committed, fault: Fault, noted: bool, now: nat)
    requires Inv(e, w) && w.worker.Live? && c.Committed?
    requires JournalOk(e, c.db) && c.db.meta.Some? && c.db.snapshot.Some? && c.ram == CommittedRam(e, c.db)
    ensures Inv(e, Settle(w, c, w.worker.delivers, fault, noted, now))
  {
    var done := w.(db := c.db, worker := Live(c.ram, false), commits := w.commits + 1);
    assert Inv(e, done);
    BreakKeepsInv(e, done, noted, now);
  }

  lemma SentKeepsInv(e: Engine, w: World, sends: bool)
    requires Inv(e, w) && (w.worker.Live? ==> sends ==> w.worker.delivers)
    ensures Inv(e, Sent(w, sends))
  {
  }

  lemma TransactKeepsInv(
      e: Engine, w: World, queue: seq<Bytes>, status: Status, fault: Fault, noted: bool, now: nat)
    requires Inv(e, w) && w.worker.Live? && QueueFits(e, w.db.meta.value, queue)
    ensures Inv(e, Transact(e, w, queue, status, fault, noted, now))
  {
    BreakKeepsInv(e, w, noted, now);
    if w.db.meta.value.offset + |Concat(queue)| <= |w.source| {
      var c := Commit(e, w.db, w.worker.ram, queue, status, |w.source|, now);
      if c.Committed? {
        CommitKeepsJournal(e, w.db, w.worker.ram, queue, status, |w.source|, now);
        SettleKeepsInv(e, w, c, fault, noted, now);
      }
    }
  }

  lemma PollKeepsInv(e: Engine, w: World, fault: Fault, noted: bool, now: nat)
    requires Inv(e, w) && w.worker.Live?
    ensures Inv(e, DoPoll(e, w, fault, noted, now))
  {
    var sent := Sent(w, w.worker.delivers);
    SentKeepsInv(e, w, w.worker.delivers);
    BreakKeepsInv(e, w, noted, now);
    BreakKeepsInv(e, sent, noted, now);
    var m := w.db.meta.value;
    if SourceIntact(m, w.sourceId, w.source) && PollScan(e, m, w.source).Scanned? {
      var scan := PollScan(e, m, w.source);
      PollReads(e, m, w.source);
      TransactKeepsInv(e, sent, scan.queue, scan.status, fault, noted, now);
    }
  }

  lemma AnalystKeepsInv(e: Engine, w: World, op: AnalystStore.Op<Report>)
    requires Inv(e, w) && ForeignRun(w.db, op)
    ensures Inv(e, w.(store := AnalystStore.Effect(w.store, op)))
  {
    if !op.Reviewed? {
      ImportKeepsRuns(w.store, op.incidents, op.alerts);
    }
  }

  lemma StepKeepsInv(e: Engine, w: World, step: Step)
    requires Inv(e, w)
    ensures Inv(e, Apply(e, w, step))
  {
    match step
    case Open(delivers, reachable, runId) => OpenKeepsInv(e, w, delivers, reachable, runId);
    case Poll(fault, noted, now) =>
      if w.worker.Live? { PollKeepsInv(e, w, fault, noted, now); }
    case Analyst(op) =>
      if ForeignRun(w.db, op) { AnalystKeepsInv(e, w, op); }
    case _ =>
  }

  lemma {:induction false} EveryRunKeepsInv(e: Engine, w: World, steps: seq<Step>)
    requires Inv(e, w)
    ensures Inv(e, Run(e, w, steps))
  {
    if steps == [] {
    } else {
      EveryRunKeepsInv(e, w, steps[..|steps| - 1]);
      StepKeepsInv(e, Run(e, w, steps[..|steps| - 1]), steps[|steps| - 1]);
    }
  }

  lemma InitialInv(e: Engine, source: Bytes, sourceId: nat)
    ensures Inv(e, Initial(source, sourceId))
  {
  }

  // ---------------------------------- crash, failure and batch independence

  /** After any interleaving of appends, edits, polls, failures, crashes and reopens, a live worker remembers exactly
      what one uninterrupted fold over the committed lines remembers, and the committed report shows exactly that
      fold's quality and what the detectors say of every event of every accepted line in order. */
  lemma CrashIndependence(e: Engine, source: Bytes, sourceId: nat, steps: seq<Step>)
    ensures var w := Run(e, Initial(source, sourceId), steps); var fold := Replay(e, Raws(w.db.rows));
      && JournalOk(e, w.db) && (w.db.meta.Some? ==> fold.Replayed?)
      && (w.worker.Live? ==> w.db.meta.Some? && w.worker.ram == fold.ram)
      && (w.db.meta.Some? && w.db.snapshot.Some? ==>
            && w.db.snapshot.value.quality == fold.ram.quality
            && w.db.snapshot.value.analysis == e.analyse(Fed(e, Raws(w.db.rows)))
            && w.db.snapshot.value.lines == |w.db.rows|)
  {
    InitialInv(e, source, sourceId);
    EveryRunKeepsInv(e, Initial(source, sourceId), steps);
    var w := Run(e, Initial(source, sourceId), steps);
    if w.db.meta.Some? {
      ReplayFeeds(e, Raws(w.db.rows));
    }
  }

  /** Recovery never rejects a journal this engine wrote: reopening succeeds whenever the source still has the
      committed prefix, and brings back the fold. */
  lemma ReopenSucceeds(e: Engine, source: Bytes, sourceId: nat, steps: seq<Step>, delivers: bool, runId: string)
    ensures var w := Run(e, Initial(source, sourceId), steps);
      w.worker.Absent? && w.db.meta.Some? && w.db.meta.value.contract.sourceId == w.sourceId
        && SourceIntact(w.db.meta.value, w.sourceId, w.source) ==>
        DoOpen(e, w, delivers, true, runId).worker == Live(CommittedRam(e, w.db), delivers)
  {
    var w := Run(e, Initial(source, sourceId), steps);
    InitialInv(e, source, sourceId);
    EveryRunKeepsInv(e, Initial(source, sourceId), steps);
    if w.db.meta.Some? {
      RecoverAccepts(e, w.db);
    }
  }

  /** Nothing committed is lost: rows grow by appending, and the checkpoint keeps its run and its contract. */
  ghost predicate Extends(before: Db, after: Db) {
    && before.rows <= after.rows
    && (before.meta.Some? ==> after.meta.Some?)
    && (before.meta.Some? ==> after.meta.value.runId == before.meta.value.runId)
    && (before.meta.Some? ==> after.meta.value.contract == before.meta.value.contract)
  }

  lemma PollGrowsJournal(e: Engine, w: World, fault: Fault, noted: bool, now: nat)
    requires w.worker.Live? && w.db.meta.Some? && w.db.meta.value.lines <= e.limits.maxJournalRecords
    ensures Extends(w.db, DoPoll(e, w, fault, noted, now).db)
  {
    var sent := Sent(w, w.worker.delivers);
    if SourceIntact(w.db.meta.value, w.sourceId, w.source) {
      var scan := PollScan(e, w.db.meta.value, w.source);
      if scan.Scanned? {
        TransactGrowsJournal(e, sent, scan.queue, scan.status, fault, noted, now);
      }
    }
  }

  lemma TransactGrowsJournal(
      e: Engine, w: World, queue: seq<Bytes>, status: Status, fault: Fault, noted: bool, now: nat)
    requires w.worker.Live? && w.db.meta.Some?
    ensures Extends(w.db, Transact(e, w, queue, status, fault, noted, now).db)
  {
  }

  lemma StepGrowsJournal(e: Engine, w: World, step: Step)
    requires Inv(e, w)
    ensures Extends(w.db, Apply(e, w, step).db)
  {
    match step
    case Poll(fault, noted, now) =>
      if w.worker.Live? { PollGrowsJournal(e, w, fault, noted, now); }
    case _ =>
  }

  /** The committed record sequence only grows by appending, failures included. */
  lemma {:induction false} JournalOnlyAppends(e: Engine, w: World, steps: seq<Step>)
    requires Inv(e, w)
    ensures Extends(w.db, Run(e, w, steps).db)
  {
    if steps == [] {
    } else {
      JournalOnlyAppends(e, w, steps[..|steps| - 1]);
      EveryRunKeepsInv(e, w, steps[..|steps| - 1]);
      StepGrowsJournal(e, Run(e, w, steps[..|steps| - 1]), steps[|steps| - 1]);
    }
  }

  // ------------------------------------- append-only sources decide the rows

  /** The complete lines of a byte sequence, in order. */
  function CompleteLines(s: Bytes): seq<Bytes>
    decreases |s|
  {
    var line := ReadLine(s, |s|);
    if EndsLine(line) then [line] + CompleteLines(s[|line|..]) else []
  }

  lemma {:induction false} ReadLineFinds(s: Bytes, line: Bytes, limit: nat)
    requires OneLine(line) && line <= s && |line| <= limit
    ensures ReadLine(s, limit) == line
  {
    if |line| > 1 {
      assert s[0] == line[0];
      var rest := line[1..];
      assert rest <= s[1..] && rest[|rest| - 1] == line[|line| - 1];
      assert forall i :: 0 <= i < |rest| - 1 ==> rest[i] == line[i + 1];
      ReadLineFinds(s[1..], rest, limit - 1);
    } else {
      assert s[0] == line[0];
    }
  }

  ghost predicate StartsWith(source: Bytes, raws: seq<Bytes>) {
    && (forall i :: 0 <= i < |raws| ==> OneLine(raws[i]))
    && |Concat(raws)| <= |source| && source[..|Concat(raws)|] == Concat(raws)
  }

  lemma PeelLine(raws: seq<Bytes>, source: Bytes) returns (line: Bytes, rest: seq<Bytes>, after: Bytes)
    requires raws != [] && StartsWith(source, raws)
    ensures line == raws[0] && rest == raws[1..] && raws == [line] + rest && EndsLine(line)
    ensures ReadLine(source, |source|) == line && after == source[|line|..]
    ensures StartsWith(after, rest) && after[|Concat(rest)|..] == source[|Concat(raws)|..]
  {
    line, rest := raws[0], raws[1..];
    assert raws == [line] + rest;
    ConcatFirst(line, rest);
    var read := Concat(raws);
    assert source[..|line|] == read[..|line|] == line;
    ReadLineFinds(source, line, |source|);
    after := source[|line|..];
    assert after[..|Concat(rest)|] == read[|line|..] == Concat(rest);
    assert after[|Concat(rest)|..] == source[|read|..];
  }

  lemma FirstLine(source: Bytes, line: Bytes, after: Bytes)
    requires line == ReadLine(source, |source|) && EndsLine(line) && after == source[|line|..]
    ensures CompleteLines(source) == [line] + CompleteLines(after)
  {
  }

  /** The committed lines and the complete lines behind them are the source's complete lines. */
  lemma {:induction false} LinesSplit(raws: seq<Bytes>, source: Bytes)
    requires StartsWith(source, raws)
    ensures CompleteLines(source) == raws + CompleteLines(source[|Concat(raws)|..])
    decreases |raws|
  {
    if raws == [] {
      assert source[0..] == source;
    } else {
      var line, rest, after := PeelLine(raws, source);
      LinesSplit(rest, after);
      FirstLine(source, line, after);
      assert raws + CompleteLines(after[|Concat(rest)|..]) == [line] + (rest + CompleteLines(after[|Concat(rest)|..]));
    }
  }

  ghost predicate AppendOnly(steps: seq<Step>) {
    forall k :: 0 <= k < |steps| ==> !steps[k].Tamper?
  }

  /** The committed prefix is on the source and the checkpoint belongs to it. */
  ghost predicate OnSource(e: Engine, w: World) {
    w.db.meta.Some? ==> SourceIntact(w.db.meta.value, w.sourceId, w.source)
  }

  lemma CommitOnSource(e: Engine, db: Db, ram: Ram, source: Bytes, queue: seq<Bytes>, status: Status, now: nat)
    requires db.meta.Some? && SourceIntact(db.meta.value, db.meta.value.contract.sourceId, source)
    requires db.meta.value.offset + |Concat(queue)| <= |source|
    requires source[db.meta.value.offset..][..|Concat(queue)|] == Concat(queue)
    ensures var c := Commit(e, db, ram, queue, status, |source|, now);
      c.Committed? ==> c.db.meta.Some? && c.db.meta.value.contract == db.meta.value.contract
                       && SourceIntact(c.db.meta.value, db.meta.value.contract.sourceId, source)
  {
    var m := db.meta.value;
    var end := m.offset + |Concat(queue)|;
    assert source[..end] == source[..m.offset] + source[m.offset..][..|Concat(queue)|];
  }

  lemma PollStaysOnSource(e: Engine, w: World, fault: Fault, noted: bool, now: nat)
    requires Inv(e, w) && OnSource(e, w) && w.worker.Live?
    ensures OnSource(e, DoPoll(e, w, fault, noted, now))
  {
    var m := w.db.meta.value;
    if PollScan(e, m, w.source).Scanned? {
      var scan := PollScan(e, m, w.source);
      PollReads(e, m, w.source);
      CommitOnSource(e, w.db, w.worker.ram, w.source, scan.queue, scan.status, now);
    }
  }

  lemma StepStaysOnSource(e: Engine, w: World, step: Step)
    requires Inv(e, w) && OnSource(e, w) && !step.Tamper?
    ensures OnSource(e, Apply(e, w, step))
  {
    match step
    case Append(bytes) =>
      if w.db.meta.Some? {
        assert (w.source + bytes)[..w.db.meta.value.offset] == w.source[..w.db.meta.value.offset];
      }
    case Poll(fault, noted, now) =>
      if w.worker.Live? { PollStaysOnSource(e, w, fault, noted, now); }
    case Open(_, _, _) => assert w.source[..0] == [];
    case _ =>
  }

  lemma StepKeepsSourceId(e: Engine, w: World, step: Step)
    requires !step.Tamper?
    ensures Apply(e, w, step).sourceId == w.sourceId
  {
  }

  lemma {:induction false} AppendOnlyStaysOnSource(e: Engine, w: World, steps: seq<Step>)
    requires Inv(e, w) && OnSource(e, w) && AppendOnly(steps)
    ensures OnSource(e, Run(e, w, steps)) && Run(e, w, steps).sourceId == w.sourceId
  {
    if steps == [] {
    } else {
      var init := steps[..|steps| - 1];
      AppendOnlyStaysOnSource(e, w, init);
      EveryRunKeepsInv(e, w, init);
      StepStaysOnSource(e, Run(e, w, init), steps[|steps| - 1]);
      StepKeepsSourceId(e, Run(e, w, init), steps[|steps| - 1]);
    }
  }

  /** On a source that is only appended to, the committed lines are the source's first complete lines: how the run
      was cut into polls, crashes and reopens leaves no trace beyond how far it got. */
  lemma SourceDecidesRows(e: Engine, source: Bytes, sourceId: nat, steps: seq<Step>)
    requires AppendOnly(steps)
    ensures var w := Run(e, Initial(source, sourceId), steps);
      && OnSource(e, w)
      && |w.db.rows| <= |CompleteLines(w.source)|
      && Raws(w.db.rows) == CompleteLines(w.source)[..|w.db.rows|]
  {
    var w := Run(e, Initial(source, sourceId), steps);
    InitialInv(e, source, sourceId);
    EveryRunKeepsInv(e, Initial(source, sourceId), steps);
    AppendOnlyStaysOnSource(e, Initial(source, sourceId), steps);
    if w.db.meta.Some? {
      LinesSplit(Raws(w.db.rows), w.source);
    } else {
      assert Raws(w.db.rows) == [] == CompleteLines(w.source)[..0];
    }
  }

  lemma ReadsJoin(source: Bytes, a: Bytes, b: Bytes)
    requires |a| + |b| <= |source| && source[..|a|] == a && source[|a|..][..|b|] == b
    ensures source[..|a| + |b|] == a + b
  {
    assert source[..|a| + |b|] == source[..|a|] + source[|a|..][..|b|];
  }

  lemma LongerStart(raws: seq<Bytes>, queue: seq<Bytes>, source: Bytes)
    requires StartsWith(source, raws) && (forall i :: 0 <= i < |queue| ==> OneLine(queue[i]))
    requires |Concat(raws)| + |Concat(queue)| <= |source|
    requires source[|Concat(raws)|..][..|Concat(queue)|] == Concat(queue)
    ensures StartsWith(source, raws + queue)
  {
    ConcatJoin(raws, queue);
    ReadsJoin(source, Concat(raws), Concat(queue));
  }

  /** Lines read behind the committed ones continue the source's complete lines. */
  lemma QueueContinues(raws: seq<Bytes>, queue: seq<Bytes>, source: Bytes)
    requires StartsWith(source, raws) && (forall i :: 0 <= i < |queue| ==> OneLine(queue[i]))
    requires |Concat(raws)| + |Concat(queue)| <= |source|
    requires source[|Concat(raws)|..][..|Concat(queue)|] == Concat(queue)
    ensures StartsWith(source, raws + queue) && raws + queue <= CompleteLines(source)
  {
    LongerStart(raws, queue, source);
    StartIsPrefix(raws + queue, source);
  }

  lemma StartIsPrefix(raws: seq<Bytes>, source: Bytes)
    requires StartsWith(source, raws)
    ensures raws <= CompleteLines(source)
  {
    LinesSplit(raws, source);
  }

  // ---------------------------------------------- a line no poll gets past

  /** On an append-only source nothing from the first poison line on is ever committed, however often the worker is
      reopened. */
  lemma PoisonIsNeverCommitted(e: Engine, source: Bytes, sourceId: nat, steps: seq<Step>, j: nat)
    requires AppendOnly(steps)
    requires var lines := CompleteLines(Run(e, Initial(source, sourceId), steps).source);
      j < |lines| && Poison(e, lines, j)
    ensures |Run(e, Initial(source, sourceId), steps).db.rows| <= j
  {
    var w := Run(e, Initial(source, sourceId), steps);
    var lines, n := CompleteLines(w.source), |w.db.rows|;
    SourceDecidesRows(e, source, sourceId, steps);
    CrashIndependence(e, source, sourceId, steps);
    if j < n {
      PrefixDecides(e, lines, n, j);
      StopsIffPoisoned(e, lines[..n]);
    }
  }

  lemma RefusedBreaks(e: Engine, w: World, queue: seq<Bytes>, status: Status, fault: Fault, noted: bool, now: nat)
    requires w.worker.Live? && w.db.meta.Some? && ConsumeQueue(e, w.worker.ram, queue, w.db.meta.value.lines).Refused?
    ensures var w' := Transact(e, w, queue, status, fault, noted, now);
      !w'.worker.Live? && w'.db.rows == w.db.rows && w'.db.meta == w.db.meta
  {
  }

  /** A poll whose batch is refused leaves rows and checkpoint as they are and no worker. */
  lemma RefusedPollFails(e: Engine, w: World, scan: Scan, fault: Fault, noted: bool, now: nat)
    requires w.worker.Live? && w.db.meta.Some? && w.db.meta.value.lines <= e.limits.maxJournalRecords
    requires w.db.meta.value.offset <= |w.source| && scan == PollScan(e, w.db.meta.value, w.source) && scan.Scanned?
    requires ConsumeQueue(e, w.worker.ram, scan.queue, w.db.meta.value.lines).Refused?
    ensures var w' := DoPoll(e, w, fault, noted, now);
      !w'.worker.Live? && w'.db.rows == w.db.rows && w'.db.meta == w.db.meta
  {
    RefusedBreaks(e, Sent(w, w.worker.delivers), scan.queue, scan.status, fault, noted, now);
  }

  /** A poll that reads a poison line, whatever else goes wrong in it, commits none of the lines it read: the ones in
      front are held back with it for as long as they share its batch. */
  lemma PoisonHoldsItsBatchBack(
      e: Engine, source: Bytes, sourceId: nat, steps: seq<Step>, w: World, scan: Scan, j: nat, fault: Fault, noted: bool, now: nat)
    requires AppendOnly(steps) && w == Run(e, Initial(source, sourceId), steps)
    requires w.worker.Live? && w.db.meta.Some? && w.db.meta.value.lines <= e.limits.maxJournalRecords
    requires w.db.meta.value.offset <= |w.source| && scan == PollScan(e, w.db.meta.value, w.source) && scan.Scanned?
    requires j < |CompleteLines(w.source)| && Poison(e, CompleteLines(w.source), j) && j < |w.db.rows| + |scan.queue|
    ensures var w' := DoPoll(e, w, fault, noted, now);
      !w'.worker.Live? && w'.db.rows == w.db.rows && w'.db.meta == w.db.meta
  {
    InitialInv(e, source, sourceId);
    EveryRunKeepsInv(e, Initial(source, sourceId), steps);
    SourceDecidesRows(e, source, sourceId, steps);
    ReadyBatchIsRefused(e, w, scan, j);
    RefusedPollFails(e, w, scan, fault, noted, now);
  }

  lemma ReadyBatchIsRefused(e: Engine, w: World, scan: Scan, j: nat)
    requires Inv(e, w) && OnSource(e, w) && w.worker.Live?
    requires scan == PollScan(e, w.db.meta.value, w.source) && scan.Scanned?
    requires j < |CompleteLines(w.source)| && Poison(e, CompleteLines(w.source), j) && j < |w.db.rows| + |scan.queue|
    ensures ConsumeQueue(e, w.worker.ram, scan.queue, w.db.meta.value.lines).Refused?
  {
    PollReads(e, w.db.meta.value, w.source);
    QueueContinues(Raws(w.db.rows), scan.queue, w.source);
    PoisonedBatchIsRefused(e, Raws(w.db.rows), scan.queue, CompleteLines(w.source), j);
  }

  lemma PoisonedBatchIsRefused(e: Engine, raws: seq<Bytes>, queue: seq<Bytes>, lines: seq<Bytes>, j: nat)
    requires raws + queue <= lines && j < |raws + queue| && Poison(e, lines, j) && Replay(e, raws).Replayed?
    ensures ConsumeQueue(e, Replay(e, raws).ram, queue, |raws|).Refused?
  {
    var all := raws + queue;
    assert all == lines[..|all|];
    PrefixDecides(e, lines, |all|, j);
    StopsIffPoisoned(e, all);
    QueueExtendsReplay(e, raws, queue);
  }

  /** Equal dispositions line by line, and equal quality, findings, incidents and offset in the reports. */
  ghost predicate SameResults(a: Db, b: Db) {
    && Outcomes(a.rows) == Outcomes(b.rows)
    && a.snapshot.Some? && b.snapshot.Some?
    && a.snapshot.value.quality == b.snapshot.value.quality
    && a.snapshot.value.analysis == b.snapshot.value.analysis
    && a.snapshot.value.offset == b.snapshot.value.offset
  }

  /** Two runs that committed equally many lines of the same append-only source agree on every line's disposition,
      on the quality counters and on the analysis, however differently they were batched and interrupted. */
  lemma BatchIndependence(
      e: Engine, source1: Bytes, steps1: seq<Step>, source2: Bytes, steps2: seq<Step>, sourceId: nat)
    requires AppendOnly(steps1) && AppendOnly(steps2)
    ensures var a := Run(e, Initial(source1, sourceId), steps1); var b := Run(e, Initial(source2, sourceId), steps2);
      a.source == b.source && |a.db.rows| == |b.db.rows| ==>
        && Raws(a.db.rows) == Raws(b.db.rows)
        && (a.worker.Live? && b.worker.Live? ==> a.worker.ram == b.worker.ram)
        && (a.db.rows != [] ==> SameResults(a.db, b.db))
  {
    SourceDecidesRows(e, source1, sourceId, steps1);
    SourceDecidesRows(e, source2, sourceId, steps2);
    CrashIndependence(e, source1, sourceId, steps1);
    CrashIndependence(e, source2, sourceId, steps2);
  }
}
