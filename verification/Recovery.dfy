/** The coordinated cut of journal and analyst store, and its restore (src/aegisflow/stream_recovery.py). */
module Recovery {
  import opened Records
  import opened Ingest
  import opened Journal
  import R = Runs
  import P = Projection
  import AnalystStore

  type Store = R.Store

  const MAX_BYTES: nat := 1_073_741_824
  const MAX_RECORDS: nat := 20_000
  const MAX_RAW_BYTES: nat := 67_108_864
  const BLOCK: nat := 1_048_576

  predicate Copyable(file: Bytes) {
    0 < |file| <= MAX_BYTES
  }

  /** What database files read as; a file that is no such database reads as none. */
  datatype Reader = Reader(journal: Bytes -> Option<Db>, store: Bytes -> Option<Store>)

  /** A standalone file that holds this journal. */
  predicate HoldsDb(c: Reader, file: Bytes, db: Db) {
    Copyable(file) && c.journal(file) == Some(db)
  }

  predicate HoldsStore(c: Reader, file: Bytes, store: Store) {
    Copyable(file) && c.store(file) == Some(store)
  }

  // ------------------------------------------------------ is this one cut?

  predicate StructureFine(db: Db) {
    && db.meta.Some? && db.snapshot.Some?
    && db.meta.value.lines <= MAX_RECORDS && db.meta.value.offset <= MAX_RAW_BYTES
    && |db.rows| == db.meta.value.lines
  }

  function UnderContract(e: Engine, db: Db): Engine
    requires db.meta.Some?
  {
    e.(limits := db.meta.value.contract.limits)
  }

  /** The committed report is the one that a replay of the journal gives. */
  predicate SameReport(rebuilt: Report, report: Report) {
    && rebuilt.runId == report.runId && rebuilt.quality == report.quality && rebuilt.analysis == report.analysis
    && rebuilt.offset == report.offset && rebuilt.lines == report.lines
    && rebuilt.highWater == report.highWater && rebuilt.batches == report.batches
  }

  /** _reconstruct without its look at the source: structure, provenance, replay of a disposable copy. */
  predicate Rebuilds(e: Engine, db: Db) {
    && StructureFine(db)
    && db.meta.value.contract.provenance == e.provenance
    && var ram := Recover(UnderContract(e, db), db);
       ram.Some? && SameReport(MakeReport(e, ram.value, db.meta.value, Following, 0, 0), db.snapshot.value)
  }

  /** The store shows this very report, and its detections apart from the reviewed status. */
  predicate Projected(store: Store, report: Report) {
    && report.runId in store.runs && store.runs[report.runId] == report
    && (forall a | a in report.analysis.alerts :: a.alertId in store.alerts && store.alerts[a.alertId].payload == a)
    && (forall i | i in report.analysis.incidents ::
          i.incidentId in store.incidents && store.incidents[i.incidentId].payload.(status := i.status) == i)
  }

  predicate Pairs(e: Engine, db: Db, store: Store) {
    Rebuilds(e, db) && Projected(store, db.snapshot.value) && db.meta.value.runId == db.snapshot.value.runId
  }

  /** _pair: one cut, on the original source. */
  predicate Pair(e: Engine, db: Db, store: Store, sourceId: nat, source: Bytes) {
    Pairs(e, db, store) && SourceIntact(db.meta.value, sourceId, source)
  }

  // -------------------------------------------------------------- the bundle

  datatype FileMark = FileMark(bytes: nat, sha256: Digest)
  datatype Cut = Cut(contract: Contract, runId: string, offset: nat, lines: nat, prefix: Digest)

  /** The signed body; the MAC and the anchor's digest pin it as a whole. */
  datatype Manifest = Manifest(cut: Cut, journal: FileMark, analyst: FileMark)
  datatype Bundle = Bundle(journal: Option<Bytes>, analyst: Option<Bytes>, manifest: Option<Manifest>)

  function MarkOf(file: Bytes): FileMark {
    FileMark(|file|, Sha256(file))
  }

  function CutOf(m: Meta): Cut {
    Cut(m.contract, m.runId, m.offset, m.lines, m.prefix)
  }

  // ------------------------------------------------------------- the restore

  predicate CopiesAs(file: Option<Bytes>, mark: FileMark) {
    file.Some? && 0 < mark.bytes <= MAX_BYTES && MarkOf(file.value) == mark
  }

  /** restore_stream: the restored files, or a refusal. */
  function Restore(e: Engine, c: Reader, b: Bundle, anchor: Manifest, sourceId: nat, source: Bytes): Option<(Db, Store)> {
    if b.manifest != Some(anchor) then None
    else if !CopiesAs(b.journal, anchor.journal) || !CopiesAs(b.analyst, anchor.analyst) then None
    else
      var db, store := c.journal(b.journal.value), c.store(b.analyst.value);
      if && db.Some? && store.Some?
         && Pair(e, db.value, store.value, sourceId, source) && CutOf(db.value.meta.value) == anchor.cut
      then Some((db.value, store.value))
      else None
  }

  /** _copy_checked: never more than one byte beyond the expected size is read. */
  method CopyChecked(file: Bytes, expected: FileMark) returns (r: Result<Bytes, string>)
    ensures r.Ok? <==> CopiesAs(Some(file), expected)
    ensures r.Ok? ==> r.value == file
  {
    if !(0 < expected.bytes <= MAX_BYTES) {
      return Err("Invalid snapshot size");
    }
    var target: Bytes, remaining := [], expected.bytes + 1;
    var at: nat := 0;
    while remaining > 0
      invariant at <= |file| && target == file[..at] && at + remaining == expected.bytes + 1
    {
      var block := file[at..MinNat(at + MinNat(BLOCK, remaining), |file|)];
      if block == [] {
        break;
      }
      target := target + block;
      remaining := remaining - |block|;
      at := at + |block|;
    }
    assert at == |file| ==> target == file;
    if |target| != expected.bytes || Sha256(target) != expected.sha256 {
      return Err("Copied snapshot size/hash mismatch");
    }
    r := Ok(target);
  }

  /** _source: the committed prefix, block by block. */
  method VerifyPrefix(m: Meta, sourceId: nat, source: Bytes) returns (ok: bool)
    ensures ok <==> SourceIntact(m, sourceId, source)
  {
    if sourceId != m.contract.sourceId {
      return false;
    }
    var read: Bytes, remaining := [], m.offset;
    while remaining > 0
      invariant remaining >= 0 && |read| + remaining == m.offset && |read| <= |source| && read == source[..|read|]
    {
      var block := source[|read|..MinNat(|read| + MinNat(BLOCK, remaining), |source|)];
      if block == [] {
        assert |read| == |source|;
        return false;
      }
      remaining := remaining - |block|;
      assert source[..|read| + |block|] == source[..|read|] + block;
      read := read + block;
    }
    assert read == source[..m.offset];
    ok := Sha256(read) == m.prefix;
  }

  /** An unchanged journal always rebuilds: in any reachable state with a committed report and within the recovery
      limits, reconstruction has nothing to object to. */
  lemma CommittedJournalsRebuild(e: Engine, source: Bytes, sourceId: nat, steps: seq<R.Step>)
    ensures var db := R.Run(e, R.Initial(source, sourceId), steps).db;
      StructureFine(db) ==> Rebuilds(e, db)
  {
    R.InitialInv(e, source, sourceId);
    R.EveryRunKeepsInv(e, R.Initial(source, sourceId), steps);
    var db := R.Run(e, R.Initial(source, sourceId), steps).db;
    if StructureFine(db) {
      ReplayedIsRebuilt(e, db);
    }
  }

  // -------------------------------------------------- backup beside the system

  /** How far a backup into a new directory has come: the worker's lock file, then the journal, then the analyst
      store are locked, then both are copied. */
  datatype Phase =
    | Idle
    | HoldsWorker(dest: string) | HoldsJournal(dest: string) | HoldsAll(dest: string)
    | JournalCopied(dest: string) | BothCopied(dest: string)

  datatype Site = Site(world: R.World, phase: Phase, bundles: map<string, Bundle>)

  datatype Action =
    | System(step: R.Step)
    | Begin(dest: string)
    | Advance(copy: Bytes)
    | Abort
    | Alter(dest: string, bundle: Bundle)

  const BLANK: Bundle := Bundle(None, None, None)

  /** Locks held by a backup keep out a starting worker, and from the last lock on every write to the analyst store;
      the source is not locked. */
  predicate LockedOut(p: Phase, step: R.Step) {
    || (!p.Idle? && step.Open?)
    || ((p.HoldsAll? || p.JournalCopied? || p.BothCopied?) && step.Analyst?)
  }

  /** One step of a backup. `copy` is the file that the online backup of SQLite leaves in a copying step: a snapshot
      of the locked database, or the step fails. */
  function Next(e: Engine, c: Reader, s: Site, copy: Bytes): Site {
    match s.phase
    case Idle => s
    case HoldsWorker(dest) => s.(phase := HoldsJournal(dest))
    case HoldsJournal(dest) => s.(phase := HoldsAll(dest))
    case HoldsAll(dest) =>
      if !HoldsDb(c, copy, s.world.db) then s.(phase := Idle)
      else s.(phase := JournalCopied(dest), bundles := s.bundles[dest := BLANK.(journal := Some(copy))])
    case JournalCopied(dest) =>
      if !HoldsStore(c, copy, s.world.store) || dest !in s.bundles then s.(phase := Idle)
      else s.(phase := BothCopied(dest), bundles := s.bundles[dest := s.bundles[dest].(analyst := Some(copy))])
    case BothCopied(dest) => Publish(e, c, s, dest)
  }

  /** The copies are verified against each other and the source; only then a manifest is written. */
  function Publish(e: Engine, c: Reader, s: Site, dest: string): Site {
    if dest !in s.bundles || s.bundles[dest].journal.None? || s.bundles[dest].analyst.None? then s.(phase := Idle)
    else
      var b := s.bundles[dest];
      var db, store := c.journal(b.journal.value), c.store(b.analyst.value);
      if db.Some? && store.Some? && Pair(e, db.value, store.value, s.world.sourceId, s.world.source) then
        var manifest := Manifest(CutOf(db.value.meta.value), MarkOf(b.journal.value), MarkOf(b.analyst.value));
        s.(phase := Idle, bundles := s.bundles[dest := b.(manifest := Some(manifest))])
      else s.(phase := Idle)
  }

  function Act(e: Engine, c: Reader, s: Site, a: Action): Site {
    match a
    case System(step) => if LockedOut(s.phase, step) then s else s.(world := R.Apply(e, s.world, step))
    case Begin(dest) =>
      if !s.phase.Idle? || dest in s.bundles then s
      else s.(phase := if s.world.worker.Absent? then HoldsWorker(dest) else Idle, bundles := s.bundles[dest := BLANK])
    case Advance(copy) => Next(e, c, s, copy)
    case Abort => s.(phase := Idle)
    case Alter(dest, bundle) => if s.phase.Idle? then s.(bundles := s.bundles[dest := bundle]) else s
  }

  function Runs(e: Engine, c: Reader, s: Site, actions: seq<Action>): Site {
    if actions == [] then s else Act(e, c, Runs(e, c, s, actions[..|actions| - 1]), actions[|actions| - 1])
  }

  function Start(source: Bytes, sourceId: nat): Site {
    Site(R.Initial(source, sourceId), Idle, map[])
  }

  predicate JournalSaved(c: Reader, b: Bundle, db: Db) {
    b.journal.Some? && HoldsDb(c, b.journal.value, db)
  }

  predicate StoreSaved(c: Reader, b: Bundle, store: Store) {
    b.analyst.Some? && HoldsStore(c, b.analyst.value, store)
  }

  /** What the locks and the copies made so far guarantee. */
  ghost predicate Frozen(c: Reader, s: Site) {
    && (!s.phase.Idle? ==> s.world.worker.Absent?)
    && (s.phase.JournalCopied? ==>
          s.phase.dest in s.bundles && JournalSaved(c, s.bundles[s.phase.dest], s.world.db))
    && (s.phase.BothCopied? ==>
          && s.phase.dest in s.bundles
          && JournalSaved(c, s.bundles[s.phase.dest], s.world.db)
          && StoreSaved(c, s.bundles[s.phase.dest], s.world.store))
  }

  /** With no worker, only source and analyst steps do anything. */
  lemma WithoutWorker(e: Engine, w: R.World, step: R.Step)
    requires w.worker.Absent? && !step.Open?
    ensures var w' := R.Apply(e, w, step);
      w'.worker.Absent? && w'.db == w.db && (!step.Analyst? ==> w'.store == w.store)
  {
  }

  lemma ActKeepsFrozen(e: Engine, c: Reader, s: Site, a: Action)
    requires Frozen(c, s)
    ensures Frozen(c, Act(e, c, s, a))
  {
    match a
    case System(step) =>
      if !s.phase.Idle? && !LockedOut(s.phase, step) {
        WithoutWorker(e, s.world, step);
      }
    case _ =>
  }

  lemma {:induction false} RunKeepsFrozen(e: Engine, c: Reader, s: Site, actions: seq<Action>)
    requires Frozen(c, s)
    ensures Frozen(c, Runs(e, c, s, actions))
  {
    if actions == [] {
    } else {
      RunKeepsFrozen(e, c, s, actions[..|actions| - 1]);
      ActKeepsFrozen(e, c, Runs(e, c, s, actions[..|actions| - 1]), actions[|actions| - 1]);
    }
  }

  /** The system under the backup is the system without it, less the steps that were locked out. */
  lemma {:induction false} Underlying(e: Engine, c: Reader, source: Bytes, sourceId: nat, actions: seq<Action>) returns (steps: seq<R.Step>)
    ensures Runs(e, c, Start(source, sourceId), actions).world == R.Run(e, R.Initial(source, sourceId), steps)
  {
    if actions == [] {
      steps := [];
    } else {
      var n := |actions| - 1;
      steps := Underlying(e, c, source, sourceId, actions[..n]);
      var s := Runs(e, c, Start(source, sourceId), actions[..n]);
      if actions[n].System? && !LockedOut(s.phase, actions[n].step) {
        assert (steps + [actions[n].step])[..|steps|] == steps;
        steps := steps + [actions[n].step];
      }
    }
  }

  // ------------------------------------------------------------- main results

  /** A manifest that the last action published. */
  ghost predicate Publishes(e: Engine, c: Reader, s: Site, a: Action, m: Manifest) {
    && a.Advance? && s.phase.BothCopied?
    && var t := Act(e, c, s, a);
       && s.phase.dest in s.bundles && s.bundles[s.phase.dest].manifest.None?
       && s.phase.dest in t.bundles && t.bundles[s.phase.dest].manifest == Some(m)
  }

  /** The file whose size and digest a mark records. */
  function Marked(mark: FileMark): Bytes {
    mark.sha256.preimage
  }

  /** A manifest of files that hold what stands at this one moment, together and with no worker about. */
  ghost predicate CutAt(e: Engine, c: Reader, w: R.World, m: Manifest) {
    && w.worker.Absent? && w.db.meta.Some? && m.cut == CutOf(w.db.meta.value)
    && m.journal == MarkOf(Marked(m.journal)) && HoldsDb(c, Marked(m.journal), w.db)
    && m.analyst == MarkOf(Marked(m.analyst)) && HoldsStore(c, Marked(m.analyst), w.store)
    && Pairs(e, w.db, w.store)
  }

  /** Whatever happens beside and between the steps of a backup, a published manifest describes journal and analyst
      store as they both stand at the moment of publication, an agreeing pair, with no worker running. */
  lemma PublishedIsOneCut(e: Engine, c: Reader, source: Bytes, sourceId: nat, actions: seq<Action>, m: Manifest)
    requires actions != []
    requires Publishes(e, c, Runs(e, c, Start(source, sourceId), actions[..|actions| - 1]), actions[|actions| - 1], m)
    ensures CutAt(e, c, Runs(e, c, Start(source, sourceId), actions).world, m)
  {
    RunKeepsFrozen(e, c, Start(source, sourceId), actions[..|actions| - 1]);
  }

  /** Undisturbed, a backup of an agreeing pair without a worker goes through. */
  lemma UndisturbedBackupPublishes(e: Engine, c: Reader, s: Site, dest: string, journal: Bytes, analyst: Bytes)
    requires s.phase.Idle? && dest !in s.bundles && s.world.worker.Absent?
    requires Pair(e, s.world.db, s.world.store, s.world.sourceId, s.world.source)
    requires HoldsDb(c, journal, s.world.db) && HoldsStore(c, analyst, s.world.store)
    ensures var locked := Next(e, c, Next(e, c, Act(e, c, s, Begin(dest)), []), []);
      var done := Next(e, c, Next(e, c, Next(e, c, locked, journal), analyst), []);
      var m := Manifest(CutOf(s.world.db.meta.value), MarkOf(journal), MarkOf(analyst));
      && done.phase.Idle? && done.world == s.world && dest in done.bundles
      && done.bundles[dest] == Bundle(Some(journal), Some(analyst), Some(m)) && CutAt(e, c, s.world, m)
  {
  }

  /** With the retained anchor of a cut, a bundle restores exactly if its manifest is the anchored one, its files are
      byte for byte those of the cut, and the source still has the committed prefix; it then gives back journal and
      analyst store of the cut. */
  lemma RestoreGivesTheCut(e: Engine, c: Reader, w: R.World, m: Manifest, b: Bundle, sourceId: nat, source: Bytes)
    requires CutAt(e, c, w, m)
    ensures Restore(e, c, b, m, sourceId, source) ==
      if && b == Bundle(Some(Marked(m.journal)), Some(Marked(m.analyst)), Some(m))
         && SourceIntact(w.db.meta.value, sourceId, source)
      then Some((w.db, w.store)) else None
  {
  }

  /** A state after a poll of a worker with a repository that went through. */
  ghost predicate CleanlyPolled(e: Engine, source: Bytes, sourceId: nat, steps: seq<R.Step>, now: nat, w: R.World) {
    var before := R.Run(e, R.Initial(source, sourceId), steps);
    && before.worker.Live? && before.worker.delivers
    && before.db.meta.Some? && before.db.meta.value.lines <= e.limits.maxJournalRecords
    && w == R.DoPoll(e, before, R.NoFault, false, now) && w.worker.Live?
  }

  /** A report within the recovery limits that the analyst store can link. */
  ghost predicate Savable(db: Db) {
    && StructureFine(db)
    && AnalystStore.Linked(db.snapshot.value.analysis.incidents, db.snapshot.value.analysis.alerts)
  }

  /** After any run, a worker with a repository whose last poll went through leaves a pair behind when it exits: a
      savable report is ready for a backup. */
  lemma CleanStopLeavesAPair(e: Engine, source: Bytes, sourceId: nat, steps: seq<R.Step>, now: nat, w: R.World)
    requires CleanlyPolled(e, source, sourceId, steps, now, w) && Savable(w.db)
    ensures var x := R.Apply(e, w, R.Exit); x.worker.Absent? && Pair(e, x.db, x.store, x.sourceId, x.source)
  {
    var sent := PollDelivers(e, source, sourceId, steps, now, w);
    DeliveredIsAPair(e, w, sent);
  }

  lemma DeliveredIsAPair(e: Engine, w: R.World, sent: Store)
    requires R.Inv(e, w) && R.OnSource(e, w) && Savable(w.db)
    requires AnalystStore.Keyed(sent) && w.store == R.Deliver(sent, w.db)
    ensures Pair(e, w.db, w.store, w.sourceId, w.source)
  {
    ReplayedIsRebuilt(e, w.db);
    var r := w.db.snapshot.value;
    AnalystStore.ProjectionStoresPayloads(sent, r.analysis.incidents, r.analysis.alerts, r.runId, r);
    DeliveredIsProjected(sent, r, w.store);
  }

  /** What such a poll leaves, and the store before its last delivery. */
  lemma PollDelivers(e: Engine, source: Bytes, sourceId: nat, steps: seq<R.Step>, now: nat, w: R.World) returns (sent: Store)
    requires CleanlyPolled(e, source, sourceId, steps, now, w)
    ensures R.Inv(e, w) && R.OnSource(e, w) && AnalystStore.Keyed(sent) && w.store == R.Deliver(sent, w.db)
  {
    var w0 := R.Initial(source, sourceId);
    var before := R.Run(e, w0, steps);
    R.InitialInv(e, source, sourceId);
    R.EveryRunKeepsInv(e, w0, steps);
    R.PollKeepsInv(e, before, R.NoFault, false, now);
    var ops := P.RunIsOps(e, w0, steps);
    P.OpsStayKeyed(R.EMPTY_STORE, ops);
    sent := DeliveredTwice(e, before, now, w);
    R.PollStaysOnSource(e, before, R.NoFault, false, now);
  }

  lemma DeliveredTwice(e: Engine, before: R.World, now: nat, w: R.World) returns (sent: Store)
    requires before.worker.Live? && before.worker.delivers && AnalystStore.Keyed(before.store)
    requires before.db.meta.Some? && before.db.meta.value.lines <= e.limits.maxJournalRecords
    requires w == R.DoPoll(e, before, R.NoFault, false, now) && w.worker.Live?
    ensures AnalystStore.Keyed(sent) && w.store == R.Deliver(sent, w.db) && R.OnSource(e, before)
  {
    sent := R.Deliver(before.store, before.db);
    if before.db.snapshot.Some? {
      var r := before.db.snapshot.value;
      P.ImportStaysKeyed(before.store, r.analysis.incidents, r.analysis.alerts);
    }
  }

  lemma ReplayedIsRebuilt(e: Engine, db: Db)
    requires JournalOk(e, db) && StructureFine(db)
    ensures Rebuilds(e, db) && db.meta.value.runId == db.snapshot.value.runId
  {
    assert UnderContract(e, db) == e;
    RecoverAccepts(e, db);
  }

  lemma DeliveredIsProjected(t: Store, r: Report, u: Store)
    requires u == AnalystStore.Project(t, r.analysis.incidents, r.analysis.alerts, r.runId, r)
    requires forall i :: i in r.analysis.incidents ==> i.incidentId in u.incidents && u.incidents[i.incidentId].payload == i
    requires forall a :: a in r.analysis.alerts ==> a.alertId in u.alerts && u.alerts[a.alertId].payload == a
    ensures Projected(u, r)
  {
  }

  /** From the run to the restored pair: what a cleanly stopped worker leaves can be backed up to any files that hold
      it, and restored from them while the source keeps its prefix. */
  lemma StoppedWorkIsRecoverable(
      e: Engine, c: Reader, source: Bytes, sourceId: nat, steps: seq<R.Step>, now: nat, w: R.World, dest: string,
      journal: Bytes, analyst: Bytes)
    requires CleanlyPolled(e, source, sourceId, steps, now, w) && Savable(w.db)
    requires HoldsDb(c, journal, w.db) && HoldsStore(c, analyst, w.store)
    ensures var s := Site(R.Apply(e, w, R.Exit), Idle, map[]);
      var locked := Next(e, c, Next(e, c, Act(e, c, s, Begin(dest)), []), []);
      var done := Next(e, c, Next(e, c, Next(e, c, locked, journal), analyst), []);
      && dest in done.bundles && done.bundles[dest].manifest.Some?
      && Restore(e, c, done.bundles[dest], done.bundles[dest].manifest.value, w.sourceId, w.source) == Some((w.db, w.store))
  {
    CleanStopLeavesAPair(e, source, sourceId, steps, now, w);
    SavedIsRestored(e, c, Site(R.Apply(e, w, R.Exit), Idle, map[]), dest, journal, analyst);
  }

  lemma SavedIsRestored(e: Engine, c: Reader, s: Site, dest: string, journal: Bytes, analyst: Bytes)
    requires s.phase.Idle? && dest !in s.bundles && s.world.worker.Absent?
    requires Pair(e, s.world.db, s.world.store, s.world.sourceId, s.world.source)
    requires HoldsDb(c, journal, s.world.db) && HoldsStore(c, analyst, s.world.store)
    ensures var locked := Next(e, c, Next(e, c, Act(e, c, s, Begin(dest)), []), []);
      var done := Next(e, c, Next(e, c, Next(e, c, locked, journal), analyst), []);
      && dest in done.bundles && done.bundles[dest].manifest.Some?
      && Restore(e, c, done.bundles[dest], done.bundles[dest].manifest.value, s.world.sourceId, s.world.source)
           == Some((s.world.db, s.world.store))
  {
    UndisturbedBackupPublishes(e, c, s, dest, journal, analyst);
    var m := Manifest(CutOf(s.world.db.meta.value), MarkOf(journal), MarkOf(analyst));
    RestoreGivesTheCut(e, c, s.world, m, Bundle(Some(journal), Some(analyst), Some(m)), s.world.sourceId, s.world.source);
  }

  /** For every journal and store there is a reader under which files hold them. */
  lemma FilesExist(db: Db, store: Store, file: Bytes) returns (c: Reader)
    requires Copyable(file)
    ensures HoldsDb(c, file, db) && HoldsStore(c, file, store)
  {
    c := Reader((f: Bytes) => if f == file then Some(db) else None, (f: Bytes) => if f == file then Some(store) else None);
  }

  /** So every cleanly stopped work has files from which it comes back. */
  lemma SomeFilesRecover(e: Engine, source: Bytes, sourceId: nat, steps: seq<R.Step>, now: nat, w: R.World)
    returns (c: Reader, b: Bundle, m: Manifest)
    requires CleanlyPolled(e, source, sourceId, steps, now, w) && Savable(w.db)
    ensures CutAt(e, c, R.Apply(e, w, R.Exit), m) && Restore(e, c, b, m, w.sourceId, w.source) == Some((w.db, w.store))
  {
    var file: Bytes := [0];
    c := FilesExist(w.db, w.store, file);
    CleanStopLeavesAPair(e, source, sourceId, steps, now, w);
    m := Manifest(CutOf(w.db.meta.value), MarkOf(file), MarkOf(file));
    b := Bundle(Some(file), Some(file), Some(m));
    RestoreGivesTheCut(e, c, R.Apply(e, w, R.Exit), m, b, w.sourceId, w.source);
  }

  /** The world in which a restored pair is put to work. */
  function Resumed(db: Db, store: Store, sourceId: nat, source: Bytes): R.World {
    R.World(source, sourceId, db, R.Absent, store, 0, 0)
  }

  lemma ResumedIsSound(e: Engine, w: R.World, sourceId: nat, source: Bytes)
    requires R.Inv(e, w) && w.db.meta.Some? && w.db.snapshot.Some? && SourceIntact(w.db.meta.value, sourceId, source)
    ensures var r := Resumed(w.db, w.store, sourceId, source); R.Inv(e, r) && R.OnSource(e, r)
  {
  }

  /** From any sound state, append-only work commits the source's first complete lines. */
  lemma RowsFollowSource(e: Engine, w: R.World, steps: seq<R.Step>)
    requires R.Inv(e, w) && R.OnSource(e, w) && R.AppendOnly(steps)
    ensures var t := R.Run(e, w, steps);
      && R.Inv(e, t) && R.OnSource(e, t) && |t.db.rows| <= |R.CompleteLines(t.source)|
      && Raws(t.db.rows) == R.CompleteLines(t.source)[..|t.db.rows|]
  {
    var t := R.Run(e, w, steps);
    R.EveryRunKeepsInv(e, w, steps);
    R.AppendOnlyStaysOnSource(e, w, steps);
    if t.db.meta.Some? {
      R.LinesSplit(Raws(t.db.rows), t.source);
    } else {
      assert Raws(t.db.rows) == [] == R.CompleteLines(t.source)[..0];
    }
  }

  /** Work resumed from a restored cut on an append-only source ends as a run that was never interrupted: with as
      many lines committed from the same source, every disposition, the quality and the analysis are the same. */
  lemma ResumingEqualsNeverStopping(
      e: Engine, c: Reader, source: Bytes, sourceId: nat, actions: seq<Action>, m: Manifest, b: Bundle, now: Bytes,
      after: seq<R.Step>, other: Bytes, uninterrupted: seq<R.Step>)
    requires actions != []
    requires Publishes(e, c, Runs(e, c, Start(source, sourceId), actions[..|actions| - 1]), actions[|actions| - 1], m)
    requires Restore(e, c, b, m, sourceId, now).Some?
    requires R.AppendOnly(after) && R.AppendOnly(uninterrupted)
    ensures var restored := Restore(e, c, b, m, sourceId, now).value;
      var r := R.Run(e, Resumed(restored.0, restored.1, sourceId, now), after);
      var u := R.Run(e, R.Initial(other, sourceId), uninterrupted);
      r.source == u.source && |r.db.rows| == |u.db.rows| ==>
        && Raws(r.db.rows) == Raws(u.db.rows)
        && (r.worker.Live? && u.worker.Live? ==> r.worker.ram == u.worker.ram)
        && (r.db.rows != [] ==> R.SameResults(r.db, u.db))
  {
    var w := Runs(e, c, Start(source, sourceId), actions).world;
    PublishedIsOneCut(e, c, source, sourceId, actions, m);
    RestoreGivesTheCut(e, c, w, m, b, sourceId, now);
    var steps := Underlying(e, c, source, sourceId, actions);
    R.InitialInv(e, source, sourceId);
    R.EveryRunKeepsInv(e, R.Initial(source, sourceId), steps);
    ResumedIsSound(e, w, sourceId, now);
    R.InitialInv(e, other, sourceId);
    SameRowsSameResults(e, Resumed(w.db, w.store, sourceId, now), after, R.Initial(other, sourceId), uninterrupted);
  }

  lemma SameRowsSameResults(e: Engine, w1: R.World, steps1: seq<R.Step>, w2: R.World, steps2: seq<R.Step>)
    requires R.Inv(e, w1) && R.OnSource(e, w1) && R.Inv(e, w2) && R.OnSource(e, w2)
    requires R.AppendOnly(steps1) && R.AppendOnly(steps2)
    ensures var a := R.Run(e, w1, steps1); var b := R.Run(e, w2, steps2);
      a.source == b.source && |a.db.rows| == |b.db.rows| ==>
        && Raws(a.db.rows) == Raws(b.db.rows)
        && (a.worker.Live? && b.worker.Live? ==> a.worker.ram == b.worker.ram)
        && (a.db.rows != [] ==> R.SameResults(a.db, b.db))
  {
    RowsFollowSource(e, w1, steps1);
    RowsFollowSource(e, w2, steps2);
  }
}
