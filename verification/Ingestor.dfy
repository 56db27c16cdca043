/** The worker object: fields updated in place, proved against the step functions of Ingest, Journal and Runs
    (ContinuousIngestor in src/aegisflow/continuous_ingestion.py). */
module Ingestor {
  import opened Records
  import opened Ingest
  import opened Journal
  import opened Runs
  import AnalystStore

  /** The followed file; only other programs write to it. */
  class SourceFile {
    var bytes: Bytes
    var identity: nat
  }

  /** The checkpoint database. One assignment to `db` is one committed transaction. */
  class JournalFile {
    var db: Db
  }

  class ContinuousIngestor {
    const engine: Engine
    const source: SourceFile
    const journal: JournalFile
    const repository: AnalystStore.IncidentRepository?<Report>
    var meta: Meta
    var quality: Quality
    var uids: map<Key, string>
    var latest: Option<int>
    var session: Session
    var digest: Bytes
    var failed: bool
    var closed: bool

    /** A worker that has not been started holds an empty memory and owns nothing yet. */
    constructor (engine: Engine, source: SourceFile, journal: JournalFile,
                 repository: AnalystStore.IncidentRepository?<Report>)
      ensures this.engine == engine && this.source == source && this.journal == journal && this.repository == repository
      ensures closed && !failed && Memory() == FRESH_RAM && digest == []
    {
      this.engine, this.source, this.journal, this.repository := engine, source, journal, repository;
      meta := Meta(Contract(0, engine.limits, engine.provenance), "", 0, 0, Sha256([]), 0, 0);
      quality, uids, latest, session := FRESH_QUALITY, map[], None, Session([], None);
      digest := [];
      failed, closed := false, true;
    }

    function Memory(): Ram
      reads this
    {
      Ram(quality, uids, latest, session)
    }

    /** A usable worker agrees with the journal's checkpoint. */
    ghost predicate Valid()
      reads this, journal
    {
      !failed && !closed ==>
        && journal.db.meta == Some(meta) && digest == meta.prefix.preimage
        && meta.lines <= engine.limits.maxJournalRecords && meta.offset <= engine.limits.maxJournalBytes
    }

    function Stored(): Store
      reads repository
    {
      if repository == null then EMPTY_STORE else repository.tables
    }

    /** The worker and everything around it as a state of the step system. */
    function State(): World
      reads this, source, journal, repository
    {
      World(source.bytes, source.identity, journal.db,
            if failed then Broken else if closed then Absent else Live(Memory(), repository != null), Stored(), 0, 0)
    }

    // ----------------------------------------------------------- one line

    method RejectLine(line: nat, reason: string) returns (outcome: Outcome)
      modifies this`quality
      ensures quality == Reject(old(quality), line, reason) && outcome == Outcome(Quarantined, reason)
    {
      quality := quality.(rejected := quality.rejected + 1);
      quality := quality.(quarantined := quality.quarantined + 1);
      if |quality.errors| < 5 {
        quality := quality.(errors := quality.errors + [(line, reason)]);
      }
      if |quality.quarantine| < 20 {
        quality := quality.(quarantine := quality.quarantine + [(line, reason)]);
      }
      outcome := Outcome(Quarantined, reason);
    }

    /** AnalysisSession.process_many: events one by one, stopping at the first that is out of order. */
    method Feed(events: seq<Event>) returns (ok: bool)
      modifies this`session
      ensures ok <==> ProcessMany(old(session), events).Some?
      ensures ok ==> session == ProcessMany(old(session), events).value
    {
      var i := 0;
      while i < |events|
        invariant 0 <= i <= |events|
        invariant ProcessMany(old(session), events) == ProcessMany(session, events[i..])
      {
        var next := Process(session, events[i]);
        if next.None? {
          return false;
        }
        session := next.value;
        i := i + 1;
      }
      ok := true;
    }

    method ConsumeLine(raw: Bytes, line: nat) returns (r: Result<Outcome, string>)
      modifies this`quality, this`uids, this`latest, this`session
      ensures var c := Consume(engine, old(Memory()), raw, line);
        && (r.Ok? <==> c.Kept?)
        && (r.Ok? ==> r.value == c.outcome && Memory() == c.ram)
    {
      var outcome: Outcome;
      match engine.parse(raw, line == 1)
      case Blank => return Ok(Outcome(Ignored, "blank/comment"));
      case Escapes(error) =>
        quality := quality.(seen := quality.seen + 1);
        return Err(error);
      case Undecodable(reason) =>
        quality := quality.(seen := quality.seen + 1);
        outcome := RejectLine(line, reason);
        return Ok(outcome);
      case Malformed(reason, late, invalidStamps, unsupported) =>
        quality := quality.(seen := quality.seen + 1);
        if late {
          quality := quality.(seen := quality.seen + 1);
        }
        quality := quality.(invalidStamps := quality.invalidStamps + invalidStamps);
        quality := quality.(unsupported := quality.unsupported + unsupported);
        outcome := RejectLine(line, reason);
        return Ok(outcome);
      case WellFormed(key, signature, first, more) =>
        r := ConsumeRecordLine(line, key, signature, first, more);
    }

    method ConsumeRecordLine(line: nat, key: Key, signature: string, first: Event, more: seq<Event>)
      returns (r: Result<Outcome, string>)
      modifies this`quality, this`uids, this`latest, this`session
      ensures var c := ConsumeRecord(old(Memory()), line, key, signature, first, more);
        && (r.Ok? <==> c.Kept?)
        && (r.Ok? ==> r.value == c.outcome && Memory() == c.ram)
    {
      quality := quality.(seen := quality.seen + 1);
      var duplicate := CheckDuplicate(key, signature);
      var late := CheckLate(first.stamp);
      var reason := Joined(duplicate, late);
      if reason != "" {
        var outcome := RejectLine(line, reason);
        return Ok(outcome);
      }
      var ok := Feed([first] + more);
      if !ok {
        return Err("Session requires ordered events");
      }
      quality := quality.(accepted := quality.accepted + 1);
      r := Ok(Outcome(Accepted, ""));
    }

    /** The first record with a key owns it; a later one is an exact or a conflicting duplicate. */
    method CheckDuplicate(key: Key, signature: string) returns (reason: string)
      modifies this`quality, this`uids
      ensures var duplicate := key in old(uids); var exact := duplicate && old(uids)[key] == signature;
        && reason == (if exact then EXACT else if duplicate then CONFLICT else "")
        && uids == (if duplicate then old(uids) else old(uids)[key := signature])
        && quality == old(quality).(
             duplicates := old(quality).duplicates + (if duplicate then 1 else 0),
             exact := old(quality).exact + (if exact then 1 else 0),
             conflicting := old(quality).conflicting + (if duplicate && !exact then 1 else 0))
    {
      if key !in uids {
        uids := uids[key := signature];
        return "";
      }
      quality := quality.(duplicates := quality.duplicates + 1);
      if uids[key] == signature {
        quality := quality.(exact := quality.exact + 1);
        reason := EXACT;
      } else {
        quality := quality.(conflicting := quality.conflicting + 1);
        reason := CONFLICT;
      }
    }

    /** The latest timestamp never goes back; a record before it is late by the difference. */
    method CheckLate(stamp: int) returns (reason: string)
      modifies this`quality, this`latest
      ensures var late := old(latest).Some? && stamp < old(latest).value;
        && reason == (if late then LATE else "")
        && latest == Some(if late then old(latest).value else stamp)
        && quality == if !late then old(quality) else old(quality).(
             outOfOrder := old(quality).outOfOrder + 1,
             maxSkew := if old(quality).maxSkew < old(latest).value - stamp then old(latest).value - stamp else old(quality).maxSkew)
    {
      if latest.None? || latest.value <= stamp {
        latest := Some(stamp);
        return "";
      }
      quality := quality.(outOfOrder := quality.outOfOrder + 1);
      if quality.maxSkew < latest.value - stamp {
        quality := quality.(maxSkew := latest.value - stamp);
      }
      reason := LATE;
    }

    // ------------------------------------------------------------ recovery

    /** _recover: replay the journal into this empty memory, checking every row and the checkpoint. */
    method RecoverJournal() returns (r: Result<(), string>)
      requires journal.db.meta.Some? && Memory() == FRESH_RAM && digest == []
      modifies this`quality, this`uids, this`latest, this`session, this`digest
      ensures r.Ok? <==> Recover(engine, journal.db).Some?
      ensures r.Ok? ==> Memory() == Recover(engine, journal.db).value && digest == journal.db.meta.value.prefix.preimage
    {
      var rows, m := journal.db.rows, journal.db.meta.value;
      var offset: nat, lines: nat := 0, 0;
      assert Raws(rows[..0]) == [] && Outcomes(rows[..0]) == [];
      while lines < |rows|
        invariant 0 <= lines <= |rows|
        invariant Rebuilt(engine, rows, lines, Memory(), digest, offset)
      {
        var row := rows[lines];
        ghost var c := Consume(engine, Memory(), row.raw, lines + 1);
        RebuiltStep(engine, journal.db, lines, Memory(), digest, offset, c);
        if row.start != offset || row.end != row.start + |row.raw| || !EndsLine(row.raw) {
          return Err("Journal offset/record continuity check failed");
        }
        if |row.raw| > engine.limits.maxLineBytes || lines >= engine.limits.maxJournalRecords {
          return Err("Journal exceeds configured recovery limits");
        }
        digest := digest + row.raw;
        var actual := ConsumeLine(row.raw, lines + 1);
        if actual.Err? || actual.value != row.outcome {
          return Err("Journal normalization/recovery outcome changed");
        }
        assert Memory() == c.ram && c.outcome == row.outcome;
        offset, lines := row.end, lines + 1;
      }
      assert rows[..lines] == rows;
      RebuiltWhole(engine, journal.db, Memory(), digest, offset);
      if offset != m.offset || lines != m.lines || offset > engine.limits.maxJournalBytes || Sha256(digest) != m.prefix {
        return Err("Journal checkpoint/hash mismatch");
      }
      if lines != 0 && (journal.db.snapshot.None?
                        || journal.db.snapshot.value.analysis.alerts != engine.analyse(session.history).alerts) {
        return Err("Recovered alert evidence differs from committed snapshot");
      }
      r := Ok(());
    }

    // ------------------------------------------------------------ delivery

    /** _publish: project the committed snapshot, atomically, when there is a repository and a snapshot. */
    method Publish(reachable: bool) returns (ok: bool)
      modifies repository
      ensures ok <==> repository == null || reachable || journal.db.snapshot.None?
      ensures Stored() == if ok && repository != null then Deliver(old(Stored()), journal.db) else old(Stored())
    {
      if repository == null || journal.db.snapshot.None? {
        return true;
      }
      if !reachable {
        return false;
      }
      var report := journal.db.snapshot.value;
      repository.ProjectAnalysisRun(report.analysis.incidents, report.analysis.alerts, report.runId, report);
      ok := true;
    }

    // ------------------------------------------------------------- opening

    /** The rest of __init__, once the lifetime lock is held: a new checkpoint, or contract, source and journal
        checks, replay and redelivery. Any failure closes the worker. */
    method Start(runId: string, reachable: bool) returns (r: Result<(), string>)
      requires closed && !failed && Memory() == FRESH_RAM && digest == []
      requires runId !in Stored().runs
      requires journal.db.meta.None? ==> journal.db == EMPTY_DB
      modifies this, journal, repository
      ensures var w := DoOpen(engine, old(State()), repository != null, reachable, runId);
        && journal.db == w.db && Stored() == w.store
        && (r.Ok? <==> w.worker.Live?)
        && (r.Ok? ==> State().worker == w.worker)
        && (r.Err? ==> closed)
      ensures Valid()
    {
      var contract := Contract(source.identity, engine.limits, engine.provenance);
      if journal.db.meta.None? {
        meta := Meta(contract, runId, 0, 0, Sha256([]), 0, 0);
        journal.db := journal.db.(meta := Some(meta));
        closed := false;
        return Ok(());
      }
      r := Resume(contract, reachable);
    }

    /** The part of it for a checkpoint that exists. */
    method Resume(contract: Contract, reachable: bool) returns (r: Result<(), string>)
      requires closed && !failed && Memory() == FRESH_RAM && digest == [] && journal.db.meta.Some?
      requires contract == Contract(source.identity, engine.limits, engine.provenance)
      modifies this, repository
      ensures var db := journal.db; var m := db.meta.value;
        var fits := m.contract == contract && SourceIntact(m, source.identity, source.bytes) && Recover(engine, db).Some?;
        && (r.Ok? <==> fits && (repository == null || reachable || db.snapshot.None?))
        && (r.Ok? ==> !closed && meta == m && Memory() == Recover(engine, db).value && digest == m.prefix.preimage)
        && (r.Err? ==> closed)
        && Stored() == (if r.Ok? && repository != null then Deliver(old(Stored()), db) else old(Stored()))
      ensures !failed && Valid()
    {
      meta := journal.db.meta.value;
      if meta.contract != contract {
        return Err("Checkpoint source, engine, profile, model, policy or limits changed");
      }
      var intact := VerifySource();
      if !intact {
        return Err("Source rotated, replaced, truncated or its committed prefix changed");
      }
      r := RecoverJournal();
      if r.Err? {
        return r;
      }
      var delivered := Publish(reachable);
      if !delivered {
        return Err("delivery failed");
      }
      closed := false;
    }

    /** _verify_source: the same file, long enough, with the committed prefix unchanged, read block by block. */
    method VerifySource() returns (ok: bool)
      ensures ok <==> SourceIntact(meta, source.identity, source.bytes)
    {
      if source.identity != meta.contract.sourceId || |source.bytes| < meta.offset {
        return false;
      }
      var read: Bytes := [];
      var remaining := meta.offset;
      while remaining > 0
        invariant 0 <= remaining <= meta.offset && read == source.bytes[..meta.offset - remaining]
      {
        var block := MinNat(remaining, 1_048_576);
        var at := meta.offset - remaining;
        read := read + source.bytes[at..at + block];
        remaining := remaining - block;
      }
      ok := Sha256(read) == meta.prefix;
    }

    // -------------------------------------------------------------- polling

    /** The reading loop over the bytes pending at its start. None stands for a line over the limit. */
    method ReadLines(pending: Bytes, maxLines: nat, maxBytes: int) returns (r: Option<(seq<Bytes>, Status)>)
      ensures var scan := ScanLines(pending, maxLines, maxBytes, engine.limits.maxLineBytes);
        && (r.None? <==> scan.Oversize?)
        && (r.Some? ==> scan == Scanned(r.value.0, r.value.1))
    {
      var rest, slots, budget := pending, maxLines, maxBytes;
      var queue: seq<Bytes> := [];
      ghost var maxLine := engine.limits.maxLineBytes;
      ghost var whole := ScanLines(pending, maxLines, maxBytes, maxLine);
      ReadingStarts(pending, slots, budget, maxLine, whole);
      while slots > 0 && rest != []
        invariant Reading(rest, slots, budget, maxLine, queue, whole)
        decreases slots
      {
        var raw := ReadLine(rest, engine.limits.maxLineBytes + 1);
        ReadingStep(rest, slots, budget, maxLine, raw, queue, whole);
        if |raw| > engine.limits.maxLineBytes {
          return None;
        }
        if !EndsLine(raw) {
          return Some((queue, AwaitingPartial));
        }
        if |raw| > budget {
          return Some((queue, CapacityReached));
        }
        queue := queue + [raw];
        rest := rest[|raw|..];
        budget := budget - |raw|;
        slots := slots - 1;
      }
      ReadingEnds(rest, slots, budget, maxLine, queue, whole);
      r := Some((queue, Following));
    }

    /** What one poll reads, and its status: a full journal with bytes still pending reports capacity. */
    method ReadQueue() returns (r: Option<(seq<Bytes>, Status)>)
      requires meta.offset <= |source.bytes| && meta.lines <= engine.limits.maxJournalRecords
      ensures var scan := PollScan(engine, meta, source.bytes);
        && (r.None? <==> scan.Oversize?)
        && (r.Some? ==> scan == Scanned(r.value.0, r.value.1))
    {
      var pending := source.bytes[meta.offset..];
      var slots := MinNat(engine.limits.batchRecords, engine.limits.maxJournalRecords - meta.lines);
      var budget := engine.limits.maxJournalBytes - meta.offset;
      PollScanQueue(engine, meta, source.bytes, pending, slots, budget);
      r := ReadLines(pending, slots, budget);
      if r.Some? && |Concat(r.value.0)| < |pending| && meta.lines + |r.value.0| >= engine.limits.maxJournalRecords {
        r := Some((r.value.0, CapacityReached));
      }
    }

    /** Consume every queued line, building its row. None stands for the session's exception, which leaves memory and
        the checkpoint copy moved on. */
    method ConsumeLines(queue: seq<Bytes>) returns (r: Option<seq<Row>>)
      modifies this`quality, this`uids, this`latest, this`session, this`digest, this`meta
      ensures var b := ConsumeQueue(engine, old(Memory()), queue, old(meta).lines);
        && (r.Some? <==> b.Applied?)
        && (r.Some? ==> r.value == RowsOf(old(meta).offset, queue, b.outcomes) && Memory() == b.ram)
        && (r.Some? ==> meta == old(meta).(lines := old(meta).lines + |queue|) && digest == old(digest) + Concat(queue))
    {
      var offset: nat := meta.offset;
      var rows: seq<Row> := [];
      ghost var ram, first, read := Memory(), meta, digest;
      ghost var outcomes: seq<Outcome> := [];
      var i := 0;
      while i < |queue|
        invariant 0 <= i <= |queue|
        invariant Progress(engine, ram, first, read, queue, i, outcomes, Memory(), rows, offset, digest, meta)
      {
        var raw := queue[i];
        var line := meta.lines + 1;
        ghost var c := Consume(engine, Memory(), raw, line);
        ProgressStep(engine, ram, first, read, queue, i, outcomes, Memory(), rows, offset, digest, meta, line, c);
        var outcome := ConsumeLine(raw, line);
        if outcome.Err? {
          return None;
        }
        assert Memory() == c.ram && outcome.value == c.outcome;
        outcomes := outcomes + [outcome.value];
        rows := rows + [Row(offset, offset + |raw|, raw, outcome.value)];
        offset := offset + |raw|;
        meta := meta.(lines := meta.lines + 1);
        digest := digest + raw;
        i := i + 1;
      }
      ProgressDone(engine, ram, first, read, queue, outcomes, Memory(), rows, offset, digest, meta);
      r := Some(rows);
    }

    /** The transaction: rows, then the checkpoint and the snapshot. `breaks` is an exception on the way; nothing is
        committed then. */
    method CommitQueue(queue: seq<Bytes>, status: Status, size: nat, breaks: bool, now: nat) returns (r: Result<Report, string>)
      requires journal.db.meta == Some(meta) && digest == meta.prefix.preimage && meta.offset + |Concat(queue)| <= size
      modifies this`quality, this`uids, this`latest, this`session, this`digest, this`meta, journal
      ensures var c := Commit(engine, old(journal.db), old(Memory()), queue, status, size, now);
        && (r.Ok? <==> !breaks && c.Committed?)
        && (r.Err? ==> journal.db == old(journal.db))
        && (r.Ok? ==> journal.db == c.db && Memory() == c.ram && journal.db.meta == Some(meta))
        && (r.Ok? ==> journal.db.snapshot == Some(r.value) && digest == meta.prefix.preimage)
        && (r.Ok? ==> meta.lines == old(meta).lines + |queue| && meta.offset == old(meta).offset + |Concat(queue)|)
    {
      var rows := ConsumeLines(queue);
      if rows.None? || breaks {
        return Err("transaction failed");
      }
      var offset := meta.offset + |Concat(queue)|;
      meta := meta.(offset := offset, prefix := Sha256(digest),
                    highWater := if meta.highWater < |queue| then |queue| else meta.highWater,
                    batches := meta.batches + (if queue == [] then 0 else 1));
      var report := MakeReport(engine, Memory(), meta, status, size - offset, now);
      journal.db := Db(Some(meta), journal.db.rows + rows.value, Some(report));
      r := Ok(report);
    }

    /** The transaction of a poll and the delivery behind it. */
    method FinishPoll(queue: seq<Bytes>, status: Status, fault: Fault, ghost noted: bool, now: nat) returns (r: Result<Report, string>)
      requires Valid() && !failed && !closed && !fault.DiesBeforeCommit? && !fault.DiesAfterCommit?
      requires meta.offset + |Concat(queue)| <= |source.bytes| && QueueFits(engine, meta, queue)
      modifies this`quality, this`uids, this`latest, this`session, this`digest, this`meta, journal, repository
      ensures Tried(Transact(engine, old(State()), queue, status, fault, noted, now), r, noted, now)
      ensures r.Ok? ==> Valid() && journal.db.snapshot == Some(r.value)
    {
      r := CommitQueue(queue, status, |source.bytes|, fault.BreaksInTransaction?, now);
      if r.Err? {
        return r;
      }
      var delivered := Publish(!fault.UndeliveredAfter?);
      if !delivered {
        return Err("delivery failed");
      }
    }

    method TryPoll(fault: Fault, ghost noted: bool, now: nat) returns (r: Result<Report, string>)
      requires Valid() && !failed && !closed && !fault.DiesBeforeCommit? && !fault.DiesAfterCommit?
      modifies this`quality, this`uids, this`latest, this`session, this`digest, this`meta, journal, repository
      ensures Tried(DoPoll(engine, old(State()), fault, noted, now), r, noted, now)
      ensures r.Ok? ==> Valid() && journal.db.snapshot == Some(r.value)
    {
      var delivered := Publish(!fault.UndeliveredBefore?);
      if !delivered {
        return Err("delivery failed");
      }
      var intact := VerifySource();
      if !intact {
        return Err("source changed");
      }
      var scan := ReadQueue();
      if scan.None? {
        return Err("Line exceeds configured byte limit; checkpoint not advanced");
      }
      PollReads(engine, meta, source.bytes);
      r := FinishPoll(scan.value.0, scan.value.1, fault, noted, now);
    }

    /** The surroundings agree with the step's outcome, up to the failure note that is still to be written. */
    ghost predicate Tried(w: World, r: Result<Report, string>, noted: bool, now: nat)
      reads this, journal, repository
    {
      && Stored() == w.store
      && (r.Ok? ==> journal.db == w.db && w.worker == Live(Memory(), repository != null))
      && (r.Err? ==> w.worker == Broken && w.db == Noted(journal.db, noted, now))
    }

    /** poll: deliver, verify, read, then journal rows, checkpoint and snapshot in one transaction, and deliver again.
        Any exception leaves the journal at the last commit, notes the failure there and retires the worker. Process
        death needs no handling here: it is the step in which the worker vanishes. */
    method PollSource(fault: Fault, noted: bool, now: nat) returns (r: Result<Report, string>)
      requires Valid() && !fault.DiesBeforeCommit? && !fault.DiesAfterCommit?
      modifies this, journal, repository
      ensures old(failed || closed) ==>
        r.Err? && journal.db == old(journal.db) && Stored() == old(Stored()) && State().worker == old(State().worker)
      ensures !old(failed || closed) ==>
        var w := DoPoll(engine, old(State()), fault, noted, now);
        && journal.db == w.db && Stored() == w.store && State().worker == w.worker
        && (r.Ok? <==> w.worker.Live?)
        && (r.Ok? ==> journal.db.snapshot == Some(r.value))
      ensures Valid()
    {
      if closed || failed {
        return Err("Worker closed or failed; reopen from committed checkpoint");
      }
      r := TryPoll(fault, noted, now);
      if r.Err? {
        failed := true;
        if noted && journal.db.snapshot.Some? {
          var committed := journal.db.snapshot.value.(status := Failed, updatedAt := now, failure := true);
          journal.db := journal.db.(snapshot := Some(committed));
        }
      }
    }
  }

  function Prepend(queue: seq<Bytes>, scan: Scan): Scan {
    if scan.Oversize? then Oversize else Scanned(queue + scan.queue, scan.status)
  }

  /** What the consuming loop has done after i lines. */
  ghost predicate Progress(e: Engine, ram: Ram, first: Meta, read: Bytes, queue: seq<Bytes>, i: nat, outcomes: seq<Outcome>,
                           memory: Ram, rows: seq<Row>, offset: nat, digest: Bytes, meta: Meta)
    requires i <= |queue|
  {
    && ConsumeQueue(e, ram, queue[..i], first.lines) == Applied(memory, outcomes)
    && rows == RowsOf(first.offset, queue[..i], outcomes)
    && offset == first.offset + |Concat(queue[..i])| && digest == read + Concat(queue[..i])
    && meta == first.(lines := first.lines + i)
  }

  lemma ThenIs(e: Engine, memory: Ram, outcomes: seq<Outcome>, raw: Bytes, line: nat, c: Consumed)
    requires c == Consume(e, memory, raw, line)
    ensures AppliedThen(e, Applied(memory, outcomes), raw, line) ==
              if c.Raised? then Refused else Applied(c.ram, outcomes + [c.outcome])
  {
  }

  lemma ConsumesOne(e: Engine, ram: Ram, queue: seq<Bytes>, i: nat, lines: nat, b: Batch, line: nat)
    requires i < |queue| && ConsumeQueue(e, ram, queue[..i], lines) == b && line == lines + i + 1
    ensures ConsumeQueue(e, ram, queue[..i + 1], lines) == AppliedThen(e, b, queue[i], line)
  {
    assert queue[..i + 1] == queue[..i] + [queue[i]];
    ConsumeSnoc(e, ram, queue[..i], queue[i], lines, line);
  }

  lemma ProgressStep(e: Engine, ram: Ram, first: Meta, read: Bytes, queue: seq<Bytes>, i: nat, outcomes: seq<Outcome>,
                     memory: Ram, rows: seq<Row>, offset: nat, digest: Bytes, meta: Meta, line: nat, c: Consumed)
    requires i < |queue| && Progress(e, ram, first, read, queue, i, outcomes, memory, rows, offset, digest, meta)
    requires line == meta.lines + 1 && c == Consume(e, memory, queue[i], line)
    ensures c.Raised? ==> ConsumeQueue(e, ram, queue, first.lines).Refused?
    ensures c.Kept? ==>
      Progress(e, ram, first, read, queue, i + 1, outcomes + [c.outcome], c.ram,
               rows + [Row(offset, offset + |queue[i]|, queue[i], c.outcome)], offset + |queue[i]|, digest + queue[i],
               meta.(lines := meta.lines + 1))
  {
    ConsumesOne(e, ram, queue, i, first.lines, Applied(memory, outcomes), line);
    ThenIs(e, memory, outcomes, queue[i], line, c);
    if c.Kept? {
      ReadStep(read, queue, i);
      RowsStep(first.offset, queue, outcomes, c.outcome, i);
    } else {
      RefusedStays(e, ram, queue, first.lines, i + 1);
    }
  }

  lemma ProgressDone(e: Engine, ram: Ram, first: Meta, read: Bytes, queue: seq<Bytes>, outcomes: seq<Outcome>,
                     memory: Ram, rows: seq<Row>, offset: nat, digest: Bytes, meta: Meta)
    requires Progress(e, ram, first, read, queue, |queue|, outcomes, memory, rows, offset, digest, meta)
    ensures ConsumeQueue(e, ram, queue, first.lines) == Applied(memory, outcomes)
    ensures rows == RowsOf(first.offset, queue, outcomes) && digest == read + Concat(queue)
    ensures meta == first.(lines := first.lines + |queue|)
  {
    assert queue[..|queue|] == queue;
  }

  lemma RowsStep(offset: nat, queue: seq<Bytes>, outcomes: seq<Outcome>, outcome: Outcome, i: nat)
    requires i < |queue| && |outcomes| == i
    ensures var start := offset + |Concat(queue[..i])|;
      RowsOf(offset, queue[..i + 1], outcomes + [outcome])
        == RowsOf(offset, queue[..i], outcomes) + [Row(start, start + |queue[i]|, queue[i], outcome)]
  {
    assert queue[..i + 1][..i] == queue[..i];
    assert (outcomes + [outcome])[..i] == outcomes;
  }

  lemma ReadStep(read: Bytes, queue: seq<Bytes>, i: nat)
    requires i < |queue|
    ensures Concat(queue[..i + 1]) == Concat(queue[..i]) + queue[i]
    ensures read + Concat(queue[..i + 1]) == read + Concat(queue[..i]) + queue[i]
  {
    assert queue[..i + 1] == queue[..i] + [queue[i]];
    ConcatStep(queue[..i], queue[i]);
  }

  lemma {:induction false} RefusedStays(e: Engine, ram: Ram, queue: seq<Bytes>, lines: nat, n: nat)
    requires n <= |queue| && ConsumeQueue(e, ram, queue[..n], lines).Refused?
    ensures ConsumeQueue(e, ram, queue, lines).Refused?
  {
    if n == |queue| {
      assert queue[..n] == queue;
    } else {
      var init := queue[..|queue| - 1];
      assert init[..n] == queue[..n];
      RefusedStays(e, ram, init, lines, n);
    }
  }

  /** What is queued and what is left to scan make the whole scan. */
  ghost predicate Reading(rest: Bytes, slots: nat, budget: int, maxLine: nat, queue: seq<Bytes>, whole: Scan) {
    whole == Prepend(queue, ScanLines(rest, slots, budget, maxLine))
  }

  lemma ReadingStarts(rest: Bytes, slots: nat, budget: int, maxLine: nat, whole: Scan)
    requires whole == ScanLines(rest, slots, budget, maxLine)
    ensures Reading(rest, slots, budget, maxLine, [], whole)
  {
  }

  lemma ReadingEnds(rest: Bytes, slots: nat, budget: int, maxLine: nat, queue: seq<Bytes>, whole: Scan)
    requires Reading(rest, slots, budget, maxLine, queue, whole) && (slots == 0 || rest == [])
    ensures whole == Scanned(queue, Following)
  {
    assert ScanLines(rest, slots, budget, maxLine) == Scanned([], Following);
  }

  lemma ReadingStep(rest: Bytes, slots: nat, budget: int, maxLine: nat, raw: Bytes, queue: seq<Bytes>, whole: Scan)
    requires Reading(rest, slots, budget, maxLine, queue, whole)
    requires slots > 0 && rest != [] && raw == ReadLine(rest, maxLine + 1)
    ensures |raw| > maxLine ==> whole == Oversize
    ensures |raw| <= maxLine && !EndsLine(raw) ==> whole == Scanned(queue, AwaitingPartial)
    ensures |raw| <= maxLine && EndsLine(raw) && |raw| > budget ==> whole == Scanned(queue, CapacityReached)
    ensures |raw| <= maxLine && EndsLine(raw) && |raw| <= budget ==>
      Reading(rest[|raw|..], slots - 1, budget - |raw|, maxLine, queue + [raw], whole)
  {
    var tail := ScanCase(rest, slots, budget, maxLine, raw, queue, ScanLines(rest, slots, budget, maxLine));
  }

  /** One round of the reading loop: why it stops here, or what is left to scan behind this line. */
  lemma ScanCase(rest: Bytes, slots: nat, budget: int, maxLine: nat, raw: Bytes, queue: seq<Bytes>, scan: Scan) returns (tail: Scan)
    requires slots > 0 && rest != [] && raw == ReadLine(rest, maxLine + 1) && scan == ScanLines(rest, slots, budget, maxLine)
    ensures |raw| > maxLine ==> scan == Oversize
    ensures |raw| <= maxLine && !EndsLine(raw) ==> scan == Scanned([], AwaitingPartial)
    ensures |raw| <= maxLine && EndsLine(raw) && |raw| > budget ==> scan == Scanned([], CapacityReached)
    ensures |raw| <= maxLine && EndsLine(raw) && |raw| <= budget ==>
      tail == ScanLines(rest[|raw|..], slots - 1, budget - |raw|, maxLine) && Prepend(queue, scan) == Prepend(queue + [raw], tail)
  {
    tail := ScanLines(rest[|raw|..], slots - 1, budget - |raw|, maxLine);
    if tail.Scanned? {
      assert queue + ([raw] + tail.queue) == (queue + [raw]) + tail.queue;
    }
  }

  /** What the recovery loop knows after i rows. */
  ghost predicate Rebuilt(e: Engine, rows: seq<Row>, i: nat, ram: Ram, digest: Bytes, offset: nat)
    requires i <= |rows|
  {
    && Continuous(rows[..i]) && offset == LastEnd(rows[..i]) && i <= e.limits.maxJournalRecords
    && (forall k :: 0 <= k < i ==> |rows[k].raw| <= e.limits.maxLineBytes)
    && Replay(e, Raws(rows[..i])) == Replayed(ram, Outcomes(rows[..i]))
    && digest == Concat(Raws(rows[..i]))
  }

  /** With every row accepted, the checks on the checkpoint decide. */
  lemma RebuiltWhole(e: Engine, db: Db, ram: Ram, digest: Bytes, offset: nat)
    requires db.meta.Some? && Rebuilt(e, db.rows, |db.rows|, ram, digest, offset)
    ensures var m := db.meta.value;
      Recover(e, db) ==
        if && offset == m.offset && |db.rows| == m.lines && offset <= e.limits.maxJournalBytes && Sha256(digest) == m.prefix
           && (|db.rows| == 0 || (db.snapshot.Some? && db.snapshot.value.analysis.alerts == e.analyse(ram.session.history).alerts))
        then Some(ram) else None
  {
    assert db.rows[..|db.rows|] == db.rows;
  }

  /** The checks on row i pass exactly when the loop's knowledge extends over it; if one fails, recovery as a whole
      rejects the journal. */
  lemma RebuiltStep(e: Engine, db: Db, i: nat, ram: Ram, digest: Bytes, offset: nat, c: Consumed)
    requires db.meta.Some? && i < |db.rows| && Rebuilt(e, db.rows, i, ram, digest, offset)
    requires c == Consume(e, ram, db.rows[i].raw, i + 1)
    ensures var row := db.rows[i];
      if && row.start == offset && row.end == row.start + |row.raw| && EndsLine(row.raw)
         && |row.raw| <= e.limits.maxLineBytes && i < e.limits.maxJournalRecords
         && c.Kept? && c.outcome == row.outcome
      then Rebuilt(e, db.rows, i + 1, c.ram, digest + row.raw, row.end)
      else Recover(e, db).None?
  {
    ContinuousStep(db.rows, i);
    ReplayRow(e, db.rows, i, c);
    if c.Raised? || c.outcome != db.rows[i].outcome {
      ReplayDiffers(e, db.rows, i, c);
    }
  }

  lemma ContinuousStep(rows: seq<Row>, i: nat)
    requires i < |rows| && Continuous(rows[..i])
    ensures Continuous(rows[..i + 1]) <==>
      rows[i].start == LastEnd(rows[..i]) && rows[i].end == rows[i].start + |rows[i].raw| && EndsLine(rows[i].raw)
    ensures !Continuous(rows[..i + 1]) ==> !Continuous(rows)
    ensures LastEnd(rows[..i + 1]) == rows[i].end
  {
    var more := rows[..i + 1];
    if Follows(more, i, 0) {
      forall k | 0 <= k < i + 1 ensures Follows(more, k, 0) {
        if k < i {
          assert Follows(rows[..i], k, 0);
        }
      }
      assert forall k :: 0 <= k < i ==> more[k] == rows[..i][k];
    }
    if Continuous(rows) {
      ChainedPrefix(rows, i + 1, 0);
    }
  }

  /** Replaying one more row. */
  lemma ReplayRow(e: Engine, rows: seq<Row>, i: nat, c: Consumed)
    requires i < |rows| && Replay(e, Raws(rows[..i])).Replayed?
    requires c == Consume(e, Replay(e, Raws(rows[..i])).ram, rows[i].raw, i + 1)
    ensures var before := Replay(e, Raws(rows[..i])); var after := Replay(e, Raws(rows[..i + 1]));
      && Raws(rows[..i + 1]) == Raws(rows[..i]) + [rows[i].raw]
      && Concat(Raws(rows[..i + 1])) == Concat(Raws(rows[..i])) + rows[i].raw
      && Outcomes(rows[..i + 1]) == Outcomes(rows[..i]) + [rows[i].outcome]
      && after == if c.Raised? then Stopped else Replayed(c.ram, before.outcomes + [c.outcome])
  {
    var raws := Raws(rows[..i]);
    assert Raws(rows[..i + 1]) == raws + [rows[i].raw];
    ConcatStep(raws, rows[i].raw);
    ReplaySnoc(e, raws, rows[i].raw, i + 1);
  }

  /** A difference at one row is a difference of the whole journal. */
  lemma ReplayDiffers(e: Engine, rows: seq<Row>, i: nat, c: Consumed)
    requires i < |rows| && Replay(e, Raws(rows[..i])).Replayed?
    requires c == Consume(e, Replay(e, Raws(rows[..i])).ram, rows[i].raw, i + 1)
    requires c.Raised? || c.outcome != rows[i].outcome
    ensures !(Replay(e, Raws(rows)).Replayed? && Replay(e, Raws(rows)).outcomes == Outcomes(rows))
  {
    ReplayRow(e, rows, i, c);
    if Replay(e, Raws(rows)).Replayed? {
      assert Raws(rows)[..i + 1] == Raws(rows[..i + 1]);
      ReplayOfPrefix(e, Raws(rows), i + 1);
      assert Replay(e, Raws(rows)).outcomes[..i + 1][i] == Replay(e, Raws(rows)).outcomes[i];
    }
  }
}
