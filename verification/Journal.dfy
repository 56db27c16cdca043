/** The durable journal: what a poll reads, what it commits and what recovery accepts
    (ContinuousIngestor.poll, _verify_source and _recover in src/aegisflow/continuous_ingestion.py). */
module Journal {
  import opened Records
  import opened Ingest

  const NEWLINE: byte := 10

  /** SHA-256 as a symbolic digest: equal digests mean equal bytes. */
  datatype Digest = Sha256(preimage: Bytes)

  datatype Contract = Contract(sourceId: nat, limits: Limits, provenance: string)
  datatype Meta = Meta(
    contract: Contract, runId: string, offset: nat, lines: nat, prefix: Digest, highWater: nat, batches: nat)
  datatype Row = Row(start: nat, end: nat, raw: Bytes, outcome: Outcome)

  datatype Status = Following | AwaitingPartial | CapacityReached | Failed
  datatype Report = Report(
    runId: string, status: Status, quality: Quality, analysis: Analysis, offset: nat, lines: nat,
    highWater: nat, batches: nat, backlog: nat, updatedAt: nat, failure: bool)

  /** stream_meta, stream_records in offset order, and stream_snapshot. */
  datatype Db = Db(meta: Option<Meta>, rows: seq<Row>, snapshot: Option<Report>)
  const EMPTY_DB := Db(None, [], None)

  // ------------------------------------------------------------ line reading

  /** readline(limit): through the first newline, or `limit` bytes, or the end. */
  function ReadLine(s: Bytes, limit: nat): (line: Bytes)
    ensures |line| <= |s| && |line| <= limit && s[..|line|] == line
    ensures s != [] && limit > 0 ==> line != []
  {
    if s == [] || limit == 0 then []
    else if s[0] == NEWLINE then [s[0]]
    else [s[0]] + ReadLine(s[1..], limit - 1)
  }

  predicate EndsLine(raw: Bytes) {
    raw != [] && raw[|raw| - 1] == NEWLINE
  }

  datatype Scan = Scanned(queue: seq<Bytes>, status: Status) | Oversize

  /** The reading loop of one poll over the bytes that were pending when it started. */
  function ScanLines(pending: Bytes, slots: nat, budget: int, maxLine: nat): Scan
    decreases slots
  {
    if slots == 0 || pending == [] then Scanned([], Following)
    else
      var raw := ReadLine(pending, maxLine + 1);
      if |raw| > maxLine then Oversize
      else if !EndsLine(raw) then Scanned([], AwaitingPartial)
      else if |raw| > budget then Scanned([], CapacityReached)
      else
        match ScanLines(pending[|raw|..], slots - 1, budget - |raw|, maxLine)
        case Oversize => Oversize
        case Scanned(queue, status) => Scanned([raw] + queue, status)
  }

  function Concat(raws: seq<Bytes>): Bytes {
    if raws == [] then [] else Concat(raws[..|raws| - 1]) + raws[|raws| - 1]
  }

  function MinNat(a: nat, b: nat): nat {
    if a < b then a else b
  }

  /** One poll's queue and status: at most a batch, within both journal limits; a full journal with bytes still
      pending always reports capacity. */
  function PollScan(e: Engine, m: Meta, source: Bytes): Scan
    requires m.offset <= |source| && m.lines <= e.limits.maxJournalRecords
  {
    var pending := source[m.offset..];
    var slots := MinNat(e.limits.batchRecords, e.limits.maxJournalRecords - m.lines);
    match ScanLines(pending, slots, e.limits.maxJournalBytes - m.offset, e.limits.maxLineBytes)
    case Oversize => Oversize
    case Scanned(queue, status) =>
      if |Concat(queue)| < |pending| && m.lines + |queue| >= e.limits.maxJournalRecords
      then Scanned(queue, CapacityReached) else Scanned(queue, status)
  }

  // ------------------------------------------------------------- committing

  datatype Batch = Applied(ram: Ram, outcomes: seq<Outcome>) | Refused

  function ConsumeQueue(e: Engine, ram: Ram, queue: seq<Bytes>, lines: nat): (b: Batch)
    ensures b.Applied? ==> |b.outcomes| == |queue|
  {
    if queue == [] then Applied(ram, [])
    else match ConsumeQueue(e, ram, queue[..|queue| - 1], lines)
      case Refused => Refused
      case Applied(mid, outcomes) =>
        match Consume(e, mid, queue[|queue| - 1], lines + |queue|)
        case Raised => Refused
        case Kept(next, outcome) => Applied(next, outcomes + [outcome])
  }

  function RowsOf(offset: nat, queue: seq<Bytes>, outcomes: seq<Outcome>): (rows: seq<Row>)
    requires |queue| == |outcomes|
    ensures |rows| == |queue|
  {
    if queue == [] then []
    else
      var n := |queue| - 1;
      var start := offset + |Concat(queue[..n])|;
      RowsOf(offset, queue[..n], outcomes[..n]) + [Row(start, start + |queue[n]|, queue[n], outcomes[n])]
  }

  function Raws(rows: seq<Row>): (raws: seq<Bytes>)
    ensures |raws| == |rows|
    ensures forall i :: 0 <= i < |rows| ==> raws[i] == rows[i].raw
  {
    seq(|rows|, i requires 0 <= i < |rows| => rows[i].raw)
  }

  function Outcomes(rows: seq<Row>): (outcomes: seq<Outcome>)
    ensures |outcomes| == |rows|
    ensures forall i :: 0 <= i < |rows| ==> outcomes[i] == rows[i].outcome
  {
    seq(|rows|, i requires 0 <= i < |rows| => rows[i].outcome)
  }

  function MakeReport(e: Engine, ram: Ram, m: Meta, status: Status, backlog: nat, now: nat): Report {
    Report(m.runId, status, ram.quality, e.analyse(ram.session.history), m.offset, m.lines,
           m.highWater, m.batches, backlog, now, false)
  }

  datatype Committed = Committed(db: Db, ram: Ram) | RolledBack

  /** The transaction of one poll: rows, meta and snapshot change together, or nothing does. */
  function Commit(e: Engine, db: Db, ram: Ram, queue: seq<Bytes>, status: Status, size: nat, now: nat): Committed
    requires db.meta.Some? && db.meta.value.offset + |Concat(queue)| <= size
  {
    var m := db.meta.value;
    match ConsumeQueue(e, ram, queue, m.lines)
    case Refused => RolledBack
    case Applied(next, outcomes) =>
      var offset := m.offset + |Concat(queue)|;
      var m' := m.(offset := offset, lines := m.lines + |queue|,
                   prefix := Sha256(m.prefix.preimage + Concat(queue)),
                   highWater := if m.highWater < |queue| then |queue| else m.highWater,
                   batches := m.batches + (if queue == [] then 0 else 1));
      Committed(Db(Some(m'), db.rows + RowsOf(m.offset, queue, outcomes),
                   Some(MakeReport(e, next, m', status, size - offset, now))), next)
  }

  // --------------------------------------------------------------- recovery

  /** _verify_source: same file, not shorter than the checkpoint, committed prefix unchanged. */
  predicate SourceIntact(m: Meta, sourceId: nat, source: Bytes) {
    && sourceId == m.contract.sourceId
    && m.offset <= |source|
    && Sha256(source[..m.offset]) == m.prefix
  }

  predicate Follows(rows: seq<Row>, i: nat, from: nat)
    requires i < |rows|
  {
    && rows[i].start == (if i == 0 then from else rows[i - 1].end)
    && rows[i].end == rows[i].start + |rows[i].raw|
  }

  /** Each row starts where the previous one ends, the first at `from`. */
  predicate Chained(rows: seq<Row>, from: nat) {
    forall i :: 0 <= i < |rows| ==> Follows(rows, i, from)
  }

  predicate Continuous(rows: seq<Row>) {
    Chained(rows, 0) && forall i :: 0 <= i < |rows| ==> EndsLine(rows[i].raw)
  }

  lemma ChainedPrefix(rows: seq<Row>, n: nat, from: nat)
    requires n <= |rows| && Chained(rows, from)
    ensures Chained(rows[..n], from)
  {
    forall i | 0 <= i < n ensures Follows(rows[..n], i, from) {
      assert Follows(rows, i, from);
    }
  }

  lemma ChainedJoin(a: seq<Row>, b: seq<Row>, from: nat)
    requires Chained(a, from) && Chained(b, if a == [] then from else a[|a| - 1].end)
    ensures Chained(a + b, from)
  {
    forall i | 0 <= i < |a + b| ensures Follows(a + b, i, from) {
      if i < |a| {
        assert Follows(a, i, from);
      } else {
        assert Follows(b, i - |a|, if a == [] then from else a[|a| - 1].end);
      }
    }
  }

  function LastEnd(rows: seq<Row>): nat {
    if rows == [] then 0 else rows[|rows| - 1].end
  }

  /** _recover: every check the replay of the journal makes, and the memory it rebuilds. */
  function Recover(e: Engine, db: Db): Option<Ram>
    requires db.meta.Some?
  {
    var m := db.meta.value;
    var replayed := Replay(e, Raws(db.rows));
    if && Continuous(db.rows)
       && (forall i :: 0 <= i < |db.rows| ==> |db.rows[i].raw| <= e.limits.maxLineBytes)
       && |db.rows| <= e.limits.maxJournalRecords
       && replayed.Replayed? && replayed.outcomes == Outcomes(db.rows)
       && LastEnd(db.rows) == m.offset && |db.rows| == m.lines && m.offset <= e.limits.maxJournalBytes
       && Sha256(Concat(Raws(db.rows))) == m.prefix
       && (db.rows == [] || (db.snapshot.Some?
             && db.snapshot.value.analysis.alerts == e.analyse(replayed.ram.session.history).alerts))
    then Some(replayed.ram) else None
  }

  // ------------------------------------------------------ journal invariant

  /** Reports that differ only in status, update time and failure note. */
  predicate SameEvidence(a: Report, b: Report) {
    a.(status := b.status, updatedAt := b.updatedAt, failure := b.failure) == b
  }

  /** Exactly one newline, at the end. */
  ghost predicate OneLine(raw: Bytes) {
    EndsLine(raw) && forall i :: 0 <= i < |raw| - 1 ==> raw[i] != NEWLINE
  }

  ghost predicate RowsOk(e: Engine, m: Meta, rows: seq<Row>) {
    && Continuous(rows) && LastEnd(rows) == m.offset && |rows| == m.lines
    && m.prefix == Sha256(Concat(Raws(rows))) && m.offset == |Concat(Raws(rows))|
    && (forall i :: 0 <= i < |rows| ==> OneLine(rows[i].raw) && |rows[i].raw| <= e.limits.maxLineBytes)
    && m.lines <= e.limits.maxJournalRecords && m.offset <= e.limits.maxJournalBytes
  }

  ghost predicate ReplayOk(e: Engine, db: Db)
    requires db.meta.Some?
  {
    var replayed := Replay(e, Raws(db.rows));
    && replayed.Replayed? && replayed.outcomes == Outcomes(db.rows)
    && (db.rows != [] ==> db.snapshot.Some?)
    && (db.snapshot.Some? ==>
          SameEvidence(db.snapshot.value, MakeReport(e, replayed.ram, db.meta.value, Following, db.snapshot.value.backlog, 0)))
  }

  /** What every durable state of the journal satisfies. */
  ghost predicate JournalOk(e: Engine, db: Db) {
    if db.meta.None? then db == EMPTY_DB
    else
      && db.meta.value.contract.limits == e.limits && db.meta.value.contract.provenance == e.provenance
      && RowsOk(e, db.meta.value, db.rows)
      && ReplayOk(e, db)
  }

  // ------------------------------------------------------------ small facts

  lemma ConcatStep(raws: seq<Bytes>, last: Bytes)
    ensures Concat(raws + [last]) == Concat(raws) + last
  {
    assert (raws + [last])[..|raws|] == raws;
  }

  lemma {:induction false} ConcatJoin(a: seq<Bytes>, b: seq<Bytes>)
    ensures Concat(a + b) == Concat(a) + Concat(b)
  {
    if b == [] {
      assert a + b == a;
    } else {
      var init := b[..|b| - 1];
      ConcatJoin(a, init);
      assert a + b == (a + init) + [b[|b| - 1]];
      ConcatStep(a + init, b[|b| - 1]);
      assert Concat(a) + (Concat(init) + b[|b| - 1]) == (Concat(a) + Concat(init)) + b[|b| - 1];
    }
  }

  lemma ConcatFirst(first: Bytes, rest: seq<Bytes>)
    ensures Concat([first] + rest) == first + Concat(rest)
  {
    ConcatJoin([first], rest);
    assert [first][..0] == [];
    assert Concat([first]) == first;
  }

  /** A queued line is one whole line, and the scan goes on behind it. */
  lemma ScanStep(pending: Bytes, slots: nat, budget: int, maxLine: nat) returns (raw: Bytes, rest: seq<Bytes>)
    requires ScanLines(pending, slots, budget, maxLine).Scanned? && ScanLines(pending, slots, budget, maxLine).queue != []
    ensures raw == ReadLine(pending, maxLine + 1) && slots > 0 && raw != []
    ensures OneLine(raw) && |raw| <= maxLine && |raw| <= budget && pending == raw + pending[|raw|..]
    ensures ScanLines(pending[|raw|..], slots - 1, budget - |raw|, maxLine).Scanned?
    ensures rest == ScanLines(pending[|raw|..], slots - 1, budget - |raw|, maxLine).queue
    ensures ScanLines(pending, slots, budget, maxLine).queue == [raw] + rest
  {
    raw, rest := ScanUnfold(pending, slots, budget, maxLine, ScanLines(pending, slots, budget, maxLine));
    ReadLineOnce(pending, maxLine + 1);
    assert pending == pending[..|raw|] + pending[|raw|..];
  }

  lemma ScanUnfold(pending: Bytes, slots: nat, budget: int, maxLine: nat, scan: Scan) returns (raw: Bytes, rest: seq<Bytes>)
    requires scan == ScanLines(pending, slots, budget, maxLine) && scan.Scanned? && scan.queue != []
    ensures raw == ReadLine(pending, maxLine + 1) && slots > 0 && raw != []
    ensures EndsLine(raw) && |raw| <= maxLine && |raw| <= budget
    ensures ScanLines(pending[|raw|..], slots - 1, budget - |raw|, maxLine).Scanned?
    ensures rest == ScanLines(pending[|raw|..], slots - 1, budget - |raw|, maxLine).queue && scan.queue == [raw] + rest
  {
    raw := ReadLine(pending, maxLine + 1);
    rest := ScanLines(pending[|raw|..], slots - 1, budget - |raw|, maxLine).queue;
  }

  lemma {:induction false} ScanQueuesLines(pending: Bytes, slots: nat, budget: int, maxLine: nat)
    requires ScanLines(pending, slots, budget, maxLine).Scanned?
    ensures var queue := ScanLines(pending, slots, budget, maxLine).queue;
      && |queue| <= slots && forall i :: 0 <= i < |queue| ==> OneLine(queue[i]) && |queue[i]| <= maxLine
    decreases slots
  {
    if ScanLines(pending, slots, budget, maxLine).queue != [] {
      var raw, rest := ScanStep(pending, slots, budget, maxLine);
      ScanQueuesLines(pending[|raw|..], slots - 1, budget - |raw|, maxLine);
    }
  }

  /** The queue is what the pending bytes start with. */
  lemma {:induction false} ScanReadsPrefix(pending: Bytes, slots: nat, budget: int, maxLine: nat)
    requires ScanLines(pending, slots, budget, maxLine).Scanned?
    ensures var read := Concat(ScanLines(pending, slots, budget, maxLine).queue);
      && |read| <= |pending| && pending[..|read|] == read && (budget >= 0 ==> |read| <= budget)
    decreases slots
  {
    if ScanLines(pending, slots, budget, maxLine).queue != [] {
      var raw, rest := ScanStep(pending, slots, budget, maxLine);
      var after := pending[|raw|..];
      ScanReadsPrefix(after, slots - 1, budget - |raw|, maxLine);
      ConcatFirst(raw, rest);
      var read := Concat(rest);
      assert after[..|read|] == read;
      assert pending[..|raw| + |read|] == raw + after[..|read|];
    }
  }

  lemma {:induction false} ReadLineOnce(s: Bytes, limit: nat)
    ensures forall i :: 0 <= i < |ReadLine(s, limit)| - 1 ==> ReadLine(s, limit)[i] != NEWLINE
  {
    if s != [] && limit > 0 && s[0] != NEWLINE {
      var rest := ReadLine(s[1..], limit - 1);
      ReadLineOnce(s[1..], limit - 1);
      assert forall i :: 0 <= i < |rest| - 1 ==> rest[i] != NEWLINE;
      assert ReadLine(s, limit) == [s[0]] + rest;
    }
  }

  function ReplayedThen(e: Engine, r: Replayed, raw: Bytes, line: nat): Replayed {
    match r
    case Stopped => Stopped
    case Replayed(ram, outcomes) =>
      match Consume(e, ram, raw, line)
      case Raised => Stopped
      case Kept(next, outcome) => Replayed(next, outcomes + [outcome])
  }

  function AppliedThen(e: Engine, b: Batch, raw: Bytes, line: nat): Batch {
    match b
    case Refused => Refused
    case Applied(mid, outcomes) =>
      match Consume(e, mid, raw, line)
      case Raised => Refused
      case Kept(next, outcome) => Applied(next, outcomes + [outcome])
  }

  lemma ReplaySnoc(e: Engine, raws: seq<Bytes>, raw: Bytes, line: nat)
    requires line == |raws| + 1
    ensures Replay(e, raws + [raw]) == ReplayedThen(e, Replay(e, raws), raw, line)
  {
    assert (raws + [raw])[..|raws|] == raws;
  }

  lemma ConsumeSnoc(e: Engine, ram: Ram, queue: seq<Bytes>, raw: Bytes, lines: nat, line: nat)
    requires line == lines + |queue| + 1
    ensures ConsumeQueue(e, ram, queue + [raw], lines) == AppliedThen(e, ConsumeQueue(e, ram, queue, lines), raw, line)
  {
    assert (queue + [raw])[..|queue|] == queue;
  }

  /** A batch applied after these outcomes gives this replay. */
  predicate Extended(outcomes: seq<Outcome>, b: Batch, r: Replayed) {
    && (b.Applied? <==> r.Replayed?)
    && (b.Applied? ==> b.ram == r.ram && r.outcomes == outcomes + b.outcomes)
  }

  lemma ExtendedOnce(e: Engine, outcomes: seq<Outcome>, b: Batch, r: Replayed, raw: Bytes, line: nat)
    requires Extended(outcomes, b, r)
    ensures Extended(outcomes, AppliedThen(e, b, raw, line), ReplayedThen(e, r, raw, line))
  {
    if b.Applied? && Consume(e, b.ram, raw, line).Kept? {
      var outcome := Consume(e, b.ram, raw, line).outcome;
      assert outcomes + (b.outcomes + [outcome]) == (outcomes + b.outcomes) + [outcome];
    }
  }

  /** Consuming a queue after a replay is the replay of the longer journal. */
  lemma {:induction false} QueueExtendsReplay(e: Engine, raws: seq<Bytes>, queue: seq<Bytes>)
    requires Replay(e, raws).Replayed?
    ensures Extended(Replay(e, raws).outcomes, ConsumeQueue(e, Replay(e, raws).ram, queue, |raws|), Replay(e, raws + queue))
  {
    var ram, outcomes := Replay(e, raws).ram, Replay(e, raws).outcomes;
    if queue == [] {
      assert raws + queue == raws;
    } else {
      var n := |queue| - 1;
      var init, last := queue[..n], queue[n];
      var line := |raws| + |queue|;
      QueueExtendsReplay(e, raws, init);
      assert raws + queue == (raws + init) + [last] && queue == init + [last];
      ReplaySnoc(e, raws + init, last, line);
      ConsumeSnoc(e, ram, init, last, |raws|, line);
      ExtendedOnce(e, outcomes, ConsumeQueue(e, ram, init, |raws|), Replay(e, raws + init), last, line);
    }
  }

  lemma {:induction false} RowsOfAre(offset: nat, queue: seq<Bytes>, outcomes: seq<Outcome>)
    requires |queue| == |outcomes|
    ensures var rows := RowsOf(offset, queue, outcomes);
      && Raws(rows) == queue && Outcomes(rows) == outcomes && Chained(rows, offset)
      && (rows != [] ==> LastEnd(rows) == offset + |Concat(queue)|)
  {
    if queue == [] {
    } else {
      var n := |queue| - 1;
      RowsOfAre(offset, queue[..n], outcomes[..n]);
      var init := RowsOf(offset, queue[..n], outcomes[..n]);
      var rows := RowsOf(offset, queue, outcomes);
      var last := [rows[n]];
      assert Follows(last, 0, rows[n].start);
      assert queue[..n] == [] ==> Concat(queue[..n]) == [];
      ChainedJoin(init, last, offset);
      assert rows == init + last;
    }
  }

  lemma RawsJoin(a: seq<Row>, b: seq<Row>)
    ensures Raws(a + b) == Raws(a) + Raws(b)
    ensures Outcomes(a + b) == Outcomes(a) + Outcomes(b)
  {
  }

  // ------------------------------------------------------- one commit, kept

  /** The lines fit behind the checkpoint. */
  ghost predicate QueueFits(e: Engine, m: Meta, queue: seq<Bytes>) {
    && (forall i :: 0 <= i < |queue| ==> OneLine(queue[i]) && |queue[i]| <= e.limits.maxLineBytes)
    && m.lines + |queue| <= e.limits.maxJournalRecords
    && m.offset + |Concat(queue)| <= e.limits.maxJournalBytes
  }

  /** What a poll reads: whole lines that the source continues with, within every limit. */
  lemma PollReads(e: Engine, m: Meta, source: Bytes)
    requires m.offset <= |source| && m.lines <= e.limits.maxJournalRecords && m.offset <= e.limits.maxJournalBytes
    requires PollScan(e, m, source).Scanned?
    ensures var queue := PollScan(e, m, source).queue;
      && QueueFits(e, m, queue) && |queue| <= e.limits.batchRecords
      && m.offset + |Concat(queue)| <= |source|
      && source[m.offset..][..|Concat(queue)|] == Concat(queue)
  {
    var slots := MinNat(e.limits.batchRecords, e.limits.maxJournalRecords - m.lines);
    var pending := source[m.offset..];
    var budget := e.limits.maxJournalBytes - m.offset;
    PollScanQueue(e, m, source, pending, slots, budget);
    ScanQueuesLines(pending, slots, budget, e.limits.maxLineBytes);
    ScanReadsPrefix(pending, slots, budget, e.limits.maxLineBytes);
  }

  lemma PollScanQueue(e: Engine, m: Meta, source: Bytes, pending: Bytes, slots: nat, budget: int)
    requires m.offset <= |source| && m.lines <= e.limits.maxJournalRecords
    requires pending == source[m.offset..] && budget == e.limits.maxJournalBytes - m.offset
    requires slots == MinNat(e.limits.batchRecords, e.limits.maxJournalRecords - m.lines)
    ensures var read := ScanLines(pending, slots, budget, e.limits.maxLineBytes); var scan := PollScan(e, m, source);
      && (scan.Scanned? <==> read.Scanned?)
      && (scan.Scanned? ==> scan.queue == read.queue)
      && (scan.Scanned? ==>
            var full := |Concat(read.queue)| < |pending| && m.lines + |read.queue| >= e.limits.maxJournalRecords;
            scan.status == if full then CapacityReached else read.status)
  {
    PollScanIs(e, m, source, ScanLines(pending, slots, budget, e.limits.maxLineBytes));
  }

  lemma PollScanIs(e: Engine, m: Meta, source: Bytes, read: Scan)
    requires m.offset <= |source| && m.lines <= e.limits.maxJournalRecords
    requires read == ScanLines(source[m.offset..], MinNat(e.limits.batchRecords, e.limits.maxJournalRecords - m.lines),
                               e.limits.maxJournalBytes - m.offset, e.limits.maxLineBytes)
    ensures PollScan(e, m, source) == FullOr(e, m, |source| - m.offset, read)
  {
  }

  function FullOr(e: Engine, m: Meta, size: nat, read: Scan): Scan {
    if read.Oversize? then Oversize
    else if |Concat(read.queue)| < size && m.lines + |read.queue| >= e.limits.maxJournalRecords
    then Scanned(read.queue, CapacityReached)
    else read
  }

  /** Committing a scanned queue keeps the journal invariant, and the new memory is the replay of the new rows. */
  lemma CommitKeepsJournal(e: Engine, db: Db, ram: Ram, queue: seq<Bytes>, status: Status, size: nat, now: nat)
    requires JournalOk(e, db) && db.meta.Some? && ram == Replay(e, Raws(db.rows)).ram
    requires QueueFits(e, db.meta.value, queue) && db.meta.value.offset + |Concat(queue)| <= size
    requires Commit(e, db, ram, queue, status, size, now).Committed?
    ensures var c := Commit(e, db, ram, queue, status, size, now);
      && JournalOk(e, c.db) && c.db.meta.Some? && c.db.snapshot.Some?
      && Replay(e, Raws(c.db.rows)).Replayed? && c.ram == Replay(e, Raws(c.db.rows)).ram
      && db.rows <= c.db.rows && Raws(c.db.rows) == Raws(db.rows) + queue
  {
    var m := db.meta.value;
    var c := Commit(e, db, ram, queue, status, size, now);
    var outcomes := ConsumeQueue(e, ram, queue, m.lines).outcomes;
    var added := RowsOf(m.offset, queue, outcomes);
    RowsOfAre(m.offset, queue, outcomes);
    RawsJoin(db.rows, added);
    QueueExtendsReplay(e, Raws(db.rows), queue);
    CommittedRowsOk(e, m, db.rows, added, queue, c.db.meta.value);
  }

  lemma LinesJoin(rows: seq<Row>, added: seq<Row>, queue: seq<Bytes>, maxLine: nat)
    requires forall i :: 0 <= i < |rows| ==> OneLine(rows[i].raw) && |rows[i].raw| <= maxLine
    requires forall i :: 0 <= i < |queue| ==> OneLine(queue[i]) && |queue[i]| <= maxLine
    requires Raws(added) == queue
    ensures forall i :: 0 <= i < |rows + added| ==> OneLine((rows + added)[i].raw) && |(rows + added)[i].raw| <= maxLine
  {
    forall i | 0 <= i < |rows + added| ensures OneLine((rows + added)[i].raw) && |(rows + added)[i].raw| <= maxLine {
      if i >= |rows| {
        assert added[i - |rows|].raw == queue[i - |rows|];
      }
    }
  }

  lemma BytesJoin(rows: seq<Row>, added: seq<Row>, queue: seq<Bytes>)
    requires Raws(added) == queue
    ensures Concat(Raws(rows + added)) == Concat(Raws(rows)) + Concat(queue)
  {
    RawsJoin(rows, added);
    ConcatJoin(Raws(rows), queue);
  }

  lemma CommittedRowsOk(e: Engine, m: Meta, rows: seq<Row>, added: seq<Row>, queue: seq<Bytes>, m': Meta)
    requires RowsOk(e, m, rows) && Raws(added) == queue && Chained(added, m.offset)
    requires added != [] ==> LastEnd(added) == m.offset + |Concat(queue)|
    requires QueueFits(e, m, queue)
    requires m'.offset == m.offset + |Concat(queue)| && m'.lines == m.lines + |queue|
    requires m'.prefix == Sha256(m.prefix.preimage + Concat(queue))
    ensures RowsOk(e, m', rows + added)
  {
    LinesJoin(rows, added, queue, e.limits.maxLineBytes);
    BytesJoin(rows, added, queue);
    ChainedJoin(rows, added, 0);
  }

  /** _recover accepts every journal that satisfies the invariant and rebuilds exactly the uninterrupted fold. */
  lemma RecoverAccepts(e: Engine, db: Db)
    requires JournalOk(e, db) && db.meta.Some?
    ensures Recover(e, db) == Some(Replay(e, Raws(db.rows)).ram)
  {
  }

  /** And what it accepts is sound on its own: the rows are gapless lines within the limits whose bytes and
      dispositions are exactly those of a fresh fold, whoever wrote the journal. */
  lemma RecoverSound(e: Engine, db: Db)
    requires db.meta.Some? && Recover(e, db).Some?
    ensures var m := db.meta.value;
      && Concat(Raws(db.rows)) == m.prefix.preimage && |m.prefix.preimage| == m.offset && |db.rows| == m.lines
      && Replay(e, Raws(db.rows)) == Replayed(Recover(e, db).value, Outcomes(db.rows))
      && m.lines <= e.limits.maxJournalRecords && m.offset <= e.limits.maxJournalBytes
  {
    ContinuousLength(db.rows);
  }

  lemma {:induction false} ContinuousLength(rows: seq<Row>)
    requires Chained(rows, 0)
    ensures |Concat(Raws(rows))| == LastEnd(rows)
  {
    if rows == [] {
    } else {
      var init := rows[..|rows| - 1];
      ChainedPrefix(rows, |rows| - 1, 0);
      ContinuousLength(init);
      assert Follows(rows, |rows| - 1, 0);
      assert Raws(rows)[..|rows| - 1] == Raws(init);
    }
  }
}
