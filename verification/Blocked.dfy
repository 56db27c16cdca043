/** A worker that meets a line it cannot pass: what waits in front of it (ContinuousIngestor.poll in
    src/aegisflow/continuous_ingestion.py). */
module Blocked {
  import opened Records
  import opened Ingest
  import opened Journal
  import opened Runs
  import opened Drain

  // ------------------------------------------------- how far a poll reads

  lemma {:induction false} ReadLineCut(s: Bytes, limit: nat)
    ensures var whole := ReadLine(s, |s|);
      if |whole| <= limit then ReadLine(s, limit) == whole else |ReadLine(s, limit)| == limit
  {
    if s == [] || limit == 0 || s[0] == NEWLINE {
    } else {
      ReadLineCut(s[1..], limit - 1);
    }
  }

  /** A poll that gets past its first line has queued it. */
  lemma FirstIsQueued(pending: Bytes, slots: nat, budget: int, maxLine: nat, raw: Bytes, after: Scan, scan: Scan)
    requires slots > 0 && raw == ReadLine(pending, |pending|) && EndsLine(raw) && |raw| <= budget
    requires scan == ScanLines(pending, slots, budget, maxLine)
    requires |raw| <= maxLine ==> after == ScanLines(pending[|raw|..], slots - 1, budget - |raw|, maxLine)
    ensures scan.Scanned? ==> |raw| <= maxLine && after.Scanned? && |scan.queue| == |after.queue| + 1
  {
    ReadLineCut(pending, maxLine + 1);
  }

  lemma FirstLineBytes(pending: Bytes, raw: Bytes, lines: seq<Bytes>, rest: seq<Bytes>, m: nat)
    requires raw == ReadLine(pending, |pending|) && lines == CompleteLines(pending) && 0 < m <= |lines|
    requires rest == CompleteLines(pending[|raw|..])
    ensures EndsLine(raw) && m - 1 <= |rest| && |Concat(lines[..m])| == |raw| + |Concat(rest[..m - 1])|
  {
    assert lines == [raw] + rest;
    assert lines[..m] == [raw] + rest[..m - 1];
    ConcatFirst(raw, rest[..m - 1]);
  }

  /** A poll reads every line that slots and budget leave room for, unless it meets an overlong one. */
  lemma {:induction false} ScanReaches(pending: Bytes, slots: nat, budget: int, maxLine: nat, m: nat, scan: Scan)
    requires m <= slots && m <= |CompleteLines(pending)| && |Concat(CompleteLines(pending)[..m])| <= budget
    requires scan == ScanLines(pending, slots, budget, maxLine)
    ensures scan.Scanned? ==> |scan.queue| >= m
    decreases m
  {
    if m == 0 {
    } else {
      var raw := ReadLine(pending, |pending|);
      var rest := pending[|raw|..];
      FirstLineBytes(pending, raw, CompleteLines(pending), CompleteLines(rest), m);
      var after := ScanLines(rest, slots - 1, budget - |raw|, maxLine);
      FirstIsQueued(pending, slots, budget, maxLine, raw, after, scan);
      ScanReaches(rest, slots - 1, budget - |raw|, maxLine, m - 1, after);
    }
  }

  lemma BytesBehind(raws: seq<Bytes>, rest: seq<Bytes>, all: seq<Bytes>, k: nat)
    requires all == raws + rest && k <= |rest|
    ensures |Concat(all[..|raws| + k])| == |Concat(raws)| + |Concat(rest[..k])|
  {
    assert all[..|raws| + k] == raws + rest[..k];
    ConcatJoin(raws, rest[..k]);
  }

  /** From a checkpoint, a poll's queue goes past every line that fits and is less than a batch away. */
  lemma PollReaches(e: Engine, m: Meta, source: Bytes, raws: seq<Bytes>, j: nat)
    requires At(e, m, source, raws) && |raws| <= j < |raws| + e.limits.batchRecords && Fits(e, source, j + 1)
    ensures var scan := PollScan(e, m, source); scan.Scanned? ==> j < |raws| + |scan.queue|
  {
    var pending, k := source[m.offset..], j + 1 - |raws|;
    var slots, budget := MinNat(e.limits.batchRecords, e.limits.maxJournalRecords - m.lines), e.limits.maxJournalBytes - m.offset;
    LinesSplit(raws, source);
    BytesBehind(raws, CompleteLines(pending), CompleteLines(source), k);
    ScanReaches(pending, slots, budget, e.limits.maxLineBytes, k, ScanLines(pending, slots, budget, e.limits.maxLineBytes));
    PollScanQueue(e, m, source, pending, slots, budget);
  }

  // -------------------------------------------------------- a source grows

  lemma {:induction false} LinesStart(s: Bytes)
    ensures StartsWith(s, CompleteLines(s))
    decreases |s|
  {
    var line := ReadLine(s, |s|);
    if EndsLine(line) {
      var rest := s[|line|..];
      LinesStart(rest);
      ReadLineOnce(s, |s|);
      ConcatFirst(line, CompleteLines(rest));
      var tail := Concat(CompleteLines(rest));
      assert s[..|line| + |tail|] == line + rest[..|tail|];
    } else {
      assert Concat([]) == [];
    }
  }

  lemma LinesGrow(source: Bytes, bytes: Bytes)
    ensures CompleteLines(source) <= CompleteLines(source + bytes)
  {
    var lines := CompleteLines(source);
    LinesStart(source);
    assert (source + bytes)[..|Concat(lines)|] == source[..|Concat(lines)|];
    StartIsPrefix(lines, source + bytes);
  }

  // --------------------------------------------- nothing gets past the line

  /** Line j is poison, it fits, and it is less than a batch away from the checkpoint. */
  ghost predicate Stuck(e: Engine, w: World, j: nat) {
    && |w.db.rows| <= j < |CompleteLines(w.source)| && Poison(e, CompleteLines(w.source), j)
    && j < |w.db.rows| + e.limits.batchRecords && Fits(e, w.source, j + 1)
  }

  lemma AppendStaysStuck(e: Engine, w: World, bytes: Bytes, j: nat)
    requires Stuck(e, w, j)
    ensures Stuck(e, w.(source := w.source + bytes), j)
  {
    var lines, more := CompleteLines(w.source), CompleteLines(w.source + bytes);
    LinesGrow(w.source, bytes);
    assert more[..|lines|] == lines && more[..j + 1] == lines[..j + 1];
    PrefixDecides(e, more, |lines|, j);
  }

  lemma OversizeFails(e: Engine, w: World, fault: Fault, noted: bool, now: nat)
    requires w.worker.Live? && w.db.meta.Some? && w.db.meta.value.lines <= e.limits.maxJournalRecords
    requires w.db.meta.value.offset <= |w.source| && PollScan(e, w.db.meta.value, w.source).Oversize?
    ensures var w' := DoPoll(e, w, fault, noted, now); w'.db.rows == w.db.rows && w'.source == w.source
  {
  }

  lemma PollKeepsSource(e: Engine, w: World, fault: Fault, noted: bool, now: nat)
    requires w.worker.Live? && w.db.meta.Some? && w.db.meta.value.lines <= e.limits.maxJournalRecords
    ensures DoPoll(e, w, fault, noted, now).source == w.source
  {
  }

  lemma PollStaysStuck(e: Engine, w: World, fault: Fault, noted: bool, now: nat, j: nat)
    requires Inv(e, w) && OnSource(e, w) && w.worker.Live? && Stuck(e, w, j)
    ensures var w' := DoPoll(e, w, fault, noted, now); w'.db.rows == w.db.rows && w'.source == w.source
  {
    var m := w.db.meta.value;
    PollReaches(e, m, w.source, Raws(w.db.rows), j);
    PollKeepsSource(e, w, fault, noted, now);
    var scan := PollScan(e, m, w.source);
    if scan.Oversize? {
      OversizeFails(e, w, fault, noted, now);
    } else {
      ReadyBatchIsRefused(e, w, scan, j);
      RefusedPollFails(e, w, scan, fault, noted, now);
    }
  }

  lemma StepStaysStuck(e: Engine, w: World, step: Step, j: nat)
    requires Inv(e, w) && OnSource(e, w) && !step.Tamper? && Stuck(e, w, j)
    ensures Apply(e, w, step).db.rows == w.db.rows && Stuck(e, Apply(e, w, step), j)
  {
    match step
    case Append(bytes) => AppendStaysStuck(e, w, bytes, j);
    case Poll(fault, noted, now) =>
      if w.worker.Live? { PollStaysStuck(e, w, fault, noted, now, j); }
    case _ =>
  }

  lemma {:induction false} StaysStuck(e: Engine, w: World, more: seq<Step>, j: nat)
    requires Inv(e, w) && OnSource(e, w) && AppendOnly(more) && Stuck(e, w, j)
    ensures Run(e, w, more).db.rows == w.db.rows && Stuck(e, Run(e, w, more), j)
  {
    if more == [] {
    } else {
      var n := |more| - 1;
      StaysStuck(e, w, more[..n], j);
      EveryRunKeepsInv(e, w, more[..n]);
      AppendOnlyStaysOnSource(e, w, more[..n]);
      StepStaysStuck(e, Run(e, w, more[..n]), more[n], j);
    }
  }

  /** In any reachable state of an append-only source, a poison line less than a batch ahead ends the work: whatever is
      appended, polled and reopened from then on, not one line more is committed, not even those in front of it. */
  lemma PoisonEndsTheWork(e: Engine, source: Bytes, sourceId: nat, steps: seq<Step>, more: seq<Step>, j: nat)
    requires AppendOnly(steps) && AppendOnly(more) && Stuck(e, Run(e, Initial(source, sourceId), steps), j)
    ensures var w := Run(e, Initial(source, sourceId), steps); Run(e, w, more).db.rows == w.db.rows
  {
    InitialInv(e, source, sourceId);
    EveryRunKeepsInv(e, Initial(source, sourceId), steps);
    SourceDecidesRows(e, source, sourceId, steps);
    StaysStuck(e, Run(e, Initial(source, sourceId), steps), more, j);
  }
}
