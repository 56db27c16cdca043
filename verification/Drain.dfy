/** The `--once` loop of run_continuous: polling a source that nobody writes to any more. */
module Drain {
  import opened Records
  import opened Ingest
  import opened Journal
  import opened Runs

  /** The length of the longest line, complete or trailing. */
  function LongestLine(s: Bytes): nat
    decreases |s|
  {
    var line := ReadLine(s, |s|);
    if !EndsLine(line) then |line|
    else
      var behind := LongestLine(s[|line|..]);
      if |line| < behind then behind else |line|
  }

  predicate NoLongLine(s: Bytes, maxLine: nat) {
    LongestLine(s) <= maxLine
  }

  /** The first n complete lines fit both journal limits. */
  predicate Fits(e: Engine, source: Bytes, n: nat) {
    && n <= |CompleteLines(source)|
    && n <= e.limits.maxJournalRecords
    && |Concat(CompleteLines(source)[..n])| <= e.limits.maxJournalBytes
  }

  lemma {:induction false} ReadLineWithin(s: Bytes, limit: nat)
    requires |ReadLine(s, |s|)| <= limit
    ensures ReadLine(s, limit) == ReadLine(s, |s|)
  {
    if s != [] && limit > 0 && s[0] != NEWLINE {
      ReadLineWithin(s[1..], limit - 1);
    }
  }

  lemma {:induction false} ReadLineWhole(s: Bytes, line: Bytes)
    requires line == ReadLine(s, |s|) && !EndsLine(line)
    ensures line == s
  {
    if s != [] && s[0] != NEWLINE {
      var rest := ReadLine(s[1..], |s| - 1);
      assert ReadLine(s, |s|) == [s[0]] + rest;
      ReadLineWhole(s[1..], rest);
    }
  }

  /** Why a scan of `size` pending bytes holding these complete lines stopped after queueing some of them. */
  ghost predicate StopReason(lines: seq<Bytes>, size: nat, slots: nat, budget: int, queue: seq<Bytes>, status: Status) {
    && |queue| <= |lines| && queue == lines[..|queue|] && |queue| <= slots
    && (status.Following? ==> |queue| == slots || |Concat(queue)| == size)
    && (status.AwaitingPartial? ==> |queue| < slots && |queue| == |lines| && |Concat(queue)| < size)
    && (status.CapacityReached? ==>
          |queue| < slots && |queue| < |lines| && |Concat(queue)| + |lines[|queue|]| > budget)
    && !status.Failed?
  }

  lemma {:induction false} ScanExplained(pending: Bytes, slots: nat, budget: int, maxLine: nat, lines: seq<Bytes>, scan: Scan)
    requires NoLongLine(pending, maxLine)
    requires lines == CompleteLines(pending) && scan == ScanLines(pending, slots, budget, maxLine)
    ensures scan.Scanned? && StopReason(lines, |pending|, slots, budget, scan.queue, scan.status)
    decreases slots
  {
    var raw := ReadLine(pending, |pending|);
    if slots == 0 || pending == [] || !EndsLine(raw) || |raw| > budget {
      ScanStops(pending, slots, budget, maxLine, raw, lines, scan);
    } else {
      var rest := pending[|raw|..];
      NoLongTail(pending, maxLine, raw);
      var after := ScanLines(rest, slots - 1, budget - |raw|, maxLine);
      ScanExplained(rest, slots - 1, budget - |raw|, maxLine, CompleteLines(rest), after);
      ScanGoesOn(pending, slots, budget, maxLine, raw, CompleteLines(rest), after, lines, scan);
    }
  }

  lemma ScanGoesOn(pending: Bytes, slots: nat, budget: int, maxLine: nat, raw: Bytes, linesAfter: seq<Bytes>, after: Scan,
                   lines: seq<Bytes>, scan: Scan)
    requires slots > 0 && pending != [] && EndsLine(raw) && |raw| <= maxLine && |raw| <= budget
    requires raw == ReadLine(pending, maxLine + 1) == ReadLine(pending, |pending|)
    requires lines == CompleteLines(pending) && linesAfter == CompleteLines(pending[|raw|..])
    requires after == ScanLines(pending[|raw|..], slots - 1, budget - |raw|, maxLine) && after.Scanned?
    requires StopReason(linesAfter, |pending| - |raw|, slots - 1, budget - |raw|, after.queue, after.status)
    requires scan == ScanLines(pending, slots, budget, maxLine)
    ensures scan.Scanned? && StopReason(lines, |pending|, slots, budget, scan.queue, scan.status)
  {
    ScanTakes(pending, slots, budget, maxLine, raw, after, scan);
    FirstLine(pending, raw, pending[|raw|..]);
    StopReasonBefore(linesAfter, |pending| - |raw|, raw, slots, budget, after, lines, |pending|, scan);
  }

  lemma NoLongTail(pending: Bytes, maxLine: nat, raw: Bytes)
    requires NoLongLine(pending, maxLine) && raw == ReadLine(pending, |pending|)
    ensures |raw| <= maxLine && raw == ReadLine(pending, maxLine + 1)
    ensures EndsLine(raw) ==> NoLongLine(pending[|raw|..], maxLine)
  {
    ReadLineWithin(pending, maxLine + 1);
  }

  lemma ScanStops(pending: Bytes, slots: nat, budget: int, maxLine: nat, raw: Bytes, lines: seq<Bytes>, scan: Scan)
    requires NoLongLine(pending, maxLine) && raw == ReadLine(pending, |pending|)
    requires lines == CompleteLines(pending) && scan == ScanLines(pending, slots, budget, maxLine)
    requires slots == 0 || pending == [] || !EndsLine(raw) || |raw| > budget
    ensures scan.Scanned? && StopReason(lines, |pending|, slots, budget, scan.queue, scan.status)
  {
    assert Concat([]) == [];
    NoLongTail(pending, maxLine, raw);
    if slots > 0 && pending != [] {
      if !EndsLine(raw) {
        ReadLineWhole(pending, raw);
        assert scan == Scanned([], AwaitingPartial) && lines == [];
      } else {
        assert scan == Scanned([], CapacityReached) && lines[0] == raw;
      }
    } else {
      assert scan == Scanned([], Following);
    }
  }

  lemma ScanTakes(pending: Bytes, slots: nat, budget: int, maxLine: nat, raw: Bytes, after: Scan, scan: Scan)
    requires slots > 0 && pending != [] && EndsLine(raw) && |raw| <= maxLine && |raw| <= budget
    requires raw == ReadLine(pending, maxLine + 1)
    requires after == ScanLines(pending[|raw|..], slots - 1, budget - |raw|, maxLine) && after.Scanned?
    requires scan == ScanLines(pending, slots, budget, maxLine)
    ensures scan == Scanned([raw] + after.queue, after.status)
  {
  }

  lemma StopReasonBefore(
      rest: seq<Bytes>, size: nat, raw: Bytes, slots: nat, budget: int, after: Scan, lines: seq<Bytes>, total: nat, scan: Scan)
    requires after.Scanned? && slots > 0 && StopReason(rest, size, slots - 1, budget - |raw|, after.queue, after.status)
    requires lines == [raw] + rest && total == |raw| + size && scan == Scanned([raw] + after.queue, after.status)
    ensures StopReason(lines, total, slots, budget, scan.queue, scan.status)
  {
    ConcatFirst(raw, after.queue);
  }

  lemma {:induction false} NoLongLineSplit(raws: seq<Bytes>, source: Bytes, maxLine: nat)
    requires StartsWith(source, raws) && NoLongLine(source, maxLine)
    ensures NoLongLine(source[|Concat(raws)|..], maxLine)
    decreases |raws|
  {
    if raws == [] {
      assert source[0..] == source;
    } else {
      var line, rest, after := PeelLine(raws, source);
      NoLongLineSplit(rest, after, maxLine);
    }
  }

  /** No line that fits into the journal is poison. */
  ghost predicate Clean(e: Engine, source: Bytes) {
    forall j :: 0 <= j < |CompleteLines(source)| && Fits(e, source, j + 1) ==> !Poison(e, CompleteLines(source), j)
  }

  lemma {:induction false} ConcatGrows(raws: seq<Bytes>, n: nat)
    requires n <= |raws|
    ensures |Concat(raws[..n])| <= |Concat(raws)|
  {
    if n == |raws| {
      assert raws[..n] == raws;
    } else {
      var init := raws[..|raws| - 1];
      ConcatGrows(init, n);
      assert init[..n] == raws[..n];
    }
  }

  lemma FewerFit(e: Engine, source: Bytes, m: nat, n: nat)
    requires m <= n && Fits(e, source, n)
    ensures Fits(e, source, m)
  {
    ConcatGrows(CompleteLines(source)[..n], m);
    assert CompleteLines(source)[..n][..m] == CompleteLines(source)[..m];
  }

  /** A worker at rest on a source it can read as far as the journal goes. */
  ghost predicate Ready(e: Engine, w: World) {
    && Inv(e, w) && w.worker.Live? && OnSource(e, w)
    && e.limits.Valid() && Clean(e, w.source) && NoLongLine(w.source, e.limits.maxLineBytes)
  }

  /** Where a drained journal stands, and what its last status says about it. */
  ghost predicate Drained(e: Engine, source: Bytes, n: nat, offset: nat, status: Status) {
    && Fits(e, source, n) && !Fits(e, source, n + 1)
    && offset == |Concat(CompleteLines(source)[..n])|
    && (status.Following? ==> offset == |source|)
    && (status.AwaitingPartial? ==>
          offset < |source| && n == |CompleteLines(source)| && n < e.limits.maxJournalRecords)
    && (status.CapacityReached? ==>
          offset < |source| && (n == e.limits.maxJournalRecords || n < |CompleteLines(source)|))
    && !status.Failed?
  }

  /** A checkpoint after whole lines that the source starts with. */
  ghost predicate At(e: Engine, m: Meta, source: Bytes, raws: seq<Bytes>) {
    && StartsWith(source, raws) && m.offset == |Concat(raws)| && m.lines == |raws|
    && m.lines <= e.limits.maxJournalRecords && m.offset <= e.limits.maxJournalBytes
  }

  lemma ReadyIsAt(e: Engine, w: World)
    requires Ready(e, w)
    ensures At(e, w.db.meta.value, w.source, Raws(w.db.rows))
  {
  }

  /** The lines one poll takes, and why it took no more. */
  lemma ScanAt(e: Engine, m: Meta, source: Bytes, raws: seq<Bytes>) returns (scan: Scan, status: Status)
    requires At(e, m, source, raws) && NoLongLine(source, e.limits.maxLineBytes)
    ensures scan == PollScan(e, m, source) && scan.Scanned?
    ensures QueueFits(e, m, scan.queue) && m.offset + |Concat(scan.queue)| <= |source|
    ensures source[m.offset..][..|Concat(scan.queue)|] == Concat(scan.queue)
    ensures StopReason(CompleteLines(source[m.offset..]), |source| - m.offset,
                       MinNat(e.limits.batchRecords, e.limits.maxJournalRecords - m.lines),
                       e.limits.maxJournalBytes - m.offset, scan.queue, status)
    ensures scan.status == if |Concat(scan.queue)| < |source| - m.offset && m.lines + |scan.queue| >= e.limits.maxJournalRecords
                           then CapacityReached else status
  {
    var pending := source[m.offset..];
    var slots := MinNat(e.limits.batchRecords, e.limits.maxJournalRecords - m.lines);
    var budget := e.limits.maxJournalBytes - m.offset;
    NoLongLineSplit(raws, source, e.limits.maxLineBytes);
    var lines := ScanLines(pending, slots, budget, e.limits.maxLineBytes);
    ScanExplained(pending, slots, budget, e.limits.maxLineBytes, CompleteLines(pending), lines);
    PollScanQueue(e, m, source, pending, slots, budget);
    scan := PollScan(e, m, source);
    status := lines.status;
    PollReads(e, m, source);
  }

  /** The first lines replay as long as they fit. */
  lemma CleanPrefixReplays(e: Engine, source: Bytes, raws: seq<Bytes>)
    requires Clean(e, source) && raws <= CompleteLines(source) && Fits(e, source, |raws|)
    ensures Replay(e, raws).Replayed?
  {
    StopsIffPoisoned(e, raws);
    var all := CompleteLines(source);
    assert raws == all[..|raws|];
    forall j | 0 <= j < |raws| ensures !Poison(e, raws, j) {
      FewerFit(e, source, j + 1, |raws|);
      PrefixDecides(e, all, |raws|, j);
    }
  }

  lemma QueueFitsBehind(e: Engine, m: Meta, source: Bytes, raws: seq<Bytes>, queue: seq<Bytes>)
    requires At(e, m, source, raws) && QueueFits(e, m, queue) && raws + queue <= CompleteLines(source)
    ensures Fits(e, source, |raws + queue|)
  {
    ConcatJoin(raws, queue);
    assert CompleteLines(source)[..|raws + queue|] == raws + queue;
  }

  /** One commit of at most a batch, delivered if there is a repository. */
  predicate Counted(e: Engine, w: World, w': World)
    requires w.worker.Live?
  {
    && w'.commits == w.commits + 1 && |w'.db.rows| <= |w.db.rows| + e.limits.batchRecords
    && w'.worker.Live? && w'.worker.delivers == w.worker.delivers
    && (if w.worker.delivers then w'.delivered == w'.commits else w'.delivered == w.delivered && w'.store == w.store)
  }

  /** One poll of a ready worker commits what it read and stays ready. */
  lemma ReadyPoll(e: Engine, w: World, scan: Scan, now: nat)
    requires Ready(e, w) && scan == PollScan(e, w.db.meta.value, w.source) && scan.Scanned?
    requires QueueFits(e, w.db.meta.value, scan.queue)
    requires w.db.meta.value.offset + |Concat(scan.queue)| <= |w.source|
    ensures var w' := DoPoll(e, w, NoFault, false, now);
      && Ready(e, w') && w'.source == w.source
      && Counted(e, w, w')
      && Raws(w'.db.rows) == Raws(w.db.rows) + scan.queue
      && w'.db.snapshot.Some? && w'.db.snapshot.value.status == scan.status
      && w'.db.snapshot.value.backlog == |w.source| - w'.db.meta.value.offset
  {
    PollReads(e, w.db.meta.value, w.source);
    QueueContinues(Raws(w.db.rows), scan.queue, w.source);
    ReadyIsAt(e, w);
    QueueFitsBehind(e, w.db.meta.value, w.source, Raws(w.db.rows), scan.queue);
    CleanPrefixReplays(e, w.source, Raws(w.db.rows) + scan.queue);
    QueueExtendsReplay(e, Raws(w.db.rows), scan.queue);
    var c := Commit(e, w.db, w.worker.ram, scan.queue, scan.status, |w.source|, now);
    CommitKeepsJournal(e, w.db, w.worker.ram, scan.queue, scan.status, |w.source|, now);
    GoodPoll(e, w, c, now);
    PollKeepsInv(e, w, NoFault, false, now);
    PollStaysOnSource(e, w, NoFault, false, now);
  }

  /** What is known when n lines are committed and the rest of the source is still pending. */
  lemma NextLine(source: Bytes, raws: seq<Bytes>)
    requires StartsWith(source, raws)
    ensures var all := CompleteLines(source); var rest := CompleteLines(source[|Concat(raws)|..]); var n := |raws|;
      && n <= |all| && all[..n] == raws && |all| == n + |rest|
      && (n < |all| ==> all[n] == rest[0] && |Concat(all[..n + 1])| == |Concat(raws)| + |rest[0]|)
      && (|Concat(raws)| == |source| ==> n == |all|)
  {
    LinesSplit(raws, source);
    var all := CompleteLines(source);
    var n := |raws|;
    if n < |all| {
      assert all[..n + 1] == all[..n] + [all[n]];
      ConcatStep(all[..n], all[n]);
    }
    if |Concat(raws)| == |source| {
      assert source[|source|..] == [];
    }
  }

  /** What a poll says that stands after n of so many complete lines, the next of which is `next` bytes long. */
  predicate Stopped(e: Engine, lines: nat, next: nat, size: nat, n: nat, offset: nat, taken: nat, slots: nat, status: Status) {
    && n <= lines && offset <= size && (offset == size ==> n == lines)
    && n <= e.limits.maxJournalRecords && offset <= e.limits.maxJournalBytes
    && taken <= slots && (taken == slots ==> taken > 0 || n == e.limits.maxJournalRecords)
    && (taken < slots ==> n < e.limits.maxJournalRecords)
    && (status.Following? ==> taken == slots || offset == size)
    && (status.AwaitingPartial? ==> taken < slots && n == lines && offset < size)
    && (status.CapacityReached? ==> taken < slots && n < lines && offset + next > e.limits.maxJournalBytes)
    && !status.Failed?
  }

  /** The first n of these lines take `offset` bytes, and the one behind them takes `next`. */
  ghost predicate Cuts(all: seq<Bytes>, n: nat, offset: nat, next: nat) {
    n <= |all| && |Concat(all[..n])| == offset && (n < |all| ==> |Concat(all[..n + 1])| == offset + next)
  }

  lemma StoppedIsDrained(e: Engine, source: Bytes, all: seq<Bytes>, n: nat, offset: nat, next: nat, taken: nat, slots: nat,
                         status: Status, final: Status)
    requires all == CompleteLines(source) && Stopped(e, |all|, next, |source|, n, offset, taken, slots, status)
    requires Cuts(all, n, offset, next)
    requires final == if offset < |source| && n >= e.limits.maxJournalRecords then CapacityReached else status
    ensures if final.Following? && offset != |source| then taken > 0 else Drained(e, source, n, offset, final)
  {
    assert Fits(e, source, n);
  }

  lemma ScanStopped(e: Engine, rest: seq<Bytes>, size: nat, lines: nat, start: nat, queue: seq<Bytes>, read: nat, slots: nat,
                    status: Status, next: nat)
    requires StopReason(rest, size, slots, e.limits.maxJournalBytes - start, queue, status) && read == |Concat(queue)| <= size
    requires e.limits.Valid() && lines <= e.limits.maxJournalRecords
    requires slots == MinNat(e.limits.batchRecords, e.limits.maxJournalRecords - lines)
    requires lines + |queue| <= e.limits.maxJournalRecords && start + read <= e.limits.maxJournalBytes
    requires read == size ==> |queue| == |rest|
    requires |queue| < |rest| ==> next == |rest[|queue|]|
    ensures Stopped(e, lines + |rest|, next, start + size, lines + |queue|, start + read, |queue|, slots, status)
  {
  }

  lemma PollStops(e: Engine, m: Meta, source: Bytes, raws: seq<Bytes>, scan: Scan, after: seq<Bytes>, offset: nat,
                  rest: seq<Bytes>, slots: nat) returns (next: nat, status: Status)
    requires At(e, m, source, raws) && NoLongLine(source, e.limits.maxLineBytes) && e.limits.Valid()
    requires scan == PollScan(e, m, source) && scan.Scanned? && rest == CompleteLines(source[m.offset..])
    requires slots == MinNat(e.limits.batchRecords, e.limits.maxJournalRecords - m.lines)
    requires after == raws + scan.queue && offset == |Concat(after)| <= |source|
    requires offset == |source| ==> |scan.queue| == |rest|
    ensures Stopped(e, m.lines + |rest|, next, |source|, |after|, offset, |scan.queue|, slots, status)
    ensures |scan.queue| < |rest| ==> next == |rest[|scan.queue|]|
    ensures scan.status == if offset < |source| && |after| >= e.limits.maxJournalRecords then CapacityReached else status
  {
    var _, why := ScanAt(e, m, source, raws);
    status := why;
    ConcatJoin(raws, scan.queue);
    next := if |scan.queue| < |rest| then |rest[|scan.queue|]| else 0;
    ScanStopped(e, rest, |source| - m.offset, m.lines, m.offset, scan.queue, offset - m.offset, slots, status, next);
  }

  lemma CutsAt(source: Bytes, raws: seq<Bytes>, queue: seq<Bytes>, after: seq<Bytes>, all: seq<Bytes>, rest: seq<Bytes>, next: nat)
    requires StartsWith(source, raws) && after == raws + queue && StartsWith(source, after)
    requires all == CompleteLines(source) && rest == CompleteLines(source[|Concat(raws)|..])
    requires |queue| < |rest| ==> next == |rest[|queue|]|
    ensures |all| == |raws| + |rest| && Cuts(all, |after|, |Concat(after)|, next)
    ensures |Concat(after)| == |source| ==> |queue| == |rest|
  {
    NextLine(source, after);
    LinesSplit(raws, source);
    SameBehind(raws, queue, rest, after, all);
  }

  lemma SameBehind(raws: seq<Bytes>, queue: seq<Bytes>, rest: seq<Bytes>, after: seq<Bytes>, all: seq<Bytes>)
    requires all == raws + rest && after == raws + queue
    ensures |queue| < |rest| ==> all[|after|] == rest[|queue|]
    ensures |all| - |after| == |rest| - |queue|
  {
  }

  /** A poll that leaves nothing to do has the right status, and every other poll took a line. */
  lemma EndsOrMoves(e: Engine, m: Meta, source: Bytes, raws: seq<Bytes>, scan: Scan, after: seq<Bytes>, offset: nat)
    requires At(e, m, source, raws) && NoLongLine(source, e.limits.maxLineBytes) && e.limits.Valid()
    requires scan == PollScan(e, m, source) && scan.Scanned?
    requires after == raws + scan.queue && StartsWith(source, after) && offset == |Concat(after)|
    ensures |after| <= |CompleteLines(source)|
    ensures if scan.status.Following? && offset != |source| then scan.queue != []
            else Drained(e, source, |after|, offset, scan.status)
  {
    var rest, all := CompleteLines(source[m.offset..]), CompleteLines(source);
    var slots := MinNat(e.limits.batchRecords, e.limits.maxJournalRecords - m.lines);
    CutsAt(source, raws, scan.queue, after, all, rest, if |scan.queue| < |rest| then |rest[|scan.queue|]| else 0);
    var next, status := PollStops(e, m, source, raws, scan, after, offset, rest, slots);
    CutsAt(source, raws, scan.queue, after, all, rest, next);
    StoppedIsDrained(e, source, all, |after|, offset, next, |scan.queue|, slots, status, scan.status);
  }

  /** One poll of a ready worker. */
  lemma DrainStep(e: Engine, w: World, now: nat)
    requires Ready(e, w)
    ensures var w' := DoPoll(e, w, NoFault, false, now);
      && Ready(e, w') && w'.source == w.source && w'.db.snapshot.Some? && Counted(e, w, w')
      && |w.db.rows| <= |w'.db.rows| <= |CompleteLines(w.source)|
      && var r := w'.db.snapshot.value;
      (if r.status.Following? && r.backlog != 0 then |w'.db.rows| > |w.db.rows|
       else Drained(e, w.source, |w'.db.rows|, w'.db.meta.value.offset, r.status))
  {
    ReadyIsAt(e, w);
    var m, raws := w.db.meta.value, Raws(w.db.rows);
    var scan, _ := ScanAt(e, m, w.source, raws);
    ReadyPoll(e, w, scan, now);
    var w' := DoPoll(e, w, NoFault, false, now);
    ReadyIsAt(e, w');
    DrainedOrMoved(e, w, w', scan);
  }

  lemma DrainedOrMoved(e: Engine, w: World, w': World, scan: Scan)
    requires w.db.meta.Some? && w'.db.meta.Some? && w'.source == w.source
    requires At(e, w.db.meta.value, w.source, Raws(w.db.rows)) && At(e, w'.db.meta.value, w.source, Raws(w'.db.rows))
    requires NoLongLine(w.source, e.limits.maxLineBytes) && e.limits.Valid()
    requires scan == PollScan(e, w.db.meta.value, w.source) && scan.Scanned?
    requires Raws(w'.db.rows) == Raws(w.db.rows) + scan.queue
    requires w'.db.snapshot.Some? && w'.db.snapshot.value.status == scan.status
    requires w'.db.snapshot.value.backlog == |w.source| - w'.db.meta.value.offset
    ensures |w.db.rows| <= |w'.db.rows| <= |CompleteLines(w.source)|
    ensures var r := w'.db.snapshot.value;
      if r.status.Following? && r.backlog != 0 then |w'.db.rows| > |w.db.rows|
      else Drained(e, w.source, |w'.db.rows|, w'.db.meta.value.offset, r.status)
  {
    var raws, after := Raws(w.db.rows), Raws(w'.db.rows);
    EndsOrMoves(e, w.db.meta.value, w.source, raws, scan, after, w'.db.meta.value.offset);
  }

  function Unfinished(r: Report): bool {
    r.status.Following? && r.backlog != 0
  }

  method PollOnce(e: Engine, start: World, now: nat) returns (w: World, report: Report)
    requires Ready(e, start)
    ensures w == DoPoll(e, start, NoFault, false, now)
    ensures Ready(e, w) && w.source == start.source && w.db.snapshot == Some(report)
    ensures |start.db.rows| <= |w.db.rows| <= |CompleteLines(w.source)|
    ensures if Unfinished(report) then |w.db.rows| > |start.db.rows|
            else Drained(e, w.source, |w.db.rows|, w.db.meta.value.offset, report.status)
  {
    DrainStep(e, start, now);
    w := DoPoll(e, start, NoFault, false, now);
    report := w.db.snapshot.value;
  }

  /** The loop: poll until capacity, an empty backlog or a partial line. It ends, at the longest run of complete
      lines that fits both limits, and the status says why. */
  method DrainOnce(e: Engine, start: World, now: nat) returns (w: World, report: Report)
    requires Ready(e, start)
    ensures Ready(e, w) && w.source == start.source && w.db.snapshot == Some(report)
    ensures Drained(e, w.source, |w.db.rows|, w.db.meta.value.offset, report.status)
    ensures Raws(w.db.rows) == CompleteLines(w.source)[..|w.db.rows|]
  {
    w, report := PollOnce(e, start, now);
    while Unfinished(report)
      invariant Ready(e, w) && w.source == start.source && w.db.snapshot == Some(report)
      invariant |w.db.rows| <= |CompleteLines(start.source)|
      invariant !Unfinished(report) ==> Drained(e, w.source, |w.db.rows|, w.db.meta.value.offset, report.status)
      decreases |CompleteLines(start.source)| - |w.db.rows|, Unfinished(report)
    {
      w, report := PollOnce(e, w, now);
    }
    ReadyIsAt(e, w);
    NextLine(w.source, Raws(w.db.rows));
  }
}
