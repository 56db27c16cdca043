/** The signed evidence ledger (src/aegisflow/audited_store.py): a chain of records, each authenticated with one
    key and bound to a digest of every protected table. */
module Ledger {
  import opened Records

  /** A row of a protected table, by table and identity. */
  datatype RowKey = EvidenceKey(table: string, id: string) | RunKey(id: string) | RetentionKey(id: string)
  datatype RowValue =
    | EvidenceRow(content: string)
    | RunRow(payload: string, completed: bool)
    | RetentionRow(storedAt: int, held: bool)

  /** The protected tables together; snapshot() digests them row by row. */
  type State = map<RowKey, RowValue>

  /** SHA-256 of the canonical snapshot: equal digests mean equal tables. */
  datatype StateDigest = Sha256(state: State)

  datatype Change = Change(before: Option<RowValue>, after: Option<RowValue>)
  type Changes = map<RowKey, Change>

  datatype Context = Context(stamp: int, actor: string, operation: string)

  /** Everything the key signs. Only the first kind carries the ledger's version; export receipts and recovery
      manifests are authenticated with the same key under versions of their own. */
  datatype Payload =
    | Record(sequence: nat, previous: Tag, context: Context, event: string, changes: Changes, state: StateDigest)
    | OtherSigned(version: string, text: string)

  /** HMAC values; sixty-four zeros stand for "no predecessor". */
  type Tag = nat
  const ZEROS: Tag := 0

  datatype LedgerRow = LedgerRow(sequence: nat, payload: Payload, mac: Tag)
  datatype Head = Head(sequence: nat, mac: Tag, state: StateDigest)
  datatype Store = Store(rows: seq<LedgerRow>, state: State)

  ghost predicate Injective(hmac: Payload -> Tag) {
    forall p, q :: hmac(p) == hmac(q) ==> p == q
  }

  // ------------------------------------------------------------ verification

  predicate RowGood(hmac: Payload -> Tag, rows: seq<LedgerRow>, i: nat)
    requires i < |rows|
  {
    && rows[i].sequence == i + 1
    && rows[i].payload.Record? && rows[i].payload.sequence == rows[i].sequence
    && rows[i].payload.previous == (if i == 0 then ZEROS else rows[i - 1].mac)
    && rows[i].mac == hmac(rows[i].payload)
  }

  predicate ChainGood(hmac: Payload -> Tag, rows: seq<LedgerRow>) {
    forall i :: 0 <= i < |rows| ==> RowGood(hmac, rows, i)
  }

  /** verify_connection: the head of a chain whose last record carries the digest of the present tables. */
  function Verify(hmac: Payload -> Tag, s: Store): Option<Head> {
    if && s.rows != [] && ChainGood(hmac, s.rows)
       && s.rows[|s.rows| - 1].payload.Record? && s.rows[|s.rows| - 1].payload.state == Sha256(s.state)
    then
      var last := s.rows[|s.rows| - 1];
      Some(Head(last.sequence, last.mac, last.payload.state))
    else None
  }

  // ------------------------------------------------------------ transactions

  function Lookup(s: State, k: RowKey): Option<RowValue> {
    if k in s then Some(s[k]) else None
  }

  function Diff(before: State, after: State): Changes {
    map k | k in before.Keys + after.Keys && Lookup(before, k) != Lookup(after, k) ::
      Change(Lookup(before, k), Lookup(after, k))
  }

  /** Replaying a recorded change set. */
  function Patch(s: State, changes: Changes): State {
    map k | k in s.Keys + changes.Keys && (k in changes ==> changes[k].after.Some?) ::
      if k in changes then changes[k].after.value else s[k]
  }

  lemma PatchDiff(before: State, after: State)
    ensures Patch(before, Diff(before, after)) == after
  {
    var changes := Diff(before, after);
    assert forall k :: k in changes ==> changes[k].after == Lookup(after, k);
    assert forall k :: k in before && k !in changes ==> Lookup(before, k) == Lookup(after, k);
  }

  /** Retention bookkeeping inside the commit: a run whose row is new or changed is stamped with the storage time and
      keeps its hold. */
  function Book(before: State, work: State, now: int): State {
    var saved := set k | k in work.Keys && k.RunKey? && Lookup(before, k) != Lookup(work, k) :: RetentionKey(k.id);
    map k | k in work.Keys + saved ::
      if k in saved
      then RetentionRow(now, k in work && work[k].RetentionRow? && work[k].held)
      else work[k]
  }

  /** The recorded event: what the transaction names, if it names anything. */
  function Named(event: Option<string>): string {
    if event.None? || event.value == "" then "state_change" else event.value
  }

  function Seal(hmac: Payload -> Tag, head: Head, before: State, after: State, event: Option<string>, context: Context): LedgerRow {
    var record := Record(head.sequence + 1, head.mac, context, Named(event), Diff(before, after), Sha256(after));
    LedgerRow(record.sequence, record, hmac(record))
  }

  /** A transaction of the audited connection that leaves the tables at `work`: verify on entry, bookkeeping, one
      record if anything changed or an event is to be logged. A store that does not verify is refused unchanged. */
  function Transact(hmac: Payload -> Tag, s: Store, work: State, event: Option<string>, context: Context): Store {
    match Verify(hmac, s)
    case None => s
    case Some(head) =>
      var after := Book(s.state, work, context.stamp);
      if after != s.state || event.Some?
      then Store(s.rows + [Seal(hmac, head, s.state, after, event, context)], after)
      else s
  }

  /** First use of an empty store; existing unsigned evidence is not certified. */
  function Genesis(hmac: Payload -> Tag, s: Store, context: Context): Store {
    if s.rows == [] && s.state == map[]
    then
      var record := Record(1, ZEROS, context, "genesis", map[], Sha256(map[]));
      Store([LedgerRow(1, record, hmac(record))], map[])
    else s
  }

  // -------------------------------------------------- what every commit keeps

  /** Each analysis run has exactly one retention row, and the other way round. */
  ghost predicate RunsRetained(s: State) {
    && (forall id :: RunKey(id) in s <==> RetentionKey(id) in s)
    && (forall id :: RetentionKey(id) in s ==> s[RetentionKey(id)].RetentionRow?)
    && (forall id :: RunKey(id) in s ==> s[RunKey(id)].RunRow?)
  }

  /** What the repository's ordinary writes do: any change of evidence rows, runs added or rewritten but never
      removed, retention rows left to the commit. */
  ghost predicate Ordinary(before: State, work: State) {
    && (forall id :: RunKey(id) in before ==> RunKey(id) in work)
    && (forall id :: RunKey(id) in work ==> work[RunKey(id)].RunRow?)
    && (forall id :: Lookup(work, RetentionKey(id)) == Lookup(before, RetentionKey(id)))
  }

  lemma BookedRow(before: State, work: State, now: int, id: string)
    ensures var after := Book(before, work, now);
      var wrote := RunKey(id) in work && Lookup(before, RunKey(id)) != Lookup(work, RunKey(id));
      var held := RetentionKey(id) in work && work[RetentionKey(id)].RetentionRow? && work[RetentionKey(id)].held;
      && Lookup(after, RunKey(id)) == Lookup(work, RunKey(id))
      && Lookup(after, RetentionKey(id)) == (if wrote then Some(RetentionRow(now, held)) else Lookup(work, RetentionKey(id)))
      && (forall t, i :: Lookup(after, EvidenceKey(t, i)) == Lookup(work, EvidenceKey(t, i)))
  {
    var saved := set k | k in work.Keys && k.RunKey? && Lookup(before, k) != Lookup(work, k) :: RetentionKey(k.id);
    if RunKey(id) in work && Lookup(before, RunKey(id)) != Lookup(work, RunKey(id)) {
      assert RetentionKey(RunKey(id).id) in saved;
    }
  }

  /** An ordinary transaction keeps runs and retention rows in step, never releases or takes a hold, and restamps
      exactly the runs whose row it wrote anew. */
  lemma OrdinaryCommit(before: State, work: State, now: int)
    requires RunsRetained(before) && Ordinary(before, work)
    ensures var after := Book(before, work, now);
      && RunsRetained(after)
      && (forall id :: RetentionKey(id) in before ==>
            && RetentionKey(id) in after
            && after[RetentionKey(id)].held == before[RetentionKey(id)].held
            && after[RetentionKey(id)].storedAt ==
                 if work[RunKey(id)] != before[RunKey(id)] then now else before[RetentionKey(id)].storedAt)
  {
    var after := Book(before, work, now);
    forall id ensures
      && (RunKey(id) in after <==> RetentionKey(id) in after)
      && (RetentionKey(id) in after ==> after[RetentionKey(id)].RetentionRow?)
      && (RunKey(id) in after ==> after[RunKey(id)].RunRow?)
    {
      BookedRow(before, work, now, id);
    }
    forall id | RetentionKey(id) in before ensures
      && RetentionKey(id) in after
      && after[RetentionKey(id)].held == before[RetentionKey(id)].held
      && after[RetentionKey(id)].storedAt ==
           if work[RunKey(id)] != before[RunKey(id)] then now else before[RetentionKey(id)].storedAt
    {
      BookedRow(before, work, now, id);
    }
  }

  /** Every transaction on a store that verifies leaves a store that verifies: the head's digest is the digest of
      the tables, bookkeeping included. */
  lemma TransactVerifies(hmac: Payload -> Tag, s: Store, work: State, event: Option<string>, context: Context)
    requires Verify(hmac, s).Some?
    ensures var t := Transact(hmac, s, work, event, context);
      && Verify(hmac, t).Some? && t.state == Book(s.state, work, context.stamp)
      && s.rows <= t.rows && |t.rows| == |s.rows| + (if t.state != s.state || event.Some? then 1 else 0)
  {
    var head := Verify(hmac, s).value;
    var after := Book(s.state, work, context.stamp);
    var row := Seal(hmac, head, s.state, after, event, context);
    var rows := s.rows + [row];
    forall i | 0 <= i < |rows| ensures RowGood(hmac, rows, i) {
      if i < |s.rows| {
        assert RowGood(hmac, s.rows, i);
      } else {
        assert RowGood(hmac, s.rows, i - 1);
      }
    }
  }

  lemma GenesisVerifies(hmac: Payload -> Tag, context: Context)
    ensures Verify(hmac, Genesis(hmac, Store([], map[]), context)).Some?
  {
    assert RowGood(hmac, Genesis(hmac, Store([], map[]), context).rows, 0);
  }
}
