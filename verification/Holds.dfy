/** Whole histories of the signed store: ordinary writes, logged events, holds, retention and rolled-back transactions
    (src/aegisflow/audited_store.py). */
module Holds {
  import opened Records
  import opened Ledger
  import opened Retention

  datatype Op =
    | Wrote(work: State, context: Context)
    | Logged(event: string, context: Context)
    | Held(runId: string, held: bool, context: Context)
    | Retained(before: int, context: Context)
    | RolledBack

  function WithHold(s: State, runId: string, held: bool): State
    requires RetentionKey(runId) in s && s[RetentionKey(runId)].RetentionRow?
  {
    s[RetentionKey(runId) := s[RetentionKey(runId)].(held := held)]
  }

  ghost predicate Sound(hmac: Payload -> Tag, s: Store) {
    Verify(hmac, s).Some? && RunsRetained(s.state)
  }

  /** One call on the repository; a call that is refused changes nothing. */
  ghost function Did(hmac: Payload -> Tag, s: Store, op: Op): Store
    requires Sound(hmac, s)
  {
    match op
    case Wrote(work, context) => if Ordinary(s.state, work) then Transact(hmac, s, work, None, context) else s
    case Logged(event, context) => Transact(hmac, s, s.state, Some(event), context)
    case Held(runId, held, context) =>
      if RunKey(runId) in s.state then Transact(hmac, s, WithHold(s.state, runId, held), Some("retention_hold"), context) else s
    case Retained(before, context) => Applied(hmac, s, before, context)
    case RolledBack => s
  }

  lemma HoldKeepsSound(hmac: Payload -> Tag, s: Store, runId: string, held: bool, context: Context)
    requires Sound(hmac, s) && RunKey(runId) in s.state
    ensures var t := Transact(hmac, s, WithHold(s.state, runId, held), Some("retention_hold"), context);
      Sound(hmac, t) && t.state == WithHold(s.state, runId, held)
  {
    var work := WithHold(s.state, runId, held);
    NothingBooked(s.state, work, context.stamp);
    TransactVerifies(hmac, s, work, Some("retention_hold"), context);
  }

  /** Logging an event adds one record and leaves the tables alone. */
  lemma LogKeepsState(hmac: Payload -> Tag, s: Store, event: string, context: Context)
    requires Sound(hmac, s)
    ensures var t := Transact(hmac, s, s.state, Some(event), context);
      Sound(hmac, t) && t.state == s.state && s.rows <= t.rows && |t.rows| == |s.rows| + 1
  {
    NothingBooked(s.state, s.state, context.stamp);
    TransactVerifies(hmac, s, s.state, Some(event), context);
  }

  lemma StepKeepsSound(hmac: Payload -> Tag, s: Store, op: Op)
    requires Sound(hmac, s)
    ensures Sound(hmac, Did(hmac, s, op)) && s.rows <= Did(hmac, s, op).rows
  {
    match op
    case Wrote(work, context) =>
      if Ordinary(s.state, work) {
        OrdinaryCommit(s.state, work, context.stamp);
        TransactVerifies(hmac, s, work, None, context);
      }
    case Logged(event, context) => LogKeepsState(hmac, s, event, context);
    case Held(runId, held, context) =>
      if RunKey(runId) in s.state { HoldKeepsSound(hmac, s, runId, held, context); }
    case Retained(before, context) => AppliedState(hmac, s, before, context);
    case RolledBack =>
  }

  ghost function History(hmac: Payload -> Tag, s: Store, ops: seq<Op>): (t: Store)
    requires Sound(hmac, s)
    ensures Sound(hmac, t) && s.rows <= t.rows
  {
    if ops == [] then s
    else
      var before := History(hmac, s, ops[..|ops| - 1]);
      StepKeepsSound(hmac, before, ops[|ops| - 1]);
      Did(hmac, before, ops[|ops| - 1])
  }

  /** After any history from first use on, the store verifies: the head record's digest is that of the present tables,
      and runs and retention rows have the same ids; no record is ever lost. */
  lemma EveryHistoryVerifies(hmac: Payload -> Tag, context: Context, ops: seq<Op>)
    ensures var s := Genesis(hmac, Store([], map[]), context);
      && Sound(hmac, s)
      && var t := History(hmac, s, ops);
         && Verify(hmac, t).Some? && Verify(hmac, t).value.state == Sha256(t.state)
         && RunsRetained(t.state) && s.rows <= t.rows
  {
    GenesisVerifies(hmac, context);
  }

  // ------------------------------------------------------------------ holds

  ghost predicate IsHeld(s: State, runId: string) {
    && RunKey(runId) in s && RetentionKey(runId) in s
    && s[RetentionKey(runId)].RetentionRow? && s[RetentionKey(runId)].held
  }

  predicate Releases(op: Op, runId: string) {
    op.Held? && op.runId == runId && !op.held
  }

  lemma WriteKeepsHeld(hmac: Payload -> Tag, s: Store, work: State, context: Context, runId: string)
    requires Sound(hmac, s) && IsHeld(s.state, runId) && Ordinary(s.state, work)
    ensures IsHeld(Transact(hmac, s, work, None, context).state, runId)
  {
    OrdinaryCommit(s.state, work, context.stamp);
    TransactVerifies(hmac, s, work, None, context);
  }

  lemma RetentionKeepsHeld(hmac: Payload -> Tag, s: Store, before: int, context: Context, runId: string)
    requires Sound(hmac, s) && IsHeld(s.state, runId)
    ensures IsHeld(Applied(hmac, s, before, context).state, runId)
  {
    AppliedState(hmac, s, before, context);
    FirstNWithin(Eligible(s.state, before), LIMIT);
    assert !IsEligible(s.state, before, runId);
  }

  lemma StepKeepsHeld(hmac: Payload -> Tag, s: Store, op: Op, runId: string)
    requires Sound(hmac, s) && IsHeld(s.state, runId) && !Releases(op, runId)
    ensures IsHeld(Did(hmac, s, op).state, runId)
  {
    StepKeepsSound(hmac, s, op);
    match op
    case Wrote(work, context) =>
      if Ordinary(s.state, work) { WriteKeepsHeld(hmac, s, work, context, runId); }
    case Logged(event, context) => LogKeepsState(hmac, s, event, context);
    case Held(other, held, context) =>
      if RunKey(other) in s.state { HoldKeepsSound(hmac, s, other, held, context); }
    case Retained(before, context) => RetentionKeepsHeld(hmac, s, before, context, runId);
    case RolledBack =>
  }

  /** A held run survives every history until its own hold is released: no re-save, no other hold and no retention,
      whatever its cutoff, removes it or its hold. */
  lemma {:induction false} HeldRunsSurvive(hmac: Payload -> Tag, s: Store, ops: seq<Op>, runId: string)
    requires Sound(hmac, s) && IsHeld(s.state, runId)
    requires forall i :: 0 <= i < |ops| ==> !Releases(ops[i], runId)
    ensures IsHeld(History(hmac, s, ops).state, runId)
  {
    if ops == [] {
    } else {
      HeldRunsSurvive(hmac, s, ops[..|ops| - 1], runId);
      StepKeepsHeld(hmac, History(hmac, s, ops[..|ops| - 1]), ops[|ops| - 1], runId);
    }
  }

  // ------------------------------------------------------- young runs stay

  /** Stored at the cutoff or later. */
  ghost predicate IsYoung(s: State, runId: string, cutoff: int) {
    && RunKey(runId) in s && RetentionKey(runId) in s
    && s[RetentionKey(runId)].RetentionRow? && s[RetentionKey(runId)].storedAt >= cutoff
  }

  /** No retention up to a later cutoff, and no write stamped before it. */
  predicate Spares(op: Op, cutoff: int) {
    (op.Retained? ==> op.before <= cutoff) && (op.Wrote? ==> op.context.stamp >= cutoff)
  }

  lemma WriteKeepsYoung(hmac: Payload -> Tag, s: Store, work: State, context: Context, runId: string, cutoff: int)
    requires Sound(hmac, s) && IsYoung(s.state, runId, cutoff) && Ordinary(s.state, work) && context.stamp >= cutoff
    ensures IsYoung(Transact(hmac, s, work, None, context).state, runId, cutoff)
  {
    OrdinaryCommit(s.state, work, context.stamp);
    TransactVerifies(hmac, s, work, None, context);
  }

  lemma RetentionKeepsYoung(hmac: Payload -> Tag, s: Store, before: int, context: Context, runId: string, cutoff: int)
    requires Sound(hmac, s) && IsYoung(s.state, runId, cutoff) && before <= cutoff
    ensures IsYoung(Applied(hmac, s, before, context).state, runId, cutoff)
  {
    AppliedState(hmac, s, before, context);
    FirstNWithin(Eligible(s.state, before), LIMIT);
    EligibleIs(s.state, before, runId);
  }

  lemma StepKeepsYoung(hmac: Payload -> Tag, s: Store, op: Op, runId: string, cutoff: int)
    requires Sound(hmac, s) && IsYoung(s.state, runId, cutoff) && Spares(op, cutoff)
    ensures IsYoung(Did(hmac, s, op).state, runId, cutoff)
  {
    match op
    case Wrote(work, context) =>
      if Ordinary(s.state, work) { WriteKeepsYoung(hmac, s, work, context, runId, cutoff); }
    case Logged(event, context) => LogKeepsState(hmac, s, event, context);
    case Held(other, held, context) =>
      if RunKey(other) in s.state { HoldKeepsSound(hmac, s, other, held, context); }
    case Retained(before, context) => RetentionKeepsYoung(hmac, s, before, context, runId, cutoff);
    case RolledBack =>
  }

  /** A run stored at or after every cutoff used survives every history, held or not. */
  lemma {:induction false} YoungRunsSurvive(hmac: Payload -> Tag, s: Store, ops: seq<Op>, runId: string, cutoff: int)
    requires Sound(hmac, s) && IsYoung(s.state, runId, cutoff)
    requires forall i :: 0 <= i < |ops| ==> Spares(ops[i], cutoff)
    ensures IsYoung(History(hmac, s, ops).state, runId, cutoff)
  {
    if ops == [] {
    } else {
      YoungRunsSurvive(hmac, s, ops[..|ops| - 1], runId, cutoff);
      StepKeepsYoung(hmac, History(hmac, s, ops[..|ops| - 1]), ops[|ops| - 1], runId, cutoff);
    }
  }

  /** A run that a transaction writes anew is stored as of that transaction: its retention row shows the time, and a
      new run is not held. */
  lemma WrittenRunIsStamped(hmac: Payload -> Tag, s: Store, work: State, context: Context, runId: string)
    requires Sound(hmac, s) && Ordinary(s.state, work)
    requires RunKey(runId) in work && Lookup(work, RunKey(runId)) != Lookup(s.state, RunKey(runId))
    ensures var t := Did(hmac, s, Wrote(work, context)).state;
      && Lookup(t, RunKey(runId)) == Lookup(work, RunKey(runId))
      && RetentionKey(runId) in t && t[RetentionKey(runId)].RetentionRow? && t[RetentionKey(runId)].storedAt == context.stamp
      && (RunKey(runId) !in s.state ==> !t[RetentionKey(runId)].held)
  {
    TransactVerifies(hmac, s, work, None, context);
    BookedRow(s.state, work, context.stamp, runId);
    assert Lookup(work, RetentionKey(runId)) == Lookup(s.state, RetentionKey(runId));
  }

  /** A hold moves one flag and nothing else; the record of it stands even if the flag was so before. */
  lemma HoldMovesOneFlag(hmac: Payload -> Tag, s: Store, runId: string, held: bool, context: Context)
    requires Sound(hmac, s) && RunKey(runId) in s.state
    ensures var t := Did(hmac, s, Held(runId, held, context));
      && |t.rows| == |s.rows| + 1 && t.state.Keys == s.state.Keys
      && (forall k :: k in s.state && k != RetentionKey(runId) ==> t.state[k] == s.state[k])
      && t.state[RetentionKey(runId)] == RetentionRow(s.state[RetentionKey(runId)].storedAt, held)
  {
    HoldKeepsSound(hmac, s, runId, held, context);
    TransactVerifies(hmac, s, WithHold(s.state, runId, held), Some("retention_hold"), context);
  }

  /** The first record of every history: begun by this actor, over empty tables, with no predecessor. */
  lemma FirstRecordIsGenesis(hmac: Payload -> Tag, context: Context, ops: seq<Op>)
    ensures var s := Genesis(hmac, Store([], map[]), context);
      && Sound(hmac, s) && History(hmac, s, ops).rows != []
      && History(hmac, s, ops).rows[0].payload == Record(1, 0, context, "genesis", map[], Sha256(map[]))
      && History(hmac, s, ops).rows[0].mac == hmac(Record(1, 0, context, "genesis", map[], Sha256(map[])))
  {
    GenesisVerifies(hmac, context);
  }

  /** A row is as it was. */
  predicate Same(t: State, s: State, k: RowKey) {
    Lookup(t, k) == Lookup(s, k)
  }

  lemma WithoutListed(s: State, ids: seq<string>, t: State, id: string)
    requires t == Without(s, Listed(ids))
    ensures forall table, i :: Same(t, s, EvidenceKey(table, i))
    ensures id in ids ==> RunKey(id) !in t && RetentionKey(id) !in t
    ensures id !in ids ==> Same(t, s, RunKey(id)) && Same(t, s, RetentionKey(id))
  {
  }

  /** Retention removes a run and its retention row together, only for completed, unheld runs stored before the
      cutoff, and leaves every other row as it is: incidents, alerts, feedback and the other runs. */
  lemma RetentionTouchesNothingElse(hmac: Payload -> Tag, s: Store, before: int, context: Context, t: State, id: string)
    requires Sound(hmac, s) && t == Did(hmac, s, Retained(before, context)).state
    ensures forall table, i :: Same(t, s.state, EvidenceKey(table, i))
    ensures var run, kept := RunKey(id), RetentionKey(id);
      || (Same(t, s.state, run) && Same(t, s.state, kept))
      || (run !in t && kept !in t && run in s.state && s.state[run].RunRow? && s.state[run].completed
          && kept in s.state && s.state[kept].RetentionRow? && !s.state[kept].held && s.state[kept].storedAt < before)
  {
    var ids := FirstN(Eligible(s.state, before), LIMIT);
    AppliedState(hmac, s, before, context);
    WithoutListed(s.state, ids, t, id);
    FirstNWithin(Eligible(s.state, before), LIMIT);
    EligibleIs(s.state, before, id);
  }

  // -------------------------------------------------- what the records say

  /** Who did it, when and under which operation. */
  function ContextOf(op: Op): Context
    requires !op.RolledBack?
  {
    op.context
  }

  function EventOf(op: Op): string {
    match op
    case Wrote(_, _) => "state_change"
    case Logged(event, _) => if event == "" then "state_change" else event
    case Held(_, _, _) => "retention_hold"
    case Retained(_, _) => "retention_applied"
    case RolledBack => ""
  }

  /** A change set names exactly the rows that differ, each as it was and as it is. */
  ghost predicate Exactly(changes: Changes, before: State, after: State) {
    && (forall k :: k in changes <==> Lookup(before, k) != Lookup(after, k))
    && (forall k :: k in changes ==> changes[k].before == Lookup(before, k) && changes[k].after == Lookup(after, k))
  }

  lemma DiffIsExact(before: State, after: State)
    ensures Exactly(Diff(before, after), before, after)
  {
  }

  /** The record of an operation: its context and event, exactly the change from the tables before to the tables
      after, in its place in the chain. */
  ghost predicate Tells(row: LedgerRow, op: Op, before: Store, after: Store) {
    && !op.RolledBack? && row.payload.Record?
    && row.payload.context == ContextOf(op) && row.payload.event == EventOf(op)
    && Exactly(row.payload.changes, before.state, after.state) && row.payload.state == Sha256(after.state)
    && after.rows == before.rows + [row]
  }

  lemma TransactTells(hmac: Payload -> Tag, s: Store, work: State, event: Option<string>, context: Context, t: Store)
    requires Verify(hmac, s).Some? && t == Transact(hmac, s, work, event, context)
    ensures t == s || (t.rows != [] && var row := t.rows[|t.rows| - 1];
              && t.rows == s.rows + [row] && row.payload.Record? && row.payload.context == context
              && row.payload.event == Named(event)
              && Exactly(row.payload.changes, s.state, t.state) && row.payload.state == Sha256(t.state))
  {
    DiffIsExact(s.state, Book(s.state, work, context.stamp));
  }

  /** One operation changes nothing or appends the record that tells it. */
  lemma StepTells(hmac: Payload -> Tag, s: Store, op: Op, t: Store)
    requires Sound(hmac, s) && t == Did(hmac, s, op)
    ensures t == s || (t.rows != [] && Tells(t.rows[|t.rows| - 1], op, s, t))
  {
    match op
    case Wrote(work, context) =>
      if Ordinary(s.state, work) { TransactTells(hmac, s, work, None, context, t); }
    case Logged(event, context) => TransactTells(hmac, s, s.state, Some(event), context, t);
    case Held(runId, held, context) =>
      if RunKey(runId) in s.state {
        TransactTells(hmac, s, WithHold(s.state, runId, held), Some("retention_hold"), context, t);
      }
    case Retained(before, context) =>
      TransactTells(hmac, s, Without(s.state, Listed(FirstN(Eligible(s.state, before), LIMIT))), Some("retention_applied"), context, t);
    case RolledBack =>
  }

  /** Record i of the history is the one that operation k appended. */
  ghost predicate ToldBy(hmac: Payload -> Tag, s: Store, ops: seq<Op>, i: nat, k: nat)
    requires Sound(hmac, s)
  {
    && k < |ops| && i == |History(hmac, s, ops[..k]).rows| < |History(hmac, s, ops).rows|
    && Tells(History(hmac, s, ops).rows[i], ops[k], History(hmac, s, ops[..k]), History(hmac, s, ops[..k + 1]))
  }

  lemma ToldStays(hmac: Payload -> Tag, s: Store, ops: seq<Op>, i: nat, k: nat)
    requires Sound(hmac, s) && ops != [] && ToldBy(hmac, s, ops[..|ops| - 1], i, k)
    ensures ToldBy(hmac, s, ops, i, k)
  {
    var init := ops[..|ops| - 1];
    assert init[..k] == ops[..k] && init[..k + 1] == ops[..k + 1];
    StepKeepsSound(hmac, History(hmac, s, init), ops[|ops| - 1]);
  }

  /** Every record that a history appends tells the operation that made it: actor, operation name, time, event and
      exactly the change. */
  lemma {:induction false} EveryRecordTellsItsOperation(hmac: Payload -> Tag, s: Store, ops: seq<Op>, i: nat) returns (k: nat)
    requires Sound(hmac, s) && |s.rows| <= i < |History(hmac, s, ops).rows|
    ensures ToldBy(hmac, s, ops, i, k)
  {
    var n := |ops| - 1;
    var before, after := History(hmac, s, ops[..n]), History(hmac, s, ops);
    if i < |before.rows| {
      k := EveryRecordTellsItsOperation(hmac, s, ops[..n], i);
      ToldStays(hmac, s, ops, i, k);
    } else {
      k := n;
      StepTells(hmac, before, ops[n], after);
      assert ops[..n + 1] == ops;
    }
  }
}
