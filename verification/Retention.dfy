/** Previewed deletion of completed run reports, inside audited transactions (src/aegisflow/audited_store.py). */
module Retention {
  import opened Records
  import opened Ledger
  import opened Ordering
  import Forks

  const LIMIT: nat := 500

  // -------------------------------------------------------- runs in text order

  ghost predicate IsFirst(ids: set<string>, first: string) {
    first in ids && forall id :: id in ids && id != first ==> Precedes(first, id)
  }

  lemma {:induction false} FirstExists(ids: set<string>) returns (first: string)
    requires ids != {}
    ensures IsFirst(ids, first)
    decreases |ids|
  {
    var some :| some in ids;
    var rest := ids - {some};
    assert forall id :: id in ids ==> id == some || id in rest;
    if rest == {} {
      first := some;
    } else {
      var other := FirstExists(rest);
      PrecedesTotal(some, other);
      first := if Precedes(some, other) then some else other;
      forall id | id in ids && id != first ensures Precedes(first, id) {
        if first == some && id != other {
          PrecedesTransitive(some, other, id);
        }
      }
    }
  }

  lemma FirstIsThere(ids: set<string>)
    requires ids != {}
    ensures exists first :: IsFirst(ids, first)
  {
    var first := FirstExists(ids);
  }

  ghost function First(ids: set<string>): (first: string)
    requires ids != {}
    ensures IsFirst(ids, first)
  {
    FirstIsThere(ids);
    var first :| IsFirst(ids, first);
    first
  }

  lemma FirstUnique(ids: set<string>, first: string)
    requires ids != {} && IsFirst(ids, first)
    ensures First(ids) == first
  {
    PrecedesTotal(First(ids), first);
  }

  /** The first n ids in text order. */
  ghost function FirstN(ids: set<string>, n: nat): (list: seq<string>)
    ensures |list| == (if |ids| < n then |ids| else n)
    decreases |ids|
  {
    if n == 0 || ids == {} then [] else [First(ids)] + FirstN(ids - {First(ids)}, n - 1)
  }

  lemma {:induction false} FirstNWithin(ids: set<string>, n: nat)
    ensures forall id :: id in FirstN(ids, n) ==> id in ids
    ensures |ids| <= n ==> forall id :: id in ids ==> id in FirstN(ids, n)
    ensures NoDuplicates(FirstN(ids, n))
    decreases |ids|
  {
    if n > 0 && ids != {} {
      FirstNWithin(ids - {First(ids)}, n - 1);
    }
  }

  // -------------------------------------------------------------- the plan

  /** The SQL filter: stored before the cutoff and not held. */
  predicate Unheld(s: State, before: int, id: string) {
    && RunKey(id) in s && s[RunKey(id)].RunRow?
    && RetentionKey(id) in s && s[RetentionKey(id)].RetentionRow?
    && s[RetentionKey(id)].storedAt < before && !s[RetentionKey(id)].held
  }

  predicate IsEligible(s: State, before: int, id: string) {
    Unheld(s, before, id) && s[RunKey(id)].completed
  }

  function Eligible(s: State, before: int): (ids: set<string>)
    ensures forall id :: id in ids <==> IsEligible(s, before, id)
  {
    var ids := set k | k in s.Keys && k.RunKey? && IsEligible(s, before, k.id) :: k.id;
    assert forall id :: IsEligible(s, before, id) ==> RunKey(id).id in ids;
    ids
  }

  /** The signed-off content of a preview; its SHA-256 stands for it. */
  datatype Plan = Plan(before: int, runIds: seq<string>, headMac: Tag)

  ghost function MakePlan(s: State, before: int, mac: Tag): Plan {
    Plan(before, FirstN(Eligible(s, before), LIMIT), mac)
  }

  /** The tables without the reports of these runs and their retention rows. */
  function Without(s: State, ids: set<string>): State {
    map k | k in s.Keys && !((k.RunKey? || k.RetentionKey?) && k.id in ids) :: s[k]
  }

  function Listed(ids: seq<string>): set<string> {
    set id | id in ids
  }

  // ---------------------------------------------------- the loops of a plan

  method TakeFirst(ids: set<string>) returns (first: string)
    requires ids != {}
    ensures IsFirst(ids, first)
  {
    first :| first in ids;
    var rest := ids - {first};
    while rest != {}
      invariant rest < ids && first in ids && first !in rest
      invariant forall id :: id in ids && id !in rest && id != first ==> Precedes(first, id)
      decreases |rest|
    {
      var id :| id in rest;
      rest := rest - {id};
      PrecedesTotal(id, first);
      if Precedes(id, first) {
        forall other | other in ids && other !in rest && other != id ensures Precedes(id, other) {
          if other != first {
            PrecedesTransitive(id, first, other);
          }
        }
        first := id;
      }
    }
  }

  /** What the cursor has still to deliver. */
  ghost function Left(s: State, before: int, todo: set<string>): set<string> {
    set id | id in todo && IsEligible(s, before, id)
  }

  ghost predicate Scanned(s: State, before: int, todo: set<string>, list: seq<string>) {
    && |list| <= LIMIT
    && FirstN(Eligible(s, before), LIMIT) == list + FirstN(Left(s, before, todo), LIMIT - |list|)
  }

  lemma FirstNStep(ids: set<string>, n: nat, first: string)
    requires n > 0 && ids != {} && IsFirst(ids, first)
    ensures FirstN(ids, n) == [first] + FirstN(ids - {first}, n - 1)
  {
    FirstUnique(ids, first);
  }

  lemma LeftStep(s: State, before: int, todo: set<string>, id: string)
    requires todo != {} && IsFirst(todo, id)
    ensures var left := Left(s, before, todo);
      && Left(s, before, todo - {id}) == left - {id}
      && (if IsEligible(s, before, id) then left != {} && IsFirst(left, id) else left - {id} == left)
  {
    var left := Left(s, before, todo);
    assert id in left <==> IsEligible(s, before, id);
  }

  lemma ScanTakes(s: State, before: int, todo: set<string>, list: seq<string>, id: string)
    requires Scanned(s, before, todo, list) && |list| < LIMIT && todo != {} && IsFirst(todo, id)
    requires IsEligible(s, before, id)
    ensures Scanned(s, before, todo - {id}, list + [id])
  {
    LeftStep(s, before, todo, id);
    var left, n := Left(s, before, todo), LIMIT - |list|;
    FirstNStep(left, n, id);
    assert LIMIT - |list + [id]| == n - 1;
    Regroup(FirstN(Eligible(s, before), LIMIT), list, id, FirstN(left - {id}, n - 1));
  }

  lemma Regroup(all: seq<string>, list: seq<string>, id: string, tail: seq<string>)
    requires all == list + ([id] + tail)
    ensures all == (list + [id]) + tail
  {
  }

  lemma ScanSkips(s: State, before: int, todo: set<string>, list: seq<string>, id: string)
    requires Scanned(s, before, todo, list) && todo != {} && IsFirst(todo, id)
    requires !IsEligible(s, before, id)
    ensures Scanned(s, before, todo - {id}, list)
  {
    LeftStep(s, before, todo, id);
  }

  /** Walk the unheld rows in text order, keep the completed ones, stop at the limit. */
  method Candidates(s: State, before: int) returns (list: seq<string>)
    ensures list == FirstN(Eligible(s, before), LIMIT)
  {
    var todo := set k | k in s.Keys && k.RunKey? && Unheld(s, before, k.id) :: k.id;
    list := [];
    assert forall id :: IsEligible(s, before, id) ==> RunKey(id).id in todo;
    assert Left(s, before, todo) == Eligible(s, before);
    while todo != {} && |list| < LIMIT
      invariant forall id :: id in todo ==> Unheld(s, before, id)
      invariant Scanned(s, before, todo, list)
      decreases |todo|
    {
      var id := TakeFirst(todo);
      if s[RunKey(id)].completed {
        ScanTakes(s, before, todo, list, id);
        list := list + [id];
      } else {
        ScanSkips(s, before, todo, list, id);
      }
      todo := todo - {id};
    }
    if todo == {} {
      assert Left(s, before, todo) == {};
    }
  }

  /** Two deletes for each listed run. */
  method DeleteRuns(s: State, ids: seq<string>) returns (work: State)
    ensures work == Without(s, Listed(ids))
  {
    work := s;
    for i := 0 to |ids|
      invariant work == Without(s, Listed(ids[..i]))
    {
      assert ids[..i + 1] == ids[..i] + [ids[i]];
      work := work - {RunKey(ids[i])};
      work := work - {RetentionKey(ids[i])};
    }
    assert ids[..|ids|] == ids;
  }

  /** A transaction that writes no run row books nothing. */
  lemma NothingBooked(before: State, work: State, now: int)
    requires forall id :: RunKey(id) in work ==> Lookup(work, RunKey(id)) == Lookup(before, RunKey(id))
    ensures Book(before, work, now) == work
  {
    forall k ensures k in Book(before, work, now) <==> k in work {
    }
  }

  // ------------------------------------------------------------ whole calls

  const APPLIED := "retention_applied"

  /** One preview applied at once. */
  ghost function Applied(hmac: Payload -> Tag, s: Store, before: int, context: Context): Store {
    Transact(hmac, s, Without(s.state, Listed(FirstN(Eligible(s.state, before), LIMIT))), Some(APPLIED), context)
  }

  lemma AppliedState(hmac: Payload -> Tag, s: Store, before: int, context: Context)
    requires Verify(hmac, s).Some? && RunsRetained(s.state)
    ensures var t := Applied(hmac, s, before, context);
      && t.state == Without(s.state, Listed(FirstN(Eligible(s.state, before), LIMIT)))
      && Verify(hmac, t).Some? && RunsRetained(t.state)
      && s.rows <= t.rows && |t.rows| == |s.rows| + 1
  {
    var work := Without(s.state, Listed(FirstN(Eligible(s.state, before), LIMIT)));
    NothingBooked(s.state, work, context.stamp);
    TransactVerifies(hmac, s, work, Some(APPLIED), context);
  }

  // ------------------------------------------------------- the audited store

  class AuditedStore {
    const hmac: Payload -> Tag
    var rows: seq<LedgerRow>
    var state: State

    function Now(): Store
      reads this
    {
      Store(rows, state)
    }

    /** The store verifies, and runs and retention rows are in step. */
    ghost predicate Sound()
      reads this
    {
      Verify(hmac, Now()).Some? && RunsRetained(state)
    }

    constructor (hmac: Payload -> Tag, context: Context)
      ensures this.hmac == hmac && Now() == Genesis(hmac, Store([], map[]), context)
      ensures Sound() && state == map[]
    {
      this.hmac := hmac;
      var record := Record(1, ZEROS, context, "genesis", map[], Sha256(map[]));
      rows := [LedgerRow(1, record, hmac(record))];
      state := map[];
      new;
      GenesisVerifies(hmac, context);
    }

    /** verify_connection, row by row. */
    method VerifyConnection() returns (r: Result<Head, string>)
      ensures r.Ok? <==> Verify(hmac, Now()).Some?
      ensures r.Ok? ==> Some(r.value) == Verify(hmac, Now())
    {
      var sequence, previous := 0, ZEROS;
      var expected: Option<StateDigest> := None;
      var i := 0;
      while i < |rows|
        invariant 0 <= i <= |rows| && sequence == i
        invariant forall k :: 0 <= k < i ==> RowGood(hmac, rows, k)
        invariant previous == (if i == 0 then ZEROS else rows[i - 1].mac)
        invariant i > 0 ==> rows[i - 1].payload.Record? && expected == Some(rows[i - 1].payload.state)
        invariant i == 0 ==> expected == None
      {
        var row := rows[i];
        if row.payload.OtherSigned? || row.sequence != sequence + 1 || row.payload.sequence != row.sequence
           || row.payload.previous != previous || hmac(row.payload) != row.mac {
          assert !RowGood(hmac, rows, i);
          return Err("Evidence audit chain verification failed");
        }
        assert RowGood(hmac, rows, i);
        sequence, previous, expected := row.sequence, row.mac, Some(row.payload.state);
        i := i + 1;
      }
      if expected != Some(Sha256(state)) {
        return Err("Evidence contents do not match the signed audit head");
      }
      assert ChainGood(hmac, rows) && RowGood(hmac, rows, |rows| - 1);
      r := Ok(Head(sequence, previous, Sha256(state)));
    }

    /** Leaving a transaction that was entered at `before` under `head` and has written `work`. */
    method Commit(head: Head, before: State, work: State, event: Option<string>, context: Context)
      requires Sound() && before == state && Verify(hmac, Now()) == Some(head)
      modifies this
      ensures Now() == Transact(hmac, old(Now()), work, event, context)
      ensures Verify(hmac, Now()).Some?
    {
      TransactVerifies(hmac, Now(), work, event, context);
      state := Book(before, work, context.stamp);
      if state != before || event.Some? {
        rows := rows + [Seal(hmac, head, before, state, event, context)];
      }
    }

    /** Imports, projections, reviews, feedback, run reports, runtime state: any ordinary write, as one transaction.
        `fails` is an exception on the way, which rolls everything back. */
    method Write(work: State, fails: bool, context: Context) returns (r: Result<(), string>)
      requires RunsRetained(state) && Ordinary(state, work)
      modifies this
      ensures r.Ok? <==> Verify(hmac, old(Now())).Some? && !fails
      ensures r.Ok? ==> Now() == Transact(hmac, old(Now()), work, None, context) && Sound()
      ensures r.Err? ==> Now() == old(Now())
    {
      var head := VerifyConnection();
      if head.Err? || fails {
        return Err("rolled back");
      }
      OrdinaryCommit(state, work, context.stamp);
      Commit(head.value, state, work, None, context);
      r := Ok(());
    }

    method SetRetentionHold(runId: string, held: bool, context: Context) returns (r: Result<(), string>)
      requires RunsRetained(state)
      modifies this
      ensures r.Ok? <==> Verify(hmac, old(Now())).Some? && RunKey(runId) in old(state)
      ensures r.Err? ==> Now() == old(Now())
      ensures r.Ok? ==> Sound() && |rows| == |old(rows)| + 1
      ensures r.Ok? ==> RetentionKey(runId) in state && state[RetentionKey(runId)].RetentionRow?
      ensures r.Ok? ==> state == old(state)[RetentionKey(runId) := RetentionRow(state[RetentionKey(runId)].storedAt, held)]
      ensures r.Ok? ==> Some(state[RetentionKey(runId)].(held := old(state)[RetentionKey(runId)].held)) == Lookup(old(state), RetentionKey(runId))
    {
      var head := VerifyConnection();
      if head.Err? || RunKey(runId) !in state {
        return Err("unknown run");
      }
      var work := state[RetentionKey(runId) := state[RetentionKey(runId)].(held := held)];
      NothingBooked(state, work, context.stamp);
      TransactVerifies(hmac, Now(), work, Some("retention_hold"), context);
      Commit(head.value, state, work, Some("retention_hold"), context);
      r := Ok(());
    }

    /** _retention_plan: the eligible runs in text order, five hundred at most. */
    method RetentionPlan(before: int, now: int) returns (r: Result<Plan, string>)
      requires RunsRetained(state)
      ensures r.Ok? <==> Verify(hmac, Now()).Some? && 0 < before <= now
      ensures r.Ok? ==> r.value == MakePlan(state, before, Verify(hmac, Now()).value.mac)
    {
      var head := VerifyConnection();
      if head.Err? || before <= 0 || before > now {
        return Err("Retention cutoff must be a finite past Unix timestamp");
      }
      var candidates := Candidates(state, before);
      r := Ok(Plan(before, candidates, head.value.mac));
    }

    /** apply_retention: recompute the plan, refuse a stale one, delete what it lists, log the event. */
    method ApplyRetention(plan: Plan, before: int, context: Context) returns (r: Result<seq<string>, string>)
      requires RunsRetained(state)
      modifies this
      ensures r.Ok? <==> Verify(hmac, old(Now())).Some? && 0 < before <= context.stamp
                         && plan == MakePlan(old(state), before, Verify(hmac, old(Now())).value.mac)
      ensures r.Err? ==> Now() == old(Now())
      ensures r.Ok? ==> r.value == plan.runIds && Now() == Applied(hmac, old(Now()), before, context)
      ensures r.Ok? ==> Sound() && state == Without(old(state), Listed(plan.runIds))
    {
      var head := VerifyConnection();
      if head.Err? {
        return Err("not verified");
      }
      var present := RetentionPlan(before, context.stamp);
      if present.Err? || present.value != plan {
        return Err("Retention plan is stale or changed; preview again");
      }
      AppliedState(hmac, Now(), before, context);
      var work := DeleteRuns(state, plan.runIds);
      Commit(head.value, state, work, Some(APPLIED), context);
      r := Ok(plan.runIds);
    }
  }

  // ------------------------------------------------------------- the promises

  /** The eligible runs, on the rows' own fields. */
  lemma EligibleIs(s: State, before: int, id: string)
    ensures id in Eligible(s, before) <==>
              && RunKey(id) in s && s[RunKey(id)].RunRow? && s[RunKey(id)].completed
              && RetentionKey(id) in s && s[RetentionKey(id)].RetentionRow?
              && s[RetentionKey(id)].storedAt < before && !s[RetentionKey(id)].held
  {
  }

  /** What a preview offers: only completed, unheld runs stored before the cutoff, in strictly ascending order, and
      all of them unless the limit of five hundred is reached. */
  lemma PreviewIsConservative(s: State, before: int, mac: Tag)
    ensures var ids := MakePlan(s, before, mac).runIds;
      && (forall id :: id in ids ==> IsEligible(s, before, id))
      && Ascending(ids)
      && (|ids| < LIMIT ==> Listed(ids) == Eligible(s, before))
      && (|ids| == LIMIT ==> forall id :: IsEligible(s, before, id) && id !in ids ==> Precedes(ids[LIMIT - 1], id))
  {
    FirstNAscending(Eligible(s, before), LIMIT);
    var ids := FirstN(Eligible(s, before), LIMIT);
    FirstNShort(Eligible(s, before), LIMIT);
    forall id | |ids| == LIMIT && id in Eligible(s, before) && id !in ids ensures Precedes(ids[LIMIT - 1], id) {
      FirstNBelow(Eligible(s, before), LIMIT, id);
    }
  }

  /** The same on the rows' own fields: every listed run is completed and unheld and was stored before the cutoff, and
      below the limit every such run is listed. */
  lemma PreviewListsRows(s: State, before: int, mac: Tag, id: string)
    ensures var ids := MakePlan(s, before, mac).runIds;
      var due :=
        && RunKey(id) in s && s[RunKey(id)].RunRow? && s[RunKey(id)].completed
        && RetentionKey(id) in s && s[RetentionKey(id)].RetentionRow?
        && s[RetentionKey(id)].storedAt < before && !s[RetentionKey(id)].held;
      |ids| <= 500 && (id in ids ==> due) && (|ids| < 500 && due ==> id in ids)
  {
    PreviewIsConservative(s, before, mac);
    EligibleIs(s, before, id);
    var ids := MakePlan(s, before, mac).runIds;
    assert id in Listed(ids) <==> id in ids;
  }

  /** A plan made at one store is accepted at another that verifies exactly when it is the same store: any record
      committed in between, whatever it changed, makes the plan stale. */
  lemma AcceptedIffNothingCommitted(hmac: Payload -> Tag, preview: Store, present: Store, before: int)
    requires Injective(hmac) && Verify(hmac, preview).Some? && Verify(hmac, present).Some?
    ensures var made, found := Verify(hmac, preview).value.mac, Verify(hmac, present).value.mac;
      MakePlan(preview.state, before, made) == MakePlan(present.state, before, found) <==> preview == present
  {
    Forks.HeadPinsStore(hmac, preview, present);
  }

  /** Preview and apply, again and again, until a preview lists nothing. */
  ghost function Drain(hmac: Payload -> Tag, s: Store, before: int, context: Context): Store
    requires Verify(hmac, s).Some? && RunsRetained(s.state)
    decreases |Eligible(s.state, before)|
  {
    if Eligible(s.state, before) == {} then s
    else
      var t := Applied(hmac, s, before, context);
      AppliedState(hmac, s, before, context);
      AppliedShrinks(hmac, s, before, context);
      Drain(hmac, t, before, context)
  }

  lemma AppliedShrinks(hmac: Payload -> Tag, s: Store, before: int, context: Context)
    requires Verify(hmac, s).Some? && RunsRetained(s.state) && Eligible(s.state, before) != {}
    ensures var rest := Eligible(Applied(hmac, s, before, context).state, before); var all := Eligible(s.state, before);
      && rest == all - Listed(FirstN(all, LIMIT)) && |rest| < |all|
      && |rest| == (if |all| <= LIMIT then 0 else |all| - LIMIT)
  {
    AppliedState(hmac, s, before, context);
    var all := Eligible(s.state, before);
    var gone := Listed(FirstN(all, LIMIT));
    FirstNWithin(all, LIMIT);
    ListedSize(FirstN(all, LIMIT));
    EligibleWithout(s.state, before, gone);
    DifferenceSize(all, gone);
  }

  lemma EligibleWithout(s: State, before: int, gone: set<string>)
    ensures Eligible(Without(s, gone), before) == Eligible(s, before) - gone
  {
    forall id ensures IsEligible(Without(s, gone), before, id) <==> IsEligible(s, before, id) && id !in gone {
    }
  }

  lemma DifferenceSize(all: set<string>, part: set<string>)
    requires part <= all
    ensures |all - part| == |all| - |part|
  {
    assert all == (all - part) + part;
  }

  /** The rounds terminate and delete exactly the runs eligible at the start, with nothing else touched, in one
      ledger record for each five hundred. */
  lemma {:induction false} DrainDeletesExactlyTheEligible(hmac: Payload -> Tag, s: Store, before: int, context: Context)
    requires Verify(hmac, s).Some? && RunsRetained(s.state)
    ensures var t := Drain(hmac, s, before, context);
      && t.state == Without(s.state, Eligible(s.state, before))
      && Verify(hmac, t).Some? && RunsRetained(t.state)
      && |t.rows| == |s.rows| + (|Eligible(s.state, before)| + LIMIT - 1) / LIMIT
    decreases |Eligible(s.state, before)|
  {
    var all := Eligible(s.state, before);
    if all == {} {
      assert Without(s.state, {}) == s.state;
    } else {
      var t := Applied(hmac, s, before, context);
      AppliedState(hmac, s, before, context);
      AppliedShrinks(hmac, s, before, context);
      DrainDeletesExactlyTheEligible(hmac, t, before, context);
      var gone := Listed(FirstN(all, LIMIT));
      GoneWithin(all, LIMIT);
      WithoutTwice(s.state, gone, all);
      Rounds(|all|);
    }
  }

  lemma GoneWithin(ids: set<string>, n: nat)
    ensures Listed(FirstN(ids, n)) <= ids
  {
    FirstNWithin(ids, n);
  }

  lemma Rounds(n: nat)
    requires n > 0
    ensures (n + LIMIT - 1) / LIMIT == 1 + ((if n <= LIMIT then 0 else n - LIMIT) + LIMIT - 1) / LIMIT
  {
  }

  lemma WithoutTwice(s: State, part: set<string>, all: set<string>)
    requires part <= all
    ensures Without(Without(s, part), all - part) == Without(s, all)
  {
  }

  lemma {:induction false} ListedSize(ids: seq<string>)
    requires NoDuplicates(ids)
    ensures |Listed(ids)| == |ids|
  {
    if ids == [] {
    } else {
      var n := |ids| - 1;
      ListedSize(ids[..n]);
      assert Listed(ids) == Listed(ids[..n]) + {ids[n]};
    }
  }

  predicate Ascending(list: seq<string>) {
    forall i, j :: 0 <= i < j < |list| ==> Precedes(list[i], list[j])
  }

  lemma AscendingCons(first: string, tail: seq<string>)
    requires Ascending(tail) && forall id :: id in tail ==> Precedes(first, id)
    ensures Ascending([first] + tail)
  {
    var list := [first] + tail;
    forall i, j | 0 <= i < j < |list| ensures Precedes(list[i], list[j]) {
      assert list[j] == tail[j - 1];
      if i > 0 { assert list[i] == tail[i - 1]; }
    }
  }

  lemma {:induction false} FirstNAscending(ids: set<string>, n: nat)
    ensures Ascending(FirstN(ids, n)) && forall id :: id in FirstN(ids, n) ==> id in ids
    decreases |ids|
  {
    if n > 0 && ids != {} {
      var first := First(ids);
      FirstNAscending(ids - {first}, n - 1);
      AscendingCons(first, FirstN(ids - {first}, n - 1));
    }
  }

  lemma {:induction false} FirstNShort(ids: set<string>, n: nat)
    ensures |FirstN(ids, n)| < n ==> Listed(FirstN(ids, n)) == ids
    decreases |ids|
  {
    if n > 0 && ids != {} {
      var first := First(ids);
      FirstNShort(ids - {first}, n - 1);
      ListedCons(first, FirstN(ids - {first}, n - 1));
    }
  }

  lemma {:induction false} FirstNBelow(ids: set<string>, n: nat, id: string)
    requires |FirstN(ids, n)| == n > 0 && id in ids && id !in FirstN(ids, n)
    ensures Precedes(FirstN(ids, n)[n - 1], id)
    decreases |ids|
  {
    var first := First(ids);
    if n > 1 {
      FirstNBelow(ids - {first}, n - 1, id);
    }
  }

  lemma ListedCons(first: string, tail: seq<string>)
    ensures Listed([first] + tail) == {first} + Listed(tail)
  {
  }
}
