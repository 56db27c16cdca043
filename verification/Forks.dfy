/** What verification establishes when copies of the store can be rolled back, forked and edited at will by someone
    without the key (src/aegisflow/audited_store.py). */
module Forks {
  import opened Records
  import opened Ledger

  /** `issued` holds every payload the key holder ever authenticated; stores are told apart by a name. */
  datatype World = World(issued: set<Payload>, stores: map<string, Store>)

  datatype Step =
    | Create(name: string, context: Context)
    | Work(name: string, work: State, event: Option<string>, context: Context)
    | SignOther(version: string, text: string)
    | Replace(name: string, store: Store)

  const NOTHING: World := World({}, map[])

  /** Without the key nobody can make a valid MAC for a payload that was never issued. */
  ghost predicate Unforged(hmac: Payload -> Tag, issued: set<Payload>, rows: seq<LedgerRow>) {
    forall i :: 0 <= i < |rows| && rows[i].mac == hmac(rows[i].payload) ==> rows[i].payload in issued
  }

  /** The record a transaction appended, if it appended one. */
  function Appended(before: Store, after: Store): set<Payload> {
    if |after.rows| > |before.rows| then {after.rows[|after.rows| - 1].payload} else {}
  }

  ghost function Apply(hmac: Payload -> Tag, w: World, step: Step): World {
    match step
    case Create(name, context) =>
      if name in w.stores then w
      else
        var s := Genesis(hmac, Store([], map[]), context);
        World(w.issued + Appended(Store([], map[]), s), w.stores[name := s])
    case Work(name, work, event, context) =>
      if name !in w.stores then w
      else
        var s := Transact(hmac, w.stores[name], work, event, context);
        World(w.issued + Appended(w.stores[name], s), w.stores[name := s])
    case SignOther(version, text) => World(w.issued + {OtherSigned(version, text)}, w.stores)
    case Replace(name, store) =>
      if Unforged(hmac, w.issued, store.rows) then World(w.issued, w.stores[name := store]) else w
  }

  ghost function Run(hmac: Payload -> Tag, steps: seq<Step>): World {
    if steps == [] then NOTHING else Apply(hmac, Run(hmac, steps[..|steps| - 1]), steps[|steps| - 1])
  }

  // ------------------------------------------------------- issued records

  ghost predicate Parent(hmac: Payload -> Tag, issued: set<Payload>, p: Payload, r: Payload) {
    && p in issued && p.Record? && r.Record?
    && r.sequence == p.sequence + 1 && p.sequence >= 1 && r.previous == hmac(p)
    && r.changes == Diff(p.state.state, r.state.state)
  }

  ghost predicate HasParent(hmac: Payload -> Tag, issued: set<Payload>, r: Payload) {
    exists p :: Parent(hmac, issued, p, r)
  }

  predicate IsRoot(r: Payload) {
    r.Record? && r.sequence == 1 && r.previous == ZEROS && r.changes == map[] && r.state == Sha256(map[])
  }

  /** Every issued record stands at the root over empty tables, or right behind an issued parent whose tables its
      change set turns into its own. */
  ghost predicate AllRooted(hmac: Payload -> Tag, issued: set<Payload>) {
    forall r :: r in issued && r.Record? ==> IsRoot(r) || HasParent(hmac, issued, r)
  }

  ghost predicate AllUnforged(hmac: Payload -> Tag, w: World) {
    forall name :: name in w.stores ==> Unforged(hmac, w.issued, w.stores[name].rows)
  }

  ghost predicate Inv(hmac: Payload -> Tag, w: World) {
    AllRooted(hmac, w.issued) && AllUnforged(hmac, w)
  }

  lemma IssueKeepsRooted(hmac: Payload -> Tag, issued: set<Payload>, r: Payload)
    requires AllRooted(hmac, issued) && (r.Record? ==> IsRoot(r) || HasParent(hmac, issued, r))
    ensures AllRooted(hmac, issued + {r})
  {
    forall q | q in issued + {r} && HasParent(hmac, issued, q) ensures HasParent(hmac, issued + {r}, q) {
      var p :| Parent(hmac, issued, p, q);
      assert Parent(hmac, issued + {r}, p, q);
    }
  }

  /** The last row of a chain that verifies was issued, with the present tables. */
  lemma HeadIssued(hmac: Payload -> Tag, issued: set<Payload>, s: Store)
    requires Verify(hmac, s).Some? && Unforged(hmac, issued, s.rows)
    ensures var last := s.rows[|s.rows| - 1];
      && last.payload in issued && last.payload.Record? && last.mac == hmac(last.payload)
      && last.payload.sequence == last.sequence == |s.rows| && last.payload.state == Sha256(s.state)
  {
    assert RowGood(hmac, s.rows, |s.rows| - 1);
  }

  /** The record a commit appends is a child of the one at its head. */
  lemma SealedOnHead(hmac: Payload -> Tag, issued: set<Payload>, s: Store, after: State, event: Option<string>, context: Context)
    requires Verify(hmac, s).Some? && Unforged(hmac, issued, s.rows)
    ensures HasParent(hmac, issued, Seal(hmac, Verify(hmac, s).value, s.state, after, event, context).payload)
  {
    HeadIssued(hmac, issued, s);
    var row := Seal(hmac, Verify(hmac, s).value, s.state, after, event, context);
    assert Parent(hmac, issued, s.rows[|s.rows| - 1].payload, row.payload);
  }

  /** Issuing one more record and putting it at the end of a store. */
  lemma IssueKeepsInv(hmac: Payload -> Tag, w: World, name: string, rows: seq<LedgerRow>, row: LedgerRow, after: State)
    requires Inv(hmac, w) && Unforged(hmac, w.issued, rows)
    requires row.payload.Record? ==> IsRoot(row.payload) || HasParent(hmac, w.issued, row.payload)
    ensures Inv(hmac, World(w.issued + {row.payload}, w.stores[name := Store(rows + [row], after)]))
  {
    IssueKeepsRooted(hmac, w.issued, row.payload);
  }

  lemma WorkKeepsInv(hmac: Payload -> Tag, w: World, name: string, work: State, event: Option<string>, context: Context)
    requires Inv(hmac, w) && name in w.stores
    ensures Inv(hmac, Apply(hmac, w, Work(name, work, event, context)))
  {
    var s := w.stores[name];
    var t := Transact(hmac, s, work, event, context);
    if t != s {
      var row := t.rows[|s.rows|];
      SealedOnHead(hmac, w.issued, s, t.state, event, context);
      IssueKeepsInv(hmac, w, name, s.rows, row, t.state);
      assert t == Store(s.rows + [row], t.state);
      assert Appended(s, t) == {row.payload};
    } else {
      assert w.issued + Appended(s, t) == w.issued;
      assert w.stores[name := t] == w.stores;
    }
  }

  lemma CreateKeepsInv(hmac: Payload -> Tag, w: World, name: string, context: Context)
    requires Inv(hmac, w) && name !in w.stores
    ensures Inv(hmac, Apply(hmac, w, Create(name, context)))
  {
    var s := Genesis(hmac, Store([], map[]), context);
    IssueKeepsInv(hmac, w, name, [], s.rows[0], map[]);
    assert [] + [s.rows[0]] == s.rows;
  }

  lemma StepKeepsInv(hmac: Payload -> Tag, w: World, step: Step)
    requires Inv(hmac, w)
    ensures Inv(hmac, Apply(hmac, w, step))
  {
    match step
    case Create(name, context) => if name !in w.stores { CreateKeepsInv(hmac, w, name, context); }
    case Work(name, work, event, context) => if name in w.stores { WorkKeepsInv(hmac, w, name, work, event, context); }
    case SignOther(version, text) => IssueKeepsRooted(hmac, w.issued, OtherSigned(version, text));
    case Replace(_, _) =>
  }

  lemma {:induction false} EveryRunKeepsInv(hmac: Payload -> Tag, steps: seq<Step>)
    ensures Inv(hmac, Run(hmac, steps))
  {
    if steps == [] {
    } else {
      EveryRunKeepsInv(hmac, steps[..|steps| - 1]);
      StepKeepsInv(hmac, Run(hmac, steps[..|steps| - 1]), steps[|steps| - 1]);
    }
  }

  // ------------------------------------------------------------- soundness

  /** Rows that walk the issued records from a root: each row is an issued record with its MAC, and each record's
      parent is the row before it. */
  ghost predicate RootPath(hmac: Payload -> Tag, issued: set<Payload>, rows: seq<LedgerRow>) {
    && rows != []
    && (forall i :: 0 <= i < |rows| ==>
          && rows[i].payload in issued && rows[i].payload.Record?
          && rows[i].mac == hmac(rows[i].payload) && rows[i].sequence == rows[i].payload.sequence)
    && rows[0].payload.sequence == 1
    && (forall i :: 0 < i < |rows| ==> Parent(hmac, issued, rows[i - 1].payload, rows[i].payload))
  }

  /** The recorded change sets replayed from empty tables. */
  function Replayed(rows: seq<LedgerRow>): State {
    if rows == [] then map[]
    else
      var before := Replayed(rows[..|rows| - 1]);
      var last := rows[|rows| - 1].payload;
      if last.Record? then Patch(before, last.changes) else before
  }

  lemma ChainIsRootPath(hmac: Payload -> Tag, issued: set<Payload>, rows: seq<LedgerRow>)
    requires Injective(hmac) && rows != [] && ChainGood(hmac, rows) && Unforged(hmac, issued, rows)
    requires AllRooted(hmac, issued)
    ensures RootPath(hmac, issued, rows)
  {
    forall i | 0 <= i < |rows|
      ensures rows[i].payload in issued && rows[i].payload.Record?
      ensures rows[i].mac == hmac(rows[i].payload) && rows[i].sequence == rows[i].payload.sequence
      ensures i > 0 ==> Parent(hmac, issued, rows[i - 1].payload, rows[i].payload)
    {
      assert RowGood(hmac, rows, i);
      if i > 0 {
        assert RowGood(hmac, rows, i - 1);
        var p :| Parent(hmac, issued, p, rows[i].payload);
        assert hmac(p) == hmac(rows[i - 1].payload);
      }
    }
    assert RowGood(hmac, rows, 0);
  }

  lemma {:induction false} PathReplays(hmac: Payload -> Tag, issued: set<Payload>, rows: seq<LedgerRow>)
    requires RootPath(hmac, issued, rows)
    requires AllRooted(hmac, issued)
    ensures Sha256(Replayed(rows)) == rows[|rows| - 1].payload.state
  {
    var n := |rows| - 1;
    if n == 0 {
      assert Replayed(rows[..0]) == map[];
    } else {
      PathReplays(hmac, issued, rows[..n]);
      assert Parent(hmac, issued, rows[n - 1].payload, rows[n].payload);
      PatchDiff(rows[n - 1].payload.state.state, rows[n].payload.state.state);
    }
  }

  /** After any history of honest work, copies, rollbacks, forks and edits: a store verifies exactly when its rows
      are a root-to-node path of records that were really issued and its tables are those recorded at that node. An
      accepted ledger's change sets, replayed from nothing, then give the tables. */
  lemma VerifyAcceptsExactlyIssuedPaths(hmac: Payload -> Tag, steps: seq<Step>, name: string)
    requires Injective(hmac)
    ensures var w := Run(hmac, steps);
      name in w.stores ==>
        var s := w.stores[name];
        && (Verify(hmac, s).Some? <==> (RootPath(hmac, w.issued, s.rows) && s.rows[|s.rows| - 1].payload.state == Sha256(s.state)))
        && (Verify(hmac, s).Some? ==> Replayed(s.rows) == s.state)
  {
    var w := Run(hmac, steps);
    EveryRunKeepsInv(hmac, steps);
    if name in w.stores {
      var s := w.stores[name];
      if Verify(hmac, s).Some? {
        ChainIsRootPath(hmac, w.issued, s.rows);
        PathReplays(hmac, w.issued, s.rows);
      }
      if RootPath(hmac, w.issued, s.rows) {
        PathIsChain(hmac, w.issued, s.rows);
      }
    }
  }

  lemma {:induction false} PathIsChain(hmac: Payload -> Tag, issued: set<Payload>, rows: seq<LedgerRow>)
    requires RootPath(hmac, issued, rows)
    requires AllRooted(hmac, issued)
    ensures ChainGood(hmac, rows)
  {
    PathNumbered(hmac, issued, rows);
    forall i | 0 <= i < |rows| ensures RowGood(hmac, rows, i) {
      if i > 0 {
        assert Parent(hmac, issued, rows[i - 1].payload, rows[i].payload);
      }
    }
  }

  lemma {:induction false} PathNumbered(hmac: Payload -> Tag, issued: set<Payload>, rows: seq<LedgerRow>)
    requires RootPath(hmac, issued, rows)
    ensures forall i :: 0 <= i < |rows| ==> rows[i].payload.sequence == i + 1
  {
    var n := |rows| - 1;
    if n > 0 {
      PathNumbered(hmac, issued, rows[..n]);
      assert Parent(hmac, issued, rows[n - 1].payload, rows[n].payload);
    }
  }

  // ---------------------------------------------------- one head, one history

  lemma {:induction false} SameHeadSameRows(hmac: Payload -> Tag, a: seq<LedgerRow>, b: seq<LedgerRow>)
    requires Injective(hmac) && ChainGood(hmac, a) && ChainGood(hmac, b) && a != [] && b != []
    requires a[|a| - 1].mac == b[|b| - 1].mac
    ensures a == b
    decreases |a|
  {
    var n, k := |a| - 1, |b| - 1;
    assert RowGood(hmac, a, n) && RowGood(hmac, b, k);
    assert a[n].payload == b[k].payload;
    if n > 0 {
      assert forall i :: 0 <= i < n ==> (RowGood(hmac, a, i) ==> RowGood(hmac, a[..n], i));
      assert forall i :: 0 <= i < k ==> (RowGood(hmac, b, i) ==> RowGood(hmac, b[..k], i));
      SameHeadSameRows(hmac, a[..n], b[..k]);
      assert a == a[..n] + [a[n]] && b == b[..k] + [b[k]];
    }
  }

  /** Two accepted stores with the same head MAC have the same history and the same tables: an independently retained
      head pins exactly one store, and rolling back or forking shows as another head. */
  lemma HeadPinsStore(hmac: Payload -> Tag, a: Store, b: Store)
    requires Injective(hmac) && Verify(hmac, a).Some? && Verify(hmac, b).Some?
    ensures Verify(hmac, a).value.mac == Verify(hmac, b).value.mac <==> a == b
  {
    if Verify(hmac, a).value.mac == Verify(hmac, b).value.mac {
      SameHeadSameRows(hmac, a.rows, b.rows);
    }
  }

  /** Without a retained head, rollback goes unseen: whatever a store once held, ledger and tables, can be put back
      under any name at any later time, and then verifies as it did before. */
  lemma RollbackGoesUnseen(hmac: Payload -> Tag, steps: seq<Step>, past: nat, name: string, target: string)
    requires past <= |steps| && name in Run(hmac, steps[..past]).stores
    ensures var before := Run(hmac, steps[..past]).stores[name]; var w := Run(hmac, steps + [Replace(target, before)]);
      target in w.stores && w.stores[target] == before
  {
    var before := Run(hmac, steps[..past]).stores[name];
    UnforgedLater(hmac, steps, past, name);
    PutBack(hmac, Run(hmac, steps), target, before);
    LastStep(hmac, steps, Replace(target, before));
  }

  lemma PutBack(hmac: Payload -> Tag, w: World, target: string, store: Store)
    requires Unforged(hmac, w.issued, store.rows)
    ensures var w' := Apply(hmac, w, Replace(target, store)); target in w'.stores && w'.stores[target] == store
  {
  }

  lemma LastStep(hmac: Payload -> Tag, steps: seq<Step>, step: Step)
    ensures Run(hmac, steps + [step]) == Apply(hmac, Run(hmac, steps), step)
  {
    assert (steps + [step])[..|steps|] == steps;
  }

  lemma UnforgedLater(hmac: Payload -> Tag, steps: seq<Step>, past: nat, name: string)
    requires past <= |steps| && name in Run(hmac, steps[..past]).stores
    ensures Unforged(hmac, Run(hmac, steps).issued, Run(hmac, steps[..past]).stores[name].rows)
  {
    EveryRunKeepsInv(hmac, steps[..past]);
    IssuedGrows(hmac, steps, past);
    var rows := Run(hmac, steps[..past]).stores[name].rows;
    assert Unforged(hmac, Run(hmac, steps[..past]).issued, rows);
  }

  lemma {:induction false} IssuedGrows(hmac: Payload -> Tag, steps: seq<Step>, past: nat)
    requires past <= |steps|
    ensures Run(hmac, steps[..past]).issued <= Run(hmac, steps).issued
  {
    if past == |steps| {
      assert steps[..past] == steps;
    } else {
      var init := steps[..|steps| - 1];
      IssuedGrows(hmac, init, past);
      assert init[..past] == steps[..past];
    }
  }
}
