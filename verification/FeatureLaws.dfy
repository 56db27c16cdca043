/** What holds of the feature extractor after any traffic (src/aegisflow/passive_features.py). */
module FeatureLaws {
  import opened Records
  import opened Quartiles
  import opened Features

  datatype Step = Step(session: Session, allowSupplied: bool)

  function Run(c: Config, steps: seq<Step>): State
    requires Accepted(c)
  {
    if steps == [] then EMPTY
    else
      var n := |steps| - 1;
      Enrich(c, Run(c, steps[..n]), steps[n].session, steps[n].allowSupplied)
  }

  // ------------------------------------------------------------------- bounds

  ghost predicate DistinctIdentities(history: seq<Item>) {
    forall i, j :: 0 <= i < j < |history| ==> history[i].identity != history[j].identity
  }

  ghost predicate HistoryFine(c: Config, history: seq<Item>) {
    && |history| <= c.maximumHistory && DistinctIdentities(history)
    && forall i :: 0 <= i < |history| && history[i].vectors.Some? ==> Shaped(history[i].vectors.value)
  }

  ghost predicate Bounded(c: Config, s: State) {
    && |s.order| <= c.maximumCohorts && NoDuplicates(s.order)
    && (forall k :: k in s.histories <==> k in s.order)
    && (forall k :: k in s.histories ==> HistoryFine(c, s.histories[k]))
    && s.counts.observations == s.counts.derived + s.counts.supplied + s.counts.insufficient
  }

  lemma {:induction false} RecentIsSuffix(history: seq<Item>, cutoff: Time) returns (k: nat)
    ensures k <= |history| && Recent(history, cutoff) == history[k..]
    ensures k < |history| ==> cutoff <= history[k].timestamp
    ensures forall i :: 0 <= i < k ==> history[i].timestamp < cutoff
  {
    if history != [] && history[0].timestamp < cutoff {
      var rest := RecentIsSuffix(history[1..], cutoff);
      k := rest + 1;
    } else {
      k := 0;
    }
  }

  lemma RecentFine(c: Config, history: seq<Item>, cutoff: Time)
    requires HistoryFine(c, history)
    ensures HistoryFine(c, Recent(history, cutoff))
  {
    var k := RecentIsSuffix(history, cutoff);
  }

  lemma LearnFine(c: Config, history: seq<Item>, e: Session, allowSupplied: bool)
    requires Accepted(c) && HistoryFine(c, history)
    ensures HistoryFine(c, Learn(c, history, Judge(c, history, e, allowSupplied)))
  {
    var v := Judge(c, history, e, allowSupplied);
    if v.learned.Some? {
      PushFine(c, history, v.learned.value);
    }
  }

  lemma PushFine(c: Config, history: seq<Item>, item: Item)
    requires HistoryFine(c, history) && !Known(history, item.identity) && (item.vectors.Some? ==> Shaped(item.vectors.value))
    ensures HistoryFine(c, Push(history, item, c.maximumHistory))
  {
    var longer := history + [item];
    forall i, j | 0 <= i < j < |longer| ensures longer[i].identity != longer[j].identity {
    }
  }

  lemma {:induction false} RemoveKeeps(order: seq<Cohort>, k: Cohort)
    requires NoDuplicates(order)
    ensures NoDuplicates(Remove(order, k)) && forall x :: x in Remove(order, k) <==> x in order && x != k
    ensures |Remove(order, k)| == if k in order then |order| - 1 else |order|
  {
    if order != [] && order[0] != k {
      RemoveKeeps(order[1..], k);
      assert order == [order[0]] + order[1..];
      assert order[0] !in order[1..];
      var rest := Remove(order[1..], k);
      assert forall i :: 0 <= i < |rest| ==> rest[i] in rest && rest[i] != order[0];
    }
  }

  lemma TouchBounded(c: Config, s: State, k: Cohort)
    requires Accepted(c) && Bounded(c, s)
    ensures var t := Touch(c, s, k);
      && |t.order| <= c.maximumCohorts && NoDuplicates(t.order)
      && (forall x :: x in t.histories <==> x in t.order) && k in t.histories
      && (forall x :: x in t.histories ==> HistoryFine(c, t.histories[x]))
      && (forall x :: x in t.histories && x != k ==> x in s.histories && t.histories[x] == s.histories[x])
      && t.counts.(evicted := 0) == s.counts.(evicted := 0)
  {
    if k in s.histories {
      RemoveKeeps(s.order, k);
    } else if |s.order| >= c.maximumCohorts {
      assert forall x :: x in s.order[1..] <==> x in s.order && x != s.order[0];
    }
  }

  lemma EnrichBounded(c: Config, s: State, e: Session, allowSupplied: bool)
    requires Accepted(c) && Bounded(c, s)
    ensures Bounded(c, Enrich(c, s, e, allowSupplied))
  {
    TouchBounded(c, s, CohortOf(e));
    var before := if CohortOf(e) in s.histories then s.histories[CohortOf(e)] else [];
    assert HistoryFine(c, before);
    RecentFine(c, before, e.timestamp - c.historyLength);
    LearnFine(c, HistoryFor(c, s, e), e, allowSupplied);
  }

  /** After any traffic: at most the allowed cohorts, each with at most the allowed history in which no session
      occurs twice; and every observation was counted as derived, supplied or insufficient. */
  lemma {:induction false} EveryRunIsBounded(c: Config, steps: seq<Step>)
    requires Accepted(c)
    ensures Bounded(c, Run(c, steps)) && Run(c, steps).counts.observations == |steps|
  {
    if steps == [] {
    } else {
      var n := |steps| - 1;
      EveryRunIsBounded(c, steps[..n]);
      TouchBounded(c, Run(c, steps[..n]), CohortOf(steps[n].session));
      EnrichBounded(c, Run(c, steps[..n]), steps[n].session, steps[n].allowSupplied);
    }
  }

  // ---------------------------------------------------- least recently used

  /** The cohorts seen, by last use. */
  function LastUse(steps: seq<Step>): seq<Cohort> {
    if steps == [] then []
    else Remove(LastUse(steps[..|steps| - 1]), CohortOf(steps[|steps| - 1].session)) + [CohortOf(steps[|steps| - 1].session)]
  }

  function LastN(s: seq<Cohort>, n: nat): seq<Cohort> {
    if |s| <= n then s else s[|s| - n..]
  }

  lemma {:induction false} LastUseDistinct(steps: seq<Step>)
    ensures NoDuplicates(LastUse(steps))
  {
    if steps == [] {
    } else {
      LastUseDistinct(steps[..|steps| - 1]);
      RemoveKeeps(LastUse(steps[..|steps| - 1]), CohortOf(steps[|steps| - 1].session));
    }
  }

  lemma {:induction false} RemoveSplit(a: seq<Cohort>, b: seq<Cohort>, k: Cohort)
    ensures k !in a ==> Remove(a + b, k) == a + Remove(b, k)
    ensures k in a ==> Remove(a + b, k) == Remove(a, k) + b
  {
    if a == [] {
      assert a + b == b;
    } else {
      assert (a + b)[1..] == a[1..] + b;
      if a[0] != k {
        RemoveSplit(a[1..], b, k);
      }
    }
  }

  /** Keeping the last n of the use order is the same whether older cohorts were dropped before or not. */
  lemma CapStep(use: seq<Cohort>, k: Cohort, n: nat)
    requires NoDuplicates(use) && n >= 1
    ensures var kept := LastN(use, n);
      LastN(Remove(use, k) + [k], n) ==
        if k in kept then Remove(kept, k) + [k] else (if |kept| >= n then kept[1..] else kept) + [k]
  {
    var kept := LastN(use, n);
    var older := use[..|use| - |kept|];
    assert use == older + kept;
    if k in kept {
      NotInBoth(older, kept, k);
      CapKept(older, kept, k, n);
    } else if k in older {
      assert NoDuplicates(older);
      CapOlder(older, kept, k, n);
    } else {
      CapNew(use, k, n);
    }
  }

  lemma NotInBoth(older: seq<Cohort>, kept: seq<Cohort>, k: Cohort)
    requires NoDuplicates(older + kept) && k in kept
    ensures k !in older && NoDuplicates(kept)
  {
    var all := older + kept;
    assert forall i :: 0 <= i < |kept| ==> kept[i] == all[|older| + i];
    assert forall i :: 0 <= i < |older| ==> older[i] == all[i];
  }

  lemma CapNew(use: seq<Cohort>, k: Cohort, n: nat)
    requires k !in use && n >= 1
    ensures var kept := LastN(use, n); LastN(Remove(use, k) + [k], n) == (if |kept| >= n then kept[1..] else kept) + [k]
  {
    NotThere(use, k);
    if |use| >= n {
      var from := |use| - n;
      assert use[from..][1..] == use[from + 1..];
      assert (use + [k])[from + 1..] == use[from + 1..] + [k];
    }
  }

  lemma CapKept(older: seq<Cohort>, kept: seq<Cohort>, k: Cohort, n: nat)
    requires NoDuplicates(kept) && k in kept && k !in older && |kept| <= n && (older != [] ==> |kept| == n)
    ensures LastN(Remove(older + kept, k) + [k], n) == Remove(kept, k) + [k]
  {
    RemoveSplit(older, kept, k);
    RemoveKeeps(kept, k);
    assert older + Remove(kept, k) + [k] == older + (Remove(kept, k) + [k]);
  }

  lemma CapOlder(older: seq<Cohort>, kept: seq<Cohort>, k: Cohort, n: nat)
    requires NoDuplicates(older) && k in older && |kept| == n >= 1
    ensures LastN(Remove(older + kept, k) + [k], n) == kept[1..] + [k]
  {
    RemoveSplit(older, kept, k);
    RemoveKeeps(older, k);
    assert Remove(older, k) + kept + [k] == Remove(older, k) + (kept + [k]);
  }

  lemma {:induction false} NotThere(s: seq<Cohort>, k: Cohort)
    requires k !in s
    ensures Remove(s, k) == s
  {
    if s == [] {
    } else {
      NotThere(s[1..], k);
    }
  }

  /** The cohorts kept are always the most recently used ones, in the order of their last use. */
  lemma {:induction false} KeptAreMostRecentlyUsed(c: Config, steps: seq<Step>)
    requires Accepted(c)
    ensures Run(c, steps).order == LastN(LastUse(steps), c.maximumCohorts)
  {
    if steps == [] {
    } else {
      var n := |steps| - 1;
      KeptAreMostRecentlyUsed(c, steps[..n]);
      EveryRunIsBounded(c, steps[..n]);
      LastUseDistinct(steps[..n]);
      CapStep(LastUse(steps[..n]), CohortOf(steps[n].session), c.maximumCohorts);
    }
  }

  // --------------------------------------------------------------- isolation

  function Only(steps: seq<Step>, k: Cohort): seq<Step> {
    if steps == [] then []
    else
      var n := |steps| - 1;
      if CohortOf(steps[n].session) == k then Only(steps[..n], k) + [steps[n]] else Only(steps[..n], k)
  }

  function HistoryOf(s: State, k: Cohort): seq<Item> {
    if k in s.histories then s.histories[k] else []
  }

  /** Among the most recently used, as many as are kept. */
  predicate Present(c: Config, steps: seq<Step>, k: Cohort) {
    k in LastN(LastUse(steps), c.maximumCohorts)
  }

  /** The cohort's sessions since it entered last, or none if it has been displaced since. */
  function Tenure(c: Config, steps: seq<Step>, k: Cohort): seq<Step> {
    if steps == [] || !Present(c, steps, k) then []
    else
      var n := |steps| - 1;
      if CohortOf(steps[n].session) == k then Tenure(c, steps[..n], k) + [steps[n]] else Tenure(c, steps[..n], k)
  }

  lemma PresentIsKept(c: Config, steps: seq<Step>, k: Cohort)
    requires Accepted(c)
    ensures Present(c, steps, k) <==> k in Run(c, steps).histories
  {
    KeptAreMostRecentlyUsed(c, steps);
    EveryRunIsBounded(c, steps);
  }

  /** A session sees and changes its own cohort's history only. */
  lemma OwnStep(c: Config, s: State, own: State, e: Session, allowSupplied: bool)
    requires Accepted(c) && HistoryOf(s, CohortOf(e)) == HistoryOf(own, CohortOf(e))
    ensures HistoryOf(Enrich(c, s, e, allowSupplied), CohortOf(e)) == HistoryOf(Enrich(c, own, e, allowSupplied), CohortOf(e))
  {
    assert HistoryFor(c, s, e) == HistoryFor(c, own, e);
  }

  lemma OtherStep(c: Config, s: State, e: Session, allowSupplied: bool, k: Cohort)
    requires Accepted(c) && Bounded(c, s) && CohortOf(e) != k && k in Enrich(c, s, e, allowSupplied).histories
    ensures k in s.histories && HistoryOf(Enrich(c, s, e, allowSupplied), k) == HistoryOf(s, k)
  {
    TouchBounded(c, s, CohortOf(e));
  }

  lemma RunSnoc(c: Config, steps: seq<Step>, last: Step)
    requires Accepted(c)
    ensures Run(c, steps + [last]) == Enrich(c, Run(c, steps), last.session, last.allowSupplied)
  {
    assert (steps + [last])[..|steps|] == steps;
  }

  /** A cohort's history is what its own sessions since its last entry would leave if there were no other traffic:
      other cohorts decide by their use when it is displaced, and nothing else about it. */
  lemma {:induction false} CohortsAreIsolated(c: Config, steps: seq<Step>, k: Cohort)
    requires Accepted(c)
    ensures HistoryOf(Run(c, steps), k) == HistoryOf(Run(c, Tenure(c, steps, k)), k)
  {
    PresentIsKept(c, steps, k);
    if steps != [] && Present(c, steps, k) {
      var n := |steps| - 1;
      var s, last := Run(c, steps[..n]), steps[n];
      CohortsAreIsolated(c, steps[..n], k);
      if CohortOf(last.session) == k {
        var own := Tenure(c, steps[..n], k);
        RunSnoc(c, own, last);
        OwnStep(c, s, Run(c, own), last.session, last.allowSupplied);
      } else {
        EveryRunIsBounded(c, steps[..n]);
        OtherStep(c, s, last.session, last.allowSupplied, k);
      }
    }
  }

  lemma {:induction false} UsedIffAny(steps: seq<Step>, k: Cohort)
    ensures k in LastUse(steps) <==> Only(steps, k) != []
  {
    if steps == [] {
    } else {
      var n := |steps| - 1;
      UsedIffAny(steps[..n], k);
      LastUseDistinct(steps[..n]);
      RemoveKeeps(LastUse(steps[..n]), CohortOf(steps[n].session));
    }
  }

  lemma FewerBefore(steps: seq<Step>)
    requires steps != []
    ensures |LastUse(steps[..|steps| - 1])| <= |LastUse(steps)|
  {
    LastUseDistinct(steps[..|steps| - 1]);
    RemoveKeeps(LastUse(steps[..|steps| - 1]), CohortOf(steps[|steps| - 1].session));
  }

  /** As long as no more cohorts were seen than are kept, those are all its sessions. */
  lemma {:induction false} TenureIsAll(c: Config, steps: seq<Step>, k: Cohort)
    requires |LastUse(steps)| <= c.maximumCohorts
    ensures Tenure(c, steps, k) == Only(steps, k)
  {
    UsedIffAny(steps, k);
    if steps != [] && Present(c, steps, k) {
      FewerBefore(steps);
      TenureIsAll(c, steps[..|steps| - 1], k);
    }
  }

  /** A verdict depends on the session itself and on the sessions of its cohort since that entered last, and on
      nothing else. */
  lemma VerdictsAreCausal(c: Config, steps: seq<Step>, other: seq<Step>, e: Session, allowSupplied: bool)
    requires Accepted(c) && Tenure(c, steps, CohortOf(e)) == Tenure(c, other, CohortOf(e))
    ensures VerdictOn(c, Run(c, steps), e, allowSupplied) == VerdictOn(c, Run(c, other), e, allowSupplied)
  {
    CohortsAreIsolated(c, steps, CohortOf(e));
    CohortsAreIsolated(c, other, CohortOf(e));
  }

  // ------------------------------------------------------------ event time

  ghost predicate TimeOrdered(steps: seq<Step>) {
    forall i, j :: 0 <= i < j < |steps| ==> steps[i].session.timestamp <= steps[j].session.timestamp
  }

  ghost predicate InOrder(history: seq<Item>, now: Time) {
    && (forall i, j :: 0 <= i < j < |history| ==> history[i].timestamp <= history[j].timestamp)
    && (forall i :: 0 <= i < |history| ==> history[i].timestamp <= now)
  }

  ghost predicate AllInOrder(s: State, now: Time) {
    forall k :: k in s.histories ==> InOrder(s.histories[k], now)
  }

  lemma RecentInOrder(history: seq<Item>, now: Time, length: Time)
    requires InOrder(history, now)
    ensures var h := Recent(history, now - length); InOrder(h, now) && forall i :: 0 <= i < |h| ==> now - length <= h[i].timestamp
  {
    var k := RecentIsSuffix(history, now - length);
  }

  lemma PushInOrder(history: seq<Item>, item: Item, limit: nat)
    requires InOrder(history, item.timestamp)
    ensures InOrder(Push(history, item, limit), item.timestamp)
  {
    var longer := history + [item];
    assert InOrder(longer, item.timestamp);
  }

  lemma HistoryInOrder(c: Config, s: State, e: Session)
    requires AllInOrder(s, e.timestamp)
    ensures var h := HistoryFor(c, s, e);
      InOrder(h, e.timestamp) && forall i :: 0 <= i < |h| ==> e.timestamp - c.historyLength <= h[i].timestamp
  {
    RecentInOrder(HistoryOf(s, CohortOf(e)), e.timestamp, c.historyLength);
  }

  lemma StepInOrder(c: Config, s: State, e: Session, allowSupplied: bool)
    requires Accepted(c) && Bounded(c, s) && AllInOrder(s, e.timestamp)
    ensures AllInOrder(Enrich(c, s, e, allowSupplied), e.timestamp)
  {
    TouchBounded(c, s, CohortOf(e));
    HistoryInOrder(c, s, e);
    var v := VerdictOn(c, s, e, allowSupplied);
    if v.learned.Some? {
      PushInOrder(HistoryFor(c, s, e), v.learned.value, c.maximumHistory);
    }
  }

  lemma LaterInOrder(s: State, now: Time, later: Time)
    requires AllInOrder(s, now) && now <= later
    ensures AllInOrder(s, later)
  {
    forall k | k in s.histories ensures InOrder(s.histories[k], later) {
      assert InOrder(s.histories[k], now);
    }
  }

  lemma {:induction false} RunInOrder(c: Config, steps: seq<Step>, now: Time)
    requires Accepted(c) && TimeOrdered(steps) && (steps != [] ==> steps[|steps| - 1].session.timestamp <= now)
    ensures AllInOrder(Run(c, steps), now)
  {
    if steps == [] {
    } else {
      var n := |steps| - 1;
      RunInOrder(c, steps[..n], steps[n].session.timestamp);
      EveryRunIsBounded(c, steps[..n]);
      StepInOrder(c, Run(c, steps[..n]), steps[n].session, steps[n].allowSupplied);
      LaterInOrder(Run(c, steps), steps[n].session.timestamp, now);
    }
  }

  /** Over sessions in time order, each is compared with sessions of the preceding history length only, none later
      than itself. */
  lemma BaselinesAreRecentPast(c: Config, steps: seq<Step>, e: Session)
    requires Accepted(c) && TimeOrdered(steps + [Step(e, false)])
    ensures var h := HistoryFor(c, Run(c, steps), e);
      forall i :: 0 <= i < |h| ==> e.timestamp - c.historyLength <= h[i].timestamp <= e.timestamp
  {
    var all := steps + [Step(e, false)];
    assert forall i :: 0 <= i < |steps| ==> all[i] == steps[i];
    assert all[|steps|].session == e;
    RunInOrder(c, steps, e.timestamp);
    HistoryInOrder(c, Run(c, steps), e);
  }

  // ---------------------------------------------------------------- learning

  lemma Enriched(c: Config, s: State, e: Session, allowSupplied: bool, history: seq<Item>, v: Verdict)
    requires Accepted(c) && history == HistoryFor(c, s, e) && v == VerdictOn(c, s, e, allowSupplied)
    ensures HistoryOf(Enrich(c, s, e, allowSupplied), CohortOf(e)) == Learn(c, history, v)
  {
  }

  lemma HistoryIsRecent(c: Config, s: State, e: Session)
    ensures HistoryFor(c, s, e) == Recent(HistoryOf(s, CohortOf(e)), e.timestamp - c.historyLength)
  {
  }

  /** Both scores are there and one of them is at the ceiling or above. */
  predicate Suspicious(c: Config, v: Verdict) {
    v.sizeScore.Some? && v.timingScore.Some? && (v.sizeScore.value >= c.ceiling || v.timingScore.value >= c.ceiling)
  }

  /** A session enters its cohort's baseline exactly if it is no duplicate and was not scored at the ceiling or
      above; otherwise the history only ages. */
  lemma LearnedIffSafe(c: Config, s: State, e: Session, allowSupplied: bool)
    requires Accepted(c) && Bounded(c, s)
    ensures var v := VerdictOn(c, s, e, allowSupplied);
      var before, after := HistoryFor(c, s, e), Enrich(c, s, e, allowSupplied).histories[CohortOf(e)];
      var suspicious := Suspicious(c, v);
      && (Known(after, e.identity) <==> (v.duplicate || !suspicious))
      && (v.duplicate || suspicious ==> after == before)
  {
    var v := VerdictOn(c, s, e, allowSupplied);
    Enriched(c, s, e, allowSupplied, HistoryFor(c, s, e), v);
    LearnedItem(c, s, e, allowSupplied, v);
    LearnedIsKnown(c, HistoryFor(c, s, e), v, e.identity);
  }

  lemma LearnedIsKnown(c: Config, before: seq<Item>, v: Verdict, id: Identity)
    requires Accepted(c) && (v.duplicate <==> Known(before, id)) && (v.learned.Some? <==> !v.duplicate && !Suspicious(c, v))
    requires v.learned.Some? ==> v.learned.value.identity == id
    ensures Known(Learn(c, before, v), id) <==> (v.duplicate || !Suspicious(c, v))
    ensures v.duplicate || Suspicious(c, v) ==> Learn(c, before, v) == before
  {
    if v.learned.Some? {
      var after := Push(before, v.learned.value, c.maximumHistory);
      assert after[|after| - 1] == v.learned.value;
    }
  }

  /** What a verdict says about learning. */
  lemma LearnedItem(c: Config, s: State, e: Session, allowSupplied: bool, v: Verdict)
    requires Accepted(c) && v == VerdictOn(c, s, e, allowSupplied)
    ensures v.duplicate <==> Known(HistoryFor(c, s, e), e.identity)
    ensures v.learned.Some? <==> !v.duplicate && !Suspicious(c, v)
    ensures v.learned.Some? ==> v.learned.value.identity == e.identity
  {
  }

  /** Step i of the traffic, judged as it came, put this item into the history of cohort k, and was safe. */
  ghost predicate LearnedAt(c: Config, steps: seq<Step>, i: nat, k: Cohort, item: Item)
    requires Accepted(c)
  {
    && i < |steps| && CohortOf(steps[i].session) == k
    && var v := VerdictOn(c, Run(c, steps[..i]), steps[i].session, steps[i].allowSupplied);
       v.learned == Some(item) && item.identity == steps[i].session.identity && !v.duplicate && !Suspicious(c, v)
  }

  ghost predicate Earned(c: Config, steps: seq<Step>, k: Cohort, item: Item)
    requires Accepted(c)
  {
    exists i: nat :: LearnedAt(c, steps, i, k, item)
  }

  lemma EarnedStays(c: Config, steps: seq<Step>, n: nat, k: Cohort, item: Item)
    requires Accepted(c) && n <= |steps| && Earned(c, steps[..n], k, item)
    ensures Earned(c, steps, k, item)
  {
    var i: nat :| LearnedAt(c, steps[..n], i, k, item);
    assert steps[..n][..i] == steps[..i];
    assert LearnedAt(c, steps, i, k, item);
  }

  lemma NewItemIn(c: Config, history: seq<Item>, cutoff: Time, v: Verdict, after: seq<Item>, item: Item)
    requires after == Learn(c, Recent(history, cutoff), v) && item in after
    ensures item in history || v.learned == Some(item)
  {
    var from := RecentIsSuffix(history, cutoff);
  }

  /** An item of a history after one session was there before or is the session's own. */
  lemma NewItem(c: Config, s: State, t: State, e: Session, allowSupplied: bool, v: Verdict, k: Cohort, item: Item)
    requires Accepted(c) && Bounded(c, s) && t == Enrich(c, s, e, allowSupplied) && v == VerdictOn(c, s, e, allowSupplied)
    requires item in HistoryOf(t, k)
    ensures item in HistoryOf(s, k) || (k == CohortOf(e) && v.learned == Some(item))
  {
    if k == CohortOf(e) {
      Enriched(c, s, e, allowSupplied, HistoryFor(c, s, e), v);
      HistoryIsRecent(c, s, e);
      NewItemIn(c, HistoryOf(s, k), e.timestamp - c.historyLength, v, HistoryOf(t, k), item);
    } else {
      OtherStep(c, s, e, allowSupplied, k);
    }
  }

  /** After any traffic every item of every baseline is the record of a session that, when it was judged, was no
      duplicate and not scored at the ceiling or above: a suspicious session never becomes part of what later ones
      are compared with. */
  lemma {:induction false} BaselinesHoldSafeSessionsOnly(c: Config, steps: seq<Step>, k: Cohort, item: Item)
    requires Accepted(c) && item in HistoryOf(Run(c, steps), k)
    ensures Earned(c, steps, k, item)
  {
    var n := |steps| - 1;
    var s, e := Run(c, steps[..n]), steps[n].session;
    EveryRunIsBounded(c, steps[..n]);
    NewItem(c, s, Run(c, steps), e, steps[n].allowSupplied, VerdictOn(c, s, e, steps[n].allowSupplied), k, item);
    if item in HistoryOf(s, k) {
      BaselinesHoldSafeSessionsOnly(c, steps[..n], k, item);
      EarnedStays(c, steps, n, k, item);
    } else {
      LearnedItem(c, s, e, steps[n].allowSupplied, VerdictOn(c, s, e, steps[n].allowSupplied));
      assert LearnedAt(c, steps, n, k, item);
    }
  }

  // ----------------------------------------------------------- scores together

  function Longer(baselines: seq<Vectors>, k: int): nat {
    if baselines == [] then 0
    else Longer(baselines[..|baselines| - 1], k) + (if |baselines[|baselines| - 1].sizes| > k then 1 else 0)
  }

  ghost predicate AllShaped(baselines: seq<Vectors>) {
    forall i :: 0 <= i < |baselines| ==> Shaped(baselines[i])
  }

  lemma {:induction false} ColumnLength(baselines: seq<Vectors>, position: nat)
    requires AllShaped(baselines)
    ensures |Column(baselines, Sizes, position)| == Longer(baselines, position)
    ensures |Column(baselines, Gaps, position)| == Longer(baselines, position + 1)
  {
    if baselines == [] {
    } else {
      ColumnLength(baselines[..|baselines| - 1], position);
    }
  }

  lemma {:induction false} LongerFalls(baselines: seq<Vectors>, j: int, k: int)
    requires j <= k
    ensures Longer(baselines, k) <= Longer(baselines, j)
  {
    if baselines == [] {
    } else {
      LongerFalls(baselines[..|baselines| - 1], j, k);
    }
  }

  /** A row is scored if its last position has enough to be compared with. */
  lemma {:induction false} ScoredIff(c: Config, row: seq<real>, baselines: seq<Vectors>, d: Dimension, floor: real)
    requires Accepted(c) && floor > 0.0 && row != [] && AllShaped(baselines)
    ensures Deviations(c, row, baselines, d, floor).Some? <==>
      Longer(baselines, if d == Sizes then |row| - 1 else |row|) >= c.minimumBaseline
  {
    var n := |row| - 1;
    ColumnLength(baselines, n);
    if n > 0 {
      ScoredIff(c, row[..n], baselines, d, floor);
      LongerFalls(baselines, if d == Sizes then n - 1 else n, if d == Sizes then n else n + 1);
    } else {
      assert row[..n] == [];
    }
  }

  lemma {:induction false} BaselinesShaped(history: seq<Item>)
    requires forall i :: 0 <= i < |history| && history[i].vectors.Some? ==> Shaped(history[i].vectors.value)
    ensures AllShaped(Baselines(history))
  {
    if history == [] {
    } else {
      BaselinesShaped(history[..|history| - 1]);
    }
  }

  /** In every reachable state a session has both scores or neither, each from 0 to 1. */
  lemma ScoresComeTogether(c: Config, steps: seq<Step>, e: Session, allowSupplied: bool)
    requires Accepted(c)
    ensures var v := VerdictOn(c, Run(c, steps), e, allowSupplied);
      && (v.sizeScore.Some? <==> v.timingScore.Some?)
      && (v.sizeScore.Some? ==> 0.0 <= v.sizeScore.value <= 1.0 && 0.0 <= v.timingScore.value <= 1.0)
  {
    EveryRunIsBounded(c, steps);
    HistoryIsFine(c, Run(c, steps), e);
    JudgedTogether(c, HistoryFor(c, Run(c, steps), e), e, allowSupplied);
  }

  lemma HistoryIsFine(c: Config, s: State, e: Session)
    requires Accepted(c) && Bounded(c, s)
    ensures HistoryFine(c, HistoryFor(c, s, e))
  {
    assert HistoryFine(c, HistoryOf(s, CohortOf(e)));
    RecentFine(c, HistoryOf(s, CohortOf(e)), e.timestamp - c.historyLength);
  }

  lemma JudgedTogether(c: Config, history: seq<Item>, e: Session, allowSupplied: bool)
    requires Accepted(c) && HistoryFine(c, history)
    ensures var v := Judge(c, history, e, allowSupplied);
      && (v.sizeScore.Some? <==> v.timingScore.Some?)
      && (v.sizeScore.Some? ==> 0.0 <= v.sizeScore.value <= 1.0 && 0.0 <= v.timingScore.value <= 1.0)
  {
    BaselinesShaped(history);
    var vectors := SequenceVectors(c, e);
    if vectors.Ok? {
      BothOrNeither(c, vectors.value, Baselines(history));
    }
  }

  lemma BothOrNeither(c: Config, v: Vectors, baselines: seq<Vectors>)
    requires Accepted(c) && Shaped(v) && AllShaped(baselines)
    ensures var size, timing := Score(c, v.sizes, baselines, Sizes, c.sizeFloor), Score(c, v.gaps, baselines, Gaps, c.timingFloor);
      && (size.Some? <==> timing.Some?)
      && (size.Some? ==> 0.0 <= size.value <= 1.0) && (timing.Some? ==> 0.0 <= timing.value <= 1.0)
  {
    ScoredIff(c, v.sizes, baselines, Sizes, c.sizeFloor);
    ScoredIff(c, v.gaps, baselines, Gaps, c.timingFloor);
    ScoreInRange(c, v.sizes, baselines, Sizes, c.sizeFloor);
    ScoreInRange(c, v.gaps, baselines, Gaps, c.timingFloor);
  }

  lemma ScoreInRange(c: Config, row: seq<real>, baselines: seq<Vectors>, d: Dimension, floor: real)
    requires Accepted(c) && floor > 0.0 && row != []
    ensures var score := Score(c, row, baselines, d, floor); score.Some? ==> 0.0 <= score.value <= 1.0
  {
    var deviations := Deviations(c, row, baselines, d, floor);
    if deviations.Some? {
      UpperQuartileInRange(deviations.value, 0.0);
      SquashInRange(c, UpperQuartile(deviations.value));
    }
  }

  lemma SquashInRange(c: Config, quartile: real)
    requires Accepted(c) && quartile >= 0.0
    ensures 0.0 <= Squash(c, quartile) <= 1.0
  {
    var x := Min(1.0, quartile / c.anomalyScale);
    assert quartile / c.anomalyScale >= 0.0;
    RoundKeepsBounds(x * 1000000.0, 0, 1000000);
  }

  // ------------------------------------------------------------- lone spikes

  lemma {:induction false} DeviationsAre(c: Config, row: seq<real>, baselines: seq<Vectors>, d: Dimension, floor: real, q: nat)
    requires Accepted(c) && floor > 0.0 && q < |row| && Deviations(c, row, baselines, d, floor).Some?
    ensures |Column(baselines, d, q)| >= c.minimumBaseline
    ensures Deviations(c, row, baselines, d, floor).value[q] == Deviation(row[q], Column(baselines, d, q), floor)
  {
    if q < |row| - 1 {
      DeviationsAre(c, row[..|row| - 1], baselines, d, floor, q);
    }
  }

  lemma {:induction false} DeviationsExist(c: Config, row: seq<real>, baselines: seq<Vectors>, d: Dimension, floor: real)
    requires Accepted(c) && floor > 0.0 && forall q :: 0 <= q < |row| ==> |Column(baselines, d, q)| >= c.minimumBaseline
    ensures Deviations(c, row, baselines, d, floor).Some?
  {
    if row == [] {
    } else {
      DeviationsExist(c, row[..|row| - 1], baselines, d, floor);
    }
  }

  /** Each deviation depends on its own position only. */
  lemma DeviationsAt(c: Config, row: seq<real>, baselines: seq<Vectors>, d: Dimension, floor: real, p: nat, x: real)
    requires Accepted(c) && floor > 0.0 && p < |row| && Deviations(c, row, baselines, d, floor).Some?
    ensures Deviations(c, row[p := x], baselines, d, floor).Some? && Column(baselines, d, p) != []
    ensures Deviations(c, row[p := x], baselines, d, floor).value ==
      Deviations(c, row, baselines, d, floor).value[p := Deviation(x, Column(baselines, d, p), floor)]
  {
    var other := row[p := x];
    forall q | 0 <= q < |row| ensures |Column(baselines, d, q)| >= c.minimumBaseline {
      DeviationsAre(c, row, baselines, d, floor, q);
    }
    DeviationsExist(c, other, baselines, d, floor);
    forall q | 0 <= q < |row|
      ensures Deviations(c, other, baselines, d, floor).value[q] == Deviation(other[q], Column(baselines, d, q), floor)
      ensures q != p ==> Deviations(c, other, baselines, d, floor).value[q] == Deviations(c, row, baselines, d, floor).value[q]
    {
      DeviationsAre(c, row, baselines, d, floor, q);
      DeviationsAre(c, other, baselines, d, floor, q);
    }
  }

  /** In a row of five positions or more, a change at one position moves no score as long as no other position
      deviates more, before or after. */
  lemma ScoreIgnoresLoneSpike(c: Config, row: seq<real>, baselines: seq<Vectors>, d: Dimension, floor: real, p: nat, x: real)
    requires Accepted(c) && floor > 0.0 && |row| >= 5 && p < |row| && Deviations(c, row, baselines, d, floor).Some?
    requires Column(baselines, d, p) != []
    requires SpikeAt(Deviations(c, row, baselines, d, floor).value, p, Deviation(x, Column(baselines, d, p), floor))
    ensures Score(c, row[p := x], baselines, d, floor) == Score(c, row, baselines, d, floor)
  {
    DeviationsAt(c, row, baselines, d, floor, p, x);
    LoneSpikeIsIgnored(Deviations(c, row, baselines, d, floor).value, p, Deviation(x, Column(baselines, d, p), floor));
  }
}
