/** What greedy correlation computes: nothing is lost, and findings in time order fall into the connected groups of
    the gap graph (src/aegisflow/incidents.py). */
module Clustering {
  import opened Records
  import opened Incidents
  import Findings
  import Ordering

  ghost predicate Forward(a: Alert) {
    a.windowStart <= a.windowEnd
  }

  /** Distinct identities and forward windows: what the detectors deliver. */
  ghost predicate Proper(alerts: seq<Alert>) {
    NoDuplicates(Ids(alerts)) && forall a :: a in alerts ==> Forward(a)
  }

  ghost predicate Good(e: Entry) {
    && e.alerts != [] && e.id == IdOf(e.alerts[0])
    && (forall a :: a in e.alerts ==> a.srcIp == e.alerts[0].srcIp && Forward(a))
  }

  /** Incidents of one source each, under the id of their first finding, no two under one id. */
  ghost predicate GoodLog(log: Log) {
    && (forall i :: 0 <= i < |log| ==> Good(log[i]))
    && (forall i, j :: 0 <= i < j < |log| ==> log[i].id != log[j].id)
  }

  /** Every finding kept, as often as it is kept. */
  function Stored(log: Log): multiset<Alert> {
    if log == [] then multiset{} else Stored(log[..|log| - 1]) + multiset(log[|log| - 1].alerts)
  }

  // --------------------------------------------------- findings in any order

  lemma {:induction false} BestIsActive(window: Time, log: Log, a: Alert)
    requires NonEmpty(log)
    ensures Best(window, log, a).None? ==> forall i :: 0 <= i < |log| ==> !Active(window, log[i], a)
  {
    if log == [] {
    } else {
      BestIsActive(window, log[..|log| - 1], a);
    }
  }

  /** With a window of a microsecond or more, an incident whose id would recur is still active. */
  lemma SameIdIsActive(window: Time, e: Entry, a: Alert)
    requires window >= 1.0 && Good(e) && Forward(a) && e.id == IdOf(a)
    ensures Active(window, e, a)
  {
    SameTextIsClose(e.alerts[0].windowStart, a.windowStart);
    FirstIsLeast(e.alerts);
    LastIsGreatest(e.alerts);
    assert e.alerts[0] in e.alerts;
  }

  /** Creating an incident never reuses an id. */
  lemma NewIdIsFresh(window: Time, log: Log, a: Alert)
    requires window >= 1.0 && NonEmpty(log) && GoodLog(log) && Forward(a) && Best(window, log, a).None?
    ensures Find(log, IdOf(a)).None? && Process(window, log, a) == log + [Entry(IdOf(a), [a])]
  {
    BestIsActive(window, log, a);
    var at := Find(log, IdOf(a));
    if at.Some? {
      SameIdIsActive(window, log[at.value], a);
    }
  }

  lemma JoinIsInPlace(window: Time, log: Log, a: Alert)
    requires NonEmpty(log) && GoodLog(log) && Best(window, log, a).Some?
    ensures var i := Best(window, log, a).value;
      Process(window, log, a) == if a.alertId in Ids(log[i].alerts) then log else log[i := Entry(log[i].id, log[i].alerts + [a])]
  {
    var i := Best(window, log, a).value;
    assert Find(log, log[i].id) == Some(i);
  }

  lemma JoinKeepsGood(e: Entry, a: Alert)
    requires Good(e) && Forward(a) && a.srcIp == e.alerts[0].srcIp
    ensures Good(Entry(e.id, e.alerts + [a]))
  {
  }

  lemma Exchange(a: multiset<Alert>, b: multiset<Alert>, x: multiset<Alert>, y: multiset<Alert>, l: multiset<Alert>)
    requires a + x == b + y
    ensures (a + l) + x == (b + l) + y
  {
    assert (a + l) + x == (a + x) + l && (b + l) + y == (b + y) + l;
  }

  lemma Cancel(a: multiset<Alert>, b: multiset<Alert>, x: multiset<Alert>, one: multiset<Alert>)
    requires a + x == b + (x + one)
    ensures a == b + one
  {
    assert a == (a + x) - x;
    assert b + one == (b + (x + one)) - x;
  }

  lemma {:induction false} StoredUpdate(log: Log, i: nat, e: Entry)
    requires i < |log|
    ensures Stored(log[i := e]) + multiset(log[i].alerts) == Stored(log) + multiset(e.alerts)
  {
    var n := |log| - 1;
    var next := log[i := e];
    if i < n {
      assert next[..n] == log[..n][i := e];
      StoredUpdate(log[..n], i, e);
      assert next[n] == log[n];
      Exchange(Stored(next[..n]), Stored(log[..n]), multiset(log[i].alerts), multiset(e.alerts), multiset(log[n].alerts));
    } else {
      assert next[..n] == log[..n];
    }
  }

  lemma StoredJoin(log: Log, i: nat, a: Alert)
    requires i < |log|
    ensures Stored(log[i := Entry(log[i].id, log[i].alerts + [a])]) == Stored(log) + multiset{a}
  {
    var e := Entry(log[i].id, log[i].alerts + [a]);
    StoredUpdate(log, i, e);
    assert multiset(e.alerts) == multiset(log[i].alerts) + multiset{a};
    Cancel(Stored(log[i := e]), Stored(log), multiset(log[i].alerts), multiset{a});
  }

  lemma StoredAppend(log: Log, e: Entry)
    ensures Stored(log + [e]) == Stored(log) + multiset(e.alerts)
  {
    assert (log + [e])[..|log|] == log;
  }

  lemma {:induction false} StoredContains(log: Log, i: nat)
    requires i < |log|
    ensures forall b :: b in log[i].alerts ==> b in Stored(log)
  {
    if i < |log| - 1 {
      StoredContains(log[..|log| - 1], i);
    }
  }

  lemma {:induction false} StoredOrigin(log: Log, b: Alert) returns (i: nat)
    requires b in Stored(log)
    ensures i < |log| && b in log[i].alerts
  {
    var n := |log| - 1;
    if b in log[n].alerts {
      i := n;
    } else {
      i := StoredOrigin(log[..n], b);
    }
  }

  lemma IdsWithinStored(log: Log, i: nat, id: string)
    requires i < |log| && id in Ids(log[i].alerts)
    ensures exists b :: b in Stored(log) && b.alertId == id
  {
    StoredContains(log, i);
    var k :| 0 <= k < |log[i].alerts| && Ids(log[i].alerts)[k] == id;
    assert log[i].alerts[k] in Stored(log);
  }

  lemma PlacedNew(window: Time, log: Log, a: Alert)
    requires window >= 1.0 && NonEmpty(log) && GoodLog(log) && Forward(a) && Best(window, log, a).None?
    ensures GoodLog(Process(window, log, a)) && Stored(Process(window, log, a)) == Stored(log) + multiset{a}
  {
    NewIdIsFresh(window, log, a);
    StoredAppend(log, Entry(IdOf(a), [a]));
  }

  lemma PlacedInActive(window: Time, log: Log, a: Alert)
    requires NonEmpty(log) && GoodLog(log) && Forward(a) && Best(window, log, a).Some?
    requires forall b :: b in Stored(log) ==> b.alertId != a.alertId
    ensures GoodLog(Process(window, log, a)) && Stored(Process(window, log, a)) == Stored(log) + multiset{a}
  {
    var i := Best(window, log, a).value;
    JoinIsInPlace(window, log, a);
    JoinKeepsGood(log[i], a);
    if a.alertId in Ids(log[i].alerts) {
      IdsWithinStored(log, i, a.alertId);
    }
    StoredJoin(log, i, a);
  }

  lemma NewIdentity(alerts: seq<Alert>, n: nat)
    requires Proper(alerts) && n < |alerts|
    ensures Proper(alerts[..n]) && Forward(alerts[n]) && forall b :: b in alerts[..n] ==> b.alertId != alerts[n].alertId
  {
    assert alerts[n] in alerts;
    assert Ids(alerts[..n]) == Ids(alerts)[..n];
    forall b | b in alerts[..n] ensures b.alertId != alerts[n].alertId {
      var k :| 0 <= k < n && alerts[k] == b;
      assert Ids(alerts)[k] != Ids(alerts)[n];
    }
  }

  /** Whatever the order of arrival, with a window of at least a microsecond no incident id is reused, and every
      finding is kept exactly once, in an incident of its own source. */
  lemma {:induction false} EveryFindingIsPlacedOnce(window: Time, alerts: seq<Alert>)
    requires window >= 1.0 && Proper(alerts)
    ensures GoodLog(Run(window, alerts)) && Stored(Run(window, alerts)) == multiset(alerts)
  {
    if alerts == [] {
    } else {
      var n := |alerts| - 1;
      NewIdentity(alerts, n);
      EveryFindingIsPlacedOnce(window, alerts[..n]);
      assert alerts == alerts[..n] + [alerts[n]];
      Placed(window, Run(window, alerts[..n]), alerts[..n], alerts[n]);
    }
  }

  lemma Placed(window: Time, log: Log, earlier: seq<Alert>, a: Alert)
    requires window >= 1.0 && NonEmpty(log) && GoodLog(log) && Stored(log) == multiset(earlier) && Forward(a)
    requires forall b :: b in earlier ==> b.alertId != a.alertId
    ensures GoodLog(Process(window, log, a)) && Stored(Process(window, log, a)) == multiset(earlier + [a])
  {
    assert forall b :: b in Stored(log) ==> b in earlier;
    if Best(window, log, a).None? {
      PlacedNew(window, log, a);
    } else {
      PlacedInActive(window, log, a);
    }
    assert multiset(earlier + [a]) == multiset(earlier) + multiset{a};
  }

  // ------------------------------------ no finding and no id in two incidents

  lemma {:induction false} EntryStored(log: Log, k: nat)
    requires k < |log|
    ensures multiset(log[k].alerts) <= Stored(log)
  {
    if k < |log| - 1 {
      EntryStored(log[..|log| - 1], k);
    }
  }

  lemma {:induction false} TwoEntriesStored(log: Log, k: nat, l: nat)
    requires k < l < |log|
    ensures multiset(log[k].alerts) + multiset(log[l].alerts) <= Stored(log)
  {
    var n := |log| - 1;
    if l < n {
      TwoEntriesStored(log[..n], k, l);
    } else {
      EntryStored(log[..n], k);
    }
  }

  lemma CountedOnce(findings: seq<Alert>, a: Alert)
    requires NoDuplicates(Ids(findings))
    ensures multiset(findings)[a] <= 1
  {
    if multiset(findings)[a] >= 2 {
      var i, j := Ordering.TwoPlaces(findings, a);
    }
  }

  lemma EntriesDisjoint(findings: seq<Alert>, log: Log, k: nat, l: nat)
    requires NoDuplicates(Ids(findings)) && Stored(log) == multiset(findings) && k < l < |log|
    ensures forall id :: id in Ids(log[k].alerts) ==> id !in Ids(log[l].alerts)
  {
    forall id | id in Ids(log[k].alerts) && id in Ids(log[l].alerts) ensures false {
      var x := IdOwner(findings, log, k, id);
      var y := IdOwner(findings, log, l, id);
      Findings.SameIdSameAlert(findings, x, y);
      TwoEntriesStored(log, k, l);
      CountedOnce(findings, x);
    }
  }

  lemma IdOwner(findings: seq<Alert>, log: Log, k: nat, id: string) returns (a: Alert)
    requires Stored(log) == multiset(findings) && k < |log| && id in Ids(log[k].alerts)
    ensures a in log[k].alerts && a in findings && a.alertId == id
  {
    var i :| 0 <= i < |log[k].alerts| && Ids(log[k].alerts)[i] == id;
    a := log[k].alerts[i];
    EntryStored(log, k);
    assert a in multiset(log[k].alerts);
  }

  // --------------------------------------------- a window below a microsecond

  function Instant(id: string, t: Time): Alert {
    Alert(id, "d", "reconnaissance", "scan", 1.0, "low", t, t, "10.0.0.1", None, [], [])
  }

  /** Two instants a microsecond apart that print the same start. */
  lemma ReuseLosesAFinding(window: Time)
    requires 0.0 < window < 1.0
    ensures var a, b := Instant("a", 1.5), Instant("b", 2.5);
      Proper([a, b]) && IdOf(a) == IdOf(b) && Run(window, [a, b]) == [Entry(IdOf(a), [b])]
  {
    var a, b := Instant("a", 1.5), Instant("b", 2.5);
    assert Ids([a, b])[0] != Ids([a, b])[1];
    assert TextOf(1.5) == StartText(false, 2) == TextOf(2.5);
    RunOne(window, a);
    assert [a, b][..1] == [a];
    var log := [Entry(IdOf(a), [a])];
    assert !Active(window, log[0], b);
    assert log[..0] == [];
    assert Best(window, log[..0], b) == None;
    assert Best(window, log, b) == None;
    assert Find(log, IdOf(b)) == Some(0);
  }

  lemma RunOne(window: Time, a: Alert)
    ensures Run(window, [a]) == [Entry(IdOf(a), [a])]
  {
    assert [a][..0] == [];
    assert Run(window, []) == [];
  }

  ghost predicate Lossless(window: Time, alerts: seq<Alert>) {
    Stored(Run(window, alerts)) == multiset(alerts)
  }

  /** A correlation window keeps every finding of every run exactly if it is at least one microsecond, the
      precision of an incident id. */
  lemma LosslessIffAMicrosecond(window: Time)
    requires window > 0.0
    ensures (forall alerts :: Proper(alerts) ==> Lossless(window, alerts)) <==> window >= 1.0
  {
    if window >= 1.0 {
      forall alerts | Proper(alerts) ensures Lossless(window, alerts) {
        EveryFindingIsPlacedOnce(window, alerts);
      }
    } else {
      var a, b := Instant("a", 1.5), Instant("b", 2.5);
      ReuseLosesAFinding(window);
      StoredAppend([], Entry(IdOf(a), [b]));
      assert [] + [Entry(IdOf(a), [b])] == [Entry(IdOf(a), [b])];
      assert |Stored(Run(window, [a, b]))| == 1;
      assert |multiset([a, b])| == 2;
      assert !Lossless(window, [a, b]);
    }
  }
}
