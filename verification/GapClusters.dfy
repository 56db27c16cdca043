/** Findings in time order, as the conflict resolution delivers them: incidents are the connected groups of the gap
    graph (src/aegisflow/incidents.py, src/aegisflow/analysis_session.py). */
module GapClusters {
  import opened Records
  import opened Incidents
  import opened Clustering

  ghost predicate Ordered(alerts: seq<Alert>) {
    forall i, j :: 0 <= i < j < |alerts| ==> alerts[i].windowStart <= alerts[j].windowStart
  }

  // ------------------------------------------------------------- separation

  ghost predicate Apart(window: Time, e: Entry, f: Entry)
    requires e.alerts != [] && f.alerts != []
  {
    e.alerts[0].srcIp == f.alerts[0].srcIp ==> Last(e.alerts) + window < First(f.alerts)
  }

  /** Of two incidents of one source the later entered begins more than the window after the other's end. */
  ghost predicate Separated(window: Time, log: Log)
    requires NonEmpty(log)
  {
    forall i, j :: 0 <= i < j < |log| ==> Apart(window, log[i], log[j])
  }

  ghost predicate NotAfter(log: Log, t: Time)
    requires NonEmpty(log)
  {
    forall i :: 0 <= i < |log| ==> First(log[i].alerts) <= t
  }

  lemma JoinsLast(window: Time, log: Log, a: Alert, i: nat)
    requires NonEmpty(log) && GoodLog(log) && Separated(window, log) && NotAfter(log, a.windowStart) && Forward(a)
    requires i < |log| && Active(window, log[i], a)
    ensures Separated(window, log[i := Entry(log[i].id, log[i].alerts + [a])])
    ensures NonEmpty(log[i := Entry(log[i].id, log[i].alerts + [a])])
  {
    var e := Entry(log[i].id, log[i].alerts + [a]);
    assert e.alerts[..|e.alerts| - 1] == log[i].alerts;
    assert First(e.alerts) == First(log[i].alerts);
    var next := log[i := e];
    forall j, k | 0 <= j < k < |next| ensures Apart(window, next[j], next[k]) {
      assert Apart(window, log[j], log[k]);
    }
  }

  lemma NewIsApart(window: Time, log: Log, a: Alert)
    requires window > 0.0 && NonEmpty(log) && Separated(window, log) && NotAfter(log, a.windowStart) && Forward(a)
    requires Best(window, log, a).None?
    ensures Separated(window, log + [Entry(IdOf(a), [a])])
  {
    BestIsActive(window, log, a);
    var next := log + [Entry(IdOf(a), [a])];
    forall j, k | 0 <= j < k < |next| ensures Apart(window, next[j], next[k]) {
      if k < |log| {
        assert Apart(window, log[j], log[k]);
      } else {
        assert !Active(window, log[j], a);
      }
    }
  }

  lemma ProcessKeepsApart(window: Time, log: Log, a: Alert)
    requires window >= 1.0 && NonEmpty(log) && GoodLog(log) && Separated(window, log) && NotAfter(log, a.windowStart) && Forward(a)
    ensures Separated(window, Process(window, log, a)) && NotAfter(Process(window, log, a), a.windowStart)
  {
    match Best(window, log, a)
    case None =>
      NewIdIsFresh(window, log, a);
      NewIsApart(window, log, a);
    case Some(i) =>
      JoinIsInPlace(window, log, a);
      JoinsLast(window, log, a, i);
      FirstStays(log[i].alerts, a);
  }

  lemma FirstStays(alerts: seq<Alert>, a: Alert)
    requires alerts != [] && First(alerts) <= a.windowStart
    ensures First(alerts + [a]) == First(alerts)
  {
    assert (alerts + [a])[..|alerts|] == alerts;
  }

  lemma {:induction false} RunIsSeparated(window: Time, alerts: seq<Alert>)
    requires window >= 1.0 && Proper(alerts) && Ordered(alerts)
    ensures Separated(window, Run(window, alerts))
    ensures alerts != [] ==> NotAfter(Run(window, alerts), alerts[|alerts| - 1].windowStart)
  {
    if alerts == [] {
    } else {
      var n := |alerts| - 1;
      NewIdentity(alerts, n);
      RunIsSeparated(window, alerts[..n]);
      EveryFindingIsPlacedOnce(window, alerts[..n]);
      assert NotAfter(Run(window, alerts[..n]), alerts[n].windowStart);
      ProcessKeepsApart(window, Run(window, alerts[..n]), alerts[n]);
    }
  }

  // ----------------------------------------------------------- reprocessing

  lemma OnlyHomeIsActive(window: Time, log: Log, home: nat, a: Alert)
    requires window > 0.0 && NonEmpty(log) && GoodLog(log) && Separated(window, log) && home < |log| && a in log[home].alerts
    ensures forall i :: 0 <= i < |log| ==> (Active(window, log[i], a) <==> i == home)
  {
    FirstIsLeast(log[home].alerts);
    LastIsGreatest(log[home].alerts);
    forall i | 0 <= i < |log| ensures Active(window, log[i], a) <==> i == home {
      FirstBeforeLast(log[i]);
      if i < home { assert Apart(window, log[i], log[home]); }
      if home < i { assert Apart(window, log[home], log[i]); }
    }
  }

  lemma FirstBeforeLast(e: Entry)
    requires Good(e)
    ensures First(e.alerts) <= Last(e.alerts)
  {
    FirstIsLeast(e.alerts);
    LastIsGreatest(e.alerts);
    assert e.alerts[0] in e.alerts && Forward(e.alerts[0]);
  }

  lemma {:induction false} BestIsOnly(window: Time, log: Log, home: nat, a: Alert)
    requires NonEmpty(log) && home < |log|
    requires forall i :: 0 <= i < |log| ==> (Active(window, log[i], a) <==> i == home)
    ensures Best(window, log, a) == Some(home)
  {
    var n := |log| - 1;
    if home < n {
      BestIsOnly(window, log[..n], home, a);
    } else {
      BestIsInside(window, log[..n], a);
    }
  }

  lemma BestIsInside(window: Time, log: Log, a: Alert)
    requires NonEmpty(log) && forall i :: 0 <= i < |log| ==> !Active(window, log[i], a)
    ensures Best(window, log, a) == None
  {
  }

  /** Once findings have arrived in time order, processing any stored one again changes nothing. */
  lemma ReprocessingChangesNothing(window: Time, alerts: seq<Alert>, a: Alert)
    requires window >= 1.0 && Proper(alerts) && Ordered(alerts) && a in alerts
    ensures Process(window, Run(window, alerts), a) == Run(window, alerts)
  {
    var log := Run(window, alerts);
    EveryFindingIsPlacedOnce(window, alerts);
    RunIsSeparated(window, alerts);
    assert a in Stored(log);
    var home := StoredOrigin(log, a);
    StaysHome(window, log, home, a);
  }

  lemma StaysHome(window: Time, log: Log, home: nat, a: Alert)
    requires window > 0.0 && NonEmpty(log) && GoodLog(log) && Separated(window, log) && home < |log| && a in log[home].alerts
    ensures Process(window, log, a) == log
  {
    OnlyHomeIsActive(window, log, home, a);
    BestIsOnly(window, log, home, a);
    var k :| 0 <= k < |log[home].alerts| && log[home].alerts[k] == a;
    assert Ids(log[home].alerts)[k] == a.alertId;
  }

  /** Entry j would be taken before entry i for this finding: it is active and ends later, or as late and was entered
      first. */
  predicate Claims(window: Time, log: Log, j: nat, i: nat, a: Alert)
    requires NonEmpty(log) && i < |log| && j < |log|
  {
    && j != i && Active(window, log[j], a)
    && (Last(log[j].alerts) > Last(log[i].alerts) || (Last(log[j].alerts) == Last(log[i].alerts) && j < i))
  }

  ghost predicate Unclaimed(window: Time, log: Log, i: nat, a: Alert)
    requires NonEmpty(log) && i < |log|
  {
    forall j :: 0 <= j < |log| ==> !Claims(window, log, j, i, a)
  }

  /** No entry claims a finding that another one has. */
  ghost predicate Settled(window: Time, log: Log)
    requires NonEmpty(log)
  {
    forall i, a :: 0 <= i < |log| && a in log[i].alerts ==> Unclaimed(window, log, i, a)
  }

  lemma {:induction false} BestBeatsAll(window: Time, log: Log, a: Alert)
    requires NonEmpty(log) && Best(window, log, a).Some?
    ensures var b := Best(window, log, a).value; forall j :: 0 <= j < |log| ==> !Claims(window, log, j, b, a)
  {
    var n := |log| - 1;
    var b := Best(window, log, a).value;
    if Best(window, log[..n], a).Some? {
      BestBeatsAll(window, log[..n], a);
      var before := Best(window, log[..n], a).value;
      forall j | 0 <= j < |log| ensures !Claims(window, log, j, b, a) {
        if j < n {
          assert !Claims(window, log[..n], j, before, a);
        }
      }
    } else {
      BestIsActive(window, log[..n], a);
      assert forall j :: 0 <= j < n ==> Active(window, log[..n][j], a) == Active(window, log[j], a);
    }
  }

  lemma {:induction false} BestIsHomeIff(window: Time, log: Log, home: nat, a: Alert)
    requires window > 0.0 && NonEmpty(log) && GoodLog(log) && home < |log| && a in log[home].alerts
    ensures Best(window, log, a).Some?
    ensures Best(window, log, a) == Some(home) <==> Unclaimed(window, log, home, a)
  {
    FirstIsLeast(log[home].alerts);
    LastIsGreatest(log[home].alerts);
    assert Active(window, log[home], a);
    BestIsActive(window, log, a);
    BestBeatsAll(window, log, a);
    var b := Best(window, log, a).value;
    assert b != home ==> !Claims(window, log, home, b, a);
    assert b != home ==> Claims(window, log, b, home, a);
  }

  lemma {:induction false} UnchangedIffBestIsHome(window: Time, alerts: seq<Alert>, log: Log, home: nat, a: Alert)
    requires NonEmpty(log) && GoodLog(log) && Stored(log) == multiset(alerts) && NoDuplicates(Ids(alerts))
    requires home < |log| && a in log[home].alerts && Best(window, log, a).Some?
    ensures Process(window, log, a) == log <==> Best(window, log, a) == Some(home)
  {
    var b := Best(window, log, a).value;
    JoinIsInPlace(window, log, a);
    var k :| 0 <= k < |log[home].alerts| && log[home].alerts[k] == a;
    assert Ids(log[home].alerts)[k] == a.alertId;
    if b < home {
      EntriesDisjoint(alerts, log, b, home);
    } else if home < b {
      EntriesDisjoint(alerts, log, home, b);
    }
    if b != home {
      assert |log[b := Entry(log[b].id, log[b].alerts + [a])][b].alerts| != |log[b].alerts|;
    }
  }

  lemma {:induction false} HomeDecides(window: Time, alerts: seq<Alert>, log: Log, i: nat, a: Alert)
    requires window > 0.0 && NonEmpty(log) && GoodLog(log) && Stored(log) == multiset(alerts) && NoDuplicates(Ids(alerts))
    requires i < |log| && a in log[i].alerts
    ensures a in alerts && (Process(window, log, a) == log <==> Unclaimed(window, log, i, a))
  {
    StoredContains(log, i);
    assert a in multiset(alerts);
    BestIsHomeIff(window, log, i, a);
    UnchangedIffBestIsHome(window, alerts, log, i, a);
  }

  /** Whatever the order of arrival, processing stored findings again leaves the incidents as they are exactly if no
      incident claims a finding that another one has. */
  lemma {:induction false} ReprocessingIsIdleIff(window: Time, alerts: seq<Alert>, log: Log)
    requires window >= 1.0 && Proper(alerts) && log == Run(window, alerts)
    ensures (forall a :: a in alerts ==> Process(window, log, a) == log) <==> Settled(window, log)
  {
    EveryFindingIsPlacedOnce(window, alerts);
    if Settled(window, log) {
      forall a | a in alerts ensures Process(window, log, a) == log {
        assert a in multiset(alerts);
        var i := StoredOrigin(log, a);
        HomeDecides(window, alerts, log, i, a);
      }
    }
    if forall a :: a in alerts ==> Process(window, log, a) == log {
      forall i, a | 0 <= i < |log| && a in log[i].alerts ensures Unclaimed(window, log, i, a) {
        HomeDecides(window, alerts, log, i, a);
      }
    }
  }

  // Out of order this fails: a finding that bridges two incidents joins the later one only, which can then claim a
  // finding the earlier one has.

  function Span(id: string, start: Time, end: Time): Alert {
    Alert(id, "d", "reconnaissance", "scan", 1.0, "low", start, end, "10.0.0.1", None, [], [])
  }

  lemma BestOfTwo(window: Time, e: Entry, f: Entry, a: Alert)
    requires e.alerts != [] && f.alerts != [] && Active(window, f, a) && Last(f.alerts) > Last(e.alerts)
    ensures Best(window, [e, f], a) == Some(1)
  {
    assert [e, f][..1] == [e] && [e][..0] == [];
  }

  /** Processed as (0, 0), (100, 100), (5, 95) under a window of ten, the first finding processed again is stored a
      second time, in the other incident. */
  lemma BridgeDuplicates()
    ensures var x, y, z := Span("x", 0.0, 0.0), Span("y", 100.0, 100.0), Span("z", 5.0, 95.0);
      && Run(10.0, [x, y, z]) == [Entry(IdOf(x), [x]), Entry(IdOf(y), [y, z])]
      && Process(10.0, Run(10.0, [x, y, z]), x) == [Entry(IdOf(x), [x]), Entry(IdOf(y), [y, z, x])]
  {
    var x, y, z := Span("x", 0.0, 0.0), Span("y", 100.0, 100.0), Span("z", 5.0, 95.0);
    assert x.alertId[0] == 'x' && y.alertId[0] == 'y' && z.alertId[0] == 'z';
    Wider(y, z);
    Bridge(10.0, x, y, z);
  }

  /** Two incidents apart and a finding that bridges them joins the later one, which then takes what the other has. */
  lemma Bridge(window: Time, x: Alert, y: Alert, z: Alert)
    requires x.alertId != y.alertId && x.alertId != z.alertId && y.alertId != z.alertId && IdOf(x) != IdOf(y)
    requires y.windowStart - x.windowEnd > window && y.windowEnd > x.windowEnd
    requires Active(window, Entry(IdOf(y), [y]), z) && Active(window, Entry(IdOf(y), [y, z]), x)
    ensures Run(window, [x, y, z]) == [Entry(IdOf(x), [x]), Entry(IdOf(y), [y, z])]
    ensures Process(window, Run(window, [x, y, z]), x) == [Entry(IdOf(x), [x]), Entry(IdOf(y), [y, z, x])]
  {
    var e, f, g := Entry(IdOf(x), [x]), Entry(IdOf(y), [y]), Entry(IdOf(y), [y, z]);
    TwoApart(window, x, y);
    assert [x, y, z][..2] == [x, y];
    BestOfTwo(window, e, f, z);
    OtherId([y], z);
    JoinSecond(window, e, f, z);
    assert [y] + [z] == [y, z] && [y, z] + [x] == [y, z, x];
    Wider(y, z);
    BestOfTwo(window, e, g, x);
    OtherId([y, z], x);
    JoinSecond(window, e, g, x);
  }

  lemma OtherId(alerts: seq<Alert>, a: Alert)
    requires forall i :: 0 <= i < |alerts| ==> alerts[i].alertId != a.alertId
    ensures a.alertId !in Ids(alerts)
  {
  }

  lemma TwoApart(window: Time, x: Alert, y: Alert)
    requires y.windowStart - x.windowEnd > window && IdOf(x) != IdOf(y)
    ensures Run(window, [x, y]) == [Entry(IdOf(x), [x]), Entry(IdOf(y), [y])]
  {
    var e := Entry(IdOf(x), [x]);
    assert [x, y][..1] == [x];
    RunOne(window, x);
    assert [e][..0] == [];
    assert Best(window, [e][..0], y) == None && !Active(window, e, y);
  }

  lemma JoinSecond(window: Time, e: Entry, f: Entry, a: Alert)
    requires e.alerts != [] && f.alerts != [] && Best(window, [e, f], a) == Some(1) && a.alertId !in Ids(f.alerts)
    ensures Process(window, [e, f], a) == [e, Entry(f.id, f.alerts + [a])]
  {
    assert Find([e, f], f.id) == Some(1);
  }

  lemma Wider(y: Alert, z: Alert)
    ensures First([y, z]) == Min(y.windowStart, z.windowStart) && Last([y, z]) == Max(y.windowEnd, z.windowEnd)
  {
    assert [y, z][..1] == [y];
  }

  // --------------------------------------------------------- the gap graph

  /** Windows of one source with a gap of at most the correlation window between them, in either order. */
  ghost predicate Near(window: Time, x: Alert, y: Alert) {
    && x.srcIp == y.srcIp
    && y.windowStart - x.windowEnd <= window
    && x.windowStart - y.windowEnd <= window
  }

  ghost predicate Chain(window: Time, pool: seq<Alert>, c: seq<Alert>) {
    && c != []
    && (forall i :: 0 <= i < |c| ==> c[i] in pool)
    && (forall i :: 0 < i < |c| ==> Near(window, c[i - 1], c[i]))
  }

  ghost predicate Linked(window: Time, pool: seq<Alert>, x: Alert, y: Alert) {
    exists c :: Chain(window, pool, c) && c[0] == x && c[|c| - 1] == y
  }

  lemma LinkedSelf(window: Time, pool: seq<Alert>, x: Alert)
    requires x in pool
    ensures Linked(window, pool, x, x)
  {
    assert Chain(window, pool, [x]);
  }

  lemma LinkedWiden(window: Time, pool: seq<Alert>, wider: seq<Alert>, x: Alert, y: Alert)
    requires Linked(window, pool, x, y) && forall a :: a in pool ==> a in wider
    ensures Linked(window, wider, x, y)
  {
    var c :| Chain(window, pool, c) && c[0] == x && c[|c| - 1] == y;
    assert Chain(window, wider, c);
  }

  lemma LinkedStep(window: Time, pool: seq<Alert>, x: Alert, y: Alert, z: Alert)
    requires Linked(window, pool, x, y) && Near(window, y, z) && z in pool
    ensures Linked(window, pool, x, z)
  {
    var c :| Chain(window, pool, c) && c[0] == x && c[|c| - 1] == y;
    assert Chain(window, pool, c + [z]);
  }

  lemma {:induction false} LinkedThrough(window: Time, pool: seq<Alert>, x: Alert, c: seq<Alert>, back: bool)
    requires Chain(window, pool, c) && Linked(window, pool, x, if back then c[|c| - 1] else c[0])
    ensures Linked(window, pool, x, if back then c[0] else c[|c| - 1])
    decreases |c|
  {
    var n := |c| - 1;
    if n > 0 {
      if back {
        assert Near(window, c[n - 1], c[n]);
        LinkedStep(window, pool, x, c[n], c[n - 1]);
        assert Chain(window, pool, c[..n]);
        LinkedThrough(window, pool, x, c[..n], back);
      } else {
        assert Near(window, c[0], c[1]);
        LinkedStep(window, pool, x, c[0], c[1]);
        assert Chain(window, pool, c[1..]);
        LinkedThrough(window, pool, x, c[1..], back);
      }
    }
  }

  /** Everything in an incident is chained to its first finding. */
  ghost predicate Joined(window: Time, e: Entry)
    requires e.alerts != []
  {
    forall x :: x in e.alerts ==> Linked(window, e.alerts, e.alerts[0], x)
  }

  ghost predicate AllJoined(window: Time, log: Log)
    requires NonEmpty(log)
  {
    forall i :: 0 <= i < |log| ==> Joined(window, log[i])
  }

  lemma JoinedGrows(window: Time, e: Entry, a: Alert)
    requires window > 0.0 && Good(e) && Joined(window, e) && Forward(a) && Active(window, e, a)
    requires First(e.alerts) <= a.windowStart && forall x :: x in e.alerts ==> x.windowStart <= a.windowStart
    ensures Joined(window, Entry(e.id, e.alerts + [a]))
  {
    var pool := e.alerts + [a];
    LastIsGreatest(e.alerts);
    var m :| m in e.alerts && m.windowEnd == Last(e.alerts);
    assert Near(window, m, a);
    forall x | x in e.alerts ensures Linked(window, pool, pool[0], x) {
      LinkedWiden(window, e.alerts, pool, e.alerts[0], x);
    }
    LinkedStep(window, pool, pool[0], m, a);
  }

  lemma ProcessKeepsJoined(window: Time, log: Log, a: Alert)
    requires window >= 1.0 && NonEmpty(log) && GoodLog(log) && AllJoined(window, log) && Forward(a)
    requires forall x :: x in Stored(log) ==> x.windowStart <= a.windowStart
    ensures AllJoined(window, Process(window, log, a))
  {
    match Best(window, log, a)
    case None =>
      NewIdIsFresh(window, log, a);
      LinkedSelf(window, [a], a);
    case Some(i) =>
      JoinIsInPlace(window, log, a);
      StoredContains(log, i);
      FirstIsLeast(log[i].alerts);
      JoinedGrows(window, log[i], a);
  }

  lemma {:induction false} RunIsJoined(window: Time, alerts: seq<Alert>, log: Log)
    requires window >= 1.0 && Proper(alerts) && Ordered(alerts) && log == Run(window, alerts)
    ensures NonEmpty(log) && AllJoined(window, log)
  {
    if alerts == [] {
    } else {
      var n := |alerts| - 1;
      NewIdentity(alerts, n);
      var before := Run(window, alerts[..n]);
      RunIsJoined(window, alerts[..n], before);
      EveryFindingIsPlacedOnce(window, alerts[..n]);
      assert forall x :: x in Stored(before) ==> x in alerts[..n];
      ProcessKeepsJoined(window, before, alerts[n]);
    }
  }

  ghost predicate SameIncident(log: Log, x: Alert, y: Alert) {
    exists i :: 0 <= i < |log| && x in log[i].alerts && y in log[i].alerts
  }

  lemma FarIsNotNear(window: Time, e: Entry, f: Entry, x: Alert, y: Alert)
    requires Good(e) && Good(f) && x in e.alerts && y in f.alerts && Apart(window, e, f)
    ensures !Near(window, x, y) && !Near(window, y, x)
  {
    LastIsGreatest(e.alerts);
    FirstIsLeast(f.alerts);
  }

  lemma NearIsSameEntry(window: Time, log: Log, i: nat, j: nat, x: Alert, y: Alert)
    requires NonEmpty(log) && GoodLog(log) && Separated(window, log)
    requires i < |log| && j < |log| && x in log[i].alerts && y in log[j].alerts && Near(window, x, y)
    ensures i == j
  {
    if i < j {
      FarIsNotNear(window, log[i], log[j], x, y);
    } else if j < i {
      FarIsNotNear(window, log[j], log[i], y, x);
    }
  }

  lemma {:induction false} ChainStays(window: Time, log: Log, pool: seq<Alert>, c: seq<Alert>, i: nat)
    requires NonEmpty(log) && GoodLog(log) && Separated(window, log) && Stored(log) == multiset(pool)
    requires Chain(window, pool, c) && i < |log| && c[0] in log[i].alerts
    ensures c[|c| - 1] in log[i].alerts
    decreases |c|
  {
    var n := |c| - 1;
    if n > 0 {
      assert Chain(window, pool, c[..n]);
      ChainStays(window, log, pool, c[..n], i);
      assert c[n] in Stored(log);
      var j := StoredOrigin(log, c[n]);
      assert Near(window, c[n - 1], c[n]);
      NearIsSameEntry(window, log, i, j, c[n - 1], c[n]);
    }
  }

  /** Two findings processed in time order end in one incident exactly if a chain of findings of their source leads
      from one to the other with no gap above the window; incidents of one source lie more than the window apart. */
  lemma IncidentsAreGapGroups(window: Time, alerts: seq<Alert>, x: Alert, y: Alert)
    requires window >= 1.0 && Proper(alerts) && Ordered(alerts) && x in alerts && y in alerts
    ensures SameIncident(Run(window, alerts), x, y) <==> Linked(window, alerts, x, y)
    ensures Separated(window, Run(window, alerts))
  {
    var log := Run(window, alerts);
    EveryFindingIsPlacedOnce(window, alerts);
    RunIsSeparated(window, alerts);
    if SameIncident(log, x, y) {
      var i :| 0 <= i < |log| && x in log[i].alerts && y in log[i].alerts;
      RunIsJoined(window, alerts, log);
      StoredContains(log, i);
      LinkedInside(window, log[i], alerts, x, y);
    }
    if Linked(window, alerts, x, y) {
      var c :| Chain(window, alerts, c) && c[0] == x && c[|c| - 1] == y;
      assert x in Stored(log);
      var i := StoredOrigin(log, x);
      ChainStays(window, log, alerts, c, i);
    }
  }

  lemma LinkedInside(window: Time, e: Entry, pool: seq<Alert>, x: Alert, y: Alert)
    requires e.alerts != [] && Joined(window, e) && x in e.alerts && y in e.alerts
    requires forall a :: a in e.alerts ==> a in pool
    ensures Linked(window, pool, x, y)
  {
    var first := e.alerts[0];
    LinkedWiden(window, e.alerts, pool, first, x);
    LinkedWiden(window, e.alerts, pool, first, y);
    var c :| Chain(window, pool, c) && c[0] == first && c[|c| - 1] == x;
    var d :| Chain(window, pool, d) && d[0] == first && d[|d| - 1] == y;
    LinkedSelf(window, pool, x);
    LinkedThrough(window, pool, x, c, true);
    LinkedThrough(window, pool, x, d, false);
  }
}
