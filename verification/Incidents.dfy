/** Correlation of findings into incidents (src/aegisflow/incidents.py). */
module Incidents {
  import opened Records
  import opened Ordering

  /** The start printed with six decimals of a second. */
  function TextOf(t: Time): StartText {
    var magnitude := if t < 0.0 then -t else t;
    RoundIsNear(magnitude);
    StartText(t < 0.0, RoundHalfEven(magnitude))
  }

  lemma SameTextIsClose(s: Time, t: Time)
    requires TextOf(s) == TextOf(t)
    ensures -1.0 <= s - t <= 1.0
  {
    RoundIsNear(if s < 0.0 then -s else s);
    RoundIsNear(if t < 0.0 then -t else t);
  }

  function IdOf(a: Alert): IncidentId {
    IncidentId(a.srcIp, TextOf(a.windowStart))
  }

  // ------------------------------------------------------------- one incident

  function First(alerts: seq<Alert>): Time
    requires alerts != []
  {
    var n := |alerts| - 1;
    if n == 0 then alerts[0].windowStart else Min(First(alerts[..n]), alerts[n].windowStart)
  }

  function Last(alerts: seq<Alert>): Time
    requires alerts != []
  {
    var n := |alerts| - 1;
    if n == 0 then alerts[0].windowEnd else Max(Last(alerts[..n]), alerts[n].windowEnd)
  }

  lemma {:induction false} FirstIsLeast(alerts: seq<Alert>)
    requires alerts != []
    ensures (forall a :: a in alerts ==> First(alerts) <= a.windowStart)
    ensures exists a :: a in alerts && a.windowStart == First(alerts)
  {
    var n := |alerts| - 1;
    assert alerts[n] in alerts;
    if n > 0 {
      FirstIsLeast(alerts[..n]);
      assert forall a :: a in alerts <==> a in alerts[..n] || a == alerts[n];
      var a :| a in alerts[..n] && a.windowStart == First(alerts[..n]);
    }
  }

  lemma {:induction false} LastIsGreatest(alerts: seq<Alert>)
    requires alerts != []
    ensures (forall a :: a in alerts ==> a.windowEnd <= Last(alerts))
    ensures exists a :: a in alerts && a.windowEnd == Last(alerts)
  {
    var n := |alerts| - 1;
    assert alerts[n] in alerts;
    if n > 0 {
      LastIsGreatest(alerts[..n]);
      assert forall a :: a in alerts <==> a in alerts[..n] || a == alerts[n];
      var a :| a in alerts[..n] && a.windowEnd == Last(alerts[..n]);
    }
  }

  function Weight(threat: string): nat {
    if threat == "reconnaissance" then 15
    else if threat == "denial_of_service" then 25
    else if threat == "dns_threat" then 25
    else if threat == "command_and_control" then 35
    else if threat == "data_exfiltration" then 40
    else 10
  }

  function ThreatTypes(alerts: seq<Alert>): set<string> {
    set a | a in alerts :: a.threatType
  }

  function DetectorIds(alerts: seq<Alert>): set<string> {
    set a | a in alerts :: a.detectorId
  }

  const KNOWN: seq<string> :=
    ["reconnaissance", "denial_of_service", "dns_threat", "command_and_control", "data_exfiltration"]

  /** The weights of these of the known threats that occur. */
  function KnownWeight(known: seq<string>, threats: set<string>): nat {
    if known == [] then 0
    else (if known[0] in threats then Weight(known[0]) else 0) + KnownWeight(known[1..], threats)
  }

  /** sum of THREAT_WEIGHTS.get(threat, 10) over the distinct threats. */
  function ThreatScore(threats: set<string>): nat {
    KnownWeight(KNOWN, threats) + 10 * |threats - (set k | k in KNOWN)|
  }

  function ConfidenceSum(alerts: seq<Alert>): real {
    if alerts == [] then 0.0 else ConfidenceSum(alerts[..|alerts| - 1]) + alerts[|alerts| - 1].confidence
  }

  function Average(alerts: seq<Alert>): real
    requires alerts != []
  {
    ConfidenceSum(alerts) / |alerts| as real
  }

  function RiskScore(alerts: seq<Alert>): int
    requires alerts != []
  {
    var bonus := if |DetectorIds(alerts)| > 0 then (|DetectorIds(alerts)| - 1) * 8 else 0;
    var total := ThreatScore(ThreatTypes(alerts)) + bonus + RoundHalfEven(Average(alerts) * 20.0);
    if total < 100 then total else 100
  }

  function SeverityOf(score: int): string {
    if score >= 80 then "critical" else if score >= 60 then "high" else if score >= 35 then "medium" else "low"
  }

  function Build(id: IncidentId, alerts: seq<Alert>): Incident
    requires alerts != []
  {
    Incident(id, alerts[0].srcIp, First(alerts), Last(alerts), Ids(alerts), DetectorIds(alerts), ThreatTypes(alerts),
             RoundHalfEven(Average(alerts) * 1000.0) as real / 1000.0, RiskScore(alerts), SeverityOf(RiskScore(alerts)), "open")
  }

  lemma {:induction false} ConfidenceSumBounds(alerts: seq<Alert>)
    requires forall a :: a in alerts ==> 0.0 <= a.confidence <= 1.0
    ensures 0.0 <= ConfidenceSum(alerts) <= |alerts| as real
  {
    if alerts == [] {
    } else {
      var n := |alerts| - 1;
      assert alerts[n] in alerts;
      ConfidenceSumBounds(alerts[..n]);
    }
  }

  lemma AverageBounds(alerts: seq<Alert>)
    requires alerts != [] && forall a :: a in alerts ==> 0.0 <= a.confidence <= 1.0
    ensures 0.0 <= Average(alerts) <= 1.0
  {
    ConfidenceSumBounds(alerts);
    var sum, n := ConfidenceSum(alerts), |alerts| as real;
    assert sum / n * n == sum;
  }

  lemma ThreatScoreIsPositive(threats: set<string>)
    requires threats != {}
    ensures ThreatScore(threats) >= 10
  {
    var t :| t in threats;
    if t !in KNOWN {
      assert t in threats - (set k | k in KNOWN);
    } else {
      KnownCounts(KNOWN, threats, t);
    }
  }

  lemma {:induction false} KnownCounts(known: seq<string>, threats: set<string>, t: string)
    requires t in known && t in threats
    ensures KnownWeight(known, threats) >= 10
  {
    if known[0] != t {
      KnownCounts(known[1..], threats, t);
    }
  }

  /** An incident over well-formed findings of one source shows a forward window that encloses them, a score from 10
      to 100, a confidence from 0 to 1, and the severity whose band holds the score. */
  lemma BuiltIncidentIsInRange(id: IncidentId, alerts: seq<Alert>)
    requires alerts != []
    requires forall a :: a in alerts ==> a.windowStart <= a.windowEnd && 0.0 <= a.confidence <= 1.0
    ensures var i := Build(id, alerts);
      && i.firstSeen <= i.lastSeen && (forall a :: a in alerts ==> i.firstSeen <= a.windowStart && a.windowEnd <= i.lastSeen)
      && 10 <= i.riskScore <= 100 && 0.0 <= i.confidence <= 1.0
      && (i.severity == "critical" <==> 80 <= i.riskScore) && (i.severity == "high" <==> 60 <= i.riskScore < 80)
      && (i.severity == "medium" <==> 35 <= i.riskScore < 60) && (i.severity == "low" <==> i.riskScore < 35)
  {
    FirstIsLeast(alerts);
    LastIsGreatest(alerts);
    assert alerts[0] in alerts;
    RiskScoreBounds(alerts);
    ConfidenceBounds(alerts);
  }

  lemma RiskScoreBounds(alerts: seq<Alert>)
    requires alerts != [] && forall a :: a in alerts ==> 0.0 <= a.confidence <= 1.0
    ensures 10 <= RiskScore(alerts) <= 100
  {
    AverageBounds(alerts);
    assert alerts[0].threatType in ThreatTypes(alerts);
    ThreatScoreIsPositive(ThreatTypes(alerts));
    RoundKeepsBounds(Average(alerts) * 20.0, 0, 20);
  }

  lemma ConfidenceBounds(alerts: seq<Alert>)
    requires alerts != [] && forall a :: a in alerts ==> 0.0 <= a.confidence <= 1.0
    ensures 0.0 <= RoundHalfEven(Average(alerts) * 1000.0) as real / 1000.0 <= 1.0
  {
    AverageBounds(alerts);
    RoundKeepsBounds(Average(alerts) * 1000.0, 0, 1000);
  }

  // ------------------------------------------------------------ the store

  /** Incidents in the order their keys entered the dictionary. */
  datatype Entry = Entry(id: IncidentId, alerts: seq<Alert>)
  type Log = seq<Entry>

  predicate NonEmpty(log: Log) {
    forall i :: 0 <= i < |log| ==> log[i].alerts != []
  }

  predicate Active(window: Time, e: Entry, a: Alert)
    requires e.alerts != []
  {
    && e.alerts[0].srcIp == a.srcIp
    && a.windowStart - Last(e.alerts) <= window
    && a.windowEnd >= First(e.alerts) - window
  }

  /** The active incident seen last; of several, the one that entered first. */
  function Best(window: Time, log: Log, a: Alert): (best: Option<nat>)
    requires NonEmpty(log)
    ensures best.Some? ==> best.value < |log| && Active(window, log[best.value], a)
  {
    if log == [] then None
    else
      var n := |log| - 1;
      var best := Best(window, log[..n], a);
      if Active(window, log[n], a) && (best.None? || Last(log[n].alerts) > Last(log[best.value].alerts)) then Some(n) else best
  }

  function Find(log: Log, id: IncidentId): (at: Option<nat>)
    ensures at.Some? ==> at.value < |log| && log[at.value].id == id
    ensures at.None? ==> forall i :: 0 <= i < |log| ==> log[i].id != id
  {
    if log == [] then None
    else if log[|log| - 1].id == id then Some(|log| - 1)
    else Find(log[..|log| - 1], id)
  }

  /** A dictionary assignment: in place under a known key, at the end under a new one. */
  function Put(log: Log, e: Entry): Log {
    match Find(log, e.id)
    case Some(i) => log[i := e]
    case None => log + [e]
  }

  function Process(window: Time, log: Log, a: Alert): (next: Log)
    requires NonEmpty(log)
    ensures NonEmpty(next)
  {
    match Best(window, log, a)
    case Some(i) =>
      if a.alertId in Ids(log[i].alerts) then log
      else Put(log, Entry(log[i].id, log[i].alerts + [a]))
    case None => Put(log, Entry(IdOf(a), [a]))
  }

  function Run(window: Time, alerts: seq<Alert>): (log: Log)
    ensures NonEmpty(log)
  {
    if alerts == [] then [] else Process(window, Run(window, alerts[..|alerts| - 1]), alerts[|alerts| - 1])
  }

  predicate SeenBefore(a: Incident, b: Incident) {
    a.firstSeen <= b.firstSeen
  }

  function Built(log: Log): (all: seq<Incident>)
    requires NonEmpty(log)
    ensures |all| == |log| && forall i :: 0 <= i < |log| ==> all[i] == Build(log[i].id, log[i].alerts)
  {
    seq(|log|, i requires 0 <= i < |log| => Build(log[i].id, log[i].alerts))
  }

  /** all(): every incident, by first sighting. */
  function All(log: Log): seq<Incident>
    requires NonEmpty(log)
  {
    Sort(SeenBefore, Built(log))
  }

  // ------------------------------------------------------ the replay's risk

  datatype AggregateRisk = AggregateRisk(score: int, severity: string, incidents: nat, threats: nat, dominant: Option<IncidentId>)

  /** max(key=(risk_score, confidence)): the first of the strongest. */
  function Dominant(incidents: seq<Incident>): (i: nat)
    requires incidents != []
    ensures i < |incidents|
  {
    var n := |incidents| - 1;
    if n == 0 then 0
    else
      var best := Dominant(incidents[..n]);
      var a, b := incidents[best], incidents[n];
      if b.riskScore > a.riskScore || (b.riskScore == a.riskScore && b.confidence > a.confidence) then n else best
  }

  function AllThreats(incidents: seq<Incident>): set<string> {
    set i, t | i in incidents && t in i.threatTypes :: t
  }

  /** Three points for each further one, fifteen at most. */
  function Breadth(n: nat): nat {
    if n <= 1 then 0 else if (n - 1) * 3 < 15 then (n - 1) * 3 else 15
  }

  function Aggregate(incidents: seq<Incident>): AggregateRisk {
    if incidents == [] then AggregateRisk(0, "none", 0, 0, None)
    else
      var dominant := incidents[Dominant(incidents)];
      var total := dominant.riskScore + Breadth(|incidents|) + Breadth(|AllThreats(incidents)|);
      var score := if total < 100 then total else 100;
      AggregateRisk(score, SeverityOf(score), |incidents|, |AllThreats(incidents)|, Some(dominant.incidentId))
  }

  lemma {:induction false} DominantIsStrongest(incidents: seq<Incident>)
    requires incidents != []
    ensures forall i :: i in incidents ==> i.riskScore <= incidents[Dominant(incidents)].riskScore
  {
    var n := |incidents| - 1;
    if n > 0 {
      DominantIsStrongest(incidents[..n]);
      assert forall i :: i in incidents ==> i in incidents[..n] || i == incidents[n];
    }
  }

  /** The strongest incident anchors the replay's score: it is never averaged down, breadth adds thirty points at
      most, and one incident more never lowers it. */
  lemma AggregateIsAnchored(incidents: seq<Incident>, more: Incident)
    requires forall i :: i in incidents + [more] ==> 0 <= i.riskScore <= 100
    ensures forall i :: i in incidents ==> i.riskScore <= Aggregate(incidents).score <= 100
    ensures incidents != [] ==> Aggregate(incidents).score <= incidents[Dominant(incidents)].riskScore + 30
    ensures Aggregate(incidents).score <= Aggregate(incidents + [more]).score
  {
    var wider := incidents + [more];
    assert forall i :: i in incidents ==> i in wider;
    DominantIsStrongest(wider);
    assert more in wider;
    if incidents != [] {
      DominantIsStrongest(incidents);
      assert incidents[Dominant(incidents)] in wider;
      FewerThreats(incidents, more);
    }
  }

  lemma FewerThreats(incidents: seq<Incident>, more: Incident)
    ensures |AllThreats(incidents)| <= |AllThreats(incidents + [more])|
  {
    var rest := AllThreats(incidents + [more]) - AllThreats(incidents);
    assert forall i :: i in incidents ==> i in incidents + [more];
    assert AllThreats(incidents + [more]) == AllThreats(incidents) + rest;
  }

  // ------------------------------------------------------- the dictionaries

  type Members = map<IncidentId, seq<Alert>>

  function Entries(order: seq<IncidentId>, members: Members): (log: Log)
    ensures |log| == |order|
    ensures forall i :: 0 <= i < |log| ==> log[i] == Entry(order[i], if order[i] in members then members[order[i]] else [])
  {
    seq(|order|, i requires 0 <= i < |order| => Entry(order[i], if order[i] in members then members[order[i]] else []))
  }

  /** The incident shown under an id is built from the findings kept under it. */
  ghost predicate CurrentAt(incidents: map<IncidentId, Incident>, members: Members, id: IncidentId) {
    id in members ==> id in incidents && members[id] != [] && incidents[id] == Build(id, members[id])
  }

  ghost predicate Consistent(order: seq<IncidentId>, incidents: map<IncidentId, Incident>, members: Members) {
    && NoDuplicates(order)
    && (forall id :: id in incidents <==> id in order)
    && (forall id :: id in members <==> id in order)
    && (forall id :: CurrentAt(incidents, members, id))
  }

  lemma Shown(order: seq<IncidentId>, incidents: map<IncidentId, Incident>, members: Members, i: nat)
    requires Consistent(order, incidents, members) && i < |order|
    ensures var log := Entries(order, members);
      && order[i] in incidents && order[i] in members && members[order[i]] != [] && log[i] == Entry(order[i], members[order[i]])
      && incidents[order[i]].incidentId == order[i]
      && incidents[order[i]].srcIp == log[i].alerts[0].srcIp && incidents[order[i]].alertIds == Ids(log[i].alerts)
      && incidents[order[i]].firstSeen == First(log[i].alerts) && incidents[order[i]].lastSeen == Last(log[i].alerts)
  {
    assert order[i] in order && CurrentAt(incidents, members, order[i]);
  }

  lemma ShownIsBuilt(
      order: seq<IncidentId>, incidents: map<IncidentId, Incident>, members: Members, i: nat, built: seq<Incident>)
    requires Consistent(order, incidents, members) && i < |order|
    requires NonEmpty(Entries(order, members)) && built == Built(Entries(order, members))
    ensures order[i] in incidents && |built| == |order| && built[i] == incidents[order[i]]
  {
    Shown(order, incidents, members, i);
    assert CurrentAt(incidents, members, order[i]);
  }

  lemma ConsistentNonEmpty(order: seq<IncidentId>, incidents: map<IncidentId, Incident>, members: Members)
    requires Consistent(order, incidents, members)
    ensures NonEmpty(Entries(order, members))
  {
    forall i | 0 <= i < |order| ensures Entries(order, members)[i].alerts != [] {
      Shown(order, incidents, members, i);
    }
  }

  lemma PutNew(order: seq<IncidentId>, members: Members, id: IncidentId, alerts: seq<Alert>)
    requires id !in order
    ensures Entries(order + [id], members[id := alerts]) == Put(Entries(order, members), Entry(id, alerts))
  {
    var log := Entries(order, members);
    assert forall i :: 0 <= i < |order| ==> order[i] in order && log[i].id == order[i];
    assert Find(log, id) == None;
    var next := Entries(order + [id], members[id := alerts]);
    assert next == log + [Entry(id, alerts)];
  }

  lemma PutKnown(order: seq<IncidentId>, members: Members, id: IncidentId, alerts: seq<Alert>)
    requires NoDuplicates(order) && id in order
    ensures Entries(order, members[id := alerts]) == Put(Entries(order, members), Entry(id, alerts))
  {
    var log := Entries(order, members);
    var k :| 0 <= k < |order| && order[k] == id;
    assert log[k].id == id;
    var at := Find(log, id).value;
    assert order[at] == id && at == k;
    var next := Entries(order, members[id := alerts]);
    forall i | 0 <= i < |order| ensures next[i] == log[k := Entry(id, alerts)][i] {
      assert order[i] == id ==> i == k;
    }
  }

  lemma PutConsistent(order: seq<IncidentId>, incidents: map<IncidentId, Incident>, members: Members, id: IncidentId, alerts: seq<Alert>)
    requires Consistent(order, incidents, members) && alerts != []
    ensures Consistent(if id in order then order else order + [id], incidents[id := Build(id, alerts)], members[id := alerts])
  {
    var shown, kept := incidents[id := Build(id, alerts)], members[id := alerts];
    forall other ensures CurrentAt(shown, kept, other) {
      assert CurrentAt(incidents, members, other);
    }
  }

  /** One round of the search, on the shown fields. */
  lemma BestStep(window: Time, log: Log, i: nat, a: Alert)
    requires NonEmpty(log) && i < |log|
    ensures var best := Best(window, log[..i], a);
      Best(window, log[..i + 1], a) ==
        if Active(window, log[i], a) && (best.None? || Last(log[i].alerts) > Last(log[best.value].alerts)) then Some(i) else best
  {
    assert log[..i + 1][..i] == log[..i];
  }

  class IncidentStore {
    const window: Time
    var order: seq<IncidentId>
    var incidents: map<IncidentId, Incident>
    var alertsByIncident: Members

    ghost predicate Valid()
      reads this
    {
      Consistent(order, incidents, alertsByIncident) && NonEmpty(Log())
    }

    ghost function Log(): (log: Log)
      reads this
      ensures |log| == |order|
    {
      Entries(order, alertsByIncident)
    }

    constructor (window: Time)
      requires window > 0.0
      ensures this.window == window && Valid() && Log() == []
    {
      this.window := window;
      order, incidents, alertsByIncident := [], map[], map[];
    }

    method ActiveIncident(alert: Alert) returns (active: Option<IncidentId>)
      requires Valid()
      ensures active == match Best(window, Log(), alert) case None => None case Some(i) => Some(order[i])
      ensures active.Some? ==> active.value in incidents
    {
      ghost var log := Log();
      active := None;
      ghost var at: Option<nat> := None;
      for i := 0 to |order|
        invariant at == Best(window, log[..i], alert)
        invariant active == if at.None? then None else Some(order[at.value])
      {
        BestStep(window, log, i, alert);
        Shown(order, incidents, alertsByIncident, i);
        if at.Some? { Shown(order, incidents, alertsByIncident, at.value); }
        var incident := incidents[order[i]];
        if && incident.srcIp == alert.srcIp
           && alert.windowStart - incident.lastSeen <= window
           && alert.windowEnd >= incident.firstSeen - window
           && (active.None? || incident.lastSeen > incidents[active.value].lastSeen) {
          active, at := Some(order[i]), Some(i);
        }
      }
      assert log[..|order|] == log;
      if at.Some? { Shown(order, incidents, alertsByIncident, at.value); }
    }

    /** Store an incident under its id, new or known. */
    method Keep(id: IncidentId, alerts: seq<Alert>)
      requires Valid() && alerts != []
      modifies this
      ensures Valid() && Log() == Put(old(Log()), Entry(id, alerts))
      ensures id in incidents && incidents[id] == Build(id, alerts)
    {
      PutConsistent(order, incidents, alertsByIncident, id, alerts);
      if id !in incidents {
        PutNew(order, alertsByIncident, id, alerts);
        order := order + [id];
      } else {
        PutKnown(order, alertsByIncident, id, alerts);
      }
      incidents := incidents[id := Build(id, alerts)];
      alertsByIncident := alertsByIncident[id := alerts];
      ConsistentNonEmpty(order, incidents, alertsByIncident);
    }

    /** One finding: unchanged if its incident has it already, else into the active incident or a new one. */
    method ProcessAlert(alert: Alert) returns (incident: Incident)
      requires Valid()
      modifies this
      ensures Valid() && Log() == Process(window, old(Log()), alert)
      ensures alert.alertId in incident.alertIds && incident.incidentId in incidents
      ensures incident == incidents[incident.incidentId]
    {
      var active := ActiveIncident(alert);
      ghost var at := Best(window, Log(), alert);
      if active.None? {
        Keep(IdOf(alert), [alert]);
        return incidents[IdOf(alert)];
      }
      var id := active.value;
      Shown(order, incidents, alertsByIncident, at.value);
      if alert.alertId in incidents[id].alertIds {
        return incidents[id];
      }
      var alerts := alertsByIncident[id] + [alert];
      assert Ids(alerts)[|alerts| - 1] == alert.alertId;
      Keep(id, alerts);
      incident := incidents[id];
    }

    /** The dictionary's values, in its order. */
    static method ValuesInOrder(order: seq<IncidentId>, incidents: map<IncidentId, Incident>, ghost built: seq<Incident>)
      returns (values: seq<Incident>)
      requires |order| == |built| && forall i :: 0 <= i < |order| ==> order[i] in incidents && incidents[order[i]] == built[i]
      ensures values == built
    {
      values := [];
      for i := 0 to |order|
        invariant |values| == i && forall k :: 0 <= k < i ==> values[k] == built[k]
      {
        values := values + [incidents[order[i]]];
      }
    }

    method AllIncidents() returns (all: seq<Incident>)
      requires Valid()
      ensures all == All(Log())
    {
      ghost var built := Built(Log());
      forall i | 0 <= i < |order| ensures order[i] in incidents && incidents[order[i]] == built[i] {
        ShownIsBuilt(order, incidents, alertsByIncident, i, built);
      }
      var unsorted := ValuesInOrder(order, incidents, built);
      all := Sort(SeenBefore, unsorted);
    }
  }
}
