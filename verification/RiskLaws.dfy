/** What an incident and the replay's risk show of the findings (src/aegisflow/incidents.py). */
module RiskLaws {
  import opened Records
  import opened Ordering
  import opened Incidents
  import Findings
  import Pipeline

  // -------------------------------------------------------- threats and score

  /** What the policy gives for each threat type. */
  const POINTS: map<string, nat> := map[
    "reconnaissance" := 15, "denial_of_service" := 25, "dns_threat" := 25, "command_and_control" := 35,
    "data_exfiltration" := 40]

  function Points(threat: string): nat {
    if threat in POINTS then POINTS[threat] else 10
  }

  function Capped(score: int): int {
    if score < 100 then score else 100
  }

  lemma {:induction false} KnownAdds(known: seq<string>, threats: set<string>, t: string)
    requires NoDuplicates(known) && t !in threats
    ensures KnownWeight(known, threats + {t}) == KnownWeight(known, threats) + (if t in known then Weight(t) else 0)
  {
    if known == [] {
    } else {
      KnownAdds(known[1..], threats, t);
      assert t in known <==> t == known[0] || t in known[1..];
      assert known[0] !in known[1..];
    }
  }

  /** The weights of known threats and ten for each other one. */
  function ScoreBy(known: seq<string>, threats: set<string>): nat {
    KnownWeight(known, threats) + 10 * |threats - (set k | k in known)|
  }

  lemma ScoreByAdds(known: seq<string>, threats: set<string>, t: string)
    requires NoDuplicates(known) && t !in threats
    ensures ScoreBy(known, {}) == 0
    ensures ScoreBy(known, threats + {t}) == ScoreBy(known, threats) + (if t in known then Weight(t) else 10)
  {
    var others := set k | k in known;
    KnownNothing(known);
    assert {} - others == {};
    KnownAdds(known, threats, t);
    if t in known {
      assert (threats + {t}) - others == threats - others;
    } else {
      assert (threats + {t}) - others == (threats - others) + {t};
    }
  }

  lemma KnownAreDistinct()
    ensures NoDuplicates(KNOWN)
  {
    var k := KNOWN;
    assert |k[0]| == 14 && |k[1]| == 17 && |k[2]| == 10 && |k[3]| == 19 && |k[4]| == 17 && k[1][0] != k[4][1];
    assert k[1][1] == 'e' && k[4][1] == 'a';
  }

  lemma PointsAreWeights(t: string)
    ensures Points(t) == if t in KNOWN then Weight(t) else 10
  {
    assert t in KNOWN <==> t == KNOWN[0] || t == KNOWN[1] || t == KNOWN[2] || t == KNOWN[3] || t == KNOWN[4];
  }

  /** No threat counts nothing, and each further one counts its points. */
  lemma ThreatAdds(threats: set<string>, t: string)
    requires t !in threats
    ensures ThreatScore({}) == 0
    ensures ThreatScore(threats + {t}) == ThreatScore(threats) + Points(t)
  {
    KnownAreDistinct();
    PointsAreWeights(t);
    ScoreByAdds(KNOWN, threats, t);
    assert ThreatScore({}) == ScoreBy(KNOWN, {}) && ThreatScore(threats) == ScoreBy(KNOWN, threats);
    assert ThreatScore(threats + {t}) == ScoreBy(KNOWN, threats + {t});
  }

  lemma {:induction false} KnownNothing(known: seq<string>)
    ensures KnownWeight(known, {}) == 0
  {
    if known == [] {
    } else {
      KnownNothing(known[1..]);
    }
  }

  lemma {:induction false} SumOfEqual(alerts: seq<Alert>, confidence: real)
    requires forall a :: a in alerts ==> a.confidence == confidence
    ensures ConfidenceSum(alerts) == |alerts| as real * confidence
  {
    if alerts == [] {
    } else {
      var n := |alerts| - 1;
      assert alerts[n] in alerts;
      SumOfEqual(alerts[..n], confidence);
    }
  }

  lemma AverageOfEqual(alerts: seq<Alert>, confidence: real)
    requires alerts != [] && forall a :: a in alerts ==> a.confidence == confidence
    ensures Average(alerts) == confidence
  {
    SumOfEqual(alerts, confidence);
  }

  /** The confidence shown is the mean to three decimals. */
  lemma ConfidenceIsRounded(id: IncidentId, alerts: seq<Alert>) returns (thousandths: int)
    requires alerts != []
    ensures Build(id, alerts).confidence == thousandths as real / 1000.0
    ensures -0.5 <= thousandths as real - Average(alerts) * 1000.0 <= 0.5
  {
    thousandths := RoundHalfEven(Average(alerts) * 1000.0);
    RoundIsNear(Average(alerts) * 1000.0);
  }

  /** The mean: one more finding shifts the sum by its own confidence. */
  lemma AverageIsMean(alerts: seq<Alert>, a: Alert)
    requires alerts != []
    ensures Average([a]) == a.confidence
    ensures Average(alerts + [a]) * (|alerts| + 1) as real == Average(alerts) * |alerts| as real + a.confidence
  {
    AverageOfEqual([a], a.confidence);
    assert (alerts + [a])[..|alerts|] == alerts;
    var n := |alerts| as real;
    assert ConfidenceSum(alerts) / n * n == ConfidenceSum(alerts);
    var sum := ConfidenceSum(alerts) + a.confidence;
    assert sum / (n + 1.0) * (n + 1.0) == sum;
  }

  ghost predicate Detected(alerts: seq<Alert>, detector: string) {
    exists a :: a in alerts && a.detectorId == detector
  }

  ghost predicate Threatened(alerts: seq<Alert>, threat: string) {
    exists a :: a in alerts && a.threatType == threat
  }

  lemma ScoreOfParts(alerts: seq<Alert>, points: nat, detectors: nat, confidence: int)
    requires alerts != [] && points == ThreatScore(ThreatTypes(alerts)) && detectors == |DetectorIds(alerts)| > 0
    requires confidence == RoundHalfEven(Average(alerts) * 20.0)
    ensures RiskScore(alerts) == Capped(points + 8 * (detectors - 1) + confidence)
  {
  }

  lemma SetsAre(alerts: seq<Alert>, threats: set<string>, detectors: set<string>)
    requires alerts != []
    requires forall d :: d in detectors <==> Detected(alerts, d)
    requires forall t :: t in threats <==> Threatened(alerts, t)
    ensures threats == ThreatTypes(alerts) && detectors == DetectorIds(alerts) && |detectors| > 0
  {
    assert alerts[0] in alerts && Detected(alerts, alerts[0].detectorId);
  }

  /** A score is the points of the threats, eight for each detector after the first, and what the mean confidence
      gives, up to a hundred: one more detector adds eight, one more threat its points. */
  lemma ScoreIsSum(id: IncidentId, alerts: seq<Alert>, threats: set<string>, detectors: set<string>)
    requires alerts != []
    requires forall d :: d in detectors <==> Detected(alerts, d)
    requires forall t :: t in threats <==> Threatened(alerts, t)
    ensures Build(id, alerts).riskScore ==
      Capped(ThreatScore(threats) + 8 * (|detectors| - 1) + RoundHalfEven(Average(alerts) * 20.0))
  {
    SetsAre(alerts, threats, detectors);
    ScoreOfParts(alerts, ThreatScore(threats), |detectors|, RoundHalfEven(Average(alerts) * 20.0));
  }

  /** An incident of one threat, found with one confidence. */
  lemma ScoreOfOneThreat(id: IncidentId, alerts: seq<Alert>, threat: string, detectors: set<string>, confidence: real)
    requires alerts != [] && forall a :: a in alerts ==> a.threatType == threat && a.confidence == confidence
    requires forall d :: d in detectors <==> Detected(alerts, d)
    ensures Build(id, alerts).riskScore == Capped(Points(threat) + 8 * (|detectors| - 1) + RoundHalfEven(confidence * 20.0))
  {
    OneThreat(alerts, threat);
    SetsAre(alerts, {threat}, detectors);
    AverageOfEqual(alerts, confidence);
    ScoreOfParts(alerts, Points(threat), |detectors|, RoundHalfEven(confidence * 20.0));
  }

  lemma OneThreat(alerts: seq<Alert>, threat: string)
    requires alerts != [] && forall a :: a in alerts ==> a.threatType == threat
    ensures ThreatScore({threat}) == Points(threat) && forall t :: t in {threat} <==> Threatened(alerts, t)
  {
    assert alerts[0] in alerts && Threatened(alerts, threat);
    ThreatAdds({}, threat);
    assert {} + {threat} == {threat};
  }

  // ------------------------------------------------------ what incidents show

  /** An incident shows exactly what its findings say: its window is their hull, and nothing is added or lost. */
  lemma IncidentShowsItsFindings(id: IncidentId, alerts: seq<Alert>)
    requires alerts != []
    ensures var i := Build(id, alerts);
      && i.incidentId == id && i.srcIp == alerts[0].srcIp && i.status == "open"
      && |i.alertIds| == |alerts| && (forall k :: 0 <= k < |alerts| ==> i.alertIds[k] == alerts[k].alertId)
      && (forall d :: d in i.detectorIds <==> exists a :: a in alerts && a.detectorId == d)
      && (forall t :: t in i.threatTypes <==> exists a :: a in alerts && a.threatType == t)
      && (forall a :: a in alerts ==> i.firstSeen <= a.windowStart && a.windowEnd <= i.lastSeen)
      && (exists a :: a in alerts && a.windowStart == i.firstSeen)
      && (exists a :: a in alerts && a.windowEnd == i.lastSeen)
  {
    FirstIsLeast(alerts);
    LastIsGreatest(alerts);
  }

  /** Incidents are listed by first sighting; those seen first at the same moment stay as they entered. */
  lemma IncidentsInOrder(log: Log, i: nat, j: nat)
    requires NonEmpty(log) && i < j < |All(log)|
    ensures All(log)[i].firstSeen <= All(log)[j].firstSeen
    ensures |All(log)| == |log| && multiset(All(log)) == multiset(Built(log))
    ensures forall t: Time :: SeenFirstAt(All(log), t) == SeenFirstAt(Built(log), t)
  {
    SortSorts(SeenBefore, Built(log));
    SortPermutes(SeenBefore, Built(log));
    assert SeenBefore(All(log)[i], All(log)[j]);
    forall t: Time ensures SeenFirstAt(All(log), t) == SeenFirstAt(Built(log), t) {
      TiesStay(Built(log), t);
    }
  }

  lemma SessionIncidentsInOrder(alerts: seq<Alert>, i: nat, j: nat)
    requires i < j < |Pipeline.IncidentsOf(alerts)|
    ensures Pipeline.IncidentsOf(alerts)[i].firstSeen <= Pipeline.IncidentsOf(alerts)[j].firstSeen
  {
    IncidentsInOrder(Run(Pipeline.WINDOW, Findings.Resolve(alerts)), i, j);
  }

  function SeenFirstAt(incidents: seq<Incident>, t: Time): seq<Incident> {
    if incidents == [] then []
    else if incidents[0].firstSeen == t then [incidents[0]] + SeenFirstAt(incidents[1..], t)
    else SeenFirstAt(incidents[1..], t)
  }

  lemma {:induction false} SeenFirstArePeers(incidents: seq<Incident>, y: Incident)
    ensures SeenFirstAt(incidents, y.firstSeen) == Peers(SeenBefore, y, incidents)
  {
    if incidents == [] {
    } else {
      SeenFirstArePeers(incidents[1..], y);
    }
  }

  lemma TiesStay(built: seq<Incident>, t: Time)
    ensures SeenFirstAt(Sort(SeenBefore, built), t) == SeenFirstAt(built, t)
  {
    var y := Incident(IncidentId("", TextOf(t)), "", t, t, [], {}, {}, 0.0, 0, "", "");
    SeenFirstArePeers(built, y);
    SeenFirstArePeers(Sort(SeenBefore, built), y);
    SortIsStable(SeenBefore, built, y);
  }

  // ------------------------------------------------------- the replay's risk

  predicate Stronger(a: Incident, b: Incident) {
    a.riskScore > b.riskScore || (a.riskScore == b.riskScore && a.confidence > b.confidence)
  }

  lemma {:induction false} DominantIsFirstOfStrongest(incidents: seq<Incident>)
    requires incidents != []
    ensures var d := Dominant(incidents);
      && (forall i :: 0 <= i < d ==> Stronger(incidents[d], incidents[i]))
      && (forall i :: 0 <= i < |incidents| ==> !Stronger(incidents[i], incidents[d]))
  {
    var n := |incidents| - 1;
    if n > 0 {
      DominantIsFirstOfStrongest(incidents[..n]);
    }
  }

  /** The replay's score is that of its strongest incident, of several the first, with three points for each further
      incident and each further threat, fifteen at most for either, and a hundred in all. */
  lemma AggregateIsExact(incidents: seq<Incident>, d: nat, threats: set<string>)
    requires d < |incidents|
    requires forall i :: 0 <= i < d ==> Stronger(incidents[d], incidents[i])
    requires forall i :: 0 <= i < |incidents| ==> !Stronger(incidents[i], incidents[d])
    requires forall t :: t in threats <==> exists i :: i in incidents && t in i.threatTypes
    ensures var r := Aggregate(incidents); var n, m := |incidents|, |threats|;
      && r.dominant == Some(incidents[d].incidentId) && r.incidents == n && r.threats == m
      && r.score == Capped(incidents[d].riskScore + (if n >= 6 then 15 else 3 * (n - 1)) + (if m >= 6 then 15 else if m == 0 then 0 else 3 * (m - 1)))
      && r.severity == (if r.score >= 80 then "critical" else if r.score >= 60 then "high" else if r.score >= 35 then "medium" else "low")
  {
    DominantIsFirstOfStrongest(incidents);
    var e := Dominant(incidents);
    assert !Stronger(incidents[e], incidents[d]) && !Stronger(incidents[d], incidents[e]);
    assert d == e;
    assert AllThreats(incidents) == threats;
  }
}
