/** Identities, headers and refusals of an export (src/aegisflow/siem_export.py). */
module ExportLaws {
  import opened Records
  import opened Ordering
  import opened Export

  // ------------------------------------------------------ what events carry

  /** The addresses that some of these alerts went to. */
  ghost predicate WentTo(alerts: seq<Alert>, d: string) {
    d != "" && exists a :: a in alerts && a.dstIp == Some(d)
  }

  /** Identity and destinations of one event of a report. */
  ghost predicate Carries(r: Report, e: Event) {
    && e.eventId == EventId(r.runId, r, e.incident.incidentId)
    && forall d :: d in e.destinations <==> WentTo(e.alerts, d)
  }

  lemma EventCarries(r: Report, i: IncidentRecord, evidence: seq<Alert>)
    ensures Carries(r, EventOf(r, i, evidence)) && EventOf(r, i, evidence).incident == i
  {
    var e := EventOf(r, i, evidence);
    SortPermutes(ByAlertId, evidence);
    forall a ensures a in e.alerts <==> a in evidence {
      SameMembers(e.alerts, evidence, a);
    }
    forall d ensures d in e.destinations <==> WentTo(e.alerts, d) {
      if d in e.destinations {
        var a :| a in evidence && a.dstIp.Some? && a.dstIp.value != "" && a.dstIp.value == d;
        assert a in e.alerts && a.dstIp == Some(d);
      }
      if WentTo(e.alerts, d) {
        var a :| a in e.alerts && a.dstIp == Some(d);
        assert a in evidence && a.dstIp.value == d;
      }
    }
  }

  lemma {:induction false} CheckedCarry(r: Report, index: Index, incidents: seq<IncidentRecord>)
    requires CheckIncidents(r, index, incidents).Ok?
    ensures forall e :: e in CheckIncidents(r, index, incidents).value.events ==> Carries(r, e)
    ensures |CheckIncidents(r, index, incidents).value.events| == |incidents|
  {
    if incidents == [] {
    } else {
      var n := |incidents| - 1;
      CheckedCarry(r, index, incidents[..n]);
      var p := CheckIncidents(r, index, incidents[..n]).value;
      var links := LinkAll(index, incidents[n].srcIp, p.linked, incidents[n].alertIds);
      EventCarries(r, incidents[n], links.value.evidence);
    }
  }

  /** Every event is under the id of its run, its snapshot and its own incident, and goes where its alerts went; the
      header counts the report's incidents and alerts and repeats its run and quality. */
  lemma EventsCarryTheirIdentity(r: Report)
    requires Export.Export(r).Ok?
    ensures var x := Export.Export(r).value;
      && (forall e :: e in x.events ==> Carries(r, e))
      && x.runId == r.runId && x.quality == r.quality
      && x.eventCount == |x.events| == |r.incidents| && x.alertCount == |r.alerts|
  {
    var index := IndexAlerts(r.alerts).value;
    CheckedCarry(r, index, r.incidents);
    var unsorted := CheckIncidents(r, index, r.incidents).value.events;
    SortPermutes(ByIncidentId, unsorted);
    var events := Export.Export(r).value.events;
    forall e | e in events ensures Carries(r, e) {
      SameMembers(events, unsorted, e);
    }
    assert |events| == |multiset(events)| == |multiset(unsorted)|;
  }

  /** Within an export an event id names one event. */
  lemma EventIdsAreUnique(r: Report, i: nat, j: nat)
    requires Export.Export(r).Ok? && i < j < |Export.Export(r).value.events|
    ensures Export.Export(r).value.events[i].eventId != Export.Export(r).value.events[j].eventId
    ensures Precedes(Export.Export(r).value.events[i].incident.incidentId, Export.Export(r).value.events[j].incident.incidentId)
  {
    var events := Export.Export(r).value.events;
    EventsCarryTheirIdentity(r);
    ExportedIffWellLinked(r);
    ExportIsFaithful(r);
    var index := IndexAlerts(r.alerts).value;
    var unsorted := CheckIncidents(r, index, r.incidents).value.events;
    IndexedIff(r.alerts);
    CheckedFaithful(r, r.alerts, index, r.incidents);
    DifferentIncidents(r, unsorted);
    SortPermutes(ByIncidentId, unsorted);
    PairwisePermuted(OtherIncident, unsorted, events);
    assert OtherIncident(events[i], events[j]) && ByIncidentId(events[i], events[j]);
    assert events[i] in events && events[j] in events;
  }

  predicate OtherIncident(e: Event, f: Event) {
    e.incident.incidentId != f.incident.incidentId
  }

  lemma DifferentIncidents(r: Report, unsorted: seq<Event>)
    requires AllFaithful(r.alerts, r.incidents, unsorted) && WellLinked(r.alerts, r.incidents)
    ensures Pairwise(OtherIncident, unsorted)
  {
    forall i, j | 0 <= i < j < |unsorted| ensures OtherIncident(unsorted[i], unsorted[j]) {
      assert Faithful(r.alerts, r.incidents[i], unsorted[i]) && Faithful(r.alerts, r.incidents[j], unsorted[j]);
      assert Unrelated(r.incidents[i], r.incidents[j]);
    }
  }

  /** Across exports, event ids agree exactly for the same incident of the same snapshot: stable when an export is
      repeated, different for another run or changed evidence. */
  lemma EventIdsIdentify(r: Report, s: Report, e: Event, f: Event)
    requires Export.Export(r).Ok? && Export.Export(s).Ok?
    requires e in Export.Export(r).value.events && f in Export.Export(s).value.events
    ensures e.eventId == f.eventId <==> r == s && e.incident.incidentId == f.incident.incidentId
    ensures e.eventId == f.eventId ==> e == f
  {
    EventsCarryTheirIdentity(r);
    EventsCarryTheirIdentity(s);
    if e.eventId == f.eventId {
      var events := Export.Export(r).value.events;
      var i :| 0 <= i < |events| && events[i] == e;
      var j :| 0 <= j < |events| && events[j] == f;
      if i < j {
        EventIdsAreUnique(r, i, j);
      } else if j < i {
        EventIdsAreUnique(r, j, i);
      }
    }
  }

  // ------------------------------------------------------ refusals are true

  ghost predicate SomeIncident(r: Report, why: IncidentRecord -> bool) {
    exists i :: i in r.incidents && why(i)
  }

  /** What each refusal of the export says is so. */
  ghost predicate Truly(r: Report, e: ExportError) {
    match e
    case NotCompleted => r.status != "completed"
    case InvalidIdentity(name) =>
      || (name == "run_id" && !(0 < |r.runId| <= 256))
      || (name == "alert_id" && exists a :: a in r.alerts && !(0 < |a.alertId| <= 256))
      || (name == "incident_id" && SomeIncident(r, (i: IncidentRecord) => !(0 < |i.incidentId| <= 256)))
      || (name == "incident source" && SomeIncident(r, (i: IncidentRecord) => !(0 < |i.srcIp| <= 256)))
      || (name == "alert reference" && SomeIncident(r, (i: IncidentRecord) => exists ref | ref in i.alertIds :: !(0 < |ref| <= 256)))
    case TooMany => |r.incidents| > 5000 || |r.alerts| > 20000
    case TooBig => r.bytes > 16777216
    case NoQuality => r.quality !in {"healthy", "degraded", "unusable"}
    case DuplicateAlert => !NoDuplicates(Ids(r.alerts))
    case DuplicateIncident => exists i, j :: 0 <= i < j < |r.incidents| && r.incidents[i].incidentId == r.incidents[j].incidentId
    case Reversed => SomeIncident(r, (i: IncidentRecord) => i.firstSeen > i.lastSeen)
    case InvalidNumber(name) =>
      || (name == "incident risk" && SomeIncident(r, (i: IncidentRecord) => !(0.0 <= i.riskScore <= 100.0)))
      || (name == "incident confidence" && SomeIncident(r, (i: IncidentRecord) => !(0.0 <= i.confidence <= 1.0)))
    case UnknownSeverity => SomeIncident(r, (i: IncidentRecord) => i.severity !in {"low", "medium", "high", "critical"})
    case NoReferences => SomeIncident(r, (i: IncidentRecord) => i.alertIds == [])
    case BadReference => MissingOrTwice(r)
    case SourceDiffers => exists i, a :: i in r.incidents && a in r.alerts && a.alertId in i.alertIds && a.srcIp != i.srcIp
    case Unlinked => exists a :: a in r.alerts && forall i :: i in r.incidents ==> a.alertId !in i.alertIds
  }

  /** A reference to no alert, or a second one to the same. */
  ghost predicate MissingOrTwice(r: Report) {
    || (exists i, ref :: i in r.incidents && ref in i.alertIds && ref !in Ids(r.alerts))
    || (exists i :: i in r.incidents && !NoDuplicates(i.alertIds))
    || (exists i, j, ref :: 0 <= i < j < |r.incidents| && ref in r.incidents[i].alertIds && ref in r.incidents[j].alertIds)
  }

  /** An index holds alerts of the report, each under its id. */
  ghost predicate Indexes(alerts: seq<Alert>, index: Index) {
    && (forall id :: id in index <==> id in Ids(alerts))
    && (forall id :: id in index ==> index[id] in alerts && index[id].alertId == id)
  }

  lemma {:induction false} IndexTruth(alerts: seq<Alert>)
    ensures IndexAlerts(alerts).Ok? ==> Indexes(alerts, IndexAlerts(alerts).value)
    ensures IndexAlerts(alerts) == Err(DuplicateAlert) ==> !NoDuplicates(Ids(alerts))
    ensures IndexAlerts(alerts).Err? ==>
      || IndexAlerts(alerts).error == DuplicateAlert
      || (IndexAlerts(alerts).error == InvalidIdentity("alert_id") && exists a :: a in alerts && !(0 < |a.alertId| <= 256))
  {
    if alerts == [] {
    } else {
      var n := |alerts| - 1;
      IndexTruth(alerts[..n]);
      assert Ids(alerts) == Ids(alerts[..n]) + [alerts[n].alertId];
      assert alerts[n] in alerts && forall a :: a in alerts[..n] ==> a in alerts;
      var before := IndexAlerts(alerts[..n]);
      if before.Ok? && alerts[n].alertId in before.value {
        var k :| 0 <= k < n && Ids(alerts[..n])[k] == alerts[n].alertId;
        assert Ids(alerts)[k] == Ids(alerts)[n];
      }
      if before == Err(DuplicateAlert) {
        var i, j :| 0 <= i < j < n && Ids(alerts[..n])[i] == Ids(alerts[..n])[j];
        assert Ids(alerts)[i] == Ids(alerts)[j];
      }
    }
  }

  /** What the loop over references found wrong. */
  ghost predicate LinkTruth(index: Index, source: string, linked: set<string>, references: seq<string>, e: ExportError) {
    || (e == InvalidIdentity("alert reference") && exists ref :: ref in references && !(0 < |ref| <= 256))
    || (e == BadReference && ((exists ref :: ref in references && (ref !in index || ref in linked)) || !NoDuplicates(references)))
    || (e == SourceDiffers && exists ref :: ref in references && ref in index && index[ref].srcIp != source)
  }

  lemma {:induction false} LinkRefusals(index: Index, source: string, linked: set<string>, references: seq<string>)
    ensures var all := LinkAll(index, source, linked, references);
      && (all.Err? ==> LinkTruth(index, source, linked, references, all.error))
      && (all.Ok? ==> forall ref :: ref in all.value.linked <==> ref in linked || ref in references)
  {
    if references == [] {
    } else {
      var n := |references| - 1;
      LinkRefusals(index, source, linked, references[..n]);
      assert references[n] in references && forall ref :: ref in references[..n] ==> ref in references;
      assert forall ref :: ref in references <==> ref in references[..n] || ref == references[n];
      if references[n] in references[..n] {
        var k :| 0 <= k < n && references[..n][k] == references[n];
        assert references[k] == references[n];
      }
    }
  }

  lemma FieldTruth(r: Report, i: IncidentRecord, seen: set<string>)
    requires i in r.incidents && CheckFields(i, seen).Some? && CheckFields(i, seen) != Some(DuplicateIncident)
    ensures Truly(r, CheckFields(i, seen).value)
  {
    assert CheckFields(i, seen) == Some(InvalidIdentity("incident_id")) ==> SomeIncident(r, (x: IncidentRecord) => !(0 < |x.incidentId| <= 256));
  }

  /** What the loop over incidents has taken in. */
  ghost predicate TookIn(incidents: seq<IncidentRecord>, p: Progress) {
    && (forall id :: id in p.seen <==> exists i :: 0 <= i < |incidents| && incidents[i].incidentId == id)
    && (forall ref :: ref in p.linked <==> exists i :: 0 <= i < |incidents| && ref in incidents[i].alertIds)
  }

  lemma TookInNext(r: Report, index: Index, incidents: seq<IncidentRecord>, p: Progress, i: IncidentRecord)
    requires TookIn(incidents, p) && IncidentStep(r, index, p, i).Ok?
    ensures TookIn(incidents + [i], IncidentStep(r, index, p, i).value)
  {
    LinkRefusals(index, i.srcIp, p.linked, i.alertIds);
    var all := incidents + [i];
    assert forall k :: 0 <= k < |incidents| ==> all[k] == incidents[k];
    assert all[|incidents|] == i;
  }

  lemma StepTruth(r: Report, index: Index, n: nat, p: Progress)
    requires n < |r.incidents| && Indexes(r.alerts, index) && TookIn(r.incidents[..n], p)
    requires IncidentStep(r, index, p, r.incidents[n]).Err?
    ensures Truly(r, IncidentStep(r, index, p, r.incidents[n]).error)
  {
    var i := r.incidents[n];
    var wrong := CheckFields(i, p.seen);
    assert i in r.incidents;
    if wrong == Some(DuplicateIncident) {
      var k :| 0 <= k < n && r.incidents[..n][k].incidentId == i.incidentId;
      assert r.incidents[k].incidentId == r.incidents[n].incidentId;
    } else if wrong.Some? {
      FieldTruth(r, i, p.seen);
    } else {
      LinkStepTruth(r, index, n, p);
    }
  }

  lemma LinkStepTruth(r: Report, index: Index, n: nat, p: Progress)
    requires n < |r.incidents| && Indexes(r.alerts, index) && TookIn(r.incidents[..n], p)
    requires var i := r.incidents[n]; LinkAll(index, i.srcIp, p.linked, i.alertIds).Err?
    ensures var i := r.incidents[n]; Truly(r, LinkAll(index, i.srcIp, p.linked, i.alertIds).error)
  {
    var i := r.incidents[n];
    LinkRefusals(index, i.srcIp, p.linked, i.alertIds);
    var e := LinkAll(index, i.srcIp, p.linked, i.alertIds).error;
    assert i in r.incidents;
    if e == SourceDiffers {
      var ref :| ref in i.alertIds && ref in index && index[ref].srcIp != i.srcIp;
      assert index[ref] in r.alerts;
    } else if e == BadReference {
      if ref :| ref in i.alertIds && ref in p.linked {
        var k :| 0 <= k < n && ref in r.incidents[..n][k].alertIds;
        assert ref in r.incidents[k].alertIds;
      }
    } else {
      assert SomeIncident(r, (x: IncidentRecord) => exists ref | ref in x.alertIds :: !(0 < |ref| <= 256));
    }
  }

  /** Where the loop over the first incidents stands: what it took in, or what it found wrong. */
  ghost predicate TruthAt(r: Report, index: Index, n: nat)
    requires n <= |r.incidents|
  {
    var c := CheckIncidents(r, index, r.incidents[..n]);
    if c.Ok? then TookIn(r.incidents[..n], c.value) else Truly(r, c.error)
  }

  lemma TruthNext(r: Report, index: Index, n: nat)
    requires n < |r.incidents| && Indexes(r.alerts, index) && TruthAt(r, index, n)
    ensures TruthAt(r, index, n + 1)
  {
    var before := CheckIncidents(r, index, r.incidents[..n]);
    assert r.incidents[..n + 1][..n] == r.incidents[..n];
    assert r.incidents[..n + 1] == r.incidents[..n] + [r.incidents[n]];
    if before.Ok? {
      if IncidentStep(r, index, before.value, r.incidents[n]).Ok? {
        TookInNext(r, index, r.incidents[..n], before.value, r.incidents[n]);
      } else {
        StepTruth(r, index, n, before.value);
      }
    }
  }

  lemma {:induction false} IncidentsTruth(r: Report, index: Index, n: nat)
    requires n <= |r.incidents| && Indexes(r.alerts, index)
    ensures TruthAt(r, index, n)
  {
    if n == 0 {
    } else {
      IncidentsTruth(r, index, n - 1);
      TruthNext(r, index, n - 1);
    }
  }

  /** Whatever the export refuses, it refuses for a defect that the report has. */
  lemma RefusalsAreTrue(r: Report)
    requires Export.Export(r).Err?
    ensures Truly(r, Export.Export(r).error)
  {
    IndexTruth(r.alerts);
    if Preamble(r).None? && IndexAlerts(r.alerts).Ok? {
      var index := IndexAlerts(r.alerts).value;
      assert r.incidents[..|r.incidents|] == r.incidents;
      IncidentsTruth(r, index, |r.incidents|);
      var c := CheckIncidents(r, index, r.incidents);
      if c.Ok? && c.value.linked != index.Keys {
        UnlinkedTruth(r, index, c.value);
      }
    }
  }

  lemma UnlinkedTruth(r: Report, index: Index, p: Progress)
    requires Indexes(r.alerts, index) && TookIn(r.incidents, p) && p.linked != index.Keys
    requires CheckIncidents(r, index, r.incidents) == Ok(p)
    ensures Truly(r, Unlinked)
  {
    LinkedAreIndexed(r, index, r.incidents);
    var id :| id in index && id !in p.linked;
    var a := index[id];
    forall i | i in r.incidents ensures a.alertId !in i.alertIds {
      var k :| 0 <= k < |r.incidents| && r.incidents[k] == i;
    }
    assert a in r.alerts;
  }

  lemma {:induction false} LinkedAreIndexed(r: Report, index: Index, incidents: seq<IncidentRecord>)
    requires CheckIncidents(r, index, incidents).Ok?
    ensures CheckIncidents(r, index, incidents).value.linked <= index.Keys
  {
    if incidents == [] {
    } else {
      var n := |incidents| - 1;
      LinkedAreIndexed(r, index, incidents[..n]);
      var p := CheckIncidents(r, index, incidents[..n]).value;
      LinkedIff(index, incidents[n].srcIp, p.linked, incidents[n].alertIds);
      LinkRefusals(index, incidents[n].srcIp, p.linked, incidents[n].alertIds);
    }
  }

  // ------------------------------------------------------ what is exported

  /** A name of at most 256 characters. */
  predicate IsNamed(s: string) {
    0 < |s| <= 256
  }

  /** Complete, named, of recognised quality and within the limits. */
  predicate HeaderFine(r: Report) {
    && r.status == "completed" && IsNamed(r.runId) && |r.incidents| <= 5000 && |r.alerts| <= 20000 && r.bytes <= 16777216
    && r.quality in {"healthy", "degraded", "unusable"}
  }

  predicate IncidentFine(i: IncidentRecord) {
    && IsNamed(i.incidentId) && IsNamed(i.srcIp) && i.firstSeen <= i.lastSeen
    && 0.0 <= i.riskScore <= 100.0 && 0.0 <= i.confidence <= 1.0
    && i.severity in {"low", "medium", "high", "critical"} && i.alertIds != []
  }

  /** Each reference names an alert of the incident's source, and none twice. */
  ghost predicate LinksFine(alerts: seq<Alert>, i: IncidentRecord) {
    && NoDuplicates(i.alertIds)
    && forall ref :: ref in i.alertIds ==> exists a :: a in alerts && a.alertId == ref && a.srcIp == i.srcIp
  }

  ghost predicate Apart(incidents: seq<IncidentRecord>) {
    forall i, j :: 0 <= i < j < |incidents| ==>
      incidents[i].incidentId != incidents[j].incidentId && forall ref :: ref in incidents[i].alertIds ==> ref !in incidents[j].alertIds
  }

  ghost predicate Exportable(r: Report) {
    && HeaderFine(r) && Apart(r.incidents) && NoDuplicates(Ids(r.alerts))
    && (forall i :: i in r.incidents ==> IncidentFine(i) && LinksFine(r.alerts, i))
    && (forall a :: a in r.alerts ==> IsNamed(a.alertId) && exists i :: i in r.incidents && a.alertId in i.alertIds)
  }

  lemma PreambleIff(r: Report)
    ensures Preamble(r).None? <==> HeaderFine(r)
  {
  }

  lemma FieldsFineIff(alerts: seq<Alert>, i: IncidentRecord)
    ensures FieldsFine(i) && ReferencesFine(alerts, i) <==> IncidentFine(i) && LinksFine(alerts, i)
  {
  }

  lemma UnrelatedIff(incidents: seq<IncidentRecord>)
    ensures Pairwise(Unrelated, incidents) <==> Apart(incidents)
  {
    if Apart(incidents) {
      forall i, j | 0 <= i < j < |incidents| ensures Unrelated(incidents[i], incidents[j]) {
      }
    }
    if Pairwise(Unrelated, incidents) {
      forall i, j | 0 <= i < j < |incidents|
        ensures incidents[i].incidentId != incidents[j].incidentId && forall ref :: ref in incidents[i].alertIds ==> ref !in incidents[j].alertIds
      {
        assert Unrelated(incidents[i], incidents[j]);
      }
    }
  }

  /** A report is exported exactly if it is complete, named and within the limits, and every alert of it stands in
      exactly one incident, in range and of its source. */
  lemma ExportedIffExportable(r: Report)
    ensures Export.Export(r).Ok? <==> Exportable(r)
  {
    ExportedIffWellLinked(r);
    PreambleIff(r);
    UnrelatedIff(r.incidents);
    LinkedIffExportable(r);
  }

  lemma EachFineIff(alerts: seq<Alert>, incidents: seq<IncidentRecord>)
    ensures (forall i :: i in incidents ==> FieldsFine(i) && ReferencesFine(alerts, i)) <==>
      (forall i :: i in incidents ==> IncidentFine(i) && LinksFine(alerts, i))
  {
    forall i | i in incidents ensures FieldsFine(i) && ReferencesFine(alerts, i) <==> IncidentFine(i) && LinksFine(alerts, i) {
      FieldsFineIff(alerts, i);
    }
  }

  lemma EachNamedIff(alerts: seq<Alert>, incidents: seq<IncidentRecord>)
    ensures (forall a :: a in alerts ==> IsIdentity(a.alertId) && Referenced(incidents, a.alertId)) <==>
      (forall a :: a in alerts ==> IsNamed(a.alertId) && exists i :: i in incidents && a.alertId in i.alertIds)
  {
    forall a | a in alerts
      ensures IsIdentity(a.alertId) && Referenced(incidents, a.alertId) <==> IsNamed(a.alertId) && exists i :: i in incidents && a.alertId in i.alertIds
    {
    }
  }

  lemma LinkedIffExportable(r: Report)
    requires Pairwise(Unrelated, r.incidents) <==> Apart(r.incidents)
    ensures HeaderFine(r) && WellLinked(r.alerts, r.incidents) <==> Exportable(r)
  {
    EachFineIff(r.alerts, r.incidents);
    EachNamedIff(r.alerts, r.incidents);
  }
}
