/** The strict exporter of completed runs (src/aegisflow/siem_export.py). */
module Export {
  import opened Records
  import opened Ordering

  /** An incident as it stands in a saved report. */
  datatype IncidentRecord = IncidentRecord(
    incidentId: string, srcIp: string, firstSeen: Time, lastSeen: Time, riskScore: real, confidence: real,
    severity: string, alertIds: seq<string>)

  /** `bytes` is the size of the report's canonical text. Values that are no JSON object, array, text or finite
      number are excluded by type. */
  datatype Report = Report(
    status: string, runId: string, incidents: seq<IncidentRecord>, alerts: seq<Alert>, quality: string, bytes: nat)

  datatype ExportError =
    | NotCompleted | InvalidIdentity(name: string) | TooMany | TooBig | NoQuality
    | DuplicateAlert | DuplicateIncident | Reversed | InvalidNumber(name: string) | UnknownSeverity
    | NoReferences | BadReference | SourceDiffers | Unlinked

  /** The digest of the format, the run, the snapshot and the incident. */
  datatype EventId = EventId(runId: string, snapshot: Report, incidentId: string)

  datatype Event = Event(eventId: EventId, incident: IncidentRecord, destinations: set<string>, alerts: seq<Alert>)
  datatype Payload = Payload(runId: string, eventCount: nat, alertCount: nat, quality: string, events: seq<Event>)

  const MAX_REPORT_BYTES := 16 * 1024 * 1024
  const MAX_EVENTS := 5000
  const MAX_ALERTS := 20000

  predicate IsIdentity(s: string) {
    0 < |s| <= 256
  }

  predicate IsSeverity(s: string) {
    s == "low" || s == "medium" || s == "high" || s == "critical"
  }

  predicate IsQuality(s: string) {
    s == "healthy" || s == "degraded" || s == "unusable"
  }

  predicate TextUpTo(a: string, b: string) {
    a == b || Precedes(a, b)
  }

  predicate ByAlertId(a: Alert, b: Alert) {
    TextUpTo(a.alertId, b.alertId)
  }

  predicate ByIncidentId(a: Event, b: Event) {
    TextUpTo(a.incident.incidentId, b.incident.incidentId)
  }

  // -------------------------------------------------- the checks, in their order

  /** Lines 50-66: what is refused before any record is read. */
  function Preamble(r: Report): Option<ExportError> {
    if r.status != "completed" then Some(NotCompleted)
    else if !IsIdentity(r.runId) then Some(InvalidIdentity("run_id"))
    else if |r.incidents| > MAX_EVENTS || |r.alerts| > MAX_ALERTS then Some(TooMany)
    else if r.bytes > MAX_REPORT_BYTES then Some(TooBig)
    else if !IsQuality(r.quality) then Some(NoQuality)
    else None
  }

  type Index = map<string, Alert>

  function IndexAlerts(alerts: seq<Alert>): Result<Index, ExportError> {
    if alerts == [] then Ok(map[])
    else
      var n := |alerts| - 1;
      match IndexAlerts(alerts[..n])
      case Err(e) => Err(e)
      case Ok(index) => IndexStep(index, alerts[n])
  }

  function IndexStep(index: Index, a: Alert): Result<Index, ExportError> {
    if !IsIdentity(a.alertId) then Err(InvalidIdentity("alert_id"))
    else if a.alertId in index then Err(DuplicateAlert)
    else Ok(index[a.alertId := a])
  }

  datatype Links = Links(linked: set<string>, evidence: seq<Alert>)

  function LinkStep(index: Index, source: string, links: Links, reference: string): Result<Links, ExportError> {
    if !IsIdentity(reference) then Err(InvalidIdentity("alert reference"))
    else if reference !in index || reference in links.linked then Err(BadReference)
    else if index[reference].srcIp != source then Err(SourceDiffers)
    else Ok(Links(links.linked + {reference}, links.evidence + [index[reference]]))
  }

  function LinkAll(index: Index, source: string, linked: set<string>, references: seq<string>): Result<Links, ExportError> {
    if references == [] then Ok(Links(linked, []))
    else
      var n := |references| - 1;
      match LinkAll(index, source, linked, references[..n])
      case Err(e) => Err(e)
      case Ok(links) => LinkStep(index, source, links, references[n])
  }

  datatype Progress = Progress(events: seq<Event>, seen: set<string>, linked: set<string>)

  function CheckFields(i: IncidentRecord, seen: set<string>): Option<ExportError> {
    if !IsIdentity(i.incidentId) then Some(InvalidIdentity("incident_id"))
    else if i.incidentId in seen then Some(DuplicateIncident)
    else if !IsIdentity(i.srcIp) then Some(InvalidIdentity("incident source"))
    else if i.firstSeen > i.lastSeen then Some(Reversed)
    else if !(0.0 <= i.riskScore <= 100.0) then Some(InvalidNumber("incident risk"))
    else if !(0.0 <= i.confidence <= 1.0) then Some(InvalidNumber("incident confidence"))
    else if !IsSeverity(i.severity) then Some(UnknownSeverity)
    else if i.alertIds == [] then Some(NoReferences)
    else None
  }

  function Destinations(evidence: seq<Alert>): set<string> {
    set a | a in evidence && a.dstIp.Some? && a.dstIp.value != "" :: a.dstIp.value
  }

  function EventOf(r: Report, i: IncidentRecord, evidence: seq<Alert>): Event {
    Event(EventId(r.runId, r, i.incidentId), i, Destinations(evidence), Sort(ByAlertId, evidence))
  }

  function IncidentStep(r: Report, index: Index, p: Progress, i: IncidentRecord): Result<Progress, ExportError> {
    match CheckFields(i, p.seen)
    case Some(e) => Err(e)
    case None =>
      match LinkAll(index, i.srcIp, p.linked, i.alertIds)
      case Err(e) => Err(e)
      case Ok(links) => Ok(Progress(p.events + [EventOf(r, i, links.evidence)], p.seen + {i.incidentId}, links.linked))
  }

  function CheckIncidents(r: Report, index: Index, incidents: seq<IncidentRecord>): Result<Progress, ExportError> {
    if incidents == [] then Ok(Progress([], {}, {}))
    else
      var n := |incidents| - 1;
      match CheckIncidents(r, index, incidents[..n])
      case Err(e) => Err(e)
      case Ok(p) => IncidentStep(r, index, p, incidents[n])
  }

  function Export(r: Report): Result<Payload, ExportError> {
    match Preamble(r)
    case Some(e) => Err(e)
    case None =>
      match IndexAlerts(r.alerts)
      case Err(e) => Err(e)
      case Ok(index) =>
        match CheckIncidents(r, index, r.incidents)
        case Err(e) => Err(e)
        case Ok(p) =>
          if p.linked != index.Keys then Err(Unlinked)
          else Ok(Payload(r.runId, |p.events|, |r.alerts|, r.quality, Sort(ByIncidentId, p.events)))
  }

  // ------------------------------------------------------------- the loops

  method BuildExport(r: Report) returns (result: Result<Payload, ExportError>)
    ensures result == Export(r)
  {
    var early := Preamble(r);
    if early.Some? {
      return Err(early.value);
    }
    var index: Index := map[];
    for n := 0 to |r.alerts|
      invariant IndexAlerts(r.alerts[..n]) == Ok(index)
    {
      IndexPrefix(r.alerts, n);
      var item := r.alerts[n];
      if !IsIdentity(item.alertId) {
        return Err(InvalidIdentity("alert_id"));
      }
      if item.alertId in index {
        return Err(DuplicateAlert);
      }
      index := index[item.alertId := item];
    }
    assert r.alerts[..|r.alerts|] == r.alerts;
    var p := CheckEach(r, index);
    if p.Err? {
      return Err(p.error);
    }
    if p.value.linked != index.Keys {
      return Err(Unlinked);
    }
    result := Ok(Payload(r.runId, |p.value.events|, |r.alerts|, r.quality, Sort(ByIncidentId, p.value.events)));
  }

  method CheckEach(r: Report, index: Index) returns (result: Result<Progress, ExportError>)
    ensures result == CheckIncidents(r, index, r.incidents)
  {
    var events: seq<Event>, seen: set<string>, linked: set<string> := [], {}, {};
    for n := 0 to |r.incidents|
      invariant CheckIncidents(r, index, r.incidents[..n]) == Ok(Progress(events, seen, linked))
    {
      IncidentPrefix(r, index, n);
      var incident := r.incidents[n];
      var wrong := CheckFields(incident, seen);
      if wrong.Some? {
        return Err(wrong.value);
      }
      var links := LinkEach(index, incident.srcIp, linked, incident.alertIds);
      if links.Err? {
        return Err(links.error);
      }
      events, seen := events + [EventOf(r, incident, links.value.evidence)], seen + {incident.incidentId};
      linked := links.value.linked;
    }
    assert r.incidents[..|r.incidents|] == r.incidents;
    result := Ok(Progress(events, seen, linked));
  }

  method LinkEach(index: Index, source: string, linked: set<string>, references: seq<string>) returns (result: Result<Links, ExportError>)
    ensures result == LinkAll(index, source, linked, references)
  {
    var done, evidence: seq<Alert> := linked, [];
    for n := 0 to |references|
      invariant LinkAll(index, source, linked, references[..n]) == Ok(Links(done, evidence))
    {
      LinkPrefix(index, source, linked, references, n);
      var reference := references[n];
      if !IsIdentity(reference) {
        return Err(InvalidIdentity("alert reference"));
      }
      if reference !in index || reference in done {
        return Err(BadReference);
      }
      if index[reference].srcIp != source {
        return Err(SourceDiffers);
      }
      done, evidence := done + {reference}, evidence + [index[reference]];
    }
    assert references[..|references|] == references;
    result := Ok(Links(done, evidence));
  }

  lemma IndexPrefix(alerts: seq<Alert>, n: nat)
    requires n < |alerts| && IndexAlerts(alerts[..n]).Ok?
    ensures IndexAlerts(alerts[..n + 1]) == IndexStep(IndexAlerts(alerts[..n]).value, alerts[n])
    ensures IndexStep(IndexAlerts(alerts[..n]).value, alerts[n]).Err? ==> IndexAlerts(alerts) == IndexStep(IndexAlerts(alerts[..n]).value, alerts[n])
  {
    assert alerts[..n + 1][..n] == alerts[..n];
    IndexErrorStays(alerts, n + 1);
  }

  lemma {:induction false} IndexErrorStays(alerts: seq<Alert>, n: nat)
    requires n <= |alerts|
    ensures IndexAlerts(alerts[..n]).Err? ==> IndexAlerts(alerts) == IndexAlerts(alerts[..n])
  {
    if n == |alerts| {
      assert alerts[..n] == alerts;
    } else {
      IndexErrorStays(alerts[..|alerts| - 1], n);
      assert alerts[..|alerts| - 1][..n] == alerts[..n];
    }
  }

  lemma IncidentPrefix(r: Report, index: Index, n: nat)
    requires n < |r.incidents| && CheckIncidents(r, index, r.incidents[..n]).Ok?
    ensures var step := IncidentStep(r, index, CheckIncidents(r, index, r.incidents[..n]).value, r.incidents[n]);
      && CheckIncidents(r, index, r.incidents[..n + 1]) == step
      && (step.Err? ==> CheckIncidents(r, index, r.incidents) == step)
  {
    assert r.incidents[..n + 1][..n] == r.incidents[..n];
    IncidentErrorStays(r, index, r.incidents, n + 1);
  }

  lemma {:induction false} IncidentErrorStays(r: Report, index: Index, incidents: seq<IncidentRecord>, n: nat)
    requires n <= |incidents|
    ensures CheckIncidents(r, index, incidents[..n]).Err? ==> CheckIncidents(r, index, incidents) == CheckIncidents(r, index, incidents[..n])
  {
    if n == |incidents| {
      assert incidents[..n] == incidents;
    } else {
      IncidentErrorStays(r, index, incidents[..|incidents| - 1], n);
      assert incidents[..|incidents| - 1][..n] == incidents[..n];
    }
  }

  lemma LinkPrefix(index: Index, source: string, linked: set<string>, references: seq<string>, n: nat)
    requires n < |references| && LinkAll(index, source, linked, references[..n]).Ok?
    ensures var step := LinkStep(index, source, LinkAll(index, source, linked, references[..n]).value, references[n]);
      && LinkAll(index, source, linked, references[..n + 1]) == step
      && (step.Err? ==> LinkAll(index, source, linked, references) == step)
  {
    assert references[..n + 1][..n] == references[..n];
    LinkErrorStays(index, source, linked, references, n + 1);
  }

  lemma {:induction false} LinkErrorStays(index: Index, source: string, linked: set<string>, references: seq<string>, n: nat)
    requires n <= |references|
    ensures var part := LinkAll(index, source, linked, references[..n]); part.Err? ==> LinkAll(index, source, linked, references) == part
  {
    if n == |references| {
      assert references[..n] == references;
    } else {
      LinkErrorStays(index, source, linked, references[..|references| - 1], n);
      assert references[..|references| - 1][..n] == references[..n];
    }
  }

  // ------------------------------------------------- exactly what is exported

  /** What one incident must show by itself. */
  predicate FieldsFine(i: IncidentRecord) {
    && IsIdentity(i.incidentId) && IsIdentity(i.srcIp) && i.firstSeen <= i.lastSeen
    && 0.0 <= i.riskScore <= 100.0 && 0.0 <= i.confidence <= 1.0 && IsSeverity(i.severity) && i.alertIds != []
  }

  /** Each reference of an incident names an alert of its source, and none twice. */
  ghost predicate ReferencesFine(alerts: seq<Alert>, i: IncidentRecord) {
    && NoDuplicates(i.alertIds)
    && forall ref :: ref in i.alertIds ==> exists a :: a in alerts && a.alertId == ref && a.srcIp == i.srcIp
  }

  /** Two incidents differ in id and share no alert. */
  ghost predicate Unrelated(i: IncidentRecord, j: IncidentRecord) {
    i.incidentId != j.incidentId && forall ref :: ref in i.alertIds ==> ref !in j.alertIds
  }

  ghost predicate Referenced(incidents: seq<IncidentRecord>, id: string) {
    exists i :: i in incidents && id in i.alertIds
  }

  /** The linkage that the snapshot promises: every alert in exactly one incident, of its own source. */
  ghost predicate WellLinked(alerts: seq<Alert>, incidents: seq<IncidentRecord>) {
    && (forall a :: a in alerts ==> IsIdentity(a.alertId) && Referenced(incidents, a.alertId))
    && NoDuplicates(Ids(alerts))
    && (forall i :: i in incidents ==> FieldsFine(i) && ReferencesFine(alerts, i))
    && Pairwise(Unrelated, incidents)
  }

  ghost predicate IndexOf(alerts: seq<Alert>, index: Index) {
    && (forall a :: a in alerts ==> a.alertId in index && index[a.alertId] == a)
    && (forall id :: id in index ==> index[id] in alerts && index[id].alertId == id && IsIdentity(id))
  }

  lemma {:induction false} IndexedIff(alerts: seq<Alert>)
    ensures IndexAlerts(alerts).Ok? <==> ((forall a :: a in alerts ==> IsIdentity(a.alertId)) && NoDuplicates(Ids(alerts)))
    ensures IndexAlerts(alerts).Ok? ==> IndexOf(alerts, IndexAlerts(alerts).value)
  {
    if alerts == [] {
    } else {
      var n := |alerts| - 1;
      IndexedIff(alerts[..n]);
      assert alerts[n] in alerts;
      assert forall a :: a in alerts <==> a in alerts[..n] || a == alerts[n];
      assert Ids(alerts) == Ids(alerts[..n]) + [alerts[n].alertId];
      if IndexAlerts(alerts[..n]).Ok? {
        IndexedStep(alerts[..n], IndexAlerts(alerts[..n]).value, alerts[n]);
      }
    }
  }

  lemma IndexedStep(alerts: seq<Alert>, index: Index, a: Alert)
    requires IndexOf(alerts, index)
    ensures a.alertId in index <==> a.alertId in Ids(alerts)
    ensures IndexStep(index, a).Ok? ==> IndexOf(alerts + [a], IndexStep(index, a).value)
  {
    if a.alertId in index {
      var k :| 0 <= k < |alerts| && alerts[k] == index[a.alertId];
      assert Ids(alerts)[k] == a.alertId;
    }
    if a.alertId in Ids(alerts) {
      var k :| 0 <= k < |alerts| && Ids(alerts)[k] == a.alertId;
      assert alerts[k] in alerts;
    }
  }

  function Listed(ids: seq<string>): set<string> {
    set id | id in ids
  }

  predicate LinkFine(index: Index, source: string, linked: set<string>, ref: string) {
    ref in index && IsIdentity(ref) && index[ref].srcIp == source && ref !in linked
  }

  ghost predicate AllLinkable(index: Index, source: string, linked: set<string>, references: seq<string>) {
    NoDuplicates(references) && forall ref :: ref in references ==> LinkFine(index, source, linked, ref)
  }

  lemma LinkableSnoc(index: Index, source: string, linked: set<string>, references: seq<string>, last: string)
    ensures AllLinkable(index, source, linked, references + [last]) <==>
              && AllLinkable(index, source, linked, references)
              && LinkFine(index, source, linked, last) && last !in references
  {
    var all := references + [last];
    assert forall ref :: ref in all <==> ref in references || ref == last;
    assert all[|references|] == last && forall k :: 0 <= k < |references| ==> all[k] == references[k];
  }

  /** One reference more. */
  lemma LinkedSnoc(index: Index, source: string, linked: set<string>, references: seq<string>, last: string, links: Links)
    requires links.linked == linked + Listed(references) && |links.evidence| == |references|
    requires forall k :: 0 <= k < |references| ==> references[k] in index && links.evidence[k] == index[references[k]]
    ensures var all := LinkStep(index, source, links, last);
      && (all.Ok? <==> LinkFine(index, source, linked, last) && last !in references)
      && (all.Ok? ==> all.value.linked == linked + Listed(references + [last]) && |all.value.evidence| == |references| + 1)
      && (all.Ok? ==> forall k :: 0 <= k <= |references| ==>
            (references + [last])[k] in index && all.value.evidence[k] == index[(references + [last])[k]])
  {
    assert Listed(references + [last]) == Listed(references) + {last};
  }

  lemma {:induction false} LinkedIff(index: Index, source: string, linked: set<string>, references: seq<string>)
    ensures var all := LinkAll(index, source, linked, references);
      && (all.Ok? <==> AllLinkable(index, source, linked, references))
      && (all.Ok? ==> all.value.linked == linked + Listed(references) && |all.value.evidence| == |references|)
      && (all.Ok? ==> forall k :: 0 <= k < |references| ==> references[k] in index && all.value.evidence[k] == index[references[k]])
  {
    if references == [] {
    } else {
      var n := |references| - 1;
      LinkedIff(index, source, linked, references[..n]);
      assert references == references[..n] + [references[n]];
      LinkableSnoc(index, source, linked, references[..n], references[n]);
      var before := LinkAll(index, source, linked, references[..n]);
      if before.Ok? {
        LinkedSnoc(index, source, linked, references[..n], references[n], before.value);
      }
    }
  }

  /** Checked incidents: each alone fine, no two related. */
  ghost predicate AllFine(alerts: seq<Alert>, incidents: seq<IncidentRecord>) {
    && (forall i :: i in incidents ==> FieldsFine(i) && ReferencesFine(alerts, i))
    && Pairwise(Unrelated, incidents)
  }

  ghost predicate Tracks(incidents: seq<IncidentRecord>, p: Progress) {
    && (forall id :: id in p.seen <==> exists i :: i in incidents && i.incidentId == id)
    && (forall id :: id in p.linked <==> Referenced(incidents, id))
  }

  lemma StepFine(r: Report, alerts: seq<Alert>, index: Index, incidents: seq<IncidentRecord>, p: Progress, i: IncidentRecord)
    requires IndexOf(alerts, index) && Tracks(incidents, p)
    ensures IncidentStep(r, index, p, i).Ok? <==>
      (FieldsFine(i) && ReferencesFine(alerts, i) && forall j :: j in incidents ==> Unrelated(j, i))
    ensures IncidentStep(r, index, p, i).Ok? ==> Tracks(incidents + [i], IncidentStep(r, index, p, i).value)
  {
    LinkedIff(index, i.srcIp, p.linked, i.alertIds);
    FineReferences(alerts, index, i);
    var links := LinkAll(index, i.srcIp, p.linked, i.alertIds);
    UnrelatedIff(incidents, p, i);
    if IncidentStep(r, index, p, i).Ok? {
      TracksStep(incidents, p, i, IncidentStep(r, index, p, i).value);
    }
  }

  lemma FineReferences(alerts: seq<Alert>, index: Index, i: IncidentRecord)
    requires IndexOf(alerts, index)
    ensures ReferencesFine(alerts, i) <==>
      (NoDuplicates(i.alertIds) && forall ref :: ref in i.alertIds ==> LinkFine(index, i.srcIp, {}, ref))
  {
  }

  lemma UnrelatedIff(incidents: seq<IncidentRecord>, p: Progress, i: IncidentRecord)
    requires Tracks(incidents, p)
    ensures (forall j :: j in incidents ==> Unrelated(j, i)) <==>
      (i.incidentId !in p.seen && forall ref :: ref in i.alertIds ==> ref !in p.linked)
  {
    if forall j :: j in incidents ==> Unrelated(j, i) {
      assert forall ref, j :: ref in i.alertIds && j in incidents && Unrelated(j, i) ==> ref !in j.alertIds;
    }
    if i.incidentId !in p.seen && forall ref :: ref in i.alertIds ==> ref !in p.linked {
      forall j | j in incidents ensures Unrelated(j, i) {
        forall ref | ref in j.alertIds ensures ref !in i.alertIds {
          assert Referenced(incidents, ref);
        }
      }
    }
  }

  lemma TracksStep(incidents: seq<IncidentRecord>, p: Progress, i: IncidentRecord, next: Progress)
    requires Tracks(incidents, p) && next.seen == p.seen + {i.incidentId} && next.linked == p.linked + Listed(i.alertIds)
    ensures Tracks(incidents + [i], next)
  {
    var wider := incidents + [i];
    assert forall j :: j in wider <==> j in incidents || j == i;
    forall id ensures Referenced(wider, id) <==> Referenced(incidents, id) || id in i.alertIds {
      assert i in wider;
    }
  }

  lemma {:induction false} CheckedIff(r: Report, alerts: seq<Alert>, index: Index, incidents: seq<IncidentRecord>)
    requires IndexOf(alerts, index)
    ensures CheckIncidents(r, index, incidents).Ok? <==> AllFine(alerts, incidents)
    ensures CheckIncidents(r, index, incidents).Ok? ==> Tracks(incidents, CheckIncidents(r, index, incidents).value)
  {
    if incidents == [] {
    } else {
      var n := |incidents| - 1;
      CheckedIff(r, alerts, index, incidents[..n]);
      AllFineStep(alerts, incidents[..n], incidents[n]);
      assert incidents == incidents[..n] + [incidents[n]];
      if CheckIncidents(r, index, incidents[..n]).Ok? {
        StepFine(r, alerts, index, incidents[..n], CheckIncidents(r, index, incidents[..n]).value, incidents[n]);
      }
    }
  }

  lemma AllFineStep(alerts: seq<Alert>, incidents: seq<IncidentRecord>, i: IncidentRecord)
    ensures AllFine(alerts, incidents + [i]) <==>
      (AllFine(alerts, incidents) && FieldsFine(i) && ReferencesFine(alerts, i) && forall j :: j in incidents ==> Unrelated(j, i))
  {
    var wider := incidents + [i];
    assert forall j :: j in wider <==> j in incidents || j == i;
    if AllFine(alerts, wider) {
      forall j | j in incidents ensures Unrelated(j, i) {
        var k :| 0 <= k < |incidents| && incidents[k] == j;
        assert Unrelated(wider[k], wider[|incidents|]);
      }
      assert forall a, b :: 0 <= a < b < |incidents| ==> Unrelated(wider[a], wider[b]) && wider[a] == incidents[a] && wider[b] == incidents[b];
    }
  }

  /** A report is exported exactly if it passes the preamble and its alerts and incidents are well linked. */
  lemma ExportedIffWellLinked(r: Report)
    ensures Export(r).Ok? <==> (Preamble(r).None? && WellLinked(r.alerts, r.incidents))
  {
    IndexedIff(r.alerts);
    ExportedInTwo(r, IndexAlerts(r.alerts));
    if IndexAlerts(r.alerts).Ok? {
      RestIff(r, IndexAlerts(r.alerts).value);
    }
    WellLinkedInTwo(r.alerts, r.incidents);
  }

  lemma ExportedInTwo(r: Report, indexed: Result<Index, ExportError>)
    requires indexed == IndexAlerts(r.alerts)
    ensures Export(r).Ok? <==>
      Preamble(r).None? && indexed.Ok? && CheckIncidents(r, indexed.value, r.incidents).Ok?
      && CheckIncidents(r, indexed.value, r.incidents).value.linked == indexed.value.Keys
  {
  }

  lemma WellLinkedInTwo(alerts: seq<Alert>, incidents: seq<IncidentRecord>)
    ensures WellLinked(alerts, incidents) <==>
      && (forall a :: a in alerts ==> IsIdentity(a.alertId)) && NoDuplicates(Ids(alerts))
      && AllFine(alerts, incidents) && (forall a :: a in alerts ==> Referenced(incidents, a.alertId))
  {
  }

  lemma RestIff(r: Report, index: Index)
    requires IndexOf(r.alerts, index)
    ensures var checked := CheckIncidents(r, index, r.incidents);
      (checked.Ok? && checked.value.linked == index.Keys) <==>
      (AllFine(r.alerts, r.incidents) && forall a :: a in r.alerts ==> Referenced(r.incidents, a.alertId))
  {
    CheckedIff(r, r.alerts, index, r.incidents);
    var checked := CheckIncidents(r, index, r.incidents);
    if checked.Ok? {
      AllLinkedIff(r.alerts, index, r.incidents, checked.value);
    }
  }

  lemma AllLinkedIff(alerts: seq<Alert>, index: Index, incidents: seq<IncidentRecord>, p: Progress)
    requires IndexOf(alerts, index) && Tracks(incidents, p) && AllFine(alerts, incidents)
    ensures p.linked == index.Keys <==> forall a :: a in alerts ==> Referenced(incidents, a.alertId)
  {
    forall id | Referenced(incidents, id) ensures id in index {
      var i :| i in incidents && id in i.alertIds;
      assert ReferencesFine(alerts, i);
    }
    if p.linked == index.Keys {
      forall a | a in alerts ensures Referenced(incidents, a.alertId) {
        assert a.alertId in index;
      }
    }
  }

  // ------------------------------------------------------------ no loss on the way

  /** An event carries its incident and exactly the alerts that the incident names, in order of their ids. */
  ghost predicate Faithful(alerts: seq<Alert>, i: IncidentRecord, e: Event) {
    && e.incident == i && |e.alerts| == |i.alertIds|
    && (forall a :: a in e.alerts <==> a in alerts && a.alertId in i.alertIds)
    && Sorted(ByAlertId, e.alerts)
  }

  ghost predicate AllFaithful(alerts: seq<Alert>, incidents: seq<IncidentRecord>, events: seq<Event>) {
    |events| == |incidents| && forall k :: 0 <= k < |events| ==> Faithful(alerts, incidents[k], events[k])
  }

  lemma TextOrder(a: string, b: string, c: string)
    ensures TextUpTo(a, b) || TextUpTo(b, a)
    ensures TextUpTo(a, b) && TextUpTo(b, c) ==> TextUpTo(a, c)
  {
    PrecedesTotal(a, b);
    if Precedes(a, b) && Precedes(b, c) {
      PrecedesTransitive(a, b, c);
    }
  }

  lemma IdOrdersAreTotal()
    ensures TotalPreorder(ByAlertId) && TotalPreorder(ByIncidentId)
  {
    forall a: Alert, b: Alert, c: Alert
      ensures (ByAlertId(a, b) || ByAlertId(b, a)) && (ByAlertId(a, b) && ByAlertId(b, c) ==> ByAlertId(a, c))
    {
      TextOrder(a.alertId, b.alertId, c.alertId);
    }
    forall a: Event, b: Event, c: Event
      ensures (ByIncidentId(a, b) || ByIncidentId(b, a)) && (ByIncidentId(a, b) && ByIncidentId(b, c) ==> ByIncidentId(a, c))
    {
      TextOrder(a.incident.incidentId, b.incident.incidentId, c.incident.incidentId);
    }
  }

  lemma StepFaithful(r: Report, alerts: seq<Alert>, index: Index, p: Progress, i: IncidentRecord)
    requires IndexOf(alerts, index) && IncidentStep(r, index, p, i).Ok?
    ensures var next := IncidentStep(r, index, p, i).value.events;
      |next| == |p.events| + 1 && next[..|p.events|] == p.events && Faithful(alerts, i, next[|p.events|])
  {
    LinkedIff(index, i.srcIp, p.linked, i.alertIds);
    var evidence := LinkAll(index, i.srcIp, p.linked, i.alertIds).value.evidence;
    EvidenceWithin(alerts, index, i.alertIds, evidence);
    SortPermutes(ByAlertId, evidence);
    IdOrdersAreTotal();
    SortSorts(ByAlertId, evidence);
    forall a ensures a in Sort(ByAlertId, evidence) <==> a in evidence {
      SameMembers(Sort(ByAlertId, evidence), evidence, a);
    }
  }

  lemma EvidenceWithin(alerts: seq<Alert>, index: Index, references: seq<string>, evidence: seq<Alert>)
    requires IndexOf(alerts, index) && |evidence| == |references|
    requires forall k :: 0 <= k < |references| ==> references[k] in index && evidence[k] == index[references[k]]
    ensures forall a :: a in evidence <==> a in alerts && a.alertId in references
  {
    forall a | a in alerts && a.alertId in references ensures a in evidence {
      var k :| 0 <= k < |references| && references[k] == a.alertId;
      assert evidence[k] == a;
    }
  }

  lemma FaithfulGrows(alerts: seq<Alert>, incidents: seq<IncidentRecord>, events: seq<Event>, next: seq<Event>)
    requires incidents != [] && AllFaithful(alerts, incidents[..|incidents| - 1], events)
    requires |next| == |events| + 1 && next[..|events|] == events && Faithful(alerts, incidents[|incidents| - 1], next[|events|])
    ensures AllFaithful(alerts, incidents, next)
  {
    forall k | 0 <= k < |next| ensures Faithful(alerts, incidents[k], next[k]) {
      if k < |events| { assert next[k] == next[..|events|][k]; }
    }
  }

  lemma {:induction false} CheckedFaithful(r: Report, alerts: seq<Alert>, index: Index, incidents: seq<IncidentRecord>)
    requires IndexOf(alerts, index) && CheckIncidents(r, index, incidents).Ok?
    ensures AllFaithful(alerts, incidents, CheckIncidents(r, index, incidents).value.events)
  {
    if incidents == [] {
    } else {
      var n := |incidents| - 1;
      CheckedFaithful(r, alerts, index, incidents[..n]);
      var p := CheckIncidents(r, index, incidents[..n]).value;
      StepFaithful(r, alerts, index, p, incidents[n]);
      FaithfulGrows(alerts, incidents, p.events, IncidentStep(r, index, p, incidents[n]).value.events);
    }
  }

  /** What is exported: one faithful event for each incident, in order of the incident ids, and each alert in exactly
      one of them. */
  lemma ExportIsFaithful(r: Report)
    requires Export(r).Ok?
    ensures var events := Export(r).value.events;
      && Sorted(ByIncidentId, events) && |events| == |r.incidents|
      && (forall i :: i in r.incidents ==> exists e :: e in events && Faithful(r.alerts, i, e))
      && (forall e :: e in events ==> e.incident in r.incidents && Faithful(r.alerts, e.incident, e))
      && (forall a :: a in r.alerts ==> exists e :: e in events && a in e.alerts)
      && (forall e, f, a :: e in events && f in events && a in e.alerts && a in f.alerts ==> e.incident == f.incident)
  {
    IndexedIff(r.alerts);
    var index := IndexAlerts(r.alerts).value;
    var unsorted := CheckIncidents(r, index, r.incidents).value.events;
    var events := Export(r).value.events;
    CheckedFaithful(r, r.alerts, index, r.incidents);
    ExportedIffWellLinked(r);
    SortPermutes(ByIncidentId, unsorted);
    IdOrdersAreTotal();
    SortSorts(ByIncidentId, unsorted);
    forall e ensures e in events <==> e in unsorted {
      SameMembers(events, unsorted, e);
    }
    EventForEach(r, unsorted);
    AlertsOnce(r, unsorted);
  }

  lemma EventForEach(r: Report, unsorted: seq<Event>)
    requires AllFaithful(r.alerts, r.incidents, unsorted)
    ensures forall i :: i in r.incidents ==> exists e :: e in unsorted && Faithful(r.alerts, i, e)
    ensures forall e :: e in unsorted ==> e.incident in r.incidents && Faithful(r.alerts, e.incident, e)
  {
    forall i | i in r.incidents ensures exists e :: e in unsorted && Faithful(r.alerts, i, e) {
      var k :| 0 <= k < |r.incidents| && r.incidents[k] == i;
      assert unsorted[k] in unsorted;
    }
  }

  lemma AlertsOnce(r: Report, unsorted: seq<Event>)
    requires AllFaithful(r.alerts, r.incidents, unsorted) && WellLinked(r.alerts, r.incidents)
    ensures forall a :: a in r.alerts ==> exists e :: e in unsorted && a in e.alerts
    ensures forall e, f, a :: e in unsorted && f in unsorted && a in e.alerts && a in f.alerts ==> e.incident == f.incident
  {
    forall a | a in r.alerts ensures exists e :: e in unsorted && a in e.alerts {
      assert Referenced(r.incidents, a.alertId);
      var i :| i in r.incidents && a.alertId in i.alertIds;
      var k :| 0 <= k < |r.incidents| && r.incidents[k] == i;
      assert unsorted[k] in unsorted && Faithful(r.alerts, i, unsorted[k]);
    }
    forall e, f, a | e in unsorted && f in unsorted && a in e.alerts && a in f.alerts ensures e.incident == f.incident {
      var k :| 0 <= k < |unsorted| && unsorted[k] == e;
      var l :| 0 <= l < |unsorted| && unsorted[l] == f;
      OwnedOnce(r, unsorted, k, l, a);
    }
  }

  lemma OwnedOnce(r: Report, unsorted: seq<Event>, k: nat, l: nat, a: Alert)
    requires AllFaithful(r.alerts, r.incidents, unsorted) && WellLinked(r.alerts, r.incidents)
    requires k < |unsorted| && l < |unsorted| && a in unsorted[k].alerts && a in unsorted[l].alerts
    ensures k == l
  {
    assert Faithful(r.alerts, r.incidents[k], unsorted[k]) && Faithful(r.alerts, r.incidents[l], unsorted[l]);
    if k < l {
      UnrelatedApart(r.incidents[k], r.incidents[l], a.alertId);
    } else if l < k {
      UnrelatedApart(r.incidents[l], r.incidents[k], a.alertId);
    }
  }

  lemma UnrelatedApart(i: IncidentRecord, j: IncidentRecord, id: string)
    requires id in i.alertIds && id in j.alertIds
    ensures !Unrelated(i, j)
  {
  }
}
