/** From detector findings to incidents and exports: the stages composed (src/aegisflow/analysis_session.py,
    src/aegisflow/siem_export.py). */
module Pipeline {
  import opened Records
  import opened Ordering
  import opened Findings
  import opened Incidents
  import opened Clustering
  import opened GapClusters
  import opened Export
  import AnalystStore

  /** Nine hundred seconds. */
  const WINDOW: Time := 900_000_000.0

  function IncidentsOf(alerts: seq<Alert>): seq<Incident> {
    All(Run(WINDOW, Resolve(alerts)))
  }

  // ------------------------------------------------------------ the session

  /** A normalised observation, by its event time. */
  datatype Observation = Observation(timestamp: Time, content: string)

  /** `detect` gives the alerts the detectors raise on the last of the observations seen so far, `last` the closing
      reconnaissance snapshot; both depend on what was observed and on nothing else. */
  class AnalysisSession {
    const detect: seq<Observation> -> seq<Alert>
    const last: seq<Observation> -> seq<Alert>
    var seen: seq<Observation>
    var latest: Option<Time>
    var alerts: seq<Alert>
    var finished: bool
    var finalAlerts: seq<Alert>

    ghost predicate Valid()
      reads this
    {
      && latest == (if seen == [] then None else Some(seen[|seen| - 1].timestamp))
      && InTime(seen)
      && alerts == Raised(detect, seen)
      && (finished ==> finalAlerts == Resolve(alerts + last(seen)))
    }

    constructor (detect: seq<Observation> -> seq<Alert>, last: seq<Observation> -> seq<Alert>)
      ensures Valid() && seen == [] && !finished && this.detect == detect && this.last == last
    {
      this.detect, this.last := detect, last;
      seen, latest, alerts, finished, finalAlerts := [], None, [], false, [];
    }

    /** One observation: refused after completion and out of time order, with nothing changed. */
    method ProcessEvent(event: Observation) returns (r: Result<seq<Alert>, string>)
      requires Valid()
      modifies this
      ensures Valid() && finished == old(finished) && finalAlerts == old(finalAlerts)
      ensures r.Ok? <==> !finished && forall o :: o in old(seen) ==> o.timestamp <= event.timestamp
      ensures r.Ok? ==> seen == old(seen) + [event] && alerts == old(alerts) + r.value && r.value == detect(seen)
      ensures r.Err? ==> seen == old(seen) && alerts == old(alerts)
    {
      if finished {
        return Err("Analysis session is complete; create a new session");
      }
      OnTimeIff(seen, event.timestamp);
      if latest.Some? && event.timestamp < latest.value {
        return Err("Session requires ordered events");
      }
      ObservedNext(seen, event);
      RaisedNext(detect, seen, seen + [event], event);
      latest := Some(event.timestamp);
      seen := seen + [event];
      var raised := detect(seen);
      alerts := alerts + raised;
      r := Ok(raised);
    }

    /** The findings so far, or the final ones, which stay as they are once the session is complete. */
    method CurrentFindings(complete: bool) returns (findings: seq<Alert>)
      requires Valid()
      modifies this
      ensures Valid() && seen == old(seen) && alerts == old(alerts) && finished == (old(finished) || complete)
      ensures findings == if finished then Resolve(alerts + last(seen)) else Resolve(alerts)
    {
      if complete && !finished {
        finalAlerts := ResolveFindings(alerts + last(seen));
        finished := true;
      }
      if finished {
        return finalAlerts;
      }
      findings := ResolveFindings(alerts);
    }

    method CurrentIncidents(complete: bool) returns (incidents: seq<Incident>)
      requires Valid()
      modifies this
      ensures Valid() && seen == old(seen) && alerts == old(alerts) && finished == (old(finished) || complete)
      ensures incidents == IncidentsOf(if finished then alerts + last(seen) else alerts)
    {
      var findings := CurrentFindings(complete);
      incidents := Correlate(findings);
    }
  }

  /** A fresh store, every finding in turn. */
  method Correlate(findings: seq<Alert>) returns (incidents: seq<Incident>)
    ensures incidents == All(Run(WINDOW, findings))
  {
    var store := new IncidentStore(WINDOW);
    for i := 0 to |findings|
      invariant fresh(store) && store.Valid() && store.window == WINDOW
      invariant store.Log() == Run(WINDOW, findings[..i])
    {
      RunStep(WINDOW, findings, i);
      var _ := store.ProcessAlert(findings[i]);
    }
    assert findings[..|findings|] == findings;
    incidents := store.AllIncidents();
  }

  lemma RunStep(window: Time, findings: seq<Alert>, i: nat)
    requires i < |findings|
    ensures Run(window, findings[..i + 1]) == Process(window, Run(window, findings[..i]), findings[i])
  {
    assert findings[..i + 1][..i] == findings[..i];
  }

  /** Everything raised while observing in this order. */
  function Raised(detect: seq<Observation> -> seq<Alert>, seen: seq<Observation>): seq<Alert> {
    if seen == [] then [] else Raised(detect, seen[..|seen| - 1]) + detect(seen)
  }

  ghost predicate InTime(seen: seq<Observation>) {
    forall i, j :: 0 <= i < j < |seen| ==> seen[i].timestamp <= seen[j].timestamp
  }

  /** Not older than anything observed means not older than the last observation. */
  lemma OnTimeIff(seen: seq<Observation>, t: Time)
    requires InTime(seen)
    ensures (forall o :: o in seen ==> o.timestamp <= t) <==> (seen == [] || seen[|seen| - 1].timestamp <= t)
  {
    if seen != [] {
      assert seen[|seen| - 1] in seen;
    }
  }

  lemma ObservedNext(seen: seq<Observation>, next: Observation)
    requires InTime(seen) && (seen == [] || seen[|seen| - 1].timestamp <= next.timestamp)
    ensures InTime(seen + [next])
  {
  }

  lemma RaisedNext(detect: seq<Observation> -> seq<Alert>, seen: seq<Observation>, longer: seq<Observation>, next: Observation)
    requires longer == seen + [next]
    ensures Raised(detect, longer) == Raised(detect, seen) + detect(longer)
  {
    assert longer[..|longer| - 1] == seen;
  }

  // -------------------------------------------------- incidents of well-formed input

  /** Well-formed alerts, no id of which leads two keys: so are alerts whose ids are distinct, or repeated for the
      same key by the closing snapshot (Findings.CoherentIsNamedApart). */
  ghost predicate Sound(alerts: seq<Alert>) {
    NamedApart(alerts) && forall a :: a in alerts ==> WellFormed(a)
  }

  /** What resolution gives. */
  ghost predicate Resolved(findings: seq<Alert>) {
    NoDuplicates(Ids(findings)) && forall a :: a in findings ==> WellFormed(a)
  }

  /** Two incidents under different ids, with no alert in common. */
  predicate Disjoint(i: Incident, j: Incident) {
    i.incidentId != j.incidentId && forall id | id in i.alertIds :: id !in j.alertIds
  }

  lemma EntryIdsDistinct(findings: seq<Alert>, log: Log, k: nat)
    requires NoDuplicates(Ids(findings)) && Stored(log) == multiset(findings) && k < |log|
    ensures NoDuplicates(Ids(log[k].alerts))
  {
    var alerts := log[k].alerts;
    EntryStored(log, k);
    forall i, j | 0 <= i < j < |alerts| ensures Ids(alerts)[i] != Ids(alerts)[j] {
      if Ids(alerts)[i] == Ids(alerts)[j] {
        assert alerts[i] in multiset(alerts) && alerts[j] in multiset(alerts);
        SameIdSameAlert(findings, alerts[i], alerts[j]);
        CountedTwice(alerts, i, j);
        CountedOnce(findings, alerts[i]);
      }
    }
  }

  /** An incident of a run over these findings. */
  ghost predicate Supported(findings: seq<Alert>, i: Incident) {
    && NoDuplicates(i.alertIds) && i.alertIds != [] && i.srcIp != ""
    && i.firstSeen <= i.lastSeen && 0 <= i.riskScore <= 100 && 0.0 <= i.confidence <= 1.0 && IsSeverity(i.severity)
    && forall id :: id in i.alertIds ==> Backed(findings, i.srcIp, id)
  }

  ghost predicate Backed(findings: seq<Alert>, source: string, id: string) {
    exists a :: a in findings && a.alertId == id && a.srcIp == source
  }

  lemma EntryBacked(findings: seq<Alert>, log: Log, k: nat)
    requires GoodLog(log) && Stored(log) == multiset(findings) && k < |log|
    ensures forall id :: id in Ids(log[k].alerts) ==> Backed(findings, log[k].alerts[0].srcIp, id)
  {
    forall id | id in Ids(log[k].alerts) ensures Backed(findings, log[k].alerts[0].srcIp, id) {
      var a := IdOwner(findings, log, k, id);
      assert Good(log[k]);
    }
  }

  lemma EntryWithin(findings: seq<Alert>, log: Log, k: nat)
    requires Stored(log) == multiset(findings) && k < |log|
    ensures forall a :: a in log[k].alerts ==> a in findings
  {
    EntryStored(log, k);
    assert forall a :: a in log[k].alerts ==> a in multiset(log[k].alerts);
  }

  lemma EntrySupported(findings: seq<Alert>, log: Log, k: nat)
    requires Resolved(findings) && GoodLog(log) && Stored(log) == multiset(findings) && k < |log| && log[k].alerts != []
    ensures Supported(findings, Build(log[k].id, log[k].alerts))
  {
    var alerts := log[k].alerts;
    EntryIdsDistinct(findings, log, k);
    EntryWithin(findings, log, k);
    EntryBacked(findings, log, k);
    assert alerts[0] in alerts && WellFormed(alerts[0]);
    BuiltIncidentIsInRange(log[k].id, alerts);
  }

  ghost predicate WellGrouped(findings: seq<Alert>, incidents: seq<Incident>) {
    && (forall i :: i in incidents ==> Supported(findings, i))
    && Pairwise(Disjoint, incidents)
    && (forall a :: a in findings ==> exists i :: i in incidents && a.alertId in i.alertIds)
  }

  lemma BuiltIsWellGrouped(findings: seq<Alert>, log: Log)
    requires Resolved(findings) && NonEmpty(log) && GoodLog(log) && Stored(log) == multiset(findings)
    ensures WellGrouped(findings, Built(log))
  {
    var built := Built(log);
    forall i | i in built ensures Supported(findings, i) {
      var k :| 0 <= k < |built| && built[k] == i;
      EntrySupported(findings, log, k);
    }
    forall k, l | 0 <= k < l < |built| ensures Disjoint(built[k], built[l]) {
      EntriesDisjoint(findings, log, k, l);
    }
    forall a | a in findings ensures exists i :: i in built && a.alertId in i.alertIds {
      assert a in Stored(log);
      var k := StoredOrigin(log, a);
      var j :| 0 <= j < |log[k].alerts| && log[k].alerts[j] == a;
      assert Ids(log[k].alerts)[j] == a.alertId;
      assert built[k] in built;
    }
  }

  /** Sound input in any order, closing snapshot included: each finding ends in exactly one incident, of its own source; incidents are in
      range, share no alert and no id. */
  lemma IncidentsAreWellGrouped(alerts: seq<Alert>)
    requires Sound(alerts)
    ensures WellGrouped(Resolve(alerts), IncidentsOf(alerts)) && Resolved(Resolve(alerts))
  {
    var findings := Resolve(alerts);
    ResolvedAreWellFormed(alerts);
    EveryFindingIsPlacedOnce(WINDOW, findings);
    var log := Run(WINDOW, findings);
    BuiltIsWellGrouped(findings, log);
    var built, all := Built(log), All(log);
    SortPermutes(SeenBefore, built);
    PairwisePermuted(Disjoint, built, all);
    forall i ensures i in all <==> i in built {
      SameMembers(all, built, i);
    }
  }

  /** An incident that has both findings. */
  predicate Holds(i: Incident, x: Alert, y: Alert) {
    x.alertId in i.alertIds && y.alertId in i.alertIds
  }

  lemma EntryHas(findings: seq<Alert>, log: Log, k: nat, x: Alert)
    requires NoDuplicates(Ids(findings)) && Stored(log) == multiset(findings) && k < |log| && x in findings
    ensures x.alertId in Ids(log[k].alerts) <==> x in log[k].alerts
  {
    if x.alertId in Ids(log[k].alerts) {
      var a := IdOwner(findings, log, k, x.alertId);
      Findings.SameIdSameAlert(findings, a, x);
    }
    if x in log[k].alerts {
      IdListed(log[k].alerts, x);
    }
  }

  lemma HeldIffTogether(findings: seq<Alert>, log: Log, incidents: seq<Incident>, x: Alert, y: Alert)
    requires NonEmpty(log) && NoDuplicates(Ids(findings)) && Stored(log) == multiset(findings) && x in findings && y in findings
    requires incidents == All(log)
    ensures (exists i :: i in incidents && Holds(i, x, y)) <==> SameIncident(log, x, y)
  {
    var built := Built(log);
    SortPermutes(SeenBefore, built);
    forall k | 0 <= k < |log| ensures Holds(built[k], x, y) <==> x in log[k].alerts && y in log[k].alerts {
      EntryHas(findings, log, k, x);
      EntryHas(findings, log, k, y);
    }
    if i :| i in incidents && Holds(i, x, y) {
      SameMembers(incidents, built, i);
      var k :| 0 <= k < |built| && built[k] == i;
      assert x in log[k].alerts && y in log[k].alerts;
    }
    if k :| 0 <= k < |log| && x in log[k].alerts && y in log[k].alerts {
      assert built[k] in built;
      SameMembers(incidents, built, built[k]);
    }
  }

  /** The session's incidents are the gap groups of its findings: two findings share an incident exactly if a chain of
      findings of their source leads from one to the other with no gap above nine hundred seconds. */
  lemma SessionIncidentsAreGapGroups(alerts: seq<Alert>, x: Alert, y: Alert)
    requires Sound(alerts) && x in Resolve(alerts) && y in Resolve(alerts)
    ensures (exists i :: i in IncidentsOf(alerts) && Holds(i, x, y)) <==> Linked(900_000_000.0, Resolve(alerts), x, y)
  {
    var findings := Resolve(alerts);
    ResolvedAreWellFormed(alerts);
    var log := Run(WINDOW, findings);
    EveryFindingIsPlacedOnce(WINDOW, findings);
    HeldIffTogether(findings, log, IncidentsOf(alerts), x, y);
    IncidentsAreGapGroups(WINDOW, findings, x, y);
  }

  lemma BackedIsListed(findings: seq<Alert>, source: string, id: string)
    requires Backed(findings, source, id)
    ensures id in Ids(findings)
  {
    var a :| a in findings && a.alertId == id;
    IdListed(findings, a);
  }

  lemma GroupedIsStorable(findings: seq<Alert>, incidents: seq<Incident>)
    requires NoDuplicates(Ids(findings)) && WellGrouped(findings, incidents)
    ensures AnalystStore.Linked(incidents, findings)
  {
    forall i, id | 0 <= i < |incidents| && id in incidents[i].alertIds ensures id in Ids(findings) {
      assert incidents[i] in incidents;
      BackedIsListed(findings, incidents[i].srcIp, id);
    }
    assert forall i, j :: 0 <= i < j < |incidents| ==> Disjoint(incidents[i], incidents[j]);
  }

  /** What the analyst store expects of a projection holds exactly if no id leads two keys. */
  lemma PipelineIsLinked(alerts: seq<Alert>)
    requires forall a :: a in alerts ==> WellFormed(a)
    ensures AnalystStore.Linked(IncidentsOf(alerts), Resolve(alerts)) <==> NamedApart(alerts)
  {
    if NamedApart(alerts) {
      IncidentsAreWellGrouped(alerts);
      GroupedIsStorable(Resolve(alerts), IncidentsOf(alerts));
    } else {
      ResolvedAreWellFormed(alerts);
    }
  }

  // ------------------------------------------------------- the saved report

  /** Twenty hexadecimal digits for the id of each incident of a run. */
  ghost predicate Digest(hex: IncidentId -> string, incidents: seq<Incident>) {
    forall i :: i in incidents ==> |hex(i.incidentId)| == 20
  }

  /** No two ids of a run have the same digest. */
  ghost predicate NoCollision(hex: IncidentId -> string, incidents: seq<Incident>) {
    forall i, j :: i in incidents && j in incidents && hex(i.incidentId) == hex(j.incidentId) ==> i.incidentId == j.incidentId
  }

  function RecordOf(hex: IncidentId -> string, i: Incident): IncidentRecord {
    IncidentRecord(hex(i.incidentId), i.srcIp, i.firstSeen, i.lastSeen, i.riskScore as real, i.confidence, i.severity, i.alertIds)
  }

  function RecordsOf(hex: IncidentId -> string, incidents: seq<Incident>): (records: seq<IncidentRecord>)
    ensures |records| == |incidents| && forall k :: 0 <= k < |records| ==> records[k] == RecordOf(hex, incidents[k])
  {
    seq(|incidents|, k requires 0 <= k < |incidents| => RecordOf(hex, incidents[k]))
  }

  function Saved(hex: IncidentId -> string, alerts: seq<Alert>, runId: string, quality: string, bytes: nat): Report {
    Report("completed", runId, RecordsOf(hex, IncidentsOf(alerts)), Resolve(alerts), quality, bytes)
  }

  ghost predicate ShortNames(alerts: seq<Alert>) {
    forall a :: a in alerts ==> |a.alertId| <= 256 && |a.srcIp| <= 256
  }

  lemma RecordIsFine(hex: IncidentId -> string, findings: seq<Alert>, i: Incident)
    requires |hex(i.incidentId)| == 20 && Resolved(findings) && ShortNames(findings) && Supported(findings, i)
    ensures FieldsFine(RecordOf(hex, i)) && ReferencesFine(findings, RecordOf(hex, i))
  {
    assert i.alertIds[0] in i.alertIds;
    var a :| a in findings && a.alertId == i.alertIds[0] && a.srcIp == i.srcIp;
  }

  lemma RecordsFine(hex: IncidentId -> string, findings: seq<Alert>, incidents: seq<Incident>)
    requires Digest(hex, incidents) && Resolved(findings) && ShortNames(findings) && WellGrouped(findings, incidents)
    ensures forall r :: r in RecordsOf(hex, incidents) ==> FieldsFine(r) && ReferencesFine(findings, r)
  {
    var records := RecordsOf(hex, incidents);
    forall r | r in records ensures FieldsFine(r) && ReferencesFine(findings, r) {
      var k :| 0 <= k < |records| && records[k] == r;
      assert incidents[k] in incidents;
      RecordIsFine(hex, findings, incidents[k]);
    }
  }

  lemma RecordsUnrelatedIff(hex: IncidentId -> string, incidents: seq<Incident>)
    requires Pairwise(Disjoint, incidents)
    ensures Pairwise(Unrelated, RecordsOf(hex, incidents)) <==> NoCollision(hex, incidents)
  {
    var records := RecordsOf(hex, incidents);
    if NoCollision(hex, incidents) {
      forall k, l | 0 <= k < l < |records| ensures Unrelated(records[k], records[l]) {
        assert Disjoint(incidents[k], incidents[l]);
        assert incidents[k] in incidents && incidents[l] in incidents;
      }
    }
    if !NoCollision(hex, incidents) {
      var i, j :| i in incidents && j in incidents && hex(i.incidentId) == hex(j.incidentId) && i.incidentId != j.incidentId;
      var k :| 0 <= k < |incidents| && incidents[k] == i;
      var l :| 0 <= l < |incidents| && incidents[l] == j;
      assert !Unrelated(records[if k < l then k else l], records[if k < l then l else k]);
    }
  }

  lemma RecordsReferToAll(hex: IncidentId -> string, findings: seq<Alert>, incidents: seq<Incident>)
    requires forall a :: a in findings ==> exists i :: i in incidents && a.alertId in i.alertIds
    ensures forall a :: a in findings ==> Referenced(RecordsOf(hex, incidents), a.alertId)
  {
    var records := RecordsOf(hex, incidents);
    forall a | a in findings ensures Referenced(records, a.alertId) {
      var i :| i in incidents && a.alertId in i.alertIds;
      var k :| 0 <= k < |incidents| && incidents[k] == i;
      assert records[k] in records;
    }
  }

  lemma GroupedIsLinkedIff(hex: IncidentId -> string, findings: seq<Alert>, incidents: seq<Incident>)
    requires Digest(hex, incidents) && Resolved(findings) && ShortNames(findings) && WellGrouped(findings, incidents)
    ensures WellLinked(findings, RecordsOf(hex, incidents)) <==> NoCollision(hex, incidents)
  {
    RecordsFine(hex, findings, incidents);
    RecordsUnrelatedIff(hex, incidents);
    RecordsReferToAll(hex, findings, incidents);
    NamesAreIdentities(findings);
    Assemble(findings, RecordsOf(hex, incidents));
  }

  lemma NamesAreIdentities(findings: seq<Alert>)
    requires Resolved(findings) && ShortNames(findings)
    ensures forall a :: a in findings ==> IsIdentity(a.alertId)
  {
    assert forall a :: a in findings ==> WellFormed(a);
  }

  lemma Assemble(findings: seq<Alert>, records: seq<IncidentRecord>)
    requires forall a :: a in findings ==> IsIdentity(a.alertId)
    requires forall a :: a in findings ==> Referenced(records, a.alertId)
    requires NoDuplicates(Ids(findings))
    requires forall r :: r in records ==> FieldsFine(r) && ReferencesFine(findings, r)
    ensures WellLinked(findings, records) <==> Pairwise(Unrelated, records)
  {
  }

  lemma ShortNamesStay(alerts: seq<Alert>)
    requires (forall a :: a in alerts ==> WellFormed(a)) && ShortNames(alerts)
    ensures ShortNames(Resolve(alerts))
  {
    var findings := Resolve(alerts);
    forall o | o in findings ensures |o.alertId| <= 256 && |o.srcIp| <= 256 {
      var a := Speaker(alerts, o);
    }
  }

  lemma ExportedIffLinked(r: Report)
    ensures Export.Export(r).Ok? <==> Preamble(r).None? && WellLinked(r.alerts, r.incidents)
    ensures WellLinked(r.alerts, r.incidents) && Export.Export(r).Err? ==> Preamble(r) == Some(Export.Export(r).error)
  {
    ExportedIffWellLinked(r);
  }

  /** On what the first two stages produce, from well-formed alerts in any order, the export is refused only for the run's
      own name, size, counts or quality mark, for an id that leads two keys, or for two incident ids with one digest:
      no other check on records can fail. */
  lemma ExportIsTotalOnRuns(hex: IncidentId -> string, alerts: seq<Alert>, runId: string, quality: string, bytes: nat)
    requires Digest(hex, IncidentsOf(alerts)) && (forall a :: a in alerts ==> WellFormed(a)) && ShortNames(alerts)
    ensures var r := Saved(hex, alerts, runId, quality, bytes);
      && (Export.Export(r).Ok? <==>
           && IsIdentity(runId) && |IncidentsOf(alerts)| <= 5000 && |Resolve(alerts)| <= 20000 && bytes <= 16777216
           && IsQuality(quality) && NamedApart(alerts) && NoCollision(hex, IncidentsOf(alerts)))
      && (NamedApart(alerts) && NoCollision(hex, IncidentsOf(alerts)) && Export.Export(r).Err? ==>
            Preamble(r) == Some(Export.Export(r).error))
  {
    RunLinkedIff(hex, alerts);
    var r := Saved(hex, alerts, runId, quality, bytes);
    ExportedIff(r, Resolve(alerts), RecordsOf(hex, IncidentsOf(alerts)), NamedApart(alerts) && NoCollision(hex, IncidentsOf(alerts)));
  }

  lemma ExportedIff(r: Report, findings: seq<Alert>, records: seq<IncidentRecord>, fit: bool)
    requires r.status == "completed" && r.alerts == findings && r.incidents == records && (WellLinked(findings, records) <==> fit)
    ensures Export.Export(r).Ok? <==>
              && IsIdentity(r.runId) && |records| <= 5000 && |findings| <= 20000 && r.bytes <= 16777216 && IsQuality(r.quality) && fit
    ensures fit && Export.Export(r).Err? ==> Preamble(r) == Some(Export.Export(r).error)
  {
    ExportedIffLinked(r);
  }

  lemma RunLinkedIff(hex: IncidentId -> string, alerts: seq<Alert>)
    requires Digest(hex, IncidentsOf(alerts)) && (forall a :: a in alerts ==> WellFormed(a)) && ShortNames(alerts)
    ensures WellLinked(Resolve(alerts), RecordsOf(hex, IncidentsOf(alerts))) <==>
              NamedApart(alerts) && NoCollision(hex, IncidentsOf(alerts))
  {
    ResolvedAreWellFormed(alerts);
    if NamedApart(alerts) {
      IncidentsAreWellGrouped(alerts);
      ShortNamesStay(alerts);
      GroupedIsLinkedIff(hex, Resolve(alerts), IncidentsOf(alerts));
    }
  }

  // --------------------------------------- digests without a collision exist

  const DIGITS := "0123456789abcdef"

  function Hex(n: nat, width: nat): (s: string)
    ensures |s| == width
  {
    if width == 0 then "" else Hex(n / 16, width - 1) + [DIGITS[n % 16]]
  }

  function Power(n: nat): nat {
    if n == 0 then 1 else 16 * Power(n - 1)
  }

  lemma {:induction false} HexIsInjective(m: nat, n: nat, width: nat)
    requires m < Power(width) && n < Power(width) && Hex(m, width) == Hex(n, width)
    ensures m == n
  {
    if width > 0 {
      assert Hex(m, width)[..width - 1] == Hex(m / 16, width - 1) && Hex(n, width)[..width - 1] == Hex(n / 16, width - 1);
      HexIsInjective(m / 16, n / 16, width - 1);
      assert Hex(m, width)[width - 1] == DIGITS[m % 16] && Hex(n, width)[width - 1] == DIGITS[n % 16];
      DigitsDiffer(m % 16, n % 16);
    }
  }

  lemma DigitsDiffer(a: nat, b: nat)
    requires a < 16 && b < 16 && DIGITS[a] == DIGITS[b]
    ensures a == b
  {
  }

  lemma {:induction false} PowerIsLarge(n: nat)
    ensures Power(n) >= 1 && (n >= 4 ==> Power(n) >= 65536)
  {
    if n > 0 {
      PowerIsLarge(n - 1);
      if n == 4 {
        assert Power(3) == 16 * Power(2) && Power(2) == 16 * Power(1) && Power(1) == 16 * Power(0);
      }
    }
  }

  /** The place of the first incident with this id, or the end. */
  function PlaceOf(incidents: seq<Incident>, id: IncidentId): (n: nat)
    ensures n <= |incidents|
    ensures (exists i :: i in incidents && i.incidentId == id) ==> n < |incidents| && incidents[n].incidentId == id
  {
    if incidents == [] then 0
    else if incidents[0].incidentId == id then 0
    else 1 + PlaceOf(incidents[1..], id)
  }

  /** For the incidents of any run that can be exported there are digests of twenty digits without a collision. */
  lemma DigestsExist(incidents: seq<Incident>) returns (hex: IncidentId -> string)
    requires |incidents| <= 5000
    ensures Digest(hex, incidents) && NoCollision(hex, incidents)
  {
    hex := id => Hex(PlaceOf(incidents, id), 20);
    PowerIsLarge(20);
    forall i, j | i in incidents && j in incidents && hex(i.incidentId) == hex(j.incidentId)
      ensures i.incidentId == j.incidentId
    {
      HexIsInjective(PlaceOf(incidents, i.incidentId), PlaceOf(incidents, j.incidentId), 20);
    }
  }
}
