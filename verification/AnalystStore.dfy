/** The analyst store: keyed tables changed only by upserts (src/aegisflow/api_store.py). */
module AnalystStore {
  import opened Records

  datatype IncidentRow = IncidentRow(payload: Incident, status: string, updatedAt: Time)
  datatype AlertRow = AlertRow(
    incidentId: Option<IncidentId>, threatType: string, severity: string, windowStart: Time, payload: Alert)

  datatype Tables<R> = Tables(
    incidents: map<IncidentId, IncidentRow>, alerts: map<string, AlertRow>, runs: map<string, R>)

  const VALID_STATUSES: set<string> := {"open", "investigating", "resolved", "false_positive"}

  // ---------------------------------------------------------------- upserts

  function UpsertIncident<R>(t: Tables<R>, inc: Incident): Tables<R> {
    var status := if inc.incidentId in t.incidents then t.incidents[inc.incidentId].status else inc.status;
    t.(incidents := t.incidents[inc.incidentId := IncidentRow(inc, status, inc.lastSeen)])
  }

  /** A conflicting row keeps its threat type, severity and window start; only owner and payload move. */
  function UpsertAlert<R>(t: Tables<R>, alert: Alert, owner: Option<IncidentId>): Tables<R> {
    var row := if alert.alertId in t.alerts
      then t.alerts[alert.alertId].(incidentId := owner, payload := alert)
      else AlertRow(owner, alert.threatType, alert.severity, alert.windowStart, alert);
    t.(alerts := t.alerts[alert.alertId := row])
  }

  function UpsertIncidents<R>(t: Tables<R>, incidents: seq<Incident>): Tables<R>
    decreases |incidents|
  {
    if incidents == [] then t else UpsertIncidents(UpsertIncident(t, incidents[0]), incidents[1..])
  }

  /** The incident an imported alert belongs to: the last one in the batch that lists it. */
  function Owner(incidents: seq<Incident>, alertId: string): Option<IncidentId> {
    if incidents == [] then None
    else if alertId in incidents[|incidents| - 1].alertIds then Some(incidents[|incidents| - 1].incidentId)
    else Owner(incidents[..|incidents| - 1], alertId)
  }

  function UpsertAlerts<R>(t: Tables<R>, alerts: seq<Alert>, incidents: seq<Incident>): Tables<R>
    decreases |alerts|
  {
    if alerts == [] then t
    else UpsertAlerts(UpsertAlert(t, alerts[0], Owner(incidents, alerts[0].alertId)), alerts[1..], incidents)
  }

  function Import<R>(t: Tables<R>, incidents: seq<Incident>, alerts: seq<Alert>): Tables<R> {
    UpsertAlerts(UpsertIncidents(t, incidents), alerts, incidents)
  }

  function Project<R>(t: Tables<R>, incidents: seq<Incident>, alerts: seq<Alert>, runId: string, report: R): Tables<R> {
    var imported := Import(t, incidents, alerts);
    imported.(runs := imported.runs[runId := report])
  }

  // --------------------------------------------------------- the repository

  class IncidentRepository<R> {
    var tables: Tables<R>

    constructor ()
      ensures tables == Tables(map[], map[], map[])
    {
      tables := Tables(map[], map[], map[]);
    }

    /** One transaction: both loops of upserts land, in order, or nothing does. */
    method ImportRecords(incidents: seq<Incident>, alerts: seq<Alert>)
      modifies this
      ensures tables == Import(old(tables), incidents, alerts)
    {
      var owners: map<string, IncidentId> := map[];
      var i := 0;
      while i < |incidents|
        invariant 0 <= i <= |incidents|
        invariant tables == old(tables)
        invariant forall a :: (a in owners <==> Owner(incidents[..i], a).Some?)
        invariant forall a :: a in owners ==> Owner(incidents[..i], a) == Some(owners[a])
      {
        assert incidents[..i + 1][..i] == incidents[..i];
        var j := 0;
        var ids := incidents[i].alertIds;
        ghost var before := owners;
        while j < |ids|
          invariant 0 <= j <= |ids|
          invariant tables == old(tables)
          invariant forall a :: a in owners <==> a in before || a in ids[..j]
          invariant forall a :: a in owners ==> owners[a] == if a in ids[..j] then incidents[i].incidentId else before[a]
        {
          owners := owners[ids[j] := incidents[i].incidentId];
          j := j + 1;
        }
        assert ids[..|ids|] == ids;
        i := i + 1;
      }
      assert incidents[..i] == incidents;
      i := 0;
      while i < |incidents|
        invariant 0 <= i <= |incidents|
        invariant UpsertIncidents(old(tables), incidents) == UpsertIncidents(tables, incidents[i..])
      {
        tables := UpsertIncident(tables, incidents[i]);
        i := i + 1;
      }
      i := 0;
      ghost var imported := tables;
      while i < |alerts|
        invariant 0 <= i <= |alerts|
        invariant UpsertAlerts(imported, alerts, incidents) == UpsertAlerts(tables, alerts[i..], incidents)
      {
        var id := alerts[i].alertId;
        tables := UpsertAlert(tables, alerts[i], if id in owners then Some(owners[id]) else None);
        i := i + 1;
      }
    }

    method ProjectAnalysisRun(incidents: seq<Incident>, alerts: seq<Alert>, runId: string, report: R)
      modifies this
      ensures tables == Project(old(tables), incidents, alerts, runId, report)
    {
      ImportRecords(incidents, alerts);
      tables := tables.(runs := tables.runs[runId := report]);
    }

    /** The stored status changes in the column and in the payload; an unknown incident changes nothing. */
    method SetStatus(id: IncidentId, status: string, updatedAt: Time) returns (r: Result<bool, string>)
      modifies this
      ensures r.Err? <==> status !in VALID_STATUSES
      ensures r.Ok? ==> (r.value <==> id in old(tables).incidents)
      ensures tables == WithStatus(old(tables), id, status, updatedAt)
    {
      if status !in VALID_STATUSES {
        return Err("invalid incident status");
      }
      if id !in tables.incidents {
        return Ok(false);
      }
      var payload := tables.incidents[id].payload.(status := status);
      tables := tables.(incidents := tables.incidents[id := IncidentRow(payload, status, updatedAt)]);
      return Ok(true);
    }

    /** The stored incident with its reviewed status, and its present members by stored window start. */
    method GetIncident(id: IncidentId) returns (incident: Option<Incident>, alerts: seq<Alert>)
      ensures incident.Some? <==> id in tables.incidents
      ensures incident.Some? ==> incident.value == View(tables, id)
      ensures incident.None? ==> alerts == []
      ensures incident.Some? ==> Listing(tables, Members(tables, id), alerts)
    {
      if id !in tables.incidents {
        return None, [];
      }
      incident := Some(tables.incidents[id].payload.(status := tables.incidents[id].status));
      var todo := set a | a in tables.alerts && Selected(tables, id, a);
      ghost var listed: seq<string> := [];
      alerts := [];
      while todo != {}
        invariant todo <= Members(tables, id)
        invariant forall a :: a in Members(tables, id) <==> a in todo || a in listed
        invariant ListedAs(tables, listed, alerts)
        invariant forall a, b :: a in listed && b in todo ==> a != b && Start(tables, a) <= Start(tables, b)
        decreases |todo|
      {
        var next := Earliest(tables, todo);
        alerts := alerts + [tables.alerts[next].payload];
        listed := listed + [next];
        todo := todo - {next};
      }
      assert Listing(tables, Members(tables, id), alerts) by {
        assert forall a :: a in Members(tables, id) <==> a in listed;
      }
    }
  }

  function WithStatus<R>(t: Tables<R>, id: IncidentId, status: string, at: Time): Tables<R> {
    if status in VALID_STATUSES && id in t.incidents
    then t.(incidents := t.incidents[id := IncidentRow(t.incidents[id].payload.(status := status), status, at)])
    else t
  }

  // ------------------------------------------------------- reading incidents

  function View<R>(t: Tables<R>, id: IncidentId): Incident
    requires id in t.incidents
  {
    t.incidents[id].payload.(status := t.incidents[id].status)
  }

  /** Rows that name the incident and are still members of its present payload. */
  predicate Selected<R>(t: Tables<R>, id: IncidentId, alertId: string)
    requires id in t.incidents && alertId in t.alerts
  {
    t.alerts[alertId].incidentId == Some(id) && t.alerts[alertId].payload.alertId in t.incidents[id].payload.alertIds
  }

  function Members<R>(t: Tables<R>, id: IncidentId): (members: set<string>)
    requires id in t.incidents
    ensures forall a :: a in members ==> a in t.alerts
  {
    set a | a in t.alerts && Selected(t, id, a)
  }

  function Start<R>(t: Tables<R>, alertId: string): Time {
    if alertId in t.alerts then t.alerts[alertId].windowStart else 0.0
  }

  ghost predicate ListedAs<R>(t: Tables<R>, listed: seq<string>, alerts: seq<Alert>) {
    && |listed| == |alerts|
    && NoDuplicates(listed)
    && (forall i :: 0 <= i < |listed| ==> listed[i] in t.alerts && t.alerts[listed[i]].payload == alerts[i])
    && (forall i, j :: 0 <= i < j < |listed| ==> Start(t, listed[i]) <= Start(t, listed[j]))
  }

  ghost predicate Listing<R>(t: Tables<R>, members: set<string>, alerts: seq<Alert>) {
    exists listed :: ListedAs(t, listed, alerts) && forall a :: a in members <==> a in listed
  }

  method Earliest<R>(t: Tables<R>, ids: set<string>) returns (first: string)
    requires ids != {}
    ensures first in ids && forall a :: a in ids ==> Start(t, first) <= Start(t, a)
  {
    first :| first in ids;
    var rest := ids - {first};
    while rest != {}
      invariant rest < ids && first in ids && first !in rest
      invariant forall a :: a in ids && a !in rest ==> Start(t, first) <= Start(t, a)
      decreases |rest|
    {
      var a :| a in rest;
      rest := rest - {a};
      if Start(t, a) < Start(t, first) {
        first := a;
      }
    }
  }

  // ------------------------------------------------ current members of a run

  /** Every stored row sits under the id in its own payload. */
  ghost predicate Keyed<R>(t: Tables<R>) {
    && (forall id :: id in t.incidents ==> t.incidents[id].payload.incidentId == id)
    && (forall a :: a in t.alerts ==> t.alerts[a].payload.alertId == a)
  }

  /** What the detection stage hands over: distinct ids, and each listed alert is present in one incident only. */
  ghost predicate Linked(incidents: seq<Incident>, alerts: seq<Alert>) {
    && NoDuplicates(Ids(alerts))
    && (forall i, j :: 0 <= i < j < |incidents| ==> incidents[i].incidentId != incidents[j].incidentId)
    && (forall i, a :: 0 <= i < |incidents| && a in incidents[i].alertIds ==> a in Ids(alerts))
    && (forall i, j, a :: 0 <= i < j < |incidents| && a in incidents[i].alertIds ==> a !in incidents[j].alertIds)
  }

  /** Rows that a batch of incidents does not list stay as they are; every row keeps its status. */
  lemma {:induction false} IncidentsLeave<R>(t: Tables<R>, incidents: seq<Incident>)
    requires Keyed(t)
    ensures var u := UpsertIncidents(t, incidents);
      && Keyed(u) && u.alerts == t.alerts && u.runs == t.runs
      && (forall id :: id in t.incidents ==> id in u.incidents && u.incidents[id].status == t.incidents[id].status)
    decreases |incidents|
  {
    if incidents == [] {
    } else {
      IncidentsLeave(UpsertIncident(t, incidents[0]), incidents[1..]);
    }
  }

  lemma {:induction false} IncidentUnlisted<R>(t: Tables<R>, incidents: seq<Incident>, id: IncidentId)
    requires forall i :: 0 <= i < |incidents| ==> incidents[i].incidentId != id
    ensures var u := UpsertIncidents(t, incidents);
      (id in u.incidents <==> id in t.incidents) && (id in t.incidents ==> u.incidents[id] == t.incidents[id])
    decreases |incidents|
  {
    if incidents == [] {
    } else {
      IncidentUnlisted(UpsertIncident(t, incidents[0]), incidents[1..], id);
    }
  }

  lemma {:induction false} IncidentListed<R>(t: Tables<R>, incidents: seq<Incident>, i: nat)
    requires i < |incidents|
    requires forall i, j :: 0 <= i < j < |incidents| ==> incidents[i].incidentId != incidents[j].incidentId
    ensures var u := UpsertIncidents(t, incidents);
      incidents[i].incidentId in u.incidents && u.incidents[incidents[i].incidentId].payload == incidents[i]
    decreases |incidents|
  {
    var rest := incidents[1..];
    assert forall j :: 0 <= j < |rest| ==> rest[j] == incidents[j + 1];
    if i > 0 {
      IncidentListed(UpsertIncident(t, incidents[0]), rest, i - 1);
    } else {
      IncidentUnlisted(UpsertIncident(t, incidents[0]), rest, incidents[0].incidentId);
    }
  }

  lemma IncidentsStored<R>(t: Tables<R>, incidents: seq<Incident>)
    requires Keyed(t)
    requires forall i, j :: 0 <= i < j < |incidents| ==> incidents[i].incidentId != incidents[j].incidentId
    ensures var u := UpsertIncidents(t, incidents);
      && Keyed(u) && u.alerts == t.alerts && u.runs == t.runs
      && (forall i :: 0 <= i < |incidents| ==>
            incidents[i].incidentId in u.incidents && u.incidents[incidents[i].incidentId].payload == incidents[i])
      && (forall id :: id in t.incidents ==> id in u.incidents && u.incidents[id].status == t.incidents[id].status)
  {
    IncidentsLeave(t, incidents);
    forall i | 0 <= i < |incidents|
      ensures incidents[i].incidentId in UpsertIncidents(t, incidents).incidents
      ensures UpsertIncidents(t, incidents).incidents[incidents[i].incidentId].payload == incidents[i]
    {
      IncidentListed(t, incidents, i);
    }
  }

  lemma {:induction false} AlertsStored<R>(t: Tables<R>, alerts: seq<Alert>, incidents: seq<Incident>)
    requires Keyed(t) && NoDuplicates(Ids(alerts))
    ensures var u := UpsertAlerts(t, alerts, incidents);
      && Keyed(u) && u.incidents == t.incidents && u.runs == t.runs
      && (forall i :: 0 <= i < |alerts| ==>
            var a := alerts[i].alertId;
            a in u.alerts && u.alerts[a].payload == alerts[i] && u.alerts[a].incidentId == Owner(incidents, a))
      && (forall a :: a !in Ids(alerts) ==>
            (a in u.alerts <==> a in t.alerts) && (a in t.alerts ==> u.alerts[a] == t.alerts[a]))
    decreases |alerts|
  {
    if alerts == [] {
    } else {
      var first := UpsertAlert(t, alerts[0], Owner(incidents, alerts[0].alertId));
      var rest := alerts[1..];
      assert Ids(alerts)[1..] == Ids(rest);
      AlertsStored(first, rest, incidents);
      assert alerts[0].alertId !in Ids(rest);
      assert forall a :: a !in Ids(alerts) ==> a !in Ids(rest) && a != Ids(alerts)[0];
      assert forall i :: 0 <= i < |rest| ==> rest[i] == alerts[i + 1];
    }
  }

  lemma {:induction false} OwnerIsTheLister(incidents: seq<Incident>, i: nat, a: string)
    requires i < |incidents| && a in incidents[i].alertIds
    requires forall j :: i < j < |incidents| ==> a !in incidents[j].alertIds
    ensures Owner(incidents, a) == Some(incidents[i].incidentId)
  {
    if i < |incidents| - 1 {
      OwnerIsTheLister(incidents[..|incidents| - 1], i, a);
    }
  }

  /** Right after a projection an incident shows exactly its present members, with their present payloads,
      whatever older rows the store still holds. */
  lemma ProjectionShowsCurrentMembers<R>(
      t: Tables<R>, incidents: seq<Incident>, alerts: seq<Alert>, runId: string, report: R, i: nat)
    requires Keyed(t) && Linked(incidents, alerts) && i < |incidents|
    ensures var u := Project(t, incidents, alerts, runId, report);
      var id := incidents[i].incidentId;
      && Keyed(u) && id in u.incidents && runId in u.runs && u.runs[runId] == report
      && View(u, id) == incidents[i].(status := u.incidents[id].status)
      && (id in t.incidents ==> u.incidents[id].status == t.incidents[id].status)
      && Members(u, id) == (set a | a in incidents[i].alertIds)
      && (forall a :: a in Members(u, id) ==> u.alerts[a].payload in alerts)
  {
    var mid := UpsertIncidents(t, incidents);
    var u := Project(t, incidents, alerts, runId, report);
    var id := incidents[i].incidentId;
    IncidentsStored(t, incidents);
    AlertsStored(mid, alerts, incidents);
    forall a ensures a in Members(u, id) <==> a in incidents[i].alertIds {
      if a in incidents[i].alertIds {
        assert a in Ids(alerts);
        var k :| 0 <= k < |alerts| && Ids(alerts)[k] == a;
        assert alerts[k].alertId == a;
        OwnerIsTheLister(incidents, i, a);
      }
    }
    forall a | a in Members(u, id) ensures u.alerts[a].payload in alerts {
      assert a in Ids(alerts);
      var k :| 0 <= k < |alerts| && Ids(alerts)[k] == a;
      assert alerts[k].alertId == a;
    }
  }

  /** A projection stores every payload of its batch. */
  lemma ProjectionStoresPayloads<R>(t: Tables<R>, incidents: seq<Incident>, alerts: seq<Alert>, runId: string, report: R)
    requires Keyed(t) && Linked(incidents, alerts)
    ensures var u := Project(t, incidents, alerts, runId, report);
      && (forall i :: i in incidents ==> i.incidentId in u.incidents && u.incidents[i.incidentId].payload == i)
      && (forall a :: a in alerts ==> a.alertId in u.alerts && u.alerts[a.alertId].payload == a)
  {
    IncidentsStored(t, incidents);
    AlertsStored(UpsertIncidents(t, incidents), alerts, incidents);
    var u := Project(t, incidents, alerts, runId, report);
    forall i | i in incidents ensures i.incidentId in u.incidents && u.incidents[i.incidentId].payload == i {
      var k :| 0 <= k < |incidents| && incidents[k] == i;
    }
    forall a | a in alerts ensures a.alertId in u.alerts && u.alerts[a.alertId].payload == a {
      var k :| 0 <= k < |alerts| && alerts[k] == a;
    }
  }

  // ------------------------------------------- the analyst's status survives

  datatype Op<R> =
    | Imported(incidents: seq<Incident>, alerts: seq<Alert>)
    | Projected(incidents: seq<Incident>, alerts: seq<Alert>, runId: string, report: R)
    | Reviewed(id: IncidentId, status: string, at: Time)

  function Effect<R>(t: Tables<R>, op: Op<R>): Tables<R> {
    match op
    case Imported(incidents, alerts) => Import(t, incidents, alerts)
    case Projected(incidents, alerts, runId, report) => Project(t, incidents, alerts, runId, report)
    case Reviewed(id, status, at) => WithStatus(t, id, status, at)
  }

  function Effects<R>(t: Tables<R>, ops: seq<Op<R>>): Tables<R> {
    if ops == [] then t else Effect(Effects(t, ops[..|ops| - 1]), ops[|ops| - 1])
  }

  /** The incident as the newest batch in the history lists it, if any batch does. */
  function Newest<R>(ops: seq<Op<R>>, id: IncidentId): Option<Incident> {
    if ops == [] then None
    else
      var op := ops[|ops| - 1];
      var listed := if op.Reviewed? then None else NewestIn(op.incidents, id);
      if listed.Some? then listed else Newest(ops[..|ops| - 1], id)
  }

  function NewestIn(incidents: seq<Incident>, id: IncidentId): Option<Incident>
    decreases |incidents|
  {
    if incidents == [] then None
    else
      var later := NewestIn(incidents[1..], id);
      if later.Some? then later else if incidents[0].incidentId == id then Some(incidents[0]) else None
  }

  lemma {:induction false} UpsertsKeepStatus<R>(t: Tables<R>, incidents: seq<Incident>, id: IncidentId)
    requires id in t.incidents
    ensures var u := UpsertIncidents(t, incidents);
      && u.alerts == t.alerts && id in u.incidents
      && u.incidents[id].status == t.incidents[id].status
      && u.incidents[id].payload == NewestIn(incidents, id).GetOr(t.incidents[id].payload)
    decreases |incidents|
  {
    if incidents == [] {
    } else {
      UpsertsKeepStatus(UpsertIncident(t, incidents[0]), incidents[1..], id);
    }
  }

  lemma {:induction false} AlertUpsertsKeepIncidents<R>(t: Tables<R>, alerts: seq<Alert>, incidents: seq<Incident>)
    ensures UpsertAlerts(t, alerts, incidents).incidents == t.incidents
    decreases |alerts|
  {
    if alerts == [] {
    } else {
      AlertUpsertsKeepIncidents(UpsertAlert(t, alerts[0], Owner(incidents, alerts[0].alertId)), alerts[1..], incidents);
    }
  }

  /** However imports and projections interleave, an incident shows its newest detection payload under the
      status the analyst last set; a later valid review of the same incident is the only thing that changes it. */
  lemma {:induction false} ReviewSurvives<R>(t: Tables<R>, ops: seq<Op<R>>, id: IncidentId)
    requires id in t.incidents
    requires forall k :: 0 <= k < |ops| ==> !(ops[k].Reviewed? && ops[k].id == id && ops[k].status in VALID_STATUSES)
    ensures var u := Effects(t, ops);
      && id in u.incidents && u.incidents[id].status == t.incidents[id].status
      && View(u, id) == Newest(ops, id).GetOr(t.incidents[id].payload).(status := t.incidents[id].status)
  {
    if ops == [] {
    } else {
      var before := ops[..|ops| - 1];
      var op := ops[|ops| - 1];
      ReviewSurvives(t, before, id);
      var u := Effects(t, before);
      if !op.Reviewed? {
        UpsertsKeepStatus(u, op.incidents, id);
        AlertUpsertsKeepIncidents(UpsertIncidents(u, op.incidents), op.alerts, op.incidents);
      }
    }
  }

  // ------------------------------------------------ where rows come from

  /** One of these incidents, up to its status. */
  ghost predicate ListedIn(incidents: seq<Incident>, i: Incident) {
    exists j :: j in incidents && j.(status := i.status) == i
  }

  ghost predicate AlertFrom<R>(t: Tables<R>, ops: seq<Op<R>>, payload: Alert) {
    || (exists a :: a in t.alerts && t.alerts[a].payload == payload)
    || (exists k :: 0 <= k < |ops| && !ops[k].Reviewed? && payload in ops[k].alerts)
  }

  ghost predicate IncidentFrom<R>(t: Tables<R>, ops: seq<Op<R>>, payload: Incident) {
    || (exists id :: id in t.incidents && t.incidents[id].payload.(status := payload.status) == payload)
    || (exists k :: 0 <= k < |ops| && !ops[k].Reviewed? && ListedIn(ops[k].incidents, payload))
  }

  lemma {:induction false} UpsertedAlerts<R>(t: Tables<R>, alerts: seq<Alert>, incidents: seq<Incident>, a: string)
    ensures var u := UpsertAlerts(t, alerts, incidents);
      a in u.alerts ==> u.alerts[a].payload in alerts || (a in t.alerts && u.alerts[a] == t.alerts[a])
    decreases |alerts|
  {
    if alerts == [] {
    } else {
      UpsertedAlerts(UpsertAlert(t, alerts[0], Owner(incidents, alerts[0].alertId)), alerts[1..], incidents, a);
    }
  }

  lemma {:induction false} UpsertedIncidents<R>(t: Tables<R>, incidents: seq<Incident>, id: IncidentId)
    ensures var u := UpsertIncidents(t, incidents);
      && u.alerts == t.alerts
      && (id in u.incidents ==> u.incidents[id].payload in incidents || (id in t.incidents && u.incidents[id] == t.incidents[id]))
    decreases |incidents|
  {
    if incidents == [] {
    } else {
      UpsertedIncidents(UpsertIncident(t, incidents[0]), incidents[1..], id);
    }
  }

  /** What one operation leaves of the rows. */
  lemma EffectRows<R>(t: Tables<R>, op: Op<R>)
    ensures var u := Effect(t, op);
      && (forall a :: a in u.alerts ==>
            (!op.Reviewed? && u.alerts[a].payload in op.alerts) || (a in t.alerts && u.alerts[a] == t.alerts[a]))
      && (forall id :: id in u.incidents ==>
            || (!op.Reviewed? && u.incidents[id].payload in op.incidents)
            || (id in t.incidents && u.incidents[id].payload == t.incidents[id].payload.(status := u.incidents[id].payload.status)))
  {
    if !op.Reviewed? {
      var mid := UpsertIncidents(t, op.incidents);
      AlertUpsertsKeepIncidents(mid, op.alerts, op.incidents);
      forall a { UpsertedAlerts(mid, op.alerts, op.incidents, a); }
      forall id { UpsertedIncidents(t, op.incidents, id); }
      IncidentUpsertsKeepAlerts(t, op.incidents);
    }
  }

  ghost predicate RowsFrom<R>(t: Tables<R>, ops: seq<Op<R>>, u: Tables<R>) {
    && (forall a :: a in u.alerts ==> AlertFrom(t, ops, u.alerts[a].payload))
    && (forall id :: id in u.incidents ==> IncidentFrom(t, ops, u.incidents[id].payload))
  }

  lemma RowsAfterOp<R>(t: Tables<R>, ops: seq<Op<R>>, before: Tables<R>)
    requires ops != [] && RowsFrom(t, ops[..|ops| - 1], before)
    ensures RowsFrom(t, ops, Effect(before, ops[|ops| - 1]))
  {
    var n := |ops| - 1;
    var op := ops[n];
    var u := Effect(before, op);
    EffectRows(before, op);
    forall a | a in u.alerts ensures AlertFrom(t, ops, u.alerts[a].payload) {
      if a in before.alerts && u.alerts[a] == before.alerts[a] {
        AlertFromGrows(t, ops, u.alerts[a].payload);
      } else {
        assert !ops[n].Reviewed? && u.alerts[a].payload in ops[n].alerts;
      }
    }
    forall id | id in u.incidents ensures IncidentFrom(t, ops, u.incidents[id].payload) {
      var payload := u.incidents[id].payload;
      if id in before.incidents && payload == before.incidents[id].payload.(status := payload.status) {
        IncidentFromGrows(t, ops, before.incidents[id].payload, payload);
      } else {
        assert payload.(status := payload.status) == payload;
        assert !ops[n].Reviewed? && ListedIn(ops[n].incidents, payload);
      }
    }
  }

  /** Every stored payload was there before or came with an import or a projection. */
  lemma {:induction false} RowsComeFromOps<R>(t: Tables<R>, ops: seq<Op<R>>)
    ensures RowsFrom(t, ops, Effects(t, ops))
  {
    if ops == [] {
      assert forall id :: id in t.incidents ==> t.incidents[id].payload.(status := t.incidents[id].payload.status) == t.incidents[id].payload;
    } else {
      RowsComeFromOps(t, ops[..|ops| - 1]);
      RowsAfterOp(t, ops, Effects(t, ops[..|ops| - 1]));
    }
  }

  lemma AlertFromGrows<R>(t: Tables<R>, ops: seq<Op<R>>, payload: Alert)
    requires ops != []
    ensures AlertFrom(t, ops[..|ops| - 1], payload) ==> AlertFrom(t, ops, payload)
  {
    var init := ops[..|ops| - 1];
    if k :| 0 <= k < |init| && !init[k].Reviewed? && payload in init[k].alerts {
      assert ops[k] == init[k];
    }
  }

  lemma IncidentFromGrows<R>(t: Tables<R>, ops: seq<Op<R>>, payload: Incident, later: Incident)
    requires ops != [] && IncidentFrom(t, ops[..|ops| - 1], payload) && later == payload.(status := later.status)
    ensures IncidentFrom(t, ops, later)
  {
    var init := ops[..|ops| - 1];
    if k :| 0 <= k < |init| && !init[k].Reviewed? && ListedIn(init[k].incidents, payload) {
      var j :| j in init[k].incidents && j.(status := payload.status) == payload;
      assert j.(status := later.status) == later;
      assert ops[k] == init[k] && ListedIn(ops[k].incidents, later);
    } else {
      var id :| id in t.incidents && t.incidents[id].payload.(status := payload.status) == payload;
      assert t.incidents[id].payload.(status := later.status) == later;
    }
  }

  lemma {:induction false} UpsertsKeepStart<R>(t: Tables<R>, alerts: seq<Alert>, incidents: seq<Incident>, a: string)
    requires a in t.alerts
    ensures var u := UpsertAlerts(t, alerts, incidents); a in u.alerts && Start(u, a) == Start(t, a)
    decreases |alerts|
  {
    if alerts == [] {
    } else {
      UpsertsKeepStart(UpsertAlert(t, alerts[0], Owner(incidents, alerts[0].alertId)), alerts[1..], incidents, a);
    }
  }

  lemma {:induction false} IncidentUpsertsKeepAlerts<R>(t: Tables<R>, incidents: seq<Incident>)
    ensures UpsertIncidents(t, incidents).alerts == t.alerts
    decreases |incidents|
  {
    if incidents == [] {
    } else {
      IncidentUpsertsKeepAlerts(UpsertIncident(t, incidents[0]), incidents[1..]);
    }
  }

  /** The column members are ordered by is the window start of an alert's first import, whatever later payloads
      say: a merged alert whose window has since grown backwards is still listed at its old place. */
  lemma {:induction false} FirstWindowStartIsKept<R>(t: Tables<R>, ops: seq<Op<R>>, a: string)
    requires a in t.alerts
    ensures var u := Effects(t, ops); a in u.alerts && Start(u, a) == Start(t, a)
  {
    if ops == [] {
    } else {
      var op := ops[|ops| - 1];
      FirstWindowStartIsKept(t, ops[..|ops| - 1], a);
      if !op.Reviewed? {
        var u := Effects(t, ops[..|ops| - 1]);
        IncidentUpsertsKeepAlerts(u, op.incidents);
        UpsertsKeepStart(UpsertIncidents(u, op.incidents), op.alerts, op.incidents, a);
      }
    }
  }

  /** The ordering column says what the payload says. */
  ghost predicate StartsAgree<R>(t: Tables<R>) {
    forall a :: a in t.alerts ==> t.alerts[a].windowStart == t.alerts[a].payload.windowStart
  }

  predicate ByStart(alerts: seq<Alert>) {
    forall i, j :: 0 <= i < j < |alerts| ==> alerts[i].windowStart <= alerts[j].windowStart
  }

  /** Then an incident lists its alerts in order of their starts. */
  lemma AgreeingListIsOrdered<R>(t: Tables<R>, members: set<string>, alerts: seq<Alert>)
    requires StartsAgree(t) && Listing(t, members, alerts)
    ensures ByStart(alerts)
  {
    var listed :| ListedAs(t, listed, alerts) && forall a :: a in members <==> a in listed;
    forall i, j | 0 <= i < j < |alerts| ensures alerts[i].windowStart <= alerts[j].windowStart {
      assert Start(t, listed[i]) <= Start(t, listed[j]);
    }
  }

  lemma {:induction false} NewAlertBringsItsStart<R>(t: Tables<R>, alerts: seq<Alert>, incidents: seq<Incident>, i: nat)
    requires NoDuplicates(Ids(alerts)) && i < |alerts| && alerts[i].alertId !in t.alerts
    ensures Start(UpsertAlerts(t, alerts, incidents), alerts[i].alertId) == alerts[i].windowStart
    decreases |alerts|
  {
    var first := UpsertAlert(t, alerts[0], Owner(incidents, alerts[0].alertId));
    if i == 0 {
      UpsertsKeepStart(first, alerts[1..], incidents, alerts[0].alertId);
    } else {
      assert Ids(alerts)[1..] == Ids(alerts[1..]);
      assert Ids(alerts)[0] != Ids(alerts)[i];
      NewAlertBringsItsStart(first, alerts[1..], incidents, i - 1);
    }
  }

  /** An import keeps column and payload in agreement exactly if every alert that is stored already comes with the
      start it is stored with. */
  lemma ImportKeepsAgreementIff<R>(t: Tables<R>, incidents: seq<Incident>, alerts: seq<Alert>)
    requires Keyed(t) && StartsAgree(t) && NoDuplicates(Ids(alerts))
    ensures StartsAgree(Import(t, incidents, alerts)) <==>
              forall i :: 0 <= i < |alerts| && alerts[i].alertId in t.alerts ==> alerts[i].windowStart == Start(t, alerts[i].alertId)
  {
    var mid, u := UpsertIncidents(t, incidents), Import(t, incidents, alerts);
    IncidentsLeave(t, incidents);
    AlertsStored(mid, alerts, incidents);
    forall i | 0 <= i < |alerts|
      ensures var a := alerts[i].alertId;
        a in u.alerts && u.alerts[a].payload == alerts[i]
        && u.alerts[a].windowStart == if a in t.alerts then Start(t, a) else alerts[i].windowStart
    {
      if alerts[i].alertId in t.alerts {
        UpsertsKeepStart(mid, alerts, incidents, alerts[i].alertId);
      } else {
        NewAlertBringsItsStart(mid, alerts, incidents, i);
      }
    }
    forall a | a in u.alerts && a in Ids(alerts) ensures exists i :: 0 <= i < |alerts| && alerts[i].alertId == a {
      var i :| 0 <= i < |alerts| && Ids(alerts)[i] == a;
    }
  }

  /** A merged alert whose window has grown backwards since it was stored: its incident lists it behind an alert that
      starts later. */
  lemma RegrownAlertIsMisplaced<R>() returns (t: Tables<R>, incidents: seq<Incident>, alerts: seq<Alert>, id: IncidentId)
    ensures Keyed(t) && StartsAgree(t) && Linked(incidents, alerts)
    ensures var u := Import(t, incidents, alerts);
      id in u.incidents && forall shown :: Listing(u, Members(u, id), shown) ==> |shown| == 2 && !ByStart(shown)
  {
    id := IncidentId("s", StartText(false, 1));
    var x := Alert("x", "d", "c2", "beacon", 0.5, "low", 5.0, 6.0, "s", None, [], []);
    var y := Alert("y", "d", "dns", "tunnel", 0.5, "low", 3.0, 6.0, "s", None, [], []);
    var before := Incident(id, "s", 3.0, 6.0, ["x", "y"], {"d"}, {"c2", "dns"}, 0.5, 10, "low", "open");
    var regrown := x.(windowStart := 1.0);
    t := Tables(map[id := IncidentRow(before, "open", 6.0)],
                map["x" := AlertRow(Some(id), "c2", "low", 5.0, x), "y" := AlertRow(Some(id), "dns", "low", 3.0, y)], map[]);
    incidents, alerts := [before], [regrown, y];
    assert "x"[0] != "y"[0];
    TwoAreLinked(before, regrown, y);
    RegrownIsMisplaced(t, before, regrown, y, Import(t, incidents, alerts));
  }

  lemma RegrownIsMisplaced<R>(t: Tables<R>, inc: Incident, x: Alert, y: Alert, u: Tables<R>)
    requires Keyed(t) && x.alertId != y.alertId && x.alertId in t.alerts && y.alertId in t.alerts
    requires t.alerts.Keys == {x.alertId, y.alertId} && inc.alertIds == [x.alertId, y.alertId]
    requires u == Import(t, [inc], [x, y])
    requires x.windowStart < y.windowStart && Start(t, y.alertId) < Start(t, x.alertId)
    ensures inc.incidentId in u.incidents
    ensures forall shown :: Listing(u, Members(u, inc.incidentId), shown) ==> |shown| == 2 && !ByStart(shown)
  {
    RegrownRows(t, inc, x, y, u);
    forall shown | Listing(u, Members(u, inc.incidentId), shown) ensures |shown| == 2 && !ByStart(shown) {
      RegrownListing(u, inc.incidentId, x, y, shown);
    }
  }

  lemma TwoAreLinked(inc: Incident, x: Alert, y: Alert)
    requires inc.alertIds == [x.alertId, y.alertId] && x.alertId != y.alertId
    ensures Linked([inc], [x, y])
  {
    assert Ids([x, y]) == [x.alertId, y.alertId];
  }

  lemma RegrownListing<R>(u: Tables<R>, id: IncidentId, x: Alert, y: Alert, shown: seq<Alert>)
    requires id in u.incidents && x.alertId != y.alertId && Members(u, id) == {x.alertId, y.alertId}
    requires u.alerts[x.alertId].payload == x && u.alerts[y.alertId].payload == y
    requires x.windowStart < y.windowStart && Start(u, y.alertId) < Start(u, x.alertId)
    requires Listing(u, Members(u, id), shown)
    ensures |shown| == 2 && !ByStart(shown)
  {
    var listed :| ListedAs(u, listed, shown) && forall a :: a in Members(u, id) <==> a in listed;
    ListOfTwo(listed, y.alertId, x.alertId);
    assert Start(u, listed[0]) <= Start(u, listed[1]);
    assert shown[0] == y && shown[1] == x;
  }

  lemma ListOfTwo(listed: seq<string>, a: string, b: string)
    requires NoDuplicates(listed) && a != b && forall x :: x in listed <==> x == a || x == b
    ensures listed == [a, b] || listed == [b, a]
  {
    assert |listed| > 2 ==> listed[0] != listed[1] && listed[0] != listed[2] && listed[1] != listed[2];
    assert a in listed && b in listed;
    var i :| 0 <= i < |listed| && listed[i] == a;
    var j :| 0 <= j < |listed| && listed[j] == b;
    forall k | 0 <= k < |listed| ensures listed[k] == a || listed[k] == b {
      assert listed[k] in listed;
    }
  }

  /** The rows of two alerts of one incident after an import that lists both. */
  lemma RegrownRows<R>(t: Tables<R>, inc: Incident, x: Alert, y: Alert, u: Tables<R>)
    requires Keyed(t) && x.alertId != y.alertId && x.alertId in t.alerts && y.alertId in t.alerts
    requires t.alerts.Keys == {x.alertId, y.alertId} && inc.alertIds == [x.alertId, y.alertId]
    requires u == Import(t, [inc], [x, y])
    ensures inc.incidentId in u.incidents && u.incidents[inc.incidentId].payload == inc
    ensures u.alerts.Keys == {x.alertId, y.alertId} && Members(u, inc.incidentId) == {x.alertId, y.alertId}
    ensures u.alerts[x.alertId].payload == x && Start(u, x.alertId) == Start(t, x.alertId)
    ensures u.alerts[y.alertId].payload == y && Start(u, y.alertId) == Start(t, y.alertId)
  {
    var mid := UpsertIncidents(t, [inc]);
    assert [x, y][1..] == [y] && [inc][1..] == [];
    IncidentsStored(t, [inc]);
    assert [inc][0] == inc;
    assert Ids([x, y]) == [x.alertId, y.alertId];
    AlertsStored(mid, [x, y], [inc]);
    assert [x, y][0] == x && [x, y][1] == y;
    OwnerIsTheLister([inc], 0, x.alertId);
    OwnerIsTheLister([inc], 0, y.alertId);
    UpsertsKeepStart(mid, [x, y], [inc], x.alertId);
    UpsertsKeepStart(mid, [x, y], [inc], y.alertId);
    forall a ensures a in u.alerts <==> a in {x.alertId, y.alertId} {
      assert a in Ids([x, y]) <==> a == x.alertId || a == y.alertId;
    }
  }
}
