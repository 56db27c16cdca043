/** What rows of the analyst store say: the status of an incident from the record that brought it in to the last review,
    and the columns of an alert (src/aegisflow/api_store.py). */
module StoreLaws {
  import opened Records
  import opened AnalystStore

  // ------------------------------------------------------ incidents come in

  lemma {:induction false} FirstImport<R>(t: Tables<R>, incidents: seq<Incident>, i: nat)
    requires i < |incidents| && incidents[i].incidentId !in t.incidents
    requires forall j :: 0 <= j < |incidents| && j != i ==> incidents[j].incidentId != incidents[i].incidentId
    ensures var u := UpsertIncidents(t, incidents); var id := incidents[i].incidentId;
      id in u.incidents && u.incidents[id] == IncidentRow(incidents[i], incidents[i].status, incidents[i].lastSeen)
    decreases |incidents|
  {
    var rest := incidents[1..];
    assert forall j :: 0 <= j < |rest| ==> rest[j] == incidents[j + 1];
    if i == 0 {
      IncidentUnlisted(UpsertIncident(t, incidents[0]), rest, incidents[0].incidentId);
    } else {
      FirstImport(UpsertIncident(t, incidents[0]), rest, i - 1);
    }
  }

  /** A new incident is shown as it came, with the status it came with, and is dated by its last sighting. */
  lemma NewIncidentIsShownAsItCame<R>(t: Tables<R>, incidents: seq<Incident>, alerts: seq<Alert>, i: nat)
    requires i < |incidents| && incidents[i].incidentId !in t.incidents
    requires forall j :: 0 <= j < |incidents| && j != i ==> incidents[j].incidentId != incidents[i].incidentId
    ensures var u := Import(t, incidents, alerts); var id := incidents[i].incidentId;
      && id in u.incidents && View(u, id) == incidents[i]
      && u.incidents[id].status == incidents[i].status && u.incidents[id].updatedAt == incidents[i].lastSeen
  {
    FirstImport(t, incidents, i);
    AlertUpsertsKeepIncidents(UpsertIncidents(t, incidents), alerts, incidents);
  }

  /** The status of the first record of a batch with this id. */
  function Brought(incidents: seq<Incident>, id: IncidentId): Option<string>
    decreases |incidents|
  {
    if incidents == [] then None
    else if incidents[0].incidentId == id then Some(incidents[0].status)
    else Brought(incidents[1..], id)
  }

  /** The status an incident stands at: that of the record that brought it in, or of the latest valid review since. */
  function Standing<R>(before: Option<string>, ops: seq<Op<R>>, id: IncidentId): Option<string> {
    if ops == [] then before
    else
      var n := |ops| - 1;
      var status := Standing(before, ops[..n], id);
      match ops[n]
      case Reviewed(reviewed, to, _) =>
        if reviewed == id && status.Some? && to in {"open", "investigating", "resolved", "false_positive"} then Some(to) else status
      case Imported(incidents, _) => if status.Some? then status else Brought(incidents, id)
      case Projected(incidents, _, _, _) => if status.Some? then status else Brought(incidents, id)
  }

  function StatusIn<R>(t: Tables<R>, id: IncidentId): Option<string> {
    if id in t.incidents then Some(t.incidents[id].status) else None
  }

  lemma {:induction false} UpsertsBring<R>(t: Tables<R>, incidents: seq<Incident>, id: IncidentId)
    ensures StatusIn(UpsertIncidents(t, incidents), id) ==
      if id in t.incidents then StatusIn(t, id) else Brought(incidents, id)
    decreases |incidents|
  {
    if incidents == [] {
    } else {
      UpsertsBring(UpsertIncident(t, incidents[0]), incidents[1..], id);
    }
  }

  lemma ImportBrings<R>(t: Tables<R>, incidents: seq<Incident>, alerts: seq<Alert>, id: IncidentId)
    ensures StatusIn(Import(t, incidents, alerts), id) == if id in t.incidents then StatusIn(t, id) else Brought(incidents, id)
  {
    UpsertsBring(t, incidents, id);
    AlertUpsertsKeepIncidents(UpsertIncidents(t, incidents), alerts, incidents);
  }

  lemma StatusStep<R>(t: Tables<R>, op: Op<R>, id: IncidentId)
    ensures StatusIn(Effect(t, op), id) == Standing(StatusIn(t, id), [op], id)
  {
    assert [op][..0] == [];
    if !op.Reviewed? {
      ImportBrings(t, op.incidents, op.alerts, id);
    }
  }

  lemma StandingSnoc<R>(before: Option<string>, ops: seq<Op<R>>, id: IncidentId)
    requires ops != []
    ensures Standing(before, ops, id) == Standing(Standing(before, ops[..|ops| - 1], id), [ops[|ops| - 1]], id)
  {
    assert [ops[|ops| - 1]][..0] == [];
  }

  /** Over any operations, from any tables, every incident stands at the status it was brought in with or that the
      latest valid review since has set, and an incident nobody brought in is not there. */
  lemma {:induction false} StatusIsStanding<R>(t: Tables<R>, ops: seq<Op<R>>, id: IncidentId)
    ensures StatusIn(Effects(t, ops), id) == Standing(StatusIn(t, id), ops, id)
  {
    if ops == [] {
    } else {
      var n := |ops| - 1;
      StatusIsStanding(t, ops[..n], id);
      StatusStep(Effects(t, ops[..n]), ops[n], id);
      StandingSnoc(StatusIn(t, id), ops, id);
    }
  }

  /** A valid review shows in row and payload at once, with its time. */
  lemma ReviewIsShown<R>(t: Tables<R>, id: IncidentId, status: string, at: Time)
    requires id in t.incidents && status in {"open", "investigating", "resolved", "false_positive"}
    ensures var u := Effect(t, Reviewed(id, status, at));
      && id in u.incidents && u.incidents[id].status == status && u.incidents[id].updatedAt == at
      && u.incidents[id].payload == t.incidents[id].payload.(status := status)
      && forall other :: other != id ==>
           (other in u.incidents <==> other in t.incidents)
           && (other in t.incidents ==> u.incidents[other] == t.incidents[other])
  {
  }

  // ------------------------------------------------------- columns of alerts

  /** An alert belongs to the last incident of its batch that lists it, or to none. */
  lemma {:induction false} OwnerIsLastLister(incidents: seq<Incident>, a: string)
    ensures Owner(incidents, a).None? <==> forall i :: 0 <= i < |incidents| ==> a !in incidents[i].alertIds
    ensures Owner(incidents, a).Some? ==> exists i :: 0 <= i < |incidents| && LastLister(incidents, a, i)
                                             && Owner(incidents, a) == Some(incidents[i].incidentId)
  {
    if incidents == [] {
    } else {
      var n := |incidents| - 1;
      OwnerIsLastLister(incidents[..n], a);
      if a in incidents[n].alertIds {
        assert LastLister(incidents, a, n);
      } else if Owner(incidents[..n], a).Some? {
        var i :| 0 <= i < n && LastLister(incidents[..n], a, i) && Owner(incidents[..n], a) == Some(incidents[..n][i].incidentId);
        assert LastLister(incidents, a, i);
      }
    }
  }

  predicate LastLister(incidents: seq<Incident>, a: string, i: int) {
    0 <= i < |incidents| && a in incidents[i].alertIds && forall j :: i < j < |incidents| ==> a !in incidents[j].alertIds
  }

  /** Threat, severity and start stay those of the first import; owner and payload are those of the last. */
  predicate SameColumns(row: AlertRow, earlier: AlertRow) {
    row.threatType == earlier.threatType && row.severity == earlier.severity && row.windowStart == earlier.windowStart
  }

  lemma {:induction false} UpsertsKeepColumns<R>(t: Tables<R>, alerts: seq<Alert>, incidents: seq<Incident>, a: string)
    requires a in t.alerts
    ensures var u := UpsertAlerts(t, alerts, incidents); a in u.alerts && SameColumns(u.alerts[a], t.alerts[a])
    decreases |alerts|
  {
    if alerts == [] {
    } else {
      UpsertsKeepColumns(UpsertAlert(t, alerts[0], Owner(incidents, alerts[0].alertId)), alerts[1..], incidents, a);
    }
  }

  lemma {:induction false} ColumnsAreThoseOfTheFirstImport<R>(t: Tables<R>, ops: seq<Op<R>>, a: string)
    requires a in t.alerts
    ensures var u := Effects(t, ops); a in u.alerts && SameColumns(u.alerts[a], t.alerts[a])
  {
    if ops == [] {
    } else {
      var n := |ops| - 1;
      ColumnsAreThoseOfTheFirstImport(t, ops[..n], a);
      if !ops[n].Reviewed? {
        var u := Effects(t, ops[..n]);
        IncidentUpsertsKeepAlerts(u, ops[n].incidents);
        UpsertsKeepColumns(UpsertIncidents(u, ops[n].incidents), ops[n].alerts, ops[n].incidents, a);
      }
    }
  }

  /** A new alert's row says what the alert says. */
  lemma {:induction false} NewAlertRow<R>(t: Tables<R>, alerts: seq<Alert>, incidents: seq<Incident>, i: nat)
    requires i < |alerts| && alerts[i].alertId !in t.alerts
    requires NoDuplicates(Ids(alerts))
    ensures var u := UpsertAlerts(t, alerts, incidents); var a := alerts[i];
      && a.alertId in u.alerts
      && u.alerts[a.alertId] == AlertRow(Owner(incidents, a.alertId), a.threatType, a.severity, a.windowStart, a)
    decreases |alerts|
  {
    var first := UpsertAlert(t, alerts[0], Owner(incidents, alerts[0].alertId));
    var rest := alerts[1..];
    assert Ids(rest) == Ids(alerts)[1..];
    if i == 0 {
      assert forall j :: 0 <= j < |rest| ==> rest[j].alertId == Ids(alerts)[j + 1] != Ids(alerts)[0];
      AlertUnlisted(first, rest, incidents, alerts[0].alertId);
    } else {
      assert Ids(alerts)[i] != Ids(alerts)[0];
      NewAlertRow(first, rest, incidents, i - 1);
    }
  }

  lemma {:induction false} AlertUnlisted<R>(t: Tables<R>, alerts: seq<Alert>, incidents: seq<Incident>, a: string)
    requires a in t.alerts && forall j :: 0 <= j < |alerts| ==> alerts[j].alertId != a
    ensures var u := UpsertAlerts(t, alerts, incidents); a in u.alerts && u.alerts[a] == t.alerts[a]
    decreases |alerts|
  {
    if alerts == [] {
    } else {
      AlertUnlisted(UpsertAlert(t, alerts[0], Owner(incidents, alerts[0].alertId)), alerts[1..], incidents, a);
    }
  }

  // ------------------------------------------------------- who shows an alert

  /** An incident shows exactly the alerts that belong to it and that its present payload names. */
  lemma ShownIff<R>(t: Tables<R>, id: IncidentId, a: string)
    requires id in t.incidents
    ensures a in Members(t, id) <==>
      a in t.alerts && t.alerts[a].incidentId == Some(id) && t.alerts[a].payload.alertId in t.incidents[id].payload.alertIds
  {
  }

  /** So no alert is ever shown by two incidents, whatever both of them name. */
  lemma ShownOnce<R>(t: Tables<R>, i: IncidentId, j: IncidentId)
    requires i in t.incidents && j in t.incidents && i != j
    ensures Members(t, i) !! Members(t, j)
  {
    forall a | a in Members(t, i) ensures a !in Members(t, j) {
      ShownIff(t, i, a);
      ShownIff(t, j, a);
    }
  }
}
