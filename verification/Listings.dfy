/** In what order an incident lists its alerts (IncidentRepository.get_incident and import_records in
    src/aegisflow/api_store.py): by the column of the first import, which payloads can outgrow. */
module Listings {
  import opened Records
  import opened AnalystStore

  /** The start that a row's payload shows. */
  function Shown<R>(t: Tables<R>, a: string): Time {
    if a in t.alerts then t.alerts[a].payload.windowStart else 0.0
  }

  /** Members that the column does not put the other way round show their starts in that order. */
  ghost predicate ColumnOrdersPayloads<R>(t: Tables<R>, members: set<string>) {
    forall p, q :: p in members && q in members && p != q && Start(t, p) <= Start(t, q) ==> Shown(t, p) <= Shown(t, q)
  }

  /** However ties in the column fall, the list is in order of the starts it shows. */
  ghost predicate ListsInOrder<R>(t: Tables<R>, members: set<string>) {
    forall shown: seq<Alert> :: Listing(t, members, shown) ==> ByStart(shown)
  }

  lemma OrderedIfColumnOrders<R>(t: Tables<R>, members: set<string>)
    requires ColumnOrdersPayloads(t, members)
    ensures ListsInOrder(t, members)
  {
    forall shown: seq<Alert> | Listing(t, members, shown) ensures ByStart(shown) {
      var listed :| ListedAs(t, listed, shown) && forall a :: a in members <==> a in listed;
      forall i, j | 0 <= i < j < |shown| ensures shown[i].windowStart <= shown[j].windowStart {
        assert listed[i] in members && listed[j] in members && Start(t, listed[i]) <= Start(t, listed[j]);
        assert Shown(t, listed[i]) <= Shown(t, listed[j]);
      }
    }
  }

  // ------------------------------------- a list that puts one member late

  /** The last of a set by the column, q of those that tie with it. */
  lemma LatestOf<R>(t: Tables<R>, members: set<string>, q: string) returns (last: string)
    requires members != {}
    ensures last in members && forall a :: a in members ==> Start(t, a) <= Start(t, last)
    ensures q in members && Start(t, q) == Start(t, last) ==> last == q
    decreases |members|
  {
    var x :| x in members;
    if members == {x} {
      last := x;
    } else {
      var rest := members - {x};
      assert members == {x} + rest;
      var y := LatestOf(t, rest, q);
      last := if Start(t, x) > Start(t, y) || (x == q && Start(t, x) == Start(t, y)) then x else y;
      assert forall a :: a in members ==> a == x || a in rest;
    }
  }

  /** The members in column order, q behind all that tie with it. */
  ghost predicate Arranged<R>(t: Tables<R>, members: set<string>, q: string, listed: seq<string>) {
    && NoDuplicates(listed) && (forall a :: a in members <==> a in listed)
    && (forall i, j :: 0 <= i < j < |listed| ==> Start(t, listed[i]) <= Start(t, listed[j]))
    && (forall i, j :: 0 <= i < j < |listed| && listed[i] == q ==> Start(t, q) < Start(t, listed[j]))
  }

  lemma ArrangedSnoc<R>(t: Tables<R>, rest: set<string>, q: string, listed: seq<string>, last: string)
    requires Arranged(t, rest, q, listed) && last !in rest
    requires forall a :: a in rest ==> Start(t, a) <= Start(t, last)
    requires q in rest ==> Start(t, q) < Start(t, last)
    ensures Arranged(t, rest + {last}, q, listed + [last])
  {
    var all := listed + [last];
    assert forall i :: 0 <= i < |listed| ==> all[i] == listed[i] && listed[i] in rest;
    forall a ensures a in rest + {last} <==> a in all {
    }
  }

  lemma {:induction false} Arrange<R>(t: Tables<R>, members: set<string>, q: string) returns (listed: seq<string>)
    ensures Arranged(t, members, q, listed)
    decreases |members|
  {
    if members == {} {
      listed := [];
    } else {
      var last := LatestOf(t, members, q);
      var rest := members - {last};
      assert rest < members && rest + {last} == members;
      var init := Arrange(t, rest, q);
      ArrangedSnoc(t, rest, q, init, last);
      listed := init + [last];
    }
  }

  lemma ArrangedIsListing<R>(t: Tables<R>, members: set<string>, q: string, listed: seq<string>) returns (shown: seq<Alert>)
    requires members <= t.alerts.Keys && Arranged(t, members, q, listed)
    ensures Listing(t, members, shown) && |shown| == |listed|
    ensures forall i :: 0 <= i < |listed| ==> listed[i] in t.alerts && shown[i] == t.alerts[listed[i]].payload
  {
    assert forall i :: 0 <= i < |listed| ==> listed[i] in listed && listed[i] in t.alerts;
    shown := seq(|listed|, i requires 0 <= i < |listed| => t.alerts[listed[i]].payload);
    assert ListedAs(t, listed, shown);
  }

  lemma ColumnOrdersIfOrdered<R>(t: Tables<R>, members: set<string>)
    requires members <= t.alerts.Keys && ListsInOrder(t, members)
    ensures ColumnOrdersPayloads(t, members)
  {
    forall p, q | p in members && q in members && p != q && Start(t, p) <= Start(t, q) ensures Shown(t, p) <= Shown(t, q) {
      var listed := Arrange(t, members, q);
      var shown := ArrangedIsListing(t, members, q, listed);
      var i :| 0 <= i < |listed| && listed[i] == p;
      var j :| 0 <= j < |listed| && listed[j] == q;
      assert i < j;
      assert shown[i].windowStart <= shown[j].windowStart;
    }
  }

  /** An incident is certain to list its alerts in order of the starts they show exactly if of any two of them the one
      whose column is not later shows no later start. */
  lemma ListedInOrderIff<R>(t: Tables<R>, members: set<string>)
    requires members <= t.alerts.Keys
    ensures ListsInOrder(t, members) <==> ColumnOrdersPayloads(t, members)
  {
    if ColumnOrdersPayloads(t, members) {
      OrderedIfColumnOrders(t, members);
    }
    if ListsInOrder(t, members) {
      ColumnOrdersIfOrdered(t, members);
    }
  }

  // --------------------------------------------------------- after an import

  /** The start that an alert of the batch comes with. */
  function StartIn(alerts: seq<Alert>, a: string): Time {
    if alerts == [] then 0.0
    else if alerts[|alerts| - 1].alertId == a then alerts[|alerts| - 1].windowStart
    else StartIn(alerts[..|alerts| - 1], a)
  }

  /** The column after the import: that of the first import. */
  function ColumnAfter<R>(t: Tables<R>, alerts: seq<Alert>, a: string): Time {
    if a in t.alerts then Start(t, a) else StartIn(alerts, a)
  }

  /** The start shown after the import: that of the last. */
  function ShownAfter<R>(t: Tables<R>, alerts: seq<Alert>, a: string): Time {
    if a in Ids(alerts) then StartIn(alerts, a) else Shown(t, a)
  }

  lemma {:induction false} StartInIs(alerts: seq<Alert>, i: nat)
    requires NoDuplicates(Ids(alerts)) && i < |alerts|
    ensures StartIn(alerts, alerts[i].alertId) == alerts[i].windowStart
  {
    var n := |alerts| - 1;
    if i < n {
      assert Ids(alerts)[i] != Ids(alerts)[n];
      assert Ids(alerts[..n]) == Ids(alerts)[..n];
      StartInIs(alerts[..n], i);
    }
  }

  /** Column and shown start of every row after an import. */
  lemma ImportedStarts<R>(t: Tables<R>, incidents: seq<Incident>, alerts: seq<Alert>, a: string)
    requires Keyed(t) && NoDuplicates(Ids(alerts)) && a in Import(t, incidents, alerts).alerts
    ensures var u := Import(t, incidents, alerts);
      Start(u, a) == ColumnAfter(t, alerts, a) && Shown(u, a) == ShownAfter(t, alerts, a)
  {
    var mid := UpsertIncidents(t, incidents);
    IncidentsLeave(t, incidents);
    AlertsStored(mid, alerts, incidents);
    if a in Ids(alerts) {
      var i :| 0 <= i < |alerts| && Ids(alerts)[i] == a;
      StartInIs(alerts, i);
      if a in t.alerts {
        UpsertsKeepStart(mid, alerts, incidents, a);
      } else {
        NewAlertBringsItsStart(mid, alerts, incidents, i);
      }
    }
  }

  /** Of two members, the batch keeps the one with the earlier column showing the earlier start. */
  ghost predicate BatchKeepsOrder<R>(t: Tables<R>, alerts: seq<Alert>, members: set<string>) {
    forall p, q :: p in members && q in members && p != q && ColumnAfter(t, alerts, p) <= ColumnAfter(t, alerts, q) ==>
      ShownAfter(t, alerts, p) <= ShownAfter(t, alerts, q)
  }

  /** Known before the call: after an import a set of stored alerts is certain to be listed in order exactly if of any
      two of them the one whose first import started no later shows no later start in its last. */
  lemma ImportListsInOrderIff<R>(t: Tables<R>, incidents: seq<Incident>, alerts: seq<Alert>, members: set<string>)
    requires Keyed(t) && NoDuplicates(Ids(alerts)) && members <= Import(t, incidents, alerts).alerts.Keys
    ensures ListsInOrder(Import(t, incidents, alerts), members) <==> BatchKeepsOrder(t, alerts, members)
  {
    var u := Import(t, incidents, alerts);
    ListedInOrderIff(u, members);
    forall a | a in members
      ensures Start(u, a) == ColumnAfter(t, alerts, a) && Shown(u, a) == ShownAfter(t, alerts, a)
    {
      ImportedStarts(t, incidents, alerts, a);
    }
  }
}
