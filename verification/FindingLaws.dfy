/** What resolution keeps, drops and merges, in the words of the detectors' own fields (src/aegisflow/findings.py). */
module FindingLaws {
  import opened Records
  import opened Ordering
  import opened Findings

  /** The two findings that a port scan can be mistaken for. */
  predicate IsFlood(a: Alert) {
    a.subtype == "syn_flood" || a.subtype == "distributed_source_syn_flood"
  }

  /** A reconnaissance alert of a's source over a flow that a carries too. */
  ghost predicate ScannedBy(a: Alert, r: Alert) {
    r.threatType == "reconnaissance" && r.srcIp == a.srcIp && exists f :: f in r.flowIds && f in a.flowIds
  }

  /** One finding speaks of the same threat, subtype, source and destination as an alert. */
  predicate SameMatter(o: Alert, a: Alert) {
    o.threatType == a.threatType && o.subtype == a.subtype && o.srcIp == a.srcIp && o.dstIp == a.dstIp
  }

  /** An alert is suppressed exactly if it is a flood and some reconnaissance alert of its source shares a flow. */
  lemma SuppressedIff(alerts: seq<Alert>, a: Alert)
    ensures Suppressed(alerts, a) <==> IsFlood(a) && exists r :: r in alerts && ScannedBy(a, r)
  {
    if Suppressed(alerts, a) {
      var r :| r in alerts && Contradicts(r, a);
      var f :| f in a.flowIds && f in r.flowIds;
      assert ScannedBy(a, r);
    }
    if r :| IsFlood(a) && r in alerts && ScannedBy(a, r) {
      assert Contradicts(r, a);
    }
  }

  /** Every other alert survives: a finding of its matter carries all of its flows and encloses its window, with at
      least its confidence. */
  lemma UncontradictedAlertsSurvive(alerts: seq<Alert>, a: Alert) returns (o: Alert)
    requires a in alerts && (!IsFlood(a) || forall r :: r in alerts ==> !ScannedBy(a, r))
    ensures o in Resolve(alerts) && SameMatter(o, a) && (forall f :: f in a.flowIds ==> f in o.flowIds)
    ensures o.windowStart <= a.windowStart && a.windowEnd <= o.windowEnd && a.confidence <= o.confidence
  {
    SuppressedIff(alerts, a);
    EachFindingSummarisesItsKey(alerts);
    var group := Members(Kept(alerts, alerts), KeyOf(a));
    o :| o in Resolve(alerts) && KeyOf(o) == KeyOf(a) && a in group;
    assert Summarises(o, group);
    assert forall f :: f in a.flowIds ==> CarriesFlow(group, f);
  }

  /** A contradicted flood is a member of no finding: without an uncontradicted alert of its matter there is none. */
  lemma ContradictedFloodsAreGone(alerts: seq<Alert>, a: Alert, r: Alert, o: Alert)
    requires a in alerts && r in alerts && IsFlood(a) && ScannedBy(a, r) && o in Resolve(alerts)
    ensures a !in Members(Kept(alerts, alerts), KeyOf(o))
    ensures SameMatter(o, a) ==>
      exists b :: b in alerts && SameMatter(b, a) && forall s :: s in alerts ==> !ScannedBy(b, s)
  {
    SuppressedIff(alerts, a);
    KeptWithin(alerts, alerts);
    MembersWithin(Kept(alerts, alerts), KeyOf(o));
    if SameMatter(o, a) {
      FindingSummarises(alerts, o);
      var b := Members(Kept(alerts, alerts), KeyOf(o))[0];
      assert b in Members(Kept(alerts, alerts), KeyOf(o));
      SuppressedIff(alerts, b);
    }
  }

  /** Two findings never speak of the same matter. */
  lemma OneFindingForEachMatter(alerts: seq<Alert>, i: nat, j: nat)
    requires i < j < |Resolve(alerts)|
    ensures !SameMatter(Resolve(alerts)[i], Resolve(alerts)[j])
  {
    KeysAreUnique(alerts);
    assert KeysDiffer(Resolve(alerts)[i], Resolve(alerts)[j]);
  }

  /** They come by start, then threat, then subtype. */
  lemma FindingsAreOrdered(alerts: seq<Alert>, i: nat, j: nat)
    requires i < j < |Resolve(alerts)|
    ensures var a, b := Resolve(alerts)[i], Resolve(alerts)[j];
      || a.windowStart < b.windowStart
      || (a.windowStart == b.windowStart && Precedes(a.threatType, b.threatType))
      || (a.windowStart == b.windowStart && a.threatType == b.threatType
          && (a.subtype == b.subtype || Precedes(a.subtype, b.subtype)))
  {
    BeforeIsTotal();
    SortSorts(Before, Summaries(Kept(alerts, alerts)));
    assert Before(Resolve(alerts)[i], Resolve(alerts)[j]);
  }

  // ---------------------------------------------------- the order of flows

  /** The flows of a group, alert by alert. */
  function AllFlows(group: seq<Alert>): seq<string> {
    if group == [] then [] else AllFlows(group[..|group| - 1]) + group[|group| - 1].flowIds
  }

  lemma DistinctNext(s: seq<string>, x: string)
    ensures Distinct(s + [x]) == if x in s then Distinct(s) else Distinct(s) + [x]
  {
    assert (s + [x])[..|s|] == s;
  }

  lemma {:induction false} DistinctTwice(s: seq<string>, t: seq<string>)
    ensures Distinct(Distinct(s) + t) == Distinct(s + t)
  {
    if t == [] {
      assert Distinct(s) + t == Distinct(s) && s + t == s;
      DistinctStays(Distinct(s));
    } else {
      var init, x := t[..|t| - 1], t[|t| - 1];
      DistinctTwice(s, init);
      assert Distinct(s) + t == (Distinct(s) + init) + [x] && s + t == (s + init) + [x];
      DistinctNext(Distinct(s) + init, x);
      DistinctNext(s + init, x);
    }
  }

  lemma {:induction false} DistinctStays(s: seq<string>)
    requires NoDuplicates(s)
    ensures Distinct(s) == s
  {
    if s == [] {
    } else {
      var n := |s| - 1;
      DistinctStays(s[..n]);
      assert s == s[..n] + [s[n]];
      assert forall i :: 0 <= i < n ==> s[i] != s[n];
    }
  }

  /** Merged flows stand in the order in which the group's alerts first named them. */
  lemma {:induction false} MergedFlowOrder(group: seq<Alert>)
    requires group != []
    ensures Distinct(Merged(group).flowIds) == Distinct(AllFlows(group))
    ensures |group| > 1 ==> Merged(group).flowIds == Distinct(AllFlows(group))
  {
    var n := |group| - 1;
    if n == 0 {
      assert group[..0] == [] && AllFlows(group) == [] + group[0].flowIds == group[0].flowIds;
    } else {
      MergedFlowOrder(group[..n]);
      var before, last := Merged(group[..n]).flowIds, group[n].flowIds;
      DistinctTwice(before, last);
      DistinctTwice(AllFlows(group[..n]), last);
      DistinctStays(Distinct(before + last));
    }
  }

  lemma FlowsInOrderOfMention(alerts: seq<Alert>, o: Alert)
    requires o in Resolve(alerts) && |Members(Kept(alerts, alerts), KeyOf(o))| > 1
    ensures o.flowIds == Distinct(AllFlows(Members(Kept(alerts, alerts), KeyOf(o))))
  {
    var kept := Kept(alerts, alerts);
    ResolvedAre(alerts);
    var k :| k in Keys(kept) && o == Summary(kept, k);
    SummarySummarises(kept, k);
    MembersOfKey(kept, k);
    MergedFlowOrder(Members(kept, k));
  }

  /** What was mentioned first leads: more flows behind never move those in front. */
  lemma {:induction false} FirstMentionsLead(s: seq<string>, n: nat)
    requires n <= |s|
    ensures Distinct(s[..n]) <= Distinct(s)
  {
    if n == |s| {
      assert s[..n] == s;
    } else {
      var init := s[..|s| - 1];
      FirstMentionsLead(init, n);
      assert init[..n] == s[..n] && s == init + [s[|s| - 1]];
      DistinctNext(init, s[|s| - 1]);
    }
  }

  // ---------------------------------------------------- the order of ties

  lemma KeysNext(xs: seq<Alert>, a: Alert)
    ensures Keys(xs + [a]) == if KeyOf(a) in Keys(xs) then Keys(xs) else Keys(xs) + [KeyOf(a)]
  {
    assert (xs + [a])[..|xs|] == xs;
  }

  lemma {:induction false} FirstKeysLead(xs: seq<Alert>, n: nat)
    requires n <= |xs|
    ensures Keys(xs[..n]) <= Keys(xs)
  {
    if n == |xs| {
      assert xs[..n] == xs;
    } else {
      var init := xs[..|xs| - 1];
      FirstKeysLead(init, n);
      assert init[..n] == xs[..n] && xs == init + [xs[|xs| - 1]];
      KeysNext(init, xs[|xs| - 1]);
    }
  }

  /** Findings of one start, threat and subtype stand in the order in which their matters first came up: one finding
      for each key in the order of the surviving alerts, and what came first leads. */
  lemma TiesInOrderOfMention(alerts: seq<Alert>, o: Alert, kept: seq<Alert>, n: nat)
    requires kept == Kept(alerts, alerts) && n <= |kept|
    ensures |Summaries(kept)| == |Keys(kept)| && forall i :: 0 <= i < |Keys(kept)| ==> KeyOf(Summaries(kept)[i]) == Keys(kept)[i]
    ensures Peers(Before, o, Resolve(alerts)) == Peers(Before, o, Summaries(kept))
    ensures Keys(kept[..n]) <= Keys(kept)
  {
    BeforeIsTotal();
    SortIsStable(Before, Summaries(kept), o);
    FirstKeysLead(kept, n);
    forall i | 0 <= i < |Keys(kept)| ensures KeyOf(Summaries(kept)[i]) == Keys(kept)[i] {
      SummarySummarises(kept, Keys(kept)[i]);
    }
  }
}
