/** Conflict resolution and merging of findings (src/aegisflow/findings.py). */
module Findings {
  import opened Records
  import opened Ordering

  datatype Key = Key(threatType: string, subtype: string, srcIp: string, dstIp: Option<string>)

  function KeyOf(a: Alert): Key {
    Key(a.threatType, a.subtype, a.srcIp, a.dstIp)
  }

  const RECONNAISSANCE := "reconnaissance"
  const MERGED := "related_findings_merged"

  // ------------------------------------------------------------ suppression

  predicate IsSynFlood(a: Alert) {
    a.subtype == "syn_flood" || a.subtype == "distributed_source_syn_flood"
  }

  predicate SharesFlow(a: Alert, b: Alert) {
    exists f | f in a.flowIds :: f in b.flowIds
  }

  predicate Contradicts(recon: Alert, a: Alert) {
    recon.threatType == RECONNAISSANCE && recon.srcIp == a.srcIp && SharesFlow(a, recon)
  }

  predicate Suppressed(all: seq<Alert>, a: Alert) {
    IsSynFlood(a) && exists r | r in all :: Contradicts(r, a)
  }

  function Kept(all: seq<Alert>, xs: seq<Alert>): seq<Alert> {
    if xs == [] then []
    else
      var n := |xs| - 1;
      if Suppressed(all, xs[n]) then Kept(all, xs[..n]) else Kept(all, xs[..n]) + [xs[n]]
  }

  lemma {:induction false} KeptWithin(all: seq<Alert>, xs: seq<Alert>)
    ensures forall a :: a in Kept(all, xs) <==> a in xs && !Suppressed(all, a)
  {
    if xs == [] {
    } else {
      KeptWithin(all, xs[..|xs| - 1]);
    }
  }

  // --------------------------------------------------------------- grouping

  function Members(xs: seq<Alert>, k: Key): seq<Alert> {
    if xs == [] then []
    else
      var n := |xs| - 1;
      if KeyOf(xs[n]) == k then Members(xs[..n], k) + [xs[n]] else Members(xs[..n], k)
  }

  lemma {:induction false} MembersWithin(xs: seq<Alert>, k: Key)
    ensures forall a :: a in Members(xs, k) <==> a in xs && KeyOf(a) == k
  {
    if xs == [] {
    } else {
      MembersWithin(xs[..|xs| - 1], k);
    }
  }

  /** The keys in order of first occurrence, as a dictionary lists them. */
  function Keys(xs: seq<Alert>): seq<Key> {
    if xs == [] then []
    else
      var n := |xs| - 1;
      if KeyOf(xs[n]) in Keys(xs[..n]) then Keys(xs[..n]) else Keys(xs[..n]) + [KeyOf(xs[n])]
  }

  lemma {:induction false} KeysDistinct(xs: seq<Alert>)
    ensures NoDuplicates(Keys(xs))
  {
    if xs == [] {
    } else {
      KeysDistinct(xs[..|xs| - 1]);
    }
  }

  lemma {:induction false} MembersOfKey(xs: seq<Alert>, k: Key)
    ensures k in Keys(xs) <==> Members(xs, k) != []
  {
    if xs == [] {
    } else {
      MembersOfKey(xs[..|xs| - 1], k);
    }
  }

  /** dict.fromkeys: first occurrences. */
  function Distinct(s: seq<string>): (d: seq<string>)
    ensures forall x :: x in d <==> x in s
    ensures NoDuplicates(d)
  {
    if s == [] then []
    else
      var n := |s| - 1;
      var d := Distinct(s[..n]);
      assert s == s[..n] + [s[n]];
      if s[n] in d then d else d + [s[n]]
  }

  function Merge(previous: Alert, a: Alert): Alert {
    var strongest := if a.confidence > previous.confidence then a else previous;
    strongest.(confidence := Max(previous.confidence, a.confidence),
               windowStart := Min(previous.windowStart, a.windowStart),
               windowEnd := Max(previous.windowEnd, a.windowEnd),
               flowIds := Distinct(previous.flowIds + a.flowIds))
  }

  function Merged(group: seq<Alert>): Alert
    requires group != []
  {
    if |group| == 1 then group[0] else Merge(Merged(group[..|group| - 1]), group[|group| - 1])
  }

  function Noted(a: Alert, repeats: nat): Alert {
    if repeats == 0 then a else a.(evidence := a.evidence + [Evidence(MERGED, repeats)])
  }

  function Summary(xs: seq<Alert>, k: Key): Alert
    requires k in Keys(xs)
  {
    MembersOfKey(xs, k);
    Noted(Merged(Members(xs, k)), |Members(xs, k)| - 1)
  }

  function Summaries(xs: seq<Alert>): (out: seq<Alert>)
    ensures |out| == |Keys(xs)|
    ensures forall i :: 0 <= i < |out| ==> out[i] == Summary(xs, Keys(xs)[i])
  {
    seq(|Keys(xs)|, i requires 0 <= i < |Keys(xs)| => Summary(xs, Keys(xs)[i]))
  }

  /** sorted(key=(window_start, threat_type, subtype)). */
  predicate Before(a: Alert, b: Alert) {
    || a.windowStart < b.windowStart
    || (a.windowStart == b.windowStart
        && (Precedes(a.threatType, b.threatType)
            || (a.threatType == b.threatType && (a.subtype == b.subtype || Precedes(a.subtype, b.subtype)))))
  }

  function Resolve(alerts: seq<Alert>): seq<Alert> {
    Sort(Before, Summaries(Kept(alerts, alerts)))
  }

  // ------------------------------------------------------------- the loops

  method ResolveFindings(alerts: seq<Alert>) returns (output: seq<Alert>)
    ensures output == Resolve(alerts)
  {
    var resolved := Unsuppressed(alerts);
    var keys, grouped, counts := Group(resolved);
    var unsorted := Note(resolved, keys, grouped, counts);
    output := Sort(Before, unsorted);
  }

  method Note(ghost xs: seq<Alert>, keys: seq<Key>, grouped: map<Key, Alert>, counts: map<Key, nat>) returns (output: seq<Alert>)
    requires keys == Keys(xs) && Grouped(xs, grouped, counts)
    ensures output == Summaries(xs)
  {
    output := [];
    for i := 0 to |keys|
      invariant |output| == i && forall j :: 0 <= j < i ==> output[j] == Summary(xs, keys[j])
    {
      GroupedSummary(xs, keys[i], grouped, counts);
      output := output + [Noted(grouped[keys[i]], counts[keys[i]] - 1)];
    }
  }

  lemma GroupedSummary(xs: seq<Alert>, k: Key, grouped: map<Key, Alert>, counts: map<Key, nat>)
    requires Grouped(xs, grouped, counts) && k in Keys(xs)
    ensures k in grouped && k in counts && counts[k] > 0 && Summary(xs, k) == Noted(grouped[k], counts[k] - 1)
  {
    MembersOfKey(xs, k);
    assert GroupedUnder(xs, k, grouped, counts);
  }

  method Group(resolved: seq<Alert>) returns (keys: seq<Key>, grouped: map<Key, Alert>, counts: map<Key, nat>)
    ensures keys == Keys(resolved) && Grouped(resolved, grouped, counts)
  {
    keys, grouped, counts := [], map[], map[];
    for i := 0 to |resolved|
      invariant keys == Keys(resolved[..i]) && Grouped(resolved[..i], grouped, counts)
    {
      var alert := resolved[i];
      var key := KeyOf(alert);
      assert resolved[..i + 1] == resolved[..i] + [alert];
      KeysStep(resolved[..i], alert);
      MembersOfKey(resolved[..i], key);
      assert GroupedUnder(resolved[..i], key, grouped, counts);
      if key !in grouped {
        GroupNew(resolved[..i], alert, grouped, counts);
        keys, counts, grouped := keys + [key], counts[key := 1], grouped[key := alert];
      } else {
        GroupAgain(resolved[..i], alert, grouped, counts);
        counts, grouped := counts[key := counts[key] + 1], grouped[key := Merge(grouped[key], alert)];
      }
    }
    assert resolved[..|resolved|] == resolved;
  }

  method Unsuppressed(alerts: seq<Alert>) returns (resolved: seq<Alert>)
    ensures resolved == Kept(alerts, alerts)
  {
    var recons := set a | a in alerts && a.threatType == RECONNAISSANCE;
    resolved := [];
    for i := 0 to |alerts|
      invariant resolved == Kept(alerts, alerts[..i])
    {
      var alert := alerts[i];
      assert alerts[..i + 1][..i] == alerts[..i];
      if IsSynFlood(alert) && (exists r | r in recons :: r.srcIp == alert.srcIp && SharesFlow(alert, r)) {
        assert Suppressed(alerts, alert);
      } else {
        assert forall r :: r in alerts && Contradicts(r, alert) ==> r in recons;
        resolved := resolved + [alert];
      }
    }
    assert alerts[..|alerts|] == alerts;
  }

  /** What the two dictionaries hold under one key after a prefix. */
  ghost predicate GroupedUnder(xs: seq<Alert>, k: Key, grouped: map<Key, Alert>, counts: map<Key, nat>) {
    && (k in grouped <==> k in counts) && (k in grouped <==> Members(xs, k) != [])
    && (k in grouped ==> grouped[k] == Merged(Members(xs, k)) && counts[k] == |Members(xs, k)|)
  }

  ghost predicate Grouped(xs: seq<Alert>, grouped: map<Key, Alert>, counts: map<Key, nat>) {
    forall k :: GroupedUnder(xs, k, grouped, counts)
  }

  lemma MembersStep(xs: seq<Alert>, a: Alert, k: Key)
    ensures Members(xs + [a], k) == if KeyOf(a) == k then Members(xs, k) + [a] else Members(xs, k)
  {
    assert (xs + [a])[..|xs|] == xs;
  }

  lemma KeysStep(xs: seq<Alert>, a: Alert)
    ensures Keys(xs + [a]) == if KeyOf(a) in Keys(xs) then Keys(xs) else Keys(xs) + [KeyOf(a)]
  {
    assert (xs + [a])[..|xs|] == xs;
  }

  lemma MergedStep(group: seq<Alert>, a: Alert)
    requires group != []
    ensures Merged(group + [a]) == Merge(Merged(group), a)
  {
    assert (group + [a])[..|group|] == group;
  }

  lemma GroupNew(xs: seq<Alert>, a: Alert, grouped: map<Key, Alert>, counts: map<Key, nat>)
    requires Grouped(xs, grouped, counts) && KeyOf(a) !in grouped
    ensures Grouped(xs + [a], grouped[KeyOf(a) := a], counts[KeyOf(a) := 1])
  {
    var ys, after, tally := xs + [a], grouped[KeyOf(a) := a], counts[KeyOf(a) := 1];
    forall k ensures GroupedUnder(ys, k, after, tally) {
      assert GroupedUnder(xs, k, grouped, counts);
      MembersStep(xs, a, k);
    }
  }

  lemma GroupAgain(xs: seq<Alert>, a: Alert, grouped: map<Key, Alert>, counts: map<Key, nat>)
    requires Grouped(xs, grouped, counts) && KeyOf(a) in grouped && KeyOf(a) in counts
    ensures var key := KeyOf(a);
      Grouped(xs + [a], grouped[key := Merge(grouped[key], a)], counts[key := counts[key] + 1])
  {
    var key := KeyOf(a);
    assert GroupedUnder(xs, key, grouped, counts);
    MergedStep(Members(xs, key), a);
    var ys, after, tally := xs + [a], grouped[key := Merge(grouped[key], a)], counts[key := counts[key] + 1];
    forall k ensures GroupedUnder(ys, k, after, tally) {
      assert GroupedUnder(xs, k, grouped, counts);
      MembersStep(xs, a, k);
    }
  }

  // ------------------------------------------------- what a finding stands for

  ghost predicate CarriesFlow(group: seq<Alert>, f: string) {
    exists a :: a in group && f in a.flowIds
  }

  ghost predicate StartsIn(group: seq<Alert>, t: Time) {
    exists a :: a in group && a.windowStart == t
  }

  ghost predicate EndsIn(group: seq<Alert>, t: Time) {
    exists a :: a in group && a.windowEnd == t
  }

  /** The hull of the windows and the largest confidence. */
  ghost predicate Hull(o: Alert, group: seq<Alert>) {
    && (forall a :: a in group ==>
          o.windowStart <= a.windowStart && a.windowEnd <= o.windowEnd && a.confidence <= o.confidence)
    && StartsIn(group, o.windowStart) && EndsIn(group, o.windowEnd)
  }

  ghost predicate FlowUnion(o: Alert, group: seq<Alert>) {
    && (forall f :: f in o.flowIds <==> CarriesFlow(group, f))
    && (|group| > 1 ==> NoDuplicates(o.flowIds))
  }

  /** The identity and severity come from the first finding of the largest confidence. */
  ghost predicate SpeaksFor(o: Alert, group: seq<Alert>, i: nat) {
    && i < |group| && group[i].confidence == o.confidence
    && (forall j :: 0 <= j < i ==> group[j].confidence < o.confidence)
    && o.alertId == group[i].alertId && o.detectorId == group[i].detectorId && o.severity == group[i].severity
    && o.evidence == group[i].evidence + (if |group| == 1 then [] else [Evidence("related_findings_merged", |group| - 1)])
  }

  ghost predicate Summarises(o: Alert, group: seq<Alert>) {
    && group != [] && (forall a :: a in group ==> KeyOf(a) == KeyOf(o))
    && Hull(o, group) && FlowUnion(o, group) && exists i :: SpeaksFor(o, group, i)
  }

  lemma {:induction false} MergedHull(group: seq<Alert>)
    requires group != []
    ensures Hull(Merged(group), group)
  {
    var n := |group| - 1;
    if n > 0 {
      MergedHull(group[..n]);
      var m := Merged(group[..n]);
      assert group[n] in group;
      var first :| first in group[..n] && first.windowStart == m.windowStart;
      var last :| last in group[..n] && last.windowEnd == m.windowEnd;
      assert first in group && last in group;
      assert forall a :: a in group ==> a in group[..n] || a == group[n];
    }
  }

  lemma {:induction false} MergedFlows(group: seq<Alert>)
    requires group != []
    ensures FlowUnion(Merged(group), group)
  {
    var n := |group| - 1;
    if n > 0 {
      MergedFlows(group[..n]);
      var m := Merged(group[..n]);
      forall f ensures f in Merged(group).flowIds <==> CarriesFlow(group, f) {
        assert f in Merged(group).flowIds <==> f in m.flowIds || f in group[n].flowIds;
        assert group[n] in group;
        assert forall a :: a in group <==> a in group[..n] || a == group[n];
      }
    }
  }

  lemma {:induction false} MergedSpeaker(group: seq<Alert>) returns (i: nat)
    requires group != []
    ensures i < |group| && group[i].confidence == Merged(group).confidence
    ensures forall j :: 0 <= j < i ==> group[j].confidence < Merged(group).confidence
    ensures forall j :: 0 <= j < |group| ==> group[j].confidence <= Merged(group).confidence
    ensures Merged(group).alertId == group[i].alertId && Merged(group).detectorId == group[i].detectorId
    ensures Merged(group).severity == group[i].severity && Merged(group).evidence == group[i].evidence
  {
    var n := |group| - 1;
    if n == 0 {
      i := 0;
    } else {
      var k := MergedSpeaker(group[..n]);
      i := if group[n].confidence > Merged(group[..n]).confidence then n else k;
    }
  }

  lemma {:induction false} MergedKey(group: seq<Alert>, k: Key)
    requires group != [] && forall a :: a in group ==> KeyOf(a) == k
    ensures KeyOf(Merged(group)) == k
  {
    var n := |group| - 1;
    if n > 0 {
      MergedKey(group[..n], k);
    }
    assert group[n] in group;
  }

  lemma SummarySummarises(xs: seq<Alert>, k: Key)
    requires k in Keys(xs)
    ensures Summarises(Summary(xs, k), Members(xs, k)) && KeyOf(Summary(xs, k)) == k
  {
    MembersOfKey(xs, k);
    MembersWithin(xs, k);
    var group := Members(xs, k);
    MergedHull(group);
    MergedFlows(group);
    MergedKey(group, k);
    var i := MergedSpeaker(group);
    assert SpeaksFor(Summary(xs, k), group, i);
  }

  // --------------------------------------------------------------- promises

  lemma BeforeIsTotal()
    ensures TotalPreorder(Before)
  {
    forall a: Alert, b: Alert ensures Before(a, b) || Before(b, a) {
      PrecedesTotal(a.threatType, b.threatType);
      PrecedesTotal(a.subtype, b.subtype);
    }
    forall a: Alert, b: Alert, c: Alert | Before(a, b) && Before(b, c) ensures Before(a, c) {
      BeforeTransitive(a, b, c);
    }
  }

  lemma BeforeTransitive(a: Alert, b: Alert, c: Alert)
    requires Before(a, b) && Before(b, c)
    ensures Before(a, c)
  {
    if Precedes(a.threatType, b.threatType) && Precedes(b.threatType, c.threatType) {
      PrecedesTransitive(a.threatType, b.threatType, c.threatType);
    }
    if Precedes(a.subtype, b.subtype) && Precedes(b.subtype, c.subtype) {
      PrecedesTransitive(a.subtype, b.subtype, c.subtype);
    }
  }

  /** Membership of the result: one finding for each key of the surviving input. */
  lemma ResolvedAre(alerts: seq<Alert>)
    ensures var kept := Kept(alerts, alerts);
      && multiset(Resolve(alerts)) == multiset(Summaries(kept)) && |Resolve(alerts)| == |Keys(kept)|
      && (forall o :: o in Resolve(alerts) <==> exists k :: k in Keys(kept) && o == Summary(kept, k))
  {
    var kept := Kept(alerts, alerts);
    var out := Summaries(kept);
    SortPermutes(Before, out);
    forall o ensures o in Resolve(alerts) <==> exists k :: k in Keys(kept) && o == Summary(kept, k) {
      SameMembers(Resolve(alerts), out, o);
      if o in out {
        var i :| 0 <= i < |out| && out[i] == o;
        assert Keys(kept)[i] in Keys(kept);
      }
      if k :| k in Keys(kept) && o == Summary(kept, k) {
        var i :| 0 <= i < |Keys(kept)| && Keys(kept)[i] == k;
        assert out[i] == o;
      }
    }
  }

  /** Each finding of the result stands for all surviving inputs of its key, and every surviving input is stood for. */
  lemma EachFindingSummarisesItsKey(alerts: seq<Alert>)
    ensures var kept := Kept(alerts, alerts);
      && (forall o :: o in Resolve(alerts) ==> Summarises(o, Members(kept, KeyOf(o))))
      && (forall a :: a in alerts && !Suppressed(alerts, a) ==>
            exists o :: o in Resolve(alerts) && KeyOf(o) == KeyOf(a) && a in Members(kept, KeyOf(o)))
  {
    var kept := Kept(alerts, alerts);
    ResolvedAre(alerts);
    forall o | o in Resolve(alerts) ensures Summarises(o, Members(kept, KeyOf(o))) {
      var k :| k in Keys(kept) && o == Summary(kept, k);
      SummarySummarises(kept, k);
    }
    forall a | a in alerts && !Suppressed(alerts, a)
      ensures exists o :: o in Resolve(alerts) && KeyOf(o) == KeyOf(a) && a in Members(kept, KeyOf(o))
    {
      var k := KeyOf(a);
      KeptWithin(alerts, alerts);
      MembersWithin(kept, k);
      MembersOfKey(kept, k);
      assert a in Members(kept, k);
      SummarySummarises(kept, k);
      var o := Summary(kept, k);
      assert o in Resolve(alerts) && KeyOf(o) == KeyOf(a);
    }
  }

  /** No two findings of the result have the same key. */
  lemma KeysAreUnique(alerts: seq<Alert>)
    ensures Pairwise(KeysDiffer, Resolve(alerts))
  {
    var kept := Kept(alerts, alerts);
    var out := Summaries(kept);
    KeysDistinct(kept);
    forall i | 0 <= i < |out| ensures KeyOf(out[i]) == Keys(kept)[i] {
      assert Keys(kept)[i] in Keys(kept);
      SummarySummarises(kept, Keys(kept)[i]);
    }
    SortPermutes(Before, out);
    assert forall i, j :: 0 <= i < j < |out| ==> Keys(kept)[i] != Keys(kept)[j] && KeysDiffer(out[i], out[j]);
    PairwisePermuted(KeysDiffer, out, Resolve(alerts));
  }

  predicate KeysDiffer(a: Alert, b: Alert) {
    KeyOf(a) != KeyOf(b)
  }

  lemma FindingSummarises(alerts: seq<Alert>, o: Alert)
    requires o in Resolve(alerts)
    ensures Summarises(o, Members(Kept(alerts, alerts), KeyOf(o)))
  {
    EachFindingSummarisesItsKey(alerts);
  }

  /** Every flow of a finding was carried by a surviving input of the same key. */
  lemma FlowOrigin(alerts: seq<Alert>, o: Alert, f: string) returns (a: Alert)
    requires o in Resolve(alerts) && f in o.flowIds
    ensures a in alerts && !Suppressed(alerts, a) && KeyOf(a) == KeyOf(o) && f in a.flowIds
  {
    FindingSummarises(alerts, o);
    var group := Members(Kept(alerts, alerts), KeyOf(o));
    KeptWithin(alerts, alerts);
    MembersWithin(Kept(alerts, alerts), KeyOf(o));
    assert CarriesFlow(group, f);
    a :| a in group && f in a.flowIds;
  }

  /** No surviving SYN-flood finding shares a flow with a reconnaissance finding of its source: not with one of the
      input, and not with one of the result, even after merging. */
  lemma NoContradictionSurvives(alerts: seq<Alert>, o: Alert, r: Alert)
    requires o in Resolve(alerts) && IsSynFlood(o)
    ensures r in alerts || r in Resolve(alerts) ==> !Contradicts(r, o)
  {
    if Contradicts(r, o) && (r in alerts || r in Resolve(alerts)) {
      var f :| f in o.flowIds && f in r.flowIds;
      var a := FlowOrigin(alerts, o, f);
      var q := r;
      if r !in alerts {
        q := FlowOrigin(alerts, r, f);
      }
      SuppressedBy(alerts, a, q, f);
    }
  }

  lemma SuppressedBy(alerts: seq<Alert>, a: Alert, q: Alert, f: string)
    requires q in alerts && q.threatType == RECONNAISSANCE && q.srcIp == a.srcIp && f in a.flowIds && f in q.flowIds
    requires IsSynFlood(a)
    ensures Suppressed(alerts, a)
  {
    assert Contradicts(q, a);
  }

  lemma KeptStep(all: seq<Alert>, xs: seq<Alert>, a: Alert)
    ensures Kept(all, xs + [a]) == if Suppressed(all, a) then Kept(all, xs) else Kept(all, xs) + [a]
  {
    assert (xs + [a])[..|xs|] == xs;
  }

  lemma {:induction false} NothingToSuppress(all: seq<Alert>, xs: seq<Alert>)
    requires forall a :: a in xs ==> !Suppressed(all, a)
    ensures Kept(all, xs) == xs
  {
    if xs == [] {
    } else {
      var n := |xs| - 1;
      NothingToSuppress(all, xs[..n]);
      KeptStep(all, xs[..n], xs[n]);
      assert xs == xs[..n] + [xs[n]];
    }
  }

  lemma {:induction false} NothingToMerge(xs: seq<Alert>)
    requires Pairwise(KeysDiffer, xs)
    ensures |Keys(xs)| == |xs| && forall i :: 0 <= i < |xs| ==> Keys(xs)[i] == KeyOf(xs[i]) && Members(xs, KeyOf(xs[i])) == [xs[i]]
  {
    if xs == [] {
    } else {
      var n := |xs| - 1;
      NothingToMerge(xs[..n]);
      assert forall i :: 0 <= i < n ==> KeysDiffer(xs[i], xs[n]);
      assert KeyOf(xs[n]) !in Keys(xs[..n]);
      MembersOfKey(xs[..n], KeyOf(xs[n]));
    }
  }

  /** Resolving what has been resolved changes nothing. */
  lemma ResolveIsIdempotent(alerts: seq<Alert>)
    ensures Resolve(Resolve(alerts)) == Resolve(alerts)
  {
    var out := Resolve(alerts);
    forall a | a in out ensures !Suppressed(out, a) {
      if Suppressed(out, a) {
        var r :| r in out && Contradicts(r, a);
        NoContradictionSurvives(alerts, a, r);
      }
    }
    NothingToSuppress(out, out);
    KeysAreUnique(alerts);
    NothingToMerge(out);
    assert Summaries(out) == out;
    BeforeIsTotal();
    SortSorts(Before, Summaries(Kept(alerts, alerts)));
    SortedUnchanged(Before, out);
  }

  // ------------------------------------------------- for the stages after it

  ghost predicate WellFormed(a: Alert) {
    a.alertId != "" && a.srcIp != "" && a.windowStart <= a.windowEnd && 0.0 <= a.confidence <= 1.0
  }

  /** The first of the strongest of a group: the alert whose identity the merged finding takes. */
  ghost predicate FirstStrongest(group: seq<Alert>, i: int) {
    && 0 <= i < |group| && (forall j :: 0 <= j < |group| ==> group[j].confidence <= group[i].confidence)
    && (forall j :: 0 <= j < i ==> group[j].confidence < group[i].confidence)
  }

  ghost predicate Leads(group: seq<Alert>, id: string) {
    exists i :: FirstStrongest(group, i) && group[i].alertId == id
  }

  /** The surviving alerts of key k are led by an alert of this id. */
  ghost predicate Names(alerts: seq<Alert>, k: Key, id: string) {
    Leads(Members(Kept(alerts, alerts), k), id)
  }

  /** No two keys are led by alerts of one id. */
  ghost predicate NamedApart(alerts: seq<Alert>) {
    forall k, l, id :: Names(alerts, k, id) && Names(alerts, l, id) ==> k == l
  }

  /** Alerts under one id have one key, as when the closing reconnaissance snapshot repeats the identity of the alert
      that its source raised last. */
  ghost predicate Coherent(alerts: seq<Alert>) {
    forall a, b :: a in alerts && b in alerts && a.alertId == b.alertId ==> KeyOf(a) == KeyOf(b)
  }

  lemma SummaryLeads(o: Alert, group: seq<Alert>)
    requires Summarises(o, group)
    ensures Leads(group, o.alertId)
  {
    var i: nat :| SpeaksFor(o, group, i);
    assert forall j :: 0 <= j < |group| ==> group[j] in group;
    assert FirstStrongest(group, i);
  }

  lemma FindingIsNamed(alerts: seq<Alert>, o: Alert)
    requires o in Resolve(alerts)
    ensures Names(alerts, KeyOf(o), o.alertId)
  {
    FindingSummarises(alerts, o);
    SummaryLeads(o, Members(Kept(alerts, alerts), KeyOf(o)));
  }

  lemma OneLeader(group: seq<Alert>, a: string, b: string)
    requires Leads(group, a) && Leads(group, b)
    ensures a == b
  {
    var i :| FirstStrongest(group, i) && group[i].alertId == a;
    var j :| FirstStrongest(group, j) && group[j].alertId == b;
    assert i == j;
  }

  /** The surviving input behind a name. */
  lemma NameOrigin(alerts: seq<Alert>, k: Key, id: string) returns (a: Alert)
    requires Names(alerts, k, id)
    ensures a in alerts && !Suppressed(alerts, a) && KeyOf(a) == k && a.alertId == id
  {
    var group := Members(Kept(alerts, alerts), k);
    var i :| FirstStrongest(group, i) && group[i].alertId == id;
    a := group[i];
    KeptWithin(alerts, alerts);
    MembersWithin(Kept(alerts, alerts), k);
    assert a in group;
  }

  lemma NameIsFound(alerts: seq<Alert>, k: Key, id: string) returns (o: Alert)
    requires Names(alerts, k, id)
    ensures o in Resolve(alerts) && KeyOf(o) == k && o.alertId == id
  {
    var a := NameOrigin(alerts, k, id);
    EachFindingSummarisesItsKey(alerts);
    o :| o in Resolve(alerts) && KeyOf(o) == KeyOf(a);
    FindingIsNamed(alerts, o);
    OneLeader(Members(Kept(alerts, alerts), k), id, o.alertId);
  }

  lemma CoherentIsNamedApart(alerts: seq<Alert>)
    requires Coherent(alerts)
    ensures NamedApart(alerts)
  {
    forall k, l, id | Names(alerts, k, id) && Names(alerts, l, id) ensures k == l {
      var a := NameOrigin(alerts, k, id);
      var b := NameOrigin(alerts, l, id);
    }
  }

  /** From well-formed alerts in any order come well-formed findings in order of their starts; their ids are distinct
      exactly if no id leads two keys. */
  lemma ResolvedAreWellFormed(alerts: seq<Alert>)
    requires forall a :: a in alerts ==> WellFormed(a)
    ensures var out := Resolve(alerts);
      && (forall a :: a in out ==> WellFormed(a) && a.alertId in Ids(alerts))
      && (NoDuplicates(Ids(out)) <==> NamedApart(alerts))
      && (forall i, j :: 0 <= i < j < |out| ==> out[i].windowStart <= out[j].windowStart)
  {
    var out := Resolve(alerts);
    forall o | o in out ensures WellFormed(o) && o.alertId in Ids(alerts) {
      var a := Speaker(alerts, o);
    }
    IdsAreDistinctIff(alerts);
    BeforeIsTotal();
    SortSorts(Before, Summaries(Kept(alerts, alerts)));
    assert forall i, j :: 0 <= i < j < |out| ==> Before(out[i], out[j]);
  }

  lemma IdsAreDistinctIff(alerts: seq<Alert>)
    ensures NoDuplicates(Ids(Resolve(alerts))) <==> NamedApart(alerts)
  {
    var out := Resolve(alerts);
    KeysAreUnique(alerts);
    if NamedApart(alerts) {
      forall i, j | 0 <= i < j < |out| ensures Ids(out)[i] != Ids(out)[j] {
        FindingIsNamed(alerts, out[i]);
        FindingIsNamed(alerts, out[j]);
        assert KeysDiffer(out[i], out[j]);
      }
    }
    if NoDuplicates(Ids(out)) {
      forall k, l, id | Names(alerts, k, id) && Names(alerts, l, id) ensures k == l {
        var a := NameIsFound(alerts, k, id);
        var b := NameIsFound(alerts, l, id);
        SameIdSameAlert(out, a, b);
      }
    }
  }

  lemma TwoGroups(a: Alert, b: Alert)
    requires KeyOf(a) != KeyOf(b)
    ensures Members([a, b], KeyOf(a)) == [a] && Members([a, b], KeyOf(b)) == [b]
  {
    assert [a, b][..1] == [a] && [a][..0] == [];
    assert Members([], KeyOf(a)) == [] && Members([], KeyOf(b)) == [];
    assert Members([a], KeyOf(a)) == [a] && Members([a], KeyOf(b)) == [];
  }

  lemma OneLeads(a: Alert)
    ensures Leads([a], a.alertId)
  {
    assert FirstStrongest([a], 0);
  }

  lemma TwoKeysOneId(a: Alert, b: Alert)
    requires KeyOf(a) != KeyOf(b) && a.alertId == b.alertId && !IsSynFlood(a) && !IsSynFlood(b)
    ensures !NamedApart([a, b])
  {
    var all := [a, b];
    assert Kept(all, all) == all by { NothingToSuppress(all, all); }
    TwoGroups(a, b);
    OneLeads(a);
    OneLeads(b);
    assert Names(all, KeyOf(a), a.alertId) && Names(all, KeyOf(b), a.alertId);
  }

  /** A reconnaissance identity holds subtype, source and window, not the probed host. When contacts of one instant
      move the widest vertical scan to another host, the closing snapshot has the earlier alert's id under another
      key, and both stay. */
  lemma SharedIdStays() returns (alerts: seq<Alert>)
    ensures |alerts| == 2 && (forall a :: a in alerts ==> WellFormed(a)) && alerts[0].alertId == alerts[1].alertId
    ensures !NoDuplicates(Ids(Resolve(alerts)))
  {
    var first := Alert("r", "recon", RECONNAISSANCE, "vertical_port_scan", 0.7, "medium", 0.0, 1.0, "s", Some("h1"), [], []);
    var last := first.(dstIp := Some("h2"), confidence := 0.8);
    assert "h1"[1] != "h2"[1];
    TwoKeysOneId(first, last);
    alerts := [first, last];
    IdsAreDistinctIff(alerts);
  }

  lemma SameIdSameAlert(alerts: seq<Alert>, a: Alert, b: Alert)
    requires NoDuplicates(Ids(alerts)) && a in alerts && b in alerts && a.alertId == b.alertId
    ensures a == b
  {
    var i :| 0 <= i < |alerts| && alerts[i] == a;
    var j :| 0 <= j < |alerts| && alerts[j] == b;
    assert Ids(alerts)[i] == Ids(alerts)[j];
  }

  /** The input whose identity a finding carries. */
  lemma Speaker(alerts: seq<Alert>, o: Alert) returns (a: Alert)
    requires o in Resolve(alerts) && forall x :: x in alerts ==> WellFormed(x)
    ensures a in alerts && KeyOf(a) == KeyOf(o) && a.alertId == o.alertId && o.alertId in Ids(alerts) && WellFormed(o)
  {
    FindingSummarises(alerts, o);
    var group := Members(Kept(alerts, alerts), KeyOf(o));
    KeptWithin(alerts, alerts);
    MembersWithin(Kept(alerts, alerts), KeyOf(o));
    a := SpeakerIn(group, o);
    IdListed(alerts, a);
  }

  lemma SpeakerIn(group: seq<Alert>, o: Alert) returns (a: Alert)
    requires Summarises(o, group) && forall x :: x in group ==> WellFormed(x)
    ensures a in group && a.alertId == o.alertId && WellFormed(o)
  {
    var i: nat :| SpeaksFor(o, group, i);
    a := group[i];
    assert a in group;
  }

  lemma IdListed(alerts: seq<Alert>, a: Alert)
    requires a in alerts
    ensures a.alertId in Ids(alerts)
  {
    var k :| 0 <= k < |alerts| && alerts[k] == a;
    assert Ids(alerts)[k] == a.alertId;
  }
}
