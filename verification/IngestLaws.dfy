/** What dispositions, reasons, counters and lists of the telemetry quality mean, told from the lines alone
    (ContinuousIngestor._consume and _reject in src/aegisflow/continuous_ingestion.py). */
module IngestLaws {
  import opened Records
  import opened Ingest

  // -------------------------------------------------------------- one line

  /** A record whose key an earlier record had. */
  ghost predicate Repeats(e: Engine, raws: seq<Bytes>, j: nat)
    requires j < |raws|
  {
    Line(e, raws, j).WellFormed? && exists i :: 0 <= i < j && HasKey(e, raws, i, Line(e, raws, j).key)
  }

  /** A record that is the same as the first with its key. */
  ghost predicate RepeatsExactly(e: Engine, raws: seq<Bytes>, j: nat)
    requires j < |raws|
  {
    && Line(e, raws, j).WellFormed?
    && exists i :: 0 <= i < j && FirstOfKey(e, raws, i) && HasKey(e, raws, i, Line(e, raws, j).key)
                   && Line(e, raws, i).signature == Line(e, raws, j).signature
  }

  /** By how much record j lies before record i. */
  function Step(e: Engine, raws: seq<Bytes>, i: nat, j: nat): int
    requires i < |raws| && j < |raws| && Line(e, raws, i).WellFormed? && Line(e, raws, j).WellFormed?
  {
    Line(e, raws, i).first.stamp - Line(e, raws, j).first.stamp
  }

  ghost predicate Late(e: Engine, raws: seq<Bytes>, j: nat)
    requires j < |raws|
  {
    Line(e, raws, j).WellFormed? && exists i :: 0 <= i < j && Line(e, raws, i).WellFormed? && Step(e, raws, i, j) > 0
  }

  /** The reasons a record is refused for, in the code's words. */
  ghost function Refusal(e: Engine, raws: seq<Bytes>, j: nat): string
    requires j < |raws|
  {
    var late := "late timestamp (strict arrival-order policy)";
    if RepeatsExactly(e, raws, j) then
      "duplicate UID within record kind" + (if Late(e, raws, j) then "; " + late else "")
    else if Repeats(e, raws, j) then
      "conflicting UID within record kind" + (if Late(e, raws, j) then "; " + late else "")
    else if Late(e, raws, j) then late
    else ""
  }

  ghost function Expected(e: Engine, raws: seq<Bytes>, j: nat): Outcome
    requires j < |raws| && !Line(e, raws, j).Escapes?
  {
    match Line(e, raws, j)
    case Blank => Outcome(Ignored, "blank/comment")
    case Undecodable(reason) => Outcome(Quarantined, reason)
    case Malformed(reason, _, _, _) => Outcome(Quarantined, reason)
    case WellFormed(_, _, _, _) =>
      if Refusal(e, raws, j) == "" then Outcome(Accepted, "") else Outcome(Quarantined, Refusal(e, raws, j))
  }

  lemma RepeatsIff(e: Engine, raws: seq<Bytes>, n: nat, uids: map<Key, string>)
    requires n < |raws| && Line(e, raws, n).WellFormed? && RemembersKeys(e, raws[..n], uids)
    ensures Repeats(e, raws, n) <==> Line(e, raws, n).key in uids
    ensures RepeatsExactly(e, raws, n) <==>
              Line(e, raws, n).key in uids && uids[Line(e, raws, n).key] == Line(e, raws, n).signature
  {
    LinesOfPrefix(e, raws, n);
    var key := Line(e, raws, n).key;
    if key in uids {
      var i :| 0 <= i < n && HasKey(e, raws[..n], i, key);
      var first := FirstWithKey(e, raws, i, key);
      assert FirstOfKey(e, raws[..n], first);
    }
    if i :| 0 <= i < n && HasKey(e, raws, i, key) {
      assert HasKey(e, raws[..n], i, key);
    }
    if RepeatsExactly(e, raws, n) {
      var i :| 0 <= i < n && FirstOfKey(e, raws, i) && HasKey(e, raws, i, key) && Line(e, raws, i).signature == Line(e, raws, n).signature;
      assert FirstOfKey(e, raws[..n], i);
    }
  }

  lemma {:induction false} FirstWithKey(e: Engine, raws: seq<Bytes>, i: nat, key: Key) returns (first: nat)
    requires i < |raws| && HasKey(e, raws, i, key)
    ensures first <= i && HasKey(e, raws, first, key) && FirstOfKey(e, raws, first)
  {
    if k: nat :| k < i && HasKey(e, raws, k, key) {
      first := FirstWithKey(e, raws, k, key);
    } else {
      first := i;
    }
  }

  lemma LateIff(e: Engine, raws: seq<Bytes>, n: nat, latest: Option<int>)
    requires n < |raws| && Line(e, raws, n).WellFormed? && RemembersLatest(e, raws[..n], latest)
    ensures Late(e, raws, n) <==> latest.Some? && Line(e, raws, n).first.stamp < latest.value
  {
    LinesOfPrefix(e, raws, n);
    if latest.Some? {
      var i :| 0 <= i < n && Line(e, raws[..n], i).WellFormed? && Line(e, raws[..n], i).first.stamp == latest.value;
      assert Line(e, raws, i).WellFormed? && Step(e, raws, i, n) == latest.value - Line(e, raws, n).first.stamp;
    }
  }

  lemma RecordOutcome(ram: Ram, line: nat, key: Key, signature: string, first: Event, more: seq<Event>, c: Consumed,
                      repeats: bool, exact: bool, late: bool)
    requires c == ConsumeRecord(ram, line, key, signature, first, more) && c.Kept?
    requires repeats == (key in ram.uids) && exact == (repeats && ram.uids[key] == signature)
    requires late == (ram.latest.Some? && first.stamp < ram.latest.value)
    ensures c.outcome ==
      if !repeats && !late then Outcome(Accepted, "")
      else Outcome(Quarantined, Joined(if exact then "duplicate UID within record kind"
                                       else if repeats then "conflicting UID within record kind" else "",
                                       if late then "late timestamp (strict arrival-order policy)" else ""))
  {
  }

  /** Every disposition and reason, told from the lines alone. */
  lemma OutcomesAreExpected(e: Engine, raws: seq<Bytes>, j: nat)
    requires j < |raws| && Replay(e, raws).Replayed?
    ensures !Line(e, raws, j).Escapes? && Replay(e, raws).outcomes[j] == Expected(e, raws, j)
  {
    ReplayOfPrefix(e, raws, j);
    ReplayOfPrefix(e, raws, j + 1);
    assert raws[..j + 1][..j] == raws[..j];
    var ram := Replay(e, raws[..j]).ram;
    var c := Consume(e, ram, raws[j], j + 1);
    assert Replay(e, raws).outcomes[j] == c.outcome;
    ExpectedOutcome(e, raws, j, ram, c);
  }

  lemma ExpectedOutcome(e: Engine, raws: seq<Bytes>, j: nat, ram: Ram, c: Consumed)
    requires j < |raws| && Replay(e, raws[..j]).Replayed? && ram == Replay(e, raws[..j]).ram
    requires c == Consume(e, ram, raws[j], j + 1) && c.Kept?
    ensures !Line(e, raws, j).Escapes? && c.outcome == Expected(e, raws, j)
  {
    var p := Line(e, raws, j);
    if p.WellFormed? {
      ReplayRemembers(e, raws[..j]);
      RepeatsIff(e, raws, j, ram.uids);
      LateIff(e, raws, j, ram.latest);
      RecordOutcome(ram, j + 1, p.key, p.signature, p.first, p.more, c, Repeats(e, raws, j), RepeatsExactly(e, raws, j), Late(e, raws, j));
      RefusalIs(e, raws, j);
    }
  }

  lemma RefusalIs(e: Engine, raws: seq<Bytes>, j: nat)
    requires j < |raws|
    ensures RepeatsExactly(e, raws, j) ==> Repeats(e, raws, j)
    ensures Refusal(e, raws, j) ==
      Joined(if RepeatsExactly(e, raws, j) then "duplicate UID within record kind"
             else if Repeats(e, raws, j) then "conflicting UID within record kind" else "",
             if Late(e, raws, j) then "late timestamp (strict arrival-order policy)" else "")
    ensures Refusal(e, raws, j) == "" <==> !Repeats(e, raws, j) && !Late(e, raws, j)
  {
  }

  // ------------------------------------------------------------- the counters

  datatype Sums = Sums(duplicates: nat, exact: nat, conflicting: nat, outOfOrder: nat, invalidStamps: nat, unsupported: nat)

  function Bit(b: bool): nat {
    if b then 1 else 0
  }

  function Stamps(p: Parsed): nat {
    if p.Malformed? then p.invalidStamps else 0
  }

  function Unsupported(p: Parsed): nat {
    if p.Malformed? then p.unsupported else 0
  }

  /** How many lines are of each kind. */
  ghost function Counted(e: Engine, raws: seq<Bytes>): Sums {
    if raws == [] then Sums(0, 0, 0, 0, 0, 0)
    else
      var n := |raws| - 1;
      AddLine(Counted(e, raws[..n]), Line(e, raws, n), Repeats(e, raws, n), RepeatsExactly(e, raws, n), Late(e, raws, n))
  }

  function AddLine(s: Sums, p: Parsed, repeats: bool, exact: bool, late: bool): Sums {
    Sums(s.duplicates + Bit(repeats), s.exact + Bit(exact), s.conflicting + Bit(repeats && !exact), s.outOfOrder + Bit(late),
         s.invalidStamps + Stamps(p), s.unsupported + Unsupported(p))
  }

  predicate Shows(q: Quality, s: Sums) {
    && q.duplicates == s.duplicates && q.exact == s.exact && q.conflicting == s.conflicting
    && q.outOfOrder == s.outOfOrder && q.invalidStamps == s.invalidStamps && q.unsupported == s.unsupported
  }

  /** The greatest step back between two records, if there is one. */
  ghost predicate GreatestStepBack(e: Engine, raws: seq<Bytes>, skew: int) {
    && skew >= 0
    && (forall i, j :: 0 <= i < j < |raws| && Line(e, raws, i).WellFormed? && Line(e, raws, j).WellFormed? ==>
          Step(e, raws, i, j) <= skew)
    && (skew > 0 ==> exists i, j :: 0 <= i < j < |raws| && Line(e, raws, i).WellFormed? && Line(e, raws, j).WellFormed?
                                    && Step(e, raws, i, j) == skew)
  }

  lemma CountersStep(e: Engine, ram: Ram, p: Parsed, raw: Bytes, line: nat, c: Consumed, s: Sums, repeats: bool, exact: bool, late: bool)
    requires p == e.parse(raw, line == 1) && c == Consume(e, ram, raw, line) && c.Kept? && Shows(ram.quality, s)
    requires repeats == (p.WellFormed? && p.key in ram.uids)
    requires exact == (repeats && ram.uids[p.key] == p.signature)
    requires late == (p.WellFormed? && ram.latest.Some? && p.first.stamp < ram.latest.value)
    ensures Shows(c.ram.quality, AddLine(s, p, repeats, exact, late))
    ensures c.ram.quality.maxSkew ==
      if late && ram.quality.maxSkew < ram.latest.value - p.first.stamp then ram.latest.value - p.first.stamp else ram.quality.maxSkew
  {
  }

  lemma SkewGrows(e: Engine, raws: seq<Bytes>, before: int, latest: Option<int>, skew: int)
    requires raws != [] && GreatestStepBack(e, raws[..|raws| - 1], before) && RemembersLatest(e, raws[..|raws| - 1], latest)
    requires var p := Line(e, raws, |raws| - 1);
      var late := p.WellFormed? && latest.Some? && p.first.stamp < latest.value;
      skew == if late && before < latest.value - p.first.stamp then latest.value - p.first.stamp else before
    ensures GreatestStepBack(e, raws, skew)
  {
    var n := |raws| - 1;
    LinesOfPrefix(e, raws, n);
    forall i, j | 0 <= i < j < |raws| && Line(e, raws, i).WellFormed? && Line(e, raws, j).WellFormed?
      ensures Step(e, raws, i, j) <= skew
    {
      if j < n {
        assert Step(e, raws[..n], i, j) == Step(e, raws, i, j);
      }
    }
    if skew > before {
      var i :| 0 <= i < n && Line(e, raws[..n], i).WellFormed? && Line(e, raws[..n], i).first.stamp == latest.value;
      assert Step(e, raws, i, n) == skew;
    } else if skew > 0 {
      var i, j :| 0 <= i < j < n && Line(e, raws[..n], i).WellFormed? && Line(e, raws[..n], j).WellFormed?
                  && Step(e, raws[..n], i, j) == before;
      assert Step(e, raws, i, j) == skew;
    }
  }

  /** Every counter is the number of lines it names, and the skew the greatest step back between two records. */
  lemma {:induction false} CountersMean(e: Engine, raws: seq<Bytes>)
    requires Replay(e, raws).Replayed?
    ensures Shows(Replay(e, raws).ram.quality, Counted(e, raws))
    ensures GreatestStepBack(e, raws, Replay(e, raws).ram.quality.maxSkew)
  {
    if raws == [] {
    } else {
      var n := |raws| - 1;
      CountersMean(e, raws[..n]);
      var ram := Replay(e, raws[..n]).ram;
      var c := ReplayStep(e, raws);
      OneLineCounts(e, raws, n, ram, c);
    }
  }

  lemma OneLineCounts(e: Engine, raws: seq<Bytes>, n: nat, ram: Ram, c: Consumed)
    requires |raws| == n + 1 && Replay(e, raws[..n]).Replayed? && ram == Replay(e, raws[..n]).ram
    requires c == Consume(e, ram, raws[n], n + 1) && c.Kept?
    requires Shows(ram.quality, Counted(e, raws[..n])) && GreatestStepBack(e, raws[..n], ram.quality.maxSkew)
    ensures Shows(c.ram.quality, Counted(e, raws)) && GreatestStepBack(e, raws, c.ram.quality.maxSkew)
  {
    ReplayRemembers(e, raws[..n]);
    Remembered(e, raws, n, ram.uids, ram.latest);
    CountsAdd(e, raws, n, ram, c, Line(e, raws, n), Repeats(e, raws, n), RepeatsExactly(e, raws, n), Late(e, raws, n));
  }

  /** What memory says of a line's key and time. */
  lemma Remembered(e: Engine, raws: seq<Bytes>, n: nat, uids: map<Key, string>, latest: Option<int>)
    requires n < |raws| && RemembersKeys(e, raws[..n], uids) && RemembersLatest(e, raws[..n], latest)
    ensures var p := Line(e, raws, n);
      && (Repeats(e, raws, n) <==> p.WellFormed? && p.key in uids)
      && (RepeatsExactly(e, raws, n) <==> p.WellFormed? && p.key in uids && uids[p.key] == p.signature)
      && (Late(e, raws, n) <==> p.WellFormed? && latest.Some? && p.first.stamp < latest.value)
  {
    if Line(e, raws, n).WellFormed? {
      RepeatsIff(e, raws, n, uids);
      LateIff(e, raws, n, latest);
    }
  }

  lemma CountsAdd(e: Engine, raws: seq<Bytes>, n: nat, ram: Ram, c: Consumed, p: Parsed, repeats: bool, exact: bool, late: bool)
    requires |raws| == n + 1 && c == Consume(e, ram, raws[n], n + 1) && c.Kept? && p == Line(e, raws, n)
    requires repeats == Repeats(e, raws, n) && exact == RepeatsExactly(e, raws, n) && late == Late(e, raws, n)
    requires repeats == (p.WellFormed? && p.key in ram.uids) && exact == (repeats && ram.uids[p.key] == p.signature)
    requires late == (p.WellFormed? && ram.latest.Some? && p.first.stamp < ram.latest.value)
    requires RemembersLatest(e, raws[..n], ram.latest)
    requires Shows(ram.quality, Counted(e, raws[..n])) && GreatestStepBack(e, raws[..n], ram.quality.maxSkew)
    ensures Shows(c.ram.quality, Counted(e, raws)) && GreatestStepBack(e, raws, c.ram.quality.maxSkew)
  {
    CountersStep(e, ram, p, raws[n], n + 1, c, Counted(e, raws[..n]), repeats, exact, late);
    SkewGrows(e, raws, ram.quality.maxSkew, ram.latest, c.ram.quality.maxSkew);
  }

  // ---------------------------------------------------------------- the lists

  /** Line numbers and reasons of the lines refused, in order. */
  function Refused(outcomes: seq<Outcome>): seq<(nat, string)> {
    if outcomes == [] then []
    else
      var n := |outcomes| - 1;
      Refused(outcomes[..n]) + (if outcomes[n].disposition.Quarantined? then [(n + 1, outcomes[n].reason)] else [])
  }

  function FirstOf(s: seq<(nat, string)>, n: nat): seq<(nat, string)> {
    if |s| <= n then s else s[..n]
  }

  lemma FirstOfSnoc(s: seq<(nat, string)>, x: (nat, string), n: nat)
    ensures FirstOf(s + [x], n) == if |FirstOf(s, n)| < n then FirstOf(s, n) + [x] else FirstOf(s, n)
  {
  }

  predicate Lists(q: Quality, refused: seq<(nat, string)>) {
    q.errors == FirstOf(refused, 5) && q.quarantine == FirstOf(refused, 20)
  }

  lemma ListsStep(e: Engine, ram: Ram, raw: Bytes, line: nat, c: Consumed, refused: seq<(nat, string)>)
    requires c == Consume(e, ram, raw, line) && c.Kept? && Lists(ram.quality, refused)
    ensures Lists(c.ram.quality, refused + (if c.outcome.disposition.Quarantined? then [(line, c.outcome.reason)] else []))
  {
    FirstOfSnoc(refused, (line, c.outcome.reason), 5);
    FirstOfSnoc(refused, (line, c.outcome.reason), 20);
    assert refused + [] == refused;
  }

  /** The messages are the first five refusals and the quarantine list the first twenty, each under its line number. */
  lemma {:induction false} ListsAreFirstRefusals(e: Engine, raws: seq<Bytes>)
    requires Replay(e, raws).Replayed?
    ensures Lists(Replay(e, raws).ram.quality, Refused(Replay(e, raws).outcomes))
  {
    if raws == [] {
    } else {
      var n := |raws| - 1;
      ListsAreFirstRefusals(e, raws[..n]);
      var before := Replay(e, raws[..n]);
      var c := ReplayStep(e, raws);
      ListsStep(e, before.ram, raws[n], |raws|, c, Refused(before.outcomes));
      assert (before.outcomes + [c.outcome])[..n] == before.outcomes;
    }
  }
}
