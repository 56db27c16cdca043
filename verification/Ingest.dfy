/** What one line does to the worker's memory, and the fold of a whole journal
    (ContinuousIngestor._consume in src/aegisflow/continuous_ingestion.py). */
module Ingest {
  import opened Records

  type byte = x: int | 0 <= x < 256
  type Bytes = seq<byte>

  datatype Event = Event(stamp: int, body: string)
  datatype Key = Key(kind: string, uid: string)

  /** Result of decoding and normalising one line. A record always carries at least one event. `Escapes` is an
      exception of another class than the handler at line 190 names, such as the OverflowError of converting an
      integer of four hundred digits to a float, or the TypeError of converting a list. */
  datatype Parsed =
    | Blank
    | Escapes(error: string)
    | Undecodable(reason: string)
    | Malformed(reason: string, lateUnicode: bool, invalidStamps: nat, unsupported: nat)
    | WellFormed(key: Key, signature: string, first: Event, more: seq<Event>)

  datatype Analysis = Analysis(alerts: seq<Alert>, incidents: seq<Incident>)

  datatype Limits = Limits(batchRecords: nat, maxLineBytes: nat, maxJournalRecords: nat, maxJournalBytes: nat) {
    predicate Valid() {
      && 0 < batchRecords <= 4096 && 0 < maxLineBytes <= 1_048_576
      && 0 < maxJournalRecords && 0 < maxJournalBytes
    }
  }

  /** One release with its profile: the line parser (told whether the line is the first, which may carry a byte
      order mark), the detectors as a function of every event processed so far, and the limits. */
  datatype Engine = Engine(
    parse: (Bytes, bool) -> Parsed, analyse: seq<Event> -> Analysis, limits: Limits, provenance: string)

  // ---------------------------------------------------------------- session

  /** AnalysisSession: deterministic detectors are a function of the events fed so far. */
  datatype Session = Session(history: seq<Event>, latest: Option<int>)

  /** None is the session's refusal of an event older than the previous one. */
  function Process(s: Session, e: Event): Option<Session> {
    if s.latest.Some? && e.stamp < s.latest.value then None
    else Some(Session(s.history + [e], Some(e.stamp)))
  }

  function ProcessMany(s: Session, events: seq<Event>): Option<Session>
    decreases |events|
  {
    if events == [] then Some(s)
    else match Process(s, events[0])
      case None => None
      case Some(next) => ProcessMany(next, events[1..])
  }

  // ---------------------------------------------------------------- quality

  datatype Quality = Quality(
    seen: nat, accepted: nat, rejected: nat, quarantined: nat, outOfOrder: nat, maxSkew: int,
    duplicates: nat, exact: nat, conflicting: nat, invalidStamps: nat, unsupported: nat,
    errors: seq<(nat, string)>, quarantine: seq<(nat, string)>)

  const FRESH_QUALITY := Quality(0, 0, 0, 0, 0, 0, 0, 0, 0, 0, 0, [], [])

  /** At most five error messages and twenty quarantine entries are kept. */
  function Reject(q: Quality, line: nat, reason: string): Quality {
    q.(rejected := q.rejected + 1, quarantined := q.quarantined + 1,
       errors := if |q.errors| < 5 then q.errors + [(line, reason)] else q.errors,
       quarantine := if |q.quarantine| < 20 then q.quarantine + [(line, reason)] else q.quarantine)
  }

  // ---------------------------------------------------------------- one line

  datatype Disposition = Ignored | Quarantined | Accepted
  datatype Outcome = Outcome(disposition: Disposition, reason: string)

  datatype Ram = Ram(quality: Quality, uids: map<Key, string>, latest: Option<int>, session: Session)
  const FRESH_RAM := Ram(FRESH_QUALITY, map[], None, Session([], None))

  /** Raised: an exception leaves the line handler, from normalising or from the session, and stops the worker. */
  datatype Consumed = Kept(ram: Ram, outcome: Outcome) | Raised

  function Consume(e: Engine, ram: Ram, raw: Bytes, line: nat): Consumed {
    match e.parse(raw, line == 1)
    case Blank => Kept(ram, Outcome(Ignored, "blank/comment"))
    case Escapes(_) => Raised
    case Undecodable(reason) =>
      Kept(ram.(quality := Reject(ram.quality.(seen := ram.quality.seen + 1), line, reason)), Outcome(Quarantined, reason))
    case Malformed(reason, late, invalidStamps, unsupported) =>
      var q := ram.quality.(
        seen := ram.quality.seen + (if late then 2 else 1),
        invalidStamps := ram.quality.invalidStamps + invalidStamps,
        unsupported := ram.quality.unsupported + unsupported);
      Kept(ram.(quality := Reject(q, line, reason)), Outcome(Quarantined, reason))
    case WellFormed(key, signature, first, more) =>
      ConsumeRecord(ram, line, key, signature, first, more)
  }

  const EXACT := "duplicate UID within record kind"
  const CONFLICT := "conflicting UID within record kind"
  const LATE := "late timestamp (strict arrival-order policy)"

  function Joined(a: string, b: string): string {
    if a == "" then b else if b == "" then a else a + "; " + b
  }

  function ConsumeRecord(ram: Ram, line: nat, key: Key, signature: string, first: Event, more: seq<Event>): Consumed {
    var duplicate := key in ram.uids;
    var exact := duplicate && ram.uids[key] == signature;
    var late := ram.latest.Some? && first.stamp < ram.latest.value;
    var q := ram.quality;
    var counted := q.(
      seen := q.seen + 1,
      duplicates := q.duplicates + (if duplicate then 1 else 0),
      exact := q.exact + (if exact then 1 else 0),
      conflicting := q.conflicting + (if duplicate && !exact then 1 else 0),
      outOfOrder := q.outOfOrder + (if late then 1 else 0),
      maxSkew := if late && q.maxSkew < ram.latest.value - first.stamp then ram.latest.value - first.stamp else q.maxSkew);
    var uids := if duplicate then ram.uids else ram.uids[key := signature];
    var latest := Some(if late then ram.latest.value else first.stamp);
    if duplicate || late then
      var reason := Joined(if exact then EXACT else if duplicate then CONFLICT else "", if late then LATE else "");
      Kept(Ram(Reject(counted, line, reason), uids, latest, ram.session), Outcome(Quarantined, reason))
    else
      match ProcessMany(ram.session, [first] + more)
      case None => Raised
      case Some(session) =>
        Kept(Ram(counted.(accepted := counted.accepted + 1), uids, latest, session), Outcome(Accepted, ""))
  }

  // ----------------------------------------------------- a whole journal

  datatype Replayed = Replayed(ram: Ram, outcomes: seq<Outcome>) | Stopped

  /** One uninterrupted fold of the lines, numbered from 1. */
  function Replay(e: Engine, raws: seq<Bytes>): (r: Replayed)
    ensures r.Replayed? ==> |r.outcomes| == |raws|
  {
    if raws == [] then Replayed(FRESH_RAM, [])
    else match Replay(e, raws[..|raws| - 1])
      case Stopped => Stopped
      case Replayed(ram, outcomes) =>
        match Consume(e, ram, raws[|raws| - 1], |raws|)
        case Raised => Stopped
        case Kept(next, outcome) => Replayed(next, outcomes + [outcome])
  }

  lemma {:induction false} ReplayOfPrefix(e: Engine, raws: seq<Bytes>, n: nat)
    requires n <= |raws| && Replay(e, raws).Replayed?
    ensures Replay(e, raws[..n]).Replayed?
    ensures Replay(e, raws[..n]).outcomes == Replay(e, raws).outcomes[..n]
  {
    if n == |raws| {
      assert raws[..n] == raws;
    } else {
      var init := raws[..|raws| - 1];
      ReplayOfPrefix(e, init, n);
      assert init[..n] == raws[..n];
    }
  }

  // ------------------------------------------------------ arrival filter

  /** Line i as the parser sees it. */
  function Line(e: Engine, raws: seq<Bytes>, i: nat): Parsed
    requires i < |raws|
  {
    e.parse(raws[i], i == 0)
  }

  predicate HasKey(e: Engine, raws: seq<Bytes>, i: nat, key: Key)
    requires i < |raws|
  {
    Line(e, raws, i).WellFormed? && Line(e, raws, i).key == key
  }

  /** Every earlier well-formed line has another key and starts no later than line j. */
  ghost predicate Admissible(e: Engine, raws: seq<Bytes>, j: nat)
    requires j < |raws|
  {
    && Line(e, raws, j).WellFormed?
    && forall i :: 0 <= i < j && Line(e, raws, i).WellFormed? ==>
         Line(e, raws, i).key != Line(e, raws, j).key && Line(e, raws, i).first.stamp <= Line(e, raws, j).first.stamp
  }

  /** Line i is the first record with its key. */
  ghost predicate FirstOfKey(e: Engine, raws: seq<Bytes>, i: nat)
    requires i < |raws|
  {
    && Line(e, raws, i).WellFormed?
    && forall k :: 0 <= k < i ==> !HasKey(e, raws, k, Line(e, raws, i).key)
  }

  /** The seen-UID map holds exactly the keys of well-formed lines, each with its first signature. */
  ghost predicate RemembersKeys(e: Engine, raws: seq<Bytes>, uids: map<Key, string>) {
    && (forall key :: key in uids <==> exists i :: 0 <= i < |raws| && HasKey(e, raws, i, key))
    && (forall i :: 0 <= i < |raws| && FirstOfKey(e, raws, i) ==>
          Line(e, raws, i).key in uids && uids[Line(e, raws, i).key] == Line(e, raws, i).signature)
  }

  /** The latest timestamp is the maximum over well-formed lines, rejected ones included. */
  ghost predicate RemembersLatest(e: Engine, raws: seq<Bytes>, latest: Option<int>) {
    && (forall i :: 0 <= i < |raws| && Line(e, raws, i).WellFormed? ==>
          latest.Some? && Line(e, raws, i).first.stamp <= latest.value)
    && (latest.Some? ==>
          exists i :: 0 <= i < |raws| && Line(e, raws, i).WellFormed? && Line(e, raws, i).first.stamp == latest.value)
  }

  lemma LinesOfPrefix(e: Engine, raws: seq<Bytes>, n: nat)
    requires n <= |raws|
    ensures forall i :: 0 <= i < n ==> Line(e, raws[..n], i) == Line(e, raws, i)
    ensures forall i, key :: 0 <= i < n ==> HasKey(e, raws[..n], i, key) == HasKey(e, raws, i, key)
  {
  }

  lemma {:induction false} ReplayRemembers(e: Engine, raws: seq<Bytes>)
    requires Replay(e, raws).Replayed?
    ensures RemembersKeys(e, raws, Replay(e, raws).ram.uids)
    ensures RemembersLatest(e, raws, Replay(e, raws).ram.latest)
  {
    if raws == [] {
    } else {
      var n := |raws| - 1;
      var before := Replay(e, raws[..n]).ram;
      ReplayRemembers(e, raws[..n]);
      RememberOneMoreKey(e, raws, before);
      RememberOneMoreStamp(e, raws, before);
    }
  }

  /** What one line does to the map: its key, if new, with its signature. */
  lemma ConsumeUids(e: Engine, before: Ram, raws: seq<Bytes>)
    requires raws != [] && Consume(e, before, raws[|raws| - 1], |raws|).Kept?
    ensures var n := |raws| - 1; var uids := Consume(e, before, raws[n], |raws|).ram.uids;
      uids == if Line(e, raws, n).WellFormed? && Line(e, raws, n).key !in before.uids
              then before.uids[Line(e, raws, n).key := Line(e, raws, n).signature] else before.uids
  {
    var n := |raws| - 1;
    assert e.parse(raws[n], |raws| == 1) == Line(e, raws, n);
  }

  lemma RememberOneMoreKey(e: Engine, raws: seq<Bytes>, before: Ram)
    requires raws != [] && RemembersKeys(e, raws[..|raws| - 1], before.uids)
    requires Consume(e, before, raws[|raws| - 1], |raws|).Kept?
    ensures RemembersKeys(e, raws, Consume(e, before, raws[|raws| - 1], |raws|).ram.uids)
  {
    ConsumeUids(e, before, raws);
    KeysGrow(e, raws, before.uids, Consume(e, before, raws[|raws| - 1], |raws|).ram.uids);
  }

  lemma KeysGrow(e: Engine, raws: seq<Bytes>, earlier: map<Key, string>, uids: map<Key, string>)
    requires raws != [] && RemembersKeys(e, raws[..|raws| - 1], earlier)
    requires var n := |raws| - 1;
      uids == if Line(e, raws, n).WellFormed? && Line(e, raws, n).key !in earlier
              then earlier[Line(e, raws, n).key := Line(e, raws, n).signature] else earlier
    ensures RemembersKeys(e, raws, uids)
  {
    var n := |raws| - 1;
    LinesOfPrefix(e, raws, n);
    forall key ensures key in uids <==> exists i :: 0 <= i < |raws| && HasKey(e, raws, i, key) {
      assert key in uids <==> key in earlier || HasKey(e, raws, n, key);
      if key in earlier {
        var i :| 0 <= i < n && HasKey(e, raws[..n], i, key);
        assert HasKey(e, raws, i, key);
      }
      if i :| 0 <= i < n && HasKey(e, raws, i, key) {
        assert HasKey(e, raws[..n], i, key);
      }
    }
    forall i | 0 <= i < |raws| && FirstOfKey(e, raws, i)
      ensures Line(e, raws, i).key in uids && uids[Line(e, raws, i).key] == Line(e, raws, i).signature
    {
      if i < n {
        assert FirstOfKey(e, raws[..n], i);
      } else {
        assert forall k :: 0 <= k < n ==> !HasKey(e, raws[..n], k, Line(e, raws, n).key);
      }
    }
  }

  lemma RememberOneMoreStamp(e: Engine, raws: seq<Bytes>, before: Ram)
    requires raws != [] && RemembersLatest(e, raws[..|raws| - 1], before.latest)
    requires Consume(e, before, raws[|raws| - 1], |raws|).Kept?
    ensures RemembersLatest(e, raws, Consume(e, before, raws[|raws| - 1], |raws|).ram.latest)
  {
    var n := |raws| - 1;
    LinesOfPrefix(e, raws, n);
    var latest := Consume(e, before, raws[n], n + 1).ram.latest;
    if latest.Some? && !(Line(e, raws, n).WellFormed? && Line(e, raws, n).first.stamp == latest.value) {
      var i :| 0 <= i < n && Line(e, raws[..n], i).WellFormed? && Line(e, raws[..n], i).first.stamp == before.latest.value;
      assert Line(e, raws, i).first.stamp == latest.value;
    }
  }

  lemma KeyIsNewIff(e: Engine, raws: seq<Bytes>, j: nat, uids: map<Key, string>)
    requires j < |raws| && Line(e, raws, j).WellFormed? && RemembersKeys(e, raws[..j], uids)
    ensures Line(e, raws, j).key !in uids <==>
      forall i :: 0 <= i < j && Line(e, raws, i).WellFormed? ==> Line(e, raws, i).key != Line(e, raws, j).key
  {
    LinesOfPrefix(e, raws, j);
    var key := Line(e, raws, j).key;
    if key in uids {
      var i :| 0 <= i < j && HasKey(e, raws[..j], i, key);
      assert Line(e, raws, i).WellFormed? && Line(e, raws, i).key == key;
    } else {
      assert forall i :: 0 <= i < j ==> !HasKey(e, raws[..j], i, key);
    }
  }

  lemma TimeIsNewIff(e: Engine, raws: seq<Bytes>, j: nat, latest: Option<int>)
    requires j < |raws| && Line(e, raws, j).WellFormed? && RemembersLatest(e, raws[..j], latest)
    ensures !(latest.Some? && Line(e, raws, j).first.stamp < latest.value) <==>
      forall i :: 0 <= i < j && Line(e, raws, i).WellFormed? ==> Line(e, raws, i).first.stamp <= Line(e, raws, j).first.stamp
  {
    LinesOfPrefix(e, raws, j);
    if latest.Some? {
      var i :| 0 <= i < j && Line(e, raws[..j], i).WellFormed? && Line(e, raws[..j], i).first.stamp == latest.value;
      assert Line(e, raws, i).WellFormed? && Line(e, raws, i).first.stamp == latest.value;
    }
  }

  /** A line is accepted exactly when it is a record whose key no earlier well-formed line had and whose timestamp
      is at least that of every earlier well-formed line, quarantined ones included. */
  lemma AcceptedIffAdmissible(e: Engine, raws: seq<Bytes>, j: nat)
    requires j < |raws| && Replay(e, raws).Replayed?
    ensures Replay(e, raws).outcomes[j].disposition.Accepted? <==> Admissible(e, raws, j)
  {
    ReplayOfPrefix(e, raws, j);
    ReplayOfPrefix(e, raws, j + 1);
    var before := raws[..j];
    assert raws[..j + 1][..j] == before;
    var ram := Replay(e, before).ram;
    assert Replay(e, raws).outcomes[j] == Consume(e, ram, raws[j], j + 1).outcome;
    ReplayRemembers(e, before);
    if Line(e, raws, j).WellFormed? {
      KeyIsNewIff(e, raws, j, ram.uids);
      TimeIsNewIff(e, raws, j, ram.latest);
    }
  }

  // --------------------------------------- lines that stop the stream

  predicate InOrder(events: seq<Event>) {
    forall k :: 0 < k < |events| ==> events[k - 1].stamp <= events[k].stamp
  }

  function Events(p: Parsed): (events: seq<Event>)
    requires p.WellFormed?
  {
    [p.first] + p.more
  }

  function LastStamp(p: Parsed): int
    requires p.WellFormed?
  {
    Events(p)[|p.more|].stamp
  }

  /** Line j passes the arrival filter and its events reach back behind those of line i, which passed it before. */
  ghost predicate Overtakes(e: Engine, raws: seq<Bytes>, i: nat, j: nat)
    requires i < j < |raws|
  {
    Admissible(e, raws, i) && Admissible(e, raws, j) && Line(e, raws, j).first.stamp < LastStamp(Line(e, raws, i))
  }

  /** Line j makes the handler fail: its normaliser lets an exception out, or it passes the arrival filter although
      its own events are out of order or begin before the last event of an earlier line that passed. */
  ghost predicate Poison(e: Engine, raws: seq<Bytes>, j: nat)
    requires j < |raws|
  {
    || Line(e, raws, j).Escapes?
    || (Admissible(e, raws, j) && !InOrder(Events(Line(e, raws, j))))
    || exists i :: 0 <= i < j && Overtakes(e, raws, i, j)
  }

  ghost predicate Poisoned(e: Engine, raws: seq<Bytes>) {
    exists j :: 0 <= j < |raws| && Poison(e, raws, j)
  }

  /** Whether a line is admissible or poison depends on it and the lines before it only. */
  lemma PrefixDecides(e: Engine, raws: seq<Bytes>, n: nat, j: nat)
    requires j < n <= |raws|
    ensures Admissible(e, raws[..n], j) <==> Admissible(e, raws, j)
    ensures Poison(e, raws[..n], j) <==> Poison(e, raws, j)
  {
    LinesOfPrefix(e, raws, n);
    forall i | 0 <= i < j ensures Overtakes(e, raws[..n], i, j) <==> Overtakes(e, raws, i, j) {
    }
  }

  lemma {:induction false} ProcessedIffInOrder(s: Session, events: seq<Event>)
    requires events != []
    ensures ProcessMany(s, events).Some? <==>
              InOrder(events) && (s.latest.Some? ==> s.latest.value <= events[0].stamp)
    ensures ProcessMany(s, events).Some? ==>
              ProcessMany(s, events).value == Session(s.history + events, Some(events[|events| - 1].stamp))
    decreases |events|
  {
    var next := Process(s, events[0]);
    if next.Some? {
      var rest := events[1..];
      if rest == [] {
        assert events == [events[0]];
      } else {
        ProcessedIffInOrder(next.value, rest);
        assert InOrder(events) <==> events[0].stamp <= rest[0].stamp && InOrder(rest) by {
          assert forall k :: 0 < k < |rest| ==> rest[k] == events[k + 1] && rest[k - 1] == events[k];
          if events[0].stamp <= rest[0].stamp && InOrder(rest) {
            forall k | 0 < k < |events| ensures events[k - 1].stamp <= events[k].stamp {
              if k > 1 {
                assert rest[k - 2].stamp <= rest[k - 1].stamp;
              }
            }
          }
        }
        assert s.history + [events[0]] + rest == s.history + events;
      }
    }
  }

  /** The session's clock is the latest event of the lines that passed. */
  ghost predicate SessionRemembers(e: Engine, raws: seq<Bytes>, latest: Option<int>) {
    && (forall i :: 0 <= i < |raws| && Admissible(e, raws, i) ==>
          latest.Some? && LastStamp(Line(e, raws, i)) <= latest.value)
    && (latest.Some? ==>
          exists i :: 0 <= i < |raws| && Admissible(e, raws, i) && LastStamp(Line(e, raws, i)) == latest.value)
  }

  /** One line more on a memory that is the replay of the lines before it: it stops the stream exactly if it is
      poison, and otherwise the session's clock stays the latest event. */
  lemma OneLineMore(e: Engine, raws: seq<Bytes>, ram: Ram)
    requires raws != [] && Replay(e, raws[..|raws| - 1]).Replayed? && ram == Replay(e, raws[..|raws| - 1]).ram
    requires SessionRemembers(e, raws[..|raws| - 1], ram.session.latest)
    ensures var n := |raws| - 1; var c := Consume(e, ram, raws[n], n + 1);
      && (c.Raised? <==> Poison(e, raws, n))
      && (c.Kept? ==> SessionRemembers(e, raws, c.ram.session.latest))
  {
    var n := |raws| - 1;
    var c := Consume(e, ram, raws[n], n + 1);
    ClockOfPrefix(e, raws, n, ram.session.latest);
    FilterPasses(e, raws, ram);
    if Admissible(e, raws, n) {
      var p := Line(e, raws, n);
      ProcessedIffInOrder(ram.session, Events(p));
      assert c.Kept? ==> c.ram.session.latest == Some(LastStamp(p));
      if ram.session.latest.Some? && p.first.stamp < ram.session.latest.value {
        var i :| 0 <= i < n && Admissible(e, raws, i) && LastStamp(Line(e, raws, i)) == ram.session.latest.value;
        assert Overtakes(e, raws, i, n);
      }
      if InOrder(Events(p)) {
        FirstIsLeast(Events(p), |p.more|);
      }
    } else {
      assert c.Kept? ==> c.ram.session == ram.session;
    }
  }

  lemma {:induction false} FirstIsLeast(events: seq<Event>, k: nat)
    requires InOrder(events) && k < |events|
    ensures events[0].stamp <= events[k].stamp
  {
    if k > 0 {
      FirstIsLeast(events, k - 1);
    }
  }

  lemma ClockOfPrefix(e: Engine, raws: seq<Bytes>, n: nat, latest: Option<int>)
    requires n <= |raws| && SessionRemembers(e, raws[..n], latest)
    ensures forall i :: 0 <= i < n && Admissible(e, raws, i) ==>
              latest.Some? && LastStamp(Line(e, raws, i)) <= latest.value
    ensures latest.Some? ==>
              exists i :: 0 <= i < n && Admissible(e, raws, i) && LastStamp(Line(e, raws, i)) == latest.value
  {
    LinesOfPrefix(e, raws, n);
    forall i | 0 <= i < n ensures Admissible(e, raws[..n], i) <==> Admissible(e, raws, i) {
      PrefixDecides(e, raws, n, i);
    }
    if latest.Some? {
      var i :| 0 <= i < n && Admissible(e, raws[..n], i) && LastStamp(Line(e, raws[..n], i)) == latest.value;
      assert Admissible(e, raws, i) && LastStamp(Line(e, raws, i)) == latest.value;
    }
  }

  /** The filter on a replayed memory is admissibility. */
  lemma FilterPasses(e: Engine, raws: seq<Bytes>, ram: Ram)
    requires raws != [] && Replay(e, raws[..|raws| - 1]).Replayed? && ram == Replay(e, raws[..|raws| - 1]).ram
    ensures var n := |raws| - 1; var p := Line(e, raws, n);
      Admissible(e, raws, n) <==>
        p.WellFormed? && p.key !in ram.uids && !(ram.latest.Some? && p.first.stamp < ram.latest.value)
  {
    var n := |raws| - 1;
    var before := raws[..n];
    ReplayRemembers(e, before);
    LinesOfPrefix(e, raws, n);
    if Line(e, raws, n).WellFormed? {
      var key := Line(e, raws, n).key;
      if key in ram.uids {
        var i :| 0 <= i < n && HasKey(e, before, i, key);
        assert Line(e, raws, i).key == key;
      } else {
        assert forall i :: 0 <= i < n ==> !HasKey(e, before, i, key);
      }
      if ram.latest.Some? {
        var i :| 0 <= i < n && Line(e, before, i).WellFormed? && Line(e, before, i).first.stamp == ram.latest.value;
        assert Line(e, raws, i).first.stamp == ram.latest.value;
      }
    }
  }

  /** The fold stops exactly if one of the lines is poison. */
  lemma {:induction false} StopsIffPoisoned(e: Engine, raws: seq<Bytes>)
    ensures Replay(e, raws).Stopped? <==> Poisoned(e, raws)
    ensures Replay(e, raws).Replayed? ==> SessionRemembers(e, raws, Replay(e, raws).ram.session.latest)
  {
    if raws == [] {
      return;
    }
    var n := |raws| - 1;
    StopsIffPoisoned(e, raws[..n]);
    forall j | 0 <= j < n ensures Poison(e, raws[..n], j) <==> Poison(e, raws, j) {
      PrefixDecides(e, raws, n, j);
    }
    if Replay(e, raws[..n]).Replayed? {
      OneLineMore(e, raws, Replay(e, raws[..n]).ram);
    }
  }

  // ------------------------------------------------- what the session is fed

  /** The events of the lines that pass the arrival filter, in order. */
  ghost function Fed(e: Engine, raws: seq<Bytes>): seq<Event> {
    if raws == [] then []
    else
      var n := |raws| - 1;
      Fed(e, raws[..n]) + (if Admissible(e, raws, n) then Events(Line(e, raws, n)) else [])
  }

  /** One line more: its events are added to the session's history, or the history stays. */
  lemma OneLineFeeds(e: Engine, raws: seq<Bytes>, ram: Ram, history: seq<Event>)
    requires raws != [] && Replay(e, raws[..|raws| - 1]).Replayed? && ram == Replay(e, raws[..|raws| - 1]).ram
    requires history == ram.session.history
    ensures var n := |raws| - 1; var c := Consume(e, ram, raws[n], n + 1);
      c.Kept? ==> c.ram.session.history == history + (if Admissible(e, raws, n) then Events(Line(e, raws, n)) else [])
  {
    var n := |raws| - 1;
    FilterPasses(e, raws, ram);
    if Admissible(e, raws, n) {
      ProcessedIffInOrder(ram.session, Events(Line(e, raws, n)));
    }
  }

  /** One session accumulates over the whole journal: the detectors are given every event of every accepted line, in
      order, and nothing else. */
  lemma {:induction false} ReplayFeeds(e: Engine, raws: seq<Bytes>)
    requires Replay(e, raws).Replayed?
    ensures Replay(e, raws).ram.session.history == Fed(e, raws)
  {
    if raws == [] {
    } else {
      var n := |raws| - 1;
      ReplayFeeds(e, raws[..n]);
      OneLineFeeds(e, raws, Replay(e, raws[..n]).ram, Fed(e, raws[..n]));
      var c := ReplayStep(e, raws);
    }
  }

  /** One line whose normaliser lets an exception out stops the stream behind any journal, where a line that it merely
      refuses would be quarantined. */
  lemma EscapingLineStopsTheStream(e: Engine, raws: seq<Bytes>, raw: Bytes)
    requires e.parse(raw, raws == []).Escapes?
    ensures Replay(e, raws + [raw]) == Stopped
  {
    var all := raws + [raw];
    assert Line(e, all, |raws|) == e.parse(raw, |raws| == 0);
    assert Poison(e, all, |raws|);
    StopsIffPoisoned(e, all);
  }

  /** All events of every record carry one timestamp, as the normalisers produce from one `ts` field. */
  ghost predicate OneStamp(e: Engine) {
    forall raw, first: bool :: var p := e.parse(raw, first);
      p.WellFormed? ==> forall k :: 0 <= k < |p.more| ==> p.more[k].stamp == p.first.stamp
  }

  /** With one timestamp for each record the arrival filter keeps the session's own order check from ever firing:
      only an exception that the normaliser lets out stops the stream. */
  lemma SessionNeverRefuses(e: Engine, raws: seq<Bytes>)
    requires OneStamp(e)
    ensures Replay(e, raws).Stopped? <==> exists j :: 0 <= j < |raws| && Line(e, raws, j).Escapes?
    ensures var r := Replay(e, raws);
      r.Replayed? && r.ram.session.latest.Some? ==> r.ram.latest.Some? && r.ram.session.latest.value <= r.ram.latest.value
  {
    StopsIffPoisoned(e, raws);
    forall j | 0 <= j < |raws| ensures Poison(e, raws, j) <==> Line(e, raws, j).Escapes? {
      OneStampIsOrdered(e, raws, j);
    }
    if Poisoned(e, raws) {
      var j :| 0 <= j < |raws| && Poison(e, raws, j);
      assert Line(e, raws, j).Escapes?;
    }
    if Replay(e, raws).Replayed? {
      ReplayRemembers(e, raws);
    }
  }

  lemma OneStampIsOrdered(e: Engine, raws: seq<Bytes>, j: nat)
    requires OneStamp(e) && j < |raws|
    ensures Poison(e, raws, j) <==> Line(e, raws, j).Escapes?
  {
    forall i | 0 <= i < |raws| && Line(e, raws, i).WellFormed?
      ensures LastStamp(Line(e, raws, i)) == Line(e, raws, i).first.stamp && InOrder(Events(Line(e, raws, i)))
    {
      var p := e.parse(raws[i], i == 0);
      assert forall k :: 0 <= k < |Events(p)| ==> Events(p)[k].stamp == p.first.stamp;
    }
  }

  // -------------------------------------------------------------- counters

  function Tally(outcomes: seq<Outcome>, d: Disposition): nat {
    if outcomes == [] then 0
    else Tally(outcomes[..|outcomes| - 1], d) + (if outcomes[|outcomes| - 1].disposition == d then 1 else 0)
  }

  /** Lines whose text decoded but whose normaliser then failed on Unicode: line 192 counts them once more. */
  function CountedTwice(e: Engine, raws: seq<Bytes>): nat {
    if raws == [] then 0
    else
      CountedTwice(e, raws[..|raws| - 1]) + LateUnicode(Line(e, raws, |raws| - 1))
  }

  function LateUnicode(p: Parsed): nat {
    if p.Malformed? && p.lateUnicode then 1 else 0
  }

  ghost predicate Balanced(q: Quality, outcomes: seq<Outcome>, twice: nat) {
    && q.accepted == Tally(outcomes, Accepted) && q.rejected == q.quarantined == Tally(outcomes, Quarantined)
    && q.seen == q.accepted + q.rejected + twice
    && q.duplicates == q.exact + q.conflicting
    && |q.errors| == (if q.rejected < 5 then q.rejected else 5)
    && |q.quarantine| == (if q.rejected < 20 then q.rejected else 20)
  }

  lemma OneLineBalanced(e: Engine, ram: Ram, raw: Bytes, line: nat, outcomes: seq<Outcome>, twice: nat)
    requires Balanced(ram.quality, outcomes, twice)
    requires Consume(e, ram, raw, line).Kept?
    ensures var c := Consume(e, ram, raw, line);
      Balanced(c.ram.quality, outcomes + [c.outcome], twice + LateUnicode(e.parse(raw, line == 1)))
  {
    var c := Consume(e, ram, raw, line);
    assert (outcomes + [c.outcome])[..|outcomes|] == outcomes;
  }

  lemma {:induction false} TalliesCover(outcomes: seq<Outcome>)
    ensures |outcomes| == Tally(outcomes, Ignored) + Tally(outcomes, Accepted) + Tally(outcomes, Quarantined)
  {
    if outcomes == [] {
    } else {
      TalliesCover(outcomes[..|outcomes| - 1]);
    }
  }

  lemma {:induction false} ReplayBalanced(e: Engine, raws: seq<Bytes>)
    requires Replay(e, raws).Replayed?
    ensures Balanced(Replay(e, raws).ram.quality, Replay(e, raws).outcomes, CountedTwice(e, raws))
  {
    if raws == [] {
      return;
    }
    var n := |raws| - 1;
    ReplayBalanced(e, raws[..n]);
    var before := Replay(e, raws[..n]);
    var c := ReplayStep(e, raws);
    OneLineBalanced(e, before.ram, raws[n], |raws|, before.outcomes, CountedTwice(e, raws[..n]));
  }

  lemma {:induction false} NoneCountedTwiceIff(e: Engine, raws: seq<Bytes>)
    ensures CountedTwice(e, raws) == 0 <==> forall i :: 0 <= i < |raws| ==> LateUnicode(Line(e, raws, i)) == 0
  {
    if raws == [] {
    } else {
      var n := |raws| - 1;
      NoneCountedTwiceIff(e, raws[..n]);
      LinesOfPrefix(e, raws, n);
      assert forall i :: 0 <= i < n ==> LateUnicode(Line(e, raws[..n], i)) == LateUnicode(Line(e, raws, i));
    }
  }

  /** Every line is ignored, accepted or rejected, once, and the counters say how many of each; `records_seen`
      is off by exactly the lines counted twice, so it adds up exactly if no normaliser fails on Unicode. */
  lemma CountersAddUp(e: Engine, raws: seq<Bytes>)
    requires Replay(e, raws).Replayed?
    ensures var q := Replay(e, raws).ram.quality; var outcomes := Replay(e, raws).outcomes;
      && |raws| == Tally(outcomes, Ignored) + q.accepted + q.rejected
      && q.accepted == Tally(outcomes, Accepted) && q.rejected == q.quarantined == Tally(outcomes, Quarantined)
      && q.seen == q.accepted + q.rejected + CountedTwice(e, raws)
      && (q.seen == q.accepted + q.rejected <==> forall i :: 0 <= i < |raws| ==> LateUnicode(Line(e, raws, i)) == 0)
      && q.duplicates == q.exact + q.conflicting
  {
    ReplayBalanced(e, raws);
    NoneCountedTwiceIff(e, raws);
    TalliesCover(Replay(e, raws).outcomes);
  }

  /** The last line's own step, inside the fold. */
  lemma ReplayStep(e: Engine, raws: seq<Bytes>) returns (c: Consumed)
    requires raws != [] && Replay(e, raws).Replayed?
    ensures var before := Replay(e, raws[..|raws| - 1]);
      && before.Replayed? && c == Consume(e, before.ram, raws[|raws| - 1], |raws|) && c.Kept?
      && Replay(e, raws) == Replayed(c.ram, before.outcomes + [c.outcome])
      && e.parse(raws[|raws| - 1], |raws| == 1) == Line(e, raws, |raws| - 1)
      && CountedTwice(e, raws) == CountedTwice(e, raws[..|raws| - 1]) + LateUnicode(Line(e, raws, |raws| - 1))
  {
    c := Consume(e, Replay(e, raws[..|raws| - 1]).ram, raws[|raws| - 1], |raws|);
  }
}
