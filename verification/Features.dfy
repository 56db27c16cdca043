/** Causal sequence features of encrypted sessions (src/aegisflow/passive_features.py). */
module Features {
  import opened Records
  import opened Quartiles

  datatype Config = Config(
    historyLength: Time, minimumBaseline: nat, minimumPrevalence: nat, maximumHistory: nat, maximumCohorts: nat,
    sequenceLength: nat, minimumPackets: nat, sizeFloor: real, timingFloor: real, anomalyScale: real, ceiling: real)

  /** What the configuration's constructor accepts. */
  predicate Accepted(c: Config) {
    && 2 <= c.minimumPackets <= c.sequenceLength <= 128
    && c.minimumBaseline >= 2 && c.minimumPrevalence >= 2
    && c.maximumHistory >= c.minimumBaseline && c.maximumHistory >= c.minimumPrevalence
    && c.maximumCohorts >= 1
    && c.historyLength > 0.0 && c.sizeFloor > 0.0 && c.timingFloor > 0.0 && c.anomalyScale > 0.0
    && 0.0 < c.ceiling <= 1.0
  }

  // ------------------------------------------------------------- a session

  datatype Packet = Malformed | Packet(timestamp: Time, bytes: int, fromOriginator: bool)
  datatype Observations = Absent | NotAList | Packets(list: seq<Packet>)
  datatype Identity = Identity(flowId: string, srcIp: string, dstIp: string)
  datatype Cohort = Cohort(sensor: string, transport: string, port: string, application: string, kind: string)

  /** An encrypted session's metadata. `suppliedComplete` and `suppliedInRange` say what its own feature values
      look like. */
  datatype Session = Session(
    timestamp: Time, sensor: string, transport: string, port: string, application: string,
    hasJa4: bool, hasJa3: bool, observedJa3: Option<string>, fingerprint: Option<string>, identity: Identity,
    observations: Observations, suppliedComplete: bool, suppliedInRange: bool)

  function KindOf(e: Session): string {
    if e.hasJa4 then "ja4" else if e.hasJa3 || e.observedJa3 == e.fingerprint then "ja3" else "unspecified"
  }

  function CohortOf(e: Session): Cohort {
    Cohort(e.sensor, e.transport, e.port, e.application, KindOf(e))
  }

  function Fingerprint(e: Session): string {
    e.fingerprint.GetOr("")
  }

  // ------------------------------------------------------- packet sequences

  datatype Vectors = Vectors(sizes: seq<real>, gaps: seq<real>)
  datatype Track = Track(sizes: seq<real>, times: seq<Time>)

  function TrackStep(t: Track, p: Packet, now: Time): Result<Track, string> {
    if p.Malformed? || !(0 < p.bytes <= 65575) then Err("packet_sequence_invalid")
    else if p.timestamp > now || (t.times != [] && p.timestamp < t.times[|t.times| - 1]) then Err("packet_sequence_time_invalid")
    else Ok(Track(t.sizes + [if p.fromOriginator then p.bytes as real else -(p.bytes as real)], t.times + [p.timestamp]))
  }

  function TrackOf(list: seq<Packet>, now: Time): (r: Result<Track, string>)
    ensures r.Ok? ==> |r.value.sizes| == |r.value.times| == |list|
  {
    if list == [] then Ok(Track([], []))
    else
      match TrackOf(list[..|list| - 1], now)
      case Err(e) => Err(e)
      case Ok(t) => TrackStep(t, list[|list| - 1], now)
  }

  /** The last packets: their signed sizes and the gaps between them. */
  function TailOf(c: Config, t: Track): Vectors
    requires Accepted(c) && |t.sizes| == |t.times| >= c.minimumPackets
  {
    var n := |t.sizes|;
    var count := if n < c.sequenceLength then n else c.sequenceLength;
    Vectors(t.sizes[n - count..],
            seq(count - 1, i requires 0 <= i < count - 1 => t.times[n - count + i + 1] - t.times[n - count + i]))
  }

  function SequenceVectors(c: Config, e: Session): (r: Result<Vectors, string>)
    requires Accepted(c)
    ensures r.Ok? ==> Shaped(r.value)
  {
    if !e.observations.Packets? || e.observations.list == [] then Err("packet_sequence_missing")
    else if |e.observations.list| > 128 then Err("packet_sequence_over_limit")
    else
      match TrackOf(e.observations.list, e.timestamp)
      case Err(reason) => Err(reason)
      case Ok(t) => if |t.sizes| < c.minimumPackets then Err("packet_sequence_too_short") else Ok(TailOf(c, t))
  }

  predicate Shaped(v: Vectors) {
    |v.sizes| >= 2 && |v.gaps| == |v.sizes| - 1
  }

  // --------------------------------------------------------------- baselines

  datatype Item = Item(timestamp: Time, fingerprint: string, vectors: Option<Vectors>, identity: Identity)

  function Named(history: seq<Item>): seq<Item> {
    if history == [] then []
    else
      var n := |history| - 1;
      if history[n].fingerprint != "" then Named(history[..n]) + [history[n]] else Named(history[..n])
  }

  function Alike(items: seq<Item>, fingerprint: string): (n: nat)
    ensures n <= |items|
  {
    if items == [] then 0
    else Alike(items[..|items| - 1], fingerprint) + (if items[|items| - 1].fingerprint == fingerprint then 1 else 0)
  }

  function Baselines(history: seq<Item>): seq<Vectors> {
    if history == [] then []
    else
      var n := |history| - 1;
      if history[n].vectors.Some? then Baselines(history[..n]) + [history[n].vectors.value] else Baselines(history[..n])
  }

  datatype Dimension = Sizes | Gaps

  function Row(v: Vectors, d: Dimension): seq<real> {
    if d == Sizes then v.sizes else v.gaps
  }

  /** The values other sessions show at one position. */
  function Column(baselines: seq<Vectors>, d: Dimension, position: nat): seq<real> {
    if baselines == [] then []
    else
      var n := |baselines| - 1;
      var row := Row(baselines[n], d);
      if |row| > position then Column(baselines[..n], d, position) + [row[position]] else Column(baselines[..n], d, position)
  }

  function Distance(a: real, b: real): real {
    if a < b then b - a else a - b
  }

  function Distances(values: seq<real>, center: real): seq<real> {
    seq(|values|, i requires 0 <= i < |values| => Distance(values[i], center))
  }

  /** How many robust scales a value lies from the median. */
  function Deviation(value: real, reference: seq<real>, floor: real): (r: real)
    requires reference != [] && floor > 0.0
    ensures r >= 0.0
  {
    var center := Median(reference);
    var scale := Max(1.4826 * Median(Distances(reference, center)), floor);
    Distance(value, center) / scale
  }

  function Deviations(c: Config, row: seq<real>, baselines: seq<Vectors>, d: Dimension, floor: real): (r: Option<seq<real>>)
    requires Accepted(c) && floor > 0.0
    ensures r.Some? ==> |r.value| == |row| && forall i :: 0 <= i < |row| ==> r.value[i] >= 0.0
  {
    if row == [] then Some([])
    else
      var n := |row| - 1;
      var reference := Column(baselines, d, n);
      match Deviations(c, row[..n], baselines, d, floor)
      case None => None
      case Some(done) =>
        if |reference| < c.minimumBaseline then None else Some(done + [Deviation(row[n], reference, floor)])
  }

  function Squash(c: Config, quartile: real): real
    requires Accepted(c)
  {
    RoundHalfEven(Min(1.0, quartile / c.anomalyScale) * 1000000.0) as real / 1000000.0
  }

  function Score(c: Config, row: seq<real>, baselines: seq<Vectors>, d: Dimension, floor: real): Option<real>
    requires Accepted(c) && floor > 0.0 && row != []
  {
    match Deviations(c, row, baselines, d, floor)
    case None => None
    case Some(deviations) => Some(Squash(c, UpperQuartile(deviations)))
  }

  // --------------------------------------------------------------- a verdict

  datatype Outcome = Derived | SuppliedCompatibility | Insufficient

  datatype Verdict = Verdict(
    outcome: Outcome, prevalence: Option<real>, sizeScore: Option<real>, timingScore: Option<real>,
    duplicate: bool, learned: Option<Item>)

  predicate Known(history: seq<Item>, id: Identity) {
    exists i | 0 <= i < |history| :: history[i].identity == id
  }

  function Prevalence(c: Config, history: seq<Item>, fingerprint: string): Option<real>
    requires Accepted(c)
  {
    var prior := Named(history);
    if fingerprint != "" && |prior| >= c.minimumPrevalence then Some(Alike(prior, fingerprint) as real / |prior| as real) else None
  }

  predicate SafeToLearn(c: Config, size: Option<real>, timing: Option<real>) {
    size.None? || timing.None? || Max(size.value, timing.value) < c.ceiling
  }

  /** The judgement over the cohort's history as it stands after eviction. */
  function Judge(c: Config, history: seq<Item>, e: Session, allowSupplied: bool): Verdict
    requires Accepted(c)
  {
    var duplicate := Known(history, e.identity);
    var prevalence := Prevalence(c, history, Fingerprint(e));
    var vectors := SequenceVectors(c, e);
    var baselines := Baselines(history);
    var scored := vectors.Ok? && |baselines| >= c.minimumBaseline;
    var size := if scored then Score(c, vectors.value.sizes, baselines, Sizes, c.sizeFloor) else None;
    var timing := if scored then Score(c, vectors.value.gaps, baselines, Gaps, c.timingFloor) else None;
    var available := prevalence.Some? && size.Some? && timing.Some? && !duplicate;
    var suppliedValid := e.suppliedComplete && Fingerprint(e) != "" && e.suppliedInRange;
    var outcome :=
      if available then Derived
      else if allowSupplied && suppliedValid && e.observations.Absent? && !duplicate then SuppliedCompatibility
      else Insufficient;
    var safe := SafeToLearn(c, size, timing);
    var learned := if vectors.Ok? then Some(vectors.value) else None;
    Verdict(outcome, prevalence, size, timing, duplicate,
            if !duplicate && safe then Some(Item(e.timestamp, Fingerprint(e), learned, e.identity)) else None)
  }

  // --------------------------------------------------------------- the state

  datatype Counts = Counts(observations: nat, derived: nat, supplied: nat, insufficient: nat, evicted: nat, excluded: nat)

  /** Cohorts from least to most recently used. */
  datatype State = State(order: seq<Cohort>, histories: map<Cohort, seq<Item>>, counts: Counts)

  const EMPTY: State := State([], map[], Counts(0, 0, 0, 0, 0, 0))

  function Remove(order: seq<Cohort>, c: Cohort): seq<Cohort> {
    if order == [] then []
    else if order[0] == c then order[1..]
    else [order[0]] + Remove(order[1..], c)
  }

  /** Room for the cohort, at the recently used end. */
  function Touch(c: Config, s: State, cohort: Cohort): State
    requires Accepted(c)
  {
    if cohort in s.histories then s.(order := Remove(s.order, cohort) + [cohort])
    else if |s.order| >= c.maximumCohorts && s.order != [] then
      State(s.order[1..] + [cohort], (s.histories - {s.order[0]})[cohort := []], s.counts.(evicted := s.counts.evicted + 1))
    else State(s.order + [cohort], s.histories[cohort := []], s.counts)
  }

  function Recent(history: seq<Item>, cutoff: Time): seq<Item> {
    if history != [] && history[0].timestamp < cutoff then Recent(history[1..], cutoff) else history
  }

  function Push(history: seq<Item>, item: Item, limit: nat): seq<Item> {
    var longer := history + [item];
    if |longer| > limit then longer[|longer| - limit..] else longer
  }

  function Tally(counts: Counts, v: Verdict): Counts {
    var k := counts.(observations := counts.observations + 1,
                     excluded := counts.excluded + (if !v.duplicate && v.learned.None? then 1 else 0));
    match v.outcome
    case Derived => k.(derived := k.derived + 1)
    case SuppliedCompatibility => k.(supplied := k.supplied + 1)
    case Insufficient => k.(insufficient := k.insufficient + 1)
  }

  function HistoryFor(c: Config, s: State, e: Session): seq<Item>
  {
    Recent(if CohortOf(e) in s.histories then s.histories[CohortOf(e)] else [], e.timestamp - c.historyLength)
  }

  function VerdictOn(c: Config, s: State, e: Session, allowSupplied: bool): Verdict
    requires Accepted(c)
  {
    Judge(c, HistoryFor(c, s, e), e, allowSupplied)
  }

  function Learn(c: Config, history: seq<Item>, v: Verdict): seq<Item> {
    if v.learned.Some? then Push(history, v.learned.value, c.maximumHistory) else history
  }

  function Enrich(c: Config, s: State, e: Session, allowSupplied: bool): State
    requires Accepted(c)
  {
    var v := VerdictOn(c, s, e, allowSupplied);
    var touched := Touch(c, s, CohortOf(e));
    State(touched.order, touched.histories[CohortOf(e) := Learn(c, HistoryFor(c, s, e), v)], Tally(touched.counts, v))
  }

  // ------------------------------------------------------------- the extractor

  method ScanPackets(list: seq<Packet>, now: Time) returns (r: Result<Track, string>)
    ensures r == TrackOf(list, now)
  {
    var sizes: seq<real>, times: seq<Time> := [], [];
    for i := 0 to |list|
      invariant TrackOf(list[..i], now) == Ok(Track(sizes, times))
    {
      TrackPrefix(list, now, i);
      var p := list[i];
      if p.Malformed? || !(0 < p.bytes <= 65575) {
        return Err("packet_sequence_invalid");
      }
      if p.timestamp > now || (times != [] && p.timestamp < times[|times| - 1]) {
        return Err("packet_sequence_time_invalid");
      }
      sizes := sizes + [if p.fromOriginator then p.bytes as real else -(p.bytes as real)];
      times := times + [p.timestamp];
    }
    assert list[..|list|] == list;
    r := Ok(Track(sizes, times));
  }

  lemma TrackPrefix(list: seq<Packet>, now: Time, i: nat)
    requires i < |list| && TrackOf(list[..i], now).Ok?
    ensures var step := TrackStep(TrackOf(list[..i], now).value, list[i], now);
      TrackOf(list[..i + 1], now) == step && (step.Err? ==> TrackOf(list, now) == step)
  {
    assert list[..i + 1][..i] == list[..i];
    TrackErrorStays(list, now, i + 1);
  }

  lemma {:induction false} TrackErrorStays(list: seq<Packet>, now: Time, n: nat)
    requires n <= |list|
    ensures TrackOf(list[..n], now).Err? ==> TrackOf(list, now) == TrackOf(list[..n], now)
  {
    if n == |list| {
      assert list[..n] == list;
    } else {
      TrackErrorStays(list[..|list| - 1], now, n);
      assert list[..|list| - 1][..n] == list[..n];
    }
  }

  method ScoreRow(c: Config, row: seq<real>, baselines: seq<Vectors>, d: Dimension, floor: real) returns (r: Option<real>)
    requires Accepted(c) && floor > 0.0 && row != []
    ensures r == Score(c, row, baselines, d, floor)
  {
    var deviations: seq<real> := [];
    for position := 0 to |row|
      invariant Deviations(c, row[..position], baselines, d, floor) == Some(deviations)
    {
      DeviationsStep(c, row, baselines, d, floor, position);
      var reference := Column(baselines, d, position);
      if |reference| < c.minimumBaseline {
        return None;
      }
      deviations := deviations + [Deviation(row[position], reference, floor)];
    }
    assert row[..|row|] == row;
    r := Some(Squash(c, UpperQuartile(deviations)));
  }

  lemma DeviationsSnoc(c: Config, init: seq<real>, x: real, row: seq<real>, baselines: seq<Vectors>, d: Dimension, floor: real)
    requires Accepted(c) && floor > 0.0 && row == init + [x] && Deviations(c, init, baselines, d, floor).Some?
    ensures var reference := Column(baselines, d, |init|);
      Deviations(c, row, baselines, d, floor) ==
        if |reference| < c.minimumBaseline then None
        else Some(Deviations(c, init, baselines, d, floor).value + [Deviation(x, reference, floor)])
  {
    assert row[..|init|] == init && row[|init|] == x;
  }

  lemma DeviationsStep(c: Config, row: seq<real>, baselines: seq<Vectors>, d: Dimension, floor: real, n: nat)
    requires Accepted(c) && floor > 0.0 && n < |row| && Deviations(c, row[..n], baselines, d, floor).Some?
    ensures var reference := Column(baselines, d, n); var done := Deviations(c, row[..n], baselines, d, floor).value;
      if |reference| < c.minimumBaseline then Deviations(c, row, baselines, d, floor).None?
      else Deviations(c, row[..n + 1], baselines, d, floor) == Some(done + [Deviation(row[n], reference, floor)])
  {
    DeviationsSnoc(c, row[..n], row[n], row[..n + 1], baselines, d, floor);
    if |Column(baselines, d, n)| < c.minimumBaseline {
      NoneStays(c, row, baselines, d, floor, n + 1);
    }
  }

  lemma {:induction false} NoneStays(c: Config, row: seq<real>, baselines: seq<Vectors>, d: Dimension, floor: real, n: nat)
    requires Accepted(c) && floor > 0.0 && n <= |row| && Deviations(c, row[..n], baselines, d, floor).None?
    ensures Deviations(c, row, baselines, d, floor).None?
  {
    if n == |row| {
      assert row[..n] == row;
    } else {
      assert row[..|row| - 1][..n] == row[..n];
      NoneStays(c, row[..|row| - 1], baselines, d, floor, n);
    }
  }

  class PassiveFeatureExtractor {
    const config: Config
    var order: seq<Cohort>
    var histories: map<Cohort, seq<Item>>
    var counts: Counts

    ghost function Now(): State
      reads this
    {
      State(order, histories, counts)
    }

    constructor (config: Config)
      requires Accepted(config)
      ensures this.config == config && Now() == EMPTY
    {
      this.config := config;
      order, histories, counts := [], map[], Counts(0, 0, 0, 0, 0, 0);
    }

    method EnrichSession(e: Session, allowSupplied: bool) returns (v: Verdict)
      requires Accepted(config)
      modifies this
      ensures v == VerdictOn(config, old(Now()), e, allowSupplied)
      ensures Now() == Enrich(config, old(Now()), e, allowSupplied)
    {
      ghost var before := Now();
      var cohort := CohortOf(e);
      if cohort !in histories {
        if |order| >= config.maximumCohorts && order != [] {
          histories := histories - {order[0]};
          order := order[1..];
          counts := counts.(evicted := counts.evicted + 1);
        }
        histories := histories[cohort := []];
        order := order + [cohort];
      } else {
        order := Remove(order, cohort) + [cohort];
      }
      assert Now() == Touch(config, before, cohort);
      var history := histories[cohort];
      while history != [] && history[0].timestamp < e.timestamp - config.historyLength
        invariant Recent(history, e.timestamp - config.historyLength) == HistoryFor(config, before, e)
        decreases |history|
      {
        history := history[1..];
      }
      v := Weigh(config, history, e, allowSupplied);
      if v.learned.Some? {
        history := Push(history, v.learned.value, config.maximumHistory);
      }
      histories := histories[cohort := history];
      counts := Tally(counts, v);
    }
  }

  method Weigh(c: Config, history: seq<Item>, e: Session, allowSupplied: bool) returns (v: Verdict)
    requires Accepted(c)
    ensures v == Judge(c, history, e, allowSupplied)
  {
    var duplicate := Known(history, e.identity);
    var prevalence := Prevalence(c, history, Fingerprint(e));
    var vectors := VectorsOf(c, e);
    var baselines := Baselines(history);
    var size: Option<real>, timing: Option<real> := None, None;
    if vectors.Ok? && |baselines| >= c.minimumBaseline {
      size := ScoreRow(c, vectors.value.sizes, baselines, Sizes, c.sizeFloor);
      timing := ScoreRow(c, vectors.value.gaps, baselines, Gaps, c.timingFloor);
    }
    var outcome := Insufficient;
    if prevalence.Some? && size.Some? && timing.Some? && !duplicate {
      outcome := Derived;
    } else if allowSupplied && e.suppliedComplete && Fingerprint(e) != "" && e.suppliedInRange
              && e.observations.Absent? && !duplicate {
      outcome := SuppliedCompatibility;
    }
    var learned := None;
    if !duplicate && SafeToLearn(c, size, timing) {
      learned := Some(Item(e.timestamp, Fingerprint(e), if vectors.Ok? then Some(vectors.value) else None, e.identity));
    }
    v := Verdict(outcome, prevalence, size, timing, duplicate, learned);
  }

  method VectorsOf(c: Config, e: Session) returns (r: Result<Vectors, string>)
    requires Accepted(c)
    ensures r == SequenceVectors(c, e)
  {
    if !e.observations.Packets? || e.observations.list == [] {
      return Err("packet_sequence_missing");
    }
    if |e.observations.list| > 128 {
      return Err("packet_sequence_over_limit");
    }
    var t := ScanPackets(e.observations.list, e.timestamp);
    if t.Err? {
      return Err(t.error);
    }
    if |t.value.sizes| < c.minimumPackets {
      return Err("packet_sequence_too_short");
    }
    r := Ok(TailOf(c, t.value));
  }
}
