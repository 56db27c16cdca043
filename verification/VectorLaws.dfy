/** What a verdict shows of the session's own packets and of the cohort's history (src/aegisflow/passive_features.py). */
module VectorLaws {
  import opened Records
  import opened Ordering
  import opened Quartiles
  import opened Features
  import opened FeatureLaws

  // ------------------------------------------------------------- own packets

  /** Every packet readable and of a possible size, none after the session's time, and the times never going back. */
  ghost predicate WellObserved(list: seq<Packet>, now: Time) {
    && (forall i :: 0 <= i < |list| ==> list[i].Packet? && 0 < list[i].bytes <= 65575 && list[i].timestamp <= now)
    && (forall i, j :: 0 <= i < j < |list| ==> list[i].timestamp <= list[j].timestamp)
  }

  /** Sent bytes count up, received bytes down. */
  function Signed(p: Packet): real
    requires p.Packet?
  {
    if p.fromOriginator then p.bytes as real else -(p.bytes as real)
  }

  /** The track of these packets, one by one. */
  ghost predicate Tracks(t: Track, list: seq<Packet>) {
    && |t.sizes| == |t.times| == |list|
    && forall i :: 0 <= i < |list| ==> list[i].Packet? && t.sizes[i] == Signed(list[i]) && t.times[i] == list[i].timestamp
  }

  lemma {:induction false} TrackedIff(list: seq<Packet>, now: Time)
    ensures TrackOf(list, now).Ok? <==> WellObserved(list, now)
    ensures TrackOf(list, now).Ok? ==> Tracks(TrackOf(list, now).value, list)
  {
    if list == [] {
    } else {
      var n := |list| - 1;
      TrackedIff(list[..n], now);
      FewerObserved(list, n, now);
      if TrackOf(list[..n], now).Ok? {
        LastTracked(list, now, TrackOf(list[..n], now).value);
      }
    }
  }

  lemma FewerObserved(list: seq<Packet>, n: nat, now: Time)
    requires n <= |list|
    ensures WellObserved(list, now) ==> WellObserved(list[..n], now)
  {
  }

  lemma LastTracked(list: seq<Packet>, now: Time, t: Track)
    requires list != [] && WellObserved(list[..|list| - 1], now) && Tracks(t, list[..|list| - 1])
    ensures TrackStep(t, list[|list| - 1], now).Ok? <==> WellObserved(list, now)
    ensures TrackStep(t, list[|list| - 1], now).Ok? ==> Tracks(TrackStep(t, list[|list| - 1], now).value, list)
  {
    var n := |list| - 1;
    assert forall i :: 0 <= i < n ==> list[..n][i] == list[i];
    if n > 0 {
      assert t.times[n - 1] == list[n - 1].timestamp;
    }
  }

  /** The last packets, as many as a sequence holds. */
  function LastPackets(list: seq<Packet>, n: nat): seq<Packet> {
    if |list| <= n then list else list[|list| - n..]
  }

  /** The sizes are those of these packets, the gaps the times between neighbours. */
  ghost predicate Describes(v: Vectors, tail: seq<Packet>) {
    && |v.sizes| == |tail| && |v.gaps| == |tail| - 1
    && (forall i :: 0 <= i < |tail| ==> tail[i].Packet? && v.sizes[i] == Signed(tail[i]))
    && (forall i :: 0 <= i < |tail| - 1 ==> v.gaps[i] == tail[i + 1].timestamp - tail[i].timestamp)
  }

  /** A session has vectors exactly if its packets are well observed, not too few and at most 128; they describe its
      last packets, up to the sequence length. */
  lemma VectorsDescribeTheTail(c: Config, e: Session)
    requires Accepted(c)
    ensures SequenceVectors(c, e).Ok? <==>
      && e.observations.Packets? && c.minimumPackets <= |e.observations.list| <= 128
      && WellObserved(e.observations.list, e.timestamp)
    ensures SequenceVectors(c, e).Ok? ==>
      Describes(SequenceVectors(c, e).value, LastPackets(e.observations.list, c.sequenceLength))
  {
    if e.observations.Packets? {
      var list := e.observations.list;
      TrackedIff(list, e.timestamp);
      if SequenceVectors(c, e).Ok? {
        TailDescribes(c, list, TrackOf(list, e.timestamp).value);
      }
    }
  }

  lemma TailDescribes(c: Config, list: seq<Packet>, t: Track)
    requires Accepted(c) && Tracks(t, list) && |list| >= c.minimumPackets
    ensures Describes(TailOf(c, t), LastPackets(list, c.sequenceLength))
  {
    var k := if |list| <= c.sequenceLength then 0 else |list| - c.sequenceLength;
    assert LastPackets(list, c.sequenceLength) == list[k..];
    SizesDescribe(list, t, k);
    forall i | 0 <= i < |list| - k - 1 ensures t.times[k + i + 1] - t.times[k + i] == list[k..][i + 1].timestamp - list[k..][i].timestamp {
      GapIs(list, t, k, i);
    }
  }

  lemma SizesDescribe(list: seq<Packet>, t: Track, k: nat)
    requires Tracks(t, list) && k <= |list|
    ensures |t.sizes[k..]| == |list[k..]|
    ensures forall i :: 0 <= i < |list[k..]| ==> list[k..][i].Packet? && t.sizes[k..][i] == Signed(list[k..][i])
  {
  }

  lemma GapIs(list: seq<Packet>, t: Track, k: nat, i: nat)
    requires Tracks(t, list) && k + i + 1 < |list|
    ensures list[k..][i].Packet? && list[k..][i + 1].Packet?
    ensures t.times[k + i + 1] - t.times[k + i] == list[k..][i + 1].timestamp - list[k..][i].timestamp
  {
    assert list[k..][i] == list[k + i] && list[k..][i + 1] == list[k + i + 1];
  }

  /** The same packets, all later by as much. */
  ghost predicate Shifted(a: seq<Packet>, b: seq<Packet>, shift: Time) {
    && |a| == |b|
    && forall i :: 0 <= i < |a| ==> a[i].Packet? && b[i].Packet? && b[i] == a[i].(timestamp := a[i].timestamp + shift)
  }

  /** Two sessions have the same vectors exactly if their last packets are the same but for a common shift in time:
      earlier packets do not count, and of the last ones every size, direction and distance does. */
  lemma VectorsRememberTheTail(c: Config, e: Session, f: Session)
    requires Accepted(c) && SequenceVectors(c, e).Ok? && SequenceVectors(c, f).Ok?
    ensures SequenceVectors(c, e) == SequenceVectors(c, f) <==> exists shift: Time ::
      Shifted(LastPackets(e.observations.list, c.sequenceLength), LastPackets(f.observations.list, c.sequenceLength), shift)
  {
    VectorsDescribeTheTail(c, e);
    VectorsDescribeTheTail(c, f);
    DescribedAlike(SequenceVectors(c, e).value, LastPackets(e.observations.list, c.sequenceLength),
                   SequenceVectors(c, f).value, LastPackets(f.observations.list, c.sequenceLength));
  }

  /** No packet is empty. */
  ghost predicate Positive(list: seq<Packet>) {
    forall i :: 0 <= i < |list| ==> list[i].Packet? && list[i].bytes > 0
  }

  lemma DescribedAlike(v: Vectors, a: seq<Packet>, w: Vectors, b: seq<Packet>)
    requires Describes(v, a) && Describes(w, b) && Positive(a) && Positive(b)
    ensures v == w <==> exists shift: Time :: Shifted(a, b, shift)
  {
    if v == w {
      var shift := b[0].timestamp - a[0].timestamp;
      forall i | 0 <= i < |a| ensures b[i] == a[i].(timestamp := a[i].timestamp + shift) {
        assert v.sizes[i] == Signed(a[i]) == Signed(b[i]);
        SameShift(v, a, b, i);
      }
      assert Shifted(a, b, shift);
    }
    if shift: Time :| Shifted(a, b, shift) {
      assert v.sizes == w.sizes;
      forall i | 0 <= i < |v.gaps| ensures v.gaps[i] == w.gaps[i] {
        assert b[i] == a[i].(timestamp := a[i].timestamp + shift) && b[i + 1] == a[i + 1].(timestamp := a[i + 1].timestamp + shift);
      }
    }
  }

  lemma {:induction false} SameShift(v: Vectors, a: seq<Packet>, b: seq<Packet>, i: nat)
    requires Describes(v, a) && Describes(v, b) && i < |a|
    ensures b[i].timestamp - a[i].timestamp == b[0].timestamp - a[0].timestamp
  {
    if i > 0 {
      SameShift(v, a, b, i - 1);
      assert v.gaps[i - 1] == a[i].timestamp - a[i - 1].timestamp == b[i].timestamp - b[i - 1].timestamp;
    }
  }

  // -------------------------------------------------------------- prevalence

  /** The places in a history where a fingerprint is named. */
  ghost function NamedAt(history: seq<Item>): set<nat> {
    set i: nat | i < |history| && history[i].fingerprint != ""
  }

  /** The places where it is this one. */
  ghost function SharedAt(history: seq<Item>, fingerprint: string): set<nat> {
    set i: nat | i < |history| && history[i].fingerprint == fingerprint
  }

  /** One place more or none. */
  lemma PlacesGrow(before: set<nat>, after: set<nat>, n: nat, hit: bool)
    requires n !in before && forall i :: i in after <==> i in before || (hit && i == n)
    ensures |after| == |before| + (if hit then 1 else 0)
  {
    if hit {
      assert after == before + {n};
    } else {
      assert after == before;
    }
  }

  lemma {:induction false} NamedCount(history: seq<Item>)
    ensures |Named(history)| == |NamedAt(history)|
  {
    if history == [] {
      assert NamedAt(history) == {};
    } else {
      var n := |history| - 1;
      NamedCount(history[..n]);
      PlacesGrow(NamedAt(history[..n]), NamedAt(history), n, history[n].fingerprint != "");
    }
  }

  lemma AlikeNext(items: seq<Item>, item: Item, fingerprint: string)
    ensures Alike(items + [item], fingerprint) == Alike(items, fingerprint) + (if item.fingerprint == fingerprint then 1 else 0)
  {
    assert (items + [item])[..|items|] == items;
  }

  lemma SharedNext(history: seq<Item>, n: nat, fingerprint: string)
    requires n + 1 == |history|
    ensures |SharedAt(history, fingerprint)| ==
      |SharedAt(history[..n], fingerprint)| + (if history[n].fingerprint == fingerprint then 1 else 0)
  {
    PlacesGrow(SharedAt(history[..n], fingerprint), SharedAt(history, fingerprint), n, history[n].fingerprint == fingerprint);
  }

  lemma {:induction false} SharedCount(history: seq<Item>, fingerprint: string)
    requires fingerprint != ""
    ensures Alike(Named(history), fingerprint) == |SharedAt(history, fingerprint)|
  {
    if history == [] {
      assert SharedAt(history, fingerprint) == {};
    } else {
      var n := |history| - 1;
      SharedCount(history[..n], fingerprint);
      SharedNext(history, n, fingerprint);
      AlikeNext(Named(history[..n]), history[n], fingerprint);
    }
  }

  /** A share: so many of so many. */
  ghost predicate Share(p: real, part: nat, whole: nat) {
    whole > 0 && p * whole as real == part as real
  }

  lemma Quotient(part: nat, whole: nat)
    requires whole > 0
    ensures Share(part as real / whole as real, part, whole)
  {
  }

  lemma ShareOf(c: Config, h: seq<Item>, fingerprint: string)
    requires Accepted(c)
    ensures Prevalence(c, h, fingerprint).Some? <==> fingerprint != "" && |NamedAt(h)| >= c.minimumPrevalence
    ensures Prevalence(c, h, fingerprint).Some? ==>
      Share(Prevalence(c, h, fingerprint).value, |SharedAt(h, fingerprint)|, |NamedAt(h)|)
  {
    NamedCount(h);
    if fingerprint != "" && |Named(h)| >= c.minimumPrevalence {
      SharedCount(h, fingerprint);
      Quotient(Alike(Named(h), fingerprint), |Named(h)|);
    }
  }

  /** The prevalence is the share of the session's fingerprint among the sessions of its baseline that name one; a
      session without one has none, nor has one with too few to compare with. */
  lemma PrevalenceIsShare(c: Config, s: State, e: Session, allowSupplied: bool, h: seq<Item>, p: Option<real>)
    requires Accepted(c) && h == HistoryFor(c, s, e) && p == VerdictOn(c, s, e, allowSupplied).prevalence
    ensures p.Some? <==> e.fingerprint.Some? && e.fingerprint.value != "" && |NamedAt(h)| >= c.minimumPrevalence
    ensures p.Some? ==> Share(p.value, |SharedAt(h, e.fingerprint.value)|, |NamedAt(h)|)
  {
    ShareOf(c, h, Fingerprint(e));
    assert p == Prevalence(c, h, Fingerprint(e));
  }

  // ------------------------------------------------------------------ scores

  /** The places in a history where a sequence of so many packets stands. */
  ghost function LongAt(history: seq<Item>, n: nat): set<nat> {
    set i: nat | i < |history| && history[i].vectors.Some? && |history[i].vectors.value.sizes| >= n
  }

  lemma LongNext(history: seq<Item>, k: nat, n: nat)
    requires k + 1 == |history|
    ensures var item := history[k];
      |LongAt(history, n)| == |LongAt(history[..k], n)| + (if item.vectors.Some? && |item.vectors.value.sizes| >= n then 1 else 0)
  {
    PlacesGrow(LongAt(history[..k], n), LongAt(history, n), k,
               history[k].vectors.Some? && |history[k].vectors.value.sizes| >= n);
  }

  lemma LongerNext(baselines: seq<Vectors>, v: Vectors, k: int)
    ensures Longer(baselines + [v], k) == Longer(baselines, k) + (if |v.sizes| > k then 1 else 0)
  {
    assert (baselines + [v])[..|baselines|] == baselines;
  }

  lemma {:induction false} LongCount(history: seq<Item>, n: nat)
    ensures Longer(Baselines(history), n - 1) == |LongAt(history, n)| <= |Baselines(history)|
  {
    if history == [] {
      assert LongAt(history, n) == {};
    } else {
      var k := |history| - 1;
      LongCount(history[..k], n);
      LongNext(history, k, n);
      if history[k].vectors.Some? {
        LongerNext(Baselines(history[..k]), history[k].vectors.value, n - 1);
      }
    }
  }

  lemma EnoughIff(c: Config, history: seq<Item>, row: seq<real>)
    requires Accepted(c) && HistoryFine(c, history) && row != []
    ensures var baselines := Baselines(history);
      |baselines| >= c.minimumBaseline && Score(c, row, baselines, Sizes, c.sizeFloor).Some? <==> |LongAt(history, |row|)| >= c.minimumBaseline
  {
    BaselinesShaped(history);
    LongCount(history, |row|);
    ScoredIff(c, row, Baselines(history), Sizes, c.sizeFloor);
  }

  lemma SizeScoreIs(c: Config, history: seq<Item>, e: Session, allowSupplied: bool, row: seq<real>, baselines: seq<Vectors>)
    requires Accepted(c) && baselines == Baselines(history)
    requires SequenceVectors(c, e).Ok? ==> row == SequenceVectors(c, e).value.sizes && row != []
    ensures Judge(c, history, e, allowSupplied).sizeScore ==
      if SequenceVectors(c, e).Ok? && |baselines| >= c.minimumBaseline then Score(c, row, baselines, Sizes, c.sizeFloor) else None
  {
  }

  /** In every reachable state a session is scored exactly if it has vectors and enough sessions of its baseline
      show as many packets. */
  lemma ScoredIffEnough(c: Config, steps: seq<Step>, e: Session, allowSupplied: bool, history: seq<Item>)
    requires Accepted(c) && history == HistoryFor(c, Run(c, steps), e)
    ensures VerdictOn(c, Run(c, steps), e, allowSupplied).sizeScore.Some? <==>
        && SequenceVectors(c, e).Ok?
        && |LongAt(history, |SequenceVectors(c, e).value.sizes|)| >= c.minimumBaseline
  {
    EveryRunIsBounded(c, steps);
    HistoryIsFine(c, Run(c, steps), e);
    var row := if SequenceVectors(c, e).Ok? then SequenceVectors(c, e).value.sizes else [0.0];
    EnoughIff(c, history, row);
    SizeScoreIs(c, history, e, allowSupplied, row, Baselines(history));
  }

  /** Against values that are all the same, the floor is the scale. */
  lemma DeviationFromConstant(value: real, reference: seq<real>, x: real, floor: real)
    requires reference != [] && floor > 0.0 && forall i :: 0 <= i < |reference| ==> reference[i] == x
    ensures Deviation(value, reference, floor) == Distance(value, x) / floor
  {
    Equal(reference, x);
    Equal(Distances(reference, x), 0.0);
  }

  /** Against values half of them low and half high, the scale is 1.4826 times half their distance, or the floor. */
  lemma DeviationFromHalves(value: real, reference: seq<real>, low: real, high: real, m: nat, floor: real)
    requires m > 0 && low <= high && floor > 0.0 && multiset(reference) == multiset(Halves(low, high, m))
    ensures reference != []
    ensures Deviation(value, reference, floor) ==
      Distance(value, (low + high) / 2.0) / Max(1.4826 * ((high - low) / 2.0), floor)
  {
    MedianOfHalves(reference, low, high, m);
    var center, half := (low + high) / 2.0, (high - low) / 2.0;
    Equal(Distances(reference, center), half);
  }

  lemma {:induction false} ConstantColumn(baselines: seq<Vectors>, w: Vectors, d: Dimension, position: nat)
    requires position < |Row(w, d)| && forall i :: 0 <= i < |baselines| ==> baselines[i] == w
    ensures |Column(baselines, d, position)| == |baselines|
    ensures forall i :: 0 <= i < |baselines| ==> Column(baselines, d, position)[i] == Row(w, d)[position]
  {
    if baselines == [] {
    } else {
      ConstantColumn(baselines[..|baselines| - 1], w, d, position);
    }
  }

  lemma UniformDeviation(c: Config, row: seq<real>, baselines: seq<Vectors>, w: Vectors, d: Dimension, floor: real, floors: real, q: nat)
    requires Accepted(c) && floor > 0.0 && q < |row| == |Row(w, d)| && |baselines| >= c.minimumBaseline
    requires forall i :: 0 <= i < |baselines| ==> baselines[i] == w
    requires Distance(row[q], Row(w, d)[q]) / floor == floors && Deviations(c, row, baselines, d, floor).Some?
    ensures Deviations(c, row, baselines, d, floor).value[q] == floors
  {
    DeviationsAre(c, row, baselines, d, floor, q);
    ConstantColumn(baselines, w, d, q);
    DeviationFromConstant(row[q], Column(baselines, d, q), Row(w, d)[q], floor);
  }

  lemma ConstantIsEnough(c: Config, row: seq<real>, baselines: seq<Vectors>, w: Vectors, d: Dimension, floor: real)
    requires Accepted(c) && floor > 0.0 && |row| == |Row(w, d)| && |baselines| >= c.minimumBaseline
    requires forall i :: 0 <= i < |baselines| ==> baselines[i] == w
    ensures Deviations(c, row, baselines, d, floor).Some?
  {
    forall q | 0 <= q < |row| ensures |Column(baselines, d, q)| >= c.minimumBaseline {
      ConstantColumn(baselines, w, d, q);
    }
    DeviationsExist(c, row, baselines, d, floor);
  }

  lemma SquashIsShare(c: Config, floors: real, share: real)
    requires Accepted(c) && share == Min(1.0, floors / c.anomalyScale)
    ensures -0.0000005 <= Squash(c, floors) - share <= 0.0000005
  {
    RoundIsNear(share * 1000000.0);
    assert Squash(c, floors) == RoundHalfEven(share * 1000000.0) as real / 1000000.0;
  }

  lemma ScoreOfUniform(c: Config, row: seq<real>, baselines: seq<Vectors>, d: Dimension, floor: real, floors: real)
    requires Accepted(c) && floor > 0.0 && row != [] && Deviations(c, row, baselines, d, floor).Some?
    requires forall q :: 0 <= q < |row| ==> Deviations(c, row, baselines, d, floor).value[q] == floors
    ensures Score(c, row, baselines, d, floor) == Some(Squash(c, floors))
  {
    Equal(Deviations(c, row, baselines, d, floor).value, floors);
  }

  /** Against sequences that are all the same, a session that departs from them by so many floors at every position
      is scored at that number over the anomaly scale, one at most, to six decimals; one that is the same as they
      are is scored zero. */
  lemma UniformDeparture(c: Config, row: seq<real>, baselines: seq<Vectors>, w: Vectors, d: Dimension, floor: real, floors: real, share: real)
    requires Accepted(c) && floor > 0.0 && row != [] && |row| == |Row(w, d)| && |baselines| >= c.minimumBaseline
    requires forall i :: 0 <= i < |baselines| ==> baselines[i] == w
    requires forall q :: 0 <= q < |row| ==> Distance(row[q], Row(w, d)[q]) / floor == floors
    requires share == Min(1.0, floors / c.anomalyScale)
    ensures Score(c, row, baselines, d, floor).Some?
    ensures -0.0000005 <= Score(c, row, baselines, d, floor).value - share <= 0.0000005
  {
    ConstantIsEnough(c, row, baselines, w, d, floor);
    forall q | 0 <= q < |row| ensures Deviations(c, row, baselines, d, floor).value[q] == floors {
      UniformDeviation(c, row, baselines, w, d, floor, floors, q);
    }
    ScoreOfUniform(c, row, baselines, d, floor, floors);
    SquashIsShare(c, floors, share);
  }

  lemma NoDistance(x: real, floor: real)
    requires floor > 0.0
    ensures Distance(x, x) / floor == 0.0
  {
  }

  lemma ZeroStays(c: Config)
    requires Accepted(c)
    ensures Squash(c, 0.0) == 0.0
  {
    assert 0.0 / c.anomalyScale == 0.0;
    assert RoundHalfEven(0.0) == 0;
  }

  /** A session that is the same as all it is compared with shows no anomaly. */
  lemma SameIsNoAnomaly(c: Config, row: seq<real>, baselines: seq<Vectors>, w: Vectors, d: Dimension, floor: real)
    requires Accepted(c) && floor > 0.0 && row != [] && row == Row(w, d) && |baselines| >= c.minimumBaseline
    requires forall i :: 0 <= i < |baselines| ==> baselines[i] == w
    ensures Score(c, row, baselines, d, floor) == Some(0.0)
  {
    ConstantIsEnough(c, row, baselines, w, d, floor);
    forall q | 0 <= q < |row| ensures Deviations(c, row, baselines, d, floor).value[q] == 0.0 {
      NoDistance(row[q], floor);
      UniformDeviation(c, row, baselines, w, d, floor, 0.0, q);
    }
    ScoreOfUniform(c, row, baselines, d, floor, 0.0);
    ZeroStays(c);
  }

  // ------------------------------------------------------ outcome and learning

  /** Derived features need all three values and no duplicate; supplied ones are let through only on request, valid,
      named, and in place of packets that were not observed at all; everything else is insufficient. */
  lemma OutcomeMeans(c: Config, s: State, e: Session, allowSupplied: bool, v: Verdict)
    requires Accepted(c) && v == VerdictOn(c, s, e, allowSupplied)
    ensures v.outcome == Derived <==> v.prevalence.Some? && v.sizeScore.Some? && v.timingScore.Some? && !v.duplicate
    ensures v.outcome == SuppliedCompatibility <==>
      && allowSupplied && e.suppliedComplete && e.suppliedInRange && e.fingerprint.Some? && e.fingerprint.value != ""
      && e.observations == Absent && !v.duplicate
  {
    VectorsDescribeTheTail(c, e);
  }

  lemma PushIsLast(h: seq<Item>, item: Item, limit: nat, after: seq<Item>, n: nat)
    requires after == Push(h, item, limit) && |h| <= limit && limit > 0 && n == (if |h| < limit then |h| else limit - 1)
    ensures after == h[|h| - n..] + [item]
  {
  }

  /** What is learned is the session's own time, fingerprint, vectors and identity; it comes after the latest of what
      was there, the oldest item making room at the limit. */
  lemma LearnedComesLast(c: Config, s: State, e: Session, allowSupplied: bool, v: Verdict, h: seq<Item>, n: nat, vectors: Result<Vectors, string>)
    requires Accepted(c) && Bounded(c, s) && h == HistoryFor(c, s, e) && v == VerdictOn(c, s, e, allowSupplied)
    requires !v.duplicate && !Suspicious(c, v) && n == (if |h| < c.maximumHistory then |h| else c.maximumHistory - 1)
    requires vectors == SequenceVectors(c, e)
    ensures n <= |h| && HistoryOf(Enrich(c, s, e, allowSupplied), CohortOf(e)) ==
      h[|h| - n..] + [Item(e.timestamp, e.fingerprint.GetOr(""), if vectors.Ok? then Some(vectors.value) else None, e.identity)]
  {
    HistoryIsFine(c, s, e);
    Enriched(c, s, e, allowSupplied, h, v);
    var after := Learn(c, h, v);
    LearnedItem(c, s, e, allowSupplied, v);
    assert v.learned == Some(Item(e.timestamp, e.fingerprint.GetOr(""), if vectors.Ok? then Some(vectors.value) else None, e.identity));
    PushIsLast(h, v.learned.value, c.maximumHistory, after, n);
  }

  // ---------------------------------------------------- cohorts and counters

  /** Sessions share a cohort exactly if sensor, transport, port and application agree and their fingerprints are of
      one kind; whose fingerprint it is and who speaks to whom does not count. */
  lemma CohortIsService(e: Session, f: Session)
    ensures KindOf(e) == "ja4" <==> e.hasJa4
    ensures KindOf(e) == "ja3" <==> !e.hasJa4 && (e.hasJa3 || e.observedJa3 == e.fingerprint)
    ensures KindOf(e) == "unspecified" <==> !e.hasJa4 && !e.hasJa3 && e.observedJa3 != e.fingerprint
    ensures CohortOf(e) == CohortOf(f) <==>
      e.sensor == f.sensor && e.transport == f.transport && e.port == f.port && e.application == f.application && KindOf(e) == KindOf(f)
  {
  }

  predicate SameFlow(a: Identity, b: Identity) {
    a.flowId == b.flowId && a.srcIp == b.srcIp && a.dstIp == b.dstIp
  }

  /** A session is a duplicate exactly if the history shows its flow between its two addresses. */
  lemma DuplicateMeans(c: Config, s: State, e: Session, allowSupplied: bool, h: seq<Item>)
    requires Accepted(c) && h == HistoryFor(c, s, e)
    ensures VerdictOn(c, s, e, allowSupplied).duplicate <==> exists i :: 0 <= i < |h| && SameFlow(h[i].identity, e.identity)
  {
    if i :| 0 <= i < |h| && SameFlow(h[i].identity, e.identity) {
      assert h[i].identity == e.identity;
    }
  }

  /** What is within the history length stays: nothing is dropped but from the front, and only while it is too old. */
  lemma RecentIsKept(c: Config, s: State, e: Session) returns (k: nat)
    ensures var all := HistoryOf(s, CohortOf(e)); var cutoff := e.timestamp - c.historyLength;
      && k <= |all| && HistoryFor(c, s, e) == all[k..]
      && (forall i :: 0 <= i < k ==> all[i].timestamp < cutoff) && (k < |all| ==> all[k].timestamp >= cutoff)
  {
    HistoryIsRecent(c, s, e);
    k := RecentIsSuffix(HistoryOf(s, CohortOf(e)), e.timestamp - c.historyLength);
  }

  /** The verdicts on these sessions, each as it came. */
  ghost function Verdicts(c: Config, steps: seq<Step>): (verdicts: seq<Verdict>)
    requires Accepted(c)
    ensures |verdicts| == |steps|
  {
    if steps == [] then []
    else
      var n := |steps| - 1;
      Verdicts(c, steps[..n]) + [VerdictOn(c, Run(c, steps[..n]), steps[n].session, steps[n].allowSupplied)]
  }

  function Bit(b: bool): nat {
    if b then 1 else 0
  }

  /** How many have this outcome. */
  function HowMany(verdicts: seq<Verdict>, outcome: Outcome): nat {
    if verdicts == [] then 0 else HowMany(verdicts[..|verdicts| - 1], outcome) + Bit(verdicts[|verdicts| - 1].outcome == outcome)
  }

  predicate IsLeftOut(c: Config, v: Verdict) {
    !v.duplicate && Suspicious(c, v)
  }

  /** How many are no duplicates and yet suspicious. */
  function LeftOut(c: Config, verdicts: seq<Verdict>): nat {
    if verdicts == [] then 0 else LeftOut(c, verdicts[..|verdicts| - 1]) + Bit(IsLeftOut(c, verdicts[|verdicts| - 1]))
  }

  /** The counters count what they are named for. */
  predicate Counting(c: Config, k: Counts, verdicts: seq<Verdict>) {
    && k.observations == |verdicts| && k.derived == HowMany(verdicts, Derived)
    && k.supplied == HowMany(verdicts, SuppliedCompatibility) && k.insufficient == HowMany(verdicts, Insufficient)
    && k.excluded == LeftOut(c, verdicts)
  }

  /** One verdict more. */
  predicate CountsOne(c: Config, k: Counts, n: Counts, v: Verdict) {
    && n.observations == k.observations + 1 && n.derived == k.derived + Bit(v.outcome == Derived)
    && n.supplied == k.supplied + Bit(v.outcome == SuppliedCompatibility)
    && n.insufficient == k.insufficient + Bit(v.outcome == Insufficient) && n.excluded == k.excluded + Bit(IsLeftOut(c, v))
  }

  lemma CountingNext(c: Config, k: Counts, n: Counts, verdicts: seq<Verdict>, v: Verdict)
    requires Counting(c, k, verdicts) && CountsOne(c, k, n, v)
    ensures Counting(c, n, verdicts + [v])
  {
    assert (verdicts + [v])[..|verdicts|] == verdicts;
  }

  lemma TouchCounts(c: Config, s: State, k: Cohort)
    requires Accepted(c)
    ensures Touch(c, s, k).counts.(evicted := 0) == s.counts.(evicted := 0)
  {
  }

  lemma TallyIs(c: Config, k: Counts, v: Verdict)
    requires v.learned.None? <==> v.duplicate || Suspicious(c, v)
    ensures CountsOne(c, k, Tally(k, v), v)
  {
  }

  lemma EnrichCounts(c: Config, s: State, e: Session, allowSupplied: bool, v: Verdict)
    requires Accepted(c) && v == VerdictOn(c, s, e, allowSupplied)
    ensures Enrich(c, s, e, allowSupplied).counts == Tally(Touch(c, s, CohortOf(e)).counts, v)
  {
  }

  lemma TallyOne(c: Config, s: State, e: Session, allowSupplied: bool, v: Verdict)
    requires Accepted(c) && v == VerdictOn(c, s, e, allowSupplied)
    ensures CountsOne(c, s.counts, Enrich(c, s, e, allowSupplied).counts, v)
  {
    EnrichCounts(c, s, e, allowSupplied, v);
    TouchCounts(c, s, CohortOf(e));
    LearnedItem(c, s, e, allowSupplied, v);
    TallyIs(c, Touch(c, s, CohortOf(e)).counts, v);
  }

  lemma {:induction false} CountersCount(c: Config, steps: seq<Step>)
    requires Accepted(c)
    ensures Counting(c, Run(c, steps).counts, Verdicts(c, steps))
  {
    if steps == [] {
    } else {
      var n := |steps| - 1;
      var s, last := Run(c, steps[..n]), steps[n];
      var v := VerdictOn(c, s, last.session, last.allowSupplied);
      CountersCount(c, steps[..n]);
      TallyOne(c, s, last.session, last.allowSupplied, v);
      CountingNext(c, s.counts, Run(c, steps).counts, Verdicts(c, steps[..n]), v);
    }
  }
}
