/** Event-time windows that accept late values (src/aegisflow/windowing.py). */
module Windowing {
  import opened Records
  import opened Ordering

  datatype Timed<T> = Timed(timestamp: Time, value: T)

  predicate ByTime<T>(a: Timed<T>, b: Timed<T>) {
    a.timestamp <= b.timestamp
  }

  // ----------------------------------------------------------- what it means

  function Latest<T>(adds: seq<Timed<T>>): Time
    requires adds != []
  {
    var n := |adds| - 1;
    if n == 0 then adds[0].timestamp else Max(Latest(adds[..n]), adds[n].timestamp)
  }

  function NotBefore<T>(cutoff: Time, s: seq<Timed<T>>): seq<Timed<T>> {
    if s == [] then []
    else
      var n := |s| - 1;
      if s[n].timestamp < cutoff then NotBefore(cutoff, s[..n]) else NotBefore(cutoff, s[..n]) + [s[n]]
  }

  /** Behind everything that is not later. */
  function InsertLate<T>(x: Timed<T>, s: seq<Timed<T>>): seq<Timed<T>> {
    if s == [] then [x]
    else
      var n := |s| - 1;
      if s[n].timestamp > x.timestamp then InsertLate(x, s[..n]) + [s[n]] else s + [x]
  }

  function InTime<T>(adds: seq<Timed<T>>): seq<Timed<T>> {
    if adds == [] then [] else InsertLate(adds[|adds| - 1], InTime(adds[..|adds| - 1]))
  }

  /** Everything ever added, in time order, from a window's length before the maximum on. */
  function Window<T>(length: Time, adds: seq<Timed<T>>): seq<Timed<T>> {
    if adds == [] then [] else NotBefore(Latest(adds) - length, InTime(adds))
  }

  // ------------------------------------------------------------ late arrivals

  lemma ByTimeIsTotal<T(!new)>()
    ensures TotalPreorder<Timed<T>>(ByTime)
  {
  }

  lemma {:induction false} InsertLateMembers<T>(x: Timed<T>, s: seq<Timed<T>>)
    ensures forall y :: y in InsertLate(x, s) <==> y == x || y in s
  {
    if s == [] {
    } else {
      var n := |s| - 1;
      InsertLateMembers(x, s[..n]);
      assert forall y :: y in s <==> y in s[..n] || y == s[n];
    }
  }

  lemma SortedSnoc<T(!new)>(s: seq<Timed<T>>, y: Timed<T>)
    requires Sorted(ByTime, s) && forall z :: z in s ==> ByTime(z, y)
    ensures Sorted(ByTime, s + [y])
  {
  }

  lemma {:induction false} InsertLateSorted<T(!new)>(x: Timed<T>, s: seq<Timed<T>>)
    requires Sorted(ByTime, s)
    ensures Sorted(ByTime, InsertLate(x, s))
  {
    if s == [] {
    } else {
      var n := |s| - 1;
      assert forall i :: 0 <= i < n ==> ByTime(s[i], s[n]);
      if s[n].timestamp > x.timestamp {
        InsertLateSorted(x, s[..n]);
        InsertLateMembers(x, s[..n]);
        SortedSnoc(InsertLate(x, s[..n]), s[n]);
      } else {
        SortedSnoc(s, x);
      }
    }
  }

  lemma {:induction false} PeersSnoc<T(!new)>(y: Timed<T>, s: seq<Timed<T>>, x: Timed<T>)
    ensures Peers(ByTime, y, s + [x]) == Peers(ByTime, y, s) + (if y.timestamp == x.timestamp then [x] else [])
  {
    if s != [] {
      PeersSnoc(y, s[1..], x);
      assert (s + [x])[1..] == s[1..] + [x];
    } else {
      assert [x][1..] == [];
    }
  }

  lemma {:induction false} InsertLatePeers<T(!new)>(y: Timed<T>, x: Timed<T>, s: seq<Timed<T>>)
    ensures Peers(ByTime, y, InsertLate(x, s)) == Peers(ByTime, y, s + [x])
  {
    if s == [] {
    } else {
      var n := |s| - 1;
      if s[n].timestamp > x.timestamp {
        InsertLatePeers(y, x, s[..n]);
        PeersSnoc(y, InsertLate(x, s[..n]), s[n]);
        PeersSnoc(y, s[..n], x);
        PeersSnoc(y, s[..n], s[n]);
        PeersSnoc(y, s, x);
        assert s == s[..n] + [s[n]];
      }
    }
  }

  lemma {:induction false} InTimeSorted<T(!new)>(adds: seq<Timed<T>>)
    ensures Sorted(ByTime, InTime(adds))
  {
    if adds == [] {
    } else {
      InTimeSorted(adds[..|adds| - 1]);
      InsertLateSorted(adds[|adds| - 1], InTime(adds[..|adds| - 1]));
    }
  }

  lemma InsertedPeers<T(!new)>(y: Timed<T>, x: Timed<T>, s: seq<Timed<T>>, adds: seq<Timed<T>>)
    requires Peers(ByTime, y, s) == Peers(ByTime, y, adds)
    ensures Peers(ByTime, y, InsertLate(x, s)) == Peers(ByTime, y, adds + [x])
  {
    InsertLatePeers(y, x, s);
    PeersSnoc(y, s, x);
    PeersSnoc(y, adds, x);
  }

  lemma {:induction false} InTimePeers<T(!new)>(adds: seq<Timed<T>>, y: Timed<T>)
    ensures Peers(ByTime, y, InTime(adds)) == Peers(ByTime, y, adds)
  {
    if adds == [] {
    } else {
      var n := |adds| - 1;
      InTimePeers(adds[..n], y);
      InsertedPeers(y, adds[n], InTime(adds[..n]), adds[..n]);
      assert adds == adds[..n] + [adds[n]];
    }
  }

  /** Inserting each value behind its equals as it arrives sorts stably. */
  lemma InTimeIsTheStableSort<T(!new)>(adds: seq<Timed<T>>)
    ensures InTime(adds) == Sort(ByTime, adds)
  {
    ByTimeIsTotal<T>();
    InTimeSorted(adds);
    forall y ensures Peers(ByTime, y, InTime(adds)) == Peers(ByTime, y, adds) {
      InTimePeers(adds, y);
    }
    SortIsTheStableSort(ByTime, adds, InTime(adds));
  }

  lemma InTimePermutes<T(!new)>(adds: seq<Timed<T>>)
    ensures multiset(InTime(adds)) == multiset(adds)
  {
    InTimeIsTheStableSort(adds);
    SortPermutes(ByTime, adds);
  }

  // --------------------------------------------------------------- eviction

  lemma {:induction false} NotBeforeMembers<T>(cutoff: Time, s: seq<Timed<T>>)
    ensures forall y :: y in NotBefore(cutoff, s) <==> y in s && cutoff <= y.timestamp
  {
    if s == [] {
    } else {
      var n := |s| - 1;
      NotBeforeMembers(cutoff, s[..n]);
      assert forall y :: y in s <==> y in s[..n] || y == s[n];
    }
  }

  lemma {:induction false} NotBeforeSorted<T(!new)>(cutoff: Time, s: seq<Timed<T>>)
    requires Sorted(ByTime, s)
    ensures Sorted(ByTime, NotBefore(cutoff, s))
  {
    if s == [] {
    } else {
      var n := |s| - 1;
      NotBeforeSorted(cutoff, s[..n]);
      NotBeforeMembers(cutoff, s[..n]);
      assert forall i :: 0 <= i < n ==> ByTime(s[i], s[n]);
      if cutoff <= s[n].timestamp {
        SortedSnoc(NotBefore(cutoff, s[..n]), s[n]);
      }
    }
  }

  lemma {:induction false} NotBeforeTwice<T>(early: Time, late: Time, s: seq<Timed<T>>)
    requires early <= late
    ensures NotBefore(late, NotBefore(early, s)) == NotBefore(late, s)
  {
    if s == [] {
    } else {
      NotBeforeTwice(early, late, s[..|s| - 1]);
      var rest := NotBefore(early, s[..|s| - 1]);
      assert (rest + [s[|s| - 1]])[..|rest|] == rest;
    }
  }

  lemma {:induction false} NotBeforeInsert<T(!new)>(cutoff: Time, x: Timed<T>, s: seq<Timed<T>>)
    requires Sorted(ByTime, s)
    ensures NotBefore(cutoff, InsertLate(x, s)) ==
      if x.timestamp < cutoff then NotBefore(cutoff, s) else InsertLate(x, NotBefore(cutoff, s))
  {
    if s == [] {
    } else {
      var n := |s| - 1;
      var rest := s[..n];
      if s[n].timestamp > x.timestamp {
        NotBeforeInsert(cutoff, x, rest);
        NotBeforeSnoc(cutoff, InsertLate(x, rest), s[n]);
        var kept := NotBefore(cutoff, rest);
        if cutoff <= s[n].timestamp {
          assert (kept + [s[n]])[..|kept|] == kept;
        }
      } else {
        NotBeforeSnoc(cutoff, s, x);
        var kept := NotBefore(cutoff, s);
        if kept != [] {
          LastIsGreatestKept(cutoff, s);
        }
      }
    }
  }

  lemma LastIsGreatestKept<T(!new)>(cutoff: Time, s: seq<Timed<T>>)
    requires s != [] && Sorted(ByTime, s) && NotBefore(cutoff, s) != []
    ensures var kept := NotBefore(cutoff, s); kept[|kept| - 1].timestamp <= s[|s| - 1].timestamp
  {
    var kept := NotBefore(cutoff, s);
    NotBeforeMembers(cutoff, s);
    assert kept[|kept| - 1] in kept;
    var i :| 0 <= i < |s| && s[i] == kept[|kept| - 1];
    assert i < |s| - 1 ==> ByTime(s[i], s[|s| - 1]);
  }

  lemma NotBeforeSnoc<T>(cutoff: Time, s: seq<Timed<T>>, y: Timed<T>)
    ensures NotBefore(cutoff, s + [y]) == if y.timestamp < cutoff then NotBefore(cutoff, s) else NotBefore(cutoff, s) + [y]
  {
    assert (s + [y])[..|s|] == s;
  }

  /** Dropping early values from the front of a sorted deque filters it. */
  lemma {:induction false} DropIsFilter<T(!new)>(cutoff: Time, s: seq<Timed<T>>, k: nat)
    requires Sorted(ByTime, s) && k <= |s|
    requires forall i :: 0 <= i < k ==> s[i].timestamp < cutoff
    requires k < |s| ==> cutoff <= s[k].timestamp
    ensures NotBefore(cutoff, s) == s[k..]
  {
    if s == [] {
    } else {
      var n := |s| - 1;
      if k <= n {
        assert k < n ==> ByTime(s[k], s[n]);
        if k == n { AllBefore(cutoff, s[..n]); } else { DropIsFilter(cutoff, s[..n], k); }
        assert s[k..] == s[..n][k..] + [s[n]];
      } else {
        AllBefore(cutoff, s);
      }
    }
  }

  lemma {:induction false} AllBefore<T>(cutoff: Time, s: seq<Timed<T>>)
    requires forall i :: 0 <= i < |s| ==> s[i].timestamp < cutoff
    ensures NotBefore(cutoff, s) == []
  {
    if s == [] {
    } else {
      AllBefore(cutoff, s[..|s| - 1]);
    }
  }

  // ------------------------------------------------------------ one more add

  lemma {:induction false} LatestIsGreatest<T>(adds: seq<Timed<T>>)
    requires adds != []
    ensures forall y :: y in adds ==> y.timestamp <= Latest(adds)
  {
    var n := |adds| - 1;
    if n > 0 {
      LatestIsGreatest(adds[..n]);
      assert forall y :: y in adds <==> y in adds[..n] || y == adds[n];
    }
  }

  lemma LatestSnoc<T>(adds: seq<Timed<T>>, x: Timed<T>)
    ensures Latest(adds + [x]) == if adds == [] then x.timestamp else Max(Latest(adds), x.timestamp)
  {
    assert (adds + [x])[..|adds|] == adds;
  }

  lemma WindowIsSorted<T(!new)>(length: Time, adds: seq<Timed<T>>)
    ensures Sorted(ByTime, Window(length, adds))
  {
    if adds != [] {
      InTimeSorted(adds);
      NotBeforeSorted(Latest(adds) - length, InTime(adds));
    }
  }

  lemma WindowHolds<T(!new)>(length: Time, adds: seq<Timed<T>>, y: Timed<T>)
    requires adds != []
    ensures y in Window(length, adds) <==> y in adds && Latest(adds) - length <= y.timestamp
  {
    var cutoff, sorted := Latest(adds) - length, InTime(adds);
    NotBeforeMembers(cutoff, sorted);
    assert Window(length, adds) == NotBefore(cutoff, sorted);
    InTimePermutes(adds);
    SameMembers(sorted, adds, y);
  }

  /** Evicting early before inserting loses nothing that is kept later. */
  lemma EvictEarlier<T(!new)>(early: Time, late: Time, sorted: seq<Timed<T>>, wider: seq<Timed<T>>, x: Timed<T>,
                              deque: seq<Timed<T>>, next: seq<Timed<T>>)
    requires early <= late && Sorted(ByTime, sorted) && wider == InsertLate(x, sorted)
    requires deque == NotBefore(early, sorted) && next == NotBefore(late, wider)
    ensures next == NotBefore(late, InsertLate(x, deque))
  {
    NotBeforeSorted(early, sorted);
    NotBeforeInsert(late, x, sorted);
    NotBeforeInsert(late, x, deque);
    NotBeforeTwice(early, late, sorted);
  }

  /** The deque after one more add: insert, then evict. */
  lemma WindowStep<T(!new)>(length: Time, adds: seq<Timed<T>>, x: Timed<T>, later: seq<Timed<T>>,
                            deque: seq<Timed<T>>, inserted: seq<Timed<T>>, next: seq<Timed<T>>, cutoff: Time)
    requires later == adds + [x] && deque == Window(length, adds) && next == Window(length, later)
    requires cutoff == Latest(later) - length && inserted == InsertLate(x, deque)
    ensures next == NotBefore(cutoff, inserted)
  {
    assert later[..|adds|] == adds;
    if adds == [] {
      assert InTime(later) == InsertLate(x, []);
    } else {
      InTimeSorted(adds);
      EvictEarlier(Latest(adds) - length, cutoff, InTime(adds), InTime(later), x, deque, next);
    }
  }

  /** A value not earlier than the latest goes to the end. */
  lemma InOrderAppends<T(!new)>(length: Time, adds: seq<Timed<T>>, x: Timed<T>)
    requires adds == [] || Latest(adds) <= x.timestamp
    ensures InsertLate(x, Window(length, adds)) == Window(length, adds) + [x]
  {
    if adds != [] {
      LatestIsGreatest(adds);
      var w := Window(length, adds);
      if w != [] {
        WindowHolds(length, adds, w[|w| - 1]);
      }
    }
  }

  // ------------------------------------------------------ arrival order

  lemma {:induction false} NotBeforeCounts<T>(cutoff: Time, s: seq<Timed<T>>, y: Timed<T>)
    ensures multiset(NotBefore(cutoff, s))[y] == if y.timestamp < cutoff then 0 else multiset(s)[y]
  {
    if s == [] {
    } else {
      NotBeforeCounts(cutoff, s[..|s| - 1], y);
      assert s == s[..|s| - 1] + [s[|s| - 1]];
    }
  }

  lemma SameLatest<T>(a: seq<Timed<T>>, b: seq<Timed<T>>)
    requires multiset(a) == multiset(b) && a != [] && b != []
    ensures Latest(a) <= Latest(b)
  {
    var x := LatestAttained(a);
    SameMembers(a, b, x);
    LatestIsGreatest(b);
  }

  lemma {:induction false} LatestAttained<T>(adds: seq<Timed<T>>) returns (x: Timed<T>)
    requires adds != []
    ensures x in adds && x.timestamp == Latest(adds)
  {
    var n := |adds| - 1;
    if n == 0 || adds[n].timestamp > Latest(adds[..n]) {
      x := adds[n];
    } else {
      x := LatestAttained(adds[..n]);
    }
  }

  /** Whatever the order of arrival, the same values are in the window, each as often as it was added. */
  lemma ArrivalOrderIsImmaterial<T(!new)>(length: Time, a: seq<Timed<T>>, b: seq<Timed<T>>)
    requires multiset(a) == multiset(b)
    ensures multiset(Window(length, a)) == multiset(Window(length, b))
  {
    assert |multiset(a)| == |a| && |multiset(b)| == |b|;
    if a != [] {
      SameLatest(a, b);
      SameLatest(b, a);
      InTimePermutes(a);
      InTimePermutes(b);
      var cutoff := Latest(a) - length;
      WindowAt(length, a, cutoff);
      WindowAt(length, b, cutoff);
      SameFiltered(cutoff, InTime(a), InTime(b), Window(length, a), Window(length, b));
    }
  }

  lemma WindowAt<T>(length: Time, adds: seq<Timed<T>>, cutoff: Time)
    requires adds != [] && cutoff == Latest(adds) - length
    ensures Window(length, adds) == NotBefore(cutoff, InTime(adds))
  {
  }

  lemma SameFiltered<T(!new)>(cutoff: Time, a: seq<Timed<T>>, b: seq<Timed<T>>, kept: seq<Timed<T>>, keptToo: seq<Timed<T>>)
    requires multiset(a) == multiset(b) && kept == NotBefore(cutoff, a) && keptToo == NotBefore(cutoff, b)
    ensures multiset(kept) == multiset(keptToo)
  {
    forall y ensures multiset(kept)[y] == multiset(keptToo)[y] {
      NotBeforeCounts(cutoff, a, y);
      NotBeforeCounts(cutoff, b, y);
    }
  }

  // ------------------------------------------------------------- the windows

  /** Latest time and window of what was added under one key. */
  ghost predicate Kept<T(!new)>(length: Time, adds: seq<Timed<T>>, latest: Time, window: seq<Timed<T>>) {
    adds != [] && latest == Latest(adds) && window == Window(length, adds)
  }

  lemma KeptNext<T(!new)>(length: Time, before: seq<Timed<T>>, timed: Timed<T>, latest: Time, window: seq<Timed<T>>)
    requires latest == if before == [] then timed.timestamp else Max(Latest(before), timed.timestamp)
    requires window == Window(length, before + [timed])
    ensures Kept(length, before + [timed], latest, window)
  {
    LatestSnoc(before, timed);
  }

  class KeyedSlidingWindow<K(==), T(==, !new)> {
    const length: Time
    var windows: map<K, seq<Timed<T>>>
    var latest: map<K, Time>
    /** Everything added under each key since the last clear, in order of arrival. */
    ghost var adds: map<K, seq<Timed<T>>>

    ghost predicate Valid()
      reads this
    {
      && length > 0.0
      && windows.Keys == latest.Keys == adds.Keys
      && (forall k :: k in adds ==> Kept(length, adds[k], latest[k], windows[k]))
    }

    ghost function Added(k: K): seq<Timed<T>>
      reads this
    {
      if k in adds then adds[k] else []
    }

    constructor (length: Time)
      requires length > 0.0
      ensures Valid() && this.length == length && adds == map[]
    {
      this.length := length;
      windows, latest, adds := map[], map[], map[];
    }

    method Add(k: K, timestamp: Time, value: T) returns (window: seq<Timed<T>>)
      requires Valid()
      modifies this
      ensures Valid() && adds == old(adds)[k := old(Added(k)) + [Timed(timestamp, value)]]
      ensures window == Window(length, old(Added(k)) + [Timed(timestamp, value)]) == windows[k]
      ensures forall j :: j in old(windows) && j != k ==> j in windows && windows[j] == old(windows)[j]
    {
      ghost var before := Added(k);
      var timed := Timed(timestamp, value);
      var known := if k in latest then Some(latest[k]) else None;
      var effective := if known.Some? then Max(known.value, timestamp) else timestamp;
      latest := latest[k := effective];
      window := Admit(length, if k in windows then windows[k] else [], known, timed, before);
      KeptNext(length, before, timed, effective, window);
      windows := windows[k := window];
      adds := adds[k := before + [timed]];
    }

    method Values(k: K) returns (window: seq<Timed<T>>)
      requires Valid()
      ensures window == Window(length, Added(k))
    {
      window := if k in windows then windows[k] else [];
    }

    method Clear()
      requires Valid()
      modifies this
      ensures Valid() && adds == map[]
    {
      windows, latest, adds := map[], map[], map[];
    }
  }

  /** One value into one deque: append or insert, then evict. */
  method Admit<T(!new)>(length: Time, deque: seq<Timed<T>>, latest: Option<Time>, timed: Timed<T>, ghost before: seq<Timed<T>>)
    returns (window: seq<Timed<T>>)
    requires length > 0.0 && deque == Window(length, before)
    requires latest == if before == [] then None else Some(Latest(before))
    ensures window == Window(length, before + [timed])
  {
    window := Placed(length, deque, latest, timed, before);
    var effective := if latest.Some? then Max(latest.value, timed.timestamp) else timed.timestamp;
    PlacedThenEvicted(length, before, timed, deque, window, effective - length);
    window := Evict(window, effective - length);
  }

  /** Behind everything, or walked back to its place. */
  method Placed<T(!new)>(length: Time, deque: seq<Timed<T>>, latest: Option<Time>, timed: Timed<T>, ghost before: seq<Timed<T>>)
    returns (window: seq<Timed<T>>)
    requires length > 0.0 && deque == Window(length, before)
    requires latest == if before == [] then None else Some(Latest(before))
    ensures window == InsertLate(timed, deque)
  {
    if latest.None? || timed.timestamp >= latest.value {
      InOrderAppends(length, before, timed);
      window := deque + [timed];
    } else {
      window := InsertBack(deque, timed);
    }
  }

  lemma PlacedThenEvicted<T(!new)>(length: Time, before: seq<Timed<T>>, timed: Timed<T>, deque: seq<Timed<T>>, window: seq<Timed<T>>, cutoff: Time)
    requires length > 0.0 && deque == Window(length, before) && window == InsertLate(timed, deque)
    requires cutoff == (if before == [] then timed.timestamp else Max(Latest(before), timed.timestamp)) - length
    ensures Sorted(ByTime, window) && NotBefore(cutoff, window) == Window(length, before + [timed])
  {
    WindowIsSorted(length, before);
    InsertLateSorted(timed, deque);
    LatestSnoc(before, timed);
    WindowStep(length, before, timed, before + [timed], deque, window, Window(length, before + [timed]), cutoff);
  }

  /** Walk back over what is later, and insert. */
  method InsertBack<T(!new)>(window: seq<Timed<T>>, timed: Timed<T>) returns (r: seq<Timed<T>>)
    ensures r == InsertLate(timed, window)
  {
    var at: nat := |window|;
    while at > 0 && window[at - 1].timestamp > timed.timestamp
      invariant at <= |window|
      invariant forall i :: at <= i < |window| ==> window[i].timestamp > timed.timestamp
    {
      at := at - 1;
    }
    InsertLateAt(timed, window, at);
    r := window[..at] + [timed] + window[at..];
  }

  lemma {:induction false} InsertLateAt<T>(x: Timed<T>, s: seq<Timed<T>>, at: nat)
    requires at <= |s| && (at > 0 ==> s[at - 1].timestamp <= x.timestamp)
    requires forall i :: at <= i < |s| ==> s[i].timestamp > x.timestamp
    ensures InsertLate(x, s) == s[..at] + [x] + s[at..]
  {
    var n := |s| - 1;
    if at <= n {
      InsertLateAt(x, s[..n], at);
      assert s[..n][..at] == s[..at] && s[at..] == s[..n][at..] + [s[n]];
    }
  }

  /** Pop what lies before the cutoff. */
  method Evict<T(!new)>(window: seq<Timed<T>>, cutoff: Time) returns (r: seq<Timed<T>>)
    requires Sorted(ByTime, window)
    ensures r == NotBefore(cutoff, window)
  {
    ghost var k := 0;
    r := window;
    while r != [] && r[0].timestamp < cutoff
      invariant k <= |window| && r == window[k..]
      invariant forall i :: 0 <= i < k ==> window[i].timestamp < cutoff
      decreases |r|
    {
      r := r[1..];
      k := k + 1;
    }
    DropIsFilter(cutoff, window, k);
  }
}
