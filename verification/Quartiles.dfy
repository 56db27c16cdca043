/** The order statistics of the feature baseline: Python's statistics.median and statistics.quantiles with four
    inclusive parts (src/aegisflow/passive_features.py). */
module Quartiles {
  import opened Ordering

  predicate UpTo(a: real, b: real) {
    a <= b
  }

  function Ascending(values: seq<real>): (s: seq<real>)
    ensures |s| == |values|
  {
    SortPermutes(UpTo, values);
    Sort(UpTo, values)
  }

  function Median(values: seq<real>): real
    requires values != []
  {
    var s, n := Ascending(values), |values|;
    if n % 2 == 1 then s[n / 2] else (s[n / 2 - 1] + s[n / 2]) / 2.0
  }

  /** Between two neighbours, delta quarters of the way. */
  function Blend(a: real, b: real, delta: nat): real {
    (a * (4 - delta) as real + b * delta as real) / 4.0
  }

  /** The upper of the three inclusive quartiles, and a single value as it is. */
  function UpperQuartile(values: seq<real>): real
    requires values != []
  {
    if |values| == 1 then values[0]
    else
      var s, m := Ascending(values), |values| - 1;
      Blend(s[3 * m / 4], s[3 * m / 4 + 1], 3 * m % 4)
  }

  // ------------------------------------------------------------- sorted reals

  lemma Tail(a: seq<real>)
    requires a != []
    ensures multiset(a[1..]) == multiset(a) - multiset{a[0]}
  {
    assert a == [a[0]] + a[1..];
  }

  lemma HeadIsLeast(a: seq<real>, x: real)
    requires Sorted(UpTo, a) && x in a
    ensures a != [] && a[0] <= x
  {
    var i :| 0 <= i < |a| && a[i] == x;
    assert i > 0 ==> UpTo(a[0], a[i]);
  }

  lemma {:induction false} SortedSameMultiset(a: seq<real>, b: seq<real>)
    requires Sorted(UpTo, a) && Sorted(UpTo, b) && multiset(a) == multiset(b)
    ensures a == b
    decreases |a|
  {
    if a == [] || b == [] {
      assert |multiset(a)| == |a| && |multiset(b)| == |b|;
    } else {
      SameMembers(a, b, a[0]);
      SameMembers(a, b, b[0]);
      HeadIsLeast(a, b[0]);
      HeadIsLeast(b, a[0]);
      Tail(a);
      Tail(b);
      SortedSameMultiset(a[1..], b[1..]);
    }
  }

  lemma AscendingSorted(values: seq<real>)
    ensures Sorted(UpTo, Ascending(values)) && multiset(Ascending(values)) == multiset(values)
  {
    SortSorts(UpTo, values);
    SortPermutes(UpTo, values);
  }

  function Without(values: seq<real>, p: nat): seq<real>
    requires p < |values|
  {
    values[..p] + values[p + 1..]
  }

  /** A value not below the others comes last. */
  lemma GreatestLast(values: seq<real>, p: nat)
    requires p < |values| && forall i :: 0 <= i < |values| ==> values[i] <= values[p]
    ensures Ascending(values) == Ascending(Without(values, p)) + [values[p]]
  {
    var rest := Without(values, p);
    AscendingSorted(values);
    AscendingSorted(rest);
    var s := Ascending(rest) + [values[p]];
    assert values == values[..p] + [values[p]] + values[p + 1..];
    forall i | 0 <= i < |rest| ensures UpTo(s[i], values[p]) {
      SameMembers(Ascending(rest), rest, s[i]);
      assert s[i] in rest;
      assert s[i] in values;
    }
    SortedSameMultiset(Ascending(values), s);
  }

  // ------------------------------------------------------------- robustness

  lemma BlendEnds(a: real, b: real, c: real, delta: nat)
    requires delta < 4
    ensures Blend(a, b, 0) == a
    ensures delta > 0 && b < c ==> Blend(a, b, delta) < Blend(a, c, delta)
  {
    if delta == 1 { assert Blend(a, b, 1) == (a * 3.0 + b) / 4.0; }
    if delta == 2 { assert Blend(a, b, 2) == (a * 2.0 + b * 2.0) / 4.0; }
    if delta == 3 { assert Blend(a, b, 3) == (a + b * 3.0) / 4.0; }
  }

  /** The quartile of a sorted list that ends with its greatest value. */
  function Quartile(rest: seq<real>, greatest: real): real
    requires rest != []
  {
    var s, m := rest + [greatest], |rest|;
    Blend(s[3 * m / 4], s[3 * m / 4 + 1], 3 * m % 4)
  }

  lemma QuartileOf(values: seq<real>, p: nat)
    requires |values| > 1 && p < |values| && forall i :: 0 <= i < |values| ==> values[i] <= values[p]
    ensures UpperQuartile(values) == Quartile(Ascending(Without(values, p)), values[p])
  {
    GreatestLast(values, p);
  }

  lemma QuartileIgnoresTop(rest: seq<real>, a: real, b: real)
    requires |rest| >= 4
    ensures Quartile(rest, a) == Quartile(rest, b)
  {
    var m := |rest|;
    assert 3 * m / 4 < m && (3 * m / 4 + 1 == m ==> 3 * m % 4 == 0);
    BlendEnds(rest[3 * m / 4], a, a, 0);
    BlendEnds(rest[3 * m / 4], b, b, 0);
  }

  lemma QuartileFollowsTop(rest: seq<real>, a: real, b: real)
    requires 1 <= |rest| <= 3 && a < b
    ensures Quartile(rest, a) < Quartile(rest, b)
  {
    var m := |rest|;
    assert 3 * m / 4 == m - 1 && 0 < 3 * m % 4;
    BlendEnds(rest[m - 1], a, b, 3 * m % 4);
  }

  /** values[p] may be replaced by the spike, and both are not below any other value. */
  ghost predicate SpikeAt(values: seq<real>, p: nat, spike: real) {
    p < |values| && forall i :: 0 <= i < |values| && i != p ==> values[i] <= values[p] && values[i] <= spike
  }

  /** Raising the greatest of five or more values, or lowering it without passing another, moves nothing. */
  lemma LoneSpikeIsIgnored(values: seq<real>, p: nat, spike: real)
    requires |values| >= 5 && SpikeAt(values, p, spike)
    ensures UpperQuartile(values[p := spike]) == UpperQuartile(values)
  {
    assert Without(values[p := spike], p) == Without(values, p);
    QuartileOf(values, p);
    QuartileOf(values[p := spike], p);
    QuartileIgnoresTop(Ascending(Without(values, p)), values[p], spike);
  }

  /** Of one to four values, raising the greatest raises the quartile. */
  lemma ShortSpikeCounts(values: seq<real>, p: nat, spike: real)
    requires |values| <= 4 && SpikeAt(values, p, spike) && spike > values[p]
    ensures UpperQuartile(values[p := spike]) > UpperQuartile(values)
  {
    if |values| > 1 {
      assert Without(values[p := spike], p) == Without(values, p);
      QuartileOf(values, p);
      QuartileOf(values[p := spike], p);
      QuartileFollowsTop(Ascending(Without(values, p)), values[p], spike);
    }
  }

  ghost predicate IgnoresSpikes(n: nat) {
    forall values, p, spike :: |values| == n && SpikeAt(values, p, spike) ==> UpperQuartile(values[p := spike]) == UpperQuartile(values)
  }

  /** The upper quartile ignores a lone spike exactly if there are five values or more. */
  lemma IgnoresSpikesIffFive(n: nat)
    requires n >= 1
    ensures IgnoresSpikes(n) <==> n >= 5
  {
    if n >= 5 {
      forall values, p, spike | |values| == n && SpikeAt(values, p, spike)
        ensures UpperQuartile(values[p := spike]) == UpperQuartile(values)
      {
        LoneSpikeIsIgnored(values, p, spike);
      }
    } else {
      var zeros := seq(n, i => 0.0);
      assert SpikeAt(zeros, 0, 1.0);
      ShortSpikeCounts(zeros, 0, 1.0);
      assert UpperQuartile(zeros[0 := 1.0]) != UpperQuartile(zeros);
    }
  }

  /** No quartile lies below all values. */
  lemma UpperQuartileInRange(values: seq<real>, low: real)
    requires values != [] && forall i :: 0 <= i < |values| ==> low <= values[i]
    ensures low <= UpperQuartile(values)
  {
    AscendingSorted(values);
    var s := Ascending(values);
    forall i | 0 <= i < |s| ensures low <= s[i] {
      SameMembers(s, values, s[i]);
      assert s[i] in values;
    }
    if |values| > 1 {
      var m := |values| - 1;
      BlendNotBelow(s[3 * m / 4], s[3 * m / 4 + 1], 3 * m % 4, low);
    }
  }

  lemma BlendNotBelow(a: real, b: real, delta: nat, low: real)
    requires low <= a && low <= b && delta < 4
    ensures low <= Blend(a, b, delta)
  {
    if delta == 0 { assert Blend(a, b, 0) == (a * 4.0) / 4.0; }
    if delta == 1 { assert Blend(a, b, 1) == (a * 3.0 + b) / 4.0; }
    if delta == 2 { assert Blend(a, b, 2) == (a * 2.0 + b * 2.0) / 4.0; }
    if delta == 3 { assert Blend(a, b, 3) == (a + b * 3.0) / 4.0; }
  }

  // ------------------------------------------------------- evenly spread values

  /** So many values, the first at a and each by d further. */
  function Progression(a: real, d: real, n: nat): (s: seq<real>)
    ensures |s| == n && forall i :: 0 <= i < n ==> s[i] == a + i as real * d
  {
    seq(n, i => a + i as real * d)
  }

  lemma ProgressionAscends(values: seq<real>, a: real, d: real)
    requires d >= 0.0 && multiset(values) == multiset(Progression(a, d, |values|))
    ensures Ascending(values) == Progression(a, d, |values|)
  {
    var s := Progression(a, d, |values|);
    forall i, j | 0 <= i < j < |s| ensures UpTo(s[i], s[j]) {
      assert (j - i) as real * d >= 0.0;
      assert j as real * d == i as real * d + (j - i) as real * d;
    }
    AscendingSorted(values);
    SortedSameMultiset(Ascending(values), s);
  }

  lemma BlendOfSteps(a: real, d: real, q: nat, delta: nat)
    requires delta < 4
    ensures Blend(a + q as real * d, a + (q + 1) as real * d, delta) == a + (4 * q + delta) as real * d / 4.0
  {
    var x := a + q as real * d;
    assert (q + 1) as real * d == q as real * d + d;
    if delta == 0 { assert Blend(x, x + d, 0) == (x * 4.0 + (x + d) * 0.0) / 4.0; }
    if delta == 1 { assert Blend(x, x + d, 1) == (x * 3.0 + (x + d) * 1.0) / 4.0; }
    if delta == 2 { assert Blend(x, x + d, 2) == (x * 2.0 + (x + d) * 2.0) / 4.0; }
    if delta == 3 { assert Blend(x, x + d, 3) == (x * 1.0 + (x + d) * 3.0) / 4.0; }
    assert (4 * q + delta) as real * d == 4.0 * (q as real * d) + delta as real * d;
  }

  lemma MedianIs(values: seq<real>, s: seq<real>, x: real)
    requires values != [] && s == Ascending(values)
    requires var h := |s| / 2; x == if |s| % 2 == 1 then s[h] else (s[h - 1] + s[h]) / 2.0
    ensures Median(values) == x
  {
  }

  lemma QuartileIs(values: seq<real>, s: seq<real>, y: real)
    requires |values| > 1 && s == Ascending(values)
    requires var m := |s| - 1; y == Blend(s[3 * m / 4], s[3 * m / 4 + 1], 3 * m % 4)
    ensures UpperQuartile(values) == y
  {
  }

  lemma MiddleStep(s: seq<real>, a: real, d: real, x: real)
    requires s != [] && s == Progression(a, d, |s|) && x == a + (|s| - 1) as real * d / 2.0
    ensures var h := |s| / 2; x == if |s| % 2 == 1 then s[h] else (s[h - 1] + s[h]) / 2.0
  {
    var n, h := |s|, |s| / 2;
    if n % 2 == 1 {
      assert (n - 1) as real * d == 2.0 * (h as real * d);
    } else {
      assert (n - 1) as real * d == (h - 1) as real * d + h as real * d;
    }
  }

  lemma QuartileStep(s: seq<real>, a: real, d: real, y: real)
    requires |s| > 1 && s == Progression(a, d, |s|) && y == a + (3 * (|s| - 1)) as real * d / 4.0
    ensures var m := |s| - 1; y == Blend(s[3 * m / 4], s[3 * m / 4 + 1], 3 * m % 4)
  {
    var m := |s| - 1;
    assert 4 * (3 * m / 4) + 3 * m % 4 == 3 * m;
    BlendOfSteps(a, d, 3 * m / 4, 3 * m % 4);
  }

  /** Of evenly spaced values, in any order, the median is the middle and the upper quartile three quarters of the
      way to the greatest. */
  lemma EvenlySpaced(values: seq<real>, a: real, d: real, x: real, y: real)
    requires values != [] && d >= 0.0 && multiset(values) == multiset(Progression(a, d, |values|))
    requires x == a + (|values| - 1) as real * d / 2.0 && y == a + (3 * (|values| - 1)) as real * d / 4.0
    ensures Median(values) == x && UpperQuartile(values) == y
  {
    var s := Progression(a, d, |values|);
    ProgressionAscends(values, a, d);
    MiddleStep(s, a, d, x);
    MedianIs(values, s, x);
    if |values| == 1 {
      SameMembers(values, s, values[0]);
    } else {
      QuartileStep(s, a, d, y);
      QuartileIs(values, s, y);
    }
  }

  /** Half of the values low, half of them high. */
  function Halves(low: real, high: real, m: nat): (s: seq<real>)
    ensures |s| == 2 * m && forall i :: 0 <= i < 2 * m ==> s[i] == if i < m then low else high
  {
    seq(2 * m, i => if i < m then low else high)
  }

  lemma MedianOfHalves(values: seq<real>, low: real, high: real, m: nat)
    requires m > 0 && low <= high && multiset(values) == multiset(Halves(low, high, m))
    ensures |values| == 2 * m && Median(values) == (low + high) / 2.0
    ensures forall i :: 0 <= i < |values| ==> values[i] == low || values[i] == high
  {
    var s := Halves(low, high, m);
    assert |values| == |multiset(values)| == |multiset(s)| == 2 * m;
    AscendingSorted(values);
    SortedSameMultiset(Ascending(values), s);
    forall i | 0 <= i < |values| ensures values[i] == low || values[i] == high {
      SameMembers(values, s, values[i]);
      assert values[i] in values;
    }
  }

  lemma Equal(values: seq<real>, x: real)
    requires values != [] && forall i :: 0 <= i < |values| ==> values[i] == x
    ensures Median(values) == x && UpperQuartile(values) == x
  {
    assert values == Progression(x, 0.0, |values|);
    EvenlySpaced(values, x, 0.0, x, x);
  }
}
