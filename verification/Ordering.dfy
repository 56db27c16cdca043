/** Stable sorting by a total preorder, as Python's sorted() promises it, and the order of texts. */
module Ordering {

  ghost predicate TotalPreorder<T(!new)>(le: (T, T) -> bool) {
    && (forall x, y :: le(x, y) || le(y, x))
    && (forall x, y, z :: le(x, y) && le(y, z) ==> le(x, z))
  }

  ghost predicate Sorted<T(!new)>(le: (T, T) -> bool, s: seq<T>) {
    forall i, j :: 0 <= i < j < |s| ==> le(s[i], s[j])
  }

  function Insert<T>(le: (T, T) -> bool, x: T, s: seq<T>): (r: seq<T>)
    ensures multiset(r) == multiset(s) + multiset{x} && |r| == |s| + 1
  {
    if s == [] then [x]
    else if le(x, s[0]) then [x] + s
    else
      var r := [s[0]] + Insert(le, x, s[1..]);
      assert s == [s[0]] + s[1..];
      r
  }

  function Sort<T>(le: (T, T) -> bool, s: seq<T>): seq<T> {
    if s == [] then [] else Insert(le, s[0], Sort(le, s[1..]))
  }

  lemma {:induction false} SortPermutes<T>(le: (T, T) -> bool, s: seq<T>)
    ensures multiset(Sort(le, s)) == multiset(s) && |Sort(le, s)| == |s|
  {
    if s == [] {
    } else {
      SortPermutes(le, s[1..]);
      assert s == [s[0]] + s[1..];
    }
  }

  /** The elements tied with x, in order. */
  function Peers<T>(le: (T, T) -> bool, x: T, s: seq<T>): seq<T> {
    if s == [] then []
    else if le(x, s[0]) && le(s[0], x) then [s[0]] + Peers(le, x, s[1..])
    else Peers(le, x, s[1..])
  }

  ghost predicate SamePeers<T(!new)>(le: (T, T) -> bool, a: seq<T>, b: seq<T>) {
    forall y :: Peers(le, y, a) == Peers(le, y, b)
  }

  lemma SameMembers<T>(a: seq<T>, b: seq<T>, x: T)
    requires multiset(a) == multiset(b)
    ensures x in a <==> x in b
  {
    assert x in a <==> x in multiset(a);
    assert x in b <==> x in multiset(b);
  }

  lemma {:induction false} InsertSorted<T(!new)>(le: (T, T) -> bool, x: T, s: seq<T>)
    requires TotalPreorder(le) && Sorted(le, s)
    ensures Sorted(le, Insert(le, x, s))
  {
    if s != [] && !le(x, s[0]) {
      var rest := Insert(le, x, s[1..]);
      InsertSorted(le, x, s[1..]);
      forall j | 0 <= j < |rest| ensures le(s[0], rest[j]) {
        assert rest[j] in multiset(s[1..]) + multiset{x};
        assert rest[j] == x || rest[j] in s[1..];
      }
      SortedCons(le, s[0], rest);
    } else if s != [] {
      forall j | 0 <= j < |s| ensures le(x, s[j]) {
        assert le(s[0], s[j]);
      }
      SortedCons(le, x, s);
    }
  }

  lemma SortedCons<T(!new)>(le: (T, T) -> bool, x: T, s: seq<T>)
    requires Sorted(le, s) && forall j :: 0 <= j < |s| ==> le(x, s[j])
    ensures Sorted(le, [x] + s)
  {
  }

  lemma {:induction false} SortSorts<T(!new)>(le: (T, T) -> bool, s: seq<T>)
    requires TotalPreorder(le)
    ensures Sorted(le, Sort(le, s))
  {
    if s == [] {
    } else {
      SortSorts(le, s[1..]);
      InsertSorted(le, s[0], Sort(le, s[1..]));
    }
  }

  lemma {:induction false} InsertKeepsPeers<T(!new)>(le: (T, T) -> bool, x: T, s: seq<T>, y: T)
    requires TotalPreorder(le) && Sorted(le, s)
    ensures Peers(le, y, Insert(le, x, s)) == Peers(le, y, [x] + s)
  {
    if s != [] && !le(x, s[0]) {
      InsertKeepsPeers(le, x, s[1..], y);
      var r := Insert(le, x, s);
      assert r[1..] == Insert(le, x, s[1..]) && ([x] + s)[1..] == s && ([x] + s[1..])[1..] == s[1..];
    }
  }

  /** Ties keep their order. */
  lemma {:induction false} SortIsStable<T(!new)>(le: (T, T) -> bool, s: seq<T>, y: T)
    requires TotalPreorder(le)
    ensures Peers(le, y, Sort(le, s)) == Peers(le, y, s)
  {
    if s == [] {
    } else {
      SortSorts(le, s[1..]);
      SortIsStable(le, s[1..], y);
      InsertKeepsPeers(le, s[0], Sort(le, s[1..]), y);
      assert ([s[0]] + Sort(le, s[1..]))[1..] == Sort(le, s[1..]);
    }
  }

  lemma {:induction false} PeersWithin<T(!new)>(le: (T, T) -> bool, y: T, s: seq<T>)
    ensures forall x :: x in Peers(le, y, s) <==> x in s && le(y, x) && le(x, y)
  {
    if s == [] {
    } else {
      PeersWithin(le, y, s[1..]);
      assert forall x :: x in s <==> x == s[0] || x in s[1..];
    }
  }

  lemma OwnPeer<T(!new)>(le: (T, T) -> bool, x: T, s: seq<T>)
    requires TotalPreorder(le) && x in s
    ensures x in Peers(le, x, s) && Peers(le, x, s) != []
  {
    PeersWithin(le, x, s);
  }

  /** Sorted lists with the same ties in the same order are equal, so a stable sort has one possible result. */
  lemma {:induction false} SortedIsUnique<T(!new)>(le: (T, T) -> bool, a: seq<T>, b: seq<T>)
    requires TotalPreorder(le) && Sorted(le, a) && Sorted(le, b)
    requires SamePeers(le, a, b)
    ensures a == b
    decreases |a|
  {
    if a == [] {
      if b != [] {
        OwnPeer(le, b[0], b);
      }
    } else {
      PeersWithin(le, a[0], a);
      PeersWithin(le, a[0], b);
      assert a[0] in Peers(le, a[0], a);
      assert b != [];
      SameHead(le, a, b);
      forall y ensures Peers(le, y, a[1..]) == Peers(le, y, b[1..]) {
        assert Peers(le, y, a) == Peers(le, y, b);
        PeersTail(le, y, a);
        PeersTail(le, y, b);
      }
      SortedIsUnique(le, a[1..], b[1..]);
      assert a == [a[0]] + a[1..] && b == [b[0]] + b[1..];
    }
  }

  lemma PeersTail<T>(le: (T, T) -> bool, y: T, s: seq<T>)
    requires s != []
    ensures Peers(le, y, s[1..]) == if le(y, s[0]) && le(s[0], y) then Peers(le, y, s)[1..] else Peers(le, y, s)
  {
  }

  lemma SameHead<T(!new)>(le: (T, T) -> bool, a: seq<T>, b: seq<T>)
    requires TotalPreorder(le) && Sorted(le, a) && Sorted(le, b) && a != [] && b != []
    requires SamePeers(le, a, b)
    ensures a[0] == b[0]
  {
    PeersWithin(le, a[0], a);
    PeersWithin(le, a[0], b);
    PeersWithin(le, b[0], a);
    PeersWithin(le, b[0], b);
    assert a[0] in Peers(le, a[0], b) && b[0] in Peers(le, b[0], a);
    assert a[0] in b && b[0] in a;
    assert le(a[0], b[0]) && le(b[0], a[0]);
    assert Peers(le, a[0], a)[0] == a[0];
    assert Peers(le, a[0], b)[0] == b[0];
  }

  /** The sort is the only sorted arrangement that keeps ties in order. */
  lemma SortIsTheStableSort<T(!new)>(le: (T, T) -> bool, s: seq<T>, t: seq<T>)
    requires TotalPreorder(le)
    ensures t == Sort(le, s) <==> (Sorted(le, t) && SamePeers(le, t, s))
  {
    SortSorts(le, s);
    forall y ensures Peers(le, y, Sort(le, s)) == Peers(le, y, s) {
      SortIsStable(le, s, y);
    }
    if Sorted(le, t) && SamePeers(le, t, s) {
      forall y ensures Peers(le, y, t) == Peers(le, y, Sort(le, s)) {
        assert Peers(le, y, t) == Peers(le, y, s);
      }
      SortedIsUnique(le, t, Sort(le, s));
    }
  }

  lemma SortedUnchanged<T(!new)>(le: (T, T) -> bool, s: seq<T>)
    requires TotalPreorder(le) && Sorted(le, s)
    ensures Sort(le, s) == s
  {
    SortIsTheStableSort(le, s, s);
  }

  // ----------------------------------------------------- relations of pairs

  ghost predicate Pairwise<T(!new)>(rel: (T, T) -> bool, s: seq<T>) {
    forall i, j :: 0 <= i < j < |s| ==> rel(s[i], s[j])
  }

  lemma {:induction false} TwoPlaces<T>(s: seq<T>, x: T) returns (i: nat, j: nat)
    requires multiset(s)[x] >= 2
    ensures i < j < |s| && s[i] == s[j] == x
  {
    var n := |s| - 1;
    assert s == s[..n] + [s[n]];
    if s[n] == x {
      assert x in multiset(s[..n]);
      i :| 0 <= i < n && s[i] == x;
      j := n;
    } else {
      i, j := TwoPlaces(s[..n], x);
    }
  }

  lemma CountedTwice<T>(s: seq<T>, i: nat, j: nat)
    requires i < j < |s| && s[i] == s[j]
    ensures multiset(s)[s[i]] >= 2
  {
    assert s == s[..i] + [s[i]] + s[i + 1..j] + [s[j]] + s[j + 1..];
  }

  /** A symmetric relation between all pairs survives any rearrangement. */
  lemma PairwisePermuted<T(!new)>(rel: (T, T) -> bool, a: seq<T>, b: seq<T>)
    requires Pairwise(rel, a) && multiset(a) == multiset(b) && forall x, y :: rel(x, y) ==> rel(y, x)
    ensures Pairwise(rel, b)
  {
    forall i, j | 0 <= i < j < |b| ensures rel(b[i], b[j]) {
      if b[i] == b[j] {
        CountedTwice(b, i, j);
        var k, l := TwoPlaces(a, b[i]);
        assert rel(a[k], a[l]);
      } else {
        SameMembers(a, b, b[i]);
        SameMembers(a, b, b[j]);
        var k :| 0 <= k < |a| && a[k] == b[i];
        var l :| 0 <= l < |a| && a[l] == b[j];
        assert k < l ==> rel(a[k], a[l]);
        assert l < k ==> rel(a[l], a[k]);
      }
    }
  }

  // ------------------------------------------------------------------ texts

  /** Code points compared left to right, a prefix first. */
  predicate Precedes(a: string, b: string) {
    if b == [] then false
    else if a == [] then true
    else if a[0] != b[0] then a[0] < b[0]
    else Precedes(a[1..], b[1..])
  }

  /** Up to k the texts agree; there the first one ends, or shows the smaller character. */
  ghost predicate PartAt(a: string, b: string, k: nat) {
    && k <= |a| && k < |b| && a[..k] == b[..k] && (k == |a| || a[k] < b[k])
  }

  lemma {:induction false} PrecedesIsLexicographic(a: string, b: string)
    ensures Precedes(a, b) <==> exists k: nat :: PartAt(a, b, k)
  {
    if b == [] || a == [] {
      assert b != [] ==> PartAt(a, b, 0);
    } else if a[0] != b[0] {
      assert a[0] < b[0] ==> PartAt(a, b, 0);
      assert forall k: nat :: PartAt(a, b, k) && k > 0 ==> a[..k][0] == b[..k][0];
    } else {
      PrecedesIsLexicographic(a[1..], b[1..]);
      if k: nat :| PartAt(a[1..], b[1..], k) {
        assert a[..k + 1] == [a[0]] + a[1..][..k] && b[..k + 1] == [b[0]] + b[1..][..k];
        assert PartAt(a, b, k + 1);
      }
      if k: nat :| PartAt(a, b, k) {
        assert k > 0;
        assert a[1..][..k - 1] == a[..k][1..] && b[1..][..k - 1] == b[..k][1..];
        assert PartAt(a[1..], b[1..], k - 1);
      }
    }
  }

  lemma {:induction false} PrecedesTotal(a: string, b: string)
    ensures Precedes(a, b) || Precedes(b, a) || a == b
    ensures !(Precedes(a, b) && Precedes(b, a)) && !Precedes(a, a)
  {
    if a != [] && b != [] && a[0] == b[0] {
      PrecedesTotal(a[1..], b[1..]);
    }
    if a == [] {
    } else {
      PrecedesTotal(a[1..], a[1..]);
    }
  }

  lemma {:induction false} PrecedesTransitive(a: string, b: string, c: string)
    requires Precedes(a, b) && Precedes(b, c)
    ensures Precedes(a, c)
  {
    if a != [] && a[0] == b[0] == c[0] {
      PrecedesTransitive(a[1..], b[1..], c[1..]);
    }
  }
}
