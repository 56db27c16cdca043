/** Registrable domains from a public suffix list (src/aegisflow/public_suffix.py), against the Formal Algorithm of
    the Public Suffix List specification (publicsuffix.org). Names are label sequences, leftmost label first. */
module PublicSuffix {
  import opened Records

  type Name = seq<string>

  datatype SuffixList = SuffixList(exact: set<Name>, wildcards: set<Name>, exceptions: set<Name>)

  /** What the constructor lets through: no empty rule. */
  predicate Proper(l: SuffixList) {
    [] !in l.exact && [] !in l.wildcards && [] !in l.exceptions
  }

  // ------------------------------------------------------------ reading rules

  /** A line of the snapshot: nothing to read, or a rule with or without a leading exclamation mark. */
  datatype Line = Skipped | RuleLine(marked: bool, labels: Name)

  predicate Plain(text: string) {
    '*' !in text && '!' !in text
  }

  predicate IsWildcard(line: Line)
    requires line.RuleLine?
  {
    !line.marked && |line.labels| > 1 && line.labels[0] == "*"
  }

  function Body(line: Line): Name
    requires line.RuleLine?
  {
    if IsWildcard(line) then line.labels[1..] else line.labels
  }

  predicate Readable(line: Line) {
    line.RuleLine? ==> Body(line) != [] && forall i | 0 <= i < |Body(line)| :: Plain(Body(line)[i])
  }

  ghost predicate Collects(lines: seq<Line>, l: SuffixList) {
    && (forall n :: n in l.exact <==> exists i :: 0 <= i < |lines| && IsExact(lines[i]) && Body(lines[i]) == n)
    && (forall n :: n in l.wildcards <==> exists i :: 0 <= i < |lines| && lines[i].RuleLine? && IsWildcard(lines[i]) && Body(lines[i]) == n)
    && (forall n :: n in l.exceptions <==> exists i :: 0 <= i < |lines| && lines[i].RuleLine? && lines[i].marked && Body(lines[i]) == n)
  }

  predicate IsExact(line: Line) {
    line.RuleLine? && !line.marked && !IsWildcard(line)
  }

  function AddRule(l: SuffixList, line: Line): SuffixList {
    if line.Skipped? then l
    else if line.marked then l.(exceptions := l.exceptions + {Body(line)})
    else if IsWildcard(line) then l.(wildcards := l.wildcards + {Body(line)})
    else l.(exact := l.exact + {Body(line)})
  }

  function RulesOf(lines: seq<Line>): SuffixList {
    if lines == [] then SuffixList({}, {}, {}) else AddRule(RulesOf(lines[..|lines| - 1]), lines[|lines| - 1])
  }

  /** The sets hold exactly the rules of the lines; an unreadable rule or a snapshot without exact rules is refused. */
  method ReadRules(lines: seq<Line>) returns (r: Result<SuffixList, string>)
    ensures r.Ok? <==> (forall i :: 0 <= i < |lines| ==> Readable(lines[i])) && exists i :: 0 <= i < |lines| && IsExact(lines[i])
    ensures r.Ok? ==> Proper(r.value) && Collects(lines, r.value)
  {
    var l := SuffixList({}, {}, {});
    for i := 0 to |lines|
      invariant forall j :: 0 <= j < i ==> Readable(lines[j])
      invariant l == RulesOf(lines[..i]) && Proper(l)
    {
      assert lines[..i + 1][..i] == lines[..i];
      var line := lines[i];
      if !Readable(line) {
        return Err("Invalid public suffix rule");
      }
      l := AddRule(l, line);
    }
    assert lines[..|lines|] == lines;
    RulesCollect(lines);
    ExactFound(lines, l);
    if l.exact == {} {
      return Err("Public suffix snapshot has no exact rules");
    }
    r := Ok(l);
  }

  lemma ExactFound(lines: seq<Line>, l: SuffixList)
    requires Collects(lines, l)
    ensures l.exact != {} <==> exists i :: 0 <= i < |lines| && IsExact(lines[i])
  {
    if l.exact != {} {
      var n :| n in l.exact;
    }
    if i :| 0 <= i < |lines| && IsExact(lines[i]) {
      assert Body(lines[i]) in l.exact;
    }
  }

  lemma {:induction false} RulesCollect(lines: seq<Line>)
    ensures Collects(lines, RulesOf(lines))
  {
    if lines == [] {
    } else {
      var n := |lines| - 1;
      RulesCollect(lines[..n]);
      CollectsStep(lines[..n], lines[n], RulesOf(lines[..n]), RulesOf(lines));
      assert lines == lines[..n] + [lines[n]];
    }
  }

  lemma CollectsStep(lines: seq<Line>, line: Line, before: SuffixList, after: SuffixList)
    requires Collects(lines, before) && after == AddRule(before, line)
    ensures Collects(lines + [line], after)
  {
    var wider := lines + [line];
    assert forall i :: 0 <= i < |lines| ==> wider[i] == lines[i];
    assert wider[|lines|] == line;
  }

  // ---------------------------------------------------------- the computation

  /** The longest exception that ends the name, as the index where it begins. */
  function ExceptionAt(l: SuffixList, d: Name, from: nat): (at: Option<nat>)
    requires from <= |d|
    ensures at.Some? ==> from <= at.value < |d| && d[at.value..] in l.exceptions
    ensures forall i :: from <= i < (if at.Some? then at.value else |d|) ==> d[i..] !in l.exceptions
    decreases |d| - from
  {
    if from == |d| then None else if d[from..] in l.exceptions then Some(from) else ExceptionAt(l, d, from + 1)
  }

  function Longer(a: nat, b: nat): nat {
    if a < b then b else a
  }

  /** The suffix length after looking at the endings that begin before `n`. */
  function SuffixLength(l: SuffixList, d: Name, n: nat): nat
    requires n <= |d|
  {
    if n == 0 then 1
    else
      var index, length := n - 1, |d| - (n - 1);
      var k := SuffixLength(l, d, n - 1);
      var k' := if d[index..] in l.exact then Longer(k, length) else k;
      if index > 0 && d[index..] in l.wildcards then Longer(k', length + 1) else k'
  }

  function LastLabels(d: Name, n: nat): Name {
    if n < |d| then d[|d| - n..] else d
  }

  function Registrable(l: SuffixList, d: Name): Name {
    match ExceptionAt(l, d, 0)
    case Some(at) => d[at..]
    case None => LastLabels(d, SuffixLength(l, d, |d|) + 1)
  }

  method RegistrableDomain(l: SuffixList, d: Name) returns (r: Name)
    ensures r == Registrable(l, d)
  {
    var suffixLength := 1;
    for index := 0 to |d|
      invariant suffixLength == SuffixLength(l, d, index)
      invariant ExceptionAt(l, d, index) == ExceptionAt(l, d, 0)
    {
      var suffix, length := d[index..], |d| - index;
      if suffix in l.exceptions {
        return d[|d| - length..];
      }
      if suffix in l.exact {
        suffixLength := Longer(suffixLength, length);
      }
      if index > 0 && suffix in l.wildcards {
        suffixLength := Longer(suffixLength, length + 1);
      }
    }
    r := LastLabels(d, suffixLength + 1);
  }

  // ------------------------------------------------------ the formal algorithm

  datatype Label = Any | Exactly(text: string)
  datatype Rule = Rule(labels: seq<Label>, exception: bool)

  function Labels(n: Name): (labels: seq<Label>)
    ensures |labels| == |n| && forall i :: 0 <= i < |n| ==> labels[i] == Exactly(n[i])
  {
    seq(|n|, i requires 0 <= i < |n| => Exactly(n[i]))
  }

  /** The rules the three sets stand for. */
  predicate InList(l: SuffixList, r: Rule) {
    || (exists n | n in l.exact :: r == Rule(Labels(n), false))
    || (exists n | n in l.wildcards :: r == Rule([Any] + Labels(n), false))
    || (exists n | n in l.exceptions :: r == Rule(Labels(n), true))
  }

  /** A name matches a rule label by label from the right; an asterisk matches any label. */
  predicate Matches(d: Name, r: Rule) {
    && |r.labels| <= |d|
    && forall i | 0 <= i < |r.labels| :: r.labels[i] == Any || r.labels[i] == Exactly(d[|d| - |r.labels| + i])
  }

  const DEFAULT: Rule := Rule([Any], false)

  ghost predicate Candidate(l: SuffixList, d: Name, r: Rule) {
    InList(l, r) && Matches(d, r)
  }

  /** The matching exception, else the matching rule with the most labels, else the lone asterisk. */
  ghost predicate Prevails(l: SuffixList, d: Name, r: Rule) {
    if exists x :: Candidate(l, d, x) && x.exception then
      Candidate(l, d, r) && r.exception && forall x :: Candidate(l, d, x) && x.exception ==> |x.labels| <= |r.labels|
    else if exists x :: Candidate(l, d, x) then
      Candidate(l, d, r) && forall x :: Candidate(l, d, x) ==> |x.labels| <= |r.labels|
    else r == DEFAULT
  }

  /** The public suffix and one label more, an exception losing its leftmost label first; a name with no label more
      is its own group. */
  function Formal(d: Name, r: Rule): Name {
    LastLabels(d, if r.exception then |r.labels| else |r.labels| + 1)
  }

  lemma ExactMatches(d: Name, n: Name, exception: bool)
    ensures Matches(d, Rule(Labels(n), exception)) <==> |n| <= |d| && d[|d| - |n|..] == n
  {
    var r := Rule(Labels(n), exception);
    if Matches(d, r) {
      forall i | 0 <= i < |n| ensures d[|d| - |n|..][i] == n[i] {
        assert r.labels[i] == Exactly(n[i]);
      }
    }
  }

  lemma WildcardMatches(d: Name, n: Name)
    ensures Matches(d, Rule([Any] + Labels(n), false)) <==> |n| < |d| && d[|d| - |n|..] == n
  {
    var r := Rule([Any] + Labels(n), false);
    assert forall i :: 0 < i < |r.labels| ==> r.labels[i] == Exactly(n[i - 1]);
    if Matches(d, r) {
      forall i | 0 <= i < |n| ensures d[|d| - |n|..][i] == n[i] {
        assert r.labels[i + 1] == Exactly(n[i]);
      }
    }
  }

  /** A suffix of length k is reached by an exact rule or by a wildcard. */
  ghost predicate Reaches(l: SuffixList, d: Name, k: nat) {
    || (0 < k <= |d| && d[|d| - k..] in l.exact)
    || (1 < k <= |d| && d[|d| - (k - 1)..] in l.wildcards)
  }

  lemma {:induction false} SuffixLengthIs(l: SuffixList, d: Name, n: nat)
    requires n <= |d|
    ensures SuffixLength(l, d, n) >= 1
    ensures forall i :: 0 <= i < n && d[i..] in l.exact ==> |d| - i <= SuffixLength(l, d, n)
    ensures forall i :: 0 < i < n && d[i..] in l.wildcards ==> |d| - i + 1 <= SuffixLength(l, d, n)
    ensures SuffixLength(l, d, n) == 1 || Reaches(l, d, SuffixLength(l, d, n))
  {
    if n > 0 {
      var shorter, longer := SuffixLength(l, d, n - 1), SuffixLength(l, d, n);
      SuffixLengthIs(l, d, n - 1);
      SuffixLengthStep(l, d, n, shorter, longer);
      forall i | 0 <= i < n && d[i..] in l.exact ensures |d| - i <= longer {
        if i < n - 1 {
          assert |d| - i <= shorter;
        }
      }
      forall i | 0 < i < n && d[i..] in l.wildcards ensures |d| - i + 1 <= longer {
        if i < n - 1 {
          assert |d| - i + 1 <= shorter;
        }
      }
    }
  }

  /** One label more to the right: the length grows to what that ending gives, and to nothing else. */
  lemma SuffixLengthStep(l: SuffixList, d: Name, n: nat, shorter: nat, longer: nat)
    requires 0 < n <= |d| && shorter == SuffixLength(l, d, n - 1) && longer == SuffixLength(l, d, n)
    ensures shorter <= longer
    ensures d[n - 1..] in l.exact ==> |d| - (n - 1) <= longer
    ensures n > 1 && d[n - 1..] in l.wildcards ==> |d| - (n - 1) + 1 <= longer
    ensures longer == shorter || Reaches(l, d, longer)
  {
    var length := |d| - (n - 1);
    assert |d| - length == n - 1 && |d| - (length + 1 - 1) == n - 1;
  }

  /** Every matching rule that is no exception is reached, and what is reached is such a rule. */
  lemma CandidateReaches(l: SuffixList, d: Name, r: Rule)
    requires Proper(l) && Candidate(l, d, r) && !r.exception
    ensures 1 <= |r.labels| <= SuffixLength(l, d, |d|)
  {
    SuffixLengthIs(l, d, |d|);
    if n :| n in l.exact && r == Rule(Labels(n), false) {
      ExactMatches(d, n, false);
      assert d[|d| - |n|..] in l.exact;
    } else {
      var n :| n in l.wildcards && r == Rule([Any] + Labels(n), false);
      WildcardMatches(d, n);
      assert d[|d| - |n|..] in l.wildcards;
    }
  }

  lemma ReachedIsCandidate(l: SuffixList, d: Name, k: nat) returns (r: Rule)
    requires Reaches(l, d, k)
    ensures Candidate(l, d, r) && !r.exception && |r.labels| == k
  {
    if 0 < k <= |d| && d[|d| - k..] in l.exact {
      var n := d[|d| - k..];
      r := Rule(Labels(n), false);
      ExactMatches(d, n, false);
    } else {
      var n := d[|d| - (k - 1)..];
      r := Rule([Any] + Labels(n), false);
      WildcardMatches(d, n);
    }
  }

  lemma ExceptionIsCandidate(l: SuffixList, d: Name, i: nat) returns (r: Rule)
    requires i < |d| && d[i..] in l.exceptions
    ensures Candidate(l, d, r) && r.exception && |r.labels| == |d| - i
  {
    r := Rule(Labels(d[i..]), true);
    ExactMatches(d, d[i..], true);
  }

  lemma CandidateException(l: SuffixList, d: Name, r: Rule)
    requires Proper(l) && Candidate(l, d, r) && r.exception
    ensures 1 <= |r.labels| <= |d| && d[|d| - |r.labels|..] in l.exceptions
  {
    var n :| n in l.exceptions && r == Rule(Labels(n), true);
    ExactMatches(d, n, true);
  }

  /** The code's answer is the one of the formal algorithm: some rule prevails, and every prevailing rule gives it. */
  lemma RegistrableIsFormal(l: SuffixList, d: Name)
    requires Proper(l) && d != []
    ensures exists r :: Prevails(l, d, r)
    ensures forall r :: Prevails(l, d, r) ==> Registrable(l, d) == Formal(d, r)
  {
    if ExceptionAt(l, d, 0).Some? {
      ByException(l, d);
    } else {
      forall x | Candidate(l, d, x) ensures !x.exception {
        if x.exception {
          CandidateException(l, d, x);
        }
      }
      ByLength(l, d);
    }
  }

  lemma ByException(l: SuffixList, d: Name)
    requires Proper(l) && ExceptionAt(l, d, 0).Some?
    ensures exists r :: Prevails(l, d, r)
    ensures forall r :: Prevails(l, d, r) ==> Registrable(l, d) == Formal(d, r)
  {
    var at := ExceptionAt(l, d, 0).value;
    var top := ExceptionIsCandidate(l, d, at);
    forall x | Candidate(l, d, x) && x.exception ensures |x.labels| <= |d| - at {
      CandidateException(l, d, x);
    }
    assert Prevails(l, d, top);
    forall r | Prevails(l, d, r) ensures Registrable(l, d) == Formal(d, r) {
      assert |r.labels| == |d| - at;
    }
  }

  lemma ByLength(l: SuffixList, d: Name)
    requires Proper(l) && ExceptionAt(l, d, 0).None? && forall x :: Candidate(l, d, x) ==> !x.exception
    ensures exists r :: Prevails(l, d, r)
    ensures forall r :: Prevails(l, d, r) ==> Registrable(l, d) == Formal(d, r)
  {
    var k := SuffixLength(l, d, |d|);
    var top := LongestCandidate(l, d);
    assert Prevails(l, d, top);
    forall r | Prevails(l, d, r) ensures Registrable(l, d) == Formal(d, r) {
      assert |r.labels| == k && !r.exception;
    }
  }

  /** A longest matching rule, or the default, with as many labels as the code counts. */
  lemma LongestCandidate(l: SuffixList, d: Name) returns (top: Rule)
    requires Proper(l) && forall x :: Candidate(l, d, x) ==> !x.exception
    ensures forall x :: Candidate(l, d, x) ==> |x.labels| <= |top.labels|
    ensures Candidate(l, d, top) || (top == DEFAULT && forall x :: !Candidate(l, d, x))
    ensures |top.labels| == SuffixLength(l, d, |d|) && !top.exception
  {
    var k := SuffixLength(l, d, |d|);
    SuffixLengthIs(l, d, |d|);
    forall x | Candidate(l, d, x) ensures 1 <= |x.labels| <= k {
      CandidateReaches(l, d, x);
    }
    if Reaches(l, d, k) {
      top := ReachedIsCandidate(l, d, k);
    } else if x :| Candidate(l, d, x) {
      top := x;
    } else {
      top := DEFAULT;
    }
  }

  // --------------------------------------------------------------- grouping

  lemma ExceptionOfEnding(l: SuffixList, d: Name, from: nat)
    requires from < |d| && ExceptionAt(l, d, 0).None?
    ensures ExceptionAt(l, d[from..], 0).None?
  {
    var e := d[from..];
    assert forall i :: 0 <= i <= |e| ==> e[i..] == d[from + i..];
  }

  /** A registrable domain is its own registrable domain, so grouping by it is stable. */
  lemma RegistrableIsIdempotent(l: SuffixList, d: Name)
    requires d != []
    ensures Registrable(l, Registrable(l, d)) == Registrable(l, d)
  {
    var at := ExceptionAt(l, d, 0);
    if at.Some? {
      var e := d[at.value..];
      assert e[0..] == e;
    } else {
      var k := SuffixLength(l, d, |d|);
      if k + 1 < |d| {
        var e := d[|d| - (k + 1)..];
        ExceptionOfEnding(l, d, |d| - (k + 1));
        SameSuffixLength(l, d, e, |d| - (k + 1));
      }
    }
  }

  /** A name's ending reaches the lengths it has that the name reaches. */
  lemma ReachesEnding(l: SuffixList, d: Name, e: Name, from: nat, k: nat)
    requires from <= |d| && e == d[from..] && 1 <= k <= |e|
    ensures Reaches(l, e, k) <==> Reaches(l, d, k)
  {
    assert e[|e| - k..] == d[|d| - k..];
    assert e[|e| - (k - 1)..] == d[|d| - (k - 1)..];
  }

  lemma SameSuffixLength(l: SuffixList, d: Name, e: Name, from: nat)
    requires from < |d| && e == d[from..] && |e| == SuffixLength(l, d, |d|) + 1
    ensures SuffixLength(l, e, |e|) == SuffixLength(l, d, |d|)
  {
    var k, m := SuffixLength(l, d, |d|), SuffixLength(l, e, |e|);
    SuffixLengthIs(l, d, |d|);
    SuffixLengthIs(l, e, |e|);
    ReachesEnding(l, d, e, from, k);
    ReachesEnding(l, d, e, from, m);
  }
}
