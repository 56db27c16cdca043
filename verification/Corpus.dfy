/** The labelled domain corpus and its leakage checks (src/aegisflow/dns_corpus.py, src/aegisflow/dns_model.py). */
module Corpus {
  import opened Records
  import opened PublicSuffix

  datatype Split = Train | Validation | Test
  datatype Assignment = Whole(split: Split) | ByGroup

  /** One labelled name; families and names are in normal form. */
  datatype Row = Row(domain: Name, malicious: bool, family: string, split: Split)

  /** A pinned source: its lines in normal form, None where the name is invalid. */
  datatype Source = Source(
    malicious: bool, family: string, assignment: Assignment, sha256: string, records: int, lines: seq<Option<Name>>)

  datatype LoadError =
    | InvalidFamily | SplitMaliciousFamily | DuplicateSource | CountMismatch | TooLarge | InvalidName
    | Conflict | GroupLeak | InvalidRow | DuplicateRow | DomainLeak | FamilyLeak | OneClass

  const LIMIT := 200_000

  /** Sixty, twenty and twenty of a hundred buckets. `bucket` stands for the seeded SHA-256 of a group. */
  function GroupSplit(bucket: Name -> nat, group: Name): Split {
    var b := bucket(group) % 100;
    if b < 60 then Train else if b < 80 then Validation else Test
  }

  // ------------------------------------------------------------ reading lines

  datatype Load = Load(rows: seq<Row>, seen: map<Name, Row>, groups: map<Name, Split>, raw: nat, duplicates: nat)

  const NOTHING: Load := Load([], map[], map[], 0, 0)

  function RowFor(l: SuffixList, bucket: Name -> nat, s: Source, d: Name): Row {
    Row(d, s.malicious, s.family, if s.assignment.Whole? then s.assignment.split else GroupSplit(bucket, Registrable(l, d)))
  }

  function LineStep(l: SuffixList, bucket: Name -> nat, s: Source, load: Load, line: Option<Name>): Result<Load, LoadError> {
    if line.None? || line.value == [] then Err(InvalidName)
    else
      var d := line.value;
      var row, group := RowFor(l, bucket, s, d), Registrable(l, d);
      if d in load.seen then
        if load.seen[d] != row then Err(Conflict) else Ok(load.(raw := load.raw + 1, duplicates := load.duplicates + 1))
      else if group in load.groups && load.groups[group] != row.split then Err(GroupLeak)
      else Ok(Load(load.rows + [row], load.seen[d := row], load.groups[group := row.split], load.raw + 1, load.duplicates))
  }

  function LinesFrom(l: SuffixList, bucket: Name -> nat, s: Source, load: Load, lines: seq<Option<Name>>): Result<Load, LoadError> {
    if lines == [] then Ok(load)
    else
      match LinesFrom(l, bucket, s, load, lines[..|lines| - 1])
      case Err(e) => Err(e)
      case Ok(done) => LineStep(l, bucket, s, done, lines[|lines| - 1])
  }

  function SourceCheck(s: Source, hashes: set<string>, raw: nat): Option<LoadError> {
    if s.family == "" then Some(InvalidFamily)
    else if s.assignment.ByGroup? && s.malicious then Some(SplitMaliciousFamily)
    else if s.sha256 in hashes then Some(DuplicateSource)
    else if s.records < 1 || |s.lines| != s.records then Some(CountMismatch)
    else if raw + |s.lines| > LIMIT then Some(TooLarge)
    else None
  }

  function Hashes(sources: seq<Source>): set<string> {
    set s | s in sources :: s.sha256
  }

  function SourcesFrom(l: SuffixList, bucket: Name -> nat, sources: seq<Source>): Result<Load, LoadError> {
    if sources == [] then Ok(NOTHING)
    else
      var n := |sources| - 1;
      match SourcesFrom(l, bucket, sources[..n])
      case Err(e) => Err(e)
      case Ok(load) =>
        match SourceCheck(sources[n], Hashes(sources[..n]), load.raw)
        case Some(e) => Err(e)
        case None => LinesFrom(l, bucket, sources[n], load, sources[n].lines)
  }

  // --------------------------------------------------------------- validation

  function Families(rows: seq<Row>, split: Split): set<string> {
    set r | r in rows && r.malicious && r.split == split :: r.family
  }

  predicate FamiliesApart(rows: seq<Row>) {
    && Families(rows, Train) * Families(rows, Validation) == {}
    && Families(rows, Train) * Families(rows, Test) == {}
    && Families(rows, Validation) * Families(rows, Test) == {}
  }

  /** validate_leakage_safe_split: the first check that fails. */
  method Validate(rows: seq<Row>) returns (e: Option<LoadError>)
    ensures e == None <==> Clean(rows) && FamiliesApart(rows)
    ensures e == Some(FamilyLeak) <==> Clean(rows) && !FamiliesApart(rows)
    ensures e.Some? ==> e.value in {InvalidRow, DuplicateRow, DomainLeak, FamilyLeak}
  {
    var seen: set<(Name, Split)>, splits: map<Name, set<Split>> := {}, map[];
    for i := 0 to |rows|
      invariant Tracked(rows[..i], seen, splits)
      invariant forall j :: 0 <= j < i ==> !Blemished(rows, j)
    {
      var row := rows[i];
      if row.domain == [] || row.family == "" {
        assert Blemished(rows, i);
        return Some(InvalidRow);
      }
      if (row.domain, row.split) in seen {
        SeenBefore(rows, i, seen, splits);
        return Some(DuplicateRow);
      }
      NotSeenBefore(rows, i, seen, splits);
      assert rows[..i + 1] == rows[..i] + [row];
      seen := seen + {(row.domain, row.split)};
      splits := splits[row.domain := (if row.domain in splits then splits[row.domain] else {}) + {row.split}];
    }
    assert rows[..|rows|] == rows;
    if d :| d in splits && |splits[d]| > 1 {
      LeakIsReal(rows, seen, splits, d);
      return Some(DomainLeak);
    }
    NoLeakIsClean(rows, seen, splits);
    if !FamiliesApart(rows) {
      return Some(FamilyLeak);
    }
    e := None;
  }

  /** Invalid in itself, or the same name in the same split as an earlier row. */
  ghost predicate Blemished(rows: seq<Row>, i: nat)
    requires i < |rows|
  {
    || rows[i].domain == [] || rows[i].family == ""
    || exists j :: 0 <= j < i && rows[j].domain == rows[i].domain && rows[j].split == rows[i].split
  }

  /** Every name once, so in one split only. */
  ghost predicate Clean(rows: seq<Row>) {
    && (forall i :: 0 <= i < |rows| ==> rows[i].domain != [] && rows[i].family != "")
    && (forall i, j :: 0 <= i < j < |rows| ==> rows[i].domain != rows[j].domain)
  }

  ghost predicate Tracked(rows: seq<Row>, seen: set<(Name, Split)>, splits: map<Name, set<Split>>) {
    && (forall d, s :: (d, s) in seen <==> exists r :: r in rows && r.domain == d && r.split == s)
    && (forall d, s :: (d in splits && s in splits[d]) <==> (d, s) in seen)
  }

  lemma SeenBefore(rows: seq<Row>, i: nat, seen: set<(Name, Split)>, splits: map<Name, set<Split>>)
    requires i < |rows| && Tracked(rows[..i], seen, splits) && (rows[i].domain, rows[i].split) in seen
    ensures Blemished(rows, i)
  {
    var r :| r in rows[..i] && r.domain == rows[i].domain && r.split == rows[i].split;
    var j :| 0 <= j < i && rows[j] == r;
  }

  lemma NotSeenBefore(rows: seq<Row>, i: nat, seen: set<(Name, Split)>, splits: map<Name, set<Split>>)
    requires i < |rows| && Tracked(rows[..i], seen, splits) && (rows[i].domain, rows[i].split) !in seen
    requires rows[i].domain != [] && rows[i].family != ""
    ensures !Blemished(rows, i)
  {
    assert forall j :: 0 <= j < i ==> rows[j] in rows[..i];
  }

  lemma LeakIsReal(rows: seq<Row>, seen: set<(Name, Split)>, splits: map<Name, set<Split>>, d: Name)
    requires Tracked(rows, seen, splits) && d in splits && |splits[d]| > 1
    ensures exists i, j :: 0 <= i < j < |rows| && rows[i].domain == rows[j].domain && rows[i].split != rows[j].split
  {
    var s :| s in splits[d];
    var rest := splits[d] - {s};
    assert splits[d] == rest + {s} && rest != {};
    var t :| t in rest;
    assert (d, s) in seen && (d, t) in seen;
    var x :| x in rows && x.domain == d && x.split == s;
    var y :| y in rows && y.domain == d && y.split == t;
    var i :| 0 <= i < |rows| && rows[i] == x;
    var j :| 0 <= j < |rows| && rows[j] == y;
    if i > j { i, j := j, i; }
    assert rows[i].domain == rows[j].domain && rows[i].split != rows[j].split;
  }

  lemma NoLeakIsClean(rows: seq<Row>, seen: set<(Name, Split)>, splits: map<Name, set<Split>>)
    requires Tracked(rows, seen, splits) && forall i :: 0 <= i < |rows| ==> !Blemished(rows, i)
    requires forall d :: d in splits ==> |splits[d]| <= 1
    ensures Clean(rows)
  {
    forall i | 0 <= i < |rows| ensures rows[i].domain != [] && rows[i].family != "" {
      assert !Blemished(rows, i);
    }
    forall i, j | 0 <= i < j < |rows| ensures rows[i].domain != rows[j].domain {
      assert !Blemished(rows, j);
      if rows[i].domain == rows[j].domain {
        var d, s, t := rows[i].domain, rows[i].split, rows[j].split;
        assert rows[i] in rows && rows[j] in rows;
        assert (d, s) in seen && (d, t) in seen;
        OneMember(splits[d], s, t);
      }
    }
  }

  lemma OneMember(set1: set<Split>, s: Split, t: Split)
    requires |set1| <= 1 && s in set1 && t in set1
    ensures s == t
  {
    var rest := set1 - {s};
    assert set1 == rest + {s} && |rest| == 0;
  }

  // ------------------------------------------------------------- the loader

  predicate AllClasses(rows: seq<Row>) {
    forall split: Split, malicious: bool :: HasClass(rows, split, malicious)
  }

  method LoadCorpus(l: SuffixList, bucket: Name -> nat, sources: seq<Source>) returns (r: Result<Load, LoadError>)
    ensures var read := SourcesFrom(l, bucket, sources);
      r == if read.Err? then read
           else if !FamiliesApart(read.value.rows) then Err(FamilyLeak)
           else if !AllClasses(read.value.rows) then Err(OneClass)
           else read
    ensures r.Ok? ==> Separated(l, r.value) && r.value.raw == TotalLines(sources)
  {
    var load, hashes: set<string> := NOTHING, {};
    for i := 0 to |sources|
      invariant SourcesFrom(l, bucket, sources[..i]) == Ok(load) && hashes == Hashes(sources[..i])
    {
      SourcePrefix(l, bucket, sources, i);
      var source := sources[i];
      var wrong := SourceCheck(source, hashes, load.raw);
      if wrong.Some? {
        return Err(wrong.value);
      }
      var next := ReadLines(l, bucket, source, load);
      if next.Err? {
        return next;
      }
      load, hashes := next.value, hashes + {source.sha256};
    }
    assert sources[..|sources|] == sources;
    LoadIsSound(l, bucket, sources);
    var leak := Validate(load.rows);
    if leak.Some? {
      return Err(leak.value);
    }
    if !AllClasses(load.rows) {
      return Err(OneClass);
    }
    r := Ok(load);
  }

  method ReadLines(l: SuffixList, bucket: Name -> nat, s: Source, start: Load) returns (r: Result<Load, LoadError>)
    ensures r == LinesFrom(l, bucket, s, start, s.lines)
  {
    var load := start;
    for i := 0 to |s.lines|
      invariant LinesFrom(l, bucket, s, start, s.lines[..i]) == Ok(load)
    {
      LinePrefix(l, bucket, s, start, i);
      var step := LineStep(l, bucket, s, load, s.lines[i]);
      if step.Err? {
        return step;
      }
      load := step.value;
    }
    assert s.lines[..|s.lines|] == s.lines;
    r := Ok(load);
  }

  predicate HasClass(rows: seq<Row>, split: Split, malicious: bool) {
    exists i | 0 <= i < |rows| :: rows[i].split == split && rows[i].malicious == malicious
  }

  lemma LinePrefix(l: SuffixList, bucket: Name -> nat, s: Source, start: Load, i: nat)
    requires i < |s.lines| && LinesFrom(l, bucket, s, start, s.lines[..i]).Ok?
    ensures var step := LineStep(l, bucket, s, LinesFrom(l, bucket, s, start, s.lines[..i]).value, s.lines[i]);
      LinesFrom(l, bucket, s, start, s.lines[..i + 1]) == step && (step.Err? ==> LinesFrom(l, bucket, s, start, s.lines) == step)
  {
    assert s.lines[..i + 1][..i] == s.lines[..i];
    LineErrorStays(l, bucket, s, start, s.lines, i + 1);
  }

  lemma {:induction false} LineErrorStays(l: SuffixList, bucket: Name -> nat, s: Source, start: Load, lines: seq<Option<Name>>, n: nat)
    requires n <= |lines|
    ensures var part := LinesFrom(l, bucket, s, start, lines[..n]); part.Err? ==> LinesFrom(l, bucket, s, start, lines) == part
  {
    if n == |lines| {
      assert lines[..n] == lines;
    } else {
      LineErrorStays(l, bucket, s, start, lines[..|lines| - 1], n);
      assert lines[..|lines| - 1][..n] == lines[..n];
    }
  }

  function SourceStep(l: SuffixList, bucket: Name -> nat, s: Source, hashes: set<string>, load: Load): Result<Load, LoadError> {
    match SourceCheck(s, hashes, load.raw)
    case Some(e) => Err(e)
    case None => LinesFrom(l, bucket, s, load, s.lines)
  }

  lemma SourcePrefix(l: SuffixList, bucket: Name -> nat, sources: seq<Source>, i: nat)
    requires i < |sources| && SourcesFrom(l, bucket, sources[..i]).Ok?
    ensures var step := SourceStep(l, bucket, sources[i], Hashes(sources[..i]), SourcesFrom(l, bucket, sources[..i]).value);
      && SourcesFrom(l, bucket, sources[..i + 1]) == step && (step.Err? ==> SourcesFrom(l, bucket, sources) == step)
      && Hashes(sources[..i + 1]) == Hashes(sources[..i]) + {sources[i].sha256}
  {
    assert sources[..i + 1][..i] == sources[..i];
    assert sources[..i + 1] == sources[..i] + [sources[i]];
    SourceErrorStays(l, bucket, sources, i + 1);
  }

  lemma {:induction false} SourceErrorStays(l: SuffixList, bucket: Name -> nat, sources: seq<Source>, n: nat)
    requires n <= |sources|
    ensures var part := SourcesFrom(l, bucket, sources[..n]); part.Err? ==> SourcesFrom(l, bucket, sources) == part
  {
    if n == |sources| {
      assert sources[..n] == sources;
    } else {
      SourceErrorStays(l, bucket, sources[..|sources| - 1], n);
      assert sources[..|sources| - 1][..n] == sources[..n];
    }
  }

  // -------------------------------------------------------- what a load keeps

  /** No name twice, no registrable group in two splits, every raw line a row or a counted duplicate. */
  ghost predicate Separated(l: SuffixList, load: Load) {
    && Clean(load.rows)
    && (forall i, j :: 0 <= i < j < |load.rows| && Registrable(l, load.rows[i].domain) == Registrable(l, load.rows[j].domain)
          ==> load.rows[i].split == load.rows[j].split)
    && load.raw == |load.rows| + load.duplicates
  }

  /** The dictionaries agree with the rows. */
  ghost predicate Indexed(l: SuffixList, load: Load) {
    && (forall i :: 0 <= i < |load.rows| ==>
          var r := load.rows[i];
          r.domain in load.seen && Registrable(l, r.domain) in load.groups && load.groups[Registrable(l, r.domain)] == r.split)
    && (forall d :: d in load.seen ==> load.seen[d] in load.rows && load.seen[d].domain == d)
  }

  lemma NewRowKeeps(l: SuffixList, load: Load, row: Row)
    requires Separated(l, load) && Indexed(l, load) && row.domain != [] && row.family != "" && row.domain !in load.seen
    requires var group := Registrable(l, row.domain); group in load.groups ==> load.groups[group] == row.split
    ensures var next := Load(load.rows + [row], load.seen[row.domain := row],
                             load.groups[Registrable(l, row.domain) := row.split], load.raw + 1, load.duplicates);
      Separated(l, next) && Indexed(l, next)
  {
  }

  lemma LineKeeps(l: SuffixList, bucket: Name -> nat, s: Source, load: Load, line: Option<Name>)
    requires Separated(l, load) && Indexed(l, load) && s.family != "" && LineStep(l, bucket, s, load, line).Ok?
    ensures var next := LineStep(l, bucket, s, load, line).value; Separated(l, next) && Indexed(l, next) && next.raw == load.raw + 1
  {
    var d := line.value;
    if d !in load.seen {
      NewRowKeeps(l, load, RowFor(l, bucket, s, d));
    }
  }

  lemma {:induction false} LinesKeep(l: SuffixList, bucket: Name -> nat, s: Source, load: Load, lines: seq<Option<Name>>)
    requires Separated(l, load) && Indexed(l, load) && s.family != "" && LinesFrom(l, bucket, s, load, lines).Ok?
    ensures var next := LinesFrom(l, bucket, s, load, lines).value;
      Separated(l, next) && Indexed(l, next) && next.raw == load.raw + |lines|
  {
    if lines == [] {
    } else {
      var n := |lines| - 1;
      LinesKeep(l, bucket, s, load, lines[..n]);
      LineKeeps(l, bucket, s, LinesFrom(l, bucket, s, load, lines[..n]).value, lines[n]);
    }
  }

  function TotalLines(sources: seq<Source>): nat {
    if sources == [] then 0 else TotalLines(sources[..|sources| - 1]) + |sources[|sources| - 1].lines|
  }

  /** Whatever the sources: what the loader reads keeps names and groups apart, and accounts for every line, so that
      the validation after it can only ever object to a malicious family in two splits. */
  lemma {:induction false} LoadIsSound(l: SuffixList, bucket: Name -> nat, sources: seq<Source>)
    ensures var r := SourcesFrom(l, bucket, sources);
      r.Ok? ==> Separated(l, r.value) && Indexed(l, r.value) && r.value.raw == TotalLines(sources) <= LIMIT
  {
    if sources == [] {
    } else {
      var n := |sources| - 1;
      LoadIsSound(l, bucket, sources[..n]);
      var r := SourcesFrom(l, bucket, sources);
      if r.Ok? {
        LinesKeep(l, bucket, sources[n], SourcesFrom(l, bucket, sources[..n]).value, sources[n].lines);
      }
    }
  }

  /** Rows of different splits of a loaded corpus share no name, no registrable group and no malicious family. */
  lemma NothingCrossesSplits(l: SuffixList, load: Load, i: nat, j: nat)
    requires Separated(l, load) && FamiliesApart(load.rows)
    requires i < |load.rows| && j < |load.rows| && load.rows[i].split != load.rows[j].split
    ensures var a, b := load.rows[i], load.rows[j];
      && a.domain != b.domain && Registrable(l, a.domain) != Registrable(l, b.domain)
      && (a.malicious && b.malicious ==> a.family != b.family)
  {
    var a, b := load.rows[i], load.rows[j];
    if a.malicious && b.malicious {
      assert a in load.rows && b in load.rows;
      assert a.family in Families(load.rows, a.split) && b.family in Families(load.rows, b.split);
      Apart(load.rows, a.split, b.split);
    }
  }

  lemma Apart(rows: seq<Row>, s: Split, t: Split)
    requires FamiliesApart(rows) && s != t
    ensures Families(rows, s) !! Families(rows, t)
  {
    NoneShared(Families(rows, Train), Families(rows, Validation));
    NoneShared(Families(rows, Train), Families(rows, Test));
    NoneShared(Families(rows, Validation), Families(rows, Test));
  }

  lemma NoneShared(a: set<string>, b: set<string>)
    requires a * b == {}
    ensures a !! b
  {
    forall f | f in a ensures f !in b {
      assert f !in a * b;
    }
  }
}
