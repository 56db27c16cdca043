/** Which rows the corpus loader gives, and exactly when it gives any (src/aegisflow/dns_corpus.py). */
module CorpusLaws {
  import opened Records
  import opened PublicSuffix
  import opened Corpus

  /** The row a source's name stands for: the source's label and family, in the source's split, or in the one that the
      bucket of its registrable group out of a hundred falls into. */
  function Labelled(l: SuffixList, bucket: Name -> nat, s: Source, d: Name): Row {
    var b := bucket(Registrable(l, d)) % 100;
    Row(d, s.malicious, s.family,
        match s.assignment
        case Whole(split) => split
        case ByGroup => if 80 <= b then Test else if 60 <= b then Validation else Train)
  }

  // ------------------------------------------------------------- what is read

  /** Names read so far, each with its source. */
  type Entries = set<(Source, Name)>

  function EntriesOf(s: Source, lines: seq<Option<Name>>): Entries {
    set line | line in lines && line.Some? :: (s, line.value)
  }

  function AllEntries(sources: seq<Source>): Entries {
    if sources == [] then {} else AllEntries(sources[..|sources| - 1]) + EntriesOf(sources[|sources| - 1], sources[|sources| - 1].lines)
  }

  /** The rows are those of the names read, and the dictionaries hold nothing but what the rows say. */
  ghost predicate Reads(l: SuffixList, bucket: Name -> nat, load: Load, read: Entries) {
    && (forall e :: e in read ==> Labelled(l, bucket, e.0, e.1) in load.rows)
    && (forall row :: row in load.rows ==> exists e :: e in read && e.1 == row.domain && Labelled(l, bucket, e.0, e.1) == row)
    && (forall g :: g in load.groups ==> exists row :: row in load.rows && Registrable(l, row.domain) == g && row.split == load.groups[g])
  }

  lemma RowIsLabelled(l: SuffixList, bucket: Name -> nat, s: Source, d: Name)
    ensures RowFor(l, bucket, s, d) == Labelled(l, bucket, s, d)
  {
  }

  lemma NewRowReads(l: SuffixList, bucket: Name -> nat, s: Source, load: Load, d: Name, read: Entries, next: Load)
    requires Reads(l, bucket, load, read)
    requires var row := Labelled(l, bucket, s, d);
      next.rows == load.rows + [row] && next.groups == load.groups[Registrable(l, d) := row.split]
    ensures Reads(l, bucket, next, read + {(s, d)})
  {
    var row, e := Labelled(l, bucket, s, d), (s, d);
    assert e in read + {e} && e.1 == row.domain;
    NewGroups(l, load, row, next);
  }

  lemma OldRowReads(l: SuffixList, bucket: Name -> nat, s: Source, load: Load, d: Name, read: Entries, next: Load)
    requires Reads(l, bucket, load, read) && Labelled(l, bucket, s, d) in load.rows
    requires next.rows == load.rows && next.groups == load.groups
    ensures Reads(l, bucket, next, read + {(s, d)})
  {
  }

  lemma LineReads(l: SuffixList, bucket: Name -> nat, s: Source, load: Load, line: Option<Name>, read: Entries)
    requires Indexed(l, load) && Reads(l, bucket, load, read) && LineStep(l, bucket, s, load, line).Ok?
    ensures line.Some? && Reads(l, bucket, LineStep(l, bucket, s, load, line).value, read + {(s, line.value)})
  {
    var d, next := line.value, LineStep(l, bucket, s, load, line).value;
    RowIsLabelled(l, bucket, s, d);
    if d in load.seen {
      OldRowReads(l, bucket, s, load, d, read, next);
    } else {
      NewRowReads(l, bucket, s, load, d, read, next);
    }
  }

  lemma NewGroups(l: SuffixList, load: Load, row: Row, next: Load)
    requires forall g :: g in load.groups ==> exists r :: r in load.rows && Registrable(l, r.domain) == g && r.split == load.groups[g]
    requires next.rows == load.rows + [row] && next.groups == load.groups[Registrable(l, row.domain) := row.split]
    ensures forall g :: g in next.groups ==> exists r :: r in next.rows && Registrable(l, r.domain) == g && r.split == next.groups[g]
  {
    forall g | g in next.groups ensures exists r :: r in next.rows && Registrable(l, r.domain) == g && r.split == next.groups[g] {
      if g == Registrable(l, row.domain) {
        assert row in next.rows;
      } else {
        var r :| r in load.rows && Registrable(l, r.domain) == g && r.split == load.groups[g];
        assert r in next.rows;
      }
    }
  }

  // -------------------------------------------------------- when it is read

  /** A name has one label, family and split wherever it occurs, and a registrable group has one split. */
  ghost predicate Consistent(l: SuffixList, bucket: Name -> nat, read: Entries) {
    && (forall e, f :: e in read && f in read && e.1 == f.1 ==> Labelled(l, bucket, e.0, e.1) == Labelled(l, bucket, f.0, f.1))
    && (forall e, f :: e in read && f in read && Registrable(l, e.1) == Registrable(l, f.1) ==>
          Labelled(l, bucket, e.0, e.1).split == Labelled(l, bucket, f.0, f.1).split)
  }

  /** A loader's state over what it has read. */
  ghost predicate Fine(l: SuffixList, bucket: Name -> nat, load: Load, read: Entries) {
    Separated(l, load) && Indexed(l, load) && Reads(l, bucket, load, read)
  }

  lemma SplitOfGroup(l: SuffixList, load: Load, a: Row, b: Row)
    requires Separated(l, load) && a in load.rows && b in load.rows && Registrable(l, a.domain) == Registrable(l, b.domain)
    ensures a.split == b.split && (a.domain == b.domain ==> a == b)
  {
    var i :| 0 <= i < |load.rows| && load.rows[i] == a;
    var j :| 0 <= j < |load.rows| && load.rows[j] == b;
    assert i < j ==> load.rows[i].domain != load.rows[j].domain;
    assert j < i ==> load.rows[j].domain != load.rows[i].domain;
  }

  lemma FineIsConsistent(l: SuffixList, bucket: Name -> nat, load: Load, read: Entries)
    requires Fine(l, bucket, load, read)
    ensures Consistent(l, bucket, read)
  {
    forall e, f | e in read && f in read && Registrable(l, e.1) == Registrable(l, f.1)
      ensures Labelled(l, bucket, e.0, e.1).split == Labelled(l, bucket, f.0, f.1).split
      ensures e.1 == f.1 ==> Labelled(l, bucket, e.0, e.1) == Labelled(l, bucket, f.0, f.1)
    {
      SplitOfGroup(l, load, Labelled(l, bucket, e.0, e.1), Labelled(l, bucket, f.0, f.1));
    }
  }

  lemma LineOkIff(l: SuffixList, bucket: Name -> nat, s: Source, load: Load, d: Name, read: Entries)
    requires Fine(l, bucket, load, read) && s.family != "" && d != []
    ensures LineStep(l, bucket, s, load, Some(d)).Ok? <==> Consistent(l, bucket, read + {(s, d)})
    ensures LineStep(l, bucket, s, load, Some(d)).Ok? ==> Fine(l, bucket, LineStep(l, bucket, s, load, Some(d)).value, read + {(s, d)})
  {
    var all, e := read + {(s, d)}, (s, d);
    if LineStep(l, bucket, s, load, Some(d)).Ok? {
      LineKeeps(l, bucket, s, load, Some(d));
      LineReads(l, bucket, s, load, Some(d), read);
      FineIsConsistent(l, bucket, LineStep(l, bucket, s, load, Some(d)).value, all);
    } else if Consistent(l, bucket, all) {
      assert e in all;
      NoObjection(l, bucket, s, load, d, read);
    }
  }

  lemma ConsistentPair(l: SuffixList, bucket: Name -> nat, read: Entries, e: (Source, Name), f: (Source, Name))
    requires Consistent(l, bucket, read) && e in read && f in read
    ensures e.1 == f.1 ==> Labelled(l, bucket, e.0, e.1) == Labelled(l, bucket, f.0, f.1)
    ensures Registrable(l, e.1) == Registrable(l, f.1) ==> Labelled(l, bucket, e.0, e.1).split == Labelled(l, bucket, f.0, f.1).split
  {
  }

  lemma NoConflict(l: SuffixList, bucket: Name -> nat, s: Source, load: Load, d: Name, read: Entries, all: Entries)
    requires Fine(l, bucket, load, read) && all == read + {(s, d)} && Consistent(l, bucket, all) && d in load.seen
    ensures load.seen[d] == Labelled(l, bucket, s, d)
  {
    var f :| f in read && f.1 == d && Labelled(l, bucket, f.0, f.1) == load.seen[d];
    ConsistentPair(l, bucket, all, (s, d), f);
  }

  lemma NoLeak(l: SuffixList, bucket: Name -> nat, s: Source, load: Load, d: Name, read: Entries, all: Entries)
    requires Fine(l, bucket, load, read) && all == read + {(s, d)} && Consistent(l, bucket, all) && Registrable(l, d) in load.groups
    ensures load.groups[Registrable(l, d)] == Labelled(l, bucket, s, d).split
  {
    var r :| r in load.rows && Registrable(l, r.domain) == Registrable(l, d) && r.split == load.groups[Registrable(l, d)];
    var f :| f in read && f.1 == r.domain && Labelled(l, bucket, f.0, f.1) == r;
    ConsistentPair(l, bucket, all, (s, d), f);
  }

  lemma NoObjection(l: SuffixList, bucket: Name -> nat, s: Source, load: Load, d: Name, read: Entries)
    requires Fine(l, bucket, load, read) && d != [] && Consistent(l, bucket, read + {(s, d)})
    ensures LineStep(l, bucket, s, load, Some(d)).Ok?
  {
    RowIsLabelled(l, bucket, s, d);
    if d in load.seen {
      NoConflict(l, bucket, s, load, d, read, read + {(s, d)});
    } else if Registrable(l, d) in load.groups {
      NoLeak(l, bucket, s, load, d, read, read + {(s, d)});
    }
  }

  lemma FewerConsistent(l: SuffixList, bucket: Name -> nat, read: Entries, all: Entries)
    requires Consistent(l, bucket, all) && read <= all
    ensures Consistent(l, bucket, read)
  {
  }

  predicate Readable(lines: seq<Option<Name>>) {
    forall i :: 0 <= i < |lines| ==> lines[i].Some? && lines[i].value != []
  }

  lemma EntriesNext(s: Source, lines: seq<Option<Name>>, n: nat)
    requires n + 1 == |lines| && lines[n].Some?
    ensures EntriesOf(s, lines) == EntriesOf(s, lines[..n]) + {(s, lines[n].value)}
  {
    assert forall line :: line in lines <==> line in lines[..n] || line == lines[n];
  }

  /** A reading goes through exactly if its lines are readable and what was read is consistent. */
  ghost predicate OkIff(l: SuffixList, bucket: Name -> nat, r: Result<Load, LoadError>, readable: bool, read: Entries) {
    && (r.Ok? <==> readable && Consistent(l, bucket, read))
    && (r.Ok? ==> Fine(l, bucket, r.value, read))
  }

  lemma {:induction false} LinesOkIff(l: SuffixList, bucket: Name -> nat, s: Source, load: Load, lines: seq<Option<Name>>, read: Entries)
    requires Fine(l, bucket, load, read) && s.family != ""
    ensures OkIff(l, bucket, LinesFrom(l, bucket, s, load, lines), Readable(lines), read + EntriesOf(s, lines))
  {
    if lines == [] {
      assert read + EntriesOf(s, lines) == read;
      FineIsConsistent(l, bucket, load, read);
    } else {
      var n := |lines| - 1;
      LinesOkIff(l, bucket, s, load, lines[..n], read);
      LastLineOkIff(l, bucket, s, lines, n, read, LinesFrom(l, bucket, s, load, lines[..n]), LinesFrom(l, bucket, s, load, lines));
    }
  }

  function ThenLine(l: SuffixList, bucket: Name -> nat, s: Source, before: Result<Load, LoadError>, line: Option<Name>): Result<Load, LoadError> {
    if before.Err? then before else LineStep(l, bucket, s, before.value, line)
  }

  lemma LastLineOkIff(l: SuffixList, bucket: Name -> nat, s: Source, lines: seq<Option<Name>>, n: nat, read: Entries,
                      before: Result<Load, LoadError>, after: Result<Load, LoadError>)
    requires n + 1 == |lines| && s.family != "" && after == ThenLine(l, bucket, s, before, lines[n])
    requires OkIff(l, bucket, before, Readable(lines[..n]), read + EntriesOf(s, lines[..n]))
    ensures OkIff(l, bucket, after, Readable(lines), read + EntriesOf(s, lines))
  {
    if lines[n].None? || lines[n].value == [] {
      assert !Readable(lines);
      assert after.Err?;
    } else {
      var earlier, d := read + EntriesOf(s, lines[..n]), lines[n].value;
      GoodLine(s, lines, n, read);
      NextOkIff(l, bucket, s, before, after, d, earlier, Readable(lines));
    }
  }

  lemma GoodLine(s: Source, lines: seq<Option<Name>>, n: nat, read: Entries)
    requires n + 1 == |lines| && lines[n].Some? && lines[n].value != []
    ensures read + EntriesOf(s, lines) == read + EntriesOf(s, lines[..n]) + {(s, lines[n].value)}
    ensures Readable(lines) <==> Readable(lines[..n])
    ensures lines[n] == Some(lines[n].value)
  {
    EntriesNext(s, lines, n);
  }

  lemma NextOkIff(l: SuffixList, bucket: Name -> nat, s: Source, before: Result<Load, LoadError>, after: Result<Load, LoadError>,
                  d: Name, earlier: Entries, readable: bool)
    requires s.family != "" && d != [] && OkIff(l, bucket, before, readable, earlier)
    requires after == ThenLine(l, bucket, s, before, Some(d))
    ensures OkIff(l, bucket, after, readable, earlier + {(s, d)})
  {
    if before.Ok? {
      LineOkIff(l, bucket, s, before.value, d, earlier);
    } else if Consistent(l, bucket, earlier + {(s, d)}) {
      FewerConsistent(l, bucket, earlier, earlier + {(s, d)});
    }
  }

  // --------------------------------------------------------------- the loader

  predicate SourceFine(s: Source) {
    s.family != "" && !(s.assignment == ByGroup && s.malicious) && 1 <= s.records == |s.lines| && Readable(s.lines)
  }

  ghost predicate AllFine(sources: seq<Source>) {
    forall i :: 0 <= i < |sources| ==> SourceFine(sources[i])
  }

  ghost predicate DigestsApart(sources: seq<Source>) {
    forall i, j :: 0 <= i < j < |sources| ==> sources[i].sha256 != sources[j].sha256
  }

  /** What the sources must be: pinned counts and readable names each, no digest twice, two hundred thousand lines at
      most, no malicious family over several splits by name, and no name or group at odds with itself. */
  ghost predicate Loadable(l: SuffixList, bucket: Name -> nat, sources: seq<Source>) {
    && AllFine(sources) && DigestsApart(sources) && TotalLines(sources) <= 200000
    && Consistent(l, bucket, AllEntries(sources))
  }

  lemma FineNext(sources: seq<Source>, n: nat)
    requires n + 1 == |sources|
    ensures AllFine(sources) <==> AllFine(sources[..n]) && SourceFine(sources[n])
    ensures DigestsApart(sources) <==>
      DigestsApart(sources[..n]) && forall i :: 0 <= i < n ==> sources[i].sha256 != sources[n].sha256
  {
    assert forall i :: 0 <= i < n ==> sources[..n][i] == sources[i];
  }

  lemma LoadableOfFewer(l: SuffixList, bucket: Name -> nat, sources: seq<Source>, n: nat)
    requires n + 1 == |sources|
    ensures Loadable(l, bucket, sources) ==> Loadable(l, bucket, sources[..n])
  {
    FineNext(sources, n);
    if Loadable(l, bucket, sources) {
      FewerConsistent(l, bucket, AllEntries(sources[..n]), AllEntries(sources));
    }
  }

  lemma CheckedIff(sources: seq<Source>, n: nat, raw: nat)
    requires n + 1 == |sources| && raw == TotalLines(sources[..n])
    ensures SourceCheck(sources[n], Hashes(sources[..n]), raw).None? <==>
      && sources[n].family != "" && !(sources[n].assignment == ByGroup && sources[n].malicious)
      && (forall i :: 0 <= i < n ==> sources[i].sha256 != sources[n].sha256)
      && 1 <= sources[n].records == |sources[n].lines| && TotalLines(sources) <= 200000
  {
    assert sources[n].sha256 in Hashes(sources[..n]) <==> exists i :: 0 <= i < n && sources[i].sha256 == sources[n].sha256 by {
      if i :| 0 <= i < n && sources[i].sha256 == sources[n].sha256 {
        assert sources[..n][i] in sources[..n];
      }
    }
  }

  /** The sources are read exactly if they are so: each refusal of the loader has its cause, and no cause passes. */
  lemma {:induction false} ReadIff(l: SuffixList, bucket: Name -> nat, sources: seq<Source>)
    ensures var r := SourcesFrom(l, bucket, sources);
      && (r.Ok? <==> Loadable(l, bucket, sources))
      && (r.Ok? ==> Fine(l, bucket, r.value, AllEntries(sources)))
  {
    if sources == [] {
    } else {
      var n := |sources| - 1;
      ReadIff(l, bucket, sources[..n]);
      LoadIsSound(l, bucket, sources[..n]);
      LoadableOfFewer(l, bucket, sources, n);
      var before := SourcesFrom(l, bucket, sources[..n]);
      if before.Ok? {
        LastSourceIff(l, bucket, sources, n, before.value);
      }
    }
  }

  lemma LastSourceIff(l: SuffixList, bucket: Name -> nat, sources: seq<Source>, n: nat, before: Load)
    requires n + 1 == |sources| && SourcesFrom(l, bucket, sources[..n]) == Ok(before)
    requires Fine(l, bucket, before, AllEntries(sources[..n])) && before.raw == TotalLines(sources[..n]) && Loadable(l, bucket, sources[..n])
    ensures var r := SourcesFrom(l, bucket, sources);
      && (r.Ok? <==> Loadable(l, bucket, sources))
      && (r.Ok? ==> Fine(l, bucket, r.value, AllEntries(sources)))
  {
    var s, all := sources[n], AllEntries(sources);
    CheckedIff(sources, n, before.raw);
    FineNext(sources, n);
    if SourceCheck(s, Hashes(sources[..n]), before.raw).None? {
      assert all == AllEntries(sources[..n]) + EntriesOf(s, s.lines);
      LinesOkIff(l, bucket, s, before, s.lines, AllEntries(sources[..n]));
    }
  }

  lemma {:induction false} EntryIffLine(sources: seq<Source>, s: Source, d: Name)
    ensures (s, d) in AllEntries(sources) <==> s in sources && Some(d) in s.lines
  {
    if sources == [] {
    } else {
      var n := |sources| - 1;
      EntryIffLine(sources[..n], s, d);
      assert s in sources <==> s in sources[..n] || s == sources[n];
    }
  }

  /** The rows of a corpus are the labelled names of its sources, all of them and no other. */
  lemma RowsAreTheLabelledNames(l: SuffixList, bucket: Name -> nat, sources: seq<Source>, load: Load)
    requires SourcesFrom(l, bucket, sources) == Ok(load)
    ensures forall s, d :: s in sources && Some(d) in s.lines ==> Labelled(l, bucket, s, d) in load.rows
    ensures forall row :: row in load.rows ==> exists s :: s in sources && Some(row.domain) in s.lines && row == Labelled(l, bucket, s, row.domain)
  {
    ReadIff(l, bucket, sources);
    forall s, d | s in sources && Some(d) in s.lines ensures Labelled(l, bucket, s, d) in load.rows {
      EntryIffLine(sources, s, d);
      assert (s, d) in AllEntries(sources);
    }
    forall row | row in load.rows
      ensures exists s :: s in sources && Some(row.domain) in s.lines && row == Labelled(l, bucket, s, row.domain)
    {
      var e :| e in AllEntries(sources) && e.1 == row.domain && Labelled(l, bucket, e.0, e.1) == row;
      EntryIffLine(sources, e.0, e.1);
    }
  }

  /** Some row of this split carries this label. */
  ghost predicate Shows(rows: seq<Row>, split: Split, malicious: bool) {
    exists row :: row in rows && row.split == split && row.malicious == malicious
  }

  /** The last two checks: no malicious family stands in two splits, and every split has both classes. */
  lemma ChecksMean(rows: seq<Row>)
    ensures FamiliesApart(rows) <==> forall a, b :: a in rows && b in rows && a.malicious && b.malicious && a.family == b.family ==> a.split == b.split
    ensures AllClasses(rows) <==> forall split: Split, malicious: bool :: Shows(rows, split, malicious)
  {
    FamiliesMean(rows);
    forall split: Split, malicious: bool ensures HasClass(rows, split, malicious) <==> Shows(rows, split, malicious) {
      if row :| row in rows && row.split == split && row.malicious == malicious {
        var i :| 0 <= i < |rows| && rows[i] == row;
      }
    }
  }

  lemma FamiliesMean(rows: seq<Row>)
    ensures FamiliesApart(rows) <==> forall a, b :: a in rows && b in rows && a.malicious && b.malicious && a.family == b.family ==> a.split == b.split
  {
    if FamiliesApart(rows) {
      forall a, b | a in rows && b in rows && a.malicious && b.malicious && a.family == b.family ensures a.split == b.split {
        assert a.family in Families(rows, a.split) && b.family in Families(rows, b.split);
        InOneSplit(rows, a.family, a.split, b.split);
      }
    }
    if forall a, b :: a in rows && b in rows && a.malicious && b.malicious && a.family == b.family ==> a.split == b.split {
      NoFamilyInBoth(rows, Train, Validation);
      NoFamilyInBoth(rows, Train, Test);
      NoFamilyInBoth(rows, Validation, Test);
    }
  }

  lemma InOneSplit(rows: seq<Row>, family: string, s: Split, t: Split)
    requires FamiliesApart(rows) && family in Families(rows, s) && family in Families(rows, t)
    ensures s == t
  {
    if s != t {
      Corpus.Apart(rows, s, t);
    }
  }

  lemma NoFamilyInBoth(rows: seq<Row>, s: Split, t: Split)
    requires s != t
    requires forall a, b :: a in rows && b in rows && a.malicious && b.malicious && a.family == b.family ==> a.split == b.split
    ensures Families(rows, s) * Families(rows, t) == {}
  {
    forall f | f in Families(rows, s) ensures f !in Families(rows, t) {
      var a :| a in rows && a.malicious && a.split == s && a.family == f;
      assert forall b :: b in rows && b.malicious && b.family == f ==> a.split == b.split;
    }
  }
}
