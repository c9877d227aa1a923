/** `IcebergTable`: the eager reading of a table's metadata, which the lazy list must agree with. */
module EagerTable {
  import opened Basics
  import opened FilePlan
  import opened ManifestReaders
  import opened Manifests
  import opened Paths
  import opened ReadCursor
  import opened TableFiles

  datatype TableEntry = TableEntry(manifest: Manifest, entries: seq<Entry>)

  /** Every manifest with all its entries, DELETED ones included. */
  function Entries(table: Table, version: FormatVersion, manifests: seq<Manifest>): Result<seq<TableEntry>, Error> {
    if manifests == [] then Success([])
    else
      match SourceOf(table, manifests[0])
      case None => Failure(UnrecognisedPath)
      case Some(chunks) =>
        Cons(Success(TableEntry(manifests[0], Drain(table.advance, EntryProducer(version, false), AtStart(chunks), STANDARD_VECTOR_SIZE))),
             Entries(table, version, manifests[1..]))
  }

  /** The loop of ReadManifestEntries. */
  method ReadManifestEntries(table: Table, version: FormatVersion, manifests: seq<Manifest>)
    returns (r: Result<seq<TableEntry>, Error>)
    ensures r == Entries(table, version, manifests)
  {
    hide Drain;
    var result := [];
    assert manifests[0..] == manifests;
    PrependNothing(Entries(table, version, manifests));
    for i := 0 to |manifests|
      invariant Entries(table, version, manifests) == Prepend(result, Entries(table, version, manifests[i..]))
    {
      assert manifests[i..][1..] == manifests[i + 1..];
      var path := Resolve(table.allowMoved, table.root, manifests[i].path);
      if path.Failure? {
        return Failure(UnrecognisedPath);
      }
      var entries := ScanAvroMetadata(table.advance, table.storage.manifests(path.value), EntryProducer(version, false));
      PrependCons(result, TableEntry(manifests[i], entries), Entries(table, version, manifests[i + 1..]));
      result := result + [TableEntry(manifests[i], entries)];
    }
    ConcatNil(result);
    r := Success(result);
  }

  /** IcebergTable::Load. Unlike the lazy list it does not ask whether the snapshot is empty. */
  method Load(table: Table) returns (r: Result<seq<TableEntry>, Error>)
    ensures match VersionOf(table.snapshot.formatVersion)
            case None => r == Failure(if Resolve(table.allowMoved, table.root, table.snapshot.manifestList).Failure?
                                      then UnrecognisedPath else UnsupportedVersion)
            case Some(version) =>
              match ListManifests(table.(snapshot := table.snapshot.(empty := false)), version)
              case Failure(error) => r == Failure(error)
              case Success(manifests) => r == Entries(table, version, manifests)
  {
    hide Drain;
    var path := Resolve(table.allowMoved, table.root, table.snapshot.manifestList);
    if path.Failure? {
      return Failure(path.error);
    }
    match VersionOf(table.snapshot.formatVersion) {
      case None => r := Failure(UnsupportedVersion);
      case Some(version) =>
        var manifests := ScanAvroMetadata(table.advance, table.storage.manifestLists(path.value), ManifestProducer(version));
        r := ReadManifestEntries(table, version, manifests);
    }
  }

  function FilePaths(entries: seq<Entry>): (paths: seq<string>)
    ensures |paths| == |entries| && forall i | 0 <= i < |paths| :: paths[i] == entries[i].filePath
  {
    if entries == [] then [] else [entries[0].filePath] + FilePaths(entries[1..])
  }

  lemma {:induction false} FilePathsConcat(a: seq<Entry>, b: seq<Entry>)
    ensures FilePaths(a + b) == FilePaths(a) + FilePaths(b)
  {
    if a == [] {
      ConcatNil(b);
      ConcatNil(FilePaths(b));
    } else {
      ConcatHead(a, b);
      FilePathsConcat(a[1..], b);
      ConcatAssoc([a[0].filePath], FilePaths(a[1..]), FilePaths(b));
    }
  }

  /** The paths GetPaths selects: live entries of the data manifests, or of the others. */
  function PathsOf(entries: seq<TableEntry>, data: bool): seq<string> {
    if entries == [] then []
    else
      (if (entries[0].manifest.content == CONTENT_DATA) == data then FilePaths(Live(entries[0].entries)) else []) +
      PathsOf(entries[1..], data)
  }

  /** `GetPaths<DATA>`: two nested loops over the loaded manifests. */
  method GetPaths(entries: seq<TableEntry>) returns (ret: seq<string>)
    ensures ret == PathsOf(entries, true)
  {
    ret := [];
    assert entries[0..] == entries;
    ConcatNil(PathsOf(entries, true));
    for i := 0 to |entries|
      invariant ret + PathsOf(entries[i..], true) == PathsOf(entries, true)
    {
      var entry := entries[i];
      ghost var rest := PathsOf(entries[i + 1..], true);
      assert entries[i..][1..] == entries[i + 1..];
      if entry.manifest.content != CONTENT_DATA {
        ConcatNil(rest);
        continue;
      }
      ghost var before := ret;
      ConcatNil(before);
      for j := 0 to |entry.entries|
        invariant ret == before + FilePaths(Live(entry.entries[..j]))
      {
        var manifestEntry := entry.entries[j];
        PathsSnoc(entry.entries, j);
        if manifestEntry.status == STATUS_DELETED {
          continue;
        }
        ConcatAssoc(before, FilePaths(Live(entry.entries[..j])), [manifestEntry.filePath]);
        ret := ret + [manifestEntry.filePath];
      }
      assert entry.entries[..|entry.entries|] == entry.entries;
      ConcatAssoc(before, FilePaths(Live(entry.entries)), rest);
    }
    ConcatNil(ret);
  }

  lemma PathsSnoc(entries: seq<Entry>, j: nat)
    requires j < |entries|
    ensures FilePaths(Live(entries[..j + 1])) ==
            FilePaths(Live(entries[..j])) + if IsLive(entries[j]) then [entries[j].filePath] else []
  {
    TakeSnoc(entries, j);
    LiveConcat(entries[..j], [entries[j]]);
    FilePathsConcat(Live(entries[..j]), Live([entries[j]]));
    assert Live([entries[j]]) == if IsLive(entries[j]) then [entries[j]] else [];
  }

  // ----- the eager reading of one manifest -----------------------------------------------------------

  /** No live row is lost in an eager drain, which counts DELETED rows as well: whenever a call meets a
      chunk with more rows than it still wants, the surplus holds no live row. */
  predicate LiveAligned(version: FormatVersion, rest: seq<seq<EntryRow>>, acc: nat)
    requires acc < STANDARD_VECTOR_SIZE
  {
    rest == [] ||
    var take := Min(|rest[0]|, STANDARD_VECTOR_SIZE - acc);
    && Live(Produce(EntryProducer(version, false), rest[0][take..])) == []
    && LiveAligned(version, rest[1..], Restart(acc + take, STANDARD_VECTOR_SIZE))
  }

  /** The live entries of an eager drain by the code are all that are live, exactly when it is aligned. */
  lemma {:induction false} EagerDrainIff(version: FormatVersion, rest: seq<seq<EntryRow>>, acc: nat)
    requires acc < STANDARD_VECTOR_SIZE
    requires forall i | 0 <= i < |rest| :: 0 < |rest[i]| <= STANDARD_VECTOR_SIZE
    ensures var f := EntryProducer(version, false);
            var drained, live := Live(DrainOn(Requested, f, rest, STANDARD_VECTOR_SIZE, acc)), Live(Produce(f, Flatten(rest)));
            && |drained| <= |live|
            && (drained == live <==> LiveAligned(version, rest, acc))
            && (|drained| == |live| ==> drained == live)
  {
    hide Produce, Live, DrainOn;
    var f := EntryProducer(version, false);
    if rest == [] {
      NothingDrained(f, acc);
    } else {
      var take := Min(|rest[0]|, STANDARD_VECTOR_SIZE - acc);
      var out, surplus := Produce(f, rest[0][..take]), Produce(f, rest[0][take..]);
      var acc' := Restart(acc + take, STANDARD_VECTOR_SIZE);
      ProduceAll(f, rest[0][..take]);
      DrainOnChunk(f, rest, STANDARD_VECTOR_SIZE, acc);
      EagerDrainIff(version, rest[1..], acc');
      LiveParts(f, rest, take);
      var drained := DrainOn(Requested, f, rest[1..], STANDARD_VECTOR_SIZE, acc');
      LiveConcat(out, drained);
      SurplusIff(Live(out), Live(surplus), Live(drained), Live(Produce(f, Flatten(rest[1..]))));
    }
  }

  lemma NothingDrained(f: EntryRow -> Option<Entry>, acc: nat)
    requires acc < STANDARD_VECTOR_SIZE
    ensures DrainOn(Requested, f, [], STANDARD_VECTOR_SIZE, acc) == [] == Produce(f, Flatten([]))
  {
  }

  lemma LiveParts(f: EntryRow -> Option<Entry>, rest: seq<seq<EntryRow>>, take: nat)
    requires rest != [] && take <= |rest[0]|
    ensures Live(Produce(f, Flatten(rest))) ==
            Live(Produce(f, rest[0][..take])) + Live(Produce(f, rest[0][take..])) + Live(Produce(f, Flatten(rest[1..])))
  {
    hide Produce, Live;
    assert rest[0] == rest[0][..take] + rest[0][take..];
    ProduceConcat(f, rest[0], Flatten(rest[1..]));
    ProduceConcat(f, rest[0][..take], rest[0][take..]);
    LiveConcat(Produce(f, rest[0]), Produce(f, Flatten(rest[1..])));
    LiveConcat(Produce(f, rest[0][..take]), Produce(f, rest[0][take..]));
  }

  // ----- the lazy list against the eager one -----------------------------------------------------------

  /** The eager drain of every data manifest yields its live entries: always with the intended advance. */
  predicate DataDrainsCompletely(table: Table, version: FormatVersion, manifests: seq<Manifest>) {
    table.advance.Scanned? ||
    forall i | 0 <= i < |manifests| && manifests[i].content == CONTENT_DATA ::
      match SourceOf(table, manifests[i])
      case None => true
      case Some(chunks) => LiveAligned(version, chunks, 0)
  }

  predicate DataFits(table: Table, manifests: seq<Manifest>) {
    forall i | 0 <= i < |manifests| ::
      match SourceOf(table, manifests[i])
      case None => true
      case Some(chunks) => FitVectors(chunks)
  }

  /** The lazy list refines the eager one, exactly when the eager drains are complete: what GetPaths<DATA>
      returns after Load is, path by path, the whole list that GetFile answers from. Otherwise the eager
      list is the shorter one. */
  lemma {:induction false} LazyRefinesEager(table: Table, version: FormatVersion, manifests: seq<Manifest>)
    requires Entries(table, version, manifests).Success? && DataFits(table, manifests)
    ensures var s := DataSetup(table, version, Select(manifests, true));
            && AllOpen(s.sources)
            && var eager, lazy := PathsOf(Entries(table, version, manifests).value, true), FilePaths(Remaining(s.f, s.sources));
               if DataDrainsCompletely(table, version, manifests) then eager == lazy else |eager| < |lazy|
  {
    hide Drain, Produce, LiveAligned, Live, FitVectors;
    if manifests != [] {
      var rest := manifests[1..];
      assert DataFits(table, rest);
      DrainsHead(table, version, manifests);
      LazyRefinesEager(table, version, rest);
      var entries := Entries(table, version, manifests).value;
      assert entries[1..] == Entries(table, version, rest).value;
      if manifests[0].content == CONTENT_DATA {
        EagerEntriesLive(table, version, SourceOf(table, manifests[0]).value);
        RemainingHead(table, version, manifests[0], Select(rest, true));
      } else {
        ConcatNil(Select(rest, true));
        ConcatNil(PathsOf(entries[1..], true));
      }
    }
  }

  lemma DrainsHead(table: Table, version: FormatVersion, manifests: seq<Manifest>)
    requires manifests != [] && SourceOf(table, manifests[0]).Some?
    ensures DataDrainsCompletely(table, version, manifests) <==>
            && (table.advance.Scanned? || manifests[0].content != CONTENT_DATA ||
                LiveAligned(version, SourceOf(table, manifests[0]).value, 0))
            && DataDrainsCompletely(table, version, manifests[1..])
  {
    hide LiveAligned, SourceOf;
    assert manifests == [manifests[0]] + manifests[1..];
  }

  lemma RemainingHead(table: Table, version: FormatVersion, manifest: Manifest, rest: seq<Manifest>)
    requires SourceOf(table, manifest).Some? && AllOpen(Sources(table, rest))
    ensures var f := EntryProducer(version, true);
            && AllOpen(Sources(table, [manifest] + rest))
            && FilePaths(Remaining(f, Sources(table, [manifest] + rest))) ==
               FilePaths(Produce(f, Flatten(SourceOf(table, manifest).value))) + FilePaths(Remaining(f, Sources(table, rest)))
  {
    hide Produce, Flatten, FilePaths;
    var f, sources, tail := EntryProducer(version, true), Sources(table, [manifest] + rest), Sources(table, rest);
    assert sources == [SourceOf(table, manifest)] + tail;
    UnfoldRemaining(f, SourceOf(table, manifest), tail);
    FilePathsConcat(Produce(f, Flatten(SourceOf(table, manifest).value)), Remaining(f, tail));
  }

  lemma UnfoldRemaining(f: EntryRow -> Option<Entry>, head: Source, tail: seq<Source>)
    requires head.Some? && AllOpen(tail)
    ensures AllOpen([head] + tail)
    ensures Remaining(f, [head] + tail) == Produce(f, Flatten(head.value)) + Remaining(f, tail)
  {
    assert ([head] + tail)[1..] == tail;
  }

  /** One manifest: the live entries of the eager drain are the lazily produced ones, or fewer. */
  lemma EagerEntriesLive(table: Table, version: FormatVersion, chunks: Chunks<EntryRow>)
    requires FitVectors(chunks)
    ensures var eager := Live(Drain(table.advance, EntryProducer(version, false), AtStart(chunks), STANDARD_VECTOR_SIZE));
            var lazy := Produce(EntryProducer(version, true), Flatten(chunks));
            if table.advance.Scanned? || LiveAligned(version, chunks, 0) then eager == lazy else |eager| < |lazy|
  {
    hide Produce, Live;
    ConcatNil(Flatten(chunks));
    if table.advance.Scanned? {
      DrainExact(EntryProducer(version, false), AtStart(chunks), STANDARD_VECTOR_SIZE);
    } else {
      EagerDrainIff(version, chunks, 0);
    }
    SkipWhileReading(version, Flatten(chunks));
  }

  /** A manifest with a short chunk before a full one: the eager reading by the code has fewer live entries
      than the lazy one. */
  lemma ShortThenFullMisses(table: Table, version: FormatVersion, first: EntryRow, full: seq<EntryRow>)
    requires table.advance.Requested?
    requires |full| == STANDARD_VECTOR_SIZE && IsLive(EntryOf(version, full[STANDARD_VECTOR_SIZE - 1]))
    ensures |Live(Drain(table.advance, EntryProducer(version, false), AtStart([[first], full]), STANDARD_VECTOR_SIZE))| <
            |Produce(EntryProducer(version, true), Flatten([[first], full]))|
  {
    hide Drain, Produce;
    var chunks, last := [[first], full], full[STANDARD_VECTOR_SIZE - 1];
    assert full[STANDARD_VECTOR_SIZE - 1..] == [last] && chunks[1..] == [full];
    ProduceOne(EntryProducer(version, false), last);
    assert EntryOf(version, last) in Live([EntryOf(version, last)]);
    assert !LiveAligned(version, [full], 1);
    EagerEntriesLive(table, version, chunks);
  }

  /** The list GetFile answers from is the eager list: after any safe sequence of calls the listed
      files are a prefix of it, and the next safe GetFile(i) returns its i-th path, re-rooted if
      `allow_moved_paths` is set, or the empty string past its end. */
  lemma LazyAnswersFromEagerList(table: Table, version: FormatVersion, manifests: seq<Manifest>, calls: seq<Call>, fileId: nat)
    requires Entries(table, version, manifests).Success? && DataFits(table, manifests)
    requires DataDrainsCompletely(table, version, manifests)
    requires SafeRun(DataSetup(table, version, Select(manifests, true)), INITIAL, calls)
    ensures var s := DataSetup(table, version, Select(manifests, true));
            var p, eager := Run(s, INITIAL, calls), PathsOf(Entries(table, version, manifests).value, true);
            && FilePaths(p.files) <= eager
            && (Safe(s, p, fileId) ==>
                  Answer(s, Expand(s, p, fileId), fileId) ==
                  if fileId < |eager| then Resolve(table.allowMoved, table.root, eager[fileId]) else Success(""))
  {
    hide Total, Expand, Answer, Run, Entries, PathsOf, SafeRun;
    var s := DataSetup(table, version, Select(manifests, true));
    var p := Run(s, INITIAL, calls);
    LazyRefinesEager(table, version, manifests);
    StartTotal(s);
    RunExact(s, INITIAL, calls);
    RunUnopened(s, INITIAL, calls);
    if Safe(s, p, fileId) {
      GetFileAnswer(s, p, fileId);
    }
  }
}
