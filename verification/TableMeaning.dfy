/** The meaning of a table, what a scan reads instead, and exactly when the two agree. */
module TableMeaning {
  import opened Basics
  import opened DeleteSets
  import opened FilePlan
  import opened Manifests
  import opened Paths
  import opened ReadCursor
  import opened TableFiles

  // ----- reading a table naively -----------------------------------------------------------------

  /** The entries of a manifest list, read as one sequence of rows. */
  function AllManifests(table: Table, version: FormatVersion): Result<seq<Manifest>, Error> {
    if table.snapshot.empty then Success([])
    else
      match Resolve(table.allowMoved, table.root, table.snapshot.manifestList)
      case Failure(error) => Failure(error)
      case Success(path) => Success(Produce(ManifestProducer(version), Flatten(table.storage.manifestLists(path))))
  }

  /** The live entries of some manifests, in order: read everything, then drop the DELETED ones. */
  function LiveEntries(table: Table, version: FormatVersion, manifests: seq<Manifest>): seq<Entry> {
    if manifests == [] then []
    else
      (match SourceOf(table, manifests[0])
       case None => []
       case Some(chunks) => Live(Produce(EntryProducer(version, false), Flatten(chunks)))) +
      LiveEntries(table, version, manifests[1..])
  }

  function FileRows<V>(table: Table, data: string -> Chunks<V>, deleted: set<int>, entry: Entry): seq<V> {
    match Resolve(table.allowMoved, table.root, entry.filePath)
    case Failure(_) => []
    case Success(path) => Surviving(Flatten(data(path)), Positions(0, |Flatten(data(path))|), deleted)
  }

  function RowsOfFiles<V>(table: Table, data: string -> Chunks<V>, deletes: seq<DeleteRow>, entries: seq<Entry>): seq<V> {
    if entries == [] then []
    else
      FileRows(table, data, DeletedRows(deletes, entries[0].filePath), entries[0]) +
      RowsOfFiles(table, data, deletes, entries[1..])
  }

  lemma NoFilesNoRows<V>(table: Table, data: string -> Chunks<V>, deletes: seq<DeleteRow>)
    ensures RowsOfFiles(table, data, deletes, []) == []
  {
  }

  /** Row `k` of a data file is left out exactly when some delete row has that number and a path equal to
      the file's but for case; the others come out once each and in order. */
  lemma KeptRowsIff<V>(table: Table, data: string -> Chunks<V>, deletes: seq<DeleteRow>, entry: Entry, path: string)
    returns (kept: seq<nat>)
    requires Resolve(table.allowMoved, table.root, entry.filePath) == Success(path)
    ensures var rows, left := Flatten(data(path)), FileRows(table, data, DeletedRows(deletes, entry.filePath), entry);
            && (forall i, j | 0 <= i < j < |kept| :: kept[i] < kept[j])
            && (forall k :: k in kept <==>
                  0 <= k < |rows| && !exists r :: r in deletes && SameText(r.path, entry.filePath) && r.row == k)
            && |left| == |kept|
            && forall i | 0 <= i < |left| :: kept[i] < |rows| && left[i] == rows[kept[i]]
  {
    hide Surviving, SameText;
    var rows := Flatten(data(path));
    kept := SurvivingPicks(rows, Positions(0, |rows|), DeletedRows(deletes, entry.filePath));
  }

  predicate AllResolve(table: Table, entries: seq<Entry>) {
    forall i | 0 <= i < |entries| :: Resolve(table.allowMoved, table.root, entries[i].filePath).Success?
  }

  /** The entries with the paths their files are to be opened at. */
  function Rerooted(table: Table, entries: seq<Entry>): (rerooted: seq<Entry>)
    requires AllResolve(table, entries)
    ensures |rerooted| == |entries|
  {
    seq(|entries|, i requires 0 <= i < |entries| =>
      entries[i].(filePath := Resolve(table.allowMoved, table.root, entries[i].filePath).value))
  }

  /** The manifests can be opened and the data files have names: every stored path resolves, and none of
      a data file to the empty string, which would read as the end of the list. */
  predicate Scannable(table: Table, version: FormatVersion, manifests: seq<Manifest>) {
    && AllOpen(Sources(table, Select(manifests, true)))
    && AllOpen(Sources(table, Select(manifests, false)))
    && AllNamed(table, LiveEntries(table, version, Select(manifests, true)))
  }

  /** The paths of the delete files resolve as well. The code never resolves them. */
  predicate Readable(table: Table, version: FormatVersion, manifests: seq<Manifest>) {
    && Scannable(table, version, manifests)
    && AllResolve(table, LiveEntries(table, version, Select(manifests, false)))
  }

  predicate AllNamed(table: Table, entries: seq<Entry>) {
    forall i | 0 <= i < |entries| ::
      var path := Resolve(table.allowMoved, table.root, entries[i].filePath);
      path.Success? && path.value != ""
  }

  /** The live delete entries, each naming the file that is to be read for it. */
  function MeantDeletes(table: Table, version: FormatVersion, manifests: seq<Manifest>): seq<Entry>
    requires Readable(table, version, manifests)
  {
    Rerooted(table, LiveEntries(table, version, Select(manifests, false)))
  }

  /** The naive reading of a table: its live data files in order, without the rows that its live
      delete files name for them. Every stored path is re-rooted if the table may have been moved. */
  function MeaningOf<V>(table: Table, version: FormatVersion, data: string -> Chunks<V>, manifests: seq<Manifest>): seq<V>
    requires Readable(table, version, manifests)
  {
    RowsOfFiles(table, data, DeleteRowsOf(table.storage, MeantDeletes(table, version, manifests)),
                LiveEntries(table, version, Select(manifests, true)))
  }

  // ----- what a scan reads -------------------------------------------------------------------------

  /** The delete entries a scan loads: what it drains from the delete manifests. */
  function LoadedEntries(table: Table, version: FormatVersion, manifests: seq<Manifest>): seq<Entry>
    requires AllOpen(Sources(table, Select(manifests, false)))
  {
    DrainAll(table.advance, EntryProducer(version, true), Sources(table, Select(manifests, false)))
  }

  /** The rows a scan gives: all live data files, without the rows that the delete files it loads name,
      opened at their stored paths. */
  function ScannedRows<V>(table: Table, version: FormatVersion, data: string -> Chunks<V>, manifests: seq<Manifest>): seq<V>
    requires AllOpen(Sources(table, Select(manifests, false)))
  {
    RowsOfFiles(table, data, DeleteRowsOf(table.storage, LoadedEntries(table, version, manifests)),
                LiveEntries(table, version, Select(manifests, true)))
  }

  /** Filtering during the read equals filtering afterwards, over all manifests. */
  lemma {:induction false} RemainingIsLive(table: Table, version: FormatVersion, manifests: seq<Manifest>)
    requires AllOpen(Sources(table, manifests))
    ensures Remaining(EntryProducer(version, true), Sources(table, manifests)) == LiveEntries(table, version, manifests)
  {
    if manifests != [] {
      var sources := Sources(table, manifests);
      assert sources[1..] == Sources(table, manifests[1..]);
      RemainingIsLive(table, version, manifests[1..]);
      SkipWhileReading(version, Flatten(sources[0].value));
    }
  }

  // ----- the paths of the delete files decide --------------------------------------------------------

  function NamedPaths(entries: seq<Entry>): set<string> {
    set entry | entry in entries :: entry.filePath
  }

  lemma NamedPathsHead(entries: seq<Entry>)
    requires entries != []
    ensures NamedPaths(entries) == {entries[0].filePath} + NamedPaths(entries[1..])
  {
    assert forall entry :: entry in entries <==> entry == entries[0] || entry in entries[1..];
  }

  /** A row is loaded exactly when one of the named files holds it. */
  lemma {:induction false} LoadedRowIff(storage: Storage, entries: seq<Entry>, row: DeleteRow)
    ensures row in DeleteRowsOf(storage, entries) <==>
            exists path :: path in NamedPaths(entries) && row in Flatten(storage.deleteFiles(path))
  {
    if entries != [] {
      LoadedRowIff(storage, entries[1..], row);
      NamedPathsHead(entries);
    }
  }

  lemma {:induction false} SameRowsSameFiles<V>(table: Table, data: string -> Chunks<V>, a: seq<DeleteRow>, b: seq<DeleteRow>,
                                                files: seq<Entry>)
    requires forall row :: row in a <==> row in b
    ensures RowsOfFiles(table, data, a, files) == RowsOfFiles(table, data, b, files)
  {
    if files != [] {
      assert DeletedRows(a, files[0].filePath) == DeletedRows(b, files[0].filePath);
      SameRowsSameFiles(table, data, a, b, files[1..]);
    }
  }

  /** Delete entries that name the same files delete the same rows. */
  lemma SamePathsSameRows<V>(table: Table, data: string -> Chunks<V>, a: seq<Entry>, b: seq<Entry>, files: seq<Entry>)
    requires NamedPaths(a) == NamedPaths(b)
    ensures RowsOfFiles(table, data, DeleteRowsOf(table.storage, a), files) ==
            RowsOfFiles(table, data, DeleteRowsOf(table.storage, b), files)
  {
    forall row ensures row in DeleteRowsOf(table.storage, a) <==> row in DeleteRowsOf(table.storage, b) {
      LoadedRowIff(table.storage, a, row);
      LoadedRowIff(table.storage, b, row);
    }
    SameRowsSameFiles(table, data, DeleteRowsOf(table.storage, a), DeleteRowsOf(table.storage, b), files);
  }

  /** One delete file holds one row, and no other holds any. */
  function OneDelete(path: string, row: DeleteRow): string -> Chunks<DeleteRow> {
    p => if p == path then [[row]] else []
  }

  function OneRowEach<V>(v: V): string -> Chunks<V> {
    _ => [[v]]
  }

  lemma FlattenOne<T>(t: T)
    ensures Flatten([[t]]) == [t]
  {
    assert [[t]][1..] == [];
    ConcatNil([t]);
  }

  /** The one row of a data file, filtered. */
  lemma OneRowOf<V>(table: Table, v: V, deleted: set<int>, entry: Entry)
    requires Resolve(table.allowMoved, table.root, entry.filePath).Success?
    ensures FileRows(table, OneRowEach(v), deleted, entry) == if 0 in deleted then [] else [v]
  {
    FlattenOne(v);
    assert Positions(0, 1) == [0];
  }

  /** With data files of one row each, what is left counts the files not named. */
  lemma {:induction false} OneRowEachLeft<V>(table: Table, v: V, deletes: seq<DeleteRow>, files: seq<Entry>)
    requires AllResolve(table, files)
    ensures |RowsOfFiles(table, OneRowEach(v), deletes, files)| <= |files|
    ensures deletes == [] ==> |RowsOfFiles(table, OneRowEach(v), deletes, files)| == |files|
    ensures files != [] && DeleteRow(files[0].filePath, 0) in deletes ==>
              |RowsOfFiles(table, OneRowEach(v), deletes, files)| < |files|
  {
    hide FileRows;
    if files != [] {
      OneRowOf(table, v, DeletedRows(deletes, files[0].filePath), files[0]);
      OneRowEachLeft(table, v, deletes, files[1..]);
    }
  }

  function WithDeleteFiles(table: Table, deleteFiles: string -> Chunks<DeleteRow>): Table {
    table.(storage := table.storage.(deleteFiles := deleteFiles))
  }

  /** A delete file that only `a` names makes a difference: it may name the one row of the first file. */
  lemma NamedByOneShows<V>(table: Table, v: V, a: seq<Entry>, b: seq<Entry>, path: string, files: seq<Entry>)
    requires path in NamedPaths(a) && path !in NamedPaths(b) && files != [] && AllResolve(table, files)
    ensures var storage := table.storage.(deleteFiles := OneDelete(path, DeleteRow(files[0].filePath, 0)));
            |RowsOfFiles(table, OneRowEach(v), DeleteRowsOf(storage, a), files)| < |files| ==
            |RowsOfFiles(table, OneRowEach(v), DeleteRowsOf(storage, b), files)|
  {
    hide RowsOfFiles;
    var row := DeleteRow(files[0].filePath, 0);
    var storage := table.storage.(deleteFiles := OneDelete(path, row));
    FlattenOne(row);
    LoadedRowIff(storage, a, row);
    assert DeleteRowsOf(storage, b) == [] by {
      if DeleteRowsOf(storage, b) != [] {
        LoadedRowIff(storage, b, DeleteRowsOf(storage, b)[0]);
      }
    }
    OneRowEachLeft(table, v, DeleteRowsOf(storage, a), files);
    OneRowEachLeft(table, v, DeleteRowsOf(storage, b), files);
  }

  // ----- what a table's listing does not depend on ---------------------------------------------------

  lemma SameSources(table: Table, deleteFiles: string -> Chunks<DeleteRow>, manifests: seq<Manifest>)
    ensures Sources(WithDeleteFiles(table, deleteFiles), manifests) == Sources(table, manifests)
  {
    assert forall manifest :: SourceOf(WithDeleteFiles(table, deleteFiles), manifest) == SourceOf(table, manifest);
  }

  lemma {:induction false} SameLiveEntries(table: Table, deleteFiles: string -> Chunks<DeleteRow>, version: FormatVersion,
                                           manifests: seq<Manifest>)
    ensures LiveEntries(WithDeleteFiles(table, deleteFiles), version, manifests) == LiveEntries(table, version, manifests)
  {
    if manifests != [] {
      assert SourceOf(WithDeleteFiles(table, deleteFiles), manifests[0]) == SourceOf(table, manifests[0]);
      SameLiveEntries(table, deleteFiles, version, manifests[1..]);
    }
  }

  /** What the delete files hold changes neither which entries are live nor which are loaded. */
  lemma SameListing(table: Table, deleteFiles: string -> Chunks<DeleteRow>, version: FormatVersion, manifests: seq<Manifest>)
    requires Readable(table, version, manifests)
    ensures var other := WithDeleteFiles(table, deleteFiles);
            && Readable(other, version, manifests)
            && LiveEntries(other, version, Select(manifests, true)) == LiveEntries(table, version, Select(manifests, true))
            && LoadedEntries(other, version, manifests) == LoadedEntries(table, version, manifests)
            && MeantDeletes(other, version, manifests) == MeantDeletes(table, version, manifests)
  {
    hide Select, LiveEntries, DrainAll, Resolve;
    SameSources(table, deleteFiles, Select(manifests, true));
    SameSources(table, deleteFiles, Select(manifests, false));
    SameLiveEntries(table, deleteFiles, version, Select(manifests, true));
    SameLiveEntries(table, deleteFiles, version, Select(manifests, false));
  }

  lemma {:induction false} SameRowsOfFiles<V>(table: Table, deleteFiles: string -> Chunks<DeleteRow>, data: string -> Chunks<V>,
                                              deletes: seq<DeleteRow>, files: seq<Entry>)
    ensures RowsOfFiles(WithDeleteFiles(table, deleteFiles), data, deletes, files) == RowsOfFiles(table, data, deletes, files)
  {
    if files != [] {
      SameRowsOfFiles(table, deleteFiles, data, deletes, files[1..]);
    }
  }

  // ----- exactly when a scan gives the meaning ---------------------------------------------------------

  ghost predicate Means<V>(table: Table, version: FormatVersion, data: string -> Chunks<V>, manifests: seq<Manifest>) {
    && Readable(table, version, manifests)
    && ScannedRows(table, version, data, manifests) == MeaningOf(table, version, data, manifests)
  }

  /** Whatever its delete files and data files hold, a scan of the table gives its meaning. */
  ghost predicate AlwaysMeans<V(!new)>(table: Table, version: FormatVersion, manifests: seq<Manifest>) {
    forall deleteFiles: string -> Chunks<DeleteRow>, data: string -> Chunks<V> ::
      Means(WithDeleteFiles(table, deleteFiles), version, data, manifests)
  }

  /** The delete files a scan opens are the ones that are meant. */
  predicate OpensWhatIsMeant(table: Table, version: FormatVersion, manifests: seq<Manifest>)
    requires Readable(table, version, manifests)
  {
    NamedPaths(LoadedEntries(table, version, manifests)) == NamedPaths(MeantDeletes(table, version, manifests))
  }

  /** For either advance and with or without re-rooting: a scan gives the meaning of a table, whatever
      its files hold, exactly when it opens the delete files that are meant, or there is no data file. */
  lemma MeansIff<V(!new)>(table: Table, version: FormatVersion, manifests: seq<Manifest>, v: V)
    requires Readable(table, version, manifests)
    ensures AlwaysMeans<V>(table, version, manifests) <==>
            LiveEntries(table, version, Select(manifests, true)) == [] || OpensWhatIsMeant(table, version, manifests)
  {
    var loaded, meant := LoadedEntries(table, version, manifests), MeantDeletes(table, version, manifests);
    var files := LiveEntries(table, version, Select(manifests, true));
    if files == [] || NamedPaths(loaded) == NamedPaths(meant) {
      forall deleteFiles: string -> Chunks<DeleteRow>, data: string -> Chunks<V>
        ensures Means(WithDeleteFiles(table, deleteFiles), version, data, manifests)
      {
        OpenedMeans(table, deleteFiles, version, data, manifests);
      }
    } else {
      var path := InOneOnly(NamedPaths(loaded), NamedPaths(meant));
      if path in NamedPaths(meant) {
        MissedShows(table, version, manifests, v, path);
      } else {
        UnmeantShows(table, version, manifests, v, path);
      }
    }
  }

  lemma InOneOnly<T>(a: set<T>, b: set<T>) returns (t: T)
    requires a != b
    ensures t in a <==> t !in b
  {
    if a <= b {
      assert !(b <= a);
      t :| t in b && t !in a;
    } else {
      t :| t in a && t !in b;
    }
  }

  lemma OpenedMeans<V>(table: Table, deleteFiles: string -> Chunks<DeleteRow>, version: FormatVersion,
                       data: string -> Chunks<V>, manifests: seq<Manifest>)
    requires Readable(table, version, manifests)
    requires LiveEntries(table, version, Select(manifests, true)) == [] || OpensWhatIsMeant(table, version, manifests)
    ensures Means(WithDeleteFiles(table, deleteFiles), version, data, manifests)
  {
    hide AllNamed, Select, LiveEntries, DeleteRowsOf, NamedPaths;
    var other := WithDeleteFiles(table, deleteFiles);
    SameListing(table, deleteFiles, version, manifests);
    if OpensWhatIsMeant(table, version, manifests) {
      SamePathsSameRows(other, data, LoadedEntries(table, version, manifests), MeantDeletes(table, version, manifests),
                        LiveEntries(table, version, Select(manifests, true)));
    }
  }

  /** The row of the first data file that the witnesses delete. */
  function FirstRow(table: Table, version: FormatVersion, manifests: seq<Manifest>): DeleteRow
    requires LiveEntries(table, version, Select(manifests, true)) != []
  {
    DeleteRow(LiveEntries(table, version, Select(manifests, true))[0].filePath, 0)
  }

  /** A meant delete file that is not opened: a deleted row comes back. */
  lemma MissedShows<V>(table: Table, version: FormatVersion, manifests: seq<Manifest>, v: V, path: string)
    requires Readable(table, version, manifests) && LiveEntries(table, version, Select(manifests, true)) != []
    requires path in NamedPaths(MeantDeletes(table, version, manifests))
    requires path !in NamedPaths(LoadedEntries(table, version, manifests))
    ensures var other := WithDeleteFiles(table, OneDelete(path, FirstRow(table, version, manifests)));
            && Readable(other, version, manifests)
            && |MeaningOf(other, version, OneRowEach(v), manifests)| < |ScannedRows(other, version, OneRowEach(v), manifests)|
            && !Means(other, version, OneRowEach(v), manifests)
  {
    hide Select, LiveEntries, DeleteRowsOf, NamedPaths, RowsOfFiles, AllNamed;
    var files, row := LiveEntries(table, version, Select(manifests, true)), FirstRow(table, version, manifests);
    var other := WithDeleteFiles(table, OneDelete(path, row));
    SameListing(table, OneDelete(path, row), version, manifests);
    NamedResolve(table, files);
    NamedByOneShows(other, v, MeantDeletes(table, version, manifests), LoadedEntries(table, version, manifests), path, files);
  }

  /** A delete file that is opened but not meant: a row is lost. */
  lemma UnmeantShows<V>(table: Table, version: FormatVersion, manifests: seq<Manifest>, v: V, path: string)
    requires Readable(table, version, manifests) && LiveEntries(table, version, Select(manifests, true)) != []
    requires path in NamedPaths(LoadedEntries(table, version, manifests))
    requires path !in NamedPaths(MeantDeletes(table, version, manifests))
    ensures var other := WithDeleteFiles(table, OneDelete(path, FirstRow(table, version, manifests)));
            && Readable(other, version, manifests)
            && |ScannedRows(other, version, OneRowEach(v), manifests)| < |MeaningOf(other, version, OneRowEach(v), manifests)|
            && !Means(other, version, OneRowEach(v), manifests)
  {
    hide Select, LiveEntries, DeleteRowsOf, NamedPaths, RowsOfFiles, AllNamed;
    var files, row := LiveEntries(table, version, Select(manifests, true)), FirstRow(table, version, manifests);
    var other := WithDeleteFiles(table, OneDelete(path, row));
    SameListing(table, OneDelete(path, row), version, manifests);
    NamedResolve(table, files);
    NamedByOneShows(other, v, LoadedEntries(table, version, manifests), MeantDeletes(table, version, manifests), path, files);
  }

  lemma NamedResolve(table: Table, entries: seq<Entry>)
    requires AllNamed(table, entries)
    ensures AllResolve(table, entries)
  {
  }

  // ----- delete files are opened at their stored paths -------------------------------------------------

  /** Re-rooting leaves every one of the paths as it is; always so when the table is not moved. */
  predicate SelfResolving(table: Table, entries: seq<Entry>) {
    forall i | 0 <= i < |entries| :: Resolve(table.allowMoved, table.root, entries[i].filePath) == Success(entries[i].filePath)
  }

  /** Where a stored path leads; a path that is not recognised stays as it is. */
  function PathAt(table: Table, path: string): string {
    match Resolve(table.allowMoved, table.root, path)
    case Failure(_) => path
    case Success(resolved) => resolved
  }

  function PathsAt(table: Table, paths: set<string>): set<string> {
    set path | path in paths :: PathAt(table, path)
  }

  lemma {:induction false} PathsAtSize(table: Table, paths: set<string>)
    ensures |PathsAt(table, paths)| <= |paths|
    decreases |paths|
  {
    if paths != {} {
      var path :| path in paths;
      PathsAtSize(table, paths - {path});
      assert PathsAt(table, paths) == PathsAt(table, paths - {path}) + {PathAt(table, path)};
    }
  }

  lemma {:induction false} Longest(paths: set<string>) returns (longest: string)
    requires paths != {}
    ensures longest in paths && forall path | path in paths :: |path| <= |longest|
    decreases |paths|
  {
    longest :| longest in paths;
    var others := paths - {longest};
    if others != {} {
      var other := Longest(others);
      if |other| > |longest| {
        longest := other;
      }
    }
  }

  /** A set of paths that re-rooting maps onto itself is left alone path by path. */
  lemma OntoItselfFixed(table: Table, paths: set<string>)
    requires PathsAt(table, paths) == paths
    requires forall path | path in paths :: Resolve(table.allowMoved, table.root, path).Success?
    ensures forall path | path in paths :: PathAt(table, path) == path
  {
    hide Resolve;
    var moved := set path | path in paths && PathAt(table, path) != path;
    if moved != {} {
      hide PathAt;
      var p := Longest(moved);
      var x :| x in paths && PathAt(table, x) == p;
      ResolveAgain(table, x);
      assert PathAt(table, p) in paths;
      MergedPaths(table, paths, p, PathAt(table, p));
    }
    assert forall path | path in paths :: PathAt(table, path) == path || path in moved;
  }

  /** Where two paths lead to the same place there are fewer places than paths. */
  lemma MergedPaths(table: Table, paths: set<string>, p: string, q: string)
    requires p in paths && q in paths && p != q && PathAt(table, p) == PathAt(table, q)
    ensures |PathsAt(table, paths)| < |paths|
  {
    hide PathAt;
    assert PathsAt(table, paths) == PathsAt(table, paths - {p}) by {
      assert q in paths - {p};
    }
    PathsAtSize(table, paths - {p});
  }

  /** A path that is the result of re-rooting is either left as it is or grows. */
  lemma ResolveAgain(table: Table, path: string)
    requires Resolve(table.allowMoved, table.root, path).Success?
    ensures var once := PathAt(table, path);
            PathAt(table, once) == once || |PathAt(table, once)| > |once|
  {
    hide GetFullPath;
    if table.allowMoved {
      LastRootWinsIff(table.root, table.root, path);
    }
  }

  /** Opening the stored paths opens the files that are meant exactly when no path needs re-rooting. */
  lemma StoredPathsIff(table: Table, entries: seq<Entry>)
    requires AllResolve(table, entries)
    ensures NamedPaths(entries) == NamedPaths(Rerooted(table, entries)) <==> SelfResolving(table, entries)
  {
    hide Resolve;
    var paths, rerooted := NamedPaths(entries), Rerooted(table, entries);
    assert forall i | 0 <= i < |entries| :: rerooted[i].filePath == PathAt(table, entries[i].filePath);
    assert NamedPaths(rerooted) == PathsAt(table, paths) by {
      forall path | path in PathsAt(table, paths) ensures path in NamedPaths(rerooted) {
        var i :| 0 <= i < |entries| && PathAt(table, entries[i].filePath) == path;
        assert rerooted[i] in rerooted;
      }
      forall i | 0 <= i < |entries| ensures rerooted[i].filePath in PathsAt(table, paths) {
        assert entries[i].filePath in paths;
      }
    }
    if SelfResolving(table, entries) {
      assert rerooted == entries;
    }
    if NamedPaths(rerooted) == paths {
      OntoItselfFixed(table, paths);
      forall i | 0 <= i < |entries| ensures PathAt(table, entries[i].filePath) == entries[i].filePath {
        assert entries[i].filePath in paths;
      }
    }
  }
}
