/** Two small tables on which a scan by the code returns a row that is deleted: one whose delete manifest
    has a short chunk before a full one, and one that was moved. */
module WrongScans {
  import opened Basics
  import opened DeleteSets
  import opened FilePlan
  import opened Manifests
  import opened Paths
  import opened ReadCursor
  import opened ScanExactness
  import opened TableFiles
  import opened TableMeaning

  const DATA_FILE: string := "/data/f"

  /** A live entry for the file at `path`. */
  function RowFor(path: string): EntryRow {
    EntryRow(1, 0, path, "PARQUET", 1)
  }

  const DATA_MANIFEST: Manifest := Manifest("/metadata/d", 0, 0)
  const DELETE_MANIFEST: Manifest := Manifest("/metadata/x", 1, 0)

  /** One data manifest with one data file, and one delete manifest. One delete file, at `path`, names the
      first row of the data file. */
  function SmallTable(adv: Advance, allowMoved: bool, root: string, deletes: Chunks<EntryRow>, path: string): Table {
    Table(Storage(_ => [[ManifestRow("/metadata/d", 0, 0), ManifestRow("/metadata/x", 1, 0)]],
                  file => if file == (if allowMoved then root + "/metadata/d" else "/metadata/d")
                          then [[RowFor(DATA_FILE)]] else deletes,
                  OneDelete(path, DeleteRow(DATA_FILE, 0))),
          Snapshot(2, false, "/metadata/l"), root, allowMoved, adv)
  }

  // ----- what such a table lists -----------------------------------------------------------------------

  lemma ShortMetadataPath(root: string, c: char)
    ensures GetFullPath(root, "/metadata/" + [c]) == Success(root + ("/metadata/" + [c]))
  {
    var path := "/metadata/" + [c];
    assert path[..10] == METADATA_DIR && path[1 + 0] != METADATA_DIR[0];
    FoundIsLast(path, METADATA_DIR, 0);
    RootedFinds(root, path, METADATA_DIR, 0);
    assert path[0..] == path;
  }

  lemma ShortDataPath(root: string, c: char)
    ensures GetFullPath(root, "/data/" + [c]) == Success(root + ("/data/" + [c]))
  {
    var path := "/data/" + [c];
    assert path[..6] == DATA_DIR && path[1 + 0] != DATA_DIR[0];
    FoundIsLast(path, DATA_DIR, 0);
    RootedFinds(root, path, DATA_DIR, 0);
    assert path[0..] == path;
  }

  lemma SmallPaths(table: Table)
    ensures Resolve(table.allowMoved, table.root, "/metadata/l").Success?
    ensures Resolve(table.allowMoved, table.root, "/metadata/d") ==
            Success(if table.allowMoved then table.root + "/metadata/d" else "/metadata/d")
    ensures Resolve(table.allowMoved, table.root, "/metadata/x") ==
            Success(if table.allowMoved then table.root + "/metadata/x" else "/metadata/x")
    ensures Resolve(table.allowMoved, table.root, DATA_FILE) ==
            Success(if table.allowMoved then table.root + DATA_FILE else DATA_FILE)
    ensures table.root + "/metadata/x" != table.root + "/metadata/d"
  {
    hide GetFullPath;
    ShortMetadataPath(table.root, 'l');
    ShortMetadataPath(table.root, 'd');
    ShortMetadataPath(table.root, 'x');
    ShortDataPath(table.root, 'f');
    assert "/metadata/" + ['l'] == "/metadata/l";
    assert "/metadata/" + ['d'] == "/metadata/d";
    assert "/metadata/" + ['x'] == "/metadata/x";
    assert "/data/" + ['f'] == DATA_FILE;
    ConcatCancel(table.root, "/metadata/x", "/metadata/d");
    assert "/metadata/x"[10] != "/metadata/d"[10];
  }

  lemma SmallListing(adv: Advance, allowMoved: bool, root: string, deletes: Chunks<EntryRow>, path: string)
    ensures var table := SmallTable(adv, allowMoved, root, deletes, path);
            ListManifests(table, V2) == AllManifests(table, V2) == Success([DATA_MANIFEST, DELETE_MANIFEST])
  {
    hide Resolve, Drain, Produce, Aligned;
    var table := SmallTable(adv, allowMoved, root, deletes, path);
    SmallPaths(table);
    var rows := [ManifestRow("/metadata/d", 0, 0), ManifestRow("/metadata/x", 1, 0)];
    FlattenChunk(rows);
    TwoManifests(rows);
    OneChunkAligned(ManifestProducer(V2), rows);
    ListsAllIff(table, V2);
  }

  lemma TwoManifests(rows: seq<ManifestRow>)
    requires rows == [ManifestRow("/metadata/d", 0, 0), ManifestRow("/metadata/x", 1, 0)]
    ensures Produce(ManifestProducer(V2), rows) == [DATA_MANIFEST, DELETE_MANIFEST]
  {
    var f := ManifestProducer(V2);
    assert rows == [rows[0]] + [rows[1]];
    ProduceConcat(f, [rows[0]], [rows[1]]);
    ProduceOne(f, rows[0]);
    ProduceOne(f, rows[1]);
  }

  lemma SelectOne(manifest: Manifest, data: bool)
    ensures Select([manifest], data) == if (manifest.content == CONTENT_DATA) == data then [manifest] else []
  {
    assert [manifest][1..] == [];
  }

  lemma SelectTwo()
    ensures Select([DATA_MANIFEST, DELETE_MANIFEST], true) == [DATA_MANIFEST]
    ensures Select([DATA_MANIFEST, DELETE_MANIFEST], false) == [DELETE_MANIFEST]
  {
    assert [DATA_MANIFEST, DELETE_MANIFEST] == [DATA_MANIFEST] + [DELETE_MANIFEST];
    SelectOne(DATA_MANIFEST, true);
    SelectOne(DATA_MANIFEST, false);
    SelectSnoc([DATA_MANIFEST], DELETE_MANIFEST, true);
    SelectSnoc([DATA_MANIFEST], DELETE_MANIFEST, false);
  }

  lemma FlattenChunk<T>(rows: seq<T>)
    ensures Flatten([rows]) == rows
  {
    assert [rows][1..] == [];
    ConcatNil(rows);
  }

  lemma OneChunkAligned<R, T>(f: R -> Option<T>, rows: seq<R>)
    requires |rows| <= STANDARD_VECTOR_SIZE
    ensures Aligned(f, [rows], STANDARD_VECTOR_SIZE, 0)
  {
    assert rows[|rows|..] == [];
  }

  /** The live entries of one manifest. */
  function LiveIn(chunks: Chunks<EntryRow>): seq<Entry> {
    Live(Produce(EntryProducer(V2, false), Flatten(chunks)))
  }

  lemma SmallEntries(adv: Advance, allowMoved: bool, root: string, deletes: Chunks<EntryRow>, path: string)
    ensures var table, manifests := SmallTable(adv, allowMoved, root, deletes, path), [DATA_MANIFEST, DELETE_MANIFEST];
            && LiveEntries(table, V2, Select(manifests, true)) == [EntryOf(V2, RowFor(DATA_FILE))]
            && LiveEntries(table, V2, Select(manifests, false)) == LiveIn(deletes)
            && Sources(table, Select(manifests, true)) == [Some([[RowFor(DATA_FILE)]])]
            && Sources(table, Select(manifests, false)) == [Some(deletes)]
  {
    hide Resolve, Produce, Select, Flatten, Live;
    var table := SmallTable(adv, allowMoved, root, deletes, path);
    SmallPaths(table);
    SelectTwo();
    assert SourceOf(table, DATA_MANIFEST) == Some([[RowFor(DATA_FILE)]]) && SourceOf(table, DELETE_MANIFEST) == Some(deletes);
    OneManifest(table, DATA_MANIFEST, [[RowFor(DATA_FILE)]]);
    OneManifest(table, DELETE_MANIFEST, deletes);
    LiveRow(DATA_FILE);
  }

  lemma OneManifest(table: Table, manifest: Manifest, chunks: Chunks<EntryRow>)
    requires SourceOf(table, manifest) == Some(chunks)
    ensures LiveEntries(table, V2, [manifest]) == LiveIn(chunks)
    ensures Sources(table, [manifest]) == [Some(chunks)]
  {
    hide Resolve, Produce, Flatten, Live;
    assert [manifest][1..] == [];
    ConcatNil(LiveIn(chunks));
  }

  lemma LiveRow(path: string)
    ensures LiveIn([[RowFor(path)]]) == [EntryOf(V2, RowFor(path))]
  {
    FlattenOne(RowFor(path));
    ProduceOne(EntryProducer(V2, false), RowFor(path));
    var live := [EntryOf(V2, RowFor(path))];
    assert IsLive(live[0]) && live[1..] == [] && Live(live[1..]) == [];
  }

  /** If the scan does not open the delete file that is meant, it returns the deleted row. */
  lemma SmallScanWrong<V>(adv: Advance, allowMoved: bool, root: string, deletes: Chunks<EntryRow>, path: string, v: V)
    requires AllResolve(SmallTable(adv, allowMoved, root, deletes, path), LiveIn(deletes))
    requires path in NamedPaths(Rerooted(SmallTable(adv, allowMoved, root, deletes, path), LiveIn(deletes)))
    requires path !in NamedPaths(DrainAll(adv, EntryProducer(V2, true), [Some(deletes)]))
    ensures var table, manifests := SmallTable(adv, allowMoved, root, deletes, path), [DATA_MANIFEST, DELETE_MANIFEST];
            && Readable(table, V2, manifests)
            && ScannedRows(table, V2, OneRowEach(v), manifests) == [v]
            && MeaningOf(table, V2, OneRowEach(v), manifests) == []
  {
    hide Select, LiveEntries, NamedPaths, DrainAll, Resolve, DeleteRowsOf, RowsOfFiles;
    var table, manifests := SmallTable(adv, allowMoved, root, deletes, path), [DATA_MANIFEST, DELETE_MANIFEST];
    SmallEntries(adv, allowMoved, root, deletes, path);
    SmallPaths(table);
    var file := EntryOf(V2, RowFor(DATA_FILE));
    MissedShows(table, V2, manifests, v, path);
    assert WithDeleteFiles(table, OneDelete(path, FirstRow(table, V2, manifests))) == table;
    OneFileRows(table, v, DeleteRowsOf(table.storage, LoadedEntries(table, V2, manifests)), file);
    OneFileRows(table, v, DeleteRowsOf(table.storage, MeantDeletes(table, V2, manifests)), file);
  }

  lemma OneFileRows<V>(table: Table, v: V, deletes: seq<DeleteRow>, file: Entry)
    requires Resolve(table.allowMoved, table.root, file.filePath).Success?
    ensures RowsOfFiles(table, OneRowEach(v), deletes, [file]) == [v] || RowsOfFiles(table, OneRowEach(v), deletes, [file]) == []
  {
    hide FileRows, DeletedRows;
    var kept, files := FileRows(table, OneRowEach(v), DeletedRows(deletes, file.filePath), file), [file];
    OneRowOf(table, v, DeletedRows(deletes, file.filePath), file);
    assert files[0] == file && files[1..] == [];
    assert RowsOfFiles(table, OneRowEach(v), deletes, files) == kept + RowsOfFiles(table, OneRowEach(v), deletes, []);
    assert RowsOfFiles(table, OneRowEach(v), deletes, []) == [];
  }

  // ----- a delete manifest that is not aligned -----------------------------------------------------------

  /** A chunk of one row, then a full one: 2047 delete entries for one file and then one for another. */
  function ShortThenFullChunk(): Chunks<EntryRow> {
    [[RowFor("a")], Repeat(RowFor("a"), STANDARD_VECTOR_SIZE - 1) + [RowFor("b")]]
  }

  /** The drain by the code takes 2047 rows of the full chunk and jumps over the last. */
  lemma LastDeleteLost()
    ensures "b" !in NamedPaths(DrainAll(Requested, EntryProducer(V2, true), [Some(ShortThenFullChunk())]))
    ensures "b" in NamedPaths(LiveIn(ShortThenFullChunk()))
  {
    hide Drain, Produce, Repeat, Flatten, DrainOn;
    var f, chunks := EntryProducer(V2, true), ShortThenFullChunk();
    var a, b, many := EntryOf(V2, RowFor("a")), EntryOf(V2, RowFor("b")), Repeat(RowFor("a"), STANDARD_VECTOR_SIZE - 1);
    ProduceOne(f, RowFor("a"));
    ProduceOne(f, RowFor("b"));
    ProduceRepeat(f, RowFor("a"), STANDARD_VECTOR_SIZE - 1);
    DrainShortThenFull(f, RowFor("a"), many, RowFor("b"), STANDARD_VECTOR_SIZE);
    var loaded := Drain(Requested, f, AtStart(chunks), STANDARD_VECTOR_SIZE);
    assert loaded == [a] + Repeat(a, STANDARD_VECTOR_SIZE - 1);
    assert forall entry | entry in loaded :: entry.filePath == "a";
    DrainAllOne(Requested, f, chunks);
    SkipWhileReading(V2, Flatten(chunks));
    FlattenTwo([RowFor("a")], many + [RowFor("b")]);
    ProduceConcat(f, [RowFor("a")], many + [RowFor("b")]);
    ProduceConcat(f, many, [RowFor("b")]);
    assert b in LiveIn(chunks);
  }

  lemma FlattenTwo<T>(a: seq<T>, b: seq<T>)
    ensures Flatten([a, b]) == a + b
  {
    assert [a, b][1..] == [b];
    FlattenChunk(b);
  }

  lemma DrainAllOne(adv: Advance, f: EntryRow -> Option<Entry>, chunks: Chunks<EntryRow>)
    ensures DrainAll(adv, f, [Some(chunks)]) == Drain(adv, f, AtStart(chunks), STANDARD_VECTOR_SIZE)
  {
    hide Drain;
    var sources: seq<Source> := [Some(chunks)];
    assert sources[1..] == [];
    ConcatNil(Drain(adv, f, AtStart(chunks), STANDARD_VECTOR_SIZE));
  }

  /** One row, then `count - 1` rows and one that is lost. */
  lemma DrainShortThenFull<R, T>(f: R -> Option<T>, first: R, taken: seq<R>, last: R, count: nat)
    requires count >= 2 && |taken| == count - 1 && f(first).Some? && |Produce(f, taken)| == |taken|
    ensures Drain(Requested, f, AtStart([[first], taken + [last]]), count) == Produce(f, [first]) + Produce(f, taken)
  {
    hide Produce, DrainOn;
    var full := taken + [last];
    var chunks: Chunks<R> := [[first], full];
    assert chunks[1..] == [full] && [full][1..] == [];
    assert [first][..1] == [first] && full[..count - 1] == taken;
    ProduceOne(f, first);
    DrainOnChunk(f, chunks, count, 0);
    DrainOnChunk(f, [full], count, 1);
    DrainOnNothing(f, count);
    ConcatNil(Produce(f, taken));
    DrainOnStart(f, chunks, count);
  }

  lemma DrainOnNothing<R, T>(f: R -> Option<T>, count: nat)
    requires count > 0
    ensures DrainOn(Requested, f, [], count, 0) == []
  {
  }

  /** Not moved, read by the code: the deleted row is returned. */
  lemma MisalignedReturnsDeleted<V>(v: V)
    ensures FitVectors(ShortThenFullChunk())
    ensures var table, manifests := SmallTable(Requested, false, "", ShortThenFullChunk(), "b"), [DATA_MANIFEST, DELETE_MANIFEST];
            && ListManifests(table, V2) == AllManifests(table, V2) == Success(manifests)
            && Readable(table, V2, manifests)
            && ScannedRows(table, V2, OneRowEach(v), manifests) == [v]
            && MeaningOf(table, V2, OneRowEach(v), manifests) == []
  {
    hide ShortThenFullChunk, LiveIn, NamedPaths, DrainAll, ScannedRows, MeaningOf, ListManifests, AllManifests, Readable;
    ChunksFit();
    SmallListing(Requested, false, "", ShortThenFullChunk(), "b");
    LastDeleteLost();
    StaysAsStored(SmallTable(Requested, false, "", ShortThenFullChunk(), "b"), LiveIn(ShortThenFullChunk()));
    SmallScanWrong(Requested, false, "", ShortThenFullChunk(), "b", v);
  }

  lemma ChunksFit()
    ensures FitVectors(ShortThenFullChunk())
  {
  }

  lemma StaysAsStored(table: Table, entries: seq<Entry>)
    requires !table.allowMoved
    ensures AllResolve(table, entries) && Rerooted(table, entries) == entries
  {
  }

  // ----- a table that was moved ----------------------------------------------------------------------------

  /** Moved below `/new`, read with either advance: the code opens the delete file where it was, the row
      that the file's copy below `/new` deletes is returned. */
  lemma MovedReturnsDeleted<V>(adv: Advance, v: V)
    ensures var table := SmallTable(adv, true, "/new", [[RowFor("/data/x")]], "/new/data/x");
            var manifests := [DATA_MANIFEST, DELETE_MANIFEST];
            && ListManifests(table, V2) == AllManifests(table, V2) == Success(manifests)
            && Readable(table, V2, manifests)
            && ScannedRows(table, V2, OneRowEach(v), manifests) == [v]
            && MeaningOf(table, V2, OneRowEach(v), manifests) == []
  {
    hide LiveIn, NamedPaths, DrainAll, ScannedRows, MeaningOf, ListManifests, AllManifests, Readable, GetFullPath;
    var deletes := [[RowFor("/data/x")]];
    var table := SmallTable(adv, true, "/new", deletes, "/new/data/x");
    SmallListing(adv, true, "/new", deletes, "/new/data/x");
    LiveRow("/data/x");
    ShortDataPath("/new", 'x');
    assert "/data/" + ['x'] == "/data/x" && "/new" + "/data/x" == "/new/data/x";
    MovedPaths(adv, table);
    SmallScanWrong(adv, true, "/new", deletes, "/new/data/x", v);
  }

  lemma MovedPaths(adv: Advance, table: Table)
    requires Resolve(table.allowMoved, table.root, "/data/x") == Success("/new/data/x")
    ensures AllResolve(table, LiveIn([[RowFor("/data/x")]]))
    ensures "/new/data/x" in NamedPaths(Rerooted(table, LiveIn([[RowFor("/data/x")]])))
    ensures "/new/data/x" !in NamedPaths(DrainAll(adv, EntryProducer(V2, true), [Some([[RowFor("/data/x")]])]))
  {
    hide Resolve, Drain, LiveIn;
    var f, chunks := EntryProducer(V2, true), [[RowFor("/data/x")]];
    LiveRow("/data/x");
    assert Rerooted(table, LiveIn(chunks))[0].filePath == "/new/data/x";
    DrainAllOne(adv, f, chunks);
    assert |"/data/x"| != |"/new/data/x"|;
    forall entry | entry in Drain(adv, f, AtStart(chunks), STANDARD_VECTOR_SIZE) ensures entry == EntryOf(V2, RowFor("/data/x")) {
      DrainWithin(adv, f, AtStart(chunks), STANDARD_VECTOR_SIZE, entry);
      FlattenOne(RowFor("/data/x"));
      ConcatNil(Flatten(chunks));
      ProduceOne(f, RowFor("/data/x"));
    }
  }
}
