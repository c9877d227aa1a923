/** A whole table scan: the planner and the delete filter driven file by file and chunk by chunk, as
    DuckDB's multi-file reader drives them, against the meaning of the table. */
module TableScan {
  import opened Basics
  import opened DeleteData
  import opened DeleteSets
  import opened FilePlan
  import opened ListedRows
  import opened ManifestReaders
  import opened Manifests
  import opened MultiFileList
  import opened Paths
  import opened ReadCursor
  import opened ScanExactness
  import opened TableFiles
  import opened TableMeaning

  /** InitializeFiles: read the manifest list and split it into data and delete manifests. */
  method InitializeFiles(table: Table) returns (r: Result<IcebergMultiFileList, Error>)
    ensures r == Failure(UnsupportedVersion) <==> table.snapshot.formatVersion != 1 && table.snapshot.formatVersion != 2
    ensures match VersionOf(table.snapshot.formatVersion)
            case None => r == Failure(UnsupportedVersion)
            case Some(version) =>
              match ListManifests(table, version)
              case Failure(error) => r == Failure(error)
              case Success(manifests) =>
                && r.Success? && fresh(r.value) && r.value.Valid() && r.value.Plan() == INITIAL
                && fresh(r.value.dataReader) && r.value.dataReader.scan == null
                && fresh(r.value.deleteReader) && r.value.deleteReader.scan == null
                && fresh(r.value.deleteData) && fresh(r.value.deleteData.objects)
                && r.value.table == table && r.value.version == version
                && r.value.dataManifests == Select(manifests, true)
                && r.value.deleteManifests == Select(manifests, false)
                && SplitsList(table.snapshot.formatVersion, ListRows(table), r.value.dataManifests, r.value.deleteManifests)
  {
    var version;
    match VersionOf(table.snapshot.formatVersion) {
      case None => return Failure(UnsupportedVersion);
      case Some(v) => version := v;
    }
    var allManifests := [];
    if !table.snapshot.empty {
      var path := Resolve(table.allowMoved, table.root, table.snapshot.manifestList);
      if path.Failure? {
        return Failure(path.error);
      }
      allManifests := ScanAvroMetadata(table.advance, table.storage.manifestLists(path.value), ManifestProducer(version));
    }
    var dataManifests, deleteManifests := [], [];
    for i := 0 to |allManifests|
      invariant dataManifests == Select(allManifests[..i], true)
      invariant deleteManifests == Select(allManifests[..i], false)
    {
      hide Select;
      var manifest := allManifests[i];
      TakeSnoc(allManifests, i);
      SelectSnoc(allManifests[..i], manifest, true);
      SelectSnoc(allManifests[..i], manifest, false);
      ConcatNil(dataManifests);
      ConcatNil(deleteManifests);
      if manifest.content == CONTENT_DATA {
        dataManifests := dataManifests + [manifest];
      } else {
        deleteManifests := deleteManifests + [manifest];
      }
    }
    assert allManifests[..|allManifests|] == allManifests;
    ListSplits(table, version);
    var list := new IcebergMultiFileList(table, version, dataManifests, deleteManifests);
    r := Success(list);
  }

  /** The deletes that a list applies to one of its files. */
  ghost function DeletedIn(list: IcebergMultiFileList, fileId: nat): set<int>
    requires fileId < |list.dataFiles| && AllOpen(list.DeleteSources())
    reads list`dataFiles, list`deleteManifests
  {
    DeletedRows(LoadedRows(list.table, list.version, list.deleteManifests), list.dataFiles[fileId].filePath)
  }

  /** One chunk of a listed data file, with its row numbers, passed through FinalizeChunk. */
  method ReadChunk<V>(list: IcebergMultiFileList, fileId: nat, rows: seq<V>, start: nat) returns (kept: seq<V>)
    requires list.Valid() && fileId < |list.dataFiles| && AllOpen(list.DeleteSources())
    modifies list`currentDeleteManifest, list.deleteReader, list.deleteReader.scan, list.deleteData, list.deleteData.objects
    ensures list.Valid() && list.Plan() == old(list.Plan())
    ensures list.deleteReader.scan == old(list.deleteReader.scan) || fresh(list.deleteReader.scan)
    ensures fresh(list.deleteData.objects - old(list.deleteData.objects))
    ensures kept == Surviving(rows, Positions(start, |rows|), DeletedIn(list, fileId))
  {
    hide LoadedRows, Surviving;
    var chunk := new DataChunk(rows);
    IdentityIds(Positions(start, |rows|));
    var ok := list.FinalizeChunk(fileId, chunk, RowIdColumn(Positions(start, |rows|), Identity(|rows|)));
    kept := chunk.rows;
  }

  /** A whole data file, chunk by chunk. */
  method ReadFile<V>(list: IcebergMultiFileList, fileId: nat, chunks: Chunks<V>) returns (rows: seq<V>)
    requires list.Valid() && fileId < |list.dataFiles| && AllOpen(list.DeleteSources())
    modifies list`currentDeleteManifest, list.deleteReader, list.deleteReader.scan, list.deleteData, list.deleteData.objects
    ensures list.Valid() && list.Plan() == old(list.Plan())
    ensures list.deleteReader.scan == old(list.deleteReader.scan) || fresh(list.deleteReader.scan)
    ensures fresh(list.deleteData.objects - old(list.deleteData.objects))
    ensures rows == Surviving(Flatten(chunks), Positions(0, |Flatten(chunks)|), DeletedIn(list, fileId))
  {
    hide LoadedRows, Surviving;
    ghost var deleted := DeletedIn(list, fileId);
    rows := [];
    var start: nat := 0;
    assert chunks[0..] == chunks;
    ConcatNil(SurvivingChunks(chunks, 0, deleted));
    for k := 0 to |chunks|
      invariant list.Valid() && list.Plan() == old(list.Plan())
      invariant list.deleteReader.scan == old(list.deleteReader.scan) || fresh(list.deleteReader.scan)
      invariant fresh(list.deleteData.objects - old(list.deleteData.objects))
      invariant rows + SurvivingChunks(chunks[k..], start, deleted) == SurvivingChunks(chunks, 0, deleted)
    {
      hide IcebergMultiFileList.Valid, IcebergMultiFileList.Plan;
      var kept := ReadChunk(list, fileId, chunks[k], start);
      ConcatAssoc(rows, kept, SurvivingChunks(chunks[k + 1..], start + |chunks[k]|, deleted));
      assert chunks[k..][1..] == chunks[k + 1..];
      rows := rows + kept;
      start := start + |chunks[k]|;
    }
    ConcatNil(rows);
    ChunkingIrrelevant(chunks, 0, deleted);
  }

  function Identity(n: nat): (sel: seq<nat>)
    ensures |sel| == n && forall i | 0 <= i < n :: sel[i] == i
  {
    seq(n, i => i)
  }

  lemma IdentityIds(ids: seq<int>)
    ensures RowIdColumn(ids, Identity(|ids|)).Ids(|ids|) == ids
  {
  }

  lemma {:induction false} RowsOfFilesSnoc<V>(table: Table, data: string -> Chunks<V>, deletes: seq<DeleteRow>,
                                              entries: seq<Entry>, last: Entry)
    ensures RowsOfFiles(table, data, deletes, entries + [last]) ==
            RowsOfFiles(table, data, deletes, entries) + FileRows(table, data, DeletedRows(deletes, last.filePath), last)
  {
    hide FileRows, DeletedRows;
    if entries == [] {
      assert [last][1..] == [];
      ConcatNil(FileRows(table, data, DeletedRows(deletes, last.filePath), last));
    } else {
      ConcatHead(entries, [last]);
      RowsOfFilesSnoc(table, data, deletes, entries[1..], last);
      ConcatAssoc(FileRows(table, data, DeletedRows(deletes, entries[0].filePath), entries[0]),
                  RowsOfFiles(table, data, deletes, entries[1..]),
                  FileRows(table, data, DeletedRows(deletes, last.filePath), last));
    }
  }

  /** What the list will list is `entries`, all of it can be opened, and so can its deletes. */
  ghost predicate Lists(list: IcebergMultiFileList, entries: seq<Entry>, deletes: seq<DeleteRow>)
    requires list.Valid()
    reads list, list.dataReader, list.dataReader.scan, list.deleteReader, list.deleteReader.scan
    reads list.deleteData, list.deleteData.objects
  {
    && Total(list.DataFilesSetup(), list.Plan()) == entries
    && AllOpen(Unopened(list.DataFilesSetup(), list.Plan()))
    && AllNamed(list.table, entries)
    && AllOpen(list.DeleteSources())
    && LoadedRows(list.table, list.version, list.deleteManifests) == deletes
  }

  /** The scan stands at file `i`, which GetFile has named `path`, or past the last file. */
  ghost predicate StandsAt(list: IcebergMultiFileList, entries: seq<Entry>, deletes: seq<DeleteRow>, i: nat, path: string)
    reads list, list.dataReader, list.dataReader.scan, list.deleteReader, list.deleteReader.scan
    reads list.deleteData, list.deleteData.objects
  {
    && list.Valid() && Lists(list, entries, deletes)
    && i <= |entries| && (path == "" <==> i == |entries|)
    && (i < |entries| ==>
          && Success(path) == Resolve(list.table.allowMoved, list.table.root, entries[i].filePath)
          && i < |list.dataFiles| && list.dataFiles[i] == entries[i])
  }

  /** GetFile(i) for the next file in turn, when nothing is missing. */
  method NextFile(list: IcebergMultiFileList, i: nat, ghost entries: seq<Entry>, ghost deletes: seq<DeleteRow>)
    returns (path: string)
    requires list.Valid() && Lists(list, entries, deletes)
    requires i <= |entries| && i <= |list.dataFiles|
    modifies list`dataFiles, list`currentDataManifest, list.dataReader, list.dataReader.scan
    ensures StandsAt(list, entries, deletes, i, path)
    ensures list.dataReader.scan == old(list.dataReader.scan) || fresh(list.dataReader.scan)
  {
    hide Expand, Total, LoadedRows, IcebergMultiFileList.DeletesConsistent;
    ghost var s, p := list.DataFilesSetup(), list.Plan();
    GetFileAnswer(s, p, i);
    ExpandComplete(s, p, i);
    ExpandKeepsTotal(s, p, i);
    ExpandUnopened(s, p, i);
    var answer := list.GetFile(i);
    path := answer.value;
  }

  /** Reads the file the scan stands at and moves to the next. */
  method ReadAndMove<V>(list: IcebergMultiFileList, i: nat, path: string, ghost entries: seq<Entry>,
                        ghost deletes: seq<DeleteRow>, data: string -> Chunks<V>)
    returns (rows: seq<V>, path': string)
    requires StandsAt(list, entries, deletes, i, path) && path != ""
    modifies list, list.dataReader, list.dataReader.scan, list.deleteReader, list.deleteReader.scan
    modifies list.deleteData, list.deleteData.objects
    ensures StandsAt(list, entries, deletes, i + 1, path')
    ensures list.dataReader.scan == old(list.dataReader.scan) || fresh(list.dataReader.scan)
    ensures list.deleteReader.scan == old(list.deleteReader.scan) || fresh(list.deleteReader.scan)
    ensures fresh(list.deleteData.objects - old(list.deleteData.objects))
    ensures list.deleteManifests == old(list.deleteManifests)
    ensures i < |entries| && rows == FileRows(list.table, data, DeletedRows(deletes, entries[i].filePath), entries[i])
  {
    hide Total, LoadedRows, Unopened, IcebergMultiFileList.DeletesConsistent, Surviving, DeletedRows;
    rows := ReadFile(list, i, data(path));
    path' := NextFile(list, i + 1, entries, deletes);
  }

  /** Reads every file of a list, whatever safe calls were made on it before. */
  method ReadFiles<V>(list: IcebergMultiFileList, ghost entries: seq<Entry>, ghost deletes: seq<DeleteRow>,
                      data: string -> Chunks<V>)
    returns (rows: seq<V>)
    requires list.Valid() && Lists(list, entries, deletes)
    modifies list, list.dataReader, list.dataReader.scan, list.deleteReader, list.deleteReader.scan
    modifies list.deleteData, list.deleteData.objects
    ensures rows == RowsOfFiles(list.table, data, deletes, entries)
  {
    NoFilesNoRows(list.table, data, deletes);
    rows := [];
    var i := 0;
    var path := NextFile(list, 0, entries, deletes);
    while path != ""
      invariant StandsAt(list, entries, deletes, i, path) && i <= |entries| && (path == "" ==> i == |entries|)
      invariant list.dataReader.scan == old(list.dataReader.scan) || fresh(list.dataReader.scan)
      invariant list.deleteReader.scan == old(list.deleteReader.scan) || fresh(list.deleteReader.scan)
      invariant fresh(list.deleteData.objects - old(list.deleteData.objects))
      invariant rows == RowsOfFiles(list.table, data, deletes, entries[..i])
      decreases |entries| - i
    {
      hide StandsAt, RowsOfFiles, FileRows, DeletedRows;
      var fileRows;
      ghost var k := i;
      fileRows, path := ReadAndMove(list, i, path, entries, deletes, data);
      StandsWithin(list, entries, deletes, i + 1, path);
      TakeSnoc(entries, k);
      RowsOfFilesSnoc(list.table, data, deletes, entries[..k], entries[k]);
      rows := rows + fileRows;
      i := i + 1;
    }
    assert entries[..i] == entries;
  }

  lemma StandsWithin(list: IcebergMultiFileList, entries: seq<Entry>, deletes: seq<DeleteRow>, i: nat, path: string)
    requires StandsAt(list, entries, deletes, i, path)
    ensures i <= |entries| && (path == "" ==> i == |entries|)
  {
  }

  /** A list as InitializeFiles leaves it lists the live entries of its data manifests. */
  lemma FreshLists(list: IcebergMultiFileList, manifests: seq<Manifest>)
    requires list.Valid() && list.Plan() == INITIAL
    requires list.dataManifests == Select(manifests, true) && list.deleteManifests == Select(manifests, false)
    requires Scannable(list.table, list.version, manifests)
    ensures Lists(list, LiveEntries(list.table, list.version, Select(manifests, true)),
                  DeleteRowsOf(list.table.storage, LoadedEntries(list.table, list.version, manifests)))
  {
    hide Select, LiveEntries, DrainAll, DeleteRowsOf, AddRows, IcebergMultiFileList.Valid, Total, AllNamed;
    RemainingIsLive(list.table, list.version, Select(manifests, true));
    StartTotal(list.DataFilesSetup());
  }

  /** End to end, for either advance: whatever way the Avro and Parquet files are cut into chunks, a scan
      of the manifests that the manifest list drains to delivers the rows of all their live data files,
      in order, without those that the delete files it loads name. These are the meaning of the table if
      no manifest and no delete entry is lost in a drain and no delete file needs re-rooting, so always
      with the intended advance when the table is not moved. */
  method ScanTable<V>(table: Table, version: FormatVersion, ghost manifests: seq<Manifest>, data: string -> Chunks<V>)
    returns (rows: seq<V>)
    requires VersionOf(table.snapshot.formatVersion) == Some(version)
    requires ListManifests(table, version) == Success(manifests)
    requires Scannable(table, version, manifests)
    ensures rows == ScannedRows(table, version, data, manifests)
    ensures ListFits(table) && ListDrainsCompletely(table, version) ==> AllManifests(table, version) == Success(manifests)
    ensures Readable(table, version, manifests) && DeletesFit(table, manifests) &&
            DrainsCompletely(table, version, manifests) &&
            SelfResolving(table, LiveEntries(table, version, Select(manifests, false))) ==>
              rows == MeaningOf(table, version, data, manifests)
  {
    hide Select, LiveEntries, DrainAll, DeleteRowsOf, AllNamed, AllResolve, AllOpen, RowsOfFiles, Drain, Lists, Expand, Total;
    var initialized := InitializeFiles(table);
    var list := initialized.value;
    FreshLists(list, manifests);
    rows := ReadFiles(list, LiveEntries(table, version, Select(manifests, true)),
                      DeleteRowsOf(table.storage, LoadedEntries(table, version, manifests)), data);
    if Readable(table, version, manifests) {
      ScannedIsMeaning(table, version, data, manifests);
    }
    if ListFits(table) {
      ListsAllIff(table, version);
    }
  }
}
