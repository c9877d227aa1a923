/** `IcebergMultiFileList`: the data files listed on demand and the deletes loaded once. */
module MultiFileList {
  import opened Basics
  import opened DeleteData
  import opened DeleteSets
  import opened FilePlan
  import opened ManifestReaders
  import opened Manifests
  import opened Paths
  import opened ReadCursor
  import opened TableFiles

  /** How one turn of the loop in GetFile ends. */
  datatype Turn = ReadOn | NoneLeft | Unopenable

  /** Where loading stands: not begun, stuck before a manifest that cannot be opened, or complete. */
  ghost predicate LoadingState(table: Table, version: FormatVersion, manifests: seq<Manifest>, current: nat, sets: Deletes) {
    var sources := Sources(table, manifests);
    && current <= |manifests|
    && AllOpen(sources[..current])
    && (0 < current < |manifests| ==> sources[current].None?)
    && (current < |manifests| ==> sets == map[])
    && (current == |manifests| ==> AllOpen(sources) && sets == LoadedDeletes(table, version, manifests))
  }

  class IcebergMultiFileList {
    const table: Table
    const version: FormatVersion
    const dataReader: ManifestReader<EntryRow>
    const deleteReader: ManifestReader<EntryRow>
    const deleteData: DeleteDataMap
    var dataFiles: seq<Entry>
    var dataManifests: seq<Manifest>
    var deleteManifests: seq<Manifest>
    var currentDataManifest: nat
    var currentDeleteManifest: nat

    // ----- state -----------------------------------------------------------------------------------

    ghost function DataFilesSetup(): Setup
      reads this`dataManifests
    {
      DataSetup(table, version, dataManifests)
    }

    ghost function DeleteSources(): seq<Source>
      reads this`deleteManifests
    {
      Sources(table, deleteManifests)
    }

    /** The state the file-listing specification speaks of. */
    ghost function Plan(): Planner
      reads this`dataFiles, this`currentDataManifest, dataReader, dataReader.scan
    {
      Planner(dataFiles, !dataReader.finished, dataReader.Position(), currentDataManifest)
    }

    /** The two readers share nothing. */
    ghost predicate Separate()
      reads dataReader`scan, deleteReader`scan
    {
      dataReader != deleteReader && (dataReader.scan != null ==> dataReader.scan != deleteReader.scan)
    }

    ghost predicate DeletesConsistent()
      reads this`deleteManifests, this`currentDeleteManifest
      reads deleteReader, deleteReader.scan, deleteData, deleteData.objects
    {
      && deleteReader.Valid() && deleteReader.finished && deleteReader.advance == table.advance
      && deleteData.Valid()
      && LoadingState(table, version, deleteManifests, currentDeleteManifest, deleteData.Sets())
    }

    ghost predicate Valid()
      reads this, dataReader, dataReader.scan, deleteReader, deleteReader.scan, deleteData, deleteData.objects
    {
      && Separate()
      && dataReader.Valid() && dataReader.advance == table.advance
      && Plan().Fits(DataFilesSetup())
      && DeletesConsistent()
    }

    // ----- construction ----------------------------------------------------------------------------

    /** The list as Bind leaves it: the manifest list is read and split, nothing else is. */
    constructor (table: Table, version: FormatVersion, dataManifests: seq<Manifest>, deleteManifests: seq<Manifest>)
      ensures Valid() && dataReader.scan == null && deleteReader.scan == null
      ensures fresh(dataReader) && fresh(deleteReader) && fresh(deleteData) && fresh(deleteData.objects)
      ensures this.table == table && this.version == version
      ensures this.dataManifests == dataManifests && this.deleteManifests == deleteManifests
      ensures Plan() == INITIAL && currentDeleteManifest == 0 && deleteData.Sets() == map[]
    {
      this.table, this.version := table, version;
      dataReader := new ManifestReader<EntryRow>(table.advance);
      deleteReader := new ManifestReader<EntryRow>(table.advance);
      dataFiles := [];
      this.dataManifests, this.deleteManifests := dataManifests, deleteManifests;
      currentDataManifest, currentDeleteManifest := 0, 0;
      deleteData := new DeleteDataMap();
    }

    // ----- listing data files ----------------------------------------------------------------------

    /** One turn of the loop in GetFile: open the next manifest if none is being read, then read. */
    method ListMore(fileId: nat) returns (turn: Turn)
      requires Valid() && fileId >= |dataFiles|
      modifies this`dataFiles, this`currentDataManifest, dataReader, dataReader.scan
      ensures Valid() && (dataReader.scan == old(dataReader.scan) || fresh(dataReader.scan))
      ensures var s, p := DataFilesSetup(), old(Plan());
              turn == if CanRead(s, p, fileId) then ReadOn else if Stuck(s, p, fileId) then Unopenable else NoneLeft
      ensures turn.ReadOn? ==> Plan() == ReadMore(DataFilesSetup(), old(Plan()), fileId)
      ensures !turn.ReadOn? ==> Plan() == old(Plan())
    {
      hide ReadMore, ReadFrom, Produce, Unread, IcebergMultiFileList.DeletesConsistent;
      ghost var s, p := DataFilesSetup(), Plan();
      if dataReader.Finished() {
        if currentDataManifest == |dataManifests| {
          return NoneLeft;
        }
        var manifest := dataManifests[currentDataManifest];
        var resolved := Resolve(table.allowMoved, table.root, manifest.path);
        if resolved.Failure? {
          return Unopenable;
        }
        var scan := new AvroScan(table.storage.manifests(resolved.value));
        dataReader.Initialize(scan);
      }
      assert dataReader.Position() == CursorOf(s, p);
      var remaining := fileId + 1 - |dataFiles|;
      var scanned;
      scanned, dataFiles := dataReader.ReadEntries(remaining, EntryProducer(version, true), dataFiles);
      if dataReader.Finished() {
        currentDataManifest := currentDataManifest + 1;
      }
      ReadMoreIs(s, p, fileId, Plan());
      turn := ReadOn;
    }

    method GetFile(fileId: nat) returns (r: Result<string, Error>)
      requires Valid()
      modifies this`dataFiles, this`currentDataManifest, dataReader, dataReader.scan
      ensures Valid() && (dataReader.scan == old(dataReader.scan) || fresh(dataReader.scan))
      ensures Plan() == Expand(DataFilesSetup(), old(Plan()), fileId)
      ensures r == Answer(DataFilesSetup(), Plan(), fileId)
    {
      hide Expand, ReadMore, IcebergMultiFileList.DeletesConsistent;
      ghost var start := Plan();
      while fileId >= |dataFiles|
        invariant Valid() && (dataReader.scan == old(dataReader.scan) || fresh(dataReader.scan))
        invariant Expand(DataFilesSetup(), Plan(), fileId) == Expand(DataFilesSetup(), start, fileId)
        decreases |dataManifests| - currentDataManifest, if fileId < |dataFiles| then 0 else 1
      {
        ExpandUnfold(DataFilesSetup(), Plan(), fileId);
        var turn := ListMore(fileId);
        if turn.NoneLeft? {
          break;
        }
        if turn.Unopenable? {
          return Failure(UnrecognisedPath);
        }
      }
      ExpandUnfold(DataFilesSetup(), Plan(), fileId);
      if fileId >= |dataFiles| {
        return Success("");
      }
      r := Resolve(table.allowMoved, table.root, dataFiles[fileId].filePath);
    }

    method GetExpandResult() returns (r: Result<FileExpandResult, Error>)
      requires Valid()
      modifies this`dataFiles, this`currentDataManifest, dataReader, dataReader.scan
      ensures Valid() && (dataReader.scan == old(dataReader.scan) || fresh(dataReader.scan))
      ensures Plan() == Expand(DataFilesSetup(), old(Plan()), 1)
      ensures r.Failure? <==> Answer(DataFilesSetup(), Plan(), 1).Failure?
      ensures r.Failure? ==> r.error == Answer(DataFilesSetup(), Plan(), 1).error
      ensures r == Success(NO_FILES) <==> r.Success? && |dataFiles| == 0
      ensures r == Success(SINGLE_FILE) <==> r.Success? && |dataFiles| == 1
      ensures r == Success(MULTIPLE_FILES) <==> r.Success? && |dataFiles| > 1
      ensures Safe(DataFilesSetup(), old(Plan()), 1) && r.Success? ==>
                var total := |Total(DataFilesSetup(), old(Plan()))|;
                && (r == Success(NO_FILES) <==> total == 0)
                && (r == Success(SINGLE_FILE) <==> total == 1)
                && (r == Success(MULTIPLE_FILES) <==> total > 1)
    {
      hide Expand, Answer, Total, IcebergMultiFileList.DeletesConsistent;
      if Safe(DataFilesSetup(), Plan(), 1) {
        ExpandSameClass(DataFilesSetup(), Plan());
      }
      var second := GetFile(1);
      match second
      case Failure(error) => r := Failure(error);
      case Success(_) =>
        if |dataFiles| > 1 {
          r := Success(MULTIPLE_FILES);
        } else if |dataFiles| == 1 {
          r := Success(SINGLE_FILE);
        } else {
          r := Success(NO_FILES);
        }
    }

    method GetTotalFileCount() returns (r: Result<nat, Error>)
      requires Valid()
      modifies this`dataFiles, this`currentDataManifest, dataReader, dataReader.scan
      ensures Valid() && (dataReader.scan == old(dataReader.scan) || fresh(dataReader.scan))
      ensures (Plan(), r) == CountUp(DataFilesSetup(), old(Plan()))
    {
      hide Expand, CountUp, Answer, Pending, Total, IcebergMultiFileList.DeletesConsistent;
      ghost var start := Plan();
      var i := |dataFiles|;
      while true
        invariant Valid() && (dataReader.scan == old(dataReader.scan) || fresh(dataReader.scan))
        invariant i == |dataFiles|
        invariant CountUp(DataFilesSetup(), Plan()) == CountUp(DataFilesSetup(), start)
        decreases |Pending(DataFilesSetup(), Plan())|
      {
        CountUnfold(DataFilesSetup(), Plan());
        var path := GetFile(i);
        if path.Failure? {
          return Failure(path.error);
        }
        if path.value == "" {
          break;
        }
        i := i + 1;
      }
      r := Success(|dataFiles|);
    }

    // ----- deletes ---------------------------------------------------------------------------------

    method ScanDeleteFile(deleteFilePath: string)
      requires deleteData.Valid()
      modifies deleteData, deleteData.objects
      ensures deleteData.Valid() && fresh(deleteData.objects - old(deleteData.objects))
      ensures deleteData.Sets() == AddRows(old(deleteData.Sets()), Flatten(table.storage.deleteFiles(deleteFilePath)))
    {
      var scan := new AvroScan(table.storage.deleteFiles(deleteFilePath));
      ghost var read: seq<seq<DeleteRow>> := [];
      var more := true;
      while more
        invariant deleteData.Valid() && fresh(deleteData.objects - old(deleteData.objects)) && fresh(scan)
        invariant read + scan.chunks == table.storage.deleteFiles(deleteFilePath)
        invariant !more ==> scan.chunks == []
        invariant deleteData.Sets() == AddRows(old(deleteData.Sets()), Flatten(read))
        decreases |scan.chunks|, more
      {
        hide AddRows, Flatten;
        ghost var left := scan.chunks;
        var result;
        result, more := scan.GetNext();
        if more {
          AddChunk(deleteData, result);
          FlattenSnoc(read, result);
          AddRowsConcat(old(deleteData.Sets()), Flatten(read), result);
          assert left == [result] + left[1..];
          ConcatAssoc(read, [result], left[1..]);
          read := read + [result];
        }
      }
      ConcatNil(read);
    }

    /** One turn of the first loop of ProcessDeletes: open the next manifest if none is being read, then read. */
    method ReadDeleteEntries(deleteFiles: seq<Entry>) returns (ok: bool, deleteFiles': seq<Entry>)
      requires DeletesReading(deleteFiles) && currentDeleteManifest < |deleteManifests|
      modifies this`currentDeleteManifest, deleteReader, deleteReader.scan
      ensures deleteReader.scan == old(deleteReader.scan) || fresh(deleteReader.scan)
      ensures ok ==> DeletesReading(deleteFiles')
      ensures ok ==> if deleteReader.finished then currentDeleteManifest == old(currentDeleteManifest) + 1
                     else currentDeleteManifest == old(currentDeleteManifest)
                          && (old(deleteReader.finished) || Size(deleteReader.Position()) < old(Size(deleteReader.Position())))
      ensures !ok ==> currentDeleteManifest == old(currentDeleteManifest) && DeleteSources()[currentDeleteManifest].None?
                      && deleteReader.finished && deleteReader.Valid() && AllOpen(DeleteSources()[..currentDeleteManifest])
    {
      hide Drain, DrainAll, ReadFrom, Produce, Unread;
      var f := EntryProducer(version, true);
      ghost var sources, k := DeleteSources(), currentDeleteManifest;
      if deleteReader.Finished() {
        var manifest := deleteManifests[currentDeleteManifest];
        var resolved := Resolve(table.allowMoved, table.root, manifest.path);
        if resolved.Failure? {
          return false, deleteFiles;
        }
        DrainLeftOpens(table.advance, f, sources, k);
        var scan := new AvroScan(table.storage.manifests(resolved.value));
        deleteReader.Initialize(scan);
      }
      ghost var position := deleteReader.Position();
      var scanned;
      scanned, deleteFiles' := deleteReader.ReadEntries(STANDARD_VECTOR_SIZE, f, deleteFiles);
      DrainLeftReads(table.advance, f, sources, k, position, deleteFiles,
                     ReadFrom(table.advance, f, position, STANDARD_VECTOR_SIZE, 0));
      if deleteReader.Finished() {
        currentDeleteManifest := currentDeleteManifest + 1;
        AllOpenSnoc(sources, k);
      }
      ok := true;
    }

    /** The first loop of ProcessDeletes: every live entry of every delete manifest. */
    method ListDeleteFiles() returns (ok: bool, deleteFiles: seq<Entry>)
      requires Valid() && currentDeleteManifest < |deleteManifests|
      modifies this`currentDeleteManifest, deleteReader, deleteReader.scan
      ensures deleteReader.scan == old(deleteReader.scan) || fresh(deleteReader.scan)
      ensures deleteReader.Valid() && deleteReader.finished && deleteReader.advance == table.advance
      ensures currentDeleteManifest <= |deleteManifests| && AllOpen(DeleteSources()[..currentDeleteManifest])
      ensures !ok ==> currentDeleteManifest < |deleteManifests| && DeleteSources()[currentDeleteManifest].None?
      ensures ok ==> currentDeleteManifest == |deleteManifests| && AllOpen(DeleteSources())
                     && deleteFiles == DrainAll(table.advance, EntryProducer(version, true), DeleteSources())
    {
      hide Drain, DrainAll, ReadFrom, Produce, Unread, DrainLeft, LoadedDeletes;
      deleteFiles := [];
      DrainLeftBegins(table.advance, EntryProducer(version, true), DeleteSources(), currentDeleteManifest);
      while currentDeleteManifest != |deleteManifests|
        invariant deleteReader.scan == old(deleteReader.scan) || fresh(deleteReader.scan)
        invariant DeletesReading(deleteFiles)
        decreases |deleteManifests| - currentDeleteManifest, deleteReader.finished, Size(deleteReader.Position())
      {
        ok, deleteFiles := ReadDeleteEntries(deleteFiles);
        if !ok {
          return;
        }
      }
      ok := true;
      assert DeleteSources()[..currentDeleteManifest] == DeleteSources();
      DrainLeftEnds(table.advance, EntryProducer(version, true), DeleteSources(), deleteFiles);
    }

    /** The second loop of ProcessDeletes. */
    method ScanDeleteFiles(deleteFiles: seq<Entry>)
      requires deleteData.Valid()
      modifies deleteData, deleteData.objects
      ensures deleteData.Valid() && fresh(deleteData.objects - old(deleteData.objects))
      ensures deleteData.Sets() == AddRows(old(deleteData.Sets()), DeleteRowsOf(table.storage, deleteFiles))
    {
      ghost var before := deleteData.Sets();
      for i := 0 to |deleteFiles|
        invariant deleteData.Valid() && fresh(deleteData.objects - old(deleteData.objects))
        invariant deleteData.Sets() == AddRows(before, DeleteRowsOf(table.storage, deleteFiles[..i]))
      {
        hide DeleteRowsOf, AddRows;
        ScanDeleteFile(deleteFiles[i].filePath);
        TakeSnoc(deleteFiles, i);
        DeleteRowsSnoc(table.storage, deleteFiles[..i], deleteFiles[i]);
        AddRowsConcat(before, DeleteRowsOf(table.storage, deleteFiles[..i]),
                      Flatten(table.storage.deleteFiles(deleteFiles[i].filePath)));
      }
      assert deleteFiles[..|deleteFiles|] == deleteFiles;
    }

    /** Loads every delete, or fails at a delete manifest that cannot be opened and loads none. */
    method ProcessDeletes() returns (ok: bool)
      requires Valid() && currentDeleteManifest < |deleteManifests|
      modifies this`currentDeleteManifest, deleteReader, deleteReader.scan, deleteData, deleteData.objects
      ensures Valid() && (deleteReader.scan == old(deleteReader.scan) || fresh(deleteReader.scan))
      ensures fresh(deleteData.objects - old(deleteData.objects))
      ensures ok <==> AllOpen(DeleteSources())
      ensures ok <==> currentDeleteManifest == |deleteManifests|
    {
      hide DrainAll, DeleteRowsOf, AddRows;
      var deleteFiles;
      ok, deleteFiles := ListDeleteFiles();
      if !ok {
        return;
      }
      ScanDeleteFiles(deleteFiles);
    }

    method GetDeletesForFile(filePath: string) returns (deletes: IcebergDeleteData?)
      requires deleteData.Valid()
      ensures deletes == null <==> Fold(filePath) !in deleteData.entries
      ensures deletes != null ==> deletes == deleteData.entries[Fold(filePath)] && deletes in deleteData.objects
      ensures RowsOf(deleteData.Sets(), Fold(filePath)) == if deletes == null then {} else deletes.invalidRows
    {
      deletes := deleteData.Find(filePath);
    }

    /** Filters one chunk of the listed file `fileId`, loading the deletes first if need be. */
    method FinalizeChunk<V>(fileId: nat, chunk: DataChunk<V>, rowNumbers: RowIdColumn) returns (ok: bool)
      requires Valid() && fileId < |dataFiles| && rowNumbers.Covers(|chunk.rows|)
      modifies this`currentDeleteManifest, deleteReader, deleteReader.scan, deleteData, deleteData.objects, chunk
      ensures Valid() && (deleteReader.scan == old(deleteReader.scan) || fresh(deleteReader.scan))
      ensures fresh(deleteData.objects - old(deleteData.objects))
      ensures ok <==> AllOpen(DeleteSources())
      ensures ok ==> var deletes := LoadedRows(table, version, deleteManifests);
                     chunk.rows == Surviving(old(chunk.rows), rowNumbers.Ids(|old(chunk.rows)|),
                                             DeletedRows(deletes, dataFiles[fileId].filePath))
      ensures !ok ==> chunk.rows == old(chunk.rows)
    {
      hide LoadedRows, DeletedRows, AddRows;
      ok := true;
      var filePath := dataFiles[fileId].filePath;
      if currentDeleteManifest != |deleteManifests| {
        ok := ProcessDeletes();
        if !ok {
          return;
        }
      }
      var deletes := GetDeletesForFile(filePath);
      LookupIsDeletedRows(LoadedRows(table, version, deleteManifests), filePath);
      if deletes != null {
        deletes.Apply(chunk, rowNumbers);
      } else {
        NothingDeleted(chunk.rows, rowNumbers.Ids(|chunk.rows|));
      }
    }

    /** `deleteFiles` holds what the manifests read so far drained to, and the reader stands where
        the rest is still to be drained. */
    ghost predicate DeletesReading(deleteFiles: seq<Entry>)
      reads this`deleteManifests, this`currentDeleteManifest, deleteReader, deleteReader.scan
    {
      var f, sources := EntryProducer(version, true), DeleteSources();
      && deleteReader.Valid() && deleteReader.advance == table.advance
      && currentDeleteManifest <= |sources|
      && (!deleteReader.finished ==> currentDeleteManifest < |sources| && sources[currentDeleteManifest].Some?)
      && AllOpen(sources[..currentDeleteManifest])
      && (AllOpen(sources) ==>
            deleteFiles + DrainLeft(table.advance, f, sources, currentDeleteManifest, !deleteReader.finished, deleteReader.Position())
            == DrainAll(table.advance, f, sources))
    }
  }

  /** What a drain of the delete manifests still yields, from manifest `k` on or from within it. */
  ghost function DrainLeft(adv: Advance, f: EntryRow -> Option<Entry>, sources: seq<Source>, k: nat, open: bool,
                           position: Cursor<EntryRow>): seq<Entry>
    requires AllOpen(sources) && k <= |sources| && (open ==> k < |sources|)
  {
    if open then Drain(adv, f, position, STANDARD_VECTOR_SIZE) + DrainAll(adv, f, sources[k + 1..])
    else DrainAll(adv, f, sources[k..])
  }

  lemma DrainLeftBegins(adv: Advance, f: EntryRow -> Option<Entry>, sources: seq<Source>, k: nat)
    requires k < |sources| && (k > 0 ==> sources[k].None?)
    ensures AllOpen(sources) ==> [] + DrainLeft(adv, f, sources, k, false, Cursor([], [])) == DrainAll(adv, f, sources)
  {
    if AllOpen(sources) {
      assert sources[0..] == sources;
      ConcatNil(DrainAll(adv, f, sources));
    }
  }

  lemma DrainLeftEnds(adv: Advance, f: EntryRow -> Option<Entry>, sources: seq<Source>, files: seq<Entry>)
    requires AllOpen(sources)
    ensures files + DrainLeft(adv, f, sources, |sources|, false, Cursor([], [])) == files
  {
    ConcatNil(files);
  }

  lemma DrainLeftOpens(adv: Advance, f: EntryRow -> Option<Entry>, sources: seq<Source>, k: nat)
    requires k < |sources| && sources[k].Some?
    ensures AllOpen(sources) ==>
              DrainLeft(adv, f, sources, k, false, Cursor([], [])) ==
              DrainLeft(adv, f, sources, k, true, AtStart(sources[k].value))
  {
    if AllOpen(sources) {
      assert sources[k..][1..] == sources[k + 1..];
    }
  }

  lemma DrainLeftReads(adv: Advance, f: EntryRow -> Option<Entry>, sources: seq<Source>, k: nat,
                       position: Cursor<EntryRow>, files: seq<Entry>, o: Outcome<EntryRow, Entry>)
    requires k < |sources| && o == ReadFrom(adv, f, position, STANDARD_VECTOR_SIZE, 0)
    ensures AllOpen(sources) ==>
              files + DrainLeft(adv, f, sources, k, true, position) ==
              files + o.delivered + DrainLeft(adv, f, sources, if o.finished then k + 1 else k, !o.finished, o.cursor)
    ensures !o.finished ==> Size(o.cursor) < Size(position)
  {
    hide ReadFrom, Drain;
    DrainUnfold(adv, f, position, STANDARD_VECTOR_SIZE, o);
    if AllOpen(sources) {
      var rest := DrainAll(adv, f, sources[k + 1..]);
      var on := if o.finished then [] else Drain(adv, f, o.cursor, STANDARD_VECTOR_SIZE);
      ConcatNil(rest);
      ConcatAssoc(o.delivered, on, rest);
      ConcatAssoc(files, o.delivered, on + rest);
    }
  }

  lemma AllOpenSnoc(sources: seq<Source>, k: nat)
    requires k < |sources| && AllOpen(sources[..k]) && sources[k].Some?
    ensures AllOpen(sources[..k + 1])
  {
    TakeSnoc(sources, k);
  }

  lemma CountUnfold(s: Setup, p: Planner)
    requires p.Fits(s)
    ensures var p' := Expand(s, p, |p.files|);
            && CountUp(s, p) == (match Answer(s, p', |p.files|)
                                 case Failure(error) => (p', Failure(error))
                                 case Success(path) => if path == "" then (p', Success(|p'.files|)) else CountUp(s, p'))
            && (Answer(s, p', |p.files|).Success? && Answer(s, p', |p.files|).value != "" ==>
                  |p'.files| == |p.files| + 1 && |Pending(s, p')| < |Pending(s, p)|)
  {
    CountStep(s, p);
  }

  lemma ExpandUnfold(s: Setup, p: Planner, fileId: nat)
    requires p.Fits(s)
    ensures Expand(s, p, fileId) == if CanRead(s, p, fileId) then Expand(s, ReadMore(s, p, fileId), fileId) else p
  {
  }

  lemma ReadMoreIs(s: Setup, p: Planner, fileId: nat, p': Planner)
    requires p.Fits(s) && CanRead(s, p, fileId)
    requires var o := ReadFrom(s.adv, s.f, CursorOf(s, p), fileId + 1 - |p.files|, 0);
             p' == Planner(p.files + o.delivered, !o.finished, o.cursor, p.next + if o.finished then 1 else 0)
    ensures ReadMore(s, p, fileId) == p'
  {
  }
}
