/** What a table's files hold, and what loading its manifest list and its deletes means. */
module TableFiles {
  import opened Basics
  import opened DeleteSets
  import opened FilePlan
  import opened Manifests
  import opened Paths
  import opened ReadCursor

  /** The file system, by path: manifest lists, manifests and position delete files. */
  datatype Storage = Storage(manifestLists: string -> Chunks<ManifestRow>,
                             manifests: string -> Chunks<EntryRow>,
                             deleteFiles: string -> Chunks<DeleteRow>)

  /** The parts of a snapshot the planner uses; `empty` is the INVALID_INDEX snapshot id. */
  datatype Snapshot = Snapshot(formatVersion: nat, empty: bool, manifestList: string)

  /** Everything that decides what a scan reads. */
  datatype Table = Table(storage: Storage, snapshot: Snapshot, root: string, allowMoved: bool, advance: Advance)

  function VersionOf(n: nat): Option<FormatVersion> {
    if n == 1 then Some(V1) else if n == 2 then Some(V2) else None
  }

  function Resolver(table: Table): string -> Result<string, Error> {
    path => Resolve(table.allowMoved, table.root, path)
  }

  /** The manifests of the table, as drained from its manifest list. */
  function ListManifests(table: Table, version: FormatVersion): Result<seq<Manifest>, Error> {
    if table.snapshot.empty then Success([])
    else
      match Resolve(table.allowMoved, table.root, table.snapshot.manifestList)
      case Failure(error) => Failure(error)
      case Success(path) =>
        Success(Drain(table.advance, ManifestProducer(version), AtStart(table.storage.manifestLists(path)), STANDARD_VECTOR_SIZE))
  }

  /** The manifests that are data manifests, or those that are not, in order. */
  function Select(manifests: seq<Manifest>, data: bool): seq<Manifest> {
    if manifests == [] then []
    else (if (manifests[0].content == CONTENT_DATA) == data then [manifests[0]] else []) + Select(manifests[1..], data)
  }

  lemma {:induction false} SelectSnoc(manifests: seq<Manifest>, last: Manifest, data: bool)
    ensures Select(manifests + [last], data) ==
            Select(manifests, data) + if (last.content == CONTENT_DATA) == data then [last] else []
  {
    if manifests == [] {
      assert [last][1..] == [];
    } else {
      ConcatHead(manifests, [last]);
      SelectSnoc(manifests[1..], last, data);
      ConcatAssoc(if (manifests[0].content == CONTENT_DATA) == data then [manifests[0]] else [],
                  Select(manifests[1..], data), if (last.content == CONTENT_DATA) == data then [last] else []);
    }
  }

  function SourceOf(table: Table, manifest: Manifest): Source {
    match Resolve(table.allowMoved, table.root, manifest.path)
    case Failure(_) => None
    case Success(path) => Some(table.storage.manifests(path))
  }

  function Sources(table: Table, manifests: seq<Manifest>): (sources: seq<Source>)
    ensures |sources| == |manifests|
    ensures forall i | 0 <= i < |sources| :: sources[i] == SourceOf(table, manifests[i])
  {
    seq(|manifests|, i requires 0 <= i < |manifests| => SourceOf(table, manifests[i]))
  }

  /** The setup the data files are listed with: DELETED entries are skipped while reading. */
  function DataSetup(table: Table, version: FormatVersion, dataManifests: seq<Manifest>): Setup {
    Setup(table.advance, EntryProducer(version, true), Sources(table, dataManifests), Resolver(table))
  }

  // ----- deletes -----------------------------------------------------------------------------------

  /** The entries drained from the delete manifests, one after another. */
  function DrainAll(adv: Advance, f: EntryRow -> Option<Entry>, sources: seq<Source>): seq<Entry>
    requires AllOpen(sources)
  {
    if sources == [] then []
    else Drain(adv, f, AtStart(sources[0].value), STANDARD_VECTOR_SIZE) + DrainAll(adv, f, sources[1..])
  }

  /** With the intended advance the drained entries are all the live ones. */
  lemma {:induction false} DrainAllExact(f: EntryRow -> Option<Entry>, sources: seq<Source>)
    requires AllOpen(sources)
    ensures DrainAll(Scanned, f, sources) == Remaining(f, sources)
  {
    if sources != [] {
      DrainExact(f, AtStart(sources[0].value), STANDARD_VECTOR_SIZE);
      ConcatNil(Flatten(sources[0].value));
      DrainAllExact(f, sources[1..]);
    }
  }

  /** Every manifest's chunks are aligned with the requests of a drain. */
  predicate AllAligned(f: EntryRow -> Option<Entry>, sources: seq<Source>)
    requires AllOpen(sources)
  {
    forall i | 0 <= i < |sources| :: Aligned(f, sources[i].value, STANDARD_VECTOR_SIZE, 0)
  }

  /** The code drains all live entries of the delete manifests exactly when every one is aligned. */
  lemma {:induction false} DrainAllExactIff(f: EntryRow -> Option<Entry>, sources: seq<Source>)
    requires AllOpen(sources)
    requires forall i | 0 <= i < |sources| :: FitVectors(sources[i].value)
    ensures |DrainAll(Requested, f, sources)| <= |Remaining(f, sources)|
    ensures DrainAll(Requested, f, sources) == Remaining(f, sources) <==> AllAligned(f, sources)
    ensures |DrainAll(Requested, f, sources)| == |Remaining(f, sources)| ==> AllAligned(f, sources)
  {
    if sources != [] {
      var chunks := sources[0].value;
      DrainOnExactIff(f, chunks, STANDARD_VECTOR_SIZE, 0);
      DrainAllExactIff(f, sources[1..]);
      assert AllAligned(f, sources) <==> Aligned(f, chunks, STANDARD_VECTOR_SIZE, 0) && AllAligned(f, sources[1..]) by {
        assert sources == [sources[0]] + sources[1..];
      }
      if DrainAll(Requested, f, sources) == Remaining(f, sources) {
        assert |DrainAll(Requested, f, sources)| == |Remaining(f, sources)|;
      }
    }
  }

  /** The rows of the listed delete files, in the order they are scanned. The stored path is opened
      as it is, also when `allow_moved_paths` is set. */
  function DeleteRowsOf(storage: Storage, entries: seq<Entry>): seq<DeleteRow> {
    if entries == [] then []
    else Flatten(storage.deleteFiles(entries[0].filePath)) + DeleteRowsOf(storage, entries[1..])
  }

  lemma {:induction false} DeleteRowsSnoc(storage: Storage, entries: seq<Entry>, last: Entry)
    ensures DeleteRowsOf(storage, entries + [last]) ==
            DeleteRowsOf(storage, entries) + Flatten(storage.deleteFiles(last.filePath))
  {
    if entries == [] {
      assert [last][1..] == [];
      ConcatNil(Flatten(storage.deleteFiles(last.filePath)));
    } else {
      ConcatHead(entries, [last]);
      DeleteRowsSnoc(storage, entries[1..], last);
      ConcatAssoc(Flatten(storage.deleteFiles(entries[0].filePath)), DeleteRowsOf(storage, entries[1..]),
                  Flatten(storage.deleteFiles(last.filePath)));
    }
  }

  /** The delete rows a scan loads. */
  function LoadedRows(table: Table, version: FormatVersion, deleteManifests: seq<Manifest>): seq<DeleteRow>
    requires AllOpen(Sources(table, deleteManifests))
  {
    DeleteRowsOf(table.storage, DrainAll(table.advance, EntryProducer(version, true), Sources(table, deleteManifests)))
  }

  /** `delete_data` once loading is complete. */
  function LoadedDeletes(table: Table, version: FormatVersion, deleteManifests: seq<Manifest>): Deletes
    requires AllOpen(Sources(table, deleteManifests))
  {
    AddRows(map[], LoadedRows(table, version, deleteManifests))
  }
}
