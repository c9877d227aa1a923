# Iceberg scan planning, verified

A Dafny model of the part of the DuckDB Iceberg extension that decides what a table scan reads: the
resumable reader over manifest files, the data-file list that grows on demand, the position deletes
that are loaded once under a lock, and the filter that removes deleted rows from each chunk. Around
that core it models the type-name parser, the JSON type parser, the paged metadata function, snapshot
time travel, path re-rooting, the expiring metadata cache and the lazily filled table set.

## How it is organised

- `ReadCursor` says what one `ReadEntries` call does, for the advance in the code (`offset += count`,
  `Requested`) and for the advance that delivers every row (`offset += to_scan`, `Scanned`), and proves
  what each delivers and loses. `ManifestReaders` holds the classes that do it step by step.
- `FilePlan` is the state machine of `GetFile`, `GetTotalFileCount` and `GetExpandResult`;
  `MultiFileList` is the class, each method proved equal to that state machine.
- `ListedRows` says of the rows in the files which become manifests and which files GetFile answers with.
- `DeleteSets` and `DeleteData` are the deletes as values and as the objects that hold them.
- `TableScan` drives a whole scan. `TableMeaning` says what a table means and what a scan reads instead,
  and exactly when the two agree; `ScanExactness` and `ManifestListLoss` turn that into conditions on the
  manifest list, the delete manifests and the stored paths; `WrongScans` has two small tables that fail
  them. `EagerTable` compares the lazy list with the eager `Load` + `GetPaths`.
- `DeleteProtocol` is the step model of many threads in `FinalizeChunk`; `ProtocolOfTable` ties it to
  the sequential code.
- `TypeStrings` and `TypeNames` (grammar and round trip), `TypeParser` (the index loops), `SchemaJson`,
  `MetadataPaging`, `Snapshots`, `Paths`, `MetadataCache`, `CatalogTables` are the other components.

The main results, each for all inputs:

- **End to end.** However the Avro and Parquet files are cut into chunks, a scan by either advance delivers
  all rows of the live data files of the manifests it lists, in order, without those named by the delete
  files it loads (`TableScan.ScanTable`). That is the meaning of the table, whatever its files hold, iff the
  delete files opened are the ones meant (`TableMeaning.MeansIff`); for delete entries that mean distinct
  files, iff every delete manifest is drained completely and no delete path needs re-rooting
  (`ScanExactness.DistinctMeansIff`). A manifest list that is not drained completely makes some scan wrong
  (`ManifestListLoss.ListMeansIff`). With the intended advance every drain is complete.
- **What the code loses.** `offset += count` jumps over rows. A single read is lossless on every scan iff
  it asks for at most one entry; after any calls, `GetFile(i)` is lossless on every table iff `i` is listed
  or next; `GetExpandResult` is right on every table iff a file was listed before it; a 2048-entry drain is
  complete iff the chunks are aligned with its requests. The witnesses are chunks that a scan can hand out.
- **Lazy refines eager**, after any sequence of safe calls with any indices, iff the eager drains lose no
  live row.
- **Delete loading.** In every interleaving the deletes are loaded at most once, every set handed out is
  complete, and none changes afterwards; and every thread finishes under any schedule that gives each
  thread its turns.
- **Type names.** Parsing inverts printing exactly for the types in which no decimal stands directly in
  a map or struct and no struct is empty.
- **Cached metadata.** The cache answers for a table with that table's own responses, over every history,
  iff its schema and table name can be told apart in the request URL in only one way.
- **Catalog entries.** A filled entry is returned again, the same object, iff no call between took it away.

## Where code and intent differ

The model follows the code.

- `src/manifest_reader.cpp:58` advances by the requested count. Both variants are modelled; every claim
  says which it is about. `WrongScans.MisalignedReturnsDeleted` is a table on which the code returns a
  deleted row.
- `ScanDeleteFile` opens the stored path of a delete file as it is, also with `allow_moved_paths`
  (`src/iceberg_functions/iceberg_multi_file_reader.cpp:538`), unlike manifests and data files. The meaning
  of a table re-roots it; the scan agrees iff no delete path needs re-rooting (`ScanExactness.DrainedMeansIff`),
  and `WrongScans.MovedReturnsDeleted` is a moved table whose scan returns a deleted row.
- An entry whose path is empty reads as the end of the list in `GetTotalFileCount`.
- The splitter of type names counts angle brackets only, so the comma of a decimal is not protected.
- A negative timestamp becomes a huge unsigned bound, so time travel before the epoch finds the latest
  snapshot instead of none.
- A slash or an empty name can give two tables the same cache key.
- A cached response that expires between the two readings of the clock is an error.

## Model

| member | source | states |
|---|---|---|
| ReadCursor.ReadAccounted | src/manifest_reader.cpp:42-60 | conservation of one call, for either advance: every live unread row is delivered, still unread or jumped over, and nothing is lost iff no live row is jumped over |
| ReadCursor.DeliveredCount | src/manifest_reader.cpp:43-60 | a call delivers the count asked for, or fewer only when the scan is used up, and the intended advance jumps over nothing |
| ReadCursor.ReadProgress | src/manifest_reader.cpp:43-60 | termination measure of the callers: a call that does not meet the end leaves strictly less unread |
| ReadCursor.JumpedNonEmptyIff | src/manifest_reader.cpp:53-58 | an iteration of the code jumps over rows iff something was produced before it and the chunk holds more rows than are still wanted |
| ReadCursor.DropsIffOvershoots | src/manifest_reader.cpp:42-60 | a whole call jumps over rows iff that guard holds in one of its iterations |
| ReadCursor.LosslessIff | src/manifest_reader.cpp:37-61 | a call is lossless iff the producer skips every row it jumps over |
| ReadCursor.ReadLossless | src/manifest_reader.cpp:37-61 | the intended advance is lossless for every count, the code for counts of at most one |
| ReadCursor.RequestedLoses | src/manifest_reader.cpp:53-59 | for every count of two or more, a scan on which the code loses a live row: chunks of one row, then a chunk of two, no row skipped |
| ReadCursor.RequestedLosesLast | src/manifest_reader.cpp:53-59 | live, skipped, skipped, live read with a request for two: the last row is lost |
| ReadCursor.LosslessForAllIff | src/manifest_reader.cpp:37-61 | for any producer that keeps some row, the code loses no row on any scan whose chunks fit iff it is asked for at most one entry |
| ReadCursor.ReadManyExact | src/manifest_reader.cpp:37-61 | exactly-once over any sequence of calls and any division into chunks: what was live and unread is what was delivered, in order, then what is still unread |
| ReadCursor.DrainExact | src/include/manifest_reader.hpp:67-75 | with the intended advance a drain yields every live row once and in order |
| ReadCursor.DrainExactIff | src/include/manifest_reader.hpp:67-75 | the code's drain is complete iff the chunks are aligned with the requests |
| ReadCursor.FullChunksAligned | src/include/manifest_reader.hpp:67-75 | full chunks, the last possibly short, are aligned for a producer that skips nothing |
| ReadCursor.ShortThenFull | src/include/manifest_reader.hpp:67-75 | a short chunk before a full one is not: the drain by the code loses a row |
| ReadCursor.DrainWithin | src/include/manifest_reader.hpp:67-75 | a drain by either advance yields nothing but live rows of the file |
| Manifests.ProduceEntries | src/iceberg_manifest.cpp:119-138 | the producer loop appends exactly the entries of the rows it does not skip and returns their number |
| Manifests.SkipWhileReading | src/iceberg_manifest.cpp:194-200 | skipping DELETED rows during the read equals dropping DELETED entries afterwards |
| Manifests.RowKept | src/iceberg_manifest.cpp:121-138 | by the numbers in the file: a manifest row of status 2 is skipped if DELETED rows are to be, every other row is kept with its own path and columns; in version 1 it is data |
| ManifestReaders.AvroScan.GetNext | src/iceberg_manifest.cpp:248-261 | hands out the next chunk, and marks the scan finished exactly when there is none |
| ManifestReaders.ManifestReader.Initialize | src/manifest_reader.cpp:14-24 | a fresh cursor at the start of the new scan |
| ManifestReaders.ManifestReader.ReadEntries | src/manifest_reader.cpp:37-61 | the loop over chunk, offset and count has the effect that ReadCursor specifies, and nothing after the end |
| ManifestReaders.ScanAvroMetadata | src/include/manifest_reader.hpp:59-76 | the drain loop terminates and returns the drain of the file |
| FilePlan.ReadMoreTotal | src/iceberg_functions/iceberg_multi_file_reader.cpp:96-119 | one turn of the loop only appends files, and the list it will ever give shrinks by exactly the live rows jumped over |
| FilePlan.ExpandGrows | src/iceberg_functions/iceberg_multi_file_reader.cpp:96-119 | with either advance, expanding appends, lists nothing beyond the index asked for, invents no entry and ends where no read is possible |
| FilePlan.ExpandKeepsTotal | src/iceberg_functions/iceberg_multi_file_reader.cpp:96-119 | a safe call does not change the list of files to come |
| FilePlan.ExpandComplete | src/iceberg_functions/iceberg_multi_file_reader.cpp:96-129 | after a safe call the file is listed iff it exists, and exactly the files up to it are listed |
| FilePlan.StuckIff | src/iceberg_functions/iceberg_multi_file_reader.cpp:97-107 | a safe call throws while expanding iff it needs more files than there are and some manifest path is not recognised |
| FilePlan.GetFileAnswer | src/iceberg_functions/iceberg_multi_file_reader.cpp:85-142 | GetFile(i) is the i-th path of the whole list, resolved, or empty past its end, or the error |
| FilePlan.CountExactIff | src/iceberg_functions/iceberg_multi_file_reader.cpp:63-71 | GetTotalFileCount, from any state and with either advance, is the number of live entries iff no entry before the last pending one has an empty path |
| FilePlan.CountKeepsTotal | src/iceberg_functions/iceberg_multi_file_reader.cpp:63-71 | counting loses nothing, with either advance |
| FilePlan.RunExact | src/iceberg_functions/iceberg_multi_file_reader.cpp:50-142 | after any safe sequence of the three calls the listed files are a growing prefix of one unchanged list |
| FilePlan.RunGrows | src/iceberg_functions/iceberg_multi_file_reader.cpp:50-142 | after any sequence at all, files are only appended and none is invented |
| FilePlan.GetFileLosslessIff | src/iceberg_functions/iceberg_multi_file_reader.cpp:109-114 | after any calls that listed n files, GetFile(i) as written is lossless on every table whose chunks fit iff i is listed already or is the next one |
| FilePlan.ExpandResultRightIff | src/iceberg_functions/iceberg_multi_file_reader.cpp:50-61 | after any calls, GetExpandResult as written classifies every table whose chunks fit rightly iff a file was listed before it |
| FilePlan.ExpandSameClass | src/iceberg_functions/iceberg_multi_file_reader.cpp:50-61 | a safe GetExpandResult lists no file, one, or more exactly as there are none, one, or more in the whole list |
| FilePlan.MissesSecondFile | src/iceberg_functions/iceberg_multi_file_reader.cpp:50-61 | asked first, it reports a single file where there are two |
| MultiFileList.IcebergMultiFileList.GetFile | src/iceberg_functions/iceberg_multi_file_reader.cpp:85-142 | the method's new state and answer are those of the specification, from any valid state |
| MultiFileList.IcebergMultiFileList.GetTotalFileCount | src/iceberg_functions/iceberg_multi_file_reader.cpp:63-71 | likewise for the counting loop, which terminates |
| MultiFileList.IcebergMultiFileList.GetExpandResult | src/iceberg_functions/iceberg_multi_file_reader.cpp:50-61 | expands to the second file and answers NO_FILES, SINGLE_FILE or MULTIPLE_FILES exactly when no file, one or more are listed; after a safe call exactly when there are so many in the whole list |
| MultiFileList.IcebergMultiFileList.ScanDeleteFile | src/iceberg_functions/iceberg_multi_file_reader.cpp:448-478 | the map gains exactly the rows of the file, inserted one by one |
| MultiFileList.IcebergMultiFileList.ListDeleteFiles | src/iceberg_functions/iceberg_multi_file_reader.cpp:504-528 | collects the drains of all delete manifests, or stops at one that cannot be opened |
| MultiFileList.IcebergMultiFileList.ProcessDeletes | src/iceberg_functions/iceberg_multi_file_reader.cpp:491-542 | loads the complete deletes iff every delete manifest can be opened, else none |
| MultiFileList.IcebergMultiFileList.GetDeletesForFile | src/iceberg_functions/iceberg_multi_file_reader.cpp:481-489 | the set mapped for the folded path, if there is one |
| MultiFileList.IcebergMultiFileList.FinalizeChunk | src/iceberg_functions/iceberg_multi_file_reader.cpp:544-578 | the chunk keeps exactly the rows whose number no loaded delete row names for the path of the file, equal but for case, whether or not the deletes were loaded before |
| DeleteSets.AddRowsMeaning | src/iceberg_functions/iceberg_multi_file_reader.cpp:467-477 | the loaded map holds exactly the listed rows for exactly the mentioned files, paths compared folded |
| DeleteSets.FoldEqualIff | src/include/iceberg_multi_file_reader.hpp:121 | two paths share a key iff they are equal but for the case of ASCII letters |
| DeleteSets.LookupIsDeletedRows | src/iceberg_functions/iceberg_multi_file_reader.cpp:481-489 | what the loaded map holds for a file are the numbers of the delete rows with its path, equal but for case |
| DeleteSets.AddRowsOrder | src/iceberg_functions/iceberg_multi_file_reader.cpp:537-539 | neither the order of rows and delete files nor repeats matter |
| DeleteSets.ChunkingIrrelevant | src/include/iceberg_multi_file_reader.hpp:41-62 | filtering chunk by chunk and concatenating equals filtering the whole file |
| DeleteSets.KeptPlusRemoved | src/include/iceberg_multi_file_reader.hpp:53-61 | rows kept plus rows removed is the size of the chunk |
| DeleteSets.SurvivesIff | src/include/iceberg_multi_file_reader.hpp:54-59 | a row survives iff it stands at a position that is not deleted |
| DeleteSets.SurvivingPicks | src/include/iceberg_multi_file_reader.hpp:41-62 | exactly the rows whose number is not deleted are kept, once each and in order |
| DeleteData.AddChunk | src/iceberg_functions/iceberg_multi_file_reader.cpp:464-477 | holding the current path's set and switching on a path change gives the same map as a fresh lookup per row, case variants included |
| DeleteData.DeleteDataMap.At | src/iceberg_functions/iceberg_multi_file_reader.cpp:465-474 | the lookup inserts an empty set when there is none and changes no other |
| DeleteData.IcebergDeleteData.Apply | src/include/iceberg_multi_file_reader.hpp:41-62 | the selection vector and slice leave exactly the surviving rows, in order |
| TableFiles.DrainAllExactIff | src/iceberg_functions/iceberg_multi_file_reader.cpp:505-528 | the code drains all live entries of the delete manifests iff every one is aligned |
| TableScan.InitializeFiles | src/iceberg_functions/iceberg_multi_file_reader.cpp:173-238 | all rows drained from a version 1 manifest list become data manifests, those of a version 2 list data or delete manifests as their content is 0 or not, each with its own path and sequence number, in order; or the version or path error |
| ListedRows.GetFileReadsRows | src/iceberg_functions/iceberg_multi_file_reader.cpp:85-142 | after any safe calls GetFile(i) answers with the path of the i-th row of the data manifests whose status is not 2, resolved, or empty past the end |
| ListedRows.ListSplits | src/iceberg_functions/iceberg_multi_file_reader.cpp:210-234 | the split of the manifest list said of its rows, for both versions |
| TableMeaning.RemainingIsLive | src/iceberg_functions/iceberg_multi_file_reader.cpp:109-114 | the lazily produced entries are the live entries of the data manifests in order |
| TableScan.ReadFiles | src/iceberg_functions/iceberg_multi_file_reader.cpp:85-578 | reading all files through GetFile and FinalizeChunk, after whatever safe calls, gives the surviving rows of every listed file |
| TableScan.ScanTable | src/iceberg_functions/iceberg_multi_file_reader.cpp:85-578 | end to end, for either advance and every division into chunks: the rows of the live data files without those that the loaded delete files name; these are the meaning of the table if the drains are complete and no delete path needs re-rooting |
| TableMeaning.KeptRowsIff | src/iceberg_functions/iceberg_multi_file_reader.cpp:544-578 | row k of a data file is left out iff some delete row has number k and a path equal to the file's but for case; the others come out once each and in order |
| TableMeaning.MeansIff | src/iceberg_functions/iceberg_multi_file_reader.cpp:491-578 | a scan gives the meaning of the table, whatever its delete and data files hold, iff the delete files it opens are those meant or there is no data file |
| TableMeaning.MissedShows | src/iceberg_functions/iceberg_multi_file_reader.cpp:505-539 | a delete file that is meant but not opened lets a deleted row through |
| TableMeaning.UnmeantShows | src/iceberg_functions/iceberg_multi_file_reader.cpp:537-539 | a delete file that is opened but not meant removes a row |
| TableMeaning.StoredPathsIff | src/iceberg_functions/iceberg_multi_file_reader.cpp:537-539 | opening delete files at their stored paths opens those meant iff re-rooting leaves every path alone |
| ScanExactness.DrainedMeansIff | src/iceberg_functions/iceberg_multi_file_reader.cpp:537-539 | when nothing is lost in the delete manifests, the scan gives the meaning, whatever the files hold, iff no delete path needs re-rooting |
| ScanExactness.DistinctMeansIff | src/iceberg_functions/iceberg_multi_file_reader.cpp:505-539 | for delete entries that mean distinct files: iff every delete manifest is drained completely and no delete path needs re-rooting |
| ScanExactness.ListsAllIff | src/iceberg_functions/iceberg_multi_file_reader.cpp:218-225 | a scan sees every listed manifest iff the manifest list is drained completely, else fewer, and never one that is not listed |
| ManifestListLoss.ListMeansIff | src/iceberg_functions/iceberg_multi_file_reader.cpp:210-234 | for distinct manifests, one of them a data manifest: the scan gives the meaning, whatever manifests and files hold, iff the manifest list is drained completely |
| WrongScans.MisalignedReturnsDeleted | src/iceberg_functions/iceberg_multi_file_reader.cpp:520-528 | a table of small files on which the code loses a delete entry and returns the deleted row |
| WrongScans.MovedReturnsDeleted | src/iceberg_functions/iceberg_multi_file_reader.cpp:538 | a moved table on which either advance opens the delete file at its old place and returns the deleted row |
| EagerTable.ReadManifestEntries | src/common/iceberg.cpp:10-21 | every manifest with its drained entries, or the error of the first path not recognised |
| EagerTable.Load | src/common/iceberg.cpp:23-47 | the eager reading of the manifest list and all manifests |
| EagerTable.GetPaths | src/include/iceberg_metadata.hpp:105-120 | the paths of the live entries of the data manifests, in order |
| EagerTable.LazyRefinesEager | src/include/iceberg_metadata.hpp:105-120 | the whole lazy list is, path by path, what Load and GetPaths give, iff the eager drains lose no live row; else the eager list is shorter |
| EagerTable.ShortThenFullMisses | src/common/iceberg.cpp:10-21 | a data manifest with a short chunk before a full one: the eager reading by the code misses a live entry that the lazy one has |
| EagerTable.LazyAnswersFromEagerList | src/iceberg_functions/iceberg_multi_file_reader.cpp:85-142 | after any safe calls the listed paths are a prefix of the eager list, and GetFile(i) answers with its i-th path |
| DeleteProtocol.StepInv | src/iceberg_functions/iceberg_multi_file_reader.cpp:561-577 | every step of every thread keeps the invariant of lock, iterator, map and threads |
| DeleteProtocol.RunSafe | src/iceberg_functions/iceberg_multi_file_reader.cpp:561-577 | in every interleaving ProcessDeletes returns at most once, a handed-out set is complete, and each thread keeps what the complete deletes leave |
| DeleteProtocol.HandedOutIsFinal | src/iceberg_functions/iceberg_multi_file_reader.cpp:572-577 | once a set is handed out no set changes again, so Apply may run outside the lock |
| DeleteProtocol.OwnerProgress | src/iceberg_functions/iceberg_multi_file_reader.cpp:562-568 | each step of the lock's owner brings its release nearer |
| DeleteProtocol.SomeoneMoves | src/iceberg_functions/iceberg_multi_file_reader.cpp:562-577 | no deadlock: if a thread is at work, one of them can move |
| DeleteProtocol.EveryoneFinishes | src/iceberg_functions/iceberg_multi_file_reader.cpp:544-578 | under any schedule whose rounds give every thread a turn, every thread finishes its chunk, within as many rounds as there is work |
| DeleteProtocol.TestAloneIsNotEnough | src/iceberg_functions/iceberg_multi_file_reader.cpp:563-565 | the iterator is at its end in a reachable state in which no delete is stored yet, so the test needs the lock |
| ProtocolOfTable.ProtocolLoadsTheDeletes | src/iceberg_functions/iceberg_multi_file_reader.cpp:491-542 | what the step model loads for a table is what the sequential ProcessDeletes loads |
| Paths.LastRootWinsIff | src/common/utils.cpp:24-36 | re-rooting twice is re-rooting once iff the path names a metadata file or the first root does not end inside a metadata directory; else the path grows |
| Paths.FullPathIs | src/common/utils.cpp:24-36 | the path from the last `/metadata/` on, or if there is none from the last `/data/` on, below the new root |
| Paths.FullPathFailsIff | src/common/utils.cpp:24-36 | the error iff the path holds neither |
| TypeStrings.SplitJoin | src/catalog_utils.cpp:128-149 | the splitter recovers any list of balanced pieces without a comma of their own from their join |
| TypeStrings.CutsAtDepthZero | src/catalog_utils.cpp:131-136 | the nesting depth is zero at every cut of such a join |
| TypeStrings.JoinSplit | src/catalog_utils.cpp:128-149 | for any text, joining the pieces of the splitter gives the text back |
| TypeNames.ParsePrint | src/catalog_utils.cpp:11-195 | parsing a printed type gives the type back, unsigned integers as signed, iff the type is protected, and is an error otherwise |
| TypeNames.ScalarNames | src/catalog_utils.cpp:77-103 | which texts name which scalar, both ways |
| TypeNames.NamedTypes | src/catalog_utils.cpp:11-54 | which types have a name: scalars but TIME and UUID, and decimals |
| TypeNames.UnknownName | src/catalog_utils.cpp:104-192 | a text that begins like no type, or is never closed, is an error |
| TypeNames.MapNeedsTwo | src/catalog_utils.cpp:150-153 | a map of any other number of types than two is an error |
| TypeNames.StructNeedsColons | src/catalog_utils.cpp:175-182 | a struct is read only if every piece has a colon, and the text before its first colon is the field name |
| TypeParser.NextSeparator | src/catalog_utils.cpp:129-141 | the inner loop finds the end of the first piece, counts the net nesting, and reads no index beyond the closing bracket |
| TypeParser.ParseMapTypes | src/catalog_utils.cpp:124-149 | the map loop parses the pieces of the splitter in turn |
| TypeParser.ParseStructFields | src/catalog_utils.cpp:158-187 | the struct loop parses the name and type of each piece in turn |
| TypeParser.TypeToLogicalType | src/catalog_utils.cpp:77-195 | the method computes the grammar's parse, recursing on shorter strings only |
| SchemaJson.ParseFieldsLoop | src/common/schema.cpp:15-27 | the loop over struct fields, stopping at the first error |
| SchemaJson.ParseEncoded | src/common/schema.cpp:11-140 | parsing inverts the JSON encoding of every nested type, with any member order and extra members, up to fixed and binary becoming BLOB |
| SchemaJson.ParseDocument | src/common/schema.cpp:11-140 | round trip: parsing the JSON document printed for any type gives its column type |
| SchemaJson.GetIs | src/common/schema.cpp:15-27 | the member lookup gives the value of the first member of that name, and none iff there is no such member |
| SchemaJson.OtherJson | src/common/schema.cpp:53-83 | no type is read from anything but a string or an object whose type is struct, list or map |
| SchemaJson.FieldlessStruct | src/common/schema.cpp:11-30 | a struct without an array of fields is read as one without fields |
| SchemaJson.PrimitiveNames | src/common/schema.cpp:86-138 | which strings name a primitive type |
| SchemaJson.JsonDecimalNeeds | src/common/schema.cpp:125-136 | a decimal name has both brackets, one comma and a number on each side of it |
| SchemaJson.StoiOf | src/common/schema.cpp:135-136 | spaces, a sign and digits give the signed number, or the error outside the 32-bit range |
| SchemaJson.PrintedInSchema | src/catalog_utils.cpp:11-54 | the names types are printed with are those the schema parser reads as the same types, but for the 8-bit and 16-bit integers, which it does not know |
| SchemaJson.DecimalNeeds | src/catalog_utils.cpp:104-113 | the string parser reads a decimal only with a comma before the first closing bracket and a byte on each side of it |
| SchemaJson.PrimitivesAgree | src/common/schema.cpp:77-140 | both parsers agree on every name that both accept, decimals included |
| MetadataPaging.MetadataScan.NextPage | src/iceberg_functions/iceberg_metadata.cpp:105-143 | one call hands out the next page of what is left, across empty manifests |
| MetadataPaging.ReadPages | src/iceberg_functions/iceberg_metadata.cpp:105-143 | any number of calls from wherever the cursor stands: the rows left come out once each and in order, a page that is not full is followed by empty pages only, and enough calls leave nothing |
| MetadataPaging.ReadFromStart | src/iceberg_functions/iceberg_metadata.cpp:105-143 | on a fresh cursor enough calls hand out every entry of every manifest, in order, in full pages but the last |
| MetadataPaging.RowAt | src/iceberg_functions/iceberg_metadata.cpp:119-139 | the row of entry e of manifest m, with that manifest, stands after all entries before it |
| Snapshots.FindLatestSnapshot | src/common/iceberg.cpp:280-297 | the last listed snapshot with the greatest timestamp, or the error of a missing one |
| Snapshots.FindSnapshotById | src/common/iceberg.cpp:299-313 | the first snapshot with the id, none, or the error of an earlier one without an id |
| Snapshots.FindSnapshotByTimestamp | src/common/iceberg.cpp:315-335 | the last listed snapshot among those with the greatest timestamp not above the unsigned bound |
| Snapshots.TimeTravel | src/common/iceberg.cpp:315-335 | monotone in time, idempotent at the answer's own time, and the latest snapshot from the newest timestamp on |
| Snapshots.NegativeTimeIff | src/common/iceberg.cpp:323-331 | before the epoch, exactly when the answer is none, and that it is otherwise the latest snapshot for ordinary timestamps |
| MetadataCache.KeyEqualIff | src/catalog_api.cpp:42-47 | two tables of a catalog have the same key iff their own parts of the URL are the same text, empty names included |
| MetadataCache.OwnKeyIff | src/catalog_api.cpp:42-47 | a table has a key of its own among tables with names iff its text can be cut at `/tables/` into two names in only one way |
| MetadataCache.NoSlashCutsOnce | src/catalog_api.cpp:42-47 | names without a slash have a key of their own |
| MetadataCache.PlainSchemasDiffer | src/catalog_api.cpp:42-47 | two schema names without a slash tell their tables apart, whatever the table names hold |
| MetadataCache.SlashCollides | src/catalog_api.cpp:42-47 | two tables with the same key when a name holds a slash |
| MetadataCache.EmptyCollides | src/common/url_utils.cpp:6-10 | two tables with the same key when a name is empty and so left out |
| MetadataCache.EndpointBuilder.GetURL | src/common/url_utils.cpp:51-62 | host, version, prefix and every component after its own slash, then the query |
| MetadataCache.UrlSegments | src/common/url_utils.cpp:51-62 | the URL is the host, then version, prefix and components, those that are not empty, each after its own slash, then the query |
| MetadataCache.CachedIsLastExpiring | src/storage/irc_catalog.cpp:222-238 | over any history without another table of the same key, the cached value of a table is its most recent response that carried an expiry |
| MetadataCache.CacheAgreesIff | src/storage/irc_catalog.cpp:200-238 | the cached value of a table is its own most recent expiring response over every history of tables with names iff its text can be cut only once |
| MetadataCache.CatalogClient.GetTableMetadata | src/catalog_api.cpp:23-38 | a fresh response, recorded and stored under the table's key |
| MetadataCache.CatalogClient.GetTableMetadataCached | src/catalog_api.cpp:40-52 | the table's most recent expiring response while it has not expired, else a fresh one; an error iff it expires between the two clock readings, which may also step back |
| CatalogTables.TableSet.LoadEntries | src/storage/irc_table_set.cpp:52-65 | lists only an empty set, maps the first table of each folded name, unfilled |
| CatalogTables.FirstNamesIff | src/storage/irc_catalog_set.cpp:11-20 | a name is found iff one equal to it but for case is listed, and then the first such is |
| CatalogTables.TableSet.GetEntry | src/storage/irc_catalog_set.cpp:11-20 | returns the mapped entry, fetching it once when its storage location is unknown, and touches no other |
| CatalogTables.TableSet.Scan | src/storage/irc_catalog_set.cpp:31-37 | visits every entry and replaces no filled one |
| CatalogTables.RunCalls | src/storage/irc_catalog_set.cpp:11-50 | over any run of GetEntry, Scan, DropEntry and ClearEntries a filled entry stays mapped, the same object, iff no call of the run clears the set or drops its name |
| CatalogTables.GetTwice | src/storage/irc_table_set.cpp:41-65 | a filled entry that GetEntry returned is what a later GetEntry returns, the same object, iff no call between took it away |

## Left out

- Equality deletes and sequence numbers: every delete entry is scanned as position deletes, as the code does.
- Avro and Parquet decoding, column lookup and schema checks of manifest files: a file is a sequence of non-empty chunks of decoded rows, and opening a resolved path succeeds.
- The unlocked `initialized` check and concurrent `GetFile`: the list starts as Bind leaves it and its file-listing calls are sequential.
- Exceptions in the middle of reading: the only failures modelled are unrecognised paths, unsupported versions and missing JSON fields.
- The four ProduceEntries functions are one loop over a row conversion, and their result vector is returned instead of appended through a reference.
- The source's inner loops that are methods here (`ListMore`, `ReadDeleteEntries`, `ListDeleteFiles`, `ScanDeleteFiles`, `NextSeparator`) are separate only to keep each proof small.
- The driver of a scan (`ReadChunk`, `ReadFile`, `ReadFiles`, `ScanTable`) stands for DuckDB's multi-file reader, which calls GetFile and FinalizeChunk in this way; it assumes that the row-number column holds file positions.
- DeleteProtocol.Step: a whole manifest is listed in one step and a row inserted in one step; taking and releasing the lock, the test, and each row's lookup in Apply are steps of their own.
- TypeParser.TypeToLogicalType: where the source's scan would start on the closing bracket and run past the text, the model returns an out-of-range error.
- TypeParser.ParseMapTypes: likewise after a trailing comma.
- TypeParser.ParseStructFields: likewise for an empty struct and after a trailing comma.
- TypeNames.ParsePrint: so the error for an empty struct is a convention of the model, not what the source does.
- TableScan.ScanTable: speaks of tables whose manifest paths and data paths resolve to something; what each call does where one does not is stated by GetFile, ProcessDeletes and InitializeFiles.
- TableScan.InitializeFiles: choosing the snapshot comes before it; Snapshots has the searches.
- ManifestReaders.ManifestReader.Initialize: the column name mapping and the error for an invalid schema are not modelled.
- MetadataCache.EndpointBuilder.GetURL: the percent-encoding and order of URL parameters are one string that is fixed for a catalog.
- DeleteProtocol.EveryoneFinishes: a thread takes no new chunk after it has finished one; a mutex promises no fairness to a thread against others that keep coming back.
- TypeStrings.CastUInt8: DuckDB's cast also accepts signs, exponents, separators and other white space, which read as errors here.
- SchemaJson.Stoi: the white space it skips is spaces only.
- SchemaJson.ParseJsonDecimal: a decimal name that violates the source's debug assertions is an error here.
- SchemaJson.PrimitivesAgree: so it says nothing of decimal names that a release build accepts past those assertions.
- MetadataPaging.MetadataScan: the enumeration columns are kept as numbers, so the error for an unknown value is not modelled.
- `FileSystem::JoinPath` is joining with a slash.
- `GetAllPaths`, `iceberg_snapshots`, version-hint lookup, column binding, transactions, OAuth, secrets and HTTP.
- CatalogTables.TableSet: column types, the schema's internal flag and the entry lock; the pointer CreateEntry returns for a taken key is not modelled.
