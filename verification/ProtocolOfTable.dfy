/** The step model of delete loading, set up for a table, loads what ProcessDeletes loads. */
module ProtocolOfTable {
  import opened Basics
  import opened DeleteProtocol
  import opened DeleteSets
  import opened EagerTable
  import opened FilePlan
  import opened Manifests
  import opened ReadCursor
  import opened TableFiles

  function FilesPerManifest(adv: Advance, f: EntryRow -> Option<Entry>, sources: seq<Source>): (files: seq<seq<string>>)
    requires AllOpen(sources)
    ensures |files| == |sources|
  {
    if sources == [] then []
    else [FilePaths(Drain(adv, f, AtStart(sources[0].value), STANDARD_VECTOR_SIZE))] + FilesPerManifest(adv, f, sources[1..])
  }

  function ConfigOf(table: Table, version: FormatVersion, deleteManifests: seq<Manifest>): Config
    requires AllOpen(Sources(table, deleteManifests))
  {
    Config(FilesPerManifest(table.advance, EntryProducer(version, true), Sources(table, deleteManifests)),
           path => Flatten(table.storage.deleteFiles(path)))
  }

  lemma {:induction false} FilesOfDrains(adv: Advance, f: EntryRow -> Option<Entry>, sources: seq<Source>)
    requires AllOpen(sources)
    ensures Flatten(FilesPerManifest(adv, f, sources)) == FilePaths(DrainAll(adv, f, sources))
  {
    hide Drain;
    if sources != [] {
      var first := Drain(adv, f, AtStart(sources[0].value), STANDARD_VECTOR_SIZE);
      FilesOfDrains(adv, f, sources[1..]);
      assert FilesPerManifest(adv, f, sources)[1..] == FilesPerManifest(adv, f, sources[1..]);
      FilePathsConcat(first, DrainAll(adv, f, sources[1..]));
    }
  }

  lemma {:induction false} RowsOfPaths(table: Table, cfg: Config, entries: seq<Entry>)
    requires forall path :: cfg.content(path) == Flatten(table.storage.deleteFiles(path))
    ensures RowsIn(cfg, FilePaths(entries)) == DeleteRowsOf(table.storage, entries)
  {
    if entries != [] {
      RowsOfPaths(table, cfg, entries[1..]);
      assert FilePaths(entries)[1..] == FilePaths(entries[1..]);
    }
  }

  /** Every set a thread is ever handed is the one the sequential FinalizeChunk filters with. */
  lemma ProtocolLoadsTheDeletes(table: Table, version: FormatVersion, deleteManifests: seq<Manifest>)
    requires AllOpen(Sources(table, deleteManifests))
    ensures Full(ConfigOf(table, version, deleteManifests)) == LoadedDeletes(table, version, deleteManifests)
  {
    var f, sources := EntryProducer(version, true), Sources(table, deleteManifests);
    FilesOfDrains(table.advance, f, sources);
    RowsOfPaths(table, ConfigOf(table, version, deleteManifests), DrainAll(table.advance, f, sources));
  }
}
