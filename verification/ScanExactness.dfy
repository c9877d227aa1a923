/** Conditions a caller can check for a scan to give the meaning of its table: what the manifest list
    and the delete manifests must look like for the code's drains, and the inputs on which they fail. */
module ScanExactness {
  import opened Basics
  import opened DeleteSets
  import opened FilePlan
  import opened Manifests
  import opened Paths
  import opened ReadCursor
  import opened TableFiles
  import opened TableMeaning

  // ----- the delete manifests ------------------------------------------------------------------------

  /** What the code needs of the delete manifests, which it drains with requests for 2048 entries: every
      one is aligned. The intended advance needs nothing. */
  predicate DrainsCompletely(table: Table, version: FormatVersion, manifests: seq<Manifest>)
    requires AllOpen(Sources(table, Select(manifests, false)))
  {
    table.advance.Scanned? || AllAligned(EntryProducer(version, true), Sources(table, Select(manifests, false)))
  }

  predicate DeletesFit(table: Table, manifests: seq<Manifest>) {
    SourcesFit(Sources(table, Select(manifests, false)))
  }

  /** A scan loads every live delete entry, or fewer. */
  lemma LoadsAllIff(table: Table, version: FormatVersion, manifests: seq<Manifest>)
    requires AllOpen(Sources(table, Select(manifests, false))) && DeletesFit(table, manifests)
    ensures var loaded, live := LoadedEntries(table, version, manifests), LiveEntries(table, version, Select(manifests, false));
            if DrainsCompletely(table, version, manifests) then loaded == live else |loaded| < |live|
  {
    hide Select;
    var f, sources := EntryProducer(version, true), Sources(table, Select(manifests, false));
    RemainingIsLive(table, version, Select(manifests, false));
    if table.advance.Scanned? {
      DrainAllExact(f, sources);
    } else {
      DrainAllExactIff(f, sources);
    }
  }

  /** When nothing is lost in the delete manifests, a scan gives the meaning of a table with data files,
      whatever its files hold, exactly when no delete file needs re-rooting. */
  lemma DrainedMeansIff<V(!new)>(table: Table, version: FormatVersion, manifests: seq<Manifest>, v: V)
    requires Readable(table, version, manifests) && DeletesFit(table, manifests)
    requires DrainsCompletely(table, version, manifests)
    requires LiveEntries(table, version, Select(manifests, true)) != []
    ensures AlwaysMeans<V>(table, version, manifests) <==>
            SelfResolving(table, LiveEntries(table, version, Select(manifests, false)))
  {
    hide Select, LiveEntries, AlwaysMeans, SelfResolving, NamedPaths;
    LoadsAllIff(table, version, manifests);
    StoredPathsIff(table, LiveEntries(table, version, Select(manifests, false)));
    MeansIff(table, version, manifests, v);
  }

  lemma ScannedIsMeaning<V>(table: Table, version: FormatVersion, data: string -> Chunks<V>, manifests: seq<Manifest>)
    requires Readable(table, version, manifests)
    ensures DeletesFit(table, manifests) && DrainsCompletely(table, version, manifests) &&
            SelfResolving(table, LiveEntries(table, version, Select(manifests, false))) ==>
              ScannedRows(table, version, data, manifests) == MeaningOf(table, version, data, manifests)
  {
    hide Select, LiveEntries, AllNamed, NamedPaths, RowsOfFiles, DeleteRowsOf, SelfResolving, DrainsCompletely, DeletesFit;
    if DeletesFit(table, manifests) {
      LoadsAllIff(table, version, manifests);
      StoredPathsIff(table, LiveEntries(table, version, Select(manifests, false)));
      if OpensWhatIsMeant(table, version, manifests) {
        SamePathsSameRows(table, data, LoadedEntries(table, version, manifests), MeantDeletes(table, version, manifests),
                          LiveEntries(table, version, Select(manifests, true)));
      }
    }
  }

  predicate DistinctPaths(entries: seq<Entry>) {
    forall i, j | 0 <= i < j < |entries| :: entries[i].filePath != entries[j].filePath
  }

  lemma {:induction false} NamedPathsSize(entries: seq<Entry>)
    ensures |NamedPaths(entries)| <= |entries|
    ensures DistinctPaths(entries) ==> |NamedPaths(entries)| == |entries|
  {
    if entries != [] {
      NamedPathsHead(entries);
      NamedPathsSize(entries[1..]);
      if DistinctPaths(entries) {
        assert DistinctPaths(entries[1..]);
        assert entries[0].filePath !in NamedPaths(entries[1..]);
      }
    }
  }

  /** When the live delete entries mean distinct files, a scan gives the meaning of a table with data
      files, whatever its files hold, exactly when every delete manifest is drained completely and no
      delete file needs re-rooting. */
  lemma DistinctMeansIff<V(!new)>(table: Table, version: FormatVersion, manifests: seq<Manifest>, v: V)
    requires Readable(table, version, manifests) && DeletesFit(table, manifests)
    requires DistinctPaths(MeantDeletes(table, version, manifests))
    requires LiveEntries(table, version, Select(manifests, true)) != []
    ensures AlwaysMeans<V>(table, version, manifests) <==>
            && DrainsCompletely(table, version, manifests)
            && SelfResolving(table, LiveEntries(table, version, Select(manifests, false)))
  {
    hide Select, LiveEntries, AlwaysMeans, SelfResolving, NamedPaths, AllNamed, AllResolve;
    if DrainsCompletely(table, version, manifests) {
      DrainedMeansIff(table, version, manifests, v);
    } else {
      LoadsAllIff(table, version, manifests);
      MeansIff(table, version, manifests, v);
      NamedPathsSize(LoadedEntries(table, version, manifests));
      NamedPathsSize(MeantDeletes(table, version, manifests));
    }
  }

  // ----- the manifest list -----------------------------------------------------------------------------

  /** The same for the manifest list. */
  predicate ListDrainsCompletely(table: Table, version: FormatVersion) {
    table.advance.Scanned? || table.snapshot.empty ||
    match Resolve(table.allowMoved, table.root, table.snapshot.manifestList)
    case Failure(_) => true
    case Success(path) => Aligned(ManifestProducer(version), table.storage.manifestLists(path), STANDARD_VECTOR_SIZE, 0)
  }

  predicate ListFits(table: Table) {
    match Resolve(table.allowMoved, table.root, table.snapshot.manifestList)
    case Failure(_) => true
    case Success(path) => FitVectors(table.storage.manifestLists(path))
  }

  /** A scan sees every listed manifest, or fewer; and it sees none that is not listed. */
  lemma ListsAllIff(table: Table, version: FormatVersion)
    requires ListFits(table)
    ensures var listed, all := ListManifests(table, version), AllManifests(table, version);
            && (listed.Failure? <==> all.Failure?)
            && (listed.Failure? ==> listed == all)
            && (listed.Success? ==>
                  && (if ListDrainsCompletely(table, version) then listed == all else |listed.value| < |all.value|)
                  && forall manifest | manifest in listed.value :: manifest in all.value)
  {
    hide Drain, Aligned, Produce;
    if !table.snapshot.empty {
      match Resolve(table.allowMoved, table.root, table.snapshot.manifestList) {
        case Failure(_) =>
        case Success(path) =>
          var f, chunks := ManifestProducer(version), table.storage.manifestLists(path);
          DrainOfList(table.advance, f, chunks);
      }
    }
  }

  lemma DrainOfList(adv: Advance, f: ManifestRow -> Option<Manifest>, chunks: Chunks<ManifestRow>)
    requires FitVectors(chunks)
    ensures var listed, all := Drain(adv, f, AtStart(chunks), STANDARD_VECTOR_SIZE), Produce(f, Flatten(chunks));
            && (if adv.Scanned? || Aligned(f, chunks, STANDARD_VECTOR_SIZE, 0) then listed == all else |listed| < |all|)
            && forall manifest | manifest in listed :: manifest in all
  {
    hide Drain, Produce;
    ConcatNil(Flatten(chunks));
    if adv.Scanned? {
      DrainExact(f, AtStart(chunks), STANDARD_VECTOR_SIZE);
    } else {
      DrainOnStart(f, chunks, STANDARD_VECTOR_SIZE);
      DrainOnExactIff(f, chunks, STANDARD_VECTOR_SIZE, 0);
    }
    forall manifest | manifest in Drain(adv, f, AtStart(chunks), STANDARD_VECTOR_SIZE)
      ensures manifest in Produce(f, Flatten(chunks))
    {
      DrainWithin(adv, f, AtStart(chunks), STANDARD_VECTOR_SIZE, manifest);
    }
  }
}
