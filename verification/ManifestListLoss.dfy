/** A manifest that the code drops from the manifest list: its data files vanish from the scan, or its
    deletes no longer apply. So a scan is right whatever the manifests hold exactly when the manifest
    list is drained completely. */
module ManifestListLoss {
  import opened Basics
  import opened DeleteSets
  import opened FilePlan
  import opened Manifests
  import opened Paths
  import opened ReadCursor
  import opened ScanExactness
  import opened TableFiles
  import opened TableMeaning

  /** The manifests are distinct files, all of them recognised. */
  predicate DistinctManifests(table: Table, manifests: seq<Manifest>) {
    && (forall i | 0 <= i < |manifests| :: Resolve(table.allowMoved, table.root, manifests[i].path).Success?)
    && (forall i, j | 0 <= i < j < |manifests| :: PathAt(table, manifests[i].path) != PathAt(table, manifests[j].path))
  }

  function WithFiles(table: Table, manifestFiles: string -> Chunks<EntryRow>, deleteFiles: string -> Chunks<DeleteRow>): Table {
    table.(storage := table.storage.(manifests := manifestFiles, deleteFiles := deleteFiles))
  }

  /** If nothing else goes wrong, the scan of the manifests `listed` gives the meaning of all of them. */
  ghost predicate ListMeans<V>(table: Table, version: FormatVersion, data: string -> Chunks<V>, listed: seq<Manifest>,
                               all: seq<Manifest>) {
    Unspoilt(table, version, all) ==>
      && AllOpen(Sources(table, Select(listed, false)))
      && ScannedRows(table, version, data, listed) == MeaningOf(table, version, data, all)
  }

  /** Everything but the manifest list is as the code needs it. */
  predicate Unspoilt(table: Table, version: FormatVersion, all: seq<Manifest>) {
    && Readable(table, version, all) && DeletesFit(table, all)
    && DrainsCompletely(table, version, all)
    && SelfResolving(table, LiveEntries(table, version, Select(all, false)))
  }

  ghost predicate ListAlwaysMeans<V(!new)>(table: Table, version: FormatVersion, listed: seq<Manifest>, all: seq<Manifest>) {
    forall manifestFiles: string -> Chunks<EntryRow>, deleteFiles: string -> Chunks<DeleteRow>, data: string -> Chunks<V> ::
      ListMeans(WithFiles(table, manifestFiles, deleteFiles), version, data, listed, all)
  }

  /** For a table of distinct manifests, one of them a data manifest. */
  lemma ListMeansIff<V(!new)>(table: Table, version: FormatVersion, listed: seq<Manifest>, all: seq<Manifest>, v: V)
    requires ListFits(table) && ListManifests(table, version) == Success(listed) && AllManifests(table, version) == Success(all)
    requires DistinctManifests(table, all) && exists manifest :: manifest in all && manifest.content == CONTENT_DATA
    ensures ListAlwaysMeans<V>(table, version, listed, all) <==> ListDrainsCompletely(table, version)
  {
    hide Unspoilt, ListMeans, DistinctManifests, ListFits, RowIn;
    ListsAllIff(table, version);
    if ListDrainsCompletely(table, version) {
      forall manifestFiles: string -> Chunks<EntryRow>, deleteFiles: string -> Chunks<DeleteRow>, data: string -> Chunks<V>
        ensures ListMeans(WithFiles(table, manifestFiles, deleteFiles), version, data, listed, all)
      {
        UnspoiltMeans(WithFiles(table, manifestFiles, deleteFiles), version, data, all);
      }
    } else {
      var lost, d := Lost(table, listed, all);
      LostShows(table, version, listed, all, lost, d, v);
    }
  }

  lemma UnspoiltMeans<V>(table: Table, version: FormatVersion, data: string -> Chunks<V>, all: seq<Manifest>)
    ensures ListMeans(table, version, data, all, all)
  {
    hide Select, LiveEntries, SelfResolving, AllNamed, AllResolve;
    if Unspoilt(table, version, all) {
      ScannedIsMeaning(table, version, data, all);
    }
  }

  // ----- the witness -------------------------------------------------------------------------------------

  function SetOf<T>(s: seq<T>): set<T> {
    set t | t in s
  }

  lemma {:induction false} SetOfSize<T>(s: seq<T>)
    ensures |SetOf(s)| <= |s|
    ensures (forall i, j | 0 <= i < j < |s| :: s[i] != s[j]) ==> |SetOf(s)| == |s|
  {
    if s != [] {
      assert SetOf(s) == {s[0]} + SetOf(s[1..]);
      SetOfSize(s[1..]);
    }
  }

  /** A manifest that is missing from the list, and a data manifest: a missing one if there is one. */
  lemma Lost(table: Table, listed: seq<Manifest>, all: seq<Manifest>) returns (lost: Manifest, d: Manifest)
    requires |listed| < |all| && DistinctManifests(table, all)
    requires exists manifest :: manifest in all && manifest.content == CONTENT_DATA
    ensures lost in all && lost !in listed
    ensures d in all && d.content == CONTENT_DATA && (lost.content == CONTENT_DATA ==> d == lost) && (d != lost ==> d in listed)
  {
    if manifest :| manifest in all && manifest !in listed && manifest.content == CONTENT_DATA {
      lost, d := manifest, manifest;
    } else {
      SetOfSize(listed);
      SetOfSize(all);
      assert !(SetOf(all) <= SetOf(listed)) by {
        if SetOf(all) <= SetOf(listed) {
          SubsetSize(SetOf(all), SetOf(listed));
        }
      }
      lost :| lost in SetOf(all) && lost !in SetOf(listed);
      d :| d in all && d.content == CONTENT_DATA;
    }
  }

  lemma SubsetSize<T>(a: set<T>, b: set<T>)
    requires a <= b
    ensures |a| <= |b|
  {
    assert b == a + (b - a);
  }

  /** A path that re-rooting leaves alone. */
  function RowPath(table: Table): string {
    table.root + "/metadata/f"
  }

  lemma RowPathResolves(table: Table)
    ensures Resolve(table.allowMoved, table.root, RowPath(table)) == Success(RowPath(table))
  {
    LastByLength("/metadata/f");
    FoundIsLast("/metadata/f", METADATA_DIR, 0);
    RootedFinds(table.root, "/metadata/f", METADATA_DIR, 0);
    assert "/metadata/f"[0..] == "/metadata/f";
    assert RowPath(table)[|table.root| + 1..] == "/metadata/f"[1..];
  }

  lemma LastByLength(path: string)
    requires |path| == 11 && path[1] == 'm'
    ensures forall i: nat | 0 < i :: !OccursAt(path, METADATA_DIR, i)
  {
    assert path[1 + 0] != METADATA_DIR[0];
  }

  /** The one row of the two manifests: it names a data file or a delete file, as the manifest is. */
  function Row(table: Table): EntryRow {
    EntryRow(1, 0, RowPath(table), "", 1)
  }

  function RowIn(table: Table, lost: Manifest, d: Manifest): string -> Chunks<EntryRow> {
    path => if path == PathAt(table, lost.path) || path == PathAt(table, d.path) then [[Row(table)]] else []
  }

  /** The manifests of `some` hold the one row, the others none. */
  predicate HoldRow(table: Table, manifests: seq<Manifest>, some: set<Manifest>) {
    forall manifest | manifest in manifests :: SourceOf(table, manifest) == Some(if manifest in some then [[Row(table)]] else [])
  }

  lemma ProduceRow(table: Table, version: FormatVersion)
    ensures Live(Produce(EntryProducer(version, false), Flatten([[Row(table)]]))) == [EntryOf(version, Row(table))]
    ensures Live(Produce(EntryProducer(version, false), Flatten([]))) == []
  {
    FlattenOne(Row(table));
    ProduceOne(EntryProducer(version, false), Row(table));
    assert Live([EntryOf(version, Row(table))]) == [EntryOf(version, Row(table))];
  }

  lemma {:induction false} LiveHere(table: Table, version: FormatVersion, manifests: seq<Manifest>, some: set<Manifest>)
    requires HoldRow(table, manifests, some)
    ensures var live := LiveEntries(table, version, manifests);
            && (forall entry | entry in live :: entry == EntryOf(version, Row(table)))
            && (live != [] <==> exists manifest :: manifest in manifests && manifest in some)
  {
    if manifests != [] {
      ProduceRow(table, version);
      assert SourceOf(table, manifests[0]).Some?;
      LiveHere(table, version, manifests[1..], some);
      assert forall manifest :: manifest in manifests <==> manifest == manifests[0] || manifest in manifests[1..];
    }
  }

  lemma {:induction false} NothingDrained(adv: Advance, f: EntryRow -> Option<Entry>, sources: seq<Source>)
    requires forall i | 0 <= i < |sources| :: sources[i] == Some([])
    ensures DrainAll(adv, f, sources) == []
  {
    if sources != [] {
      NothingDrained(adv, f, sources[1..]);
      assert Drain(adv, f, Cursor([], []), STANDARD_VECTOR_SIZE) == [];
    }
  }

  lemma {:induction false} InSelect(manifests: seq<Manifest>, data: bool, manifest: Manifest)
    ensures manifest in Select(manifests, data) <==> manifest in manifests && (manifest.content == CONTENT_DATA) == data
  {
    if manifests != [] {
      InSelect(manifests[1..], data, manifest);
    }
  }

  lemma SelectHolds(table: Table, manifests: seq<Manifest>, some: set<Manifest>, data: bool)
    requires HoldRow(table, manifests, some)
    ensures HoldRow(table, Select(manifests, data), some)
    ensures AllOpen(Sources(table, Select(manifests, data)))
  {
    forall manifest | manifest in Select(manifests, data)
      ensures SourceOf(table, manifest) == Some(if manifest in some then [[Row(table)]] else [])
    {
      InSelect(manifests, data, manifest);
    }
    assert forall i | 0 <= i < |Select(manifests, data)| :: Select(manifests, data)[i] in Select(manifests, data);
  }

  lemma {:induction false} AllDeleted<V>(table: Table, v: V, deletes: seq<DeleteRow>, files: seq<Entry>, path: string)
    requires forall entry | entry in files :: entry.filePath == path
    requires DeleteRow(path, 0) in deletes && Resolve(table.allowMoved, table.root, path).Success?
    ensures RowsOfFiles(table, OneRowEach(v), deletes, files) == []
  {
    hide FileRows;
    if files != [] {
      OneRowOf(table, v, DeletedRows(deletes, files[0].filePath), files[0]);
      AllDeleted(table, v, deletes, files[1..], path);
    }
  }

  lemma RowAligned(table: Table, f: EntryRow -> Option<Entry>, source: Source)
    requires source == Some([[Row(table)]]) || source == Some([])
    ensures Aligned(f, source.value, STANDARD_VECTOR_SIZE, 0) && FitVectors(source.value)
  {
    if source.value != [] {
      assert source.value[0][1..] == [] && source.value[1..] == [];
    }
  }

  /** A table whose manifests hold no more than the one row lacks nothing but the lost manifest. */
  lemma RowUnspoilt(table: Table, version: FormatVersion, all: seq<Manifest>, some: set<Manifest>)
    requires HoldRow(table, all, some)
    ensures Unspoilt(table, version, all)
  {
    hide Select, LiveEntries, Aligned, FitVectors, Resolve;
    SelectHolds(table, all, some, true);
    SelectHolds(table, all, some, false);
    LiveHere(table, version, Select(all, true), some);
    LiveHere(table, version, Select(all, false), some);
    RowPathResolves(table);
    var files, deletes := LiveEntries(table, version, Select(all, true)), LiveEntries(table, version, Select(all, false));
    assert forall i | 0 <= i < |files| :: files[i] in files;
    assert forall i | 0 <= i < |deletes| :: deletes[i] in deletes;
    var f, sources := EntryProducer(version, true), Sources(table, Select(all, false));
    forall i | 0 <= i < |sources| ensures Aligned(f, sources[i].value, STANDARD_VECTOR_SIZE, 0) && FitVectors(sources[i].value) {
      assert Select(all, false)[i] in Select(all, false);
      RowAligned(table, f, sources[i]);
    }
  }

  /** A lost data manifest: its file is not scanned. */
  lemma VanishedFile<V>(table: Table, version: FormatVersion, listed: seq<Manifest>, all: seq<Manifest>, d: Manifest, v: V)
    requires HoldRow(table, all, {d}) && HoldRow(table, listed, {d})
    requires d in all && d !in listed && d.content == CONTENT_DATA
    requires Readable(table, version, all) && AllOpen(Sources(table, Select(listed, false)))
    ensures ScannedRows(table, version, OneRowEach(v), listed) == [] != MeaningOf(table, version, OneRowEach(v), all)
  {
    hide LiveEntries, RowsOfFiles, Select, Resolve, HoldRow, AllNamed, AllResolve, AllOpen;
    SelectHolds(table, listed, {d}, true);
    SelectHolds(table, all, {d}, true);
    SelectHolds(table, all, {d}, false);
    LiveHere(table, version, Select(listed, true), {d});
    LiveHere(table, version, Select(all, true), {d});
    LiveHere(table, version, Select(all, false), {d});
    InSelect(listed, true, d);
    InSelect(all, true, d);
    InSelect(all, false, d);
    var files := LiveEntries(table, version, Select(all, true));
    NamedResolve(table, files);
    OneRowEachLeft(table, v, [], files);
    NoFilesNoRows(table, OneRowEach(v), DeleteRowsOf(table.storage, LoadedEntries(table, version, listed)));
    assert MeantDeletes(table, version, all) == [];
  }

  lemma NothingLoaded(table: Table, version: FormatVersion, listed: seq<Manifest>, some: set<Manifest>)
    requires HoldRow(table, listed, some)
    requires forall manifest | manifest in listed && manifest in some :: manifest.content == CONTENT_DATA
    ensures AllOpen(Sources(table, Select(listed, false))) && LoadedEntries(table, version, listed) == []
  {
    hide Select, DrainAll;
    SelectHolds(table, listed, some, false);
    var deletes := Select(listed, false);
    forall i | 0 <= i < |deletes| ensures Sources(table, deletes)[i] == Some([]) {
      assert deletes[i] in deletes;
      InSelect(listed, false, deletes[i]);
    }
    NothingDrained(table.advance, EntryProducer(version, true), Sources(table, deletes));
  }

  /** The row of the one delete file is among those meant. */
  lemma RowMeant(table: Table, version: FormatVersion, all: seq<Manifest>)
    requires Readable(table, version, all) && LiveEntries(table, version, Select(all, false)) != []
    requires forall entry | entry in LiveEntries(table, version, Select(all, false)) :: entry.filePath == RowPath(table)
    requires table.storage.deleteFiles == OneDelete(RowPath(table), DeleteRow(RowPath(table), 0))
    ensures DeleteRow(RowPath(table), 0) in DeleteRowsOf(table.storage, MeantDeletes(table, version, all))
  {
    hide LiveEntries, Select, Resolve, AllNamed, AllOpen;
    RowPathResolves(table);
    FlattenOne(DeleteRow(RowPath(table), 0));
    var live, meant := LiveEntries(table, version, Select(all, false)), MeantDeletes(table, version, all);
    assert live[0] in live && meant[0] in meant;
    LoadedRowIff(table.storage, meant, DeleteRow(RowPath(table), 0));
    assert RowPath(table) in NamedPaths(meant);
  }

  lemma RowsResolve(table: Table, version: FormatVersion, entries: seq<Entry>)
    requires forall entry | entry in entries :: entry == EntryOf(version, Row(table))
    ensures AllResolve(table, entries)
  {
    hide Resolve;
    RowPathResolves(table);
    assert forall i | 0 <= i < |entries| :: entries[i] in entries;
  }

  /** A lost delete manifest: the row its delete file names is scanned. */
  lemma UnappliedDelete<V>(table: Table, version: FormatVersion, listed: seq<Manifest>, all: seq<Manifest>, lost: Manifest,
                           d: Manifest, v: V)
    requires HoldRow(table, all, {lost, d}) && HoldRow(table, listed, {lost, d})
    requires lost in all && lost !in listed && lost.content != CONTENT_DATA
    requires d in all && d in listed && d.content == CONTENT_DATA
    requires Readable(table, version, all) && AllOpen(Sources(table, Select(listed, false)))
    requires table.storage.deleteFiles == OneDelete(RowPath(table), DeleteRow(RowPath(table), 0))
    ensures ScannedRows(table, version, OneRowEach(v), listed) != [] == MeaningOf(table, version, OneRowEach(v), all)
  {
    hide LiveEntries, RowsOfFiles, Select, Resolve, AllNamed, AllOpen, DrainAll;
    var some := {lost, d};
    SelectHolds(table, listed, some, true);
    SelectHolds(table, all, some, true);
    SelectHolds(table, all, some, false);
    LiveHere(table, version, Select(listed, true), some);
    LiveHere(table, version, Select(all, true), some);
    LiveHere(table, version, Select(all, false), some);
    InSelect(listed, true, d);
    InSelect(all, false, lost);
    RowPathResolves(table);
    NothingLoaded(table, version, listed, some);
    RowsResolve(table, version, LiveEntries(table, version, Select(listed, true)));
    OneRowEachLeft(table, v, [], LiveEntries(table, version, Select(listed, true)));
    RowMeant(table, version, all);
    AllDeleted(table, v, DeleteRowsOf(table.storage, MeantDeletes(table, version, all)),
               LiveEntries(table, version, Select(all, true)), RowPath(table));
  }

  /** Whatever the lost manifest is, the scan of such a table goes wrong. */
  lemma LostShows<V>(table: Table, version: FormatVersion, listed: seq<Manifest>, all: seq<Manifest>, lost: Manifest,
                     d: Manifest, v: V)
    requires DistinctManifests(table, all) && forall manifest | manifest in listed :: manifest in all
    requires lost in all && lost !in listed
    requires d in all && d.content == CONTENT_DATA && (lost.content == CONTENT_DATA ==> d == lost) && (d != lost ==> d in listed)
    ensures !ListMeans(WithFiles(table, RowIn(table, lost, d), OneDelete(RowPath(table), DeleteRow(RowPath(table), 0))),
                       version, OneRowEach(v), listed, all)
  {
    hide Unspoilt, HoldRow, DistinctManifests, Select, LiveEntries, RowIn, AllOpen, RowPath, OneDelete;
    var spoilt := WithFiles(table, RowIn(table, lost, d), OneDelete(RowPath(table), DeleteRow(RowPath(table), 0)));
    HoldsRow(table, spoilt, listed, all, lost, d);
    RowUnspoilt(spoilt, version, all, {lost, d});
    SelectHolds(spoilt, listed, {lost, d}, false);
    UnspoiltReadable(spoilt, version, all);
    if d == lost {
      assert {lost, d} == {d};
      VanishedFile(spoilt, version, listed, all, d, v);
    } else {
      UnappliedDelete(spoilt, version, listed, all, lost, d, v);
    }
  }

  lemma UnspoiltReadable(table: Table, version: FormatVersion, all: seq<Manifest>)
    requires Unspoilt(table, version, all)
    ensures Readable(table, version, all)
  {
  }

  lemma HoldsRow(table: Table, spoilt: Table, listed: seq<Manifest>, all: seq<Manifest>, lost: Manifest, d: Manifest)
    requires DistinctManifests(table, all) && forall manifest | manifest in listed :: manifest in all
    requires lost in all && d in all
    requires spoilt == WithFiles(table, RowIn(table, lost, d), OneDelete(RowPath(table), DeleteRow(RowPath(table), 0)))
    ensures HoldRow(spoilt, all, {lost, d}) && HoldRow(spoilt, listed, {lost, d})
    ensures RowPath(spoilt) == RowPath(table)
  {
    hide Resolve;
    forall manifest | manifest in all
      ensures SourceOf(spoilt, manifest) == Some(if manifest in {lost, d} then [[Row(spoilt)]] else [])
    {
      var i, j, k :| 0 <= i < |all| && all[i] == manifest && 0 <= j < |all| && all[j] == lost && 0 <= k < |all| && all[k] == d;
      assert PathAt(table, all[i].path) == PathAt(table, all[j].path) ==> i == j;
      assert PathAt(table, all[i].path) == PathAt(table, all[k].path) ==> i == k;
    }
  }
}
