/** What a scan lists, said of the rows in the files: which rows of the manifest list become data and
    delete manifests, and which rows of the data manifests GetFile answers from. */
module ListedRows {
  import opened Basics
  import opened EagerTable
  import opened FilePlan
  import opened Manifests
  import opened Paths
  import opened ReadCursor
  import opened TableFiles

  // ----- the rows of the data manifests ----------------------------------------------------------------

  /** The paths of the rows whose status is not 2, in order. */
  function KeptPaths(rows: seq<EntryRow>): seq<string> {
    if rows == [] then []
    else (if rows[0].status % 256 == 2 then [] else [rows[0].filePath]) + KeptPaths(rows[1..])
  }

  lemma {:induction false} KeptPathsConcat(a: seq<EntryRow>, b: seq<EntryRow>)
    ensures KeptPaths(a + b) == KeptPaths(a) + KeptPaths(b)
  {
    if a == [] {
      ConcatNil(b);
      ConcatNil(KeptPaths(b));
    } else {
      ConcatHead(a, b);
      KeptPathsConcat(a[1..], b);
      ConcatAssoc(if a[0].status % 256 == 2 then [] else [a[0].filePath], KeptPaths(a[1..]), KeptPaths(b));
    }
  }

  lemma {:induction false} ProducedPaths(version: FormatVersion, rows: seq<EntryRow>)
    ensures FilePaths(Produce(EntryProducer(version, true), rows)) == KeptPaths(rows)
  {
    if rows != [] {
      var f := EntryProducer(version, true);
      RowKept(version, rows[0], true);
      ProducedPaths(version, rows[1..]);
      var out := Produce(f, rows);
      if f(rows[0]).Some? {
        assert out[1..] == Produce(f, rows[1..]);
      }
    }
  }

  /** All rows of some manifests, one after another. */
  function RowsOfSources(sources: seq<Source>): seq<EntryRow>
    requires AllOpen(sources)
  {
    if sources == [] then [] else Flatten(sources[0].value) + RowsOfSources(sources[1..])
  }

  lemma {:induction false} RemainingPaths(version: FormatVersion, sources: seq<Source>)
    requires AllOpen(sources)
    ensures FilePaths(Remaining(EntryProducer(version, true), sources)) == KeptPaths(RowsOfSources(sources))
  {
    if sources != [] {
      var f, rows := EntryProducer(version, true), Flatten(sources[0].value);
      RemainingPaths(version, sources[1..]);
      ProducedPaths(version, rows);
      FilePathsConcat(Produce(f, rows), Remaining(f, sources[1..]));
      KeptPathsConcat(rows, RowsOfSources(sources[1..]));
    }
  }

  /** After any safe calls, the paths listed are a prefix of the paths of the rows of the data manifests
      whose status is not 2, in order, and a safe GetFile(i) answers with the i-th of them, resolved, or
      is empty past the end. */
  lemma GetFileReadsRows(table: Table, version: FormatVersion, manifests: seq<Manifest>, calls: seq<Call>, fileId: nat)
    requires AllOpen(Sources(table, manifests)) && SafeRun(DataSetup(table, version, manifests), INITIAL, calls)
    ensures var s := DataSetup(table, version, manifests);
            var p, paths := Run(s, INITIAL, calls), KeptPaths(RowsOfSources(s.sources));
            && FilePaths(p.files) <= paths
            && (Safe(s, p, fileId) ==>
                  Answer(s, Expand(s, p, fileId), fileId) ==
                  if fileId < |paths| then Resolve(table.allowMoved, table.root, paths[fileId]) else Success(""))
  {
    hide Total, Expand, Answer, Run, SafeRun, Resolve;
    var s := DataSetup(table, version, manifests);
    var p := Run(s, INITIAL, calls);
    StartTotal(s);
    RemainingPaths(version, s.sources);
    RunExact(s, INITIAL, calls);
    RunUnopened(s, INITIAL, calls);
    if Safe(s, p, fileId) {
      GetFileAnswer(s, p, fileId);
    }
  }

  // ----- the rows of the manifest list -------------------------------------------------------------------

  function KeepRow(): ManifestRow -> Option<ManifestRow> {
    row => Some(row)
  }

  /** The rows a drain of the manifest list delivers. */
  function ListRows(table: Table): seq<ManifestRow> {
    if table.snapshot.empty then []
    else
      match Resolve(table.allowMoved, table.root, table.snapshot.manifestList)
      case Failure(_) => []
      case Success(path) => Drain(table.advance, KeepRow(), AtStart(table.storage.manifestLists(path)), STANDARD_VECTOR_SIZE)
  }

  /** `manifests` are the manifests of `rows`, one by one. */
  predicate MadeOf(version: FormatVersion, manifests: seq<Manifest>, rows: seq<ManifestRow>) {
    |manifests| == |rows| && forall i | 0 <= i < |rows| :: manifests[i] == ManifestOf(version, rows[i])
  }

  lemma {:induction false} ProduceMakes(version: FormatVersion, rows: seq<ManifestRow>)
    ensures Produce(KeepRow(), rows) == rows
    ensures MadeOf(version, Produce(ManifestProducer(version), rows), rows)
  {
    if rows != [] {
      ProduceMakes(version, rows[1..]);
      assert rows == [rows[0]] + rows[1..];
    }
  }

  lemma MadeOfConcat(version: FormatVersion, a: seq<Manifest>, rows: seq<ManifestRow>, b: seq<Manifest>, rows': seq<ManifestRow>)
    requires MadeOf(version, a, rows) && MadeOf(version, b, rows')
    ensures MadeOf(version, a + b, rows + rows')
  {
    hide ManifestOf;
  }

  /** Both producers skip nothing, so a call reads the same rows for both. */
  lemma {:induction false} ReadMakes(adv: Advance, version: FormatVersion, c: Cursor<ManifestRow>, count: nat, scanned: nat,
                                     o: Outcome<ManifestRow, Manifest>, k: Outcome<ManifestRow, ManifestRow>)
    requires o == ReadFrom(adv, ManifestProducer(version), c, count, scanned) && k == ReadFrom(adv, KeepRow(), c, count, scanned)
    ensures o.cursor == k.cursor && o.finished == k.finished && MadeOf(version, o.delivered, k.delivered)
    decreases |c.rest|, |c.ahead|
  {
    hide ManifestOf;
    if scanned < count {
      if c.ahead != [] {
        var taken, next := Taken(c, count, scanned), Step(adv, c, count, scanned);
        assert |next.ahead| < |c.ahead| && next.rest == c.rest;
        ReadUnfold(adv, ManifestProducer(version), c, count, scanned);
        ReadUnfold(adv, KeepRow(), c, count, scanned);
        ProduceMakes(version, taken);
        var f := ManifestProducer(version);
        assert |Produce(f, taken)| == |taken|;
        hide Taken, Step, Jumped, Produce, ReadFrom, MadeOf;
        var o', k' := ReadFrom(adv, f, next, count, scanned + |taken|), ReadFrom(adv, KeepRow(), next, count, scanned + |taken|);
        ReadMakes(adv, version, next, count, scanned + |taken|, o', k');
        MadeOfConcat(version, Produce(f, taken), taken, o'.delivered, k'.delivered);
      } else if c.rest != [] {
        ReadMakes(adv, version, NextChunk(c), count, scanned, o, k);
      }
    }
  }

  lemma {:induction false} DrainMakes(adv: Advance, version: FormatVersion, c: Cursor<ManifestRow>, count: nat)
    requires count > 0
    ensures MadeOf(version, Drain(adv, ManifestProducer(version), c, count), Drain(adv, KeepRow(), c, count))
    decreases Size(c)
  {
    hide ReadFrom, ManifestOf;
    var o, k := ReadFrom(adv, ManifestProducer(version), c, count, 0), ReadFrom(adv, KeepRow(), c, count, 0);
    ReadMakes(adv, version, c, count, 0, o, k);
    ReadProgress(adv, KeepRow(), c, count, 0, k);
    if !o.finished {
      DrainMakes(adv, version, o.cursor, count);
    }
  }

  /** The rows whose content is DATA (0 in the low byte), or the others, in order. */
  function WithContent(rows: seq<ManifestRow>, data: bool): seq<ManifestRow> {
    if rows == [] then []
    else (if (rows[0].content % 256 == 0) == data then [rows[0]] else []) + WithContent(rows[1..], data)
  }

  /** Path by path, and with the sequence numbers of a version 2 list. */
  predicate Describes(formatVersion: nat, manifests: seq<Manifest>, rows: seq<ManifestRow>) {
    && |manifests| == |rows|
    && forall i | 0 <= i < |rows| ::
         manifests[i].path == rows[i].manifestPath &&
         manifests[i].sequenceNumber == if formatVersion == 2 then rows[i].sequenceNumber else 0
  }

  /** What a manifest list becomes: all of a version 1 list is data; a version 2 list is split by content. */
  predicate SplitsList(formatVersion: nat, rows: seq<ManifestRow>, data: seq<Manifest>, deletes: seq<Manifest>) {
    if formatVersion == 1 then Describes(1, data, rows) && deletes == []
    else Describes(2, data, WithContent(rows, true)) && Describes(2, deletes, WithContent(rows, false))
  }

  lemma {:induction false} SelectedSplits(formatVersion: nat, version: FormatVersion, manifests: seq<Manifest>, rows: seq<ManifestRow>)
    requires VersionOf(formatVersion) == Some(version) && MadeOf(version, manifests, rows)
    ensures SplitsList(formatVersion, rows, Select(manifests, true), Select(manifests, false))
  {
    if rows != [] {
      SelectedSplits(formatVersion, version, manifests[1..], rows[1..]);
      assert manifests[0] == ManifestOf(version, rows[0]);
    }
  }

  lemma ListSplits(table: Table, version: FormatVersion)
    requires VersionOf(table.snapshot.formatVersion) == Some(version) && ListManifests(table, version).Success?
    ensures var manifests := ListManifests(table, version).value;
            SplitsList(table.snapshot.formatVersion, ListRows(table), Select(manifests, true), Select(manifests, false))
  {
    hide Drain, Select, SplitsList, ManifestOf;
    if !table.snapshot.empty {
      var path := Resolve(table.allowMoved, table.root, table.snapshot.manifestList).value;
      DrainMakes(table.advance, version, AtStart(table.storage.manifestLists(path)), STANDARD_VECTOR_SIZE);
    }
    SelectedSplits(table.snapshot.formatVersion, version, ListManifests(table, version).value, ListRows(table));
  }
}
