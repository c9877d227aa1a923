/** Manifest lists and manifests: the Avro rows, the entries made of them, and the producer loop. */
module Manifests {
  import opened Basics
  import opened ReadCursor

  /** The Iceberg format versions the reader accepts. */
  datatype FormatVersion = V1 | V2

  /** A row of a manifest list. Version 1 files carry only the path. */
  datatype ManifestRow = ManifestRow(manifestPath: string, content: int, sequenceNumber: int)

  /** A row of a manifest; `status` and `content` are 32-bit integers in the file. */
  datatype EntryRow = EntryRow(status: int, content: int, filePath: string, fileFormat: string, recordCount: int)

  /** The enumerations are 8 bits wide, so the casts from the file's integers keep the low byte. */
  type UInt8 = x: int | 0 <= x < 256

  function AsUInt8(x: int): UInt8 {
    x % 256
  }

  const CONTENT_DATA: UInt8 := 0
  const STATUS_DELETED: UInt8 := 2

  datatype Manifest = Manifest(path: string, content: UInt8, sequenceNumber: int)

  datatype Entry = Entry(status: UInt8, content: UInt8, filePath: string, fileFormat: string, recordCount: int)

  function ManifestOf(version: FormatVersion, row: ManifestRow): Manifest {
    match version
    case V1 => Manifest(row.manifestPath, CONTENT_DATA, 0)
    case V2 => Manifest(row.manifestPath, AsUInt8(row.content), row.sequenceNumber)
  }

  function EntryOf(version: FormatVersion, row: EntryRow): Entry {
    Entry(AsUInt8(row.status), if version.V1? then CONTENT_DATA else AsUInt8(row.content),
          row.filePath, row.fileFormat, row.recordCount)
  }

  function ManifestProducer(version: FormatVersion): ManifestRow -> Option<Manifest> {
    row => Some(ManifestOf(version, row))
  }

  function EntryProducer(version: FormatVersion, skipDeleted: bool): EntryRow -> Option<Entry> {
    row =>
      var entry := EntryOf(version, row);
      if skipDeleted && entry.status == STATUS_DELETED then None else Some(entry)
  }

  /** What becomes of one row of a manifest, by the numbers in the file: status 2 (in the low byte) is
      skipped, and every other row is kept with its own path and columns. A version 1 row is data. */
  lemma RowKept(version: FormatVersion, row: EntryRow, skipDeleted: bool)
    ensures var entry := EntryProducer(version, skipDeleted)(row);
            && (entry.None? <==> skipDeleted && row.status % 256 == 2)
            && (entry.Some? ==>
                  && entry.value.filePath == row.filePath && entry.value.fileFormat == row.fileFormat
                  && entry.value.recordCount == row.recordCount && entry.value.status == row.status % 256
                  && entry.value.content == if version == V1 then 0 else row.content % 256)
  {
  }

  /** The loop shared by the four ProduceEntries functions: `f` makes an entry of a row or skips it. */
  method ProduceEntries<R, T>(chunk: seq<R>, offset: nat, count: nat, f: R -> Option<T>, result: seq<T>)
    returns (produced: nat, result': seq<T>)
    requires offset + count <= |chunk|
    ensures result' == result + Produce(f, chunk[offset..offset + count])
    ensures produced == |result'| - |result|
  {
    produced, result' := 0, result;
    for i := 0 to count
      invariant result' == result + Produce(f, chunk[offset..offset + i])
      invariant produced == |result'| - |result|
    {
      var entry := f(chunk[offset + i]);
      assert chunk[offset..offset + i + 1] == chunk[offset..offset + i] + [chunk[offset + i]];
      ProduceConcat(f, chunk[offset..offset + i], [chunk[offset + i]]);
      ProduceOne(f, chunk[offset + i]);
      ConcatAssoc(result, Produce(f, chunk[offset..offset + i]), Produce(f, [chunk[offset + i]]));
      match entry {
        case None =>
          ConcatNil(result');
        case Some(value) =>
          produced := produced + 1;
          result' := result' + [value];
      }
    }
  }

  predicate IsLive(entry: Entry) {
    entry.status != STATUS_DELETED
  }

  /** The entries that are not DELETED, as GetPaths and GetAllPaths select them. */
  function Live(entries: seq<Entry>): seq<Entry> {
    if entries == [] then []
    else (if IsLive(entries[0]) then [entries[0]] else []) + Live(entries[1..])
  }

  /** Skipping DELETED rows while reading equals dropping DELETED entries after reading all. */
  lemma {:induction false} SkipWhileReading(version: FormatVersion, rows: seq<EntryRow>)
    ensures Produce(EntryProducer(version, true), rows) == Live(Produce(EntryProducer(version, false), rows))
  {
    if rows != [] {
      SkipWhileReading(version, rows[1..]);
      var all := Produce(EntryProducer(version, false), rows);
      assert all[1..] == Produce(EntryProducer(version, false), rows[1..]);
    }
  }

  lemma {:induction false} LiveConcat(a: seq<Entry>, b: seq<Entry>)
    ensures Live(a + b) == Live(a) + Live(b)
  {
    if a == [] {
      ConcatNil(b);
      ConcatNil(Live(b));
    } else {
      LiveConcat(a[1..], b);
      ConcatHead(a, b);
      ConcatAssoc(if IsLive(a[0]) then [a[0]] else [], Live(a[1..]), Live(b));
    }
  }
}
