/** `iceberg_metadata`: a two-level cursor that hands out one page of entries per call. */
module MetadataPaging {
  import opened Basics
  import opened EagerTable
  import opened Manifests

  /** A row of the result: the manifest's columns and the entry's columns. */
  datatype OutputRow = OutputRow(manifest: Manifest, entry: Entry)

  function RowsOf(table: TableEntry): seq<OutputRow> {
    seq(|table.entries|, i requires 0 <= i < |table.entries| => OutputRow(table.manifest, table.entries[i]))
  }

  /** Every entry of every manifest, in order. */
  function AllRows(manifests: seq<TableEntry>): seq<OutputRow> {
    if manifests == [] then [] else RowsOf(manifests[0]) + AllRows(manifests[1..])
  }

  /** Entry `e` of manifest `m` is the row after all entries of the manifests before and the entries before it. */
  lemma {:induction false} RowAt(manifests: seq<TableEntry>, m: nat, e: nat)
    requires m < |manifests| && e < |manifests[m].entries|
    ensures var k := EntriesBefore(manifests, m) + e;
            k < |AllRows(manifests)| && AllRows(manifests)[k] == OutputRow(manifests[m].manifest, manifests[m].entries[e])
    decreases m
  {
    if m > 0 {
      RowAt(manifests[1..], m - 1, e);
    }
  }

  /** How many entries the first `m` manifests have. */
  function EntriesBefore(manifests: seq<TableEntry>, m: nat): nat
    requires m <= |manifests|
  {
    if m == 0 then 0 else |manifests[0].entries| + EntriesBefore(manifests[1..], m - 1)
  }

  /** The rows from entry `entryIdx` of manifest `manifestIdx` on. */
  function RowsFrom(manifests: seq<TableEntry>, manifestIdx: nat, entryIdx: nat): seq<OutputRow>
    requires manifestIdx <= |manifests|
    requires if manifestIdx < |manifests| then entryIdx <= |manifests[manifestIdx].entries| else entryIdx == 0
  {
    if manifestIdx == |manifests| then []
    else RowsOf(manifests[manifestIdx])[entryIdx..] + AllRows(manifests[manifestIdx + 1..])
  }

  /** The global state of the table function. */
  class MetadataScan {
    const manifests: seq<TableEntry>
    const pageSize: nat
    var currentManifestIdx: nat
    var currentManifestEntryIdx: nat

    ghost predicate Valid()
      reads this
    {
      && currentManifestIdx <= |manifests|
      && (if currentManifestIdx < |manifests| then currentManifestEntryIdx <= |manifests[currentManifestIdx].entries|
          else currentManifestEntryIdx == 0)
    }

    /** What is still to be handed out. */
    ghost function Left(): seq<OutputRow>
      requires Valid()
      reads this
    {
      RowsFrom(manifests, currentManifestIdx, currentManifestEntryIdx)
    }

    constructor (manifests: seq<TableEntry>, pageSize: nat)
      ensures Valid() && Left() == AllRows(manifests)
      ensures this.manifests == manifests && this.pageSize == pageSize
    {
      this.manifests, this.pageSize := manifests, pageSize;
      currentManifestIdx, currentManifestEntryIdx := 0, 0;
      new;
      if manifests != [] {
        assert RowsOf(manifests[0])[0..] == RowsOf(manifests[0]);
      }
    }

    /** One call: the next `pageSize` rows, or all that are left. */
    method NextPage() returns (output: seq<OutputRow>)
      requires Valid()
      modifies this
      ensures Valid()
      ensures output == Page(old(Left()), pageSize)
      ensures Left() == old(Left())[Min(pageSize, |old(Left())|)..]
    {
      hide RowsFrom;
      output := [];
      ghost var all := Left();
      ConcatNil(all);
      while currentManifestIdx < |manifests|
        invariant Valid() && |output| <= pageSize
        invariant output + Left() == all
        decreases |manifests| - currentManifestIdx
      {
        ghost var k := currentManifestIdx;
        while currentManifestEntryIdx < |manifests[currentManifestIdx].entries|
          invariant currentManifestIdx == k < |manifests| && Valid() && |output| <= pageSize
          invariant output + Left() == all
          decreases |manifests[currentManifestIdx].entries| - currentManifestEntryIdx
        {
          if |output| >= pageSize {
            TakeAll(output, Left(), all);
            return;
          }
          ghost var before := Left();
          var row := OutputRow(manifests[currentManifestIdx].manifest,
                               manifests[currentManifestIdx].entries[currentManifestEntryIdx]);
          TakeRow(manifests, currentManifestIdx, currentManifestEntryIdx);
          currentManifestEntryIdx := currentManifestEntryIdx + 1;
          ConcatAssoc(output, [row], Left());
          output := output + [row];
        }
        SkipManifest(manifests, currentManifestIdx);
        currentManifestEntryIdx := 0;
        currentManifestIdx := currentManifestIdx + 1;
      }
      NoneLeft(manifests);
      ConcatNil(output);
      assert all[..|all|] == all && all[|all|..] == [];
    }
  }

  lemma TakeAll<T>(output: seq<T>, left: seq<T>, all: seq<T>)
    requires output + left == all
    ensures output == all[..|output|] && left == all[|output|..]
  {
  }

  lemma NoneLeft(manifests: seq<TableEntry>)
    ensures RowsFrom(manifests, |manifests|, 0) == []
  {
  }

  lemma TakeRow(manifests: seq<TableEntry>, m: nat, e: nat)
    requires m < |manifests| && e < |manifests[m].entries|
    ensures RowsFrom(manifests, m, e) ==
            [OutputRow(manifests[m].manifest, manifests[m].entries[e])] + RowsFrom(manifests, m, e + 1)
  {
    var rows := RowsOf(manifests[m]);
    assert rows[e..] == [rows[e]] + rows[e + 1..];
    ConcatAssoc([rows[e]], rows[e + 1..], AllRows(manifests[m + 1..]));
  }

  /** The end of one manifest is the start of the next, empty manifests included. */
  lemma SkipManifest(manifests: seq<TableEntry>, m: nat)
    requires m < |manifests|
    ensures RowsFrom(manifests, m, |manifests[m].entries|) == RowsFrom(manifests, m + 1, 0)
  {
    ConcatNil(AllRows(manifests[m + 1..]));
    if m + 1 < |manifests| {
      assert manifests[m + 1..][1..] == manifests[m + 2..];
      assert RowsOf(manifests[m + 1])[0..] == RowsOf(manifests[m + 1]);
    }
  }

  // ----- a whole run of calls ------------------------------------------------------------------------

  /** The next page of what is left. */
  function Page<T>(left: seq<T>, size: nat): seq<T> {
    left[..Min(size, |left|)]
  }

  /** The pages of `n` consecutive calls. */
  function Pages<T>(left: seq<T>, size: nat, n: nat): seq<seq<T>> {
    if n == 0 then [] else [Page(left, size)] + Pages(left[Min(size, |left|)..], size, n - 1)
  }

  /** What is left after `n` calls. */
  function LeftAfter<T>(left: seq<T>, size: nat, n: nat): seq<T> {
    if n == 0 then left else LeftAfter(left[Min(size, |left|)..], size, n - 1)
  }

  /** The pages hold the rows once each and in order. */
  lemma {:induction false} PagesCover<T>(left: seq<T>, size: nat, n: nat)
    ensures |Pages(left, size, n)| == n
    ensures Flatten(Pages(left, size, n)) + LeftAfter(left, size, n) == left
    decreases n
  {
    hide Flatten;
    if n > 0 {
      var page, rest := Page(left, size), left[Min(size, |left|)..];
      PagesCover(rest, size, n - 1);
      FlattenCons(page, Pages(rest, size, n - 1));
      ConcatAssoc(page, Flatten(Pages(rest, size, n - 1)), LeftAfter(rest, size, n - 1));
      PageRest(left, size);
    } else {
      FlattenNone<T>();
      ConcatNil(left);
    }
  }

  lemma PageRest<T>(left: seq<T>, size: nat)
    ensures Page(left, size) + left[Min(size, |left|)..] == left
  {
  }

  lemma FlattenNone<T>()
    ensures Flatten<T>([]) == []
  {
  }

  lemma FlattenCons<T>(first: seq<T>, rest: seq<seq<T>>)
    ensures Flatten([first] + rest) == first + Flatten(rest)
  {
    ConcatHead([first], rest);
    ConcatNil(rest);
  }

  /** With a positive page size, as many calls as there are rows hand out everything. */
  lemma {:induction false} PagesExhaust<T>(left: seq<T>, size: nat, n: nat)
    requires size > 0 && n >= |left|
    ensures LeftAfter(left, size, n) == []
    decreases n
  {
    if n > 0 {
      PagesExhaust(left[Min(size, |left|)..], size, n - 1);
    }
  }

  lemma PageAt<T>(left: seq<T>, size: nat, n: nat, k: nat)
    requires k < n
    ensures |Pages(left, size, n)| == n && |Pages(left[Min(size, |left|)..], size, n - 1)| == n - 1
    ensures Pages(left, size, n)[k] ==
            if k == 0 then left[..Min(size, |left|)] else Pages(left[Min(size, |left|)..], size, n - 1)[k - 1]
  {
    PagesCover(left, size, n);
    PagesCover(left[Min(size, |left|)..], size, n - 1);
  }

  /** A page that is not full is the last one that holds any row. */
  lemma {:induction false} OnlyLastShort<T>(left: seq<T>, size: nat, n: nat, i: nat, j: nat)
    requires i < j < n
    ensures |Pages(left, size, n)| == n
    ensures |Pages(left, size, n)[i]| < size ==> Pages(left, size, n)[j] == []
    decreases n
  {
    hide Pages;
    PageAt(left, size, n, i);
    PageAt(left, size, n, j);
    var page, rest := left[..Min(size, |left|)], left[Min(size, |left|)..];
    if i > 0 {
      OnlyLastShort(rest, size, n - 1, i - 1, j - 1);
    } else if |page| < size {
      assert rest == [];
      EmptyPage<T>(size, n - 1, j - 1);
    }
  }

  lemma {:induction false} EmptyPage<T>(size: nat, n: nat, k: nat)
    requires k < n
    ensures |Pages<T>([], size, n)| == n && Pages<T>([], size, n)[k] == []
    decreases n
  {
    hide Pages;
    PageAt<T>([], size, n, k);
    var none: seq<T> := [];
    assert none[Min(size, |none|)..] == none && none[..Min(size, |none|)] == none;
    if k > 0 {
      EmptyPage<T>(size, n - 1, k - 1);
    }
  }

  lemma PagesUnfold<T>(left: seq<T>, size: nat, n: nat)
    ensures n == 0 ==> Pages(left, size, n) == [] && LeftAfter(left, size, n) == left
    ensures n > 0 ==> var rest := left[Min(size, |left|)..];
                      && Pages(left, size, n) == [Page(left, size)] + Pages(rest, size, n - 1)
                      && LeftAfter(left, size, n) == LeftAfter(rest, size, n - 1)
  {
  }

  lemma {:induction false} PagesSnoc<T>(left: seq<T>, size: nat, n: nat)
    ensures Pages(left, size, n + 1) == Pages(left, size, n) + [Page(LeftAfter(left, size, n), size)]
    ensures LeftAfter(left, size, n + 1) == LeftAfter(left, size, n)[Min(size, |LeftAfter(left, size, n)|)..]
    decreases n
  {
    hide Pages, LeftAfter, Page;
    var rest := left[Min(size, |left|)..];
    PagesUnfold(left, size, n + 1);
    PagesUnfold(left, size, n);
    if n == 0 {
      PagesUnfold(rest, size, 0);
      ConcatNil([Page(left, size)]);
    } else {
      PagesSnoc(rest, size, n - 1);
      ConcatAssoc([Page(left, size)], Pages(rest, size, n - 1), [Page(LeftAfter(left, size, n), size)]);
    }
  }

  lemma SomeShort<T>(left: seq<T>, size: nat, n: nat, pages: seq<seq<T>>)
    requires pages == Pages(left, size, n)
    ensures |pages| == n && forall i, j | 0 <= i < j < n && |pages[i]| < size :: pages[j] == []
  {
    hide Pages;
    PagesCover(left, size, n);
    forall i, j | 0 <= i < j < n && |pages[i]| < size ensures pages[j] == [] {
      OnlyLastShort(left, size, n, i, j);
    }
  }

  /** `n` calls on a cursor wherever it stands: the rows that were left come out once each and in order, no
      page is larger than the page size, only the last page with rows is smaller, and with a positive
      page size enough calls leave nothing. */
  method ReadPages(scan: MetadataScan, n: nat) returns (pages: seq<seq<OutputRow>>)
    requires scan.Valid()
    modifies scan
    ensures scan.Valid() && |pages| == n
    ensures Flatten(pages) + scan.Left() == old(scan.Left())
    ensures forall i | 0 <= i < n :: |pages[i]| <= scan.pageSize
    ensures forall i, j | 0 <= i < j < n && |pages[i]| < scan.pageSize :: pages[j] == []
    ensures scan.pageSize > 0 && n >= |old(scan.Left())| ==> scan.Left() == []
  {
    ghost var left := scan.Left();
    pages := [];
    for k := 0 to n
      invariant scan.Valid()
      invariant pages == Pages(left, scan.pageSize, k) && scan.Left() == LeftAfter(left, scan.pageSize, k)
      invariant |pages| == k && forall i | 0 <= i < k :: |pages[i]| <= scan.pageSize
    {
      hide Pages, LeftAfter, MetadataScan.Left;
      PagesSnoc(left, scan.pageSize, k);
      var page := scan.NextPage();
      pages := pages + [page];
    }
    PagesCover(left, scan.pageSize, n);
    if scan.pageSize > 0 && n >= |left| {
      PagesExhaust(left, scan.pageSize, n);
    }
    SomeShort(left, scan.pageSize, n, pages);
  }

  /** `n` calls on a fresh cursor hand out every entry of every manifest, in order, once there are as many
      calls as entries. */
  method ReadFromStart(manifests: seq<TableEntry>, pageSize: nat, n: nat) returns (pages: seq<seq<OutputRow>>)
    ensures |pages| == n && Flatten(pages) <= AllRows(manifests)
    ensures forall i | 0 <= i < n :: |pages[i]| <= pageSize
    ensures forall i, j | 0 <= i < j < n && |pages[i]| < pageSize :: pages[j] == []
    ensures pageSize > 0 && n >= |AllRows(manifests)| ==> Flatten(pages) == AllRows(manifests)
  {
    hide AllRows, Flatten, MetadataScan.Left;
    var scan := new MetadataScan(manifests, pageSize);
    pages := ReadPages(scan, n);
    ConcatNil(Flatten(pages));
  }
}
