/** Position deletes: the map from data file to deleted rows, and the filtering of one chunk. */
module DeleteSets {
  import opened Basics

  /** A row of a position delete file: the data file's path and a row number in it. */
  datatype DeleteRow = DeleteRow(path: string, row: int)

  /** `delete_data` compares its keys without regard to (ASCII) case; `Fold` names the key. */
  function Fold(path: string): (key: string)
    ensures |key| == |path|
  {
    seq(|path|, i requires 0 <= i < |path| => if 'A' <= path[i] <= 'Z' then path[i] + 32 as char else path[i])
  }

  /** The same letter, or one the upper case of the other. */
  predicate SameLetter(c: char, d: char) {
    || c == d
    || ('A' <= c <= 'Z' && d as int == c as int + 32)
    || ('A' <= d <= 'Z' && c as int == d as int + 32)
  }

  /** Equal texts but for the case of ASCII letters. */
  predicate SameText(a: string, b: string) {
    |a| == |b| && forall i | 0 <= i < |a| :: SameLetter(a[i], b[i])
  }

  /** Two paths have the same key exactly when they are equal but for case. */
  lemma FoldEqualIff(a: string, b: string)
    ensures Fold(a) == Fold(b) <==> SameText(a, b)
  {
    if Fold(a) == Fold(b) {
      assert |a| == |Fold(a)| == |b|;
      forall i | 0 <= i < |a| ensures SameLetter(a[i], b[i]) {
        assert Fold(a)[i] == Fold(b)[i];
      }
    }
    if SameText(a, b) {
      assert forall i | 0 <= i < |a| :: Fold(a)[i] == Fold(b)[i];
    }
  }

  type Deletes = map<string, set<int>>

  function RowsOf(m: Deletes, key: string): set<int> {
    if key in m then m[key] else {}
  }

  /** One row inserted through a fresh lookup. */
  function AddRow(m: Deletes, r: DeleteRow): Deletes {
    m[Fold(r.path) := RowsOf(m, Fold(r.path)) + {r.row}]
  }

  function AddRows(m: Deletes, rows: seq<DeleteRow>): Deletes
    decreases rows
  {
    if rows == [] then m else AddRows(AddRow(m, rows[0]), rows[1..])
  }

  lemma {:induction false} AddRowsConcat(m: Deletes, a: seq<DeleteRow>, b: seq<DeleteRow>)
    ensures AddRows(m, a + b) == AddRows(AddRows(m, a), b)
    decreases a
  {
    if a == [] {
      ConcatNil(b);
    } else {
      ConcatHead(a, b);
      AddRowsConcat(AddRow(m, a[0]), a[1..], b);
    }
  }

  lemma AddRowsSnoc(m: Deletes, rows: seq<DeleteRow>, last: DeleteRow)
    ensures AddRows(m, rows + [last]) == AddRow(AddRows(m, rows), last)
  {
    AddRowsConcat(m, rows, [last]);
    assert AddRows(AddRows(m, rows), [last]) == AddRows(AddRow(AddRows(m, rows), last), []);
  }

  /** Row `row` of the file whose path folds to `key` is listed in `rows`. */
  ghost predicate Listed(rows: seq<DeleteRow>, key: string, row: int) {
    exists r :: r in rows && Fold(r.path) == key && r.row == row
  }

  ghost predicate Mentioned(rows: seq<DeleteRow>, key: string) {
    exists r :: r in rows && Fold(r.path) == key
  }

  /** The meaning of the loaded map: exactly the listed rows, for exactly the mentioned files. */
  lemma {:induction false} AddRowsMeaning(m: Deletes, rows: seq<DeleteRow>, key: string)
    ensures key in AddRows(m, rows) <==> key in m || Mentioned(rows, key)
    ensures forall row :: row in RowsOf(AddRows(m, rows), key) <==> row in RowsOf(m, key) || Listed(rows, key, row)
    decreases rows
  {
    if rows != [] {
      var m' := AddRow(m, rows[0]);
      AddRowsMeaning(m', rows[1..], key);
      assert forall r :: r in rows <==> r == rows[0] || r in rows[1..];
      forall row ensures row in RowsOf(AddRows(m, rows), key) <==> row in RowsOf(m, key) || Listed(rows, key, row) {
        assert row in RowsOf(m', key) <==> row in RowsOf(m, key) || (Fold(rows[0].path) == key && rows[0].row == row);
        if Listed(rows, key, row) {
          var r :| r in rows && Fold(r.path) == key && r.row == row;
          assert r == rows[0] || Listed(rows[1..], key, row);
        }
      }
      if Mentioned(rows, key) {
        var r :| r in rows && Fold(r.path) == key;
        assert r == rows[0] || Mentioned(rows[1..], key);
      }
    }
  }

  /** Neither the order of the rows, nor how they are spread over files and chunks, nor repeats matter. */
  lemma AddRowsOrder(m: Deletes, a: seq<DeleteRow>, b: seq<DeleteRow>)
    requires forall r :: r in a <==> r in b
    ensures AddRows(m, a) == AddRows(m, b)
  {
    forall key ensures key in AddRows(m, a) <==> key in AddRows(m, b)
               ensures RowsOf(AddRows(m, a), key) == RowsOf(AddRows(m, b), key) {
      SameRows(m, a, b, key);
    }
    assert forall key | key in AddRows(m, a) :: AddRows(m, a)[key] == RowsOf(AddRows(m, a), key);
    assert forall key | key in AddRows(m, b) :: AddRows(m, b)[key] == RowsOf(AddRows(m, b), key);
  }

  lemma SameRows(m: Deletes, a: seq<DeleteRow>, b: seq<DeleteRow>, key: string)
    requires forall r :: r in a <==> r in b
    ensures key in AddRows(m, a) <==> key in AddRows(m, b)
    ensures RowsOf(AddRows(m, a), key) == RowsOf(AddRows(m, b), key)
  {
    AddRowsMeaning(m, a, key);
    AddRowsMeaning(m, b, key);
    assert forall row :: Listed(a, key, row) <==> Listed(b, key, row);
    var left, right := RowsOf(AddRows(m, a), key), RowsOf(AddRows(m, b), key);
    assert forall row :: row in left <==> row in right;
    assert left == right;
  }

  /** The row numbers that some delete rows name for a data file. */
  function DeletedRows(rows: seq<DeleteRow>, filePath: string): set<int> {
    set r | r in rows && SameText(r.path, filePath) :: r.row
  }

  /** What the loaded map holds for a file is what the rows name for it. */
  lemma LookupIsDeletedRows(rows: seq<DeleteRow>, filePath: string)
    ensures RowsOf(AddRows(map[], rows), Fold(filePath)) == DeletedRows(rows, filePath)
  {
    hide Fold, SameText;
    AddRowsMeaning(map[], rows, Fold(filePath));
    var loaded, named := RowsOf(AddRows(map[], rows), Fold(filePath)), DeletedRows(rows, filePath);
    forall row ensures row in named <==> Listed(rows, Fold(filePath), row) {
      forall r | r in rows ensures Fold(r.path) == Fold(filePath) <==> SameText(r.path, filePath) {
        FoldEqualIff(r.path, filePath);
      }
    }
    assert forall row :: row in loaded <==> row in named;
  }

  // ----- filtering -------------------------------------------------------------------------------

  /** The rows of a chunk that survive: those whose row number is not deleted, in order. */
  function Surviving<V>(rows: seq<V>, ids: seq<int>, deleted: set<int>): (kept: seq<V>)
    requires |rows| == |ids|
    ensures |kept| <= |rows|
  {
    if rows == [] then []
    else (if ids[0] in deleted then [] else [rows[0]]) + Surviving(rows[1..], ids[1..], deleted)
  }

  function DeletedCount(ids: seq<int>, deleted: set<int>): nat {
    if ids == [] then 0 else (if ids[0] in deleted then 1 else 0) + DeletedCount(ids[1..], deleted)
  }

  /** Rows kept plus rows removed is the size of the chunk. */
  lemma {:induction false} KeptPlusRemoved<V>(rows: seq<V>, ids: seq<int>, deleted: set<int>)
    requires |rows| == |ids|
    ensures |Surviving(rows, ids, deleted)| + DeletedCount(ids, deleted) == |rows|
  {
    if rows != [] {
      KeptPlusRemoved(rows[1..], ids[1..], deleted);
    }
  }

  lemma {:induction false} NothingDeleted<V>(rows: seq<V>, ids: seq<int>)
    requires |rows| == |ids|
    ensures Surviving(rows, ids, {}) == rows
  {
    if rows != [] {
      NothingDeleted(rows[1..], ids[1..]);
    }
  }

  lemma {:induction false} SurvivingConcat<V>(rows: seq<V>, ids: seq<int>, rows': seq<V>, ids': seq<int>, deleted: set<int>)
    requires |rows| == |ids| && |rows'| == |ids'|
    ensures Surviving(rows + rows', ids + ids', deleted) ==
            Surviving(rows, ids, deleted) + Surviving(rows', ids', deleted)
  {
    if rows == [] {
      ConcatNil(rows');
      ConcatNil(ids');
      ConcatNil(Surviving(rows', ids', deleted));
    } else {
      ConcatHead(rows, rows');
      ConcatHead(ids, ids');
      SurvivingConcat(rows[1..], ids[1..], rows', ids', deleted);
      ConcatAssoc(if ids[0] in deleted then [] else [rows[0]], Surviving(rows[1..], ids[1..], deleted),
                  Surviving(rows', ids', deleted));
    }
  }

  /** The positions of `n` rows of a file from position `start` on. */
  function Positions(start: nat, n: nat): (ids: seq<int>)
    ensures |ids| == n && forall i | 0 <= i < n :: ids[i] == start + i
  {
    seq(n, i => start + i)
  }

  /** Filtering the chunks of a file one by one, each with its own positions. */
  function SurvivingChunks<V>(chunks: seq<seq<V>>, start: nat, deleted: set<int>): seq<V> {
    if chunks == [] then []
    else Surviving(chunks[0], Positions(start, |chunks[0]|), deleted) +
         SurvivingChunks(chunks[1..], start + |chunks[0]|, deleted)
  }

  /** Filtering does not depend on where a file is cut into chunks. */
  lemma {:induction false} ChunkingIrrelevant<V>(chunks: seq<seq<V>>, start: nat, deleted: set<int>)
    ensures SurvivingChunks(chunks, start, deleted) ==
            Surviving(Flatten(chunks), Positions(start, |Flatten(chunks)|), deleted)
    decreases chunks
  {
    if chunks != [] {
      var n, rest := |chunks[0]|, |Flatten(chunks[1..])|;
      ChunkingIrrelevant(chunks[1..], start + n, deleted);
      SurvivingConcat(chunks[0], Positions(start, n), Flatten(chunks[1..]), Positions(start + n, rest), deleted);
      assert Positions(start, n) + Positions(start + n, rest) == Positions(start, n + rest);
    }
  }

  /** Exactly the rows whose number is not deleted survive, each once and in order: `kept` are their indices. */
  lemma {:induction false} SurvivingPicks<V>(rows: seq<V>, ids: seq<int>, deleted: set<int>) returns (kept: seq<nat>)
    requires |rows| == |ids|
    ensures forall i, j | 0 <= i < j < |kept| :: kept[i] < kept[j]
    ensures forall k :: k in kept <==> 0 <= k < |rows| && ids[k] !in deleted
    ensures |Surviving(rows, ids, deleted)| == |kept|
    ensures forall i | 0 <= i < |kept| :: kept[i] < |rows| && Surviving(rows, ids, deleted)[i] == rows[kept[i]]
  {
    if rows == [] {
      kept := [];
    } else {
      var n := |rows| - 1;
      kept := SurvivingPicks(rows[..n], ids[..n], deleted);
      SurvivingSnoc(rows, ids, n, deleted);
      assert rows[..n + 1] == rows && ids[..n + 1] == ids;
      hide Surviving;
      ghost var before := kept;
      if ids[n] !in deleted {
        kept := kept + [n];
      }
      assert forall k :: k in kept <==> k in before || (k == n && ids[n] !in deleted);
    }
  }

  lemma SurvivingSnoc<V>(rows: seq<V>, ids: seq<int>, n: nat, deleted: set<int>)
    requires |rows| == |ids| && n < |rows|
    ensures Surviving(rows[..n + 1], ids[..n + 1], deleted) ==
            Surviving(rows[..n], ids[..n], deleted) + if ids[n] in deleted then [] else [rows[n]]
  {
    assert rows[..n + 1] == rows[..n] + [rows[n]];
    assert ids[..n + 1] == ids[..n] + [ids[n]];
    SurvivingConcat(rows[..n], ids[..n], [rows[n]], [ids[n]], deleted);
    assert Surviving([rows[n]], [ids[n]], deleted) == if ids[n] in deleted then [] else [rows[n]];
  }

  /** Membership: a position survives exactly when it is not deleted. */
  lemma {:induction false} SurvivesIff<V>(rows: seq<V>, ids: seq<int>, deleted: set<int>, v: V)
    requires |rows| == |ids|
    ensures v in Surviving(rows, ids, deleted) <==> exists i :: 0 <= i < |rows| && rows[i] == v && ids[i] !in deleted
  {
    if rows != [] {
      SurvivesIff(rows[1..], ids[1..], deleted, v);
      if i :| 0 <= i < |rows| && rows[i] == v && ids[i] !in deleted {
        if i > 0 {
          assert rows[1..][i - 1] == v && ids[1..][i - 1] !in deleted;
        }
      }
      if i :| 0 <= i < |rows[1..]| && rows[1..][i] == v && ids[1..][i] !in deleted {
        assert rows[i + 1] == v && ids[i + 1] !in deleted;
      }
    }
  }
}
