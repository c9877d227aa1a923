/** The deleted rows of one data file, and the chunk they are filtered from. */
module DeleteData {
  import opened Basics
  import opened DeleteSets

  class DataChunk<V> {
    var rows: seq<V>

    constructor (rows: seq<V>)
      ensures this.rows == rows
    {
      this.rows := rows;
    }

    /** Keeps the rows whose indices are the first `count` of the selection vector. */
    method Slice(selection: array<nat>, count: nat)
      requires count <= selection.Length
      requires forall i | 0 <= i < count :: selection[i] < |rows|
      modifies this
      ensures rows == Selected(old(rows), selection[..count])
    {
      rows := Selected(rows, selection[..count]);
    }
  }

  function Selected<V>(rows: seq<V>, indices: seq<nat>): (picked: seq<V>)
    requires forall i | 0 <= i < |indices| :: indices[i] < |rows|
    ensures |picked| == |indices|
  {
    seq(|indices|, i requires 0 <= i < |indices| => rows[indices[i]])
  }

  /** The `file_row_number` column in unified format: values behind a selection. */
  datatype RowIdColumn = RowIdColumn(data: seq<int>, sel: seq<nat>) {
    predicate Covers(count: nat) {
      count <= |sel| && forall i | 0 <= i < count :: sel[i] < |data|
    }

    function Ids(count: nat): (ids: seq<int>)
      requires Covers(count)
      ensures |ids| == count
    {
      seq(count, i requires 0 <= i < count => data[sel[i]])
    }
  }

  lemma SelectedSnoc<V>(rows: seq<V>, indices: seq<nat>, next: nat)
    requires forall i | 0 <= i < |indices| :: indices[i] < |rows|
    requires next < |rows|
    ensures Selected(rows, indices + [next]) == Selected(rows, indices) + [rows[next]]
  {
  }

  class IcebergDeleteData {
    var invalidRows: set<int>

    constructor ()
      ensures invalidRows == {}
    {
      invalidRows := {};
    }

    method AddRow(rowId: int)
      modifies this
      ensures invalidRows == old(invalidRows) + {rowId}
    {
      invalidRows := invalidRows + {rowId};
    }

    method Apply<V>(chunk: DataChunk<V>, column: RowIdColumn)
      requires column.Covers(|chunk.rows|)
      modifies chunk
      ensures chunk.rows == Surviving(old(chunk.rows), column.Ids(|old(chunk.rows)|), invalidRows)
    {
      if |chunk.rows| == 0 {
        return;
      }
      var count := |chunk.rows|;
      var result := new nat[count];
      var selectionIdx := 0;
      ghost var ids := column.Ids(count);
      for tupleIdx := 0 to count
        invariant chunk.rows == old(chunk.rows) && selectionIdx <= tupleIdx
        invariant forall i | 0 <= i < selectionIdx :: result[i] < count
        invariant Selected(chunk.rows, result[..selectionIdx]) ==
                  Surviving(chunk.rows[..tupleIdx], ids[..tupleIdx], invalidRows)
      {
        SurvivingSnoc(chunk.rows, ids, tupleIdx, invalidRows);
        var currentRowId := column.data[column.sel[tupleIdx]];
        if currentRowId !in invalidRows {
          SelectedSnoc(chunk.rows, result[..selectionIdx], tupleIdx);
          ghost var before := result[..selectionIdx];
          result[selectionIdx] := tupleIdx;
          selectionIdx := selectionIdx + 1;
          assert result[..selectionIdx] == before + [tupleIdx];
        } else {
          ConcatNil(Surviving(chunk.rows[..tupleIdx], ids[..tupleIdx], invalidRows));
        }
      }
      assert chunk.rows[..count] == chunk.rows && ids[..count] == ids;
      chunk.Slice(result, selectionIdx);
    }
  }

  /** `case_insensitive_map_t<IcebergDeleteData>`: keys are compared folded, and a reference to a
      mapped element stays good while others are inserted. */
  class DeleteDataMap {
    var entries: map<string, IcebergDeleteData>
    ghost var objects: set<IcebergDeleteData>

    /** No two keys share an element. */
    ghost predicate Valid()
      reads this
    {
      && (forall k | k in entries :: entries[k] in objects)
      && (forall k, k' | k in entries && k' in entries && k != k' :: entries[k] != entries[k'])
    }

    ghost function Sets(): Deletes
      requires Valid()
      reads this, objects
    {
      map key | key in entries :: entries[key].invalidRows
    }

    /** Changing the element of one key changes the set of that key only. */
    twostate lemma ElementChanged(key: string)
      requires old(Valid()) && key in old(entries) && unchanged(this)
      requires forall o | o in objects && o != entries[key] :: unchanged(o)
      ensures Valid() && Sets() == old(Sets())[key := entries[key].invalidRows]
    {
    }

    constructor ()
      ensures Valid() && objects == {} && Sets() == map[]
    {
      entries, objects := map[], {};
    }

    /** `operator[]`: the element of a key, inserted empty if it is missing. */
    method At(path: string) returns (element: IcebergDeleteData)
      requires Valid()
      modifies this
      ensures Valid() && fresh(objects - old(objects)) && old(objects) <= objects
      ensures Fold(path) in entries && entries[Fold(path)] == element
      ensures Sets() == Touch(old(Sets()), Fold(path))
    {
      if Fold(path) !in entries {
        var inserted := new IcebergDeleteData();
        objects := objects + {inserted};
        entries := entries[Fold(path) := inserted];
      }
      element := entries[Fold(path)];
    }

    method Find(path: string) returns (element: IcebergDeleteData?)
      requires Valid()
      ensures element == null <==> Fold(path) !in entries
      ensures element != null ==> element == entries[Fold(path)] && element in objects
      ensures RowsOf(Sets(), Fold(path)) == if element == null then {} else element.invalidRows
    {
      element := if Fold(path) in entries then entries[Fold(path)] else null;
    }
  }

  /** A lookup that inserts an empty set when there is none. */
  function Touch(m: Deletes, key: string): Deletes {
    m[key := RowsOf(m, key)]
  }

  lemma TouchPresent(m: Deletes, key: string)
    requires key in m
    ensures Touch(m, key) == m
  {
  }

  /** A row inserted through the held element is a row inserted by a fresh lookup. */
  lemma AddThroughElement(m: Deletes, r: DeleteRow)
    ensures var key, touched := Fold(r.path), Touch(m, Fold(r.path));
            touched[key := touched[key] + {r.row}] == AddRow(m, r)
    ensures Fold(r.path) in AddRow(m, r)
  {
  }

  /** The body of ScanDeleteFile for one chunk: the element of the current path is held across rows
      and looked up again only when the path changes. */
  method AddChunk(deletes: DeleteDataMap, chunk: seq<DeleteRow>)
    requires deletes.Valid() && chunk != []
    modifies deletes, deletes.objects
    ensures deletes.Valid() && fresh(deletes.objects - old(deletes.objects))
    ensures deletes.Sets() == AddRows(old(deletes.Sets()), chunk)
  {
    ghost var before := deletes.Sets();
    var currentFilePath := chunk[0].path;
    var current := deletes.At(currentFilePath);
    for i := 0 to |chunk|
      invariant deletes.Valid() && fresh(deletes.objects - old(deletes.objects))
      invariant Fold(currentFilePath) in deletes.entries && deletes.entries[Fold(currentFilePath)] == current
      invariant if i == 0 then currentFilePath == chunk[0].path
                else Fold(currentFilePath) in AddRows(before, chunk[..i])
      invariant deletes.Sets() == Touch(AddRows(before, chunk[..i]), Fold(currentFilePath))
    {
      hide AddRows, Touch, Fold;
      var r := chunk[i];
      ghost var m := AddRows(before, chunk[..i]);
      if r.path != currentFilePath {
        TouchPresent(m, Fold(currentFilePath));
        currentFilePath := r.path;
        current := deletes.At(currentFilePath);
      }
      label Held:
      current.AddRow(r.row);
      deletes.ElementChanged@Held(Fold(r.path));
      AddThroughElement(m, r);
      TakeSnoc(chunk, i);
      AddRowsSnoc(before, chunk[..i], r);
      TouchPresent(AddRow(m, r), Fold(r.path));
    }
    assert chunk[..|chunk|] == chunk;
  }
}
