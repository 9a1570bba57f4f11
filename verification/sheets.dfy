/** The parts of a Smartsheet sheet the service reads: columns with a title,
    rows with an id and cells, and the slug-keyed column index built as
    `{_slug(c.title): c.id for c in sheet.columns}` (main.py:266, 416). */
module Sheets {
  import opened Values
  import opened Text

  datatype Column = Column(id: Id, title: string)

  /** A cell: the column it belongs to, its value and its display text. */
  datatype Cell = Cell(column: Id, value: Value, display: Option<string>)

  datatype Row = Row(id: Id, cells: seq<Cell>)

  datatype Sheet = Sheet(columns: seq<Column>, rows: seq<Row>)

  /** The column index: slug of the title to column id, a later column
      replacing an earlier one with the same slug. */
  function ColumnIndex(columns: seq<Column>): map<string, Id>
  {
    if columns == [] then map[]
    else
      var last := columns[|columns| - 1];
      ColumnIndex(columns[..|columns| - 1])[Key(last) := last.id]
  }

  /** The slug of a column's title. */
  function Key(c: Column): string
  {
    Slug(c.title)
  }

  /** Column `i` is the last column whose slug is `key`, and the index maps
      `key` to its id. */
  predicate Witness(columns: seq<Column>, key: string, i: int)
  {
    0 <= i < |columns| && Key(columns[i]) == key && key in ColumnIndex(columns) &&
    ColumnIndex(columns)[key] == columns[i].id &&
    forall j :: i < j < |columns| ==> Key(columns[j]) != key
  }

  /** A slug is indexed exactly when some column has it. */
  lemma {:induction false} ColumnIndexKeys(columns: seq<Column>, key: string)
    ensures key in ColumnIndex(columns) <==> exists i :: 0 <= i < |columns| && Key(columns[i]) == key
  {
    if columns != [] {
      var n := |columns| - 1;
      ColumnIndexKeys(columns[..n], key);
      assert forall i :: 0 <= i < n ==> columns[..n][i] == columns[i];
    }
  }

  /** An indexed slug gives the id of the last column that has it. */
  lemma {:induction false} ColumnIndexLookup(columns: seq<Column>, key: string)
    requires key in ColumnIndex(columns)
    ensures exists i :: Witness(columns, key, i)
  {
    var n := |columns| - 1;
    var init := columns[..n];
    if Key(columns[n]) == key {
      assert Witness(columns, key, n);
    } else {
      ColumnIndexLookup(init, key);
      var i :| Witness(init, key, i);
      assert forall j :: 0 <= j < n ==> init[j] == columns[j];
      assert Witness(columns, key, i);
    }
  }

  /** Every id in the column index is the id of a column. */
  lemma {:induction false} ColumnIndexIds(columns: seq<Column>)
    ensures forall key :: key in ColumnIndex(columns) ==>
      exists i :: 0 <= i < |columns| && columns[i].id == ColumnIndex(columns)[key]
  {
    forall key | key in ColumnIndex(columns)
      ensures exists i :: 0 <= i < |columns| && columns[i].id == ColumnIndex(columns)[key]
    {
      ColumnIndexLookup(columns, key);
    }
  }

  /** `col_map.get(key)`. */
  function ColumnFor(index: map<string, Id>, key: string): Option<Id>
  {
    if key in index then Some(index[key]) else None
  }
}
