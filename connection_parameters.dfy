/** model/ConnectionParametersTableModel.java: the editable table of
    connection parameters behind the connection dialog. Two parallel lists
    hold the parameter names and their values; the Swing notifications the
    model fires are recorded in an event log. */
module ConnectionParameters {
  import opened JavaText
  import opened Results

  /** The table-model events fired through AbstractTableModel, each with
      its inclusive row range. */
  datatype TableModelEvent =
    | RowsUpdated(firstRow: int, lastRow: int)
    | RowsInserted(firstRow: int, lastRow: int)
    | RowsDeleted(firstRow: int, lastRow: int)

  const PARAMETER_COLUMN: JString := Str("Parameter")
  const VALUE_COLUMN: JString := Str("Value")
  const NULL_TEXT: JString := Str("null")

  function Min(a: int, b: int): int { if a < b then a else b }
  function Max(a: int, b: int): int { if a < b then b else a }

  /** Number of columns of the table. */
  function ColumnCount(): int { 2 }

  /** The header of a column: "Parameter", "Value", and "" for any other
      index. */
  function ColumnName(column: int): (r: JString)
    ensures r != [] <==> 0 <= column < ColumnCount()
    ensures column == 0 ==> r == PARAMETER_COLUMN
    ensures column == 1 ==> r == VALUE_COLUMN
  {
    if column == 0 then PARAMETER_COLUMN
    else if column == 1 then VALUE_COLUMN
    else []
  }

  /** Only the value column can be edited. */
  predicate IsCellEditable(row: int, column: int)
  {
    column == 1
  }

  /** String.valueOf(Object) for the values an editor hands back: the text
      itself, or "null". */
  function ValueOf(o: Option<JString>): JString
  {
    match o
    case Some(s) => s
    case None => NULL_TEXT
  }

  /** A column of n empty strings. */
  function Blank(n: nat): (r: seq<JString>)
    ensures |r| == n
    ensures forall k :: 0 <= k < n ==> r[k] == []
  {
    seq(n, _ => [])
  }

  /** The notifications of setParameters: rows present before and after are
      reported updated, rows that appeared inserted, rows that vanished
      deleted. */
  function ParameterEvents(oldSize: nat, newSize: nat): seq<TableModelEvent>
  {
    var minSize := Min(oldSize, newSize);
    (if minSize > 0 then [RowsUpdated(0, minSize - 1)] else [])
    + (if oldSize < newSize then [RowsInserted(oldSize, newSize - 1)] else [])
    + (if oldSize > newSize then [RowsDeleted(newSize, oldSize - 1)] else [])
  }

  predicate Covers(e: TableModelEvent, row: int)
  {
    e.firstRow <= row <= e.lastRow
  }

  /** How many events of `events` report `row`. */
  function CoverCount(events: seq<TableModelEvent>, row: int): (n: nat)
    ensures n <= |events|
  {
    if events == [] then 0
    else (if Covers(events[0], row) then 1 else 0) + CoverCount(events[1..], row)
  }

  /** The HashMap built by getParameterMap: names[i] is put with values[i]
      in index order, so a later duplicate overwrites an earlier one. */
  function ParameterMap(names: seq<JString>, values: seq<JString>): map<JString, JString>
    requires |values| >= |names|
  {
    if names == [] then map[]
    else ParameterMap(names[..|names| - 1], values)[names[|names| - 1] := values[|names| - 1]]
  }

  class ConnectionParametersTableModel {
    var names: seq<JString>
    var values: seq<JString>
    var events: seq<TableModelEvent>

    /** The two lists stay parallel. */
    ghost predicate Valid()
      reads this
    {
      |names| == |values|
    }

    constructor()
      ensures Valid()
      ensures names == [] && values == [] && events == []
    {
      names := [];
      values := [];
      events := [];
    }

    function RowCount(): (n: nat)
      reads this
      ensures Valid() ==> n == |values|
    {
      |names|
    }

    /** The cell at (row, column): the name in column 0, the value in column
        1, and null elsewhere. Column 0 and 1 need a row that exists, as
        List.get does; other columns ignore the row. */
    function GetValueAt(row: int, column: int): (r: Option<JString>)
      reads this
      requires Valid()
      requires column == 0 || column == 1 ==> 0 <= row < RowCount()
      ensures r.Some? <==> 0 <= column < ColumnCount()
      ensures r.Some? ==> r.value == (if column == 0 then names else values)[row]
    {
      if column == 0 then Some(names[row])
      else if column == 1 then Some(values[row])
      else None
    }

    /** Stores String.valueOf(value) in the value column; edits of any other
        column are ignored. */
    method SetValueAt(value: Option<JString>, row: int, column: int)
      modifies this
      requires Valid()
      requires IsCellEditable(row, column) ==> 0 <= row < RowCount()
      ensures Valid()
      ensures names == old(names) && events == old(events)
      ensures IsCellEditable(row, column) ==> values == old(values)[row := ValueOf(value)]
      ensures !IsCellEditable(row, column) ==> values == old(values)
    {
      if column == 1 {
        values := values[row := ValueOf(value)];
      }
    }

    /** Replaces the parameter list: the names become `parameters`, every
        value becomes "", and the row changes are notified. */
    method SetParameters(parameters: seq<JString>)
      modifies this
      requires Valid()
      ensures Valid()
      ensures names == parameters
      ensures values == Blank(|parameters|)
      ensures events == old(events) + ParameterEvents(old(|names|), |parameters|)
    {
      var oldSize := |names|;
      names := parameters;
      var blank: seq<JString> := [];
      for i := 0 to |parameters|
        invariant blank == Blank(i)
      {
        blank := blank + [[]];
      }
      values := blank;
      var newSize := |names|;
      var minSize := Min(oldSize, newSize);
      ghost var before := events;
      if minSize > 0 {
        events := events + [RowsUpdated(0, minSize - 1)];
      }
      if oldSize < newSize {
        events := events + [RowsInserted(oldSize, newSize - 1)];
      }
      if oldSize > newSize {
        events := events + [RowsDeleted(newSize, oldSize - 1)];
      }
      assert events == before + ParameterEvents(oldSize, newSize);
    }

    /** The parameter names mapped to their values. */
    method GetParameterMap() returns (parameterMap: map<JString, JString>)
      requires Valid()
      ensures parameterMap == ParameterMap(names, values)
    {
      parameterMap := map[];
      for index := 0 to |names|
        invariant parameterMap == ParameterMap(names[..index], values)
      {
        assert names[..index + 1][..index] == names[..index];
        parameterMap := parameterMap[names[index] := values[index]];
      }
      assert names[..|names|] == names;
    }
  }

  // ---------------------------------------------------------------------
  // Properties

  lemma {:induction false} CoverCountAppend(a: seq<TableModelEvent>, b: seq<TableModelEvent>, row: int)
    ensures CoverCount(a + b, row) == CoverCount(a, row) + CoverCount(b, row)
  {
    if a != [] {
      assert (a + b)[0] == a[0];
      assert (a + b)[1..] == a[1..] + b;
      CoverCountAppend(a[1..], b, row);
    } else {
      assert a + b == b;
    }
  }

  /** The notifications of setParameters report every row of the larger
      table exactly once and no row beyond it: rows below both sizes as
      updated, rows only in the new list as inserted, rows only in the old
      list as deleted. */
  lemma ParameterEventsPartitionRows(oldSize: nat, newSize: nat)
    ensures forall e :: e in ParameterEvents(oldSize, newSize) ==>
      0 <= e.firstRow <= e.lastRow < Max(oldSize, newSize)
    ensures forall row :: 0 <= row < Max(oldSize, newSize) ==>
      CoverCount(ParameterEvents(oldSize, newSize), row) == 1
    ensures forall e, row :: e in ParameterEvents(oldSize, newSize) && Covers(e, row) ==>
      (e.RowsUpdated? <==> row < Min(oldSize, newSize))
      && (e.RowsInserted? <==> oldSize <= row < newSize)
      && (e.RowsDeleted? <==> newSize <= row < oldSize)
  {
    var minSize := Min(oldSize, newSize);
    var u: seq<TableModelEvent> := if minSize > 0 then [RowsUpdated(0, minSize - 1)] else [];
    var i: seq<TableModelEvent> := if oldSize < newSize then [RowsInserted(oldSize, newSize - 1)] else [];
    var d: seq<TableModelEvent> := if oldSize > newSize then [RowsDeleted(newSize, oldSize - 1)] else [];
    assert ParameterEvents(oldSize, newSize) == u + i + d;
    forall row | 0 <= row < Max(oldSize, newSize)
      ensures CoverCount(ParameterEvents(oldSize, newSize), row) == 1
    {
      CoverCountAppend(u + i, d, row);
      CoverCountAppend(u, i, row);
    }
  }

  /** After setParameters every value cell reads "" and every name cell the
      given parameter, in order. */
  lemma SetParametersCells(m: ConnectionParametersTableModel, parameters: seq<JString>, row: int)
    requires m.Valid() && m.names == parameters && m.values == Blank(|parameters|)
    requires 0 <= row < |parameters|
    ensures m.GetValueAt(row, 0) == Some(parameters[row])
    ensures m.GetValueAt(row, 1) == Some([])
  {
  }

  /** Every name of the table is a key of the parameter map, and nothing
      else is. */
  lemma {:induction false} ParameterMapKeys(names: seq<JString>, values: seq<JString>)
    requires |values| >= |names|
    ensures forall k :: k in ParameterMap(names, values) <==> k in names
  {
    if names != [] {
      var init := names[..|names| - 1];
      ParameterMapKeys(init, values);
      assert names == init + [names[|names| - 1]];
    }
  }

  /** The value of a name is the one in its last row: a later duplicate
      wins. */
  lemma {:induction false} ParameterMapLaterWins(names: seq<JString>, values: seq<JString>, i: nat)
    requires |values| >= |names|
    requires i < |names|
    requires forall j :: i < j < |names| ==> names[j] != names[i]
    ensures names[i] in ParameterMap(names, values)
    ensures ParameterMap(names, values)[names[i]] == values[i]
  {
    if i < |names| - 1 {
      var init := names[..|names| - 1];
      ParameterMapLaterWins(init, values, i);
    }
  }

  /** An edit through setValueAt is what getParameterMap then reports for
      that name, unless a later row has the same name. */
  lemma EditedValueReachesMap(names: seq<JString>, values: seq<JString>, row: nat, value: Option<JString>)
    requires |values| == |names| && row < |names|
    requires forall j :: row < j < |names| ==> names[j] != names[row]
    ensures names[row] in ParameterMap(names, values[row := ValueOf(value)])
    ensures ParameterMap(names, values[row := ValueOf(value)])[names[row]] == ValueOf(value)
  {
    ParameterMapLaterWins(names, values[row := ValueOf(value)], row);
  }

  /** A fresh table model filled with two parameters: two rows reported
      inserted, both values blank, and a map with blank values. */
  method FreshParametersExample(a: JString, b: JString) returns (rows: nat, parameterMap: map<JString, JString>, log: seq<TableModelEvent>)
    requires a != b
    ensures rows == 2
    ensures parameterMap == map[a := [], b := []]
    ensures log == [RowsInserted(0, 1)]
  {
    var m := new ConnectionParametersTableModel();
    m.SetParameters([a, b]);
    rows := m.RowCount();
    parameterMap := m.GetParameterMap();
    log := m.events;
    var blank := Blank(2);
    assert [a, b][..1] == [a];
    assert [a][..0] == [];
    assert ParameterMap([a], blank) == map[a := []];
    assert ParameterMap([a, b], blank) == map[a := []][b := []];
  }
}
