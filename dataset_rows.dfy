/** worker/dataset/TableRowBuilder.java and worker/dataset/TableRow.java.
    The builder owns two growable lists; `build` hands the row read-only
    views of those same lists, not copies, so a row keeps seeing what is
    pushed to its builder afterwards. The lists are therefore objects
    here, shared by reference between the builder and its rows. */
module DatasetRows {
  import opened Results
  import opened JavaText
  import opened XmlEscaping
  import opened ReplaceEscaping
  import opened RowMarkup

  /** A java.util.List<String>, grown in place. */
  class StringList {
    var items: seq<JString>

    constructor ()
      ensures items == []
    {
      items := [];
    }

    method Add(item: JString)
      modifies this
      ensures items == old(items) + [item]
    {
      items := items + [item];
    }
  }

  class TableRow {
    const tableName: JString
    const columnNames: StringList
    const values: StringList

    /** The row remembers the lists themselves. */
    constructor (tableName: JString, columnNames: StringList, values: StringList)
      ensures this.tableName == tableName
      ensures this.columnNames == columnNames && this.values == values
    {
      this.tableName := tableName;
      this.columnNames := columnNames;
      this.values := values;
    }

    /** getTableName() */
    function GetTableName(): JString
    {
      tableName
    }

    /** isEmpty(): no column names and no values, as the lists are now. */
    predicate IsEmpty()
      reads columnNames, values
    {
      columnNames.items == [] && values.items == []
    }

    /** toXmlString(): the row element, or None where `values.get(index)`
        would throw because there are fewer values than column names. */
    method ToXmlString() returns (r: Option<JString>)
      ensures |values.items| >= |columnNames.items| ==>
                r == Some(RowXml(tableName, columnNames.items, values.items))
      ensures |values.items| < |columnNames.items| ==> r == None
    {
      var names := columnNames.items;
      var vals := values.items;
      var builder: JString := [LT] + tableName;
      for index := 0 to |names|
        invariant index <= |vals|
        invariant builder == [LT] + tableName + Attributes(names[..index], vals)
      {
        if index >= |vals| {
          return None;
        }
        builder := AppendAttributeText(builder, names[index], vals[index]);
        OpenRowStep(tableName, names, vals, index);
      }
      assert names[..|names|] == names;
      builder := builder + ROW_CLOSE;
      return Some(builder);
    }
  }

  /** The loop body of toXmlString(): ` name="escaped value"`. */
  method AppendAttributeText(builder: JString, name: JString, value: JString) returns (r: JString)
    ensures r == builder + Attribute(name, value)
  {
    r := builder + [SPACE];
    r := r + name;
    r := r + ATTR_OPEN;
    r := r + ChainEscape(value);
    r := r + [QUOT];
    AppendAttribute(builder, name, value);
  }

  class TableRowBuilder {
    const tableName: JString
    const columnNames: StringList
    const values: StringList

    /** Two separate lists that grow together. */
    ghost predicate Valid()
      reads this, columnNames, values
    {
      columnNames != values && |columnNames.items| == |values.items|
    }

    constructor (tableName: JString)
      ensures Valid() && fresh(columnNames) && fresh(values)
      ensures this.tableName == tableName && columnNames.items == [] && values.items == []
    {
      this.tableName := tableName;
      columnNames := new StringList();
      values := new StringList();
    }

    /** push(columnName, value) */
    method Push(columnName: JString, value: JString)
      requires Valid()
      modifies columnNames, values
      ensures Valid()
      ensures columnNames.items == old(columnNames.items) + [columnName]
      ensures values.items == old(values.items) + [value]
    {
      columnNames.Add(columnName);
      values.Add(value);
    }

    /** build(): a new row over the builder's own lists. */
    method Build() returns (row: TableRow)
      ensures fresh(row)
      ensures row.tableName == tableName
      ensures row.columnNames == columnNames && row.values == values
    {
      row := new TableRow(tableName, columnNames, values);
    }
  }

  /** A row built before any push is empty and renders as `<T />`; after
      one push to the same builder, that very row renders the new column. */
  method RowSeesLaterPushes(tableName: JString, columnName: JString, value: JString)
    returns (emptyBefore: bool, xmlBefore: Option<JString>, xmlAfter: Option<JString>)
    ensures emptyBefore
    ensures xmlBefore == Some([LT] + tableName + ROW_CLOSE)
    ensures xmlAfter == Some([LT] + tableName + Attribute(columnName, value) + ROW_CLOSE)
  {
    var builder := new TableRowBuilder(tableName);
    var row := builder.Build();
    emptyBefore := row.IsEmpty();
    xmlBefore := row.ToXmlString();
    RowXmlEmpty(tableName, []);
    builder.Push(columnName, value);
    xmlAfter := row.ToXmlString();
    RowXmlPush(tableName, [], [], columnName, value);
    assert [] + [columnName] == [columnName] && [] + [value] == [value];
    assert Attributes([], []) == [];
    assert [LT] + tableName + [] == [LT] + tableName;
  }
}
