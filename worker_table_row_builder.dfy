/** worker/TableRowBuilder.java: collects (column, value) pairs for one
    row and writes the row element. */
module WorkerRows {
  import opened JavaText
  import opened XmlEscaping
  import opened ReplaceEscaping
  import opened RowMarkup

  class TableRowBuilder {
    const tableName: JString
    var columnNames: seq<JString>
    var values: seq<JString>

    /** The two lists grow together. */
    ghost predicate Valid()
      reads this
    {
      |columnNames| == |values|
    }

    constructor (tableName: JString)
      ensures Valid()
      ensures this.tableName == tableName && columnNames == [] && values == []
    {
      this.tableName := tableName;
      columnNames := [];
      values := [];
    }

    /** push(columnName, value) */
    method Push(columnName: JString, value: JString)
      requires Valid()
      modifies this
      ensures Valid()
      ensures columnNames == old(columnNames) + [columnName]
      ensures values == old(values) + [value]
    {
      columnNames := columnNames + [columnName];
      values := values + [value];
    }

    /** build(): reads the lists and leaves them as they are. */
    method Build() returns (r: JString)
      requires Valid()
      ensures r == RowXml(tableName, columnNames, values)
    {
      var builder: JString := [LT] + tableName;
      for index := 0 to |columnNames|
        invariant builder == [LT] + tableName + Attributes(columnNames[..index], values)
      {
        ghost var before := builder;
        builder := builder + [SPACE];
        builder := builder + columnNames[index];
        builder := builder + ATTR_OPEN;
        builder := builder + ChainEscape(values[index]);
        builder := builder + [QUOT];
        AppendAttribute(before, columnNames[index], values[index]);
        OpenRowStep(tableName, columnNames, values, index);
      }
      assert columnNames[..|columnNames|] == columnNames;
      builder := builder + ROW_CLOSE;
      return builder;
    }
  }

}
