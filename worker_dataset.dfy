/** The execution half of worker/BuildDatasetWorker.java: after the
    statements are filtered, each one is run, its rows are written with
    the column mappers and the replace-chain escape, duplicate rows of the
    same statement are dropped, and the table blocks are put together in
    one document. The JDBC connection is a parameter: the driver check's
    verdict and a function from query text to the result set. */
module DatasetWorker {
  import opened JavaText
  import opened Results
  import opened Queries
  import opened Tokenizer
  import opened QueryParsing
  import opened MapperBuilding
  import opened XmlEscaping
  import opened ReplaceEscaping
  import opened Utf8StringMapping
  import opened AsciiStringMapping
  import opened RowMarkup
  import opened Datasets
  import opened WorkerFiltering
  import QueryFiltering

  /** A method either returns or throws an exception with a message. */
  datatype Outcome<T> = Returned(value: T) | Threw(message: JString)

  /** What executeQuery gives back: column metadata and the rows. */
  datatype QueryResult = QueryResult(columns: seq<ColumnMeta>, rows: seq<ResultRow>)

  /** The connection side: the driver class name, whether that class
      implements java.sql.Driver, the type mapping of the connection, and
      the result of each query text. */
  datatype Connection = Connection(
    driverClassName: JString,
    implementsDriver: bool,
    typeMappers: map<JString, TypeMapping>,
    execute: JString -> QueryResult)

  const NO_QUERIES: JString := Str("Dataset must have at least one query.")
  const NO_EXECUTABLE_QUERIES: JString := Str("Dataset must have at least one executable \tquery.")
  const WORKER_XML_HEADER: JString := Str("<?xml version=\"1.0\" encoding=\"UTF-8\"?>\n")

  function DriverError(driverClassName: JString): JString
  {
    Str("Driver class ") + driverClassName + Str(" does not implement java.sql.Driver.")
  }

  // ---------------------------------------------------------------------
  // Mappers

  /** getMapperByType(typeName, columnName): this older copy has no case
      for BASE64_WITH_PREFIX and throws for it. */
  function WorkerMapperByType(typeMappers: map<JString, TypeMapping>, typeName: JString, columnName: JString): Outcome<ColumnMapper>
  {
    if typeName !in typeMappers then Returned(ColumnMapper(DummyString, columnName))
    else match typeMappers[typeName]
      case Ascii => Returned(ColumnMapper(AsciiString, columnName))
      case Utf8 => Returned(ColumnMapper(Utf8String, columnName))
      case Hex => Returned(ColumnMapper(HexBytes, columnName))
      case Base64 => Returned(ColumnMapper(Base64Bytes, columnName))
      case Base64WithPrefix =>
        Threw(Str("Data mapper ") + TypeMappingName(Base64WithPrefix) + Str(" has no corresponding class."))
  }

  /** A column type the worker cannot map. */
  predicate Unmappable(typeMappers: map<JString, TypeMapping>, column: ColumnMeta)
  {
    column.typeName in typeMappers && typeMappers[column.typeName] == Base64WithPrefix
  }

  /** getMappers: one mapper per column in order, or the first exception. */
  function MappersSpec(typeMappers: map<JString, TypeMapping>, columns: seq<ColumnMeta>): Outcome<seq<ColumnMapper>>
  {
    if columns == [] then Returned([])
    else
      var init := MappersSpec(typeMappers, columns[..|columns| - 1]);
      var last := columns[|columns| - 1];
      if init.Threw? then init
      else
        var m := WorkerMapperByType(typeMappers, last.typeName, last.columnName);
        if m.Threw? then Threw(m.message) else Returned(init.value + [m.value])
  }

  /** getMappers(resultSet) */
  method GetMappers(typeMappers: map<JString, TypeMapping>, columns: seq<ColumnMeta>) returns (r: Outcome<seq<ColumnMapper>>)
    ensures r == MappersSpec(typeMappers, columns)
  {
    var result: seq<ColumnMapper> := [];
    for index := 0 to |columns|
      invariant MappersSpec(typeMappers, columns[..index]) == Returned(result)
    {
      assert columns[..index + 1][..index] == columns[..index];
      var mapper := WorkerMapperByType(typeMappers, columns[index].typeName, columns[index].columnName);
      if mapper.Threw? {
        MappersPrefixThrows(typeMappers, columns, index + 1);
        return Threw(mapper.message);
      }
      result := result + [mapper.value];
    }
    assert columns[..|columns|] == columns;
    return Returned(result);
  }

  // ---------------------------------------------------------------------
  // Rows

  /** The attributes of a row: one per mapper whose value is not null. */
  function MappedAttributes(mappers: seq<ColumnMapper>, row: ResultRow): JString
  {
    if mappers == [] then []
    else
      MappedAttributes(mappers[..|mappers| - 1], row) + MappedAttribute(mappers[|mappers| - 1], row)
  }

  /** A mapper's attribute, or nothing for a null value. */
  function MappedAttribute(mapper: ColumnMapper, row: ResultRow): JString
  {
    var value := MapValue(mapper, row);
    if value.None? then [] else Attribute(mapper.columnName, value.value)
  }

  /** getTableRow: the indented element on its own line. */
  function WorkerRowXml(tableName: JString, mappers: seq<ColumnMapper>, row: ResultRow): JString
  {
    EMPTY_TABLE_OPEN + tableName + MappedAttributes(mappers, row) + EMPTY_TABLE_CLOSE
  }

  /** getTableRow(resultSet, tableName, mappers) */
  method GetTableRow(row: ResultRow, tableName: JString, mappers: seq<ColumnMapper>) returns (r: JString)
    ensures r == WorkerRowXml(tableName, mappers, row)
  {
    var tableData := EMPTY_TABLE_OPEN + tableName;
    for i := 0 to |mappers|
      invariant tableData == EMPTY_TABLE_OPEN + tableName + MappedAttributes(mappers[..i], row)
    {
      var mapper := mappers[i];
      var value := MapValue(mapper, row);
      ghost var before := tableData;
      if value.Some? {
        tableData := tableData + [SPACE];
        tableData := tableData + mapper.columnName;
        tableData := tableData + ATTR_OPEN;
        tableData := tableData + ChainEscape(value.value);
        tableData := tableData + [QUOT];
        AppendAttribute(before, mapper.columnName, value.value);
      }
      MappedAttributesStep(EMPTY_TABLE_OPEN + tableName, mappers, row, i);
    }
    assert mappers[..|mappers|] == mappers;
    tableData := tableData + EMPTY_TABLE_CLOSE;
    return tableData;
  }

  // ---------------------------------------------------------------------
  // Table blocks

  /** Each result row written out, in result order. */
  function RowStrings(tableName: JString, mappers: seq<ColumnMapper>, rows: seq<ResultRow>): (r: seq<JString>)
    ensures |r| == |rows|
    ensures forall i :: 0 <= i < |rows| ==> r[i] == WorkerRowXml(tableName, mappers, rows[i])
  {
    if rows == [] then []
    else RowStrings(tableName, mappers, rows[..|rows| - 1]) + [WorkerRowXml(tableName, mappers, rows[|rows| - 1])]
  }

  /** getTableDataset: the distinct row lines in first-seen order, or the
      `<T />` line when the statement returned no rows. */
  function TableDataset(tableName: JString, mappers: seq<ColumnMapper>, rows: seq<ResultRow>): JString
  {
    if rows == [] then EMPTY_TABLE_OPEN + tableName + EMPTY_TABLE_CLOSE
    else Concat(Dedup(RowStrings(tableName, mappers, rows)))
  }

  /** getTableDataset(statement, query) as a whole: the statement is run,
      the mappers are chosen (which may throw) and the rows written. */
  function TableDatasetSpec(cfg: WorkerConfig, conn: Connection, q: Query): Outcome<JString>
    requires q.tableName.Some?
  {
    var result := conn.execute(q.queryText);
    var mappers := MappersSpec(conn.typeMappers, result.columns);
    if mappers.Threw? then Threw(mappers.message)
    else Returned(TableDataset(QueryTableName(cfg, q.tableName.value), mappers.value, result.rows))
  }

  /** getTableDataset(statement, query): `distinctRows` is the HashSet of
      row strings seen so far. */
  method GetTableDataset(cfg: WorkerConfig, conn: Connection, q: Query) returns (r: Outcome<JString>)
    requires q.tableName.Some?
    ensures r == TableDatasetSpec(cfg, conn, q)
  {
    var tableName := QueryTableName(cfg, q.tableName.value);
    var result := conn.execute(q.queryText);
    var mappers := GetMappers(conn.typeMappers, result.columns);
    if mappers.Threw? {
      return Threw(mappers.message);
    }
    var tableData, distinctRows := CollectRows(tableName, mappers.value, result.rows);
    if distinctRows == {} {
      return Returned(EMPTY_TABLE_OPEN + tableName + EMPTY_TABLE_CLOSE);
    }
    return Returned(tableData);
  }

  /** The row loop of getTableDataset: each row string is appended the
      first time it is seen. */
  method CollectRows(tableName: JString, mappers: seq<ColumnMapper>, rows: seq<ResultRow>)
    returns (tableData: JString, distinctRows: set<JString>)
    ensures tableData == Concat(Dedup(RowStrings(tableName, mappers, rows)))
    ensures distinctRows == {} <==> rows == []
  {
    tableData := [];
    distinctRows := {};
    ghost var lines := RowStrings(tableName, mappers, rows);
    for i := 0 to |rows|
      invariant forall x :: x in distinctRows <==> x in lines[..i]
      invariant tableData == Concat(Dedup(lines[..i]))
    {
      var tableRow := GetTableRow(rows[i], tableName, mappers);
      ghost var seen := lines[..i];
      PrefixStep(lines, i);
      DedupConcatStep(seen, tableRow);
      if tableRow !in distinctRows {
        distinctRows := distinctRows + {tableRow};
        tableData := tableData + tableRow;
      }
    }
    assert lines[..|rows|] == lines;
    assert rows != [] ==> lines[0] in distinctRows;
  }

  // ---------------------------------------------------------------------
  // The document

  /** The execution loop: a block per statement that is not skipped (the
      skip test runs again, for statements a template generated), or the
      first exception. */
  function BlocksSpec(cfg: WorkerConfig, conn: Connection, queries: seq<Query>): Outcome<seq<JString>>
    requires QueryFiltering.AllNamed(queries)
  {
    if queries == [] then Returned([])
    else
      var init := queries[..|queries| - 1];
      var q := queries[|queries| - 1];
      assert q == queries[|queries| - 1];
      var before := BlocksSpec(cfg, conn, init);
      if before.Threw? then before
      else if IsSkippedName(cfg, q.tableName.value) then before
      else
        var block := TableDatasetSpec(cfg, conn, q);
        if block.Threw? then Threw(block.message) else Returned(before.value + [block.value])
  }

  /** QueryParser.parse(queryText) */
  function Statements(queryText: JString): seq<Query>
  {
    TokenizeRoundTrip(queryText);
    ParseTokens(Tokenize(queryText))
  }

  /** doInBackground(): the whole run. */
  function RunSpec(cfg: WorkerConfig, conn: Connection, queryText: JString): Outcome<Result<JString, JString>>
  {
    var allQueries := Statements(queryText);
    if allQueries == [] then Returned(Error(Some(NO_QUERIES)))
    else
      var filtered := WorkerFilter(cfg, allQueries);
      if filtered.IsError() then Returned(Error(filtered.error))
      else if filtered.value.value == [] then Returned(Error(Some(NO_EXECUTABLE_QUERIES)))
      else if !conn.implementsDriver then Returned(Error(Some(DriverError(conn.driverClassName))))
      else
        WorkerFilterNamed(cfg, allQueries);
        var blocks := BlocksSpec(cfg, conn, filtered.value.value);
        if blocks.Threw? then Threw(blocks.message)
        else Returned(Ok(Some(Document(WORKER_XML_HEADER, blocks.value))))
  }

  /** doInBackground() */
  method Run(cfg: WorkerConfig, conn: Connection, queryText: JString) returns (r: Outcome<Result<JString, JString>>)
    ensures r == RunSpec(cfg, conn, queryText)
  {
    var allQueries := ParseText(queryText);
    if allQueries == [] {
      return Returned(Error(Some(NO_QUERIES)));
    }
    var filtered := FilterStatements(cfg, allQueries);
    if filtered.IsError() {
      return Returned(Error(filtered.GetError()));
    }
    var queries := filtered.value.value;
    if queries == [] {
      return Returned(Error(Some(NO_EXECUTABLE_QUERIES)));
    }
    if !conn.implementsDriver {
      return Returned(Error(Some(DriverError(conn.driverClassName))));
    }
    WorkerFilterNamed(cfg, allQueries);
    var dataset := WriteDataset(cfg, conn, queries);
    if dataset.Threw? {
      return Threw(dataset.message);
    }
    return Returned(Ok(Some(dataset.value)));
  }

  /** The statement loop of doInBackground(): the blocks joined by line
      feeds inside the dataset element, or the first exception. */
  method WriteDataset(cfg: WorkerConfig, conn: Connection, queries: seq<Query>) returns (r: Outcome<JString>)
    requires QueryFiltering.AllNamed(queries)
    ensures BlocksSpec(cfg, conn, queries).Threw? ==> r == Threw(BlocksSpec(cfg, conn, queries).message)
    ensures BlocksSpec(cfg, conn, queries).Returned? ==>
              r == Returned(Document(WORKER_XML_HEADER, BlocksSpec(cfg, conn, queries).value))
  {
    var dataset := WORKER_XML_HEADER + DATASET_OPEN;
    var isFirst := true;
    ghost var blocks: seq<JString> := [];
    for i := 0 to |queries|
      invariant BlocksSpec(cfg, conn, queries[..i]) == Returned(blocks)
      invariant isFirst <==> blocks == []
      invariant dataset == WORKER_XML_HEADER + DATASET_OPEN + JoinBlocks(blocks)
    {
      var query := queries[i];
      BlocksStep(cfg, conn, queries, i);
      if IsSkippedName(cfg, query.tableName.value) {
        continue;
      }
      var tableData := GetTableDataset(cfg, conn, query);
      if tableData.Threw? {
        BlocksPrefixThrows(cfg, conn, queries, i + 1);
        return Threw(tableData.message);
      }
      ghost var joined := JoinBlocks(blocks);
      ghost var sep: JString := if blocks == [] then [] else [LF];
      if !isFirst {
        dataset := dataset + [LF];
      } else {
        isFirst := false;
      }
      dataset := dataset + tableData.value;
      JoinStep(blocks, tableData.value);
      Regroup(WORKER_XML_HEADER + DATASET_OPEN, joined, sep, tableData.value);
      blocks := blocks + [tableData.value];
    }
    assert queries[..|queries|] == queries;
    dataset := dataset + DATASET_CLOSE;
    return Returned(dataset);
  }

  // ---------------------------------------------------------------------
  // Proof steps

  lemma MappedAttributesStep(front: JString, mappers: seq<ColumnMapper>, row: ResultRow, i: nat)
    requires i < |mappers|
    ensures front + MappedAttributes(mappers[..i + 1], row)
         == front + MappedAttributes(mappers[..i], row) + MappedAttribute(mappers[i], row)
  {
    var prev := MappedAttributes(mappers[..i], row);
    var attr := MappedAttribute(mappers[i], row);
    assert MappedAttributes(mappers[..i + 1], row) == prev + attr by {
      var taken := mappers[..i + 1];
      assert taken[..|taken| - 1] == mappers[..i];
      assert taken[|taken| - 1] == mappers[i];
    }
    AppendAssoc(front, prev, attr);
  }

  /** Once a prefix of the columns throws, the whole list does. */
  lemma {:induction false} MappersPrefixThrows(typeMappers: map<JString, TypeMapping>, columns: seq<ColumnMeta>, n: nat)
    requires n <= |columns|
    requires MappersSpec(typeMappers, columns[..n]).Threw?
    ensures MappersSpec(typeMappers, columns) == MappersSpec(typeMappers, columns[..n])
    decreases |columns| - n
  {
    if n < |columns| {
      assert columns[..n + 1][..n] == columns[..n];
      MappersPrefixThrows(typeMappers, columns, n + 1);
    } else {
      assert columns[..n] == columns;
    }
  }

  /** One more statement: BlocksSpec on the first i + 1 statements in
      terms of the first i. */
  lemma BlocksStep(cfg: WorkerConfig, conn: Connection, queries: seq<Query>, i: nat)
    requires i < |queries| && QueryFiltering.AllNamed(queries)
    ensures QueryFiltering.AllNamed(queries[..i]) && QueryFiltering.AllNamed(queries[..i + 1])
    ensures var before := BlocksSpec(cfg, conn, queries[..i]);
            var q := queries[i];
            BlocksSpec(cfg, conn, queries[..i + 1]) ==
              if before.Threw? || IsSkippedName(cfg, q.tableName.value) then before
              else
                var block := TableDatasetSpec(cfg, conn, q);
                if block.Threw? then Threw(block.message) else Returned(before.value + [block.value])
  {
    assert queries[..i + 1][..i] == queries[..i];
    assert queries[..i + 1][i] == queries[i];
  }

  lemma {:induction false} BlocksPrefixThrows(cfg: WorkerConfig, conn: Connection, queries: seq<Query>, n: nat)
    requires n <= |queries|
    requires QueryFiltering.AllNamed(queries)
    requires QueryFiltering.AllNamed(queries[..n]) && BlocksSpec(cfg, conn, queries[..n]).Threw?
    ensures BlocksSpec(cfg, conn, queries) == BlocksSpec(cfg, conn, queries[..n])
    decreases |queries| - n
  {
    if n < |queries| {
      assert queries[..n + 1][..n] == queries[..n];
      assert QueryFiltering.AllNamed(queries[..n + 1]);
      BlocksPrefixThrows(cfg, conn, queries, n + 1);
    } else {
      assert queries[..n] == queries;
    }
  }

  lemma PrefixStep<T>(xs: seq<T>, i: nat)
    requires i < |xs|
    ensures xs[..i + 1] == xs[..i] + [xs[i]]
  {
  }

  /** A row string is appended to the table's text exactly when it was not seen before. */
  lemma DedupConcatStep(seen: seq<JString>, row: JString)
    ensures Concat(Dedup(seen + [row])) == if row in seen then Concat(Dedup(seen)) else Concat(Dedup(seen)) + row
  {
    DedupStep(seen, row);
    if row !in seen {
      ConcatAppend(Dedup(seen), [row]);
      assert [row][1..] == [];
    }
  }

  /** Adding a row string to the seen set: kept iff not seen before. */
  lemma DedupStep(xs: seq<JString>, x: JString)
    ensures Dedup(xs + [x]) == if x in xs then Dedup(xs) else Dedup(xs) + [x]
  {
    var all := xs + [x];
    assert all[..|all| - 1] == xs;
    DedupSpec(xs);
  }

  // ---------------------------------------------------------------------
  // Properties

  /** The worker's getMapperByType picks what MapperBuilder picks, except
      that it throws for BASE64_WITH_PREFIX. */
  lemma WorkerMapperAgrees(typeMappers: map<JString, TypeMapping>, typeName: JString, columnName: JString)
    ensures WorkerMapperByType(typeMappers, typeName, columnName).Threw?
        <==> Unmappable(typeMappers, ColumnMeta(typeName, columnName))
    ensures WorkerMapperByType(typeMappers, typeName, columnName).Returned? ==>
      WorkerMapperByType(typeMappers, typeName, columnName).value == MapperByType(typeMappers, typeName, columnName)
    ensures WorkerMapperByType(typeMappers, typeName, columnName).Threw? ==>
      WorkerMapperByType(typeMappers, typeName, columnName).message
        == Str("Data mapper ") + Str("BASE64_WITH_PREFIX") + Str(" has no corresponding class.")
  {
  }

  /** getMappers succeeds iff no column has an unmappable type, and then
      gives MapperBuilder's mapper for every column, in column order. */
  lemma {:induction false} MappersSpecAgree(typeMappers: map<JString, TypeMapping>, columns: seq<ColumnMeta>)
    ensures MappersSpec(typeMappers, columns).Returned?
        <==> forall k :: 0 <= k < |columns| ==> !Unmappable(typeMappers, columns[k])
    ensures MappersSpec(typeMappers, columns).Returned? ==>
      && |MappersSpec(typeMappers, columns).value| == |columns|
      && forall i :: 0 <= i < |columns| ==>
           MappersSpec(typeMappers, columns).value[i] == MapperByType(typeMappers, columns[i].typeName, columns[i].columnName)
    decreases |columns|
  {
    if columns != [] {
      var init := columns[..|columns| - 1];
      var last := columns[|columns| - 1];
      MappersSpecAgree(typeMappers, init);
      WorkerMapperAgrees(typeMappers, last.typeName, last.columnName);
      assert forall k :: 0 <= k < |init| ==> init[k] == columns[k];
    }
  }

  /** The next result row adds its line unless the same line was already
      written for this statement; the first row replaces the `<T />` line. */
  lemma TableDatasetPush(tableName: JString, mappers: seq<ColumnMapper>, rows: seq<ResultRow>, row: ResultRow)
    ensures rows == [] ==>
      TableDataset(tableName, mappers, rows + [row]) == WorkerRowXml(tableName, mappers, row)
    ensures rows != [] && WorkerRowXml(tableName, mappers, row) in RowStrings(tableName, mappers, rows) ==>
      TableDataset(tableName, mappers, rows + [row]) == TableDataset(tableName, mappers, rows)
    ensures rows != [] && WorkerRowXml(tableName, mappers, row) !in RowStrings(tableName, mappers, rows) ==>
      TableDataset(tableName, mappers, rows + [row])
        == TableDataset(tableName, mappers, rows) + WorkerRowXml(tableName, mappers, row)
  {
    var line := WorkerRowXml(tableName, mappers, row);
    var lines := RowStrings(tableName, mappers, rows);
    var all := rows + [row];
    assert all[..|all| - 1] == rows;
    assert RowStrings(tableName, mappers, all) == lines + [line];
    DedupStep(lines, line);
    ConcatAppend(Dedup(lines), [line]);
    assert [line][1..] == [];
    if rows == [] {
      assert lines == [];
      assert Dedup(lines) == [];
    }
  }

  /** A statement that is run (named, not skipped, every column mappable)
      contributes exactly one block. */
  predicate Executes(cfg: WorkerConfig, conn: Connection, q: Query)
  {
    q.tableName.Some? && !IsSkippedName(cfg, q.tableName.value) && TableDatasetSpec(cfg, conn, q).Returned?
  }

  /** When every statement runs, the blocks are those statements' table
      datasets, one each, in statement order. */
  lemma {:induction false} BlocksOnePerStatement(cfg: WorkerConfig, conn: Connection, queries: seq<Query>)
    requires forall k :: 0 <= k < |queries| ==> Executes(cfg, conn, queries[k])
    ensures QueryFiltering.AllNamed(queries)
    ensures BlocksSpec(cfg, conn, queries).Returned?
    ensures |BlocksSpec(cfg, conn, queries).value| == |queries|
    ensures forall k :: 0 <= k < |queries| ==>
      TableDatasetSpec(cfg, conn, queries[k]) == Returned(BlocksSpec(cfg, conn, queries).value[k])
    decreases |queries|
  {
    if queries != [] {
      var init := queries[..|queries| - 1];
      var q := queries[|queries| - 1];
      assert forall k :: 0 <= k < |init| ==> init[k] == queries[k];
      BlocksOnePerStatement(cfg, conn, init);
      assert Executes(cfg, conn, q);
      var before := BlocksSpec(cfg, conn, init).value;
      var block := TableDatasetSpec(cfg, conn, q).value;
      assert QueryFiltering.AllNamed(queries);
      assert BlocksSpec(cfg, conn, queries) == Returned(before + [block]);
      forall k | 0 <= k < |queries|
        ensures TableDatasetSpec(cfg, conn, queries[k]) == Returned((before + [block])[k])
      {
        if k < |init| {
          assert queries[k] == init[k];
        }
      }
    }
  }

  /** A statement runs iff it is named, not skipped, and none of its result
      columns has an unmappable type. */
  lemma ExecutesIff(cfg: WorkerConfig, conn: Connection, q: Query)
    ensures Executes(cfg, conn, q) <==>
      && q.tableName.Some? && !IsSkippedName(cfg, q.tableName.value)
      && forall k :: 0 <= k < |conn.execute(q.queryText).columns| ==>
           !Unmappable(conn.typeMappers, conn.execute(q.queryText).columns[k])
  {
    MappersSpecAgree(conn.typeMappers, conn.execute(q.queryText).columns);
  }

  /** Empty text has no statements, which is an error; statements that are
      all skipped leave nothing to execute, which is another. */
  lemma RunSmallCases(cfg: WorkerConfig, conn: Connection, text: JString)
    ensures RunSpec(cfg, conn, []) == Returned(Error(Some(NO_QUERIES)))
    ensures Statements(text) != [] &&
            (forall k :: 0 <= k < |Statements(text)| ==>
               Statements(text)[k].tableName.Some? && IsSkippedName(cfg, Statements(text)[k].tableName.value))
      ==> RunSpec(cfg, conn, text) == Returned(Error(Some(NO_EXECUTABLE_QUERIES)))
  {
    TokenizeSmallCases();
    ParserExamplesEmpty();
    var all := Statements(text);
    if forall k :: 0 <= k < |all| ==> all[k].tableName.Some? && IsSkippedName(cfg, all[k].tableName.value) {
      AllSkippedFilterEmpty(cfg, all);
    }
  }

  lemma {:induction false} AllSkippedFilterEmpty(cfg: WorkerConfig, queries: seq<Query>)
    requires forall k :: 0 <= k < |queries| ==> queries[k].tableName.Some? && IsSkippedName(cfg, queries[k].tableName.value)
    ensures WorkerFilter(cfg, queries) == Ok(Some([]))
  {
    if queries != [] {
      assert forall k :: 0 <= k < |queries[1..]| ==> queries[1..][k] == queries[k + 1];
      AllSkippedFilterEmpty(cfg, queries[1..]);
    }
  }

  /** The worker escapes the string mappers' output a second time: decoding
      an attribute value once gives the mapper's escaped text, not the
      column value, and it takes a second decoding to get the value. */
  lemma StringMappersDoubleEscaped(s: JString)
    ensures Unescape(ChainEscape(Utf8Escape(s))) == Utf8Escape(s)
    ensures Unescape(Unescape(ChainEscape(Utf8Escape(s)))) == s
    ensures Unescape(ChainEscape(AsciiEscape(s))) == AsciiEscape(s)
    ensures Unescape(Unescape(ChainEscape(AsciiEscape(s)))) == s
  {
    Utf8EscapeNoMarkup(s);
    assert QUOT !in Utf8Escape(s);
    ChainDecodes(Utf8Escape(s));
    ReplaceAbsent(Utf8Escape(s), QUOT, QUOT_ENTITY);
    Utf8EscapeRoundTrip(s);
    AsciiEscapeNoMarkup(s);
    assert QUOT !in AsciiEscape(s);
    ChainDecodes(AsciiEscape(s));
    ReplaceAbsent(AsciiEscape(s), QUOT, QUOT_ENTITY);
    AsciiEscapeRoundTrip(s);
  }

  /** A `<` in a UTF8-mapped column is written `&amp;lt;`. */
  lemma LessThanWrittenTwice()
    ensures ChainEscape(Utf8Escape([LT])) == Str("&amp;lt;")
  {
    Utf8LessThan();
    ChainedLessThan();
    SpellDoubleLessThan();
  }

  lemma Utf8LessThan()
    ensures Utf8Escape([LT]) == [AMP, L, T, ENTITY_END]
  {
    ConcatMapCons(Utf8EscapeChar, LT, []);
    SpellOthers();
  }

  lemma ChainedLessThan()
    ensures ChainEscape([AMP, L, T, ENTITY_END]) == [AMP, A, M, P, ENTITY_END, L, T, ENTITY_END]
  {
    ChainIsPerChar([AMP, L, T, ENTITY_END]);
    ChainedLessThanEntity();
  }

  lemma SpellDoubleLessThan()
    ensures Str("&amp;lt;") == [AMP, A, M, P, ENTITY_END, L, T, ENTITY_END]
  {
  }

  lemma ChainedLessThanEntity()
    ensures ConcatMap(ChainedChar, [AMP, L, T, ENTITY_END]) == [AMP, A, M, P, ENTITY_END, L, T, ENTITY_END]
  {
    var tail: JString := [L, T, ENTITY_END];
    assert ConcatMap(ChainedChar, [AMP, L, T, ENTITY_END]) == ChainedChar(AMP) + ConcatMap(ChainedChar, tail) by {
      ConcatMapCons(ChainedChar, AMP, tail);
      assert [AMP] + tail == [AMP, L, T, ENTITY_END];
    }
    assert ConcatMap(ChainedChar, tail) == tail by {
      ChainedPlain(tail);
    }
    assert ChainedChar(AMP) == [AMP, A, M, P, ENTITY_END] by {
      SpellAmp();
    }
  }

  // ---------------------------------------------------------------------
  // The worker's row against TableRowBuilder's

  /** Names of the columns whose mapped value is not null, in order. */
  function PresentNames(mappers: seq<ColumnMapper>, row: ResultRow): (r: seq<JString>)
    ensures |r| == |PresentValues(mappers, row)|
  {
    if mappers == [] then []
    else
      var last := mappers[|mappers| - 1];
      PresentNames(mappers[..|mappers| - 1], row) + (if MapValue(last, row).None? then [] else [last.columnName])
  }

  /** Their mapped values, in the same order. */
  function PresentValues(mappers: seq<ColumnMapper>, row: ResultRow): seq<JString>
  {
    if mappers == [] then []
    else
      var last := mappers[|mappers| - 1];
      var value := MapValue(last, row);
      PresentValues(mappers[..|mappers| - 1], row) + (if value.None? then [] else [value.value])
  }

  lemma {:induction false} MappedAttributesArePresentOnes(mappers: seq<ColumnMapper>, row: ResultRow)
    ensures MappedAttributes(mappers, row) == Attributes(PresentNames(mappers, row), PresentValues(mappers, row))
    decreases |mappers|
  {
    if mappers != [] {
      var init := mappers[..|mappers| - 1];
      var last := mappers[|mappers| - 1];
      MappedAttributesArePresentOnes(init, row);
      var names := PresentNames(init, row);
      var values := PresentValues(init, row);
      var value := MapValue(last, row);
      assert MappedAttributes(mappers, row) == MappedAttributes(init, row) + MappedAttribute(last, row);
      if value.Some? {
        assert PresentNames(mappers, row) == names + [last.columnName];
        assert PresentValues(mappers, row) == values + [value.value];
        assert MappedAttribute(last, row) == Attribute(last.columnName, value.value);
        AttributesPush(names, values, last.columnName, value.value);
      } else {
        assert PresentNames(mappers, row) == names;
        assert PresentValues(mappers, row) == values;
        assert MappedAttribute(last, row) == [];
        assert MappedAttributes(init, row) + [] == MappedAttributes(init, row);
      }
    }
  }

  lemma AttributesPush(names: seq<JString>, values: seq<JString>, name: JString, value: JString)
    requires |names| == |values|
    ensures Attributes(names + [name], values + [value]) == Attributes(names, values) + Attribute(name, value)
  {
    var names' := names + [name];
    var values' := values + [value];
    assert names'[..|names'| - 1] == names && names'[|names'| - 1] == name;
    assert values'[|names'| - 1] == value;
    AttributesIgnoreExtraValues(names, values, [value]);
  }

  /** The worker writes exactly what TableRowBuilder.build() would for the
      non-null columns, indented by four spaces and ended by a line feed;
      null columns leave no trace. */
  lemma WorkerRowIsBuilderRow(tableName: JString, mappers: seq<ColumnMapper>, row: ResultRow)
    ensures WorkerRowXml(tableName, mappers, row)
         == INDENT + RowXml(tableName, PresentNames(mappers, row), PresentValues(mappers, row)) + [LF]
  {
    var attrs := MappedAttributes(mappers, row);
    assert WorkerRowXml(tableName, mappers, row) == INDENT + ([LT] + tableName + attrs + ROW_CLOSE) + [LF] by {
      assert Str("<") == [LT];
      calc {
        WorkerRowXml(tableName, mappers, row);
        (INDENT + [LT]) + tableName + attrs + (ROW_CLOSE + [LF]);
        INDENT + ([LT] + tableName + attrs + ROW_CLOSE) + [LF];
      }
    }
    MappedAttributesArePresentOnes(mappers, row);
  }
}
