/** worker/mapper/MapperBuilder.java: one column mapper per result column,
    chosen by the column's SQL type name through the connection's type
    mapping. The mappers are a closed set of variants; a result set row
    is the list of its column values, each null or readable both as a
    string and as bytes. */
module MapperBuilding {
  import opened JavaText
  import opened Results
  import opened Queries
  import opened XmlEscaping
  import opened AsciiStringMapping
  import opened Utf8StringMapping
  import opened HexBytesMapping
  import opened Base64Mapping

  /** The ColumnMapper implementations. */
  datatype MapperKind =
    | DummyString        // DummyStringMapper: the string as it is
    | AsciiString        // AsciiStringMapper
    | Utf8String         // Utf8StringMapper
    | HexBytes           // HexBytesMapper
    | Base64Bytes        // Base64BytesMapper
    | Base64PrefixBytes  // Base64PrefixBytesMapper

  /** A mapper bound to the column it reads (getColumnName()). */
  datatype ColumnMapper = ColumnMapper(kind: MapperKind, columnName: JString)

  /** Result set metadata for one column. */
  datatype ColumnMeta = ColumnMeta(typeName: JString, columnName: JString)

  /** A non-null column value, as getString and getBytes return it. */
  datatype SqlValue = SqlValue(asString: JString, asBytes: seq<JByte>)

  /** The current row of a result set: metadata and values, column by
      column (None is SQL NULL). */
  datatype ResultRow = ResultRow(columns: seq<ColumnMeta>, values: seq<Option<SqlValue>>)

  /** String.equalsIgnoreCase on column labels: JDBC getters resolve a
      column label without regard to case. */
  predicate SameLabel(a: JString, b: JString)
  {
    ToLowerAscii(a) == ToLowerAscii(b)
  }

  /** The index of the first column whose label is `name` up to case, or
      |columns|. */
  function ColumnIndex(columns: seq<ColumnMeta>, name: JString): (i: nat)
    ensures i <= |columns|
    ensures i < |columns| ==> SameLabel(columns[i].columnName, name)
    ensures forall k :: 0 <= k < i ==> !SameLabel(columns[k].columnName, name)
  {
    if columns == [] then 0
    else if SameLabel(columns[0].columnName, name) then 0
    else 1 + ColumnIndex(columns[1..], name)
  }

  /** getString(name) / getBytes(name) with wasNull(): JDBC resolves a
      column label, ignoring case, to the first column carrying it. A
      label the row lacks is read as null (the driver's exception is not
      modelled). */
  function ValueOf(row: ResultRow, name: JString): (v: Option<SqlValue>)
    ensures var i := ColumnIndex(row.columns, name);
            i < |row.columns| && i < |row.values| ==> v == row.values[i]
    ensures ColumnIndex(row.columns, name) == |row.columns| ==> v.None?
  {
    var i := ColumnIndex(row.columns, name);
    if i < |row.columns| && i < |row.values| then row.values[i] else None
  }

  function StringOf(v: Option<SqlValue>): (r: Option<JString>)
    ensures r.None? <==> v.None?
  {
    if v.None? then None else Some(v.value.asString)
  }

  function BytesOf(v: Option<SqlValue>): (r: Option<seq<JByte>>)
    ensures r.None? <==> v.None?
  {
    if v.None? then None else Some(v.value.asBytes)
  }

  /** mapper.map(resultSet): every mapper returns null for SQL NULL (so
      the caller leaves the attribute out) and its encoding otherwise. */
  function MapValue(m: ColumnMapper, row: ResultRow): (r: Option<JString>)
    ensures r.None? <==> ValueOf(row, m.columnName).None?
  {
    var v := ValueOf(row, m.columnName);
    match m.kind
    case DummyString => StringOf(v)
    case AsciiString => MapAscii(StringOf(v))
    case Utf8String => MapUtf8(StringOf(v))
    case HexBytes => MapHex(BytesOf(v))
    case Base64Bytes => MapBase64(BytesOf(v))
    case Base64PrefixBytes => MapBase64Prefix(BytesOf(v))
  }

  /** The mapper each TypeMapping constant selects. */
  function KindOf(t: TypeMapping): MapperKind
  {
    match t
    case Ascii => AsciiString
    case Utf8 => Utf8String
    case Hex => HexBytes
    case Base64 => Base64Bytes
    case Base64WithPrefix => Base64PrefixBytes
  }

  /** getMapperByType(typeName, columnName): the type mapping is looked up
      with the exact type name; a missing entry gives the dummy mapper. */
  function MapperByType(typeMappers: map<JString, TypeMapping>, typeName: JString, columnName: JString): (m: ColumnMapper)
    ensures m.columnName == columnName
    ensures typeName !in typeMappers ==> m.kind == DummyString
    ensures typeName in typeMappers ==> m.kind == KindOf(typeMappers[typeName])
  {
    if typeName !in typeMappers then ColumnMapper(DummyString, columnName)
    else ColumnMapper(KindOf(typeMappers[typeName]), columnName)
  }

  /** buildMappers(resultSet): the loop over columns 1..getColumnCount(). */
  method BuildMappers(typeMappers: map<JString, TypeMapping>, columns: seq<ColumnMeta>) returns (result: seq<ColumnMapper>)
    ensures |result| == |columns|
    ensures forall i :: 0 <= i < |columns| ==>
      result[i] == MapperByType(typeMappers, columns[i].typeName, columns[i].columnName)
  {
    result := [];
    for index := 0 to |columns|
      invariant |result| == index
      invariant forall i :: 0 <= i < index ==>
        result[i] == MapperByType(typeMappers, columns[i].typeName, columns[i].columnName)
    {
      var typeName := columns[index].typeName;
      var columnName := columns[index].columnName;
      var mapper := MapperByType(typeMappers, typeName, columnName);
      result := result + [mapper];
    }
  }

  /** The five mapping constants select five different mappers, none of
      them the dummy one. */
  lemma KindOfInjective(s: TypeMapping, t: TypeMapping)
    ensures KindOf(s) == KindOf(t) <==> s == t
    ensures KindOf(s) != DummyString
  {
  }

  /** The lookup is case-sensitive: a type name that differs from every
      key only in case gets the dummy mapper. */
  lemma LookupIsExact(columnName: JString)
    ensures var upper := Str("VARCHAR");
            var lower := Str("varchar");
            MapperByType(map[upper := Ascii], lower, columnName).kind == DummyString
  {
    assert Str("VARCHAR")[0] != Str("varchar")[0];
  }

  /** A mapper reads the first column carrying its label up to case,
      whatever columns of the same label follow. */
  lemma MapValueReadsFirstColumn(m: ColumnMapper, row: ResultRow, j: nat)
    requires j < |row.columns| && j < |row.values|
    requires SameLabel(row.columns[j].columnName, m.columnName)
    requires forall k :: 0 <= k < j ==> !SameLabel(row.columns[k].columnName, m.columnName)
    ensures ValueOf(row, m.columnName) == row.values[j]
  {
    var i := ColumnIndex(row.columns, m.columnName);
    assert i == j;
  }

  /** Two labels equal up to case find the same column. */
  lemma {:induction false} ColumnIndexIgnoresCase(columns: seq<ColumnMeta>, a: JString, b: JString)
    requires SameLabel(a, b)
    ensures ColumnIndex(columns, a) == ColumnIndex(columns, b)
  {
    if columns != [] {
      ColumnIndexIgnoresCase(columns[1..], a, b);
    }
  }

  /** Reading a column by its upper-cased label gives the same value as
      reading it by the label itself. */
  lemma ValueOfIgnoresCase(row: ResultRow, name: JString)
    ensures ValueOf(row, ToUpperAscii(name)) == ValueOf(row, name)
  {
    assert SameLabel(ToUpperAscii(name), name) by {
      LowerOfUpper(name);
    }
    ColumnIndexIgnoresCase(row.columns, ToUpperAscii(name), name);
  }

  /** Columns `ID` and `id`: both labels read the first column. */
  lemma DuplicateLabelsReadFirst(v: Option<SqlValue>, w: Option<SqlValue>, t: JString)
    ensures var row := ResultRow([ColumnMeta(t, Str("ID")), ColumnMeta(t, Str("id"))], [v, w]);
            ValueOf(row, Str("id")) == v && ValueOf(row, Str("ID")) == v
  {
    var row := ResultRow([ColumnMeta(t, Str("ID")), ColumnMeta(t, Str("id"))], [v, w]);
    assert ToLowerAscii(Str("ID")) == ToLowerAscii(Str("id")) by {
      assert Str("ID")[0] as int == 'I' as int && Str("ID")[1] as int == 'D' as int;
      assert Str("id")[0] as int == 'i' as int && Str("id")[1] as int == 'd' as int;
    }
    assert ColumnIndex(row.columns, Str("id")) == 0;
    assert ColumnIndex(row.columns, Str("ID")) == 0;
  }
}
