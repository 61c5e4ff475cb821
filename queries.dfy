/** The value types shared by the pipeline: a statement with its optional
    target table (both worker/Query.java and worker/query/Query.java carry
    exactly these two fields), and the configuration enumerations. */
module Queries {
  import opened JavaText
  import opened Results

  /** A SQL statement and the table its rows belong to (null when no
      `-- table` comment named one). */
  datatype Query = Query(tableName: Option<JString>, queryText: JString)

  /** config/NoTableMode.java */
  datatype NoTableMode = ErrorMode | TemplateMode

  /** config/TableNameCase.java */
  datatype TableNameCase = Upper | Lower

  /** config/TypeMapping.java, together with the BASE64_WITH_PREFIX constant
      that mapper/MapperBuilder.java switches on. */
  datatype TypeMapping = Ascii | Utf8 | Hex | Base64 | Base64WithPrefix

  /** Enum.toString() of a TypeMapping constant. */
  function TypeMappingName(t: TypeMapping): JString
  {
    match t
    case Ascii => Str("ASCII")
    case Utf8 => Str("UTF8")
    case Hex => Str("HEX")
    case Base64 => Str("BASE64")
    case Base64WithPrefix => Str("BASE64_WITH_PREFIX")
  }
}
