# dbunit-generator core, modelled in Dafny

The DBUnit dataset generator takes a text of annotated SQL statements.
A `-- TABLE` comment names the table a statement fills, and a `;` ends a statement.
The generator runs each statement against a database and writes the rows it returns as a DBUnit flat XML dataset.
This project models the pipeline from that text to the XML document, together with the two stateful models behind the user interface.

- **Statement splitting.** This covers the query tokenizer's observable behaviour (`Tokenizer`), the token-driven `QueryParser` (`QueryParsing`) and the older line-based `QuerySplitter` (`QuerySplitting`).
- **Statement filtering.** `QueryFilter` (`QueryFiltering`) and the worker's inline copy of it (`WorkerFiltering`) decide for each statement whether it is executed, skipped, refused, or expanded by `QueryTemplate` (`QueryTemplates`). The template expands a table-less `SELECT *` into one query per `FROM`/`JOIN` reference.
- **Column mappers.** These turn one SQL value into attribute text:
  - the XML entity table (`XmlEscaping`);
  - the ASCII and UTF-8 string mappers, each with its numeric character references;
  - the hex and base64 byte mappers;
  - the type-name lookup of `MapperBuilder` (`MapperBuilding`).
- **Row and dataset builders.** These are the worker's `TableRowBuilder`, with its chain of `String.replace` escapes (`ReplaceEscaping`, `RowMarkup`, `WorkerRows`), the `dataset` package's `TableRowBuilder`/`TableRow` (`DatasetRows`), and `DatasetBuilder` (`Datasets`).
- **The background worker.** `BuildDatasetWorker.doInBackground` (`DatasetWorker`) ties these together. Database access is a parameter: a function from statement text to the columns and rows it returns.
- **User-interface models.** `ConnectionParametersTableModel` is the editable parameter table and its Swing row events (`ConnectionParameters`). `MainModel` holds the editor state, the current connection and the listener lists, with the notifications they receive in order (`MainModels`).

Java `char` is `JChar` (0..65535) and a Java `String` is a sequence of them.
A Java reference that may be `null` is an `Option`.
Where the source works step by step (parser fields, builder loops, `StringBuilder` loops, listener lists), the model is a class or a method with loops.
Each such method is proved equal to a specification function, and the properties are proved about that function.

Where the code's behaviour is surprising, the model follows the code:
- `AsciiStringMapper` writes a character at or above U+0100 with four hex digits, so U+03BC becomes `&#x03bc;`, while U+00E9 keeps two (`&#xe9;`).
- The worker's no-executable-query message contains a tab character, as written in the code.
- `TableRowBuilder` replaces `"` before `&`, so a quote in a value is written as `&amp;quot;`. `ReplaceEscaping.ChainDecodes` states what an XML reader then sees.
- The worker applies its own replace chain on top of the mapper's escaping, so a `<` in a string column is written as `&amp;lt;` (`DatasetWorker.StringMappersDoubleEscaped`).

## Model

| member | source | states |
|---|---|---|
| JavaText.Trim | src/main/java/ru/snake/dbunit/generator/worker/parse/QueryParser.java:81 | String.trim: the result has no character up to U+0020 at either end |
| JavaText.TrimSpec | src/main/java/ru/snake/dbunit/generator/worker/parse/QueryParser.java:81 | the trimmed text is a contiguous slice s[i..j] of the input, every character cut off before i or after j is up to U+0020, and the result is empty exactly when every input character is up to U+0020 |
| JavaText.TrimCut | src/main/java/ru/snake/dbunit/generator/worker/parse/QueryParser.java:81 | gives the cut points i <= j of String.trim: the result is s[i..j] and everything outside it is up to U+0020 |
| JavaText.IndexOf | src/main/java/ru/snake/dbunit/generator/worker/query/QueryTemplate.java:83 | String.indexOf(char): -1 exactly when the character is absent, otherwise the first position holding it |
| JavaText.ToUpperAscii | src/main/java/ru/snake/dbunit/generator/worker/BuildDatasetWorker.java:255-256 | the upper-case mapping keeps the length and maps each character on its own |
| JavaText.ToLowerAscii | src/main/java/ru/snake/dbunit/generator/worker/BuildDatasetWorker.java:258-259 | the lower-case mapping keeps the length and maps each character on its own |
| JavaText.CaseMappingIdempotent | src/main/java/ru/snake/dbunit/generator/worker/BuildDatasetWorker.java:254-260 | applying a case mapping twice changes nothing more, and no lower-case letter survives upper-casing (nor upper-case letter lower-casing) |
| JavaText.LowerOfUpper | src/main/java/ru/snake/dbunit/generator/worker/mapper/Base64BytesMapper.java:28 | lower-casing an upper-cased text gives the lower-cased text, so upper-casing keeps a label equal ignoring case |
| JavaText.HexDigit | src/main/java/ru/snake/dbunit/generator/worker/mapper/AsciiStringMapper.java:51-56 | Character.forDigit(d, 16) is a lower-case hex digit whose value is d |
| Results.Ok | src/main/java/ru/snake/dbunit/generator/worker/Result.java:30-32 | ok(v) holds v and no error, is never an error, and is ok exactly when v is non-null |
| Results.Error | src/main/java/ru/snake/dbunit/generator/worker/Result.java:45-47 | error(e) holds e and no value, is never ok, and is an error exactly when e is non-null |
| Results.FactoriesAreExclusive | src/main/java/ru/snake/dbunit/generator/worker/Result.java:57-68 | no result built by a factory is both ok and an error, and ok(null) is neither |
| Tokenizer.TokenizeRoundTrip | src/test/java/ru/snake/dbunit/generator/worker/parse/QueryTokenizerTest.java:43-126 | the token values concatenated give back the input; every token is non-empty, a comment starts with `--` and holds no line break, a separator is exactly `;` |
| Tokenizer.TokenizeSmallCases | src/test/java/ru/snake/dbunit/generator/worker/parse/QueryTokenizerTest.java:18-21 | the empty text gives no tokens and `;` gives one SEMICOLON token |
| Tokenizer.TokenizeCode | src/test/java/ru/snake/dbunit/generator/worker/parse/QueryTokenizerTest.java:24-31 | code with no `;`, quote or `--` is exactly one CODE token holding all of it (none for empty text) |
| Tokenizer.TokenizeComment | src/test/java/ru/snake/dbunit/generator/worker/parse/QueryTokenizerTest.java:33-40 | `--` followed by text without a line break is exactly one COMMENT token holding all of it |
| Tokenizer.TokenizeEscapedLiteral | src/test/java/ru/snake/dbunit/generator/worker/parse/QueryTokenizerTest.java:43-50 | a literal `'x''y'` with a doubled quote inside is exactly one CODE token holding the whole literal |
| Tokenizer.TokenizeCodeLiteralCode | src/test/java/ru/snake/dbunit/generator/worker/parse/QueryTokenizerTest.java:106-117 | code, a closed literal `'x'`, code gives the code's CODE token, the literal as a CODE token of its own, then the second code's CODE token |
| Tokenizer.TokenizeCodeSemicolonCode | src/test/java/ru/snake/dbunit/generator/worker/parse/QueryTokenizerTest.java:94-104 | code `;` code gives the first code as CODE, the `;` as SEMICOLON, the second code as CODE |
| Tokenizer.TokenizeCodeComment | src/test/java/ru/snake/dbunit/generator/worker/parse/QueryTokenizerTest.java:72-81 | code followed by a comment gives the code as CODE and the comment, to the end of the text, as COMMENT |
| Tokenizer.TokenizeCommentCode | src/test/java/ru/snake/dbunit/generator/worker/parse/QueryTokenizerTest.java:83-92 | a comment stops before the line feed: the COMMENT token is `--` and its line, and the CODE token starts with the line feed |
| Tokenizer.TokenizeUnterminatedLiteral | src/test/java/ru/snake/dbunit/generator/worker/parse/QueryTokenizerTest.java:119-126 | a literal whose last quote is doubled (`'x''`) never closes and is one CODE token to the end of the text |
| Tokenizer.ClosedLiteral | src/test/java/ru/snake/dbunit/generator/worker/parse/QueryTokenizerTest.java:106-117 | a quote-free literal body closes at its second quote when no quote follows it |
| Tokenizer.PlainSpan | src/test/java/ru/snake/dbunit/generator/worker/parse/QueryTokenizerTest.java:24-31 | plain code inside the text is passed over without emitting a token |
| QueryParsing.TableNameOf | src/main/java/ru/snake/dbunit/generator/worker/parse/QueryParser.java:80-86 | a table name exists exactly when a comment was seen, and it is trimmed |
| QueryParsing.Finish | src/main/java/ru/snake/dbunit/generator/worker/parse/QueryParser.java:79-90 | finalising emits at most one statement, none exactly when the trimmed buffer is empty; its text is non-empty and trimmed and its table name, if any, trimmed |
| QueryParsing.FirstComment | src/main/java/ru/snake/dbunit/generator/worker/parse/QueryParser.java:103-107 | the recorded comment is the value of a COMMENT token, and there is none only when no COMMENT token occurs |
| QueryParsing.QueryParser.constructor | src/main/java/ru/snake/dbunit/generator/worker/parse/QueryParser.java:32-39 | a new parser has no statements, an empty buffer, no comment and position 0 |
| QueryParsing.QueryParser.Parse | src/main/java/ru/snake/dbunit/generator/worker/parse/QueryParser.java:46-73 | appends the statements of the remaining tokens (the last one emitted even without `;`) and ends at the end of the tokens with buffer and comment cleared |
| QueryParsing.QueryParser.Visit | src/main/java/ru/snake/dbunit/generator/worker/parse/QueryParser.java:47-61 | handling one token advances the position by one and keeps the statements emitted plus those the rest would emit unchanged |
| QueryParsing.QueryParser.PushQuery | src/main/java/ru/snake/dbunit/generator/worker/parse/QueryParser.java:79-94 | appends the finalised buffer (zero or one statement) and always clears buffer and comment |
| QueryParsing.QueryParser.VisitComment | src/main/java/ru/snake/dbunit/generator/worker/parse/QueryParser.java:103-107 | only the first comment of a statement is recorded |
| QueryParsing.QueryParser.VisitQueryText | src/main/java/ru/snake/dbunit/generator/worker/parse/QueryParser.java:115-117 | a CODE token's text is appended verbatim to the buffer |
| QueryParsing.ParseText | src/main/java/ru/snake/dbunit/generator/worker/parse/QueryParser.java:141-145 | parse(text) is the parse of the tokens of text |
| QueryParsing.PrefixParse | src/main/java/ru/snake/dbunit/generator/worker/parse/QueryParser.java:47-61 | tokens without `;` only extend the buffer by their code text and fill the comment slot when it is empty |
| QueryParsing.StatementParse | src/main/java/ru/snake/dbunit/generator/worker/parse/QueryParser.java:47-70 | a trailing statement without `;` is emitted at the end of the tokens |
| QueryParsing.SemicolonStep | src/main/java/ru/snake/dbunit/generator/worker/parse/QueryParser.java:59-61 | a `;` emits the pending statement and the rest is parsed from a clean state |
| QueryParsing.ParseFromStep | src/main/java/ru/snake/dbunit/generator/worker/parse/QueryParser.java:47-61 | a CODE token extends the buffer, a COMMENT token fills an empty comment slot, and a `;` emits the pending statement before the rest is parsed from a clean state |
| QueryParsing.SeparatorSplits | src/main/java/ru/snake/dbunit/generator/worker/parse/QueryParser.java:59-61 | a `;` finalises the statement before it, and the tokens after it are parsed from a clean state, so no comment leaks into the next statement |
| QueryParsing.ParsedQueriesTrimmed | src/main/java/ru/snake/dbunit/generator/worker/parse/QueryParser.java:81-89 | every emitted statement text is non-empty and trimmed, and so is every table name |
| QueryParsing.ParserExamplesEmpty | src/test/java/ru/snake/dbunit/generator/worker/parse/QueryParserTest.java:21-25 | no tokens, and two `;` tokens, give no statements |
| QueryParsing.SingleCodeToken | src/main/java/ru/snake/dbunit/generator/worker/parse/QueryParser.java:79-90 | one trimmed non-empty CODE token gives one statement without table name |
| QueryParsing.FinishExample | src/test/java/ru/snake/dbunit/generator/worker/parse/QueryParserTest.java:37-43 | the comment `-- table_a` names the statement `table_a` and the text is trimmed |
| QueryParsing.ParserExampleTwoStatements | src/test/java/ru/snake/dbunit/generator/worker/parse/QueryParserTest.java:53-61 | the comment names only the first of two statements |
| QueryParsing.ParserExampleNoComment | src/test/java/ru/snake/dbunit/generator/worker/parse/QueryParserTest.java:28-34 | a statement without comment has no table name |
| QuerySplitting.RunEnd | src/main/java/ru/snake/dbunit/generator/worker/QuerySplitter.java:19 | the end of a run of CR/LF characters |
| QuerySplitting.PiecesFrom | src/main/java/ru/snake/dbunit/generator/worker/QuerySplitter.java:19 | the pieces between runs of line breaks hold no line break and only the first and last may be empty |
| QuerySplitting.DropTrailingEmpty | src/main/java/ru/snake/dbunit/generator/worker/QuerySplitter.java:19 | split drops trailing empty pieces and only those |
| QuerySplitting.SplitLinesShape | src/main/java/ru/snake/dbunit/generator/worker/QuerySplitter.java:19 | no line holds a line break and only the first may be empty, so blank lines never reach a body |
| QuerySplitting.QuerySplitter.constructor | src/main/java/ru/snake/dbunit/generator/worker/QuerySplitter.java:10-12 | stores the text |
| QuerySplitting.QuerySplitter.Split | src/main/java/ru/snake/dbunit/generator/worker/QuerySplitter.java:14-35 | the loop computes the fold of the line-by-line step over the split lines |
| QuerySplitting.RunMeaning | src/main/java/ru/snake/dbunit/generator/worker/QuerySplitter.java:16-31 | one query per `;` line, the table name is the last one set by a `-- ` line (never reset), and the pending body is what followed the last `;` |
| QuerySplitting.RunExtends | src/main/java/ru/snake/dbunit/generator/worker/QuerySplitter.java:20-25 | emitted queries are never changed by later lines |
| QuerySplitting.EmittedQuery | src/main/java/ru/snake/dbunit/generator/worker/QuerySplitter.java:20-31 | the `;` line at index j emits the table name last set before it, upper-cased, and every other line since the previous `;` followed by a newline |
| QueryFiltering.NoTableError | src/main/java/ru/snake/dbunit/generator/worker/QueryFilter.java:66-73 | the error is the fixed message followed by the query text |
| QueryFiltering.Outcome | src/main/java/ru/snake/dbunit/generator/worker/QueryFilter.java:56-76 | each statement's outcome is either ok or an error, never both |
| QueryFiltering.FilterSpec | src/main/java/ru/snake/dbunit/generator/worker/QueryFilter.java:52-80 | the filter's result is either ok or an error |
| QueryFiltering.Prepend | src/main/java/ru/snake/dbunit/generator/worker/QueryFilter.java:65-75 | queries kept before an ok tail go in front of it; an error passes through unchanged |
| QueryFiltering.QueryFilter.constructor | src/main/java/ru/snake/dbunit/generator/worker/QueryFilter.java:36-40 | stores mode, template name and skip prefix |
| QueryFiltering.QueryFilter.Filter | src/main/java/ru/snake/dbunit/generator/worker/QueryFilter.java:52-80 | the loop with early returns computes the filter's specification |
| QueryFiltering.PrependNothing | src/main/java/ru/snake/dbunit/generator/worker/QueryFilter.java:53 | with nothing kept the tail result is unchanged |
| QueryFiltering.PrependTwice | src/main/java/ru/snake/dbunit/generator/worker/QueryFilter.java:65-75 | keeping a then b is keeping a + b |
| QueryFiltering.FilterSplit | src/main/java/ru/snake/dbunit/generator/worker/QueryFilter.java:55-79 | filtering a + b stops at an error in a, and otherwise puts a's output before b's |
| QueryFiltering.SkippedQueryVanishes | src/main/java/ru/snake/dbunit/generator/worker/QueryFilter.java:56-57 | removing a skipped statement from anywhere in the list leaves the result unchanged |
| QueryFiltering.FirstErrorWins | src/main/java/ru/snake/dbunit/generator/worker/QueryFilter.java:61-73 | the filter fails exactly when some statement fails, and then with the error of the first failing statement |
| QueryFiltering.OutcomeNamed | src/main/java/ru/snake/dbunit/generator/worker/QueryFilter.java:66-76 | every query a statement contributes has a table name |
| QueryFiltering.FilteredQueriesNamed | src/main/java/ru/snake/dbunit/generator/worker/QueryFilter.java:52-80 | every query of an ok result has a non-null table name |
| QueryFiltering.PlainQueriesPassThrough | src/main/java/ru/snake/dbunit/generator/worker/QueryFilter.java:74-76 | named queries that are neither skipped nor templates come out unchanged and in order |
| QueryFiltering.FilterSmallCases | src/main/java/ru/snake/dbunit/generator/worker/QueryFilter.java:53-79 | empty input gives ok(empty); a nameless query fails with the embedded text unless the mode is TEMPLATE, where it is expanded; a skip-prefixed name gives ok(empty) |
| QueryTemplates.WordEnd | src/main/java/ru/snake/dbunit/generator/worker/query/QueryTemplate.java:38-39 | the end of a maximal run of `\w` characters |
| QueryTemplates.SpaceEnd | src/main/java/ru/snake/dbunit/generator/worker/query/QueryTemplate.java:31-39 | the end of a maximal run of `\s` characters |
| QueryTemplates.FindGuard | src/main/java/ru/snake/dbunit/generator/worker/query/QueryTemplate.java:77-81 | find() of a guard pattern succeeds exactly when the pattern matches at some position |
| QueryTemplates.QualifiedNameEnd | src/main/java/ru/snake/dbunit/generator/worker/query/QueryTemplate.java:38-39 | the end of `\w+(\.\w+)?` lies within the text |
| QueryTemplates.TableAt | src/main/java/ru/snake/dbunit/generator/worker/query/QueryTemplate.java:38-39 | a table match at i starts at i and is non-empty |
| QueryTemplates.FindTable | src/main/java/ru/snake/dbunit/generator/worker/query/QueryTemplate.java:96 | find() returns the leftmost table match at or after the position, or none when no position matches |
| QueryTemplates.AllTablesBounds | src/main/java/ru/snake/dbunit/generator/worker/query/QueryTemplate.java:94-108 | the matches repeated find() returns start at or after the search position, are non-empty and lie in the text |
| QueryTemplates.BuildQuery | src/main/java/ru/snake/dbunit/generator/worker/query/QueryTemplate.java:176-189 | the built query is named by the table and its text is left + id + `.*` + right |
| QueryTemplates.QueriesFor | src/main/java/ru/snake/dbunit/generator/worker/query/QueryTemplate.java:93-109 | one query per match |
| QueryTemplates.GenerateSpec | src/main/java/ru/snake/dbunit/generator/worker/query/QueryTemplate.java:76-116 | the result is either ok or an error, and an ok result is non-empty |
| QueryTemplates.QueryTemplate.constructor | src/main/java/ru/snake/dbunit/generator/worker/query/QueryTemplate.java:66-68 | stores the query text |
| QueryTemplates.QueryTemplate.Generate | src/main/java/ru/snake/dbunit/generator/worker/query/QueryTemplate.java:76-116 | the loops over guards and table patterns compute the template specification |
| QueryTemplates.QueryTemplate.FindSubquery | src/main/java/ru/snake/dbunit/generator/worker/query/QueryTemplate.java:77-81 | the guard loop reports a subquery exactly when one of the guard patterns matches somewhere |
| QueryTemplates.QueryTemplate.ExpandAll | src/main/java/ru/snake/dbunit/generator/worker/query/QueryTemplate.java:93-109 | the FROM loop then the JOIN loop give one query per table reference, in that order |
| QueryTemplates.QueryTemplate.FindAll | src/main/java/ru/snake/dbunit/generator/worker/query/QueryTemplate.java:94-108 | the matcher loop of one table pattern yields one query per match, left to right |
| QueryTemplates.GenerateFor | src/main/java/ru/snake/dbunit/generator/worker/query/QueryTemplate.java:198-200 | generate(query) works on the query's text |
| QueryTemplates.NoGuardFound | src/main/java/ru/snake/dbunit/generator/worker/query/QueryTemplate.java:77-81 | when no guard pattern is found the query has no subquery |
| QueryTemplates.QueriesForIndex | src/main/java/ru/snake/dbunit/generator/worker/query/QueryTemplate.java:96-107 | output k is built from match k |
| QueryTemplates.QueriesForAppend | src/main/java/ru/snake/dbunit/generator/worker/query/QueryTemplate.java:93-109 | the outputs of two groups of matches are concatenated in order |
| QueryTemplates.GenerateOutcome | src/main/java/ru/snake/dbunit/generator/worker/query/QueryTemplate.java:77-115 | a guard match gives the subquery error before anything else; no `*` gives the placeholder error; otherwise the result is ok exactly when a table reference exists, with one query per reference, and the NO-table error otherwise |
| QueryTemplates.QueryForRestores | src/main/java/ru/snake/dbunit/generator/worker/query/QueryTemplate.java:83-91 | each output text is the original with its first `*` replaced by id + `.*`, and putting `*` back restores the original |
| QueryTemplates.GeneratedQueries | src/main/java/ru/snake/dbunit/generator/worker/query/QueryTemplate.java:83-115 | an ok result has one query per FROM/JOIN reference in order, named by capture group 1 and with the id spliced at the first `*` |
| QueryTemplates.GeneratedList | src/main/java/ru/snake/dbunit/generator/worker/query/QueryTemplate.java:83-115 | an ok result means the template has a `*`, and its list is the queries built at the first `*` for the table references |
| QueryTemplates.GenerateOneTable | src/test/java/ru/snake/dbunit/generator/worker/query/QueryTemplateTest.java:55-63 | a one-table template (`* from t`) is ok and gives exactly one query, `t.* from t`, naming table `t`; the test's own text is longer but has the same shape |
| QueryTemplates.OneTableReferences | src/main/java/ru/snake/dbunit/generator/worker/query/QueryTemplate.java:38-39 | in `* from t` the FROM pattern matches once, at `from`, taking table `t` with no alias, and the JOIN pattern never matches |
| QueryTemplates.OneTableFrom | src/main/java/ru/snake/dbunit/generator/worker/query/QueryTemplate.java:38 | the first FROM match in `* from t` starts at `from` and ends after `t` |
| QueryTemplates.SingleFromTemplate | src/main/java/ru/snake/dbunit/generator/worker/query/QueryTemplate.java:83-115 | a template that starts with `*`, has no subquery, has exactly one FROM match m and no JOIN match is ok and gives exactly the one query built for m |
| QueryTemplates.GenerateAlias | src/test/java/ru/snake/dbunit/generator/worker/query/QueryTemplateTest.java:75-83 | with a bare alias (`* from t a`) the result is ok with one query, `a.* from t a`, naming table `t`; the test's text is longer but has the same shape |
| QueryTemplates.GenerateAsAlias | src/test/java/ru/snake/dbunit/generator/worker/query/QueryTemplateTest.java:95-103 | with an `as` alias (`* from t as a`) the result is ok with one query, `a.* from t as a`, naming table `t` |
| QueryTemplates.GenerateKeywordAlias | src/test/java/ru/snake/dbunit/generator/worker/query/QueryTemplateTest.java:115-123 | when the word after the table is the keyword `where` (`* from t where`), it is not taken as an alias: the one query is `t.* from t where`, naming table `t` |
| QueryTemplates.AliasSelected | src/main/java/ru/snake/dbunit/generator/worker/query/QueryTemplate.java:101-105 | a reference with the alias `a`, which is no SQL keyword, selects `a` |
| QueryTemplates.KeywordAliasSelected | src/main/java/ru/snake/dbunit/generator/worker/query/QueryTemplate.java:101-105 | a reference whose alias is `where`, an SQL keyword, selects its table name |
| QueryTemplates.NoSubqueryWithoutParen | src/main/java/ru/snake/dbunit/generator/worker/query/QueryTemplate.java:31-34 | a text with no `(`, in which every `w` or `W` is followed by a character other than `i` or `I`, matches none of the four subquery/CTE patterns |
| QueryTemplates.ExpandedQueries | src/main/java/ru/snake/dbunit/generator/worker/query/QueryTemplate.java:93-109 | for any list of references, query k names table k and carries its id spliced at the `*`, and removing the id gives the template back |
| QueryTemplates.GeneratedIdRule | src/main/java/ru/snake/dbunit/generator/worker/query/QueryTemplate.java:96-110 | in an ok result, query k names reference k's table and replaces the `*` with `<alias>.*` when the reference has an alias that, lower-cased, is none of the SQL keywords, and with `<table>.*` otherwise |
| QueryTemplates.QualifiedNameTaken | src/main/java/ru/snake/dbunit/generator/worker/query/QueryTemplate.java:38-39 | capture group 1 is a word with an optional `.word` qualifier |
| QueryTemplates.TableAtCaptures | src/main/java/ru/snake/dbunit/generator/worker/query/QueryTemplate.java:38-39 | a match starts with the keyword, names a qualified table and a word alias |
| QueryTemplates.AllTablesOrdered | src/main/java/ru/snake/dbunit/generator/worker/query/QueryTemplate.java:96 | repeated find() yields genuine matches, in increasing order and without overlap |
| QueryTemplates.AllTablesComplete | src/main/java/ru/snake/dbunit/generator/worker/query/QueryTemplate.java:96 | every position where the pattern matches lies inside one of the matches found |
| QueryTemplates.ErrorsQuoteTheQuery | src/main/java/ru/snake/dbunit/generator/worker/query/QueryTemplate.java:123-161 | every template error ends with `Query:` and a newline followed by the original text |
| XmlEscaping.EscapeChar | src/main/java/ru/snake/dbunit/generator/worker/mapper/XmlEscape.java:19-55 | escapeChar is non-null exactly when isEscapeableChar holds, and then it is an entity |
| XmlEscaping.HexRef2 | src/main/java/ru/snake/dbunit/generator/worker/mapper/Utf8StringMapper.java:47-51 | a two-digit numeric reference is six characters long |
| XmlEscaping.HexRef4 | src/main/java/ru/snake/dbunit/generator/worker/mapper/AsciiStringMapper.java:47-57 | a four-digit numeric reference is eight characters long |
| XmlEscaping.DecodeNamed | src/main/java/ru/snake/dbunit/generator/worker/mapper/XmlEscape.java:40-51 | each named entity decodes back to its character |
| XmlEscaping.HexRefsNoMarkup | src/main/java/ru/snake/dbunit/generator/worker/mapper/AsciiStringMapper.java:47-57 | numeric references contain none of the five markup characters |
| XmlEscaping.DecodeHexRef2 | src/main/java/ru/snake/dbunit/generator/worker/mapper/Utf8StringMapper.java:47-51 | a two-digit reference decodes back to its character |
| XmlEscaping.DecodeHexRef4 | src/main/java/ru/snake/dbunit/generator/worker/mapper/AsciiStringMapper.java:50-56 | a four-digit reference decodes back to its character |
| AsciiStringMapping.AsciiEscapeChar | src/main/java/ru/snake/dbunit/generator/worker/mapper/AsciiStringMapper.java:47-69 | every character produces some output |
| AsciiStringMapping.EscapeNonAscii | src/main/java/ru/snake/dbunit/generator/worker/mapper/AsciiStringMapper.java:43-74 | the character loop computes the per-character escape of the whole value |
| AsciiStringMapping.MapAscii | src/main/java/ru/snake/dbunit/generator/worker/mapper/AsciiStringMapper.java:26-33 | an SQL NULL maps to null, any other value to its escape |
| AsciiStringMapping.AsciiEscapeAppend | src/main/java/ru/snake/dbunit/generator/worker/mapper/AsciiStringMapper.java:46-71 | escaping distributes over concatenation |
| AsciiStringMapping.AsciiEscapeIsAscii | src/main/java/ru/snake/dbunit/generator/worker/mapper/AsciiStringMapper.java:47-69 | every output character is in 32..127 |
| AsciiStringMapping.AsciiEscapeNoMarkup | src/main/java/ru/snake/dbunit/generator/worker/mapper/AsciiStringMapper.java:47-69 | the output contains none of the five markup characters |
| AsciiStringMapping.AsciiEscapeRoundTrip | src/main/java/ru/snake/dbunit/generator/worker/mapper/AsciiStringMapper.java:46-71 | decoding the entities and character references of the output with `Unescape` gives back the input |
| AsciiStringMapping.AsciiEscapeInjective | src/main/java/ru/snake/dbunit/generator/worker/mapper/AsciiStringMapper.java:46-71 | different inputs give different outputs |
| AsciiStringMapping.AsciiEscapeExamples | src/main/java/ru/snake/dbunit/generator/worker/mapper/AsciiStringMapper.java:50-56 | U+03BC becomes `&#x03bc;`, U+00E9 becomes `&#xe9;`, and 127 is copied |
| Utf8StringMapping.Utf8EscapeChar | src/main/java/ru/snake/dbunit/generator/worker/mapper/Utf8StringMapper.java:47-63 | every character produces some output |
| Utf8StringMapping.EscapeControl | src/main/java/ru/snake/dbunit/generator/worker/mapper/Utf8StringMapper.java:43-68 | the character loop computes the per-character escape of the whole value |
| Utf8StringMapping.MapUtf8 | src/main/java/ru/snake/dbunit/generator/worker/mapper/Utf8StringMapper.java:26-33 | an SQL NULL maps to null, any other value to its escape |
| Utf8StringMapping.Utf8EscapeAppend | src/main/java/ru/snake/dbunit/generator/worker/mapper/Utf8StringMapper.java:46-65 | escaping distributes over concatenation |
| Utf8StringMapping.Utf8EscapeNoControl | src/main/java/ru/snake/dbunit/generator/worker/mapper/Utf8StringMapper.java:47-63 | the output contains no character below 32 |
| Utf8StringMapping.Utf8EscapeNoMarkup | src/main/java/ru/snake/dbunit/generator/worker/mapper/Utf8StringMapper.java:47-63 | the output contains none of the five markup characters |
| Utf8StringMapping.Utf8EscapeRoundTrip | src/main/java/ru/snake/dbunit/generator/worker/mapper/Utf8StringMapper.java:46-65 | decoding the entities and character references of the output with `Unescape` gives back the input |
| Utf8StringMapping.Utf8EscapeExamples | src/main/java/ru/snake/dbunit/generator/worker/mapper/Utf8StringMapper.java:47-63 | TAB becomes `&#x09;`, while U+03BC and 127 are copied |
| HexBytesMapping.HighNibble | src/main/java/ru/snake/dbunit/generator/worker/mapper/HexBytesMapper.java:47 | `(b >> 4) & 0x0f` is a nibble |
| HexBytesMapping.LowNibble | src/main/java/ru/snake/dbunit/generator/worker/mapper/HexBytesMapper.java:48 | `b & 0x0f` is a nibble |
| HexBytesMapping.HexPair | src/main/java/ru/snake/dbunit/generator/worker/mapper/HexBytesMapper.java:47-48 | each byte gives two hex digits |
| HexBytesMapping.HexEncodeBytes | src/main/java/ru/snake/dbunit/generator/worker/mapper/HexBytesMapper.java:43-52 | the byte loop computes the hex encoding |
| HexBytesMapping.MapHex | src/main/java/ru/snake/dbunit/generator/worker/mapper/HexBytesMapper.java:26-33 | an SQL NULL maps to null, any other value to its hex encoding |
| HexBytesMapping.NibblesRebuild | src/main/java/ru/snake/dbunit/generator/worker/mapper/HexBytesMapper.java:47-48 | the two nibbles give back the unsigned value of the byte, and so the signed byte |
| HexBytesMapping.HexEncodeShape | src/main/java/ru/snake/dbunit/generator/worker/mapper/HexBytesMapper.java:44-49 | the output is exactly twice as long as the input and holds only lower-case hex digits |
| HexBytesMapping.HexRoundTrip | src/main/java/ru/snake/dbunit/generator/worker/mapper/HexBytesMapper.java:46-49 | hex-decoding the output gives back the bytes, so the encoding is injective |
| HexBytesMapping.HexExamples | src/main/java/ru/snake/dbunit/generator/worker/mapper/HexBytesMapper.java:47-48 | the bytes -1, 0, 127 encode as `ff007f` |
| Base64Mapping.Unsigned | src/main/java/ru/snake/dbunit/generator/worker/mapper/Base64PrefixBytesMapper.java:33 | a Java byte read as unsigned lies in 0..255 |
| Base64Mapping.Base64Char | src/main/java/ru/snake/dbunit/generator/worker/mapper/Base64PrefixBytesMapper.java:33 | every 6-bit value maps to a character of the base64 alphabet |
| Base64Mapping.Quantum | src/main/java/ru/snake/dbunit/generator/worker/mapper/Base64PrefixBytesMapper.java:33 | every quantum is four characters: the first k from the alphabet, the rest `=` padding |
| Base64Mapping.Base64Encode | src/main/java/ru/snake/dbunit/generator/worker/mapper/Base64PrefixBytesMapper.java:33 | the output has 4 characters per started group of 3 bytes, all from the alphabet or `=` |
| Base64Mapping.MapBase64 | src/main/java/ru/snake/dbunit/generator/worker/mapper/Base64BytesMapper.java:27-36 | an SQL NULL maps to null, and any other value to `Base64Encode` of its bytes, a text of the Base64 alphabet whose length is a multiple of 4 |
| Base64Mapping.MapBase64Prefix | src/main/java/ru/snake/dbunit/generator/worker/mapper/Base64PrefixBytesMapper.java:27-36 | an SQL NULL maps to null, any other value to `[BASE64]` followed by the encoding |
| Base64Mapping.Base64Examples | src/main/java/ru/snake/dbunit/generator/worker/mapper/Base64PrefixBytesMapper.java:33 | `f`, `fo` and `foo` encode as `Zg==`, `Zm8=` and `Zm9v` |
| MapperBuilding.ColumnIndex | src/main/java/ru/snake/dbunit/generator/worker/mapper/AsciiStringMapper.java:27 | the JDBC column label lookup finds the first column whose label equals the name ignoring case, and no earlier column matches |
| MapperBuilding.ValueOf | src/main/java/ru/snake/dbunit/generator/worker/mapper/AsciiStringMapper.java:27-29 | a mapper reads the value of the first column whose label matches its name ignoring case, and null when no column matches |
| MapperBuilding.StringOf | src/main/java/ru/snake/dbunit/generator/worker/mapper/AsciiStringMapper.java:27-29 | a string read is null exactly when the SQL value is NULL |
| MapperBuilding.BytesOf | src/main/java/ru/snake/dbunit/generator/worker/mapper/HexBytesMapper.java:27-29 | a byte read is null exactly when the SQL value is NULL |
| MapperBuilding.MapValue | src/main/java/ru/snake/dbunit/generator/worker/mapper/ColumnMapper.java:16-25 | every mapper maps NULL, and only NULL, to null |
| MapperBuilding.MapperByType | src/main/java/ru/snake/dbunit/generator/worker/mapper/MapperBuilder.java:66-91 | the mapper is bound to the column name; an unmapped type name gives the Dummy mapper, a mapped one the mapper of its kind |
| MapperBuilding.BuildMappers | src/main/java/ru/snake/dbunit/generator/worker/mapper/MapperBuilder.java:42-55 | one mapper per column, in column order, each chosen by that column's type name |
| MapperBuilding.KindOfInjective | src/main/java/ru/snake/dbunit/generator/worker/mapper/MapperBuilder.java:73-87 | each of the five type mappings selects its own mapper, none of them Dummy |
| MapperBuilding.LookupIsExact | src/main/java/ru/snake/dbunit/generator/worker/mapper/MapperBuilder.java:67 | the lookup is case-sensitive: `varchar` does not find a `VARCHAR` entry |
| MapperBuilding.MapValueReadsFirstColumn | src/main/java/ru/snake/dbunit/generator/worker/mapper/AsciiStringMapper.java:27 | with column labels equal up to case, the first one is read |
| MapperBuilding.ColumnIndexIgnoresCase | src/main/java/ru/snake/dbunit/generator/worker/mapper/Base64BytesMapper.java:28 | two names equal ignoring case find the same column |
| MapperBuilding.ValueOfIgnoresCase | src/main/java/ru/snake/dbunit/generator/worker/mapper/Base64BytesMapper.java:28 | reading by the upper-cased name gives the same value as reading by the name |
| MapperBuilding.DuplicateLabelsReadFirst | src/main/java/ru/snake/dbunit/generator/worker/mapper/AsciiStringMapper.java:27 | with columns `ID` then `id`, both `id` and `ID` read the value of `ID` |
| ReplaceEscaping.ReplaceAppend | src/main/java/ru/snake/dbunit/generator/worker/TableRowBuilder.java:77 | String.replace distributes over concatenation |
| ReplaceEscaping.ReplaceAbsent | src/main/java/ru/snake/dbunit/generator/worker/TableRowBuilder.java:77 | replacing an absent character changes nothing |
| ReplaceEscaping.ChainAppend | src/main/java/ru/snake/dbunit/generator/worker/TableRowBuilder.java:75-84 | the replace chain distributes over concatenation |
| ReplaceEscaping.ChainQuote | src/main/java/ru/snake/dbunit/generator/worker/TableRowBuilder.java:77-78 | because `"` is replaced before `&`, `"` becomes `&amp;quot;` |
| ReplaceEscaping.ChainOther | src/main/java/ru/snake/dbunit/generator/worker/TableRowBuilder.java:78-81 | any other character is escaped as XmlEscape names it, or copied |
| ReplaceEscaping.ChainIsPerChar | src/main/java/ru/snake/dbunit/generator/worker/TableRowBuilder.java:75-84 | the five whole-string replaces act as one per-character escape |
| ReplaceEscaping.ChainNoMarkup | src/main/java/ru/snake/dbunit/generator/worker/TableRowBuilder.java:75-84 | the output contains none of `"`, `'`, `<`, `>`, so it cannot end the attribute value |
| ReplaceEscaping.ChainDecodes | src/main/java/ru/snake/dbunit/generator/worker/TableRowBuilder.java:75-84 | XML-decoding the output gives the input with each `"` turned into the text `&quot;`, so the chain is not inverted by decoding |
| RowMarkup.AttributesIgnoreExtraValues | src/main/java/ru/snake/dbunit/generator/worker/dataset/TableRow.java:64-70 | values beyond the number of column names are never read |
| RowMarkup.AttributesStep | src/main/java/ru/snake/dbunit/generator/worker/TableRowBuilder.java:55-61 | each loop iteration appends the next ` name="esc(value)"` |
| RowMarkup.RowXmlEmpty | src/main/java/ru/snake/dbunit/generator/worker/TableRowBuilder.java:52-53 | with no columns the row is `<T />` |
| RowMarkup.RowXmlPush | src/main/java/ru/snake/dbunit/generator/worker/TableRowBuilder.java:40-66 | a pushed pair adds one attribute at the end, with no merging of duplicate names |
| RowMarkup.AttributeShape | src/main/java/ru/snake/dbunit/generator/worker/TableRowBuilder.java:56-60 | an attribute is ` name="`, the escaped value without raw quotes, and a closing quote; names are not escaped |
| WorkerRows.TableRowBuilder.constructor | src/main/java/ru/snake/dbunit/generator/worker/TableRowBuilder.java:26-30 | a new builder has the table name and no pairs |
| WorkerRows.TableRowBuilder.Push | src/main/java/ru/snake/dbunit/generator/worker/TableRowBuilder.java:40-43 | push appends to both lists, keeping them the same length |
| WorkerRows.TableRowBuilder.Build | src/main/java/ru/snake/dbunit/generator/worker/TableRowBuilder.java:50-66 | build returns `<T`, one attribute per pushed pair in push order, then ` />`, and changes nothing |
| DatasetRows.StringList.constructor | src/main/java/ru/snake/dbunit/generator/worker/dataset/TableRowBuilder.java:29-30 | a new list is empty |
| DatasetRows.StringList.Add | src/main/java/ru/snake/dbunit/generator/worker/dataset/TableRowBuilder.java:42-43 | add appends one element |
| DatasetRows.TableRow.constructor | src/main/java/ru/snake/dbunit/generator/worker/dataset/TableRow.java:29-33 | the row keeps the table name and the very lists it is given |
| DatasetRows.TableRow.ToXmlString | src/main/java/ru/snake/dbunit/generator/worker/dataset/TableRow.java:59-75 | `<T`, one attribute per column in order, then ` />`, without indentation or newline; fewer values than columns is the list-index exception |
| DatasetRows.AppendAttributeText | src/main/java/ru/snake/dbunit/generator/worker/dataset/TableRow.java:64-70 | one pass of the column loop appends ` name="` + escaped value + `"` |
| DatasetRows.TableRowBuilder.constructor | src/main/java/ru/snake/dbunit/generator/worker/dataset/TableRowBuilder.java:27-31 | a new builder has the table name and two fresh empty lists |
| DatasetRows.TableRowBuilder.Push | src/main/java/ru/snake/dbunit/generator/worker/dataset/TableRowBuilder.java:41-44 | push appends one pair, keeping the lists parallel |
| DatasetRows.TableRowBuilder.Build | src/main/java/ru/snake/dbunit/generator/worker/dataset/TableRowBuilder.java:51-53 | build returns a new row holding the builder's own lists, not copies |
| DatasetRows.RowSeesLaterPushes | src/main/java/ru/snake/dbunit/generator/worker/dataset/TableRowBuilder.java:52 | a row built before any push is empty and renders `<T />`, and a later push shows up in the same row |
| Datasets.TableBlocks | src/main/java/ru/snake/dbunit/generator/worker/DatasetBuilder.java:63-83 | one block per registered table |
| Datasets.DatasetBuilder.constructor | src/main/java/ru/snake/dbunit/generator/worker/DatasetBuilder.java:24-27 | a new builder has no tables and no rows |
| Datasets.DatasetBuilder.EnsureTable | src/main/java/ru/snake/dbunit/generator/worker/DatasetBuilder.java:35-37 | the table is registered once, in first-registration order; rows are untouched |
| Datasets.DatasetBuilder.PushRow | src/main/java/ru/snake/dbunit/generator/worker/DatasetBuilder.java:47-49 | the row is added to its table's row set once, in first-seen order; the table is not registered |
| Datasets.DatasetBuilder.Build | src/main/java/ru/snake/dbunit/generator/worker/DatasetBuilder.java:56-88 | the header, `<dataset>`, the table blocks separated by one newline, then `</dataset>`; build only reads state |
| Datasets.AppendTableBlock | src/main/java/ru/snake/dbunit/generator/worker/DatasetBuilder.java:70-82 | appends `    <T />` and a newline for a table without rows, otherwise each row indented and followed by a newline |
| Datasets.JoinStep | src/main/java/ru/snake/dbunit/generator/worker/DatasetBuilder.java:61-68 | a newline goes between consecutive blocks and none before the first |
| Datasets.RegisterKeepsDistinct | src/main/java/ru/snake/dbunit/generator/worker/DatasetBuilder.java:36 | LinkedHashSet.add keeps elements distinct and earlier ones in place, adding only the new element |
| Datasets.RegisterIdempotent | src/main/java/ru/snake/dbunit/generator/worker/DatasetBuilder.java:36 | adding the same element twice is adding it once |
| Datasets.DedupSpec | src/main/java/ru/snake/dbunit/generator/worker/DatasetBuilder.java:48 | the de-duplicated rows are distinct and hold exactly the pushed rows |
| Datasets.DedupPrefix | src/main/java/ru/snake/dbunit/generator/worker/DatasetBuilder.java:48 | later pushes never reorder earlier rows |
| Datasets.UnregisteredRowsInvisible | src/main/java/ru/snake/dbunit/generator/worker/DatasetBuilder.java:47-49 | rows of a table never passed to ensureTable do not appear in the output |
| Datasets.TableBlockPush | src/main/java/ru/snake/dbunit/generator/worker/DatasetBuilder.java:78-82 | a new row is emitted as four spaces, the row and a newline at the end of its block |
| Datasets.DocumentFrame | src/main/java/ru/snake/dbunit/generator/worker/DatasetBuilder.java:58-59 | the output starts with the header and `<dataset>` and ends with `</dataset>` |
| Datasets.SingleEmptyTable | src/main/java/ru/snake/dbunit/generator/worker/DatasetBuilder.java:72-76 | a registered table with no rows emits exactly `    <T />` and a newline |
| Datasets.DuplicateRowCollapses | src/main/java/ru/snake/dbunit/generator/worker/DatasetBuilder.java:47-49 | pushing the same row twice gives the same document as pushing it once, with a single row line |
| WorkerFiltering.QueryTableName | src/main/java/ru/snake/dbunit/generator/worker/BuildDatasetWorker.java:246-264 | the case policy keeps the name's length |
| WorkerFiltering.Step | src/main/java/ru/snake/dbunit/generator/worker/BuildDatasetWorker.java:91-112 | each statement's outcome is either ok or an error |
| WorkerFiltering.WorkerFilter | src/main/java/ru/snake/dbunit/generator/worker/BuildDatasetWorker.java:91-113 | the worker's filter result is either ok or an error |
| WorkerFiltering.FilterStatements | src/main/java/ru/snake/dbunit/generator/worker/BuildDatasetWorker.java:91-113 | the loop with early returns computes the worker's filter |
| WorkerFiltering.WorkerFilterMatchesQueryFilter | src/main/java/ru/snake/dbunit/generator/worker/BuildDatasetWorker.java:91-113 | without a case policy the worker's inline filter is QueryFilter in ERROR mode |
| WorkerFiltering.UnnamedStatementFails | src/main/java/ru/snake/dbunit/generator/worker/BuildDatasetWorker.java:92-99 | a nameless statement aborts with the message embedding its text, before skip and template are tried |
| WorkerFiltering.SkipBeforeTemplate | src/main/java/ru/snake/dbunit/generator/worker/BuildDatasetWorker.java:100-101 | a skip-prefixed name is dropped even when it is also the template name |
| WorkerFiltering.TableNameCasePolicy | src/main/java/ru/snake/dbunit/generator/worker/BuildDatasetWorker.java:246-264 | no policy keeps the name, UPPER leaves no lower-case letter, LOWER no upper-case letter, and the policy is idempotent |
| WorkerFiltering.WorkerFilterNamed | src/main/java/ru/snake/dbunit/generator/worker/BuildDatasetWorker.java:91-113 | every query of an ok result has a table name |
| DatasetWorker.GetMappers | src/main/java/ru/snake/dbunit/generator/worker/BuildDatasetWorker.java:311-324 | the column loop computes the mapper list or the exception of the first unmappable column |
| DatasetWorker.GetTableRow | src/main/java/ru/snake/dbunit/generator/worker/BuildDatasetWorker.java:279-300 | the mapper loop computes `    <T`, one attribute per non-null value, ` />` and a newline |
| DatasetWorker.RowStrings | src/main/java/ru/snake/dbunit/generator/worker/BuildDatasetWorker.java:222-223 | one row string per result row, in order |
| DatasetWorker.GetTableDataset | src/main/java/ru/snake/dbunit/generator/worker/BuildDatasetWorker.java:213-236 | the table text of a statement: its distinct rows in first-seen order, or `    <T />` and a newline when there are none |
| DatasetWorker.CollectRows | src/main/java/ru/snake/dbunit/generator/worker/BuildDatasetWorker.java:222-228 | each row string is appended the first time it is seen, and the seen-set is empty exactly when there were no rows |
| DatasetWorker.Run | src/main/java/ru/snake/dbunit/generator/worker/BuildDatasetWorker.java:83-161 | doInBackground: the no-query error, the filter errors, the no-executable-query error, the driver error, or the header, `<dataset>`, table blocks joined by one newline and `</dataset>` |
| DatasetWorker.WriteDataset | src/main/java/ru/snake/dbunit/generator/worker/BuildDatasetWorker.java:132-160 | the statement loop writes the header, `<dataset>`, the blocks of the statements not skipped joined by newlines, and `</dataset>`, or stops at the first exception |
| DatasetWorker.MappersPrefixThrows | src/main/java/ru/snake/dbunit/generator/worker/BuildDatasetWorker.java:315-321 | an exception at one column ends the mapper loop |
| DatasetWorker.BlocksPrefixThrows | src/main/java/ru/snake/dbunit/generator/worker/BuildDatasetWorker.java:141-155 | an exception in one statement ends the query loop |
| DatasetWorker.DedupStep | src/main/java/ru/snake/dbunit/generator/worker/BuildDatasetWorker.java:225-227 | a row already seen adds nothing, a new row is appended |
| DatasetWorker.WorkerMapperAgrees | src/main/java/ru/snake/dbunit/generator/worker/BuildDatasetWorker.java:382-405 | the worker's mapper choice agrees with MapperBuilder's, except that BASE64_WITH_PREFIX throws the no-corresponding-class exception |
| DatasetWorker.MappersSpecAgree | src/main/java/ru/snake/dbunit/generator/worker/BuildDatasetWorker.java:311-324 | the mapper list exists exactly when no column is unmappable, and then holds one mapper per column as MapperBuilder would choose |
| DatasetWorker.TableDatasetPush | src/main/java/ru/snake/dbunit/generator/worker/BuildDatasetWorker.java:222-235 | a further row adds nothing when its string was seen, and is appended otherwise |
| DatasetWorker.BlocksOnePerStatement | src/main/java/ru/snake/dbunit/generator/worker/BuildDatasetWorker.java:141-155 | when every statement executes, there is one table block per statement, in order, scoped to that statement |
| DatasetWorker.ExecutesIff | src/main/java/ru/snake/dbunit/generator/worker/BuildDatasetWorker.java:141-146 | a statement produces a block exactly when it is named, not skipped at execution and all its columns are mappable |
| DatasetWorker.RunSmallCases | src/main/java/ru/snake/dbunit/generator/worker/BuildDatasetWorker.java:84-117 | empty text gives `Dataset must have at least one query.`; text whose statements are all skipped gives the no-executable-query error |
| DatasetWorker.AllSkippedFilterEmpty | src/main/java/ru/snake/dbunit/generator/worker/BuildDatasetWorker.java:100-101 | statements whose names are all skipped leave nothing to execute |
| DatasetWorker.StringMappersDoubleEscaped | src/main/java/ru/snake/dbunit/generator/worker/BuildDatasetWorker.java:292 | the row escape is applied on top of the mapper's own escape, so one `Unescape` pass gives the mapper output and two give the value |
| DatasetWorker.LessThanWrittenTwice | src/main/java/ru/snake/dbunit/generator/worker/BuildDatasetWorker.java:333-342 | a `<` in a UTF8 column is written `&amp;lt;` |
| DatasetWorker.ChainedLessThanEntity | src/main/java/ru/snake/dbunit/generator/worker/BuildDatasetWorker.java:333-342 | the replace chain turns the entity `&lt;` into `&amp;lt;` |
| DatasetWorker.PresentNames | src/main/java/ru/snake/dbunit/generator/worker/BuildDatasetWorker.java:285-294 | as many present names as present values |
| DatasetWorker.MappedAttributesArePresentOnes | src/main/java/ru/snake/dbunit/generator/worker/BuildDatasetWorker.java:285-294 | null columns are omitted: the attributes are those of the non-null columns, in order |
| DatasetWorker.WorkerRowIsBuilderRow | src/main/java/ru/snake/dbunit/generator/worker/BuildDatasetWorker.java:279-300 | the worker's row is TableRowBuilder's row of the non-null columns, indented and followed by a newline |
| ConnectionParameters.ColumnName | src/main/java/ru/snake/dbunit/generator/model/ConnectionParametersTableModel.java:42-50 | the headers are `Parameter` and `Value`, and only the two real columns have a non-empty one |
| ConnectionParameters.Blank | src/main/java/ru/snake/dbunit/generator/model/ConnectionParametersTableModel.java:93-95 | n empty strings |
| ConnectionParameters.CoverCount | src/main/java/ru/snake/dbunit/generator/model/ConnectionParametersTableModel.java:97-110 | the number of events reporting a row is bounded by the number of events |
| ConnectionParameters.ConnectionParametersTableModel.constructor | src/main/java/ru/snake/dbunit/generator/model/ConnectionParametersTableModel.java:26-29 | a new model has two empty lists and no events |
| ConnectionParameters.ConnectionParametersTableModel.RowCount | src/main/java/ru/snake/dbunit/generator/model/ConnectionParametersTableModel.java:31-34 | the row count is the number of names, which is also the number of values |
| ConnectionParameters.ConnectionParametersTableModel.GetValueAt | src/main/java/ru/snake/dbunit/generator/model/ConnectionParametersTableModel.java:57-66 | the name for column 0, the value for column 1, and null exactly for the other columns |
| ConnectionParameters.ConnectionParametersTableModel.SetValueAt | src/main/java/ru/snake/dbunit/generator/model/ConnectionParametersTableModel.java:68-78 | on the only editable column, values[row] becomes String.valueOf(value) and nothing else changes; other columns change nothing |
| ConnectionParameters.ConnectionParametersTableModel.SetParameters | src/main/java/ru/snake/dbunit/generator/model/ConnectionParametersTableModel.java:86-111 | the names become the parameters in order, every value becomes empty, the lists stay parallel, and the update/insert/delete events are fired |
| ConnectionParameters.ConnectionParametersTableModel.GetParameterMap | src/main/java/ru/snake/dbunit/generator/model/ConnectionParametersTableModel.java:118-129 | the loop builds the map of each name to its value, in row order |
| ConnectionParameters.ParameterEventsPartitionRows | src/main/java/ru/snake/dbunit/generator/model/ConnectionParametersTableModel.java:97-110 | the events report every row of the larger table exactly once and nothing beyond: common rows as updated, new rows as inserted, vanished rows as deleted |
| ConnectionParameters.SetParametersCells | src/main/java/ru/snake/dbunit/generator/model/ConnectionParametersTableModel.java:89-95 | after setParameters each row shows its parameter and an empty value |
| ConnectionParameters.ParameterMapKeys | src/main/java/ru/snake/dbunit/generator/model/ConnectionParametersTableModel.java:118-129 | the map's keys are exactly the names |
| ConnectionParameters.ParameterMapLaterWins | src/main/java/ru/snake/dbunit/generator/model/ConnectionParametersTableModel.java:121-126 | a name maps to the value of its last row |
| ConnectionParameters.EditedValueReachesMap | src/main/java/ru/snake/dbunit/generator/model/ConnectionParametersTableModel.java:74-78 | an edited value is what the map reports for its name, unless a later row repeats the name |
| ConnectionParameters.FreshParametersExample | src/main/java/ru/snake/dbunit/generator/model/ConnectionParametersTableModel.java:86-111 | two parameters on a new model give two rows, one insert event for rows 0..1, and a map to empty values |
| MainModels.EditorNotices | src/main/java/ru/snake/dbunit/generator/model/MainModel.java:198-202 | one editorStateChanged call per listener, in registration order, with the current state |
| MainModels.ConnectionNotices | src/main/java/ru/snake/dbunit/generator/model/MainModel.java:169-173 | one connectionChanged call per listener, in registration order, with the current connection |
| MainModels.MainModel.constructor | src/main/java/ru/snake/dbunit/generator/model/MainModel.java:47-59 | a new model is not modified and has no file, no connection and no listeners |
| MainModels.MainModel.FireEditorStateChanged | src/main/java/ru/snake/dbunit/generator/model/MainModel.java:198-202 | the loop notifies each editor listener with (modified, file) and changes nothing else |
| MainModels.MainModel.FireConnectionChanged | src/main/java/ru/snake/dbunit/generator/model/MainModel.java:169-173 | the loop notifies each connection listener with the connection and changes nothing else |
| MainModels.MainModel.SetModified | src/main/java/ru/snake/dbunit/generator/model/MainModel.java:67-73 | a change of the query document sets modified and notifies editor listeners; other documents are ignored |
| MainModels.MainModel.InsertString | src/main/java/ru/snake/dbunit/generator/model/MainModel.java:58 | an insertion changes the document text; only a non-empty one into the query document marks the model modified |
| MainModels.MainModel.Remove | src/main/java/ru/snake/dbunit/generator/model/MainModel.java:58 | a removal changes the document text; only a non-empty one from the query document marks the model modified |
| MainModels.MainModel.SetCurrentConnection | src/main/java/ru/snake/dbunit/generator/model/MainModel.java:129-133 | stores the connection and notifies every connection listener with it, in order |
| MainModels.MainModel.AddConnectionListener | src/main/java/ru/snake/dbunit/generator/model/MainModel.java:152-154 | appends the listener |
| MainModels.MainModel.RemoveConnectionListener | src/main/java/ru/snake/dbunit/generator/model/MainModel.java:162-164 | removes the first occurrence of the listener |
| MainModels.MainModel.AddEditorStateListener | src/main/java/ru/snake/dbunit/generator/model/MainModel.java:181-183 | appends the listener |
| MainModels.MainModel.RemoveEditorStateListener | src/main/java/ru/snake/dbunit/generator/model/MainModel.java:191-193 | removes the first occurrence of the listener |
| MainModels.MainModel.SetQueryStateNew | src/main/java/ru/snake/dbunit/generator/model/MainModel.java:211-222 | the query text becomes empty, modified false, file null and hasFile false; clearing a non-empty text first notifies a modified state |
| MainModels.MainModel.SetQueryStateSaved | src/main/java/ru/snake/dbunit/generator/model/MainModel.java:231-236 | modified false, file set, hasFile exactly when the file is non-null, text untouched, listeners notified |
| MainModels.MainModel.SetQueryStateLoaded | src/main/java/ru/snake/dbunit/generator/model/MainModel.java:249-262 | the query text becomes the loaded text, modified false, file set; removal and insertion each notify a modified state first when they change something |
| MainModels.RemoveFirstSpec | src/main/java/ru/snake/dbunit/generator/model/MainModel.java:162-164 | List.remove drops exactly one occurrence when there is one and changes nothing otherwise |
| MainModels.RemovedListenerNotNotified | src/main/java/ru/snake/dbunit/generator/model/MainModel.java:191-202 | a listener registered once and removed is not notified |
| MainModels.RegisteredListenerNotified | src/main/java/ru/snake/dbunit/generator/model/MainModel.java:198-202 | a registered listener is notified with the model's state |
| MainModels.EditThenSaveExample | src/main/java/ru/snake/dbunit/generator/model/MainModel.java:67-73 | typing marks the model modified, saving clears the flag and attaches the file, and the listener sees both states in that order |

## Left out

- `QueryTokenizer`'s source is not part of this model. `Tokenizer` is rebuilt from the cases of QueryTokenizerTest, and its contract (the tokens rebuild the text, and each token is well formed) is what the parser relies on.
- Database access is a parameter of the worker: driver class loading, `URLClassLoader`, `DriverManager`, statement execution and `ResultSet` reads are not modelled. A driver that cannot be loaded is only the error text it produces, and `SQLException`s raised while reading rows are not modelled.
- `SwingWorker` threading, `done()`, progress messages, and saving or exporting files are not modelled, because they are concurrency and disk I/O.
- `JavaText.ToUpperAscii`: `String.toUpperCase` depends on the locale and the Unicode tables, so only ASCII letters change case in the model.
- `JavaText.ToLowerAscii`: `String.toLowerCase` depends on the locale and the Unicode tables (and can change the length, as for U+0130), so only ASCII letters change case in the model.
- MapperBuilding.ColumnIndex: labels are compared ignoring case for ASCII letters only; `equalsIgnoreCase` also folds the case of other Unicode letters.
- `Base64Mapping.Base64Encode`: `java.util.Base64` is replaced by an encoding per section 4 of RFC 4648 (padded, standard alphabet). Only its length, alphabet and three worked examples are proved, not a decoding round trip.
- AsciiStringMapping.AsciiEscapeRoundTrip and Utf8StringMapping.Utf8EscapeRoundTrip are proved for `Unescape`, which turns every `&#xHH;` and `&#xHHHH;` into its UTF-16 code unit. A conforming XML 1.0 reader rejects two kinds of reference that the mappers write: references to control characters other than tab, line feed and carriage return (such as `&#x00;`, written by both mappers), and references to surrogate halves (such as `&#xd83d;`, written by `AsciiStringMapper` for each half of a supplementary character). For those inputs the output is not well-formed XML, and the round trip holds only for `Unescape`.
- QueryTemplates.KeywordAt: `\b` is modelled as a change between a `\w` character (ASCII letter, digit or `_`) and any other character. Java also counts a non-spacing mark whose base character is a letter or digit as a word character, so a combining mark next to `with`, `from`, `join` or `select` is a non-word character in the model, unlike Java: on `x\u0301from t` Java finds no boundary before `from` while the model matches, and on `(select\u0301` Java finds no subquery while the model does. Before JDK 19 Java also used `Character.isLetterOrDigit` instead of `\w`, so a non-ASCII letter or digit next to those words gave different matches there too.
- `MapperBuilding.MapValue`: the Dummy mapper passes the value through unchanged. The `XmlEscape` instance that `MapperBuilder` hands to each string mapper is stateless, so it appears in the model as the fixed functions of `XmlEscaping`.
- `DatasetRows.TableRowBuilder.Push`: names and values are never null in the model. In Java a null name would be written as the attribute name `null`, and a null value would throw `NullPointerException` in `TableRow.escapeControlCharacters`.
- `ConnectionParameters.ConnectionParametersTableModel.GetValueAt`: a row index out of range on columns 0 and 1 throws `IndexOutOfBoundsException` in Java; the model requires an existing row instead.
- `ConnectionParameters.ConnectionParametersTableModel.SetValueAt`: a row index out of range on column 1 throws `IndexOutOfBoundsException` in Java; the model requires an existing row instead.
- `getColumnClass` and every `toString` are not modelled, because they carry no behaviour the model uses.
- In the model, listeners are identified by number, and a connection or file is an opaque reference. Listener equality is identity equality, as `List.remove` uses it for listeners that do not override `equals`.
- Text edits reach `MainModel` through `DocumentModifiedListener`. The model covers insertions and removals; attribute-only `changedUpdate` notifications are not modelled, because no plain-text document produces them.
- `OptionsParser`, the `{param}` substitution in the connection action, configuration objects and every Swing frame, dialog and action are not modelled, because they hold no dataset logic.
