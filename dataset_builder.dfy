/** worker/DatasetBuilder.java: an insertion-ordered set of table names and,
    per table, an insertion-ordered set of distinct row strings, written out
    as a DBUnit flat XML dataset. Java's LinkedHashSet is a duplicate-free
    sequence here, and `add` is `Register`. */
module Datasets {
  import opened JavaText

  predicate NoDuplicates<T(==)>(s: seq<T>)
  {
    forall i, j :: 0 <= i < j < |s| ==> s[i] != s[j]
  }

  /** LinkedHashSet.add: appends `x` unless it is already there. */
  function Register<T(==)>(s: seq<T>, x: T): (r: seq<T>)
  {
    if x in s then s else s + [x]
  }

  /** Adding every element of `xs` in turn to an empty LinkedHashSet. */
  function Dedup<T(==)>(xs: seq<T>): seq<T>
  {
    if xs == [] then [] else Register(Dedup(xs[..|xs| - 1]), xs[|xs| - 1])
  }

  // ---------------------------------------------------------------------
  // Output format

  const XML_HEADER: JString := Str("<?xml version=\"1.0\" encoding=\"utf-8\"?>\n")
  const DATASET_OPEN: JString := Str("<dataset>\n")
  const DATASET_CLOSE: JString := Str("</dataset>\n")
  const INDENT: JString := Str("    ")
  const EMPTY_TABLE_OPEN: JString := INDENT + Str("<")
  const EMPTY_TABLE_CLOSE: JString := Str(" />") + [LF]

  /** One stored row on its own indented line. */
  function RowLine(row: JString): JString
  {
    INDENT + row + [LF]
  }

  /** A table's block: `    <T />` on its own line when it has no rows,
      otherwise its rows in insertion order. */
  function TableBlock(tableName: JString, rows: seq<JString>): JString
  {
    if rows == [] then EMPTY_TABLE_OPEN + tableName + EMPTY_TABLE_CLOSE
    else ConcatMap(RowLine, rows)
  }

  /** tableRows.getOrDefault(tableName, emptySet()) */
  function RowsOf(tableRows: map<JString, seq<JString>>, tableName: JString): seq<JString>
  {
    if tableName in tableRows then tableRows[tableName] else []
  }

  /** The block of each registered table, in registration order. */
  function TableBlocks(tableNames: seq<JString>, tableRows: map<JString, seq<JString>>): (r: seq<JString>)
    ensures |r| == |tableNames|
  {
    if tableNames == [] then []
    else
      var last := tableNames[|tableNames| - 1];
      TableBlocks(tableNames[..|tableNames| - 1], tableRows) + [TableBlock(last, RowsOf(tableRows, last))]
  }

  /** Blocks separated by one line feed, none before the first. */
  function JoinBlocks(blocks: seq<JString>): JString
  {
    if blocks == [] then []
    else if |blocks| == 1 then blocks[0]
    else JoinBlocks(blocks[..|blocks| - 1]) + [LF] + blocks[|blocks| - 1]
  }

  /** The whole document around the table blocks. */
  function Document(header: JString, blocks: seq<JString>): JString
  {
    header + DATASET_OPEN + JoinBlocks(blocks) + DATASET_CLOSE
  }

  class DatasetBuilder {
    var tableNames: seq<JString>
    var tableRows: map<JString, seq<JString>>

    /** Both kinds of set hold no element twice. */
    ghost predicate Valid()
      reads this
    {
      && NoDuplicates(tableNames)
      && forall t :: t in tableRows ==> NoDuplicates(tableRows[t])
    }

    constructor ()
      ensures Valid() && tableNames == [] && tableRows == map[]
    {
      tableNames := [];
      tableRows := map[];
    }

    /** ensureTable(tableName) */
    method EnsureTable(tableName: JString)
      requires Valid()
      modifies this
      ensures Valid()
      ensures tableNames == Register(old(tableNames), tableName)
      ensures tableRows == old(tableRows)
    {
      RegisterKeepsDistinct(tableNames, tableName);
      if tableName !in tableNames {
        tableNames := tableNames + [tableName];
      }
    }

    /** pushRow(tableName, tableRow): creates the table's row set on first
        use but does not register the table. */
    method PushRow(tableName: JString, tableRow: JString)
      requires Valid()
      modifies this
      ensures Valid()
      ensures tableRows == old(tableRows)[tableName := Register(RowsOf(old(tableRows), tableName), tableRow)]
      ensures tableNames == old(tableNames)
    {
      var rows := if tableName in tableRows then tableRows[tableName] else [];
      RegisterKeepsDistinct(rows, tableRow);
      if tableRow !in rows {
        rows := rows + [tableRow];
      }
      tableRows := tableRows[tableName := rows];
    }

    /** build(): reads the state only. */
    method Build() returns (r: JString)
      ensures r == Document(XML_HEADER, TableBlocks(tableNames, tableRows))
    {
      var builder := XML_HEADER + DATASET_OPEN;
      var isFirst := true;
      for i := 0 to |tableNames|
        invariant isFirst <==> i == 0
        invariant builder == XML_HEADER + DATASET_OPEN + JoinBlocks(TableBlocks(tableNames[..i], tableRows))
      {
        ghost var joined := JoinBlocks(TableBlocks(tableNames[..i], tableRows));
        ghost var sep: JString := if i == 0 then [] else [LF];
        if isFirst {
          isFirst := false;
        } else {
          builder := builder + [LF];
        }
        ghost var separated := builder;
        var tableName := tableNames[i];
        var rows := if tableName in tableRows then tableRows[tableName] else [];
        builder := AppendTableBlock(builder, tableName, rows);
        assert separated == (XML_HEADER + DATASET_OPEN) + joined + sep;
        ghost var block := TableBlock(tableName, RowsOf(tableRows, tableName));
        assert builder == separated + block;
        BuildStep(tableNames, tableRows, i);
        Regroup(XML_HEADER + DATASET_OPEN, joined, sep, block);
      }
      assert tableNames[..|tableNames|] == tableNames;
      builder := builder + DATASET_CLOSE;
      return builder;
    }
  }

  /** The body of build()'s loop after the separator: the `<T />` line for
      a table without rows, then each row line. */
  method AppendTableBlock(builder: JString, tableName: JString, rows: seq<JString>) returns (r: JString)
    ensures r == builder + TableBlock(tableName, rows)
  {
    r := builder;
    if rows == [] {
      r := r + EMPTY_TABLE_OPEN;
      r := r + tableName;
      r := r + EMPTY_TABLE_CLOSE;
      Regroup(builder, EMPTY_TABLE_OPEN, tableName, EMPTY_TABLE_CLOSE);
    }
    ghost var front := r;
    for j := 0 to |rows|
      invariant r == front + ConcatMap(RowLine, rows[..j])
    {
      ghost var before := r;
      r := r + INDENT;
      r := r + rows[j];
      r := r + [LF];
      RowLinesStep(front, rows, j, before);
    }
    assert rows[..|rows|] == rows;
  }

  // ---------------------------------------------------------------------
  // Proof steps

  /** One more row line written after the earlier ones. */
  lemma RowLinesStep(front: JString, rows: seq<JString>, j: nat, before: JString)
    requires j < |rows|
    requires before == front + ConcatMap(RowLine, rows[..j])
    ensures before + INDENT + rows[j] + [LF] == front + ConcatMap(RowLine, rows[..j + 1])
  {
    Regroup(before, INDENT, rows[j], [LF]);
    assert rows[..j + 1] == rows[..j] + [rows[j]];
    ConcatMapAppend(RowLine, rows[..j], [rows[j]]);
    ConcatMapSingle(RowLine, rows[j]);
    AppendAssoc(front, ConcatMap(RowLine, rows[..j]), RowLine(rows[j]));
  }
  lemma {:induction false} ConcatMapSingle<T>(f: T -> JString, x: T)
    ensures ConcatMap(f, [x]) == f(x)
  {
    assert [x][..0] == [];
  }

  /** One more table adds its block after a line feed, or with none when it
      is the first. */
  lemma JoinStep(blocks: seq<JString>, block: JString)
    ensures JoinBlocks(blocks + [block])
         == JoinBlocks(blocks) + (if blocks == [] then [] else [LF]) + block
  {
    var all := blocks + [block];
    assert all[..|all| - 1] == blocks;
    if blocks == [] {
      assert all == [block];
    }
  }

  lemma TableBlocksStep(tableNames: seq<JString>, tableRows: map<JString, seq<JString>>, i: nat)
    requires i < |tableNames|
    ensures TableBlocks(tableNames[..i + 1], tableRows)
         == TableBlocks(tableNames[..i], tableRows) + [TableBlock(tableNames[i], RowsOf(tableRows, tableNames[i]))]
  {
    var taken := tableNames[..i + 1];
    assert taken[..|taken| - 1] == tableNames[..i];
    assert taken[|taken| - 1] == tableNames[i];
  }

  lemma BuildStep(tableNames: seq<JString>, tableRows: map<JString, seq<JString>>, i: nat)
    requires i < |tableNames|
    ensures JoinBlocks(TableBlocks(tableNames[..i + 1], tableRows))
         == JoinBlocks(TableBlocks(tableNames[..i], tableRows)) + (if i == 0 then [] else [LF])
            + TableBlock(tableNames[i], RowsOf(tableRows, tableNames[i]))
  {
    var block := TableBlock(tableNames[i], RowsOf(tableRows, tableNames[i]));
    TableBlocksStep(tableNames, tableRows, i);
    JoinStep(TableBlocks(tableNames[..i], tableRows), block);
  }

  /** Associativity of four appends, stated once over plain names. */
  lemma Regroup(a: JString, b: JString, c: JString, d: JString)
    ensures a + b + c + d == a + (b + c + d)
  {
  }

  // ---------------------------------------------------------------------
  // Properties

  /** Registering keeps the set duplicate-free, contains exactly the old
      elements and `x`, and keeps the old elements first, in order. */
  lemma RegisterKeepsDistinct<T>(s: seq<T>, x: T)
    requires NoDuplicates(s)
    ensures NoDuplicates(Register(s, x))
    ensures forall y :: y in Register(s, x) <==> y in s || y == x
    ensures Register(s, x)[..|s|] == s
  {
  }

  /** ensureTable (and pushRow of the same row) twice is the same as once. */
  lemma RegisterIdempotent<T>(s: seq<T>, x: T)
    ensures Register(Register(s, x), x) == Register(s, x)
  {
  }

  /** The rows kept for a sequence of pushes are those pushed, each once,
      in first-seen order. */
  lemma {:induction false} DedupSpec<T>(xs: seq<T>)
    ensures NoDuplicates(Dedup(xs))
    ensures forall y :: y in Dedup(xs) <==> y in xs
    decreases |xs|
  {
    if xs != [] {
      var init := xs[..|xs| - 1];
      DedupSpec(init);
      RegisterKeepsDistinct(Dedup(init), xs[|xs| - 1]);
      assert xs == init + [xs[|xs| - 1]];
    }
  }

  /** Later pushes never reorder earlier rows. */
  lemma {:induction false} DedupPrefix<T>(xs: seq<T>, ys: seq<T>)
    ensures |Dedup(xs)| <= |Dedup(xs + ys)|
    ensures Dedup(xs + ys)[..|Dedup(xs)|] == Dedup(xs)
    decreases |ys|
  {
    if ys == [] {
      assert xs + ys == xs;
    } else {
      var init := ys[..|ys| - 1];
      DedupPrefix(xs, init);
      var all := xs + ys;
      assert all[..|all| - 1] == xs + init;
      var d := Dedup(xs + init);
      assert Dedup(all) == Register(d, all[|all| - 1]);
      assert Register(d, all[|all| - 1])[..|d|] == d;
      assert Dedup(all)[..|Dedup(xs)|] == d[..|Dedup(xs)|];
    }
  }

  /** Rows pushed under a name that was never registered do not reach the
      output. */
  lemma {:induction false} UnregisteredRowsInvisible(tableNames: seq<JString>, tableRows: map<JString, seq<JString>>,
                                                     tableName: JString, rows: seq<JString>)
    requires tableName !in tableNames
    ensures TableBlocks(tableNames, tableRows[tableName := rows]) == TableBlocks(tableNames, tableRows)
    decreases |tableNames|
  {
    if tableNames != [] {
      var init := tableNames[..|tableNames| - 1];
      assert forall t :: t in init ==> t in tableNames;
      UnregisteredRowsInvisible(init, tableRows, tableName, rows);
    }
  }

  /** Appending a row to a table that already has rows appends its line. */
  lemma TableBlockPush(tableName: JString, rows: seq<JString>, row: JString)
    requires rows != []
    ensures TableBlock(tableName, rows + [row]) == TableBlock(tableName, rows) + INDENT + row + [LF]
  {
    ConcatMapAppend(RowLine, rows, [row]);
    ConcatMapSingle(RowLine, row);
  }

  /** The document opens with the header and `<dataset>` line and closes
      with `</dataset>`; a single table with no rows is one `<T />` line. */
  lemma DocumentFrame(header: JString, blocks: seq<JString>)
    ensures var d := Document(header, blocks);
            var front := header + DATASET_OPEN;
            && |d| >= |front| + |DATASET_CLOSE|
            && d[..|front|] == front
            && d[|d| - |DATASET_CLOSE|..] == DATASET_CLOSE
  {
    var d := Document(header, blocks);
    var front := header + DATASET_OPEN;
    assert d == front + (JoinBlocks(blocks) + DATASET_CLOSE);
  }

  lemma SingleEmptyTable(tableName: JString, tableRows: map<JString, seq<JString>>)
    requires RowsOf(tableRows, tableName) == []
    ensures Document(XML_HEADER, TableBlocks([tableName], tableRows))
         == XML_HEADER + DATASET_OPEN + EMPTY_TABLE_OPEN + tableName + EMPTY_TABLE_CLOSE + DATASET_CLOSE
  {
    assert [tableName][..0] == [];
  }

  /** Pushing the same row twice gives the same dataset as pushing it once. */
  method DuplicateRowCollapses(tableName: JString, row: JString) returns (once: JString, twice: JString)
    ensures once == twice
    ensures once == Document(XML_HEADER, [RowLine(row)])
  {
    var first := new DatasetBuilder();
    first.EnsureTable(tableName);
    first.PushRow(tableName, row);
    once := first.Build();
    var second := new DatasetBuilder();
    second.EnsureTable(tableName);
    second.PushRow(tableName, row);
    second.PushRow(tableName, row);
    twice := second.Build();
    assert first.tableNames == second.tableNames == [tableName];
    assert first.tableRows == second.tableRows;
    ConcatMapSingle(RowLine, row);
    assert [tableName][..0] == [];
  }
}
