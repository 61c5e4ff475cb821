/** worker/QuerySplitter.java: the older, line-based statement splitter. A
    line that is exactly `;` ends a statement, a line starting with `-- `
    names the table of every later statement, and any other line joins the
    current statement's body. */
module QuerySplitting {
  import opened JavaText
  import opened Results
  import opened Queries

  // ---------------------------------------------------------------------
  // String.split("[\\r\\n]+")

  predicate NoLineBreak(s: JString)
  {
    forall k :: 0 <= k < |s| ==> !IsLineBreak(s[k])
  }

  /** Index of the first character at or after `i` that is not a line break. */
  function RunEnd(s: JString, i: nat): (e: nat)
    requires i <= |s|
    ensures i <= e <= |s|
    ensures e < |s| ==> !IsLineBreak(s[e])
    ensures forall k :: i <= k < e ==> IsLineBreak(s[k])
    decreases |s| - i
  {
    if i == |s| || !IsLineBreak(s[i]) then i else RunEnd(s, i + 1)
  }

  /** The pieces of s[i..] between maximal runs of line breaks, keeping an
      empty piece at either end. Every piece but the last is non-empty when
      s[i..] does not start with a line break, and no piece holds one. */
  function PiecesFrom(s: JString, i: nat): (r: seq<JString>)
    requires i <= |s|
    ensures |r| >= 1
    ensures forall k :: 0 <= k < |r| ==> NoLineBreak(r[k])
    ensures forall k :: 1 <= k < |r| - 1 ==> r[k] != []
    ensures i < |s| && !IsLineBreak(s[i]) ==> r[0] != []
    decreases |s| - i
  {
    var e := LineEnd(s, i);
    if e == |s| then
      [s[i..]]
    else
      var rest := PiecesFrom(s, RunEnd(s, e));
      assert forall k :: 1 <= k < |rest| + 1 ==> ([s[i..e]] + rest)[k] == rest[k - 1];
      [s[i..e]] + rest
  }

  /** Removes the empty pieces at the end, as split with limit 0 does. */
  function DropTrailingEmpty(pieces: seq<JString>): (r: seq<JString>)
    ensures |r| <= |pieces| && r == pieces[..|r|]
    ensures r == [] || r[|r| - 1] != []
    ensures forall k :: |r| <= k < |pieces| ==> pieces[k] == []
  {
    if pieces == [] then []
    else if pieces[|pieces| - 1] == [] then DropTrailingEmpty(pieces[..|pieces| - 1])
    else pieces
  }

  /** text.split("[\\r\\n]+"): without any line break the text itself is the
      only line (even when empty); otherwise the pieces between runs of line
      breaks, with a leading empty piece kept and trailing ones dropped. */
  function SplitLines(text: JString): seq<JString>
  {
    if LineEnd(text, 0) == |text| then [text] else DropTrailingEmpty(PiecesFrom(text, 0))
  }

  /** No line holds a line break, and only the first can be empty, so a
      blank line between two lines never becomes a line of its own. */
  lemma SplitLinesShape(text: JString)
    ensures forall k :: 0 <= k < |SplitLines(text)| ==> NoLineBreak(SplitLines(text)[k])
    ensures forall k :: 1 <= k < |SplitLines(text)| ==> SplitLines(text)[k] != []
  {
    if LineEnd(text, 0) != |text| {
      var p := PiecesFrom(text, 0);
      var r := DropTrailingEmpty(p);
      assert forall k :: 0 <= k < |r| ==> r[k] == p[k];
    }
  }

  // ---------------------------------------------------------------------
  // The loop of split(), as a fold over the lines.

  /** The loop variables: the queries so far, the current table name, and
      the current body. */
  datatype SplitState = SplitState(result: seq<Query>, tableName: Option<JString>, body: JString)

  const SEPARATOR_LINE: JString := Str(";")
  const TABLE_MARK: JString := Str("-- ")

  predicate IsTableLine(line: JString)
  {
    line != SEPARATOR_LINE && StartsWith(line, TABLE_MARK)
  }

  /** The table name a `-- ` line sets: the rest of the line, upper-cased. */
  function TableNameOf(line: JString): JString
    requires IsTableLine(line)
  {
    ToUpperAscii(line[|TABLE_MARK|..])
  }

  function Step(st: SplitState, line: JString): SplitState
  {
    if line == SEPARATOR_LINE then SplitState(st.result + [Query(st.tableName, st.body)], st.tableName, [])
    else if IsTableLine(line) then SplitState(st.result, Some(TableNameOf(line)), st.body)
    else SplitState(st.result, st.tableName, st.body + line + [LF])
  }

  /** The loop state after the given lines. */
  function Run(lines: seq<JString>): SplitState
  {
    if lines == [] then SplitState([], None, [])
    else Step(Run(lines[..|lines| - 1]), lines[|lines| - 1])
  }

  class QuerySplitter {
    const text: JString

    constructor (text: JString)
      ensures this.text == text
    {
      this.text := text;
    }

    /** split() */
    method Split() returns (result: seq<Query>)
      ensures result == Run(SplitLines(text)).result
    {
      result := [];
      var tableName: Option<JString> := None;
      var builder: JString := [];
      var lines := SplitLines(text);
      for i := 0 to |lines|
        invariant Run(lines[..i]) == SplitState(result, tableName, builder)
      {
        var line := lines[i];
        assert lines[..i + 1][..i] == lines[..i];
        if line == SEPARATOR_LINE {
          result := result + [Query(tableName, builder)];
          builder := [];
        } else if StartsWith(line, TABLE_MARK) {
          tableName := Some(ToUpperAscii(line[3..]));
        } else {
          builder := builder + line + [LF];
        }
      }
      assert lines[..|lines|] == lines;
    }
  }

  // ---------------------------------------------------------------------
  // Reference readings of the fold, each stated without the loop state.

  /** The number of `;` lines. */
  function SeparatorCount(lines: seq<JString>): nat
  {
    if lines == [] then 0
    else SeparatorCount(lines[..|lines| - 1]) + (if lines[|lines| - 1] == SEPARATOR_LINE then 1 else 0)
  }

  /** The name set by the last `-- ` line, whatever `;` lines follow it. */
  function LastTableName(lines: seq<JString>): Option<JString>
  {
    if lines == [] then None
    else if IsTableLine(lines[|lines| - 1]) then Some(TableNameOf(lines[|lines| - 1]))
    else LastTableName(lines[..|lines| - 1])
  }

  /** The body lines after the last `;` line, each followed by a newline. */
  function PendingBody(lines: seq<JString>): JString
  {
    if lines == [] then []
    else
      var line := lines[|lines| - 1];
      if line == SEPARATOR_LINE then []
      else if IsTableLine(line) then PendingBody(lines[..|lines| - 1])
      else PendingBody(lines[..|lines| - 1]) + line + [LF]
  }

  /** There is one query per `;` line, the table name is the last one set
      (it is never reset), and the body is what followed the last `;`. */
  lemma {:induction false} RunMeaning(lines: seq<JString>)
    ensures |Run(lines).result| == SeparatorCount(lines)
    ensures Run(lines).tableName == LastTableName(lines)
    ensures Run(lines).body == PendingBody(lines)
    decreases |lines|
  {
    if lines != [] {
      RunMeaning(lines[..|lines| - 1]);
    }
  }

  /** Queries already emitted are never changed by later lines. */
  lemma {:induction false} RunExtends(lines: seq<JString>, i: nat)
    requires i <= |lines|
    ensures Run(lines[..i]).result <= Run(lines).result
    decreases |lines| - i
  {
    if i < |lines| {
      var prefix := lines[..i + 1];
      assert prefix[..|prefix| - 1] == lines[..i];
      RunExtends(lines, i + 1);
    } else {
      assert lines[..i] == lines;
    }
  }

  /** The `;` line at index j emits, as query number (separators before
      j), the last table name set before it and the body since the
      previous `;`; nothing after the last `;` is emitted. */
  lemma EmittedQuery(lines: seq<JString>, j: nat)
    requires j < |lines| && lines[j] == SEPARATOR_LINE
    ensures SeparatorCount(lines[..j]) < |Run(lines).result|
    ensures Run(lines).result[SeparatorCount(lines[..j])]
         == Query(LastTableName(lines[..j]), PendingBody(lines[..j]))
  {
    var prefix := lines[..j + 1];
    assert prefix[..|prefix| - 1] == lines[..j];
    RunMeaning(lines[..j]);
    RunExtends(lines, j + 1);
  }
}
