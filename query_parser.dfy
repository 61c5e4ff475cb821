/** worker/parse/QueryParser.java: folds the CODE / COMMENT / SEMICOLON token
    stream into statements, each with the table named by its first comment. */
module QueryParsing {
  import opened JavaText
  import opened Results
  import opened Queries
  import opened Tokenizer

  /** Every COMMENT token is at least two characters long (it starts with
      `--`), so `substring(2)` on it cannot fail. The tokenizer guarantees
      this (Tokenizer.TokenizeRoundTrip). */
  predicate CommentsAreMarked(tokens: seq<Token>)
  {
    forall k :: 0 <= k < |tokens| ==> IsMarked(tokens[k])
  }

  predicate IsMarked(token: Token)
  {
    token.tokenType == Comment ==> |token.value| >= 2
  }

  lemma MarkedSuffix(tokens: seq<Token>, i: nat)
    requires CommentsAreMarked(tokens) && i <= |tokens|
    ensures CommentsAreMarked(tokens[i..])
  {
    assert forall k :: 0 <= k < |tokens| - i ==> tokens[i..][k] == tokens[i + k];
  }

  /** The table name a recorded comment gives: the comment without its
      first two characters, trimmed. */
  function TableNameOf(comment: Option<JString>): (r: Option<JString>)
    requires comment.Some? ==> |comment.value| >= 2
    ensures r.Some? <==> comment.Some?
    ensures r.Some? ==> IsTrimmed(r.value)
  {
    if comment.Some? then Some(Trim(comment.value[2..])) else None
  }

  /** What pushQuery adds for the buffered text and recorded comment: one
      query with the trimmed text, or nothing when that text is blank. */
  function Finish(text: JString, comment: Option<JString>): (r: seq<Query>)
    requires comment.Some? ==> |comment.value| >= 2
    ensures |r| <= 1
    ensures r == [] <==> Trim(text) == []
    ensures forall q :: q in r ==>
      q.queryText != [] && IsTrimmed(q.queryText) && (q.tableName.Some? ==> IsTrimmed(q.tableName.value))
  {
    var queryString := Trim(text);
    if queryString == [] then [] else [Query(TableNameOf(comment), queryString)]
  }

  /** The queries that the rest of the token stream adds, given the text
      buffered so far and the comment recorded so far. */
  function ParseFrom(tokens: seq<Token>, text: JString, comment: Option<JString>): seq<Query>
    requires CommentsAreMarked(tokens)
    requires comment.Some? ==> |comment.value| >= 2
  {
    if tokens == [] then Finish(text, comment)
    else
      var token := tokens[0];
      match token.tokenType
      case Code => ParseFrom(tokens[1..], text + token.value, comment)
      case Comment => ParseFrom(tokens[1..], text, if comment.None? then Some(token.value) else comment)
      case Semicolon => Finish(text, comment) + ParseFrom(tokens[1..], [], None)
  }

  /** new QueryParser(tokens).parse() */
  function ParseTokens(tokens: seq<Token>): seq<Query>
    requires CommentsAreMarked(tokens)
  {
    ParseFrom(tokens, [], None)
  }

  class QueryParser {
    const tokens: seq<Token>
    var queries: seq<Query>
    var queryText: JString
    var firstComment: Option<JString>
    var position: nat

    predicate Valid()
      reads this
    {
      && position <= |tokens|
      && CommentsAreMarked(tokens)
      && (firstComment.Some? ==> |firstComment.value| >= 2)
    }

    constructor (tokens: seq<Token>)
      requires CommentsAreMarked(tokens)
      ensures this.tokens == tokens
      ensures queries == [] && queryText == [] && firstComment == None && position == 0
      ensures Valid()
    {
      this.tokens := tokens;
      queries := [];
      queryText := [];
      firstComment := None;
      position := 0;
    }

    /** parse(): visits every remaining token, then finalizes the last
        statement; the list it returns is the field itself. */
    method Parse() returns (r: seq<Query>)
      requires Valid()
      modifies this
      ensures Valid()
      ensures r == queries
      ensures queries == old(queries) + ParseFrom(tokens[old(position)..], old(queryText), old(firstComment))
      ensures position == |tokens| && queryText == [] && firstComment == None
    {
      while position < |tokens|
        invariant Valid()
        invariant queries + ParseFrom(tokens[position..], queryText, firstComment)
               == old(queries) + ParseFrom(tokens[old(position)..], old(queryText), old(firstComment))
        decreases |tokens| - position
      {
        MarkedSuffix(tokens, position);
        Visit();
      }
      assert tokens[position..] == [];
      PushQuery();
      r := queries;
    }

    /** One iteration of the loop of parse(): dispatch on the token type
        and advance. What is emitted plus what is still to come does not
        change. */
    method Visit()
      requires Valid() && position < |tokens|
      modifies this
      ensures Valid()
      ensures position == old(position) + 1
      ensures queries + ParseFrom(tokens[position..], queryText, firstComment)
           == old(queries) + ParseFrom(tokens[old(position)..], old(queryText), old(firstComment))
    {
      var token := tokens[position];
      ghost var rest := tokens[position + 1..];
      ghost var text := queryText;
      ghost var comment := firstComment;
      ghost var emitted := queries;
      ghost var total := queries + ParseFrom(tokens[position..], text, comment);
      MarkedSuffix(tokens, position + 1);
      assert IsMarked(token);
      match token.tokenType {
        case Code =>
          VisitQueryText(token);
          assert queries + ParseFrom(rest, queryText, firstComment) == total by {
            ParseFromStep(tokens, position, text, comment);
          }
        case Comment =>
          VisitComment(token);
          assert queries + ParseFrom(rest, queryText, firstComment) == total by {
            ParseFromStep(tokens, position, text, comment);
          }
        case Semicolon =>
          PushQuery();
          assert queries + ParseFrom(rest, queryText, firstComment) == total by {
            ParseFromStep(tokens, position, text, comment);
            AppendAssoc(emitted, Finish(text, comment), ParseFrom(rest, [], None));
          }
      }
      position := position + 1;
    }

    /** pushQuery(): emits the buffered statement if it is not blank, then
        always clears the buffer and the comment slot. */
    method PushQuery()
      requires Valid()
      modifies this
      ensures Valid()
      ensures queries == old(queries) + Finish(old(queryText), old(firstComment))
      ensures queryText == [] && firstComment == None
      ensures position == old(position)
    {
      var queryString := Trim(queryText);
      if queryString != [] {
        var tableName: Option<JString> := None;
        if firstComment.Some? {
          tableName := Some(Trim(firstComment.value[2..]));
        }
        assert tableName == TableNameOf(firstComment);
        queries := queries + [Query(tableName, queryString)];
      }
      queryText := [];
      firstComment := None;
    }

    /** visitComment(token): records the comment unless one is recorded. */
    method VisitComment(token: Token)
      requires Valid() && token.tokenType == Comment && |token.value| >= 2
      modifies this
      ensures Valid()
      ensures firstComment == if old(firstComment).None? then Some(token.value) else old(firstComment)
      ensures queries == old(queries) && queryText == old(queryText) && position == old(position)
    {
      if firstComment.None? {
        firstComment := Some(token.value);
      }
    }

    /** visitQueryText(token): appends the token text to the buffer. */
    method VisitQueryText(token: Token)
      requires Valid()
      modifies this
      ensures Valid()
      ensures queryText == old(queryText) + token.value
      ensures queries == old(queries) && firstComment == old(firstComment) && position == old(position)
    {
      queryText := queryText + token.value;
    }
  }

  /** One token of the stream: what ParseFrom does with tokens[i]. */
  lemma ParseFromStep(tokens: seq<Token>, i: nat, text: JString, comment: Option<JString>)
    requires CommentsAreMarked(tokens) && i < |tokens|
    requires comment.Some? ==> |comment.value| >= 2
    ensures CommentsAreMarked(tokens[i..]) && CommentsAreMarked(tokens[i + 1..])
    ensures IsMarked(tokens[i])
    ensures var token := tokens[i];
            var rest := tokens[i + 1..];
            ParseFrom(tokens[i..], text, comment) ==
              match token.tokenType
              case Code => ParseFrom(rest, text + token.value, comment)
              case Comment => ParseFrom(rest, text, if comment.None? then Some(token.value) else comment)
              case Semicolon => Finish(text, comment) + ParseFrom(rest, [], None)
  {
    MarkedSuffix(tokens, i);
    MarkedSuffix(tokens, i + 1);
    assert tokens[i..][1..] == tokens[i + 1..];
  }

  /** QueryParser.parse(text): tokenizes, then parses the tokens. */
  method ParseText(text: JString) returns (r: seq<Query>)
    ensures CommentsAreMarked(Tokenize(text))
    ensures r == ParseTokens(Tokenize(text))
  {
    var tokens := Tokenize(text);
    TokenizeRoundTrip(text);
    var parser := new QueryParser(tokens);
    r := parser.Parse();
  }

  // ---------------------------------------------------------------------
  // A reference reading of the fold: the statement between two separators.

  predicate NoSemicolon(tokens: seq<Token>)
  {
    forall k :: 0 <= k < |tokens| ==> tokens[k].tokenType != Semicolon
  }

  /** The CODE texts of a token list, concatenated in order. */
  function CodeText(tokens: seq<Token>): JString
  {
    if tokens == [] then []
    else (if tokens[0].tokenType == Code then tokens[0].value else []) + CodeText(tokens[1..])
  }

  /** The first COMMENT of a token list, if any. */
  function FirstComment(tokens: seq<Token>): (r: Option<JString>)
    ensures r.Some? ==> exists k :: 0 <= k < |tokens| && tokens[k].tokenType == Comment && tokens[k].value == r.value
    ensures r.None? ==> forall k :: 0 <= k < |tokens| ==> tokens[k].tokenType != Comment
  {
    if tokens == [] then None
    else if tokens[0].tokenType == Comment then Some(tokens[0].value)
    else
      var r := FirstComment(tokens[1..]);
      assert forall k :: 1 <= k < |tokens| ==> tokens[k] == tokens[1..][k - 1];
      r
  }

  function OrElse(a: Option<JString>, b: Option<JString>): Option<JString>
  {
    if a.Some? then a else b
  }

  lemma FirstCommentMarked(tokens: seq<Token>)
    requires CommentsAreMarked(tokens)
    ensures FirstComment(tokens).Some? ==> |FirstComment(tokens).value| >= 2
  {
  }

  lemma MarkedConcat(a: seq<Token>, b: seq<Token>)
    requires CommentsAreMarked(a) && CommentsAreMarked(b)
    ensures CommentsAreMarked(a + b)
  {
    assert forall k :: |a| <= k < |a + b| ==> (a + b)[k] == b[k - |a|];
  }

  /** Reading tokens without a separator only extends the buffer by their
      CODE texts and fills an empty comment slot with their first COMMENT. */
  lemma {:induction false} PrefixParse(a: seq<Token>, b: seq<Token>, text: JString, comment: Option<JString>)
    requires CommentsAreMarked(a) && NoSemicolon(a) && CommentsAreMarked(b)
    requires comment.Some? ==> |comment.value| >= 2
    ensures CommentsAreMarked(a + b)
    ensures FirstComment(a).Some? ==> |FirstComment(a).value| >= 2
    ensures ParseFrom(a + b, text, comment) == ParseFrom(b, text + CodeText(a), OrElse(comment, FirstComment(a)))
  {
    MarkedConcat(a, b);
    FirstCommentMarked(a);
    if a == [] {
      assert a + b == b;
      assert text + CodeText(a) == text;
    } else {
      var t := a[0];
      var rest := a[1..];
      assert IsMarked(t) && t.tokenType != Semicolon;
      assert CommentsAreMarked(rest) && NoSemicolon(rest) by {
        assert forall k :: 0 <= k < |rest| ==> rest[k] == a[k + 1];
      }
      assert (a + b)[0] == t && (a + b)[1..] == rest + b;
      if t.tokenType == Code {
        PrefixParse(rest, b, text + t.value, comment);
        assert CodeText(a) == t.value + CodeText(rest);
        assert text + t.value + CodeText(rest) == text + CodeText(a);
      } else {
        var c := if comment.None? then Some(t.value) else comment;
        PrefixParse(rest, b, text, c);
        assert CodeText(a) == CodeText(rest);
        assert FirstComment(a) == Some(t.value);
        assert OrElse(c, FirstComment(rest)) == OrElse(comment, FirstComment(a));
      }
    }
  }

  /** A statement without separators: its text is the buffer followed by
      every CODE text, its comment the one already recorded or else the
      first COMMENT among its tokens; later comments are ignored. */
  lemma StatementParse(a: seq<Token>, text: JString, comment: Option<JString>)
    requires CommentsAreMarked(a) && NoSemicolon(a)
    requires comment.Some? ==> |comment.value| >= 2
    ensures FirstComment(a).Some? ==> |FirstComment(a).value| >= 2
    ensures ParseFrom(a, text, comment) == Finish(text + CodeText(a), OrElse(comment, FirstComment(a)))
  {
    PrefixParse(a, [], text, comment);
    assert a + [] == a;
  }

  lemma SemicolonStep(semicolon: Token, b: seq<Token>, text: JString, comment: Option<JString>)
    requires semicolon.tokenType == Semicolon && CommentsAreMarked([semicolon] + b)
    requires comment.Some? ==> |comment.value| >= 2
    ensures CommentsAreMarked(b)
    ensures ParseFrom([semicolon] + b, text, comment) == Finish(text, comment) + ParseTokens(b)
  {
    assert ([semicolon] + b)[1..] == b;
  }

  /** A separator ends the statement before it: the statement's query (if
      it is not blank) comes first, and what follows is parsed afresh with
      an empty buffer and no recorded comment. */
  lemma SeparatorSplits(a: seq<Token>, semicolon: Token, b: seq<Token>, text: JString, comment: Option<JString>)
    requires CommentsAreMarked(a) && NoSemicolon(a) && CommentsAreMarked(b)
    requires semicolon.tokenType == Semicolon
    requires comment.Some? ==> |comment.value| >= 2
    ensures CommentsAreMarked(a + [semicolon] + b)
    ensures FirstComment(a).Some? ==> |FirstComment(a).value| >= 2
    ensures ParseFrom(a + [semicolon] + b, text, comment)
         == Finish(text + CodeText(a), OrElse(comment, FirstComment(a))) + ParseTokens(b)
  {
    var rest := [semicolon] + b;
    assert CommentsAreMarked([semicolon]);
    MarkedConcat([semicolon], b);
    assert a + [semicolon] + b == a + rest;
    PrefixParse(a, rest, text, comment);
    SemicolonStep(semicolon, b, text + CodeText(a), OrElse(comment, FirstComment(a)));
  }

  /** Every emitted statement is non-blank and has no surrounding white
      space, and every table name is trimmed too. */
  lemma {:induction false} ParsedQueriesTrimmed(tokens: seq<Token>, text: JString, comment: Option<JString>)
    requires CommentsAreMarked(tokens)
    requires comment.Some? ==> |comment.value| >= 2
    ensures forall q :: q in ParseFrom(tokens, text, comment) ==>
      q.queryText != [] && IsTrimmed(q.queryText) && (q.tableName.Some? ==> IsTrimmed(q.tableName.value))
  {
    if tokens != [] {
      var rest := tokens[1..];
      MarkedSuffix(tokens, 1);
      match tokens[0].tokenType {
        case Code => ParsedQueriesTrimmed(rest, text + tokens[0].value, comment);
        case Comment => ParsedQueriesTrimmed(rest, text, if comment.None? then Some(tokens[0].value) else comment);
        case Semicolon =>
          ParsedQueriesTrimmed(rest, [], None);
          var done := Finish(text, comment);
          var later := ParseFrom(rest, [], None);
          assert ParseFrom(tokens, text, comment) == done + later;
          assert forall q :: q in done + later ==> q in done || q in later;
      }
    }
  }

  /** QueryParserTest: "" and ";;" give no statements. */
  lemma ParserExamplesEmpty()
    ensures ParseTokens([]) == []
    ensures ParseTokens([Token(Semicolon, Str(";")), Token(Semicolon, Str(";"))]) == []
  {
    var two := [Token(Semicolon, Str(";")), Token(Semicolon, Str(";"))];
    assert two[1..][1..] == [];
  }

  /** One CODE token makes one statement with a null table. */
  lemma SingleCodeToken(text: JString)
    requires IsTrimmed(text) && text != []
    ensures ParseTokens([Token(Code, text)]) == [Query(None, text)]
  {
    var one := [Token(Code, text)];
    assert CommentsAreMarked(one);
    assert one[1..] == [];
    assert ParseFrom(one, [], None) == ParseFrom([], [] + text, None);
    assert [] + text == text;
    TrimTrimmed(text);
    assert Finish(text, None) == [Query(None, text)];
  }

  lemma TrimExampleText()
    ensures Trim(Str("\nselect a")) == Str("select a")
  {
    assert "\nselect a" == "\n" + "select a";
    StrAppend("\n", "select a");
    var t := Str("\nselect a");
    assert t == Str("\n") + Str("select a");
    TrimLeadingSpace(t);
    assert t[1..] == Str("select a");
    TrimTrimmed(Str("select a"));
  }

  lemma TrimExampleTable()
    ensures |Str("-- table_a")| >= 2 && Trim(Str("-- table_a")[2..]) == Str("table_a")
  {
    assert "-- table_a" == "-- " + "table_a";
    StrAppend("-- ", "table_a");
    var rest := Str("-- table_a")[2..];
    assert rest == Str("-- ")[2..] + Str("table_a");
    TrimLeadingSpace(rest);
    assert rest[1..] == Str("table_a");
    TrimTrimmed(Str("table_a"));
  }

  /** The first statement of QueryParserTest's two-statement case. */
  lemma FinishExample()
    ensures Finish(Str("\nselect a"), Some(Str("-- table_a"))) == [Query(Some(Str("table_a")), Str("select a"))]
  {
    TrimExampleText();
    TrimExampleTable();
  }

  lemma ExampleStatement(a: seq<Token>)
    requires a == [Token(Comment, Str("-- table_a")), Token(Code, Str("\nselect a"))]
    ensures CommentsAreMarked(a) && NoSemicolon(a)
    ensures [] + CodeText(a) == Str("\nselect a")
    ensures OrElse(None, FirstComment(a)) == Some(Str("-- table_a"))
  {
    assert a[1..][1..] == [];
    assert CodeText(a[1..]) == Str("\nselect a") + CodeText([]);
  }

  lemma ExampleTokens(a: seq<Token>, semicolon: Token, b: seq<Token>)
    requires a == [Token(Comment, Str("-- table_a")), Token(Code, Str("\nselect a"))]
    requires semicolon == Token(Semicolon, Str(";")) && b == [Token(Code, Str("select b"))]
    ensures [Token(Comment, Str("-- table_a")), Token(Code, Str("\nselect a")),
             Token(Semicolon, Str(";")), Token(Code, Str("select b"))] == a + [semicolon] + b
  {
  }

  /** QueryParserTest: "-- table_a\nselect a;select b" gives a statement
      for table_a, then one with a null table (the comment does not leak). */
  lemma ParserExampleTwoStatements()
    ensures var tokens := [Token(Comment, Str("-- table_a")), Token(Code, Str("\nselect a")),
                           Token(Semicolon, Str(";")), Token(Code, Str("select b"))];
            CommentsAreMarked(tokens)
            && ParseTokens(tokens) == [Query(Some(Str("table_a")), Str("select a")), Query(None, Str("select b"))]
  {
    var a := [Token(Comment, Str("-- table_a")), Token(Code, Str("\nselect a"))];
    var b := [Token(Code, Str("select b"))];
    var semicolon := Token(Semicolon, Str(";"));
    var tokens := [Token(Comment, Str("-- table_a")), Token(Code, Str("\nselect a")),
                   Token(Semicolon, Str(";")), Token(Code, Str("select b"))];
    assert tokens == a + [semicolon] + b by {
      ExampleTokens(a, semicolon, b);
    }
    assert CommentsAreMarked(tokens) && CommentsAreMarked(b)
        && ParseTokens(tokens) == Finish(Str("\nselect a"), Some(Str("-- table_a"))) + ParseTokens(b) by {
      ExampleStatement(a);
      assert CommentsAreMarked(b);
      SeparatorSplits(a, semicolon, b, [], None);
    }
    FinishExample();
    SingleCodeToken(Str("select b"));
  }

  /** QueryParserTest: "select * from t" is one statement with a null table. */
  lemma ParserExampleNoComment()
    ensures ParseTokens([Token(Code, Str("select * from t"))]) == [Query(None, Str("select * from t"))]
  {
    SingleCodeToken(Str("select * from t"));
  }
}
