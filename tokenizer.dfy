/** The front end of worker/parse/QueryParser.java: QueryTokenizer.tokenize.
    Its source is not part of this model; this is the state machine that its
    test suite (QueryTokenizerTest.java) pins down: CODE spans, `--` comments
    up to the end of the line, `;` separators, and single-quoted literals
    (with `''` escapes, possibly unterminated) emitted as CODE tokens of their
    own. */
module Tokenizer {
  import opened JavaText

  datatype TokenType = Code | Comment | Semicolon

  datatype Token = Token(tokenType: TokenType, value: JString)

  const SEMI: JChar := ';' as int as JChar
  const DASH: JChar := '-' as int as JChar
  const QUOTE: JChar := '\'' as int as JChar
  /** End (exclusive) of a quoted literal whose body starts at `j`: a lone
      quote closes it, a doubled quote is part of it, and the end of the
      input closes an unterminated one. */
  function LiteralEnd(s: JString, j: nat): (e: nat)
    requires j <= |s|
    ensures j <= e <= |s|
    decreases |s| - j
  {
    if j == |s| then j
    else if s[j] == QUOTE then
      (if j + 1 < |s| && s[j + 1] == QUOTE then LiteralEnd(s, j + 2) else j + 1)
    else LiteralEnd(s, j + 1)
  }

  /** The pending CODE span s[start..i], if it is not empty. */
  function Flush(s: JString, start: nat, i: nat): seq<Token>
    requires start <= i <= |s|
  {
    if start < i then [Token(Code, s[start..i])] else []
  }

  predicate StartsComment(s: JString, i: nat)
    requires i < |s|
  {
    s[i] == DASH && i + 1 < |s| && s[i + 1] == DASH
  }

  /** Tokens of s[start..], where s[start..i] is plain code already scanned. */
  function Scan(s: JString, start: nat, i: nat): seq<Token>
    requires start <= i <= |s|
    decreases |s| - i, 1
  {
    if i == |s| then Flush(s, start, i)
    else if s[i] == SEMI then Emit(s, start, i, Semicolon, i + 1)
    else if StartsComment(s, i) then Emit(s, start, i, Comment, LineEnd(s, i))
    else if s[i] == QUOTE then Emit(s, start, i, Code, LiteralEnd(s, i + 1))
    else Scan(s, start, i + 1)
  }

  /** Flushes the pending code, emits s[i..e] as one token, and goes on after it. */
  function Emit(s: JString, start: nat, i: nat, tokenType: TokenType, e: nat): seq<Token>
    requires start <= i < e <= |s|
    decreases |s| - i, 0
  {
    Flush(s, start, i) + [Token(tokenType, s[i..e])] + Scan(s, e, e)
  }

  /** QueryTokenizer.tokenize(text). */
  function Tokenize(text: JString): seq<Token>
  {
    Scan(text, 0, 0)
  }

  function Values(tokens: seq<Token>): JString
  {
    if tokens == [] then [] else tokens[0].value + Values(tokens[1..])
  }

  lemma {:induction false} ValuesAppend(a: seq<Token>, b: seq<Token>)
    ensures Values(a + b) == Values(a) + Values(b)
  {
    if a == [] {
      assert a + b == b;
    } else {
      assert (a + b)[1..] == a[1..] + b;
      ValuesAppend(a[1..], b);
    }
  }

  /** Every token is non-empty, every COMMENT starts with `--` and holds no
      line break, and every SEMICOLON is exactly `;`. */
  predicate WellFormedToken(t: Token)
  {
    && t.value != []
    && (t.tokenType == Comment ==>
          |t.value| >= 2 && t.value[0] == DASH && t.value[1] == DASH
          && forall k :: 0 <= k < |t.value| ==> !IsLineBreak(t.value[k]))
    && (t.tokenType == Semicolon ==> t.value == [SEMI])
  }

  lemma FlushValues(s: JString, start: nat, i: nat)
    requires start <= i <= |s|
    ensures Values(Flush(s, start, i)) == s[start..i]
  {
    if start < i {
      assert Values(Flush(s, start, i)) == s[start..i] + Values([]);
    }
  }

  lemma {:induction false} ScanRoundTrip(s: JString, start: nat, i: nat)
    requires start <= i <= |s|
    ensures Values(Scan(s, start, i)) == s[start..]
    decreases |s| - i, 1
  {
    if i == |s| {
      FlushValues(s, start, i);
    } else if s[i] == SEMI {
      EmitRoundTrip(s, start, i, Semicolon, i + 1);
    } else if StartsComment(s, i) {
      EmitRoundTrip(s, start, i, Comment, LineEnd(s, i));
    } else if s[i] == QUOTE {
      EmitRoundTrip(s, start, i, Code, LiteralEnd(s, i + 1));
    } else {
      ScanRoundTrip(s, start, i + 1);
    }
  }

  lemma {:induction false} EmitRoundTrip(s: JString, start: nat, i: nat, tokenType: TokenType, e: nat)
    requires start <= i < e <= |s|
    ensures Values(Emit(s, start, i, tokenType, e)) == s[start..]
    decreases |s| - i, 0
  {
    var f := Flush(s, start, i);
    var t := [Token(tokenType, s[i..e])];
    ScanRoundTrip(s, e, e);
    FlushValues(s, start, i);
    ValuesAppend(f + t, Scan(s, e, e));
    ValuesAppend(f, t);
    assert Values(t) == s[i..e] + Values([]);
    assert s[start..] == s[start..i] + s[i..e] + s[e..];
  }

  lemma {:induction false} ScanWellFormed(s: JString, start: nat, i: nat)
    requires start <= i <= |s|
    ensures forall k :: 0 <= k < |Scan(s, start, i)| ==> WellFormedToken(Scan(s, start, i)[k])
    decreases |s| - i, 1
  {
    if i == |s| {
    } else if s[i] == SEMI {
      assert s[i..i + 1] == [SEMI];
      EmitWellFormed(s, start, i, Semicolon, i + 1);
    } else if StartsComment(s, i) {
      EmitWellFormed(s, start, i, Comment, LineEnd(s, i));
    } else if s[i] == QUOTE {
      EmitWellFormed(s, start, i, Code, LiteralEnd(s, i + 1));
    } else {
      ScanWellFormed(s, start, i + 1);
    }
  }

  lemma {:induction false} EmitWellFormed(s: JString, start: nat, i: nat, tokenType: TokenType, e: nat)
    requires start <= i < e <= |s|
    requires WellFormedToken(Token(tokenType, s[i..e]))
    ensures forall k :: 0 <= k < |Emit(s, start, i, tokenType, e)| ==> WellFormedToken(Emit(s, start, i, tokenType, e)[k])
    decreases |s| - i, 0
  {
    ScanWellFormed(s, e, e);
  }

  /** Concatenating the token texts in order gives back the input, and
      every token is well formed. */
  lemma TokenizeRoundTrip(text: JString)
    ensures Values(Tokenize(text)) == text
    ensures forall k :: 0 <= k < |Tokenize(text)| ==> WellFormedToken(Tokenize(text)[k])
  {
    ScanRoundTrip(text, 0, 0);
    ScanWellFormed(text, 0, 0);
  }

  /** "" gives no tokens; ";" gives one SEMICOLON token. */
  lemma TokenizeSmallCases()
    ensures Tokenize([]) == []
    ensures Tokenize(Str(";")) == [Token(Semicolon, Str(";"))]
  {
    var s := Str(";");
    assert s[0] == SEMI;
    assert s[0..1] == Str(";");
    assert Scan(s, 1, 1) == [];
    assert Tokenize(s) == Emit(s, 0, 0, Semicolon, 1);
  }

  // ---------------------------------------------------------------------
  // What each kind of text becomes

  /** Code text with no `;`, no quote and no `--`, and not ending in `-`:
      the scanner passes over it without emitting anything. */
  predicate PlainCode(c: JString)
  {
    forall k :: 0 <= k < |c| ==> PlainAt(c, k)
  }

  predicate PlainAt(c: JString, k: nat)
    requires k < |c|
  {
    c[k] != SEMI && c[k] != QUOTE && (c[k] == DASH ==> k + 1 < |c| && c[k + 1] != DASH)
  }

  predicate NoQuote(x: JString)
  {
    forall k :: 0 <= k < |x| ==> x[k] != QUOTE
  }

  predicate NoLineBreak(r: JString)
  {
    forall k :: 0 <= k < |r| ==> !IsLineBreak(r[k])
  }

  /** The CODE token of a pending span, if it is not empty. */
  function CodeTokens(c: JString): (r: seq<Token>)
    ensures r == [] <==> c == []
  {
    if c == [] then [] else [Token(Code, c)]
  }

  /** Characters that start no SEMICOLON, COMMENT or literal token only
      extend the pending CODE span. */
  lemma {:induction false} ScanSkipsCode(s: JString, start: nat, i: nat, j: nat)
    requires start <= i <= j <= |s|
    requires forall k :: i <= k < j ==> s[k] != SEMI && s[k] != QUOTE && !StartsComment(s, k)
    ensures Scan(s, start, i) == Scan(s, start, j)
    decreases j - i
  {
    if i < j {
      ScanSkipsCode(s, start, i + 1, j);
    }
  }

  /** Plain code at position i of s is passed over. */
  lemma PlainSpan(s: JString, start: nat, i: nat, c: JString)
    requires start <= i && i + |c| <= |s| && s[i..i + |c|] == c && PlainCode(c)
    ensures Scan(s, start, i) == Scan(s, start, i + |c|)
  {
    forall k | i <= k < i + |c|
      ensures s[k] != SEMI && s[k] != QUOTE && !StartsComment(s, k)
    {
      assert s[k] == c[k - i];
      PlainCodeAt(c, k - i);
      if s[k] == DASH {
        assert s[k + 1] == c[k + 1 - i];
      }
    }
    ScanSkipsCode(s, start, i, i + |c|);
  }

  lemma PlainCodeAt(c: JString, k: nat)
    requires PlainCode(c) && k < |c|
    ensures c[k] != SEMI && c[k] != QUOTE && (c[k] == DASH ==> k + 1 < |c| && c[k + 1] != DASH)
  {
    assert PlainAt(c, k);
  }

  /** A literal body without quotes does not end the literal. */
  lemma {:induction false} LiteralSkips(s: JString, j: nat, n: nat)
    requires j + n <= |s|
    requires forall k :: j <= k < j + n ==> s[k] != QUOTE
    ensures LiteralEnd(s, j) == LiteralEnd(s, j + n)
    decreases n
  {
    if n > 0 {
      LiteralSkips(s, j + 1, n - 1);
    }
  }

  /** The pending span at the end of the text becomes its CODE token. */
  lemma FlushAtEnd(s: JString, start: nat)
    requires start <= |s|
    ensures Scan(s, start, |s|) == CodeTokens(s[start..])
  {
    assert s[start..|s|] == s[start..];
  }

  /** QueryTokenizerTest: code alone is one CODE token. */
  lemma TokenizeCode(c: JString)
    requires PlainCode(c)
    ensures Tokenize(c) == CodeTokens(c)
  {
    PlainSpan(c, 0, 0, c);
    FlushAtEnd(c, 0);
  }

  /** QueryTokenizerTest: a comment alone is one COMMENT token. */
  lemma TokenizeComment(r: JString)
    requires NoLineBreak(r)
    ensures Tokenize([DASH, DASH] + r) == [Token(Comment, [DASH, DASH] + r)]
  {
    var s := [DASH, DASH] + r;
    assert StartsComment(s, 0);
    assert LineEnd(s, 0) == |s|;
    assert Tokenize(s) == Emit(s, 0, 0, Comment, |s|);
    assert Scan(s, |s|, |s|) == [];
    assert s[0..|s|] == s;
  }

  /** QueryTokenizerTest: a literal with a doubled quote inside is one CODE
      token. */
  lemma TokenizeEscapedLiteral(x: JString, y: JString)
    requires NoQuote(x) && NoQuote(y)
    ensures var s := [QUOTE] + x + [QUOTE, QUOTE] + y + [QUOTE];
            Tokenize(s) == [Token(Code, s)]
  {
    var s := [QUOTE] + x + [QUOTE, QUOTE] + y + [QUOTE];
    var n := |x|;
    assert LiteralEnd(s, 1) == LiteralEnd(s, 1 + n) by {
      assert forall k :: 1 <= k < 1 + n ==> s[k] == x[k - 1];
      LiteralSkips(s, 1, n);
    }
    assert s[1 + n] == QUOTE && s[2 + n] == QUOTE;
    assert LiteralEnd(s, 3 + n) == LiteralEnd(s, 3 + n + |y|) by {
      assert forall k :: 3 + n <= k < 3 + n + |y| ==> s[k] == y[k - 3 - n];
      LiteralSkips(s, 3 + n, |y|);
    }
    assert s[3 + n + |y|] == QUOTE && 3 + n + |y| + 1 == |s|;
    assert LiteralEnd(s, 1) == |s|;
    assert Tokenize(s) == Emit(s, 0, 0, Code, |s|);
    assert Scan(s, |s|, |s|) == [];
    assert s[0..|s|] == s;
  }

  /** QueryTokenizerTest: a literal whose last quote is doubled never
      closes, and runs to the end of the text as one CODE token. */
  lemma TokenizeUnterminatedLiteral(x: JString)
    requires NoQuote(x)
    ensures var s := [QUOTE] + x + [QUOTE, QUOTE];
            Tokenize(s) == [Token(Code, s)]
  {
    var s := [QUOTE] + x + [QUOTE, QUOTE];
    var n := |x|;
    assert LiteralEnd(s, 1) == LiteralEnd(s, 1 + n) by {
      assert forall k :: 1 <= k < 1 + n ==> s[k] == x[k - 1];
      LiteralSkips(s, 1, n);
    }
    assert s[1 + n] == QUOTE && s[2 + n] == QUOTE && 3 + n == |s|;
    assert LiteralEnd(s, 1) == |s|;
    assert Tokenize(s) == Emit(s, 0, 0, Code, |s|);
    assert Scan(s, |s|, |s|) == [];
    assert s[0..|s|] == s;
  }

  /** QueryTokenizerTest: a closed literal between code is a CODE token of
      its own, apart from the code before and after it. */
  lemma TokenizeCodeLiteralCode(a: JString, x: JString, b: JString)
    requires PlainCode(a) && NoQuote(x) && PlainCode(b)
    ensures var lit := [QUOTE] + x + [QUOTE];
            Tokenize(a + lit + b) == CodeTokens(a) + [Token(Code, lit)] + CodeTokens(b)
  {
    var lit := [QUOTE] + x + [QUOTE];
    var s := a + lit + b;
    var n := |a|;
    var m := n + |lit|;
    assert s[0..n] == a && s[n..m] == lit && s[m..] == b;
    assert Scan(s, 0, 0) == Scan(s, 0, n) by {
      PlainSpan(s, 0, 0, a);
    }
    assert LiteralEnd(s, n + 1) == m by {
      if m < |s| {
        assert |s| == m + |b|;
        PlainCodeAt(b, 0);
        assert s[m] == b[0];
      }
      ClosedLiteral(s, n, x);
    }
    assert Scan(s, 0, n) == Flush(s, 0, n) + [Token(Code, lit)] + Scan(s, m, m) by {
      assert s[n] == QUOTE;
    }
    assert Scan(s, m, m) == CodeTokens(b) by {
      assert s[m..|s|] == b;
      PlainSpan(s, m, m, b);
      FlushAtEnd(s, m);
    }
  }

  /** A literal `'x'` at position n of s, with no quote in x, closes after
      its second quote unless another quote follows at once. */
  lemma ClosedLiteral(s: JString, n: nat, x: JString)
    requires n + |x| + 2 <= |s| && s[n..n + |x| + 2] == [QUOTE] + x + [QUOTE] && NoQuote(x)
    requires n + |x| + 2 < |s| ==> s[n + |x| + 2] != QUOTE
    ensures LiteralEnd(s, n + 1) == n + |x| + 2
  {
    forall k | n + 1 <= k < n + 1 + |x|
      ensures s[k] != QUOTE
    {
      assert s[k] == s[n..n + |x| + 2][k - n] == x[k - n - 1];
    }
    LiteralSkips(s, n + 1, |x|);
    assert s[n + 1 + |x|] == s[n..n + |x| + 2][|x| + 1];
  }

  /** QueryTokenizerTest: a `;` is a SEMICOLON token between the CODE
      tokens before and after it. */
  lemma TokenizeCodeSemicolonCode(a: JString, b: JString)
    requires PlainCode(a) && PlainCode(b)
    ensures Tokenize(a + [SEMI] + b) == CodeTokens(a) + [Token(Semicolon, [SEMI])] + CodeTokens(b)
  {
    var s := a + [SEMI] + b;
    var n := |a|;
    assert Scan(s, 0, 0) == Scan(s, 0, n) by {
      assert s[0..n] == a;
      PlainSpan(s, 0, 0, a);
    }
    assert s[n] == SEMI;
    assert Scan(s, 0, n) == Flush(s, 0, n) + [Token(Semicolon, s[n..n + 1])] + Scan(s, n + 1, n + 1);
    assert Scan(s, n + 1, n + 1) == CodeTokens(b) by {
      assert s[n + 1..|s|] == b;
      PlainSpan(s, n + 1, n + 1, b);
      FlushAtEnd(s, n + 1);
    }
    assert s[0..n] == a && s[n..n + 1] == [SEMI];
  }

  /** QueryTokenizerTest: a comment after code is a COMMENT token after the
      CODE token. */
  lemma TokenizeCodeComment(a: JString, r: JString)
    requires PlainCode(a) && NoLineBreak(r)
    ensures Tokenize(a + [DASH, DASH] + r) == CodeTokens(a) + [Token(Comment, [DASH, DASH] + r)]
  {
    var s := a + [DASH, DASH] + r;
    var n := |a|;
    assert Scan(s, 0, 0) == Scan(s, 0, n) by {
      assert s[0..n] == a;
      PlainSpan(s, 0, 0, a);
    }
    assert s[n] == DASH && s[n + 1] == DASH;
    assert LineEnd(s, n) == |s|;
    assert StartsComment(s, n);
    assert Scan(s, 0, n) == Flush(s, 0, n) + [Token(Comment, s[n..|s|])] + Scan(s, |s|, |s|);
    assert Scan(s, |s|, |s|) == [];
    assert s[0..n] == a && s[n..|s|] == [DASH, DASH] + r;
  }

  /** QueryTokenizerTest: a comment stops before the line break, which
      starts the CODE token after it. */
  lemma TokenizeCommentCode(r: JString, b: JString)
    requires NoLineBreak(r) && PlainCode(b)
    ensures Tokenize([DASH, DASH] + r + [LF] + b) == [Token(Comment, [DASH, DASH] + r), Token(Code, [LF] + b)]
  {
    var s := [DASH, DASH] + r + [LF] + b;
    var e := 2 + |r|;
    assert StartsComment(s, 0);
    assert LineEnd(s, 0) == e by {
      assert s[e] == LF;
    }
    var rest := [LF] + b;
    assert PlainCode(rest) by {
      forall k | 0 <= k < |rest|
        ensures PlainAt(rest, k)
      {
        if k > 0 {
          assert rest[k] == b[k - 1];
          PlainCodeAt(b, k - 1);
          if k + 1 < |rest| {
            assert rest[k + 1] == b[k];
          }
        }
      }
    }
    assert Scan(s, e, e) == [Token(Code, rest)] by {
      assert s[e..|s|] == rest;
      PlainSpan(s, e, e, rest);
      FlushAtEnd(s, e);
    }
    assert Tokenize(s) == Emit(s, 0, 0, Comment, e);
    assert Flush(s, 0, 0) == [];
    assert s[0..e] == [DASH, DASH] + r;
  }
}
