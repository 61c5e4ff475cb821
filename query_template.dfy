/** worker/query/QueryTemplate.java: rewrites a query whose select list is
    the placeholder `*` into one query per table reference after FROM or
    JOIN, selecting `<alias or table>.*`. The six fixed regular expressions
    are written out as scanners with the meaning Java gives them under
    CASE_INSENSITIVE: `\w` is [A-Za-z0-9_], `\s` is [ \t\n\x0B\f\r], case is
    folded on ASCII letters only, `\b` before or after a word character
    checks that the neighbouring character is not a `\w` character, and
    each find() resumes where the previous match ended. Java also counts a
    combining mark on a letter or digit as a word character for `\b`; the
    model treats such a mark as a non-word character. */
module QueryTemplates {
  import opened JavaText
  import opened Results
  import opened Queries

  // ---------------------------------------------------------------------
  // Character classes and scanning helpers

  predicate IsWordChar(c: JChar)
  {
    IsAsciiUpper(c) || IsAsciiLower(c) || ('0' as int <= c as int <= '9' as int) || c as int == '_' as int
  }

  predicate IsRegexSpace(c: JChar)
  {
    c as int == ' ' as int || 9 <= c as int <= 13
  }

  /** End of the run of `\w` characters starting at i. */
  function WordEnd(s: JString, i: nat): (e: nat)
    requires i <= |s|
    ensures i <= e <= |s|
    ensures forall k :: i <= k < e ==> IsWordChar(s[k])
    ensures e < |s| ==> !IsWordChar(s[e])
    decreases |s| - i
  {
    if i < |s| && IsWordChar(s[i]) then WordEnd(s, i + 1) else i
  }

  /** End of the run of `\s` characters starting at i. */
  function SpaceEnd(s: JString, i: nat): (e: nat)
    requires i <= |s|
    ensures i <= e <= |s|
    ensures forall k :: i <= k < e ==> IsRegexSpace(s[k])
    ensures e < |s| ==> !IsRegexSpace(s[e])
    decreases |s| - i
  {
    if i < |s| && IsRegexSpace(s[i]) then SpaceEnd(s, i + 1) else i
  }

  /** The lowercase word `w` occurs at i, compared case-insensitively. */
  predicate LettersAt(s: JString, i: nat, w: JString)
  {
    i + |w| <= |s| && ToLowerAscii(s[i..i + |w|]) == w
  }

  /** `\b` followed by the word `w`: the character before i is not a word
      character. */
  predicate KeywordAt(s: JString, i: nat, w: JString)
  {
    i <= |s| && (i == 0 || !IsWordChar(s[i - 1])) && LettersAt(s, i, w)
  }

  const STAR: JChar := '*' as int as JChar
  const DOT: JChar := '.' as int as JChar
  const OPEN_PAREN: JChar := '(' as int as JChar

  const WITH: JString := Str("with")
  const FROM: JString := Str("from")
  const JOIN: JString := Str("join")
  const SELECT: JString := Str("select")
  const AS: JString := Str("as")

  // ---------------------------------------------------------------------
  // NO_SUBSTITUTE: the four patterns that mark a subquery or a CTE

  datatype Guard =
    | WithSpace    // \bwith\s+
    | FromParen    // \bfrom\s*\(
    | JoinParen    // \bjoin\s*\(
    | ParenSelect  // \(\s*select\b

  const GUARDS: seq<Guard> := [WithSpace, FromParen, JoinParen, ParenSelect]

  /** The guard pattern matches starting at i. */
  predicate GuardAt(s: JString, g: Guard, i: nat)
    requires i <= |s|
  {
    match g
    case WithSpace => KeywordAt(s, i, WITH) && SpaceEnd(s, i + 4) > i + 4
    case FromParen =>
      KeywordAt(s, i, FROM) && var j := SpaceEnd(s, i + 4); j < |s| && s[j] == OPEN_PAREN
    case JoinParen =>
      KeywordAt(s, i, JOIN) && var j := SpaceEnd(s, i + 4); j < |s| && s[j] == OPEN_PAREN
    case ParenSelect =>
      i < |s| && s[i] == OPEN_PAREN &&
      var j := SpaceEnd(s, i + 1);
      LettersAt(s, j, SELECT) && (j + 6 == |s| || !IsWordChar(s[j + 6]))
  }

  /** pattern.matcher(s).find() from position i. */
  function FindGuard(s: JString, g: Guard, i: nat): (r: bool)
    requires i <= |s|
    ensures r <==> exists k :: i <= k <= |s| && GuardAt(s, g, k)
    decreases |s| - i
  {
    GuardAt(s, g, i) || (i < |s| && FindGuard(s, g, i + 1))
  }

  /** Some NO_SUBSTITUTE pattern occurs in the text. */
  predicate HasSubquery(s: JString)
  {
    exists g :: g in GUARDS && FindGuard(s, g, 0)
  }

  // ---------------------------------------------------------------------
  // TABLE_NAMES: \b(from|join)\s+(\w+(\.\w+)?)(\s+as)?(\s+(\w+))?

  /** One find() result: where it starts and ends, group 1 (the table) and
      group 5 (the alias, null when the group did not take part). */
  datatype TableMatch = TableMatch(start: nat, end: nat, table: JString, alias: Option<JString>)

  /** `\w+(\.\w+)?` starting at b, greedy: a dotted tail is taken only when a
      word character follows the dot. */
  function QualifiedNameEnd(s: JString, b: nat): (d: nat)
    requires b <= |s|
    ensures b <= d <= |s|
  {
    var c := WordEnd(s, b);
    if c + 1 < |s| && s[c] == DOT && IsWordChar(s[c + 1]) then WordEnd(s, c + 1) else c
  }

  /** The pattern for keyword `kw` ("from" or "join") matched at i. Every
      optional group is tried greedily and left out when it cannot match;
      since all that follows group 1 is optional, no other backtracking
      can change the outcome. `(\s+as)` has no `\b`, so it also takes the
      first two letters of a word such as "assets". */
  function TableAt(s: JString, kw: JString, i: nat): (r: Option<TableMatch>)
    requires i <= |s|
    ensures r.Some? ==> r.value.start == i && i < r.value.end <= |s|
  {
    if !KeywordAt(s, i, kw) then None else TableAfter(s, i, i + |kw|)
  }

  /** The rest of the pattern once the keyword has matched at i and ended
      at a: `\s+`, group 1, the optional `\s+as` and the optional alias. */
  function TableAfter(s: JString, i: nat, a: nat): (r: Option<TableMatch>)
    requires i <= a <= |s|
    ensures r.Some? ==> r.value.start == i && a < r.value.end <= |s|
  {
    var b := SpaceEnd(s, a);
    if b == a || b == |s| || !IsWordChar(s[b]) then None
    else
      var d := QualifiedNameEnd(s, b);
      var e := SpaceEnd(s, d);
      var f := if e > d && LettersAt(s, e, AS) then e + 2 else d;
      var g := SpaceEnd(s, f);
      if g > f && g < |s| && IsWordChar(s[g]) then
        var h := WordEnd(s, g);
        Some(TableMatch(i, h, s[b..d], Some(s[g..h])))
      else
        Some(TableMatch(i, f, s[b..d], None))
  }

  /** matcher.find() from position p: the leftmost match starting at or
      after p. */
  function FindTable(s: JString, kw: JString, p: nat): (r: Option<TableMatch>)
    requires p <= |s|
    ensures r.Some? ==> p <= r.value.start <= |s| && TableAt(s, kw, r.value.start) == r
    ensures r.Some? ==> forall k :: p <= k < r.value.start ==> TableAt(s, kw, k).None?
    ensures r.None? ==> forall k :: p <= k <= |s| ==> TableAt(s, kw, k).None?
    decreases |s| - p
  {
    var m := TableAt(s, kw, p);
    if m.Some? then m
    else if p == |s| then None
    else
      var r := FindTable(s, kw, p + 1);
      assert r.None? ==> forall k :: p + 1 <= k <= |s| ==> TableAt(s, kw, k).None?;
      r
  }

  /** The matches successive find() calls return, starting at p. */
  function AllTables(s: JString, kw: JString, p: nat): seq<TableMatch>
    requires p <= |s|
    decreases |s| - p
  {
    var m := FindTable(s, kw, p);
    if m.None? then [] else [m.value] + AllTables(s, kw, m.value.end)
  }

  /** The matches lie at or after p, within the text, and are non-empty. */
  lemma {:induction false} AllTablesBounds(s: JString, kw: JString, p: nat)
    requires p <= |s|
    ensures forall k :: 0 <= k < |AllTables(s, kw, p)| ==>
      p <= AllTables(s, kw, p)[k].start < AllTables(s, kw, p)[k].end <= |s|
    decreases |s| - p
  {
    var m := FindTable(s, kw, p);
    if m.Some? {
      var rest := AllTables(s, kw, m.value.end);
      AllTablesBounds(s, kw, m.value.end);
      var r := [m.value] + rest;
      assert AllTables(s, kw, p) == r;
      forall k | 0 < k < |r|
        ensures p <= r[k].start < r[k].end <= |s|
      {
        assert r[k] == rest[k - 1];
      }
    }
  }

  /** FROM matches, then JOIN matches. */
  function TableReferences(s: JString): seq<TableMatch>
  {
    AllTables(s, FROM, 0) + AllTables(s, JOIN, 0)
  }

  // ---------------------------------------------------------------------
  // Building the queries

  /** SQL_KEYWORDS: words that the alias group can catch but that are not
      aliases. */
  const SQL_KEYWORDS: set<JString> := {
    Str("inner"), Str("left"), Str("right"), Str("cross"), Str("natural"),
    Str("join"), Str("using"), Str("on"), Str("where"), Str("having"),
    Str("group"), Str("order"), Str("limit"), Str("into"), Str("for")
  }

  /** The name a query selects from: the alias, unless it is absent or
      (lower-cased) an SQL keyword, in which case the table name. */
  function SelectedId(m: TableMatch): JString
  {
    if m.alias.None? || ToLowerAscii(m.alias.value) in SQL_KEYWORDS then m.table else m.alias.value
  }

  /** The query for one table: the text left of the `*`, then the id,
      then `.*`, then the text right of the `*`, named by the table. */
  function BuildQuery(left: JString, right: JString, table: JString, id: JString): (q: Query)
    ensures q.tableName == Some(table)
    ensures |q.queryText| == |left| + |id| + 2 + |right|
    ensures q.queryText[..|left|] == left && q.queryText[|left| + |id| + 2..] == right
    ensures q.queryText[|left|..|left| + |id| + 2] == id + Str(".*")
  {
    var text := left + id + Str(".*") + right;
    assert text[|left|..|left| + |id| + 2] == id + Str(".*");
    Query(Some(table), text)
  }

  function QueryFor(text: JString, star: nat, m: TableMatch): Query
    requires star < |text|
  {
    BuildQuery(text[..star], text[star + 1..], m.table, SelectedId(m))
  }

  function QueriesFor(text: JString, star: nat, ms: seq<TableMatch>): (r: seq<Query>)
    requires star < |text|
    ensures |r| == |ms|
  {
    if ms == [] then [] else [QueryFor(text, star, ms[0])] + QueriesFor(text, star, ms[1..])
  }

  const TEMPLATE_FAILED: JString := Str("Building template failed. ")
  const QUERY_HEADER: JString := Str("Query:\n")

  function TemplateError(reason: JString, text: JString): JString
  {
    TEMPLATE_FAILED + reason + QUERY_HEADER + text
  }

  function EmptyTemplateError(text: JString): JString
  {
    TemplateError(Str("NO table found in this query. "), text)
  }

  function PlaceholderError(text: JString): JString
  {
    TemplateError(Str("Query does not contain table placeholder `*`. "), text)
  }

  function SubqueryError(text: JString): JString
  {
    TemplateError(Str("Query has subqueries or CTE's and can't be used for substitution. "), text)
  }

  /** What generate() returns for a query text. */
  function GenerateSpec(text: JString): (r: Result<seq<Query>, JString>)
    ensures r.IsOk() != r.IsError()
    ensures r.IsOk() ==> r.value.value != []
  {
    if HasSubquery(text) then Error(Some(SubqueryError(text)))
    else
      var star := IndexOf(text, STAR);
      if star == -1 then Error(Some(PlaceholderError(text)))
      else
        var queries := QueriesFor(text, star, TableReferences(text));
        if queries == [] then Error(Some(EmptyTemplateError(text))) else Ok(Some(queries))
  }

  class QueryTemplate {
    const queryText: JString

    constructor (queryText: JString)
      ensures this.queryText == queryText
    {
      this.queryText := queryText;
    }

    /** generate(): refuse subqueries, find the placeholder, then expand it
        once per table reference. */
    method Generate() returns (r: Result<seq<Query>, JString>)
      ensures r == GenerateSpec(queryText)
    {
      var subquery := FindSubquery();
      if subquery {
        return Error(Some(SubqueryError(queryText)));
      }
      var starIndex := IndexOf(queryText, STAR);
      if starIndex == -1 {
        return Error(Some(PlaceholderError(queryText)));
      }
      var result := ExpandAll(starIndex);
      if result == [] {
        return Error(Some(EmptyTemplateError(queryText)));
      }
      return Ok(Some(result));
    }

    /** The loop of generate() over the NO_SUBSTITUTE patterns. */
    method FindSubquery() returns (found: bool)
      ensures found == HasSubquery(queryText)
    {
      for gi := 0 to |GUARDS|
        invariant forall k :: 0 <= k < gi ==> !FindGuard(queryText, GUARDS[k], 0)
      {
        if FindGuard(queryText, GUARDS[gi], 0) {
          assert GUARDS[gi] in GUARDS;
          return true;
        }
      }
      NoGuardFound(queryText);
      return false;
    }

    /** The loop of generate() over the two TABLE_NAMES patterns: the
        FROM matches, then the JOIN matches, each expanded into a query. */
    method ExpandAll(starIndex: nat) returns (result: seq<Query>)
      requires starIndex < |queryText|
      ensures result == QueriesFor(queryText, starIndex, TableReferences(queryText))
    {
      var fromQueries := FindAll(FROM, starIndex);
      var joinQueries := FindAll(JOIN, starIndex);
      QueriesForAppend(queryText, starIndex, AllTables(queryText, FROM, 0), AllTables(queryText, JOIN, 0));
      result := fromQueries + joinQueries;
    }

    /** The `while (matcher.find())` loop of generate() for one pattern: one
        query per match, in the order find() returns them. */
    method FindAll(kw: JString, starIndex: nat) returns (found: seq<Query>)
      requires starIndex < |queryText|
      ensures found == QueriesFor(queryText, starIndex, AllTables(queryText, kw, 0))
    {
      var queryLeft := queryText[..starIndex];
      var queryRight := queryText[starIndex + 1..];
      found := [];
      var position := 0;
      var m := FindTable(queryText, kw, position);
      while m.Some?
        invariant position <= |queryText|
        invariant m == FindTable(queryText, kw, position)
        invariant found + QueriesFor(queryText, starIndex, AllTables(queryText, kw, position))
               == QueriesFor(queryText, starIndex, AllTables(queryText, kw, 0))
        decreases |queryText| - position
      {
        var tableName := m.value.table;
        var tableAlias := m.value.alias;
        var nextQuery;
        if tableAlias.None? || ToLowerAscii(tableAlias.value) in SQL_KEYWORDS {
          nextQuery := BuildQuery(queryLeft, queryRight, tableName, tableName);
        } else {
          nextQuery := BuildQuery(queryLeft, queryRight, tableName, tableAlias.value);
        }
        assert nextQuery == QueryFor(queryText, starIndex, m.value);
        ghost var rest := AllTables(queryText, kw, m.value.end);
        assert AllTables(queryText, kw, position) == [m.value] + rest;
        QueriesForAppend(queryText, starIndex, [m.value], rest);
        assert QueriesFor(queryText, starIndex, [m.value]) == [nextQuery];
        ghost var total := QueriesFor(queryText, starIndex, AllTables(queryText, kw, 0));
        assert found + ([nextQuery] + QueriesFor(queryText, starIndex, rest)) == total;
        ConcatAssoc(found, [nextQuery], QueriesFor(queryText, starIndex, rest));
        found := found + [nextQuery];
        position := m.value.end;
        m := FindTable(queryText, kw, position);
      }
    }
  }

  /** QueryTemplate.generate(query): expands the query's text. */
  method GenerateFor(query: Query) returns (r: Result<seq<Query>, JString>)
    ensures r == GenerateSpec(query.queryText)
  {
    var template := new QueryTemplate(query.queryText);
    r := template.Generate();
  }

  lemma NoGuardFound(s: JString)
    requires forall k :: 0 <= k < |GUARDS| ==> !FindGuard(s, GUARDS[k], 0)
    ensures !HasSubquery(s)
  {
    forall g | g in GUARDS
      ensures !FindGuard(s, g, 0)
    {
      var k :| 0 <= k < |GUARDS| && GUARDS[k] == g;
    }
  }

  lemma ConcatAssoc<T>(a: seq<T>, b: seq<T>, c: seq<T>)
    ensures (a + b) + c == a + (b + c)
  {
  }

  lemma {:induction false} QueriesForIndex(text: JString, star: nat, ms: seq<TableMatch>)
    requires star < |text|
    ensures forall k :: 0 <= k < |ms| ==> QueriesFor(text, star, ms)[k] == QueryFor(text, star, ms[k])
  {
    if ms != [] {
      QueriesForIndex(text, star, ms[1..]);
    }
  }

  lemma {:induction false} QueriesForAppend(text: JString, star: nat, a: seq<TableMatch>, b: seq<TableMatch>)
    requires star < |text|
    ensures QueriesFor(text, star, a + b) == QueriesFor(text, star, a) + QueriesFor(text, star, b)
  {
    if a == [] {
      assert a + b == b;
    } else {
      assert (a + b)[1..] == a[1..] + b;
      QueriesForAppend(text, star, a[1..], b);
    }
  }

  // ---------------------------------------------------------------------
  // Properties of the expansion

  /** A subquery or CTE is refused before anything else is looked at; a
      text without `*` (the empty one included) is refused next; otherwise
      the result is an error exactly when no FROM or JOIN table was found,
      and holds one query per table reference, FROM ones first, without
      removing duplicates. */
  lemma GenerateOutcome(text: JString)
    ensures HasSubquery(text) ==> GenerateSpec(text) == Error(Some(SubqueryError(text)))
    ensures !HasSubquery(text) && STAR !in text ==> GenerateSpec(text) == Error(Some(PlaceholderError(text)))
    ensures !HasSubquery(text) && STAR in text ==>
      (GenerateSpec(text).IsOk() <==> TableReferences(text) != [])
      && (GenerateSpec(text).IsError() <==> TableReferences(text) == [])
      && (TableReferences(text) == [] ==> GenerateSpec(text) == Error(Some(EmptyTemplateError(text))))
      && (GenerateSpec(text).IsOk() ==> |GenerateSpec(text).value.value| == |TableReferences(text)|)
  {
  }

  /** The query built for one match is the template with its `*`
      replaced by `<id>.*`; putting the `*` back gives the template. */
  lemma QueryForRestores(text: JString, star: nat, m: TableMatch)
    requires star < |text| && text[star] == STAR
    ensures var id := SelectedId(m);
            var q := QueryFor(text, star, m);
            && q.tableName == Some(m.table)
            && q.queryText == text[..star] + id + Str(".*") + text[star + 1..]
            && q.queryText[..star] + [STAR] + q.queryText[star + |id| + 2..] == text
  {
    assert text == text[..star] + [STAR] + text[star + 1..];
  }

  /** Every generated query is the template with its first `*` replaced by
      `<id>.*`, and putting the `*` back gives the template again; its
      table is the reference's group 1, and the id is its alias unless the
      alias is missing or a keyword. */
  lemma GeneratedQueries(text: JString)
    requires GenerateSpec(text).IsOk()
    ensures STAR in text
    ensures ExpandsEachReference(text, IndexOf(text, STAR), TableReferences(text), GenerateSpec(text).value.value)
  {
    GeneratedList(text);
    ExpandedQueries(text, IndexOf(text, STAR), TableReferences(text));
  }

  /** Query k of `out` is the template with the `*` at `star` replaced by
      `<id>.*` for reference k, names that reference's table, and gives the
      template back when the `*` is put back. */
  ghost predicate ExpandsEachReference(text: JString, star: nat, refs: seq<TableMatch>, out: seq<Query>)
    requires star < |text|
  {
    |out| == |refs| &&
    forall k :: 0 <= k < |out| ==>
      var id := SelectedId(refs[k]);
      && out[k].tableName == Some(refs[k].table)
      && out[k].queryText == text[..star] + id + Str(".*") + text[star + 1..]
      && |out[k].queryText| >= star + |id| + 2
      && out[k].queryText[..star] + [STAR] + out[k].queryText[star + |id| + 2..] == text
  }

  /** The queries built for any list of matches, one by one. */
  lemma ExpandedQueries(text: JString, star: nat, refs: seq<TableMatch>)
    requires star < |text| && text[star] == STAR
    ensures ExpandsEachReference(text, star, refs, QueriesFor(text, star, refs))
  {
    var out := QueriesFor(text, star, refs);
    QueriesForIndex(text, star, refs);
    forall k | 0 <= k < |out|
      ensures var id := SelectedId(refs[k]);
              && out[k].tableName == Some(refs[k].table)
              && out[k].queryText == text[..star] + id + Str(".*") + text[star + 1..]
              && |out[k].queryText| >= star + |id| + 2
              && out[k].queryText[..star] + [STAR] + out[k].queryText[star + |id| + 2..] == text
    {
      QueryForRestores(text, star, refs[k]);
    }
  }

  /** An ok result is the list built from the table references. */
  lemma GeneratedList(text: JString)
    requires GenerateSpec(text).IsOk()
    ensures STAR in text
    ensures GenerateSpec(text).value.value == QueriesFor(text, IndexOf(text, STAR), TableReferences(text))
  {
  }

  /** The alias rule in the generated queries: query k selects from the
      alias of table reference k when there is one and, lower-cased, it is
      none of the fifteen keywords, and from the table name otherwise. */
  lemma GeneratedIdRule(text: JString, k: nat)
    requires GenerateSpec(text).IsOk() && k < |TableReferences(text)|
    ensures STAR in text && k < |GenerateSpec(text).value.value|
    ensures var m := TableReferences(text)[k];
            var q := GenerateSpec(text).value.value[k];
            var star := IndexOf(text, STAR);
            && q.tableName == Some(m.table)
            && (m.alias.Some? && ToLowerAscii(m.alias.value) !in SQL_KEYWORDS ==>
                  q.queryText == text[..star] + m.alias.value + Str(".*") + text[star + 1..])
            && (m.alias.None? || ToLowerAscii(m.alias.value) in SQL_KEYWORDS ==>
                  q.queryText == text[..star] + m.table + Str(".*") + text[star + 1..])
  {
    GeneratedQueries(text);
    var out := GenerateSpec(text).value.value;
    var star := IndexOf(text, STAR);
    assert ExpandsEachReference(text, star, TableReferences(text), out);
    assert out[k].queryText == text[..star] + SelectedId(TableReferences(text)[k]) + Str(".*") + text[star + 1..];
  }

  /** A run of one or more word characters. */
  predicate IsWord(w: JString)
  {
    w != [] && forall k :: 0 <= k < |w| ==> IsWordChar(w[k])
  }

  /** `\w+(\.\w+)?`: a word, or two words joined by a dot. */
  predicate IsQualifiedName(t: JString)
  {
    IsWord(t) || exists d :: 0 < d < |t| - 1 && t[d] == DOT && IsWord(t[..d]) && IsWord(t[d + 1..])
  }

  /** What `\w+(\.\w+)?` takes from a word character on is a qualified
      name. */
  lemma QualifiedNameTaken(s: JString, b: nat)
    requires b < |s| && IsWordChar(s[b])
    ensures IsQualifiedName(s[b..QualifiedNameEnd(s, b)])
  {
    var c := WordEnd(s, b);
    var d := QualifiedNameEnd(s, b);
    if d == c {
      assert IsWord(s[b..d]);
    } else {
      var t := s[b..d];
      assert t[c - b] == DOT && t[..c - b] == s[b..c] && t[c - b + 1..] == s[c + 1..d];
      assert IsWord(s[c + 1..d]);
    }
  }

  /** What one match captures: the keyword at a word boundary, group 1 a
      (possibly schema-qualified) name and group 5 a single word. */
  lemma TableAtCaptures(s: JString, kw: JString, i: nat)
    requires i <= |s|
    requires TableAt(s, kw, i).Some?
    ensures var m := TableAt(s, kw, i).value;
            && KeywordAt(s, i, kw)
            && IsQualifiedName(m.table)
            && (m.alias.Some? ==> IsWord(m.alias.value))
  {
    var b := SpaceEnd(s, i + |kw|);
    QualifiedNameTaken(s, b);
  }

  /** Each match is what the pattern gives at its start. */
  predicate Genuine(s: JString, kw: JString, r: seq<TableMatch>)
  {
    forall k :: 0 <= k < |r| ==> r[k].start <= |s| && TableAt(s, kw, r[k].start) == Some(r[k])
  }

  /** Each match starts where the previous one ended or later. */
  predicate Disjoint(r: seq<TableMatch>)
  {
    forall k :: 0 <= k < |r| - 1 ==> r[k].end <= r[k + 1].start
  }

  /** The matches find() returns are genuine, in increasing order and do
      not overlap. */
  lemma {:induction false} AllTablesOrdered(s: JString, kw: JString, p: nat)
    requires p <= |s|
    ensures Genuine(s, kw, AllTables(s, kw, p)) && Disjoint(AllTables(s, kw, p))
    decreases |s| - p
  {
    var m := FindTable(s, kw, p);
    if m.Some? {
      var first := m.value;
      AllTablesOrdered(s, kw, first.end);
      var rest := AllTables(s, kw, first.end);
      assert AllTables(s, kw, p) == [first] + rest;
      GenuineCons(s, kw, first, rest);
      AllTablesBounds(s, kw, first.end);
      DisjointCons(first, rest);
    }
  }

  lemma GenuineCons(s: JString, kw: JString, first: TableMatch, rest: seq<TableMatch>)
    requires first.start <= |s| && TableAt(s, kw, first.start) == Some(first)
    requires Genuine(s, kw, rest)
    ensures Genuine(s, kw, [first] + rest)
  {
    var r := [first] + rest;
    forall k | 0 < k < |r|
      ensures r[k].start <= |s| && TableAt(s, kw, r[k].start) == Some(r[k])
    {
      assert r[k] == rest[k - 1];
    }
  }

  lemma DisjointCons(first: TableMatch, rest: seq<TableMatch>)
    requires Disjoint(rest)
    requires rest != [] ==> first.end <= rest[0].start
    ensures Disjoint([first] + rest)
  {
    var r := [first] + rest;
    forall k | 0 < k < |r| - 1
      ensures r[k].end <= r[k + 1].start
    {
      assert r[k] == rest[k - 1] && r[k + 1] == rest[k];
    }
  }

  /** Position i lies inside one of the matches. */
  predicate Covers(r: seq<TableMatch>, i: nat)
  {
    exists k :: 0 <= k < |r| && r[k].start <= i < r[k].end
  }

  /** No match is missed: every position where the pattern matches lies
      inside one of the matches find() returns (a match can hide another
      that starts inside it, as find() resumes at the end of the last). */
  lemma {:induction false} AllTablesComplete(s: JString, kw: JString, p: nat, i: nat)
    requires p <= i <= |s| && TableAt(s, kw, i).Some?
    ensures Covers(AllTables(s, kw, p), i)
    decreases |s| - p
  {
    var m := FindTable(s, kw, p);
    assert m.Some?;
    var rest := AllTables(s, kw, m.value.end);
    assert AllTables(s, kw, p) == [m.value] + rest;
    assert m.value.start <= i;
    if i < m.value.end {
      assert ([m.value] + rest)[0] == m.value;
    } else {
      AllTablesComplete(s, kw, m.value.end, i);
      CoversCons(m.value, rest, i);
    }
  }

  lemma CoversCons(m: TableMatch, rest: seq<TableMatch>, i: nat)
    requires Covers(rest, i)
    ensures Covers([m] + rest, i)
  {
    var k :| 0 <= k < |rest| && rest[k].start <= i < rest[k].end;
    assert ([m] + rest)[k + 1] == rest[k];
  }

  /** Every error message ends with "Query:\n" and the template text. */
  lemma ErrorsQuoteTheQuery(text: JString)
    ensures forall e :: e in {SubqueryError(text), PlaceholderError(text), EmptyTemplateError(text)} ==>
      |e| >= |QUERY_HEADER| + |text| && e[|e| - |text| - |QUERY_HEADER|..] == QUERY_HEADER + text
    ensures GenerateSpec(text).IsError() ==>
      GenerateSpec(text).error.value in {SubqueryError(text), PlaceholderError(text), EmptyTemplateError(text)}
  {
    TemplateErrorQuotes(SubqueryError(text), text);
    TemplateErrorQuotes(PlaceholderError(text), text);
    TemplateErrorQuotes(EmptyTemplateError(text), text);
  }

  lemma TemplateErrorQuotes(e: JString, text: JString)
    requires exists reason :: e == TemplateError(reason, text)
    ensures |e| >= |QUERY_HEADER| + |text| && e[|e| - |text| - |QUERY_HEADER|..] == QUERY_HEADER + text
  {
    var reason :| e == TemplateError(reason, text);
    assert e == (TEMPLATE_FAILED + reason) + (QUERY_HEADER + text);
  }

  /** Without `(`, and with no `w` or `W` followed by `i` or `I`, no
      NO_SUBSTITUTE pattern can match: three of them need a parenthesis,
      and `with` needs a w followed by an i. */
  lemma NoSubqueryWithoutParen(s: JString)
    requires forall k :: 0 <= k < |s| ==> s[k] != OPEN_PAREN
    requires forall k :: 0 <= k < |s| && ToLowerChar(s[k]) as int == 'w' as int ==>
               k + 1 < |s| && ToLowerChar(s[k + 1]) as int != 'i' as int
    ensures !HasSubquery(s)
  {
    forall g, k | g in GUARDS && 0 <= k <= |s|
      ensures !GuardAt(s, g, k)
    {
      match g
      case WithSpace =>
        assert WITH[0] as int == 'w' as int && WITH[1] as int == 'i' as int;

      case FromParen =>
        if KeywordAt(s, k, FROM) {
          var j := SpaceEnd(s, k + 4);
          if j < |s| {
            assert s[j] != OPEN_PAREN;
          }
        }
      case JoinParen =>
        if KeywordAt(s, k, JOIN) {
          var j := SpaceEnd(s, k + 4);
          if j < |s| {
            assert s[j] != OPEN_PAREN;
          }
        }
      case ParenSelect =>
    }
    forall k | 0 <= k < |GUARDS|
      ensures !FindGuard(s, GUARDS[k], 0)
    {
    }
    NoGuardFound(s);
  }

  /** A one-table template: `* from t` gives the single query
      `t.* from t` for table `t`. */
  lemma GenerateOneTable()
    ensures GenerateSpec(Str("* from t")) == Ok(Some([Query(Some(Str("t")), Str("t.* from t"))]))
  {
    var s := Str("* from t");
    var m := TableMatch(2, 8, Str("t"), None);
    OneTableNoSubquery();
    OneTableStar();
    OneTableReferences();
    assert GenerateSpec(s) == Ok(Some(QueriesFor(s, 0, [m])));
    assert QueriesFor(s, 0, [m]) == [QueryFor(s, 0, m)];
    assert QueryFor(s, 0, m) == Query(Some(Str("t")), Str("t.* from t")) by {
      OneTableText();
    }
  }

  lemma OneTableText()
    ensures var s := Str("* from t");
            s[..0] + Str("t") + Str(".*") + s[1..] == Str("t.* from t")
  {
    var s := Str("* from t");
    StrAppend("t.*", " from t");
    StrAppend("t", ".*");
    StrAppend("*", " from t");
    assert s[..0] == [];
    assert s[1..] == Str(" from t");
  }

  lemma OneTableNoSubquery()
    ensures !HasSubquery(Str("* from t"))
  {
    var s := Str("* from t");
    forall k | 0 <= k < |s|
      ensures s[k] != OPEN_PAREN && ToLowerChar(s[k]) as int != 'w' as int
    {
    }
    NoSubqueryWithoutParen(s);
  }

  lemma OneTableStar()
    ensures IndexOf(Str("* from t"), STAR) == 0
  {
  }

  /** FindTable finds nothing when the pattern matches nowhere. */
  lemma FindTableNone(s: JString, kw: JString, p: nat)
    requires p <= |s|
    requires forall k :: p <= k <= |s| ==> TableAt(s, kw, k).None?
    ensures FindTable(s, kw, p).None?
  {
  }

  lemma OneTableReferences()
    ensures TableReferences(Str("* from t")) == [TableMatch(2, 8, Str("t"), None)]
  {
    var s := Str("* from t");
    var m := TableMatch(2, 8, Str("t"), None);
    OneTableFrom();
    assert FindTable(s, FROM, 8).None?;
    assert AllTables(s, FROM, 0) == [m] + AllTables(s, FROM, 8);
    assert AllTables(s, JOIN, 0) == [] by {
      forall k | 0 <= k <= |s|
        ensures TableAt(s, JOIN, k).None?
      {
        if KeywordAt(s, k, JOIN) {
          assert ToLowerAscii(s[k..k + 4])[0] == JOIN[0];
        }
      }
      FindTableNone(s, JOIN, 0);
    }
  }

  /** The FROM pattern first matches at 2 and takes the table `t`. */
  lemma OneTableFrom()
    ensures FindTable(Str("* from t"), FROM, 0) == Some(TableMatch(2, 8, Str("t"), None))
  {
    var s := Str("* from t");
    assert TableAt(s, FROM, 0).None? by {
      assert ToLowerAscii(s[0..4])[0] != FROM[0];
    }
    assert TableAt(s, FROM, 1).None? by {
      assert ToLowerAscii(s[1..5])[0] != FROM[0];
    }
    assert KeywordAt(s, 2, FROM) by {
      assert ToLowerAscii(s[2..6]) == FROM;
    }
    assert SpaceEnd(s, 6) == 7;
    assert QualifiedNameEnd(s, 7) == 8;
    assert s[7..8] == Str("t");
    assert TableAt(s, FROM, 2) == Some(TableMatch(2, 8, Str("t"), None));
  }

  /** A keyword whose first letter occurs nowhere in the text, in either
      case, is never found. */
  lemma NoKeywordWithoutLetter(s: JString, w: JString)
    requires w != [] && forall k :: 0 <= k < |s| ==> ToLowerChar(s[k]) != w[0]
    ensures forall k :: 0 <= k <= |s| ==> !KeywordAt(s, k, w)
  {
  }

  /** A template starting with `*`, without subqueries, whose only table
      reference is one FROM match m, gives the single query built for m. */
  lemma SingleFromTemplate(s: JString, m: TableMatch)
    requires 0 < |s| && s[0] == STAR && !HasSubquery(s)
    requires FindTable(s, FROM, 0) == Some(m) && m.end <= |s| && FindTable(s, FROM, m.end).None?
    requires forall k :: 0 <= k <= |s| ==> !KeywordAt(s, k, JOIN)
    ensures GenerateSpec(s) == Ok(Some([QueryFor(s, 0, m)]))
  {
    assert IndexOf(s, STAR) == 0;
    OneMatch(s, FROM, m);
    NoMatch(s, JOIN);
    assert TableReferences(s) == [m];
    assert QueriesFor(s, 0, [m]) == [QueryFor(s, 0, m)];
  }

  /** A keyword found once and not again after its match. */
  lemma OneMatch(s: JString, kw: JString, m: TableMatch)
    requires FindTable(s, kw, 0) == Some(m) && m.end <= |s| && FindTable(s, kw, m.end).None?
    ensures AllTables(s, kw, 0) == [m]
  {
  }

  /** A keyword that occurs nowhere has no matches. */
  lemma NoMatch(s: JString, kw: JString)
    requires forall k :: 0 <= k <= |s| ==> !KeywordAt(s, k, kw)
    ensures AllTables(s, kw, 0) == []
  {
    forall k | 0 <= k <= |s|
      ensures TableAt(s, kw, k).None?
    {
    }
    FindTableNone(s, kw, 0);
  }

  /** No table match starts at a character that is not the keyword's
      first letter in either case. */
  lemma NoMatchAt(s: JString, kw: JString, i: nat)
    requires kw != [] && i < |s| && ToLowerChar(s[i]) != kw[0]
    ensures TableAt(s, kw, i).None?
  {
  }

  /** No table match starts at the end of the text. */
  lemma FindTableAtEnd(s: JString, kw: JString)
    requires kw != []
    ensures FindTable(s, kw, |s|).None?
  {
  }

  /** Splicing `<id>.*` in place of a leading `*`. */
  lemma SpliceAtStar(rest: string, id: string)
    ensures var s := Str("*" + rest);
            s[..0] + Str(id) + Str(".*") + s[1..] == Str(id + ".*" + rest)
  {
    StarTail(rest);
    IdStarText(rest, id);
  }

  lemma StarTail(rest: string)
    ensures Str("*" + rest)[1..] == Str(rest)
  {
    StrAppend("*", rest);
  }

  lemma IdStarText(rest: string, id: string)
    ensures Str(id + ".*" + rest) == Str(id) + Str(".*") + Str(rest)
  {
    StrAppend(id + ".*", rest);
    StrAppend(id, ".*");
  }



  /** The test's alias case on a short text: `* from t a` selects `a.*`. */
  lemma GenerateAlias()
    ensures GenerateSpec(Str("* from t a")) == Ok(Some([Query(Some(Str("t")), Str("a.* from t a"))]))
  {
    var s := Str("* from t a");
    var m := TableMatch(2, 10, Str("t"), Some(Str("a")));
    AliasReferences();
    SingleFromTemplate(s, m);
    AliasSelected();
    AliasText();
  }

  lemma AliasReferences()
    ensures var s := Str("* from t a");
            && 0 < |s| && s[0] == STAR && !HasSubquery(s)
            && FindTable(s, FROM, 0) == Some(TableMatch(2, 10, Str("t"), Some(Str("a"))))
            && FindTable(s, FROM, 10).None?
            && forall k :: 0 <= k <= |s| ==> !KeywordAt(s, k, JOIN)
  {
    var s := Str("* from t a");
    AliasNoSubquery();
    AliasFrom();
    FindTableAtEnd(s, FROM);
    AliasNoJoin();
  }

  lemma AliasNoJoin()
    ensures var s := Str("* from t a");
            forall k :: 0 <= k <= |s| ==> !KeywordAt(s, k, JOIN)
  {
    NoKeywordWithoutLetter(Str("* from t a"), JOIN);
  }

  /** `a` is no SQL keyword, so it is the selected id. */
  lemma AliasSelected()
    ensures SelectedId(TableMatch(2, 10, Str("t"), Some(Str("a")))) == Str("a")
  {
    assert ToLowerAscii(Str("a")) == Str("a");
    assert forall w :: w in SQL_KEYWORDS ==> |w| >= 2;
  }

  lemma AliasNoSubquery()
    ensures !HasSubquery(Str("* from t a"))
  {
    var s := Str("* from t a");
    forall k | 0 <= k < |s|
      ensures s[k] != OPEN_PAREN && ToLowerChar(s[k]) as int != 'w' as int
    {
    }
    NoSubqueryWithoutParen(s);
  }

  /** The FROM match in `* from t a` takes table `t` and alias `a`. */
  lemma AliasFrom()
    ensures FindTable(Str("* from t a"), FROM, 0) == Some(TableMatch(2, 10, Str("t"), Some(Str("a"))))
  {
    var s := Str("* from t a");
    assert s[0] as int == '*' as int && s[1] as int == ' ' as int && FROM[0] as int == 'f' as int;
    NoMatchAt(s, FROM, 0);
    NoMatchAt(s, FROM, 1);
    assert KeywordAt(s, 2, FROM) by {
      assert ToLowerAscii(s[2..6]) == FROM;
    }
    AliasAfterFrom();
  }

  lemma AliasAfterFrom()
    ensures TableAfter(Str("* from t a"), 2, 6) == Some(TableMatch(2, 10, Str("t"), Some(Str("a"))))
  {
    var s := Str("* from t a");
    assert SpaceEnd(s, 6) == 7;
    assert QualifiedNameEnd(s, 7) == 8;
    assert SpaceEnd(s, 8) == 9;
    assert !LettersAt(s, 9, AS);
    assert WordEnd(s, 9) == 10;
    assert s[7..8] == Str("t") && s[9..10] == Str("a");
  }

  lemma AliasText()
    ensures var s := Str("* from t a");
            s[..0] + Str("a") + Str(".*") + s[1..] == Str("a.* from t a")
  {
    assert "*" + " from t a" == "* from t a";
    assert "a" + ".*" + " from t a" == "a.* from t a";
    SpliceAtStar(" from t a", "a");
  }


  /** The test's `as` alias case on a short text: `* from t as a` selects `a.*`. */
  lemma GenerateAsAlias()
    ensures GenerateSpec(Str("* from t as a")) == Ok(Some([Query(Some(Str("t")), Str("a.* from t as a"))]))
  {
    var s := Str("* from t as a");
    var m := TableMatch(2, 13, Str("t"), Some(Str("a")));
    AsAliasReferences();
    SingleFromTemplate(s, m);
    AsAliasSelected();
    AsAliasText();
  }

  lemma AsAliasReferences()
    ensures var s := Str("* from t as a");
            && 0 < |s| && s[0] == STAR && !HasSubquery(s)
            && FindTable(s, FROM, 0) == Some(TableMatch(2, 13, Str("t"), Some(Str("a"))))
            && FindTable(s, FROM, 13).None?
            && forall k :: 0 <= k <= |s| ==> !KeywordAt(s, k, JOIN)
  {
    var s := Str("* from t as a");
    AsAliasNoSubquery();
    AsAliasFrom();
    FindTableAtEnd(s, FROM);
    AsAliasNoJoin();
  }

  lemma AsAliasNoJoin()
    ensures var s := Str("* from t as a");
            forall k :: 0 <= k <= |s| ==> !KeywordAt(s, k, JOIN)
  {
    NoKeywordWithoutLetter(Str("* from t as a"), JOIN);
  }

  /** `a` is no SQL keyword, so it is the selected id. */
  lemma AsAliasSelected()
    ensures SelectedId(TableMatch(2, 13, Str("t"), Some(Str("a")))) == Str("a")
  {
    assert ToLowerAscii(Str("a")) == Str("a");
    assert forall w :: w in SQL_KEYWORDS ==> |w| >= 2;
  }

  lemma AsAliasNoSubquery()
    ensures !HasSubquery(Str("* from t as a"))
  {
    var s := Str("* from t as a");
    forall k | 0 <= k < |s|
      ensures s[k] != OPEN_PAREN
      ensures ToLowerChar(s[k]) as int == 'w' as int ==> k + 1 < |s| && ToLowerChar(s[k + 1]) as int != 'i' as int
    {
    }
    NoSubqueryWithoutParen(s);
  }

  lemma AsAliasFrom()
    ensures FindTable(Str("* from t as a"), FROM, 0) == Some(TableMatch(2, 13, Str("t"), Some(Str("a"))))
  {
    var s := Str("* from t as a");
    assert s[0] as int == '*' as int && s[1] as int == ' ' as int && FROM[0] as int == 'f' as int;
    NoMatchAt(s, FROM, 0);
    NoMatchAt(s, FROM, 1);
    assert KeywordAt(s, 2, FROM) by {
      assert ToLowerAscii(s[2..6]) == FROM;
    }
    AsAliasAfterFrom();
  }

  lemma AsAliasAfterFrom()
    ensures TableAfter(Str("* from t as a"), 2, 6) == Some(TableMatch(2, 13, Str("t"), Some(Str("a"))))
  {
    var s := Str("* from t as a");
    assert SpaceEnd(s, 6) == 7;
    assert QualifiedNameEnd(s, 7) == 8;
    assert SpaceEnd(s, 8) == 9;
    assert LettersAt(s, 9, AS) by {
      assert ToLowerAscii(s[9..11]) == AS;
    }
    assert SpaceEnd(s, 11) == 12;
    assert WordEnd(s, 12) == 13;
    assert s[7..8] == Str("t") && s[12..13] == Str("a");
  }

  lemma AsAliasText()
    ensures var s := Str("* from t as a");
            s[..0] + Str("a") + Str(".*") + s[1..] == Str("a.* from t as a")
  {
    assert "*" + " from t as a" == "* from t as a";
    assert "a" + ".*" + " from t as a" == "a.* from t as a";
    SpliceAtStar(" from t as a", "a");
  }


  /** The test's keyword case on a short text: in `* from t where` the word
      after the table is the keyword `where`, so the query selects `t.*`. */
  lemma GenerateKeywordAlias()
    ensures GenerateSpec(Str("* from t where")) == Ok(Some([Query(Some(Str("t")), Str("t.* from t where"))]))
  {
    var s := Str("* from t where");
    var m := TableMatch(2, 14, Str("t"), Some(Str("where")));
    KeywordAliasReferences();
    SingleFromTemplate(s, m);
    KeywordAliasSelected();
    KeywordAliasText();
  }

  lemma KeywordAliasReferences()
    ensures var s := Str("* from t where");
            && 0 < |s| && s[0] == STAR && !HasSubquery(s)
            && FindTable(s, FROM, 0) == Some(TableMatch(2, 14, Str("t"), Some(Str("where"))))
            && FindTable(s, FROM, 14).None?
            && forall k :: 0 <= k <= |s| ==> !KeywordAt(s, k, JOIN)
  {
    var s := Str("* from t where");
    KeywordAliasNoSubquery();
    KeywordAliasFrom();
    FindTableAtEnd(s, FROM);
    KeywordAliasNoJoin();
  }

  lemma KeywordAliasNoJoin()
    ensures var s := Str("* from t where");
            forall k :: 0 <= k <= |s| ==> !KeywordAt(s, k, JOIN)
  {
    NoKeywordWithoutLetter(Str("* from t where"), JOIN);
  }

  /** `where` is an SQL keyword, so the table name is the selected id. */
  lemma KeywordAliasSelected()
    ensures SelectedId(TableMatch(2, 14, Str("t"), Some(Str("where")))) == Str("t")
  {
    assert ToLowerAscii(Str("where")) == Str("where");
    assert Str("where") in SQL_KEYWORDS;
  }

  lemma KeywordAliasNoSubquery()
    ensures !HasSubquery(Str("* from t where"))
  {
    var s := Str("* from t where");
    forall k | 0 <= k < |s|
      ensures s[k] != OPEN_PAREN
      ensures ToLowerChar(s[k]) as int == 'w' as int ==> k + 1 < |s| && ToLowerChar(s[k + 1]) as int != 'i' as int
    {
    }
    NoSubqueryWithoutParen(s);
  }

  lemma KeywordAliasFrom()
    ensures FindTable(Str("* from t where"), FROM, 0) == Some(TableMatch(2, 14, Str("t"), Some(Str("where"))))
  {
    var s := Str("* from t where");
    assert s[0] as int == '*' as int && s[1] as int == ' ' as int && FROM[0] as int == 'f' as int;
    NoMatchAt(s, FROM, 0);
    NoMatchAt(s, FROM, 1);
    assert KeywordAt(s, 2, FROM) by {
      assert ToLowerAscii(s[2..6]) == FROM;
    }
    KeywordAliasAfterFrom();
  }

  lemma KeywordAliasAfterFrom()
    ensures TableAfter(Str("* from t where"), 2, 6) == Some(TableMatch(2, 14, Str("t"), Some(Str("where"))))
  {
    var s := Str("* from t where");
    assert SpaceEnd(s, 6) == 7;
    assert QualifiedNameEnd(s, 7) == 8;
    assert SpaceEnd(s, 8) == 9;
    assert !LettersAt(s, 9, AS);
    assert WordEnd(s, 9) == 14;
    assert s[7..8] == Str("t") && s[9..14] == Str("where");
  }

  lemma KeywordAliasText()
    ensures var s := Str("* from t where");
            s[..0] + Str("t") + Str(".*") + s[1..] == Str("t.* from t where")
  {
    assert "*" + " from t where" == "* from t where";
    assert "t" + ".*" + " from t where" == "t.* from t where";
    SpliceAtStar(" from t where", "t");
  }

}
