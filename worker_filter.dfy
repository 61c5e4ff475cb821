/** The statement handling inside worker/BuildDatasetWorker.java, an older
    inline version of QueryFilter: a statement without a table is refused
    before anything else, and the skip and template tests compare the
    table name after the configured case change. */
module WorkerFiltering {
  import opened JavaText
  import opened Results
  import opened Queries
  import opened QueryTemplates
  import QueryFiltering

  /** The three configuration entries the worker reads; each may be null. */
  datatype WorkerConfig = WorkerConfig(
    templateTableName: Option<JString>,
    skipTablePrefix: Option<JString>,
    tableNameCase: Option<TableNameCase>)

  /** getQueryTableName(query) for a query that names its table: upper- or
      lower-cased as configured, unchanged when no case is set. */
  function QueryTableName(cfg: WorkerConfig, tableName: JString): (r: JString)
    ensures |r| == |tableName|
  {
    match cfg.tableNameCase
    case None => tableName
    case Some(Upper) => ToUpperAscii(tableName)
    case Some(Lower) => ToLowerAscii(tableName)
  }

  /** isSkippedQuery: the adjusted name starts with the skip prefix. */
  predicate IsSkippedName(cfg: WorkerConfig, tableName: JString)
  {
    cfg.skipTablePrefix.Some? && StartsWith(QueryTableName(cfg, tableName), cfg.skipTablePrefix.value)
  }

  /** isTemplateQuery: the adjusted name equals the template name. */
  predicate IsTemplateName(cfg: WorkerConfig, tableName: JString)
  {
    cfg.templateTableName.Some? && QueryTableName(cfg, tableName) == cfg.templateTableName.value
  }

  /** One iteration of the statement loop: the queries it adds, or the
      error it returns. */
  function Step(cfg: WorkerConfig, q: Query): (r: Result<seq<Query>, JString>)
    ensures r.IsOk() != r.IsError()
  {
    if q.tableName.None? then Error(Some(QueryFiltering.NoTableError(q)))
    else if IsSkippedName(cfg, q.tableName.value) then Ok(Some([]))
    else if IsTemplateName(cfg, q.tableName.value) then GenerateSpec(q.queryText)
    else Ok(Some([q]))
  }

  /** The statement loop over all parsed statements. */
  function WorkerFilter(cfg: WorkerConfig, queries: seq<Query>): (r: Result<seq<Query>, JString>)
    ensures r.IsOk() != r.IsError()
  {
    if queries == [] then Ok(Some([]))
    else
      var o := Step(cfg, queries[0]);
      if o.IsError() then Error(o.error)
      else QueryFiltering.Prepend(o.value.value, WorkerFilter(cfg, queries[1..]))
  }

  /** doInBackground, lines 91-113: the statement loop. */
  method FilterStatements(cfg: WorkerConfig, allQueries: seq<Query>) returns (r: Result<seq<Query>, JString>)
    ensures r == WorkerFilter(cfg, allQueries)
  {
    var queries: seq<Query> := [];
    QueryFiltering.PrependNothing(WorkerFilter(cfg, allQueries));
    assert allQueries[0..] == allQueries;
    for i := 0 to |allQueries|
      invariant WorkerFilter(cfg, allQueries) == QueryFiltering.Prepend(queries, WorkerFilter(cfg, allQueries[i..]))
    {
      var query := allQueries[i];
      assert allQueries[i..][1..] == allQueries[i + 1..];
      ghost var rest := WorkerFilter(cfg, allQueries[i + 1..]);
      if query.tableName.None? {
        return Error(Some(QueryFiltering.TABLE_NOT_DEFINED + query.queryText));
      } else if IsSkippedName(cfg, query.tableName.value) {
        assert WorkerFilter(cfg, allQueries[i..]) == QueryFiltering.Prepend([], rest);
        QueryFiltering.PrependTwice(queries, [], rest);
        assert queries + [] == queries;
        continue;
      } else if IsTemplateName(cfg, query.tableName.value) {
        var generatedResult := GenerateFor(query);
        if generatedResult.IsError() {
          return Error(generatedResult.GetError());
        }
        assert WorkerFilter(cfg, allQueries[i..]) == QueryFiltering.Prepend(generatedResult.value.value, rest);
        QueryFiltering.PrependTwice(queries, generatedResult.value.value, rest);
        queries := queries + generatedResult.value.value;
      } else {
        assert WorkerFilter(cfg, allQueries[i..]) == QueryFiltering.Prepend([query], rest);
        QueryFiltering.PrependTwice(queries, [query], rest);
        queries := queries + [query];
      }
    }
    assert allQueries[|allQueries|..] == [];
    assert queries + [] == queries;
    return Ok(Some(queries));
  }

  // ---------------------------------------------------------------------
  // Properties

  /** With no case change configured, the worker's loop agrees with
      QueryFilter in its ERROR mode (an unnamed statement is refused). */
  lemma {:induction false} WorkerFilterMatchesQueryFilter(cfg: WorkerConfig, queries: seq<Query>)
    requires cfg.tableNameCase.None?
    ensures WorkerFilter(cfg, queries)
         == QueryFiltering.FilterSpec(
              QueryFiltering.FilterConfig(Some(ErrorMode), cfg.templateTableName, cfg.skipTablePrefix), queries)
  {
    var fcfg := QueryFiltering.FilterConfig(Some(ErrorMode), cfg.templateTableName, cfg.skipTablePrefix);
    if queries != [] {
      WorkerFilterMatchesQueryFilter(cfg, queries[1..]);
      assert Step(cfg, queries[0]) == QueryFiltering.Outcome(fcfg, queries[0]);
    }
  }

  /** An unnamed statement fails the run whatever the configuration, even
      one whose name would have matched the template in QueryFilter. */
  lemma UnnamedStatementFails(cfg: WorkerConfig, text: JString, rest: seq<Query>)
    ensures WorkerFilter(cfg, [Query(None, text)] + rest)
         == Error(Some(QueryFiltering.TABLE_NOT_DEFINED + text))
  {
    assert ([Query(None, text)] + rest)[0] == Query(None, text);
  }

  /** Skip is tested before template, so a name that is both is dropped;
      the tests see the name after the case change. */
  lemma SkipBeforeTemplate(cfg: WorkerConfig, name: JString, text: JString)
    requires IsSkippedName(cfg, name)
    ensures WorkerFilter(cfg, [Query(Some(name), text)]) == Ok(Some([]))
  {
  }

  /** The case policy: under UPPER (LOWER) the adjusted name has no ASCII
      lower-case (upper-case) letter and adjusting it again changes
      nothing. */
  lemma TableNameCasePolicy(cfg: WorkerConfig, tableName: JString)
    ensures cfg.tableNameCase.None? ==> QueryTableName(cfg, tableName) == tableName
    ensures cfg.tableNameCase == Some(Upper) ==>
      forall k :: 0 <= k < |tableName| ==> !IsAsciiLower(QueryTableName(cfg, tableName)[k])
    ensures cfg.tableNameCase == Some(Lower) ==>
      forall k :: 0 <= k < |tableName| ==> !IsAsciiUpper(QueryTableName(cfg, tableName)[k])
    ensures QueryTableName(cfg, QueryTableName(cfg, tableName)) == QueryTableName(cfg, tableName)
  {
    CaseMappingIdempotent(tableName);
  }

  /** Every statement the loop passes on names its table. */
  lemma {:induction false} WorkerFilterNamed(cfg: WorkerConfig, queries: seq<Query>)
    requires WorkerFilter(cfg, queries).IsOk()
    ensures QueryFiltering.AllNamed(WorkerFilter(cfg, queries).value.value)
  {
    if queries != [] {
      var q := queries[0];
      var o := Step(cfg, q);
      WorkerFilterNamed(cfg, queries[1..]);
      if q.tableName.Some? && !IsSkippedName(cfg, q.tableName.value) && IsTemplateName(cfg, q.tableName.value) {
        GeneratedQueries(q.queryText);
      }
      assert QueryFiltering.AllNamed(o.value.value);
      var front := o.value.value;
      var back := WorkerFilter(cfg, queries[1..]).value.value;
      assert WorkerFilter(cfg, queries).value.value == front + back;
      assert forall k :: 0 <= k < |back| ==> (front + back)[|front| + k] == back[k];
    }
  }
}
