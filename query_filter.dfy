/** worker/QueryFilter.java: turns parsed statements into the list of
    statements to run. Each statement is skipped, expanded as a template,
    refused for lack of a table, or passed through, in that order of
    precedence; the first error ends the run. */
module QueryFiltering {
  import opened JavaText
  import opened Results
  import opened Queries
  import opened QueryTemplates

  /** The three constructor arguments; each may be null. */
  datatype FilterConfig = FilterConfig(
    noTableMode: Option<NoTableMode>,
    templateName: Option<JString>,
    skipPrefix: Option<JString>)

  /** isSkippedQuery: a named query whose name starts with the skip prefix. */
  predicate IsSkipped(cfg: FilterConfig, q: Query)
  {
    q.tableName.Some? && cfg.skipPrefix.Some? && StartsWith(q.tableName.value, cfg.skipPrefix.value)
  }

  /** isTemplateQuery: an unnamed query when the no-table mode is TEMPLATE,
      or a named one whose name equals the template name. */
  predicate IsTemplate(cfg: FilterConfig, q: Query)
  {
    if q.tableName.None? then cfg.noTableMode == Some(TemplateMode)
    else cfg.templateName.Some? && q.tableName.value == cfg.templateName.value
  }

  /** isInvalidQuery: the query names no table. */
  predicate IsInvalid(q: Query)
  {
    q.tableName.None?
  }

  const TABLE_NOT_DEFINED: JString :=
    Str("Table for query not defined. Use single line comment (`-- schema.table`) to define table name. Query:\n")

  /** The error filter() returns for a query without a table. */
  function NoTableError(q: Query): (e: JString)
    ensures |e| == |TABLE_NOT_DEFINED| + |q.queryText|
    ensures e[..|TABLE_NOT_DEFINED|] == TABLE_NOT_DEFINED && e[|TABLE_NOT_DEFINED|..] == q.queryText
  {
    TABLE_NOT_DEFINED + q.queryText
  }

  /** What one loop iteration of filter() does with a query: the queries it
      adds to the result, or the error it returns. */
  function Outcome(cfg: FilterConfig, q: Query): (r: Result<seq<Query>, JString>)
    ensures r.IsOk() != r.IsError()
  {
    if IsSkipped(cfg, q) then Ok(Some([]))
    else if IsTemplate(cfg, q) then GenerateSpec(q.queryText)
    else if IsInvalid(q) then Error(Some(NoTableError(q)))
    else Ok(Some([q]))
  }

  /** filter(queries): the outcomes spliced together in order, or the first
      error. */
  function FilterSpec(cfg: FilterConfig, queries: seq<Query>): (r: Result<seq<Query>, JString>)
    ensures r.IsOk() != r.IsError()
  {
    if queries == [] then Ok(Some([]))
    else
      var o := Outcome(cfg, queries[0]);
      if o.IsError() then Error(o.error)
      else Prepend(o.value.value, FilterSpec(cfg, queries[1..]))
  }

  /** The queries `front` followed by those of `r`, or the error of `r`. */
  function Prepend(front: seq<Query>, r: Result<seq<Query>, JString>): (p: Result<seq<Query>, JString>)
    requires r.IsOk() != r.IsError()
    ensures p.IsOk() == r.IsOk() && p.IsError() == r.IsError()
    ensures p.IsError() ==> p == r
    ensures p.IsOk() ==> p.value.value == front + r.value.value
  {
    if r.IsError() then r else Ok(Some(front + r.value.value))
  }

  class QueryFilter {
    const noTableMode: Option<NoTableMode>
    const templateName: Option<JString>
    const skipPrefix: Option<JString>

    constructor (noTableMode: Option<NoTableMode>, templateName: Option<JString>, skipPrefix: Option<JString>)
      ensures this.noTableMode == noTableMode
      ensures this.templateName == templateName
      ensures this.skipPrefix == skipPrefix
    {
      this.noTableMode := noTableMode;
      this.templateName := templateName;
      this.skipPrefix := skipPrefix;
    }

    function Config(): FilterConfig
    {
      FilterConfig(noTableMode, templateName, skipPrefix)
    }

    /** filter(queries) */
    method Filter(queries: seq<Query>) returns (r: Result<seq<Query>, JString>)
      ensures r == FilterSpec(Config(), queries)
    {
      var result: seq<Query> := [];
      PrependNothing(FilterSpec(Config(), queries));
      assert queries[0..] == queries;
      for i := 0 to |queries|
        invariant FilterSpec(Config(), queries) == Prepend(result, FilterSpec(Config(), queries[i..]))
      {
        var query := queries[i];
        assert queries[i..][1..] == queries[i + 1..];
        ghost var rest := FilterSpec(Config(), queries[i + 1..]);
        if IsSkipped(Config(), query) {
          assert FilterSpec(Config(), queries[i..]) == Prepend([], rest);
          PrependTwice(result, [], rest);
          assert result + [] == result;
          continue;
        } else if IsTemplate(Config(), query) {
          var generatedResult := GenerateFor(query);
          if generatedResult.IsError() {
            return Error(generatedResult.GetError());
          }
          assert FilterSpec(Config(), queries[i..]) == Prepend(generatedResult.value.value, rest);
          PrependTwice(result, generatedResult.value.value, rest);
          result := result + generatedResult.value.value;
        } else if IsInvalid(query) {
          return Error(Some(TABLE_NOT_DEFINED + query.queryText));
        } else {
          assert FilterSpec(Config(), queries[i..]) == Prepend([query], rest);
          PrependTwice(result, [query], rest);
          result := result + [query];
        }
      }
      assert queries[|queries|..] == [];
      assert result + [] == result;
      return Ok(Some(result));
    }
  }

  lemma PrependNothing(r: Result<seq<Query>, JString>)
    requires r.IsOk() != r.IsError()
    ensures Prepend([], r) == r
  {
    if r.IsOk() {
      assert [] + r.value.value == r.value.value;
    }
  }

  lemma PrependTwice(a: seq<Query>, b: seq<Query>, r: Result<seq<Query>, JString>)
    requires r.IsOk() != r.IsError()
    ensures Prepend(a, Prepend(b, r)) == Prepend(a + b, r)
  {
    if r.IsOk() {
      ConcatAssoc(a, b, r.value.value);
    }
  }

  // ---------------------------------------------------------------------
  // Properties of filter()

  /** filter() runs left to right: filtering a + b is filtering a, then,
      unless that failed, filtering b and appending its queries. */
  lemma {:induction false} FilterSplit(cfg: FilterConfig, a: seq<Query>, b: seq<Query>)
    ensures FilterSpec(cfg, a + b) ==
      (if FilterSpec(cfg, a).IsError() then FilterSpec(cfg, a)
       else Prepend(FilterSpec(cfg, a).value.value, FilterSpec(cfg, b)))
  {
    if a == [] {
      assert a + b == b;
      PrependNothing(FilterSpec(cfg, b));
    } else {
      assert (a + b)[0] == a[0] && (a + b)[1..] == a[1..] + b;
      FilterSplit(cfg, a[1..], b);
      var o := Outcome(cfg, a[0]);
      if !o.IsError() && !FilterSpec(cfg, a[1..]).IsError() {
        PrependTwice(o.value.value, FilterSpec(cfg, a[1..]).value.value, FilterSpec(cfg, b));
      }
    }
  }

  /** A skipped query contributes nothing, wherever it stands. */
  lemma SkippedQueryVanishes(cfg: FilterConfig, a: seq<Query>, q: Query, b: seq<Query>)
    requires IsSkipped(cfg, q)
    ensures FilterSpec(cfg, a + [q] + b) == FilterSpec(cfg, a + b)
  {
    FilterSplit(cfg, a + [q], b);
    FilterSplit(cfg, a, [q]);
    FilterSplit(cfg, a, b);
    assert FilterSpec(cfg, [q]) == Prepend([], FilterSpec(cfg, []));
    if !FilterSpec(cfg, a).IsError() {
      assert FilterSpec(cfg, a).value.value + [] == FilterSpec(cfg, a).value.value;
    }
  }

  /** filter() fails exactly when some query's outcome is an error, and
      then returns the error of the first such query. */
  lemma {:induction false} FirstErrorWins(cfg: FilterConfig, queries: seq<Query>)
    ensures FilterSpec(cfg, queries).IsError() <==>
      exists i :: 0 <= i < |queries| && Outcome(cfg, queries[i]).IsError()
    ensures FilterSpec(cfg, queries).IsError() ==>
      exists i :: 0 <= i < |queries| && Outcome(cfg, queries[i]).IsError()
        && FilterSpec(cfg, queries).error == Outcome(cfg, queries[i]).error
        && forall j :: 0 <= j < i ==> !Outcome(cfg, queries[j]).IsError()
  {
    if queries != [] {
      FirstErrorWins(cfg, queries[1..]);
      var o := Outcome(cfg, queries[0]);
      if o.IsError() {
        assert Outcome(cfg, queries[0]).IsError();
      } else {
        if exists i :: 0 <= i < |queries| && Outcome(cfg, queries[i]).IsError() {
          var i :| 0 <= i < |queries| && Outcome(cfg, queries[i]).IsError();
          assert queries[1..][i - 1] == queries[i];
        }
        if FilterSpec(cfg, queries[1..]).IsError() {
          var i :| 0 <= i < |queries[1..]| && Outcome(cfg, queries[1..][i]).IsError()
            && FilterSpec(cfg, queries[1..]).error == Outcome(cfg, queries[1..][i]).error
            && forall j :: 0 <= j < i ==> !Outcome(cfg, queries[1..][j]).IsError();
          assert Outcome(cfg, queries[i + 1]).IsError();
          forall j | 0 <= j < i + 1
            ensures !Outcome(cfg, queries[j]).IsError()
          {
            if j > 0 {
              assert queries[j] == queries[1..][j - 1];
            }
          }
        }
      }
    }
  }

  /** Every query names its table. */
  predicate AllNamed(queries: seq<Query>)
  {
    forall k :: 0 <= k < |queries| ==> queries[k].tableName.Some?
  }

  /** What one query contributes to a successful result is named. */
  lemma OutcomeNamed(cfg: FilterConfig, q: Query)
    requires Outcome(cfg, q).IsOk()
    ensures AllNamed(Outcome(cfg, q).value.value)
  {
    if !IsSkipped(cfg, q) && IsTemplate(cfg, q) {
      GeneratedQueries(q.queryText);
    }
  }

  /** Every query of a successful result names its table: skipped queries
      are gone, template output is named after its FROM/JOIN table, and
      an unnamed query that is not a template is an error. */
  lemma {:induction false} FilteredQueriesNamed(cfg: FilterConfig, queries: seq<Query>)
    requires FilterSpec(cfg, queries).IsOk()
    ensures AllNamed(FilterSpec(cfg, queries).value.value)
  {
    if queries != [] {
      var o := Outcome(cfg, queries[0]);
      FilteredQueriesNamed(cfg, queries[1..]);
      OutcomeNamed(cfg, queries[0]);
      var front := o.value.value;
      var back := FilterSpec(cfg, queries[1..]).value.value;
      assert FilterSpec(cfg, queries).value.value == front + back;
      assert forall k :: 0 <= k < |back| ==> (front + back)[|front| + k] == back[k];
    }
  }

  /** Queries that are named, not skipped and not templates come out
      unchanged and in their order. */
  lemma {:induction false} PlainQueriesPassThrough(cfg: FilterConfig, queries: seq<Query>)
    requires forall k :: 0 <= k < |queries| ==>
      queries[k].tableName.Some? && !IsSkipped(cfg, queries[k]) && !IsTemplate(cfg, queries[k])
    ensures FilterSpec(cfg, queries) == Ok(Some(queries))
  {
    if queries != [] {
      PlainQueriesPassThrough(cfg, queries[1..]);
      assert [queries[0]] + queries[1..] == queries;
    }
  }

  /** With nothing to filter the result is an empty list, not an error;
      an unnamed query is a template exactly in TEMPLATE mode and refused
      otherwise, and a skip-prefixed name is dropped even when it is also
      the template name. */
  lemma FilterSmallCases(cfg: FilterConfig, text: JString, name: JString)
    ensures FilterSpec(cfg, []) == Ok(Some([]))
    ensures cfg.noTableMode != Some(TemplateMode) ==>
      FilterSpec(cfg, [Query(None, text)]) == Error(Some(TABLE_NOT_DEFINED + text))
    ensures cfg.noTableMode == Some(TemplateMode) ==>
      FilterSpec(cfg, [Query(None, text)]) == GenerateSpec(text)
    ensures cfg.skipPrefix.Some? && StartsWith(name, cfg.skipPrefix.value) ==>
      FilterSpec(cfg, [Query(Some(name), text)]) == Ok(Some([]))
  {
    if cfg.noTableMode == Some(TemplateMode) {
      var g := GenerateSpec(text);
      if g.IsOk() {
        assert g.value.value + [] == g.value.value;
      }
    }
  }
}
