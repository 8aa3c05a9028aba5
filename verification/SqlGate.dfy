/** The gate as it runs: each check lexes the text once per dialect. */
module SqlGate {
  import opened Prelude
  import opened Trimming
  import opened SqlScan
  import opened SqlResult
  import opened SqlLexer
  import opened ReadOnlySql
  import opened SqlStatement

  method CutReadOnlyStatement(query: string) returns (r: Result<string, SqlError>)
    ensures r == Cut(query)
    ensures r.Ok? ==>
              && AllOneStatement(query, |DIALECTS|)
              && exists at | -1 <= at < |query| :: Agrees(query, at) && r.value == Before(query, at)
  {
    hide Lex, LexErrorOf, CheckShape, TrimSpace, AllOneStatement, Agrees, Before;
    if Cut(query).Ok? {
      CutIff(query, Cut(query).value);
    }
    var end, lexed := -1, false;
    var lexErr: Option<LexError> := None;
    for k := 0 to |DIALECTS|
      invariant CutScan(query, k) == Ok(Progress(end, lexed, lexErr))
    {
      var res, err := LexSql(query, DIALECTS[k]);
      var verdict := CheckShape(res, err);
      if verdict.Some? {
        CutScanStops(query, k + 1, |DIALECTS|);
        return Err(verdict.value);
      }
      if err.Some? {
        if lexErr.None? {
          lexErr := err;
        }
        continue;
      }
      if lexed && res.statementEnd != end {
        CutScanStops(query, k + 1, |DIALECTS|);
        return Err(DialectsDisagree);
      }
      end, lexed := res.statementEnd, true;
    }
    if !lexed {
      return Err(Unterminated(lexErr.value));
    }
    if end >= 0 {
      return Ok(TrimSpace(query[..end]));
    }
    return Ok(query);
  }

  /** The first failing dialect decides. */
  lemma {:induction false} CutScanStops(query: string, k: nat, n: nat)
    requires k <= n <= |DIALECTS| && CutScan(query, k).Err?
    ensures CutScan(query, n) == CutScan(query, k)
    decreases n
  {
    if k < n {
      CutScanStops(query, k, n - 1);
    }
  }

  method NormalizeReadOnlyQuery(raw: string) returns (r: Result<string, SqlError>)
    ensures r == Normalize(raw)
    ensures r.Ok? ==>
              var query := TrimSpace(raw);
              && AllOneStatement(query, |DIALECTS|)
              && exists at | -1 <= at < |query| :: Agrees(query, at) && r.value == Before(query, at)
  {
    hide Cut, TrimSpace, AllOneStatement, Agrees, Before;
    var query := TrimSpace(raw);
    if query == "" {
      return Err(EmptyQuery);
    }
    var cut := CutReadOnlyStatement(query);
    if cut.Err? {
      return cut;
    }
    var again := CutReadOnlyStatement(cut.value);
    if again.Err? {
      return again;
    }
    if again.value != cut.value {
      return Err(DialectsDisagree);
    }
    return cut;
  }

  lemma {:induction false} FilterScanStops(clause: string, k: nat, n: nat)
    requires k <= n <= |DIALECTS| && FilterScan(clause, k).Err?
    ensures FilterScan(clause, n) == FilterScan(clause, k)
    decreases n
  {
    if k < n {
      FilterScanStops(clause, k, n - 1);
    }
  }

  method ValidateWhereClause(clause: string) returns (r: Option<SqlError>)
    ensures r == ValidateFilter(clause)
  {
    hide Lex, LexErrorOf, CheckFilter;
    var lexed := false;
    var lexErr: Option<LexError> := None;
    for k := 0 to |DIALECTS|
      invariant FilterScan(clause, k) == Ok(Progress(-1, lexed, lexErr))
    {
      var res, err := LexSql(clause, DIALECTS[k]);
      var verdict := CheckFilter(res, err);
      if verdict.Some? {
        FilterScanStops(clause, k + 1, |DIALECTS|);
        return verdict;
      }
      if err.Some? {
        if lexErr.None? {
          lexErr := err;
        }
        continue;
      }
      lexed := true;
    }
    if !lexed {
      return Some(Unterminated(lexErr.value));
    }
    return None;
  }

  method EndsInLineComment(query: string) returns (b: bool)
    ensures b == SomeDialectEndsInLineComment(query)
  {
    hide Lex;
    for k := 0 to |DIALECTS|
      invariant forall i | 0 <= i < k :: !Lex(DIALECTS[i], query).lineComment
    {
      var res, _ := LexSql(query, DIALECTS[k]);
      if res.lineComment {
        return true;
      }
    }
    return false;
  }
}
