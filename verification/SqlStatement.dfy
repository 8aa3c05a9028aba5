/**
 What acceptance buys: the normalised query is harmless and a fixpoint, and in
 the statement that is sent to the source both the query and the filter are
 closed groups, with the alias and the cursor predicate outside of them.
 */
module SqlStatement {
  import opened Prelude
  import opened Trimming
  import opened SqlScan
  import opened SqlConcat
  import opened SqlResult
  import opened SqlWrap
  import opened ReadOnlySql

  const QUERY_ALIAS := "orabbit_query"

  predicate SomeDialectEndsInLineComment(q: string) {
    exists i | 0 <= i < |DIALECTS| :: Lex(DIALECTS[i], q).lineComment
  }

  /** The derived table that holds the user's query. */
  function SourceExpr(q: string, aliasKeyword: string): string {
    Wrap(q, SomeDialectEndsInLineComment(q)) + " "
    + (if TrimSpace(aliasKeyword) == "" then QUERY_ALIAS else aliasKeyword + " " + QUERY_ALIAS)
  }

  // ----- the normalised query -----

  /** No dialect sees a separator, every dialect that reads the text sees one harmless statement, some does. */
  lemma NormalizedIsHarmless(raw: string)
    requires Normalize(raw).Ok?
    ensures forall i | 0 <= i < |DIALECTS| :: Harmless(DIALECTS[i], Normalize(raw).value)
    ensures exists i | 0 <= i < |DIALECTS| :: Lexes(DIALECTS[i], Normalize(raw).value)
  {
    CutFixpoint(Normalize(raw).value);
  }

  lemma CutKeepsTrim(query: string)
    requires Cut(query).Ok? && !StartsWithSpace(query) && !EndsWithSpace(query)
    ensures TrimSpace(Cut(query).value) == Cut(query).value
  {
    hide CutScan, TrimSpace, StartsWithSpace, EndsWithSpace;
    var end := CutScan(query, |DIALECTS|).value.end;
    if end >= 0 {
      TrimLeavesNoSpace(query[..end]);
    }
    TrimStable(Cut(query).value);
  }

  /** Normalising again changes nothing. */
  lemma NormalizeIsIdempotent(raw: string)
    requires Normalize(raw).Ok?
    ensures Normalize(Normalize(raw).value) == Normalize(raw)
  {
    hide Cut, TrimSpace, StartsWithSpace, EndsWithSpace, Harmless;
    TrimLeavesNoSpace(raw);
    CutKeepsTrim(TrimSpace(raw));
    CutFixpoint(Normalize(raw).value);
  }

  /** A text is a normal form exactly when it has no outer blanks and every dialect finds it harmless. */
  lemma NormalFormIff(q: string)
    ensures Normalize(q) == Ok(q) <==>
            && TrimSpace(q) == q
            && (forall i | 0 <= i < |DIALECTS| :: Harmless(DIALECTS[i], q))
            && exists i | 0 <= i < |DIALECTS| :: Lexes(DIALECTS[i], q)
  {
    hide Cut, TrimSpace, Harmless, SqlScan.Lexes, StartsWithSpace, EndsWithSpace;
    CutFixpointIff(q);
    TrimLeavesNoSpace(q);
    if Normalize(q) == Ok(q) {
      CutKeepsTrim(TrimSpace(q));
    } else if Cut(q) == Ok(q) {
      CutFixpoint(q);
    }
  }

  // ----- the filter -----

  /**
   A query is normalised to `v` if and only if every dialect sees one read-only
   statement in the trimmed text, those that lex it agree where it ends, `v` is
   the text up to there, and `v` is harmless in every dialect and lexed by one.
   */
  lemma NormalizeIff(raw: string, v: string)
    ensures var q := TrimSpace(raw);
            Normalize(raw) == Ok(v) <==>
              && q != ""
              && AllOneStatement(q, |DIALECTS|)
              && SomeLexes(q)
              && (exists at | -1 <= at < |q| :: Agrees(q, at) && v == Before(q, at))
              && (forall i | 0 <= i < |DIALECTS| :: Harmless(DIALECTS[i], v))
              && SomeLexes(v)
  {
    hide TrimSpace, Cut, AllOneStatement, Agrees, Before, Harmless;
    CutIff(TrimSpace(raw), v);
    CutFixpointIff(v);
  }

  /** A second statement is never dropped: it makes the query invalid. */
  lemma SecondStatementIsRejected(raw: string, i: nat)
    requires i < |DIALECTS| && HasVisible(Behind(Tokens(DIALECTS[i], TrimSpace(raw))))
    ensures Normalize(raw).Err?
  {
    hide TrimSpace, HasVisible, Normalize, Harmless, SqlScan.Tokens;
    var q := TrimSpace(raw);
    BehindNeedsSeparator(Tokens(DIALECTS[i], q));
    assert !OneStatement(DIALECTS[i], q);
    if Normalize(raw).Ok? {
      NormalizeIff(raw, Normalize(raw).value);
    }
  }

  /** The keywords that change data, or move it. */
  const CHANGING: set<string> := {
    "INSERT", "UPDATE", "DELETE", "DROP", "ALTER", "CREATE", "TRUNCATE", "GRANT", "REVOKE",
    "MERGE", "CALL", "EXEC", "EXECUTE", "COPY", "LOAD", "UNLOAD", "REPLACE", "INTO"
  }

  /** The same letters, in either case each. */
  predicate InAnyCase(w: string, upper: string) {
    && |w| == |upper|
    && forall i | 0 <= i < |w| ::
         w[i] == upper[i] || ('A' <= upper[i] <= 'Z' && w[i] as int == upper[i] as int + 32)
  }

  lemma {:induction false} UpperIs(w: string, upper: string)
    requires InAnyCase(w, upper) && forall i | 0 <= i < |upper| :: 'A' <= upper[i] <= 'Z'
    ensures ToUpper(w) == upper
    decreases |w|
  {
    if w != "" {
      assert forall i | 0 <= i < |w| - 1 :: w[1..][i] == w[i + 1] && upper[1..][i] == upper[i + 1];
      UpperIs(w[1..], upper[1..]);
      assert upper == [upper[0]] + upper[1..];
    }
  }

  lemma ChangingWords(keyword: string)
    requires keyword in CHANGING
    ensures keyword in DESTRUCTIVE && forall i | 0 <= i < |keyword| :: 'A' <= keyword[i] <= 'Z'
  {
  }

  /** A data-changing keyword, in any letter case, outside subscripts and literals, makes a query invalid. */
  lemma ChangingKeywordIsRejected(raw: string, i: nat, w: string, keyword: string)
    requires i < |DIALECTS| && Lexes(DIALECTS[i], TrimSpace(raw))
    requires w in BareWords(Tokens(DIALECTS[i], TrimSpace(raw)), 0) && keyword in CHANGING && InAnyCase(w, keyword)
    ensures Normalize(raw).Err?
  {
    hide TrimSpace, HasVisible, Normalize, Harmless, SqlScan.Tokens, BareWords, InAnyCase;
    ChangingWords(keyword);
    UpperIs(w, keyword);
    assert Destructive(w);
    assert !OneStatement(DIALECTS[i], TrimSpace(raw));
    if Normalize(raw).Ok? {
      NormalizeIff(raw, Normalize(raw).value);
    }
  }

  lemma {:induction false} BehindNeedsSeparator(ts: seq<Token>)
    requires HasVisible(Behind(ts))
    ensures HasSemicolon(ts)
    decreases |ts|
  {
    hide IsVisible;
    if !ts[0].Semicolon? {
      BehindNeedsSeparator(ts[1..]);
      SemicolonCons(ts);
    }
  }

  /** The separator is a ';' of the text. */
  lemma {:induction false} SeparatorIsSemicolon(d: Dialect, q: string)
    requires HasSemicolon(Tokens(d, q))
    ensures 0 <= SeparatorAt(Tokens(d, q)) < |q| && q[SeparatorAt(Tokens(d, q))] == ';'
    decreases |q|
  {
    var t, ts := Scan(d, q), Tokens(d, q);
    hide SqlScan.Scan;
    SemicolonCons(ts);
    if t.Semicolon? {
      SemicolonScan(d, q);
    } else if !t.Bad? {
      var rest := q[t.Len()..];
      assert ts[1..] == Tokens(d, rest);
      SeparatorIsSemicolon(d, rest);
      assert rest[SeparatorAt(Tokens(d, rest))] == q[t.Len() + SeparatorAt(Tokens(d, rest))];
    }
  }

  lemma SemicolonScan(d: Dialect, q: string)
    requires q != "" && Scan(d, q).Semicolon?
    ensures q[0] == ';'
  {
    hide ScanDollar, ScanBracket, ScanWord;
    BracketIsNoSemicolon(d, q);
  }

  lemma BracketIsNoSemicolon(d: Dialect, q: string)
    requires q != ""
    ensures !ScanBracket(d, q).Semicolon? && !ScanDollar(q).Semicolon? && !ScanWord(d, q).Semicolon?
  {
  }

  lemma SelectTokens(d: Dialect)
    ensures Tokens(d, "SELECT") == [Word("SELECT")]
  {
    var q := "SELECT";
    assert q[0] == 'S' && !LineCommentAt(d, q) && !HasPrefix(q, "/*");
    assert WordEnd(q, 6) == 6 && WordEnd(q, 5) == 6 && WordEnd(q, 4) == 6 && WordEnd(q, 3) == 6 && WordEnd(q, 2) == 6;
    assert Scan(d, q) == Word(q[..6]) && q[..6] == q && q[6..] == "";
  }

  lemma SelectIsHarmless(d: Dialect)
    ensures Harmless(d, "SELECT") && Lexes(d, "SELECT")
  {
    hide SqlScan.Tokens, Balanced, BareWords, Destructive, EqualFold, Lex, LexErrorOf;
    SelectTokens(d);
    OneWordShape("SELECT");
    OneWordIsAllowed(d, "SELECT");
    SelectIsNoChange();
  }

  lemma OneWordShape(w: string)
    ensures Balanced([Word(w)]) && BareWords([Word(w)], 0) == [w] && !HasSemicolon([Word(w)])
  {
    var ts := [Word(w)];
    assert ts[1..] == [];
    UnderflowsCons(ts, 0, 0);
  }

  lemma OneWordIsAllowed(d: Dialect, w: string)
    requires Tokens(d, w) == [Word(w)]
    ensures !Lex(d, w).forbidden
  {
    hide SqlScan.Tokens, Destructive, ToUpper;
    var ts := [Word(w)];
    assert ts[1..] == [];
    assert FeedAll(START, ts, 0, |w|) == Feed(START, Word(w), 0, |w|);
  }

  lemma SelectIsNoChange()
    ensures !Destructive("SELECT") && EqualFold("SELECT", "SELECT")
  {
    assert ToUpper("SELECT")[0] == 'S';
    assert forall k | 0 <= k < |DESTRUCTIVE| :: DESTRUCTIVE[k][0] != 'S';
  }

  /** The gate is not empty: the shortest query it lets through. */
  lemma SelectIsAccepted()
    ensures Normalize("SELECT") == Ok("SELECT")
  {
    hide Harmless, Lexes, Normalize;
    VisibleIsTrim("SELECT");
    forall i | 0 <= i < |DIALECTS|
      ensures Harmless(DIALECTS[i], "SELECT") && Lexes(DIALECTS[i], "SELECT")
    {
      SelectIsHarmless(DIALECTS[i]);
    }
    assert Lexes(DIALECTS[0], "SELECT");
    NormalFormIff("SELECT");
  }

  lemma {:induction false} FilterScanMeaning(clause: string, k: nat)
    requires k <= |DIALECTS| && FilterScan(clause, k).Ok?
    ensures forall i | 0 <= i < k :: CheckFilter(Lex(DIALECTS[i], clause), LexErrorOf(DIALECTS[i], clause)).None?
    ensures FilterScan(clause, k).value.lexed <==> exists i | 0 <= i < k :: Lexes(DIALECTS[i], clause)
  {
    hide Lex, LexErrorOf, CheckFilter;
    if k > 0 {
      FilterScanMeaning(clause, k - 1);
    }
  }

  predicate HasComment(ts: seq<Token>) { exists k | 0 <= k < |ts| :: IsComment(ts[k]) }

  lemma {:induction false} CommentFlag(st: State, ts: seq<Token>, pos: nat, total: nat)
    ensures FeedAll(st, ts, pos, total).res.comments <==> st.res.comments || HasComment(ts)
    decreases |ts|
  {
    hide Feed;
    if ts != [] {
      FeedComments(st, ts[0], pos, total);
      CommentFlag(Feed(st, ts[0], pos, total), ts[1..], pos + ts[0].Len(), total);
      assert HasComment(ts) <==> IsComment(ts[0]) || HasComment(ts[1..]) by {
        if HasComment(ts[1..]) {
          var k :| 0 <= k < |ts[1..]| && IsComment(ts[1..][k]);
          assert IsComment(ts[k + 1]);
        }
      }
    }
  }

  lemma FeedComments(st: State, t: Token, pos: nat, total: nat)
    ensures Feed(st, t, pos, total).res.comments <==> st.res.comments || IsComment(t)
  {
  }

  lemma NoCommentAtEnd(d: Dialect, s: string)
    requires !HasComment(Tokens(d, s))
    ensures !EndsInLineComment(d, s)
  {
    hide SqlScan.Tokens;
  }

  /** `d` sees a closed expression without separator or comment, or fails in a way that keeps it from running it. */
  predicate HarmlessFilter(d: Dialect, clause: string) {
    var ts := Tokens(d, clause);
    && !HasExecutable(ts)
    && !HasSemicolon(ts)
    && !HasComment(ts)
    && (!Lexes(d, clause) ==> Skippable(LexErrorOf(d, clause).value))
    && (Lexes(d, clause) ==> Balanced(ts) && forall w | w in BareWords(ts, 0) :: !Destructive(w))
  }

  lemma FilterVerdict(d: Dialect, clause: string)
    ensures CheckFilter(Lex(d, clause), LexErrorOf(d, clause)).None? <==> HarmlessFilter(d, clause)
  {
    hide SqlScan.Tokens, Balanced, HasComment, Destructive;
    LexMeaning(d, clause);
    CommentFlag(START, Tokens(d, clause), 0, |clause|);
  }

  /** A filter is accepted exactly when every dialect finds it harmless and some dialect reads it. */
  lemma FilterAcceptedIff(clause: string)
    ensures ValidateFilter(clause).None? <==>
            && (forall i | 0 <= i < |DIALECTS| :: HarmlessFilter(DIALECTS[i], clause))
            && exists i | 0 <= i < |DIALECTS| :: Lexes(DIALECTS[i], clause)
  {
    hide HarmlessFilter, FilterScan, SqlScan.Lexes, Lex, LexErrorOf, CheckFilter;
    forall i | 0 <= i < |DIALECTS|
      ensures CheckFilter(Lex(DIALECTS[i], clause), LexErrorOf(DIALECTS[i], clause)).None? <==>
          HarmlessFilter(DIALECTS[i], clause)
    {
      FilterVerdict(DIALECTS[i], clause);
    }
    if FilterScan(clause, |DIALECTS|).Ok? {
      FilterScanMeaning(clause, |DIALECTS|);
    } else if forall i | 0 <= i < |DIALECTS| :: HarmlessFilter(DIALECTS[i], clause) {
      FilterScanSucceeds(clause, |DIALECTS|);
    }
  }

  lemma {:induction false} FilterScanSucceeds(clause: string, k: nat)
    requires k <= |DIALECTS|
    requires forall i | 0 <= i < k :: CheckFilter(Lex(DIALECTS[i], clause), LexErrorOf(DIALECTS[i], clause)).None?
    ensures FilterScan(clause, k).Ok?
    decreases k
  {
    hide Lex, LexErrorOf, CheckFilter;
    if k > 0 {
      FilterScanSucceeds(clause, k - 1);
    }
  }

  /** A quoted or bracketed name that some dialect leaves open rejects the query, and the filter likewise. */
  lemma OpenNameIsRejected(raw: string, i: nat)
    requires i < |DIALECTS|
    ensures LexErrorOf(DIALECTS[i], TrimSpace(raw)) in {Some(UnterminatedIdentifier), Some(UnterminatedBracket)} ==>
              Normalize(raw).Err?
    ensures LexErrorOf(DIALECTS[i], raw) in {Some(UnterminatedIdentifier), Some(UnterminatedBracket)} ==>
              ValidateFilter(raw).Some?
  {
    hide TrimSpace, Normalize, Harmless, SqlScan.Tokens, ValidateFilter, LexErrorOf, HasExecutable, HasVisible;
    if Normalize(raw).Ok? {
      NormalizeIff(raw, Normalize(raw).value);
      assert OneStatement(DIALECTS[i], TrimSpace(raw));
    }
    FilterAcceptedIff(raw);
    if ValidateFilter(raw).None? {
      assert HarmlessFilter(DIALECTS[i], raw);
    }
  }

  /** An open string, comment or dollar quote leaves the verdict to the other dialects, unless a ';' came before. */
  lemma OpenStringIsLeftToOthers(d: Dialect, q: string)
    requires LexErrorOf(d, q) in {Some(UnterminatedString), Some(UnterminatedComment), Some(UnterminatedDollar)}
    ensures OneStatement(d, q) <==> !HasExecutable(Tokens(d, q)) && !HasSemicolon(Tokens(d, q))
  {
    hide SqlScan.Tokens, LexErrorOf, HasExecutable, HasVisible;
  }

  // ----- the assembled statement -----

  /** Text of letters, blanks and '*' is read by every dialect, word by word. */
  predicate PlainChar(c: char) { IsIdentStart(c) || IsDigit(c) || c == ' ' || c == '*' || c == '(' || c == ')' }

  predicate PlainText(p: string) { forall i | 0 <= i < |p| :: PlainChar(p[i]) }

  /** A text that leaves nothing open that could reach into what follows. */
  predicate LeavesNothingOpen(d: Dialect, p: string) {
    Lexes(d, p) && BracketsSettled(d, p) && !EndsInLineComment(d, p)
  }

  lemma {:induction false} PlainTextTokens(d: Dialect, p: string)
    requires PlainText(p)
    ensures LeavesNothingOpen(d, p)
    decreases |p|
  {
    if p != "" {
      PlainScan(d, p);
      var t := Scan(d, p);
      var rest := p[t.Len()..];
      assert PlainText(rest);
      PlainTextTokens(d, rest);
      assert Tokens(d, p) == [t] + Tokens(d, rest);
      if Tokens(d, rest) != [] {
        assert Tokens(d, p)[|Tokens(d, p)| - 1] == Tokens(d, rest)[|Tokens(d, rest)| - 1];
      }
    }
  }

  lemma PlainScan(d: Dialect, p: string)
    requires PlainText(p) && p != ""
    ensures var t := Scan(d, p); t.Blank? || t.Word? || t.Symbol? || t.OpenParen? || t.CloseParen?
  {
    assert p[0] != '-' && p[0] != '/' && p[0] != '#';
    assert !LineCommentAt(d, p) && !HasPrefix(p, "/*");
    if IsIdentStart(p[0]) {
      var j := WordEnd(p, 1);
      assert j < |p| ==> PlainChar(p[j]);
    }
  }

  /** The user's query under `SourceExpr`, behind any text that leaves nothing open and before any text whatever. */
  lemma QueryStaysOneGroup(raw: string, i: nat, before: string, rest: string)
    requires Normalize(raw).Ok? && i < |DIALECTS| && Lexes(DIALECTS[i], Normalize(raw).value) &&
        LeavesNothingOpen(DIALECTS[i], before)
    ensures var d := DIALECTS[i];
            var q := Normalize(raw).value;
            var newline := SomeDialectEndsInLineComment(q);
            var group := WrapTokens(Tokens(d, q), newline);
            && Tokens(d, before + Wrap(q, newline) + rest) == Tokens(d, before) + group + Tokens(d, rest)
            && ClosesFirstAt(group + Tokens(d, rest), |group|)
            && Balanced(group)
  {
    hide SqlScan.Tokens, Lex, Normalize;
    var d := DIALECTS[i];
    var q := Normalize(raw).value;
    NormalizedIsHarmless(raw);
    assert Harmless(d, q);
    LexMeaning(d, q);
    WrappedTextIsOneGroup(d, before, q, SomeDialectEndsInLineComment(q), rest);
  }

  /** The user's filter under "(" filter ")". */
  lemma FilterStaysOneGroup(clause: string, i: nat, before: string, rest: string)
    requires ValidateFilter(clause).None? && i < |DIALECTS| && Lexes(DIALECTS[i], clause) &&
        LeavesNothingOpen(DIALECTS[i], before)
    ensures var d := DIALECTS[i];
            var group := WrapTokens(Tokens(d, clause), false);
            && Tokens(d, before + Wrap(clause, false) + rest) == Tokens(d, before) + group + Tokens(d, rest)
            && ClosesFirstAt(group + Tokens(d, rest), |group|)
            && Balanced(group)
  {
    hide SqlScan.Tokens, ValidateFilter;
    var d := DIALECTS[i];
    FilterAcceptedIff(clause);
    assert HarmlessFilter(d, clause);
    NoCommentAtEnd(d, clause);
    WrappedTextIsOneGroup(d, before, clause, false, rest);
  }

  /** head (query) alias WHERE (filter)tail, the statement a cursor read or a count sends. */
  function CursorStatement(head: string, q: string, aliasKeyword: string, clause: string, tail: string): string {
    head + SourceExpr(q, aliasKeyword) + " WHERE " + Wrap(clause, false) + tail
  }

  /** The heads of row queries and of the count queries of all engines. */
  const HEADS: seq<string> := [
    "SELECT * FROM ", "SELECT COUNT(*) FROM ", "SELECT COUNT_BIG(*) FROM ", "SELECT toInt64(count()) FROM "
  ]

  lemma HeadsLeaveNothingOpen(d: Dialect, k: nat)
    requires k < |HEADS|
    ensures LeavesNothingOpen(d, HEADS[k])
  {
    assert PlainText(HEADS[k]);
    PlainTextTokens(d, HEADS[k]);
  }

  /**
   For every dialect that reads both user texts, the statement is: the head, one
   closed group with the query's own tokens, the alias, one closed group with
   the filter's own tokens, and the cursor predicate `tail` read on its own.
   */
  lemma StatementShape(head: string, raw: string, aliasKeyword: string, clause: string, tail: string, i: nat)
    requires Normalize(raw).Ok? && ValidateFilter(clause).None? && i < |DIALECTS|
    requires Lexes(DIALECTS[i], Normalize(raw).value) && Lexes(DIALECTS[i], clause)
    requires PlainText(aliasKeyword) && LeavesNothingOpen(DIALECTS[i], head)
    ensures var d := DIALECTS[i];
            var q := Normalize(raw).value;
            var query := WrapTokens(Tokens(d, q), SomeDialectEndsInLineComment(q));
            var filter := WrapTokens(Tokens(d, clause), false);
            var alias := SourceExpr(q, aliasKeyword)[|Wrap(q, SomeDialectEndsInLineComment(q))|..] + " WHERE ";
            var after := Tokens(d, alias) + filter + Tokens(d, tail);
            && Tokens(d, CursorStatement(head, q, aliasKeyword, clause, tail)) == Tokens(d, head) + query + after
            && ClosesFirstAt(query + after, |query|)
            && ClosesFirstAt(filter + Tokens(d, tail), |filter|)
            && Balanced(query) && Balanced(filter)
  {
    hide SqlScan.Tokens, Normalize, ValidateFilter, SqlScan.Lexes, LeavesNothingOpen, Balanced, ClosesFirstAt,
        SomeDialectEndsInLineComment, TrimSpace;
    var q := Normalize(raw).value;
    var wrapped := Wrap(q, SomeDialectEndsInLineComment(q));
    var alias := SourceExpr(q, aliasKeyword)[|wrapped|..] + " WHERE ";
    assert SourceExpr(q, aliasKeyword) == wrapped + SourceExpr(q, aliasKeyword)[|wrapped|..];
    PlainAlias(q, aliasKeyword);
    PlainTextTokens(DIALECTS[i], alias);
    FilterStaysOneGroup(clause, i, alias, tail);
    QueryStaysOneGroup(raw, i, head, alias + Wrap(clause, false) + tail);
    assert CursorStatement(head, q, aliasKeyword, clause, tail)
        == head + wrapped + (alias + Wrap(clause, false) + tail);
  }

  lemma PlainAlias(q: string, aliasKeyword: string)
    requires PlainText(aliasKeyword)
    ensures PlainText(SourceExpr(q, aliasKeyword)[|Wrap(q, SomeDialectEndsInLineComment(q))|..] + " WHERE ")
  {
    hide SomeDialectEndsInLineComment, TrimSpace;
    var alias := if TrimSpace(aliasKeyword) == "" then QUERY_ALIAS else aliasKeyword + " " + QUERY_ALIAS;
    assert SourceExpr(q, aliasKeyword)[|Wrap(q, SomeDialectEndsInLineComment(q))|..] == " " + alias;
    assert PlainText(QUERY_ALIAS) && PlainText(" ") && PlainText(" WHERE ");
  }
}
