/**
 The read-only gate: a query or a filter is accepted only if every dialect that
 can read it sees one harmless statement or expression.
 */
module ReadOnlySql {
  import opened Prelude
  import opened Trimming
  import opened SqlScan
  import opened SqlConcat
  import opened SqlResult
  import opened SqlWrap

  datatype SqlError =
    | EmptyQuery
    | ForbiddenConstruct
    | MultipleStatements
    | Unterminated(cause: LexError)
    | NoStatement
    | NotASelect
    | UnbalancedGroups
    | UnsafeKeyword(keyword: string)
    | DialectsDisagree
    | HasSeparator
    | HasComments

  // ----- one dialect's verdict -----

  predicate Skippable(e: LexError) { e != UnterminatedIdentifier && e != UnterminatedBracket }

  function CheckShape(res: LexResult, err: Option<LexError>): Option<SqlError> {
    if res.forbidden then Some(ForbiddenConstruct)
    else if res.statementEnd >= 0 && (res.trailing || err.Some?) then Some(MultipleStatements)
    else if err.Some? && !Skippable(err.value) then Some(Unterminated(err.value))
    else if err.Some? then None
    else if res.firstWord == "" then Some(NoStatement)
    else if !EqualFold(res.firstWord, "SELECT") && !EqualFold(res.firstWord, "WITH") then Some(NotASelect)
    else if res.unbalanced then Some(UnbalancedGroups)
    else if res.keyword != "" then Some(UnsafeKeyword(res.keyword))
    else None
  }

  function CheckFilter(res: LexResult, err: Option<LexError>): Option<SqlError> {
    if res.forbidden then Some(ForbiddenConstruct)
    else if res.statementEnd >= 0 then Some(HasSeparator)
    else if res.comments then Some(HasComments)
    else if err.Some? && !Skippable(err.value) then Some(Unterminated(err.value))
    else if err.Some? then None
    else if res.unbalanced then Some(UnbalancedGroups)
    else if res.keyword != "" then Some(UnsafeKeyword(res.keyword))
    else None
  }

  /** A statement end is an offset in the text. */
  lemma {:induction false} StatementEndWithin(d: Dialect, r: string, st: State, pos: nat, total: nat)
    requires pos + |r| == total && st.res.statementEnd < total
    ensures FeedAll(st, Tokens(d, r), pos, total).res.statementEnd < total
    decreases |r|
  {
    hide SqlScan.Scan, Feed;
    if r != "" {
      var t := Scan(d, r);
      var ts := Tokens(d, r);
      FeedFields(st, t, pos, total);
      if t.Bad? {
        assert ts == [t] && FeedAll(st, ts, pos, total) == Feed(st, t, pos, total);
      } else {
        var rest := r[t.Len()..];
        assert ts[1..] == Tokens(d, rest);
        StatementEndWithin(d, rest, Feed(st, t, pos, total), pos + t.Len(), total);
      }
    }
  }

  lemma StatementEndInRange(d: Dialect, s: string)
    ensures Lex(d, s).statementEnd < |s|
  {
    StatementEndWithin(d, s, START, 0, |s|);
  }

  lemma EmptyTokens(d: Dialect)
    ensures Tokens(d, "") == []
  {
  }

  // ----- all dialects -----

  /** What is known after the first dialects: the common end, if any lexed, else the first error. */
  datatype Progress = Progress(end: int, lexed: bool, lexErr: Option<LexError>)

  function CutStep(p: Progress, res: LexResult, err: Option<LexError>): Result<Progress, SqlError> {
    match CheckShape(res, err)
    case Some(e) => Err(e)
    case None =>
      if err.Some? then Ok(p.(lexErr := if p.lexErr.None? then err else p.lexErr))
      else if p.lexed && res.statementEnd != p.end then Err(DialectsDisagree)
      else Ok(p.(end := res.statementEnd, lexed := true))
  }

  function CutScan(query: string, k: nat): (r: Result<Progress, SqlError>)
    requires k <= |DIALECTS|
    ensures r.Ok? && !r.value.lexed && k > 0 ==> r.value.lexErr.Some?
    ensures r.Ok? && r.value.lexed ==> r.value.end < |query|
  {
    if k == 0 then Ok(Progress(-1, false, None))
    else
      var before := CutScan(query, k - 1);
      if before.Err? then before
      else
        var d := DIALECTS[k - 1];
        StatementEndInRange(d, query);
        CutStep(before.value, Lex(d, query), LexErrorOf(d, query))
  }

  /** The single statement of `query`, without a final ';'. */
  function Cut(query: string): Result<string, SqlError> {
    match CutScan(query, |DIALECTS|)
    case Err(e) => Err(e)
    case Ok(p) =>
      if !p.lexed then Err(Unterminated(p.lexErr.value))
      else if p.end >= 0 then Ok(TrimSpace(query[..p.end]))
      else Ok(query)
  }

  function Normalize(raw: string): Result<string, SqlError> {
    var query := TrimSpace(raw);
    if query == "" then Err(EmptyQuery)
    else
      match Cut(query)
      case Err(e) => Err(e)
      case Ok(cut) =>
        match Cut(cut)
        case Err(e) => Err(e)
        case Ok(again) => if again != cut then Err(DialectsDisagree) else Ok(cut)
  }

  function FilterScan(clause: string, k: nat): (r: Result<Progress, SqlError>)
    requires k <= |DIALECTS|
    ensures r.Ok? && !r.value.lexed && k > 0 ==> r.value.lexErr.Some?
  {
    if k == 0 then Ok(Progress(-1, false, None))
    else
      var before := FilterScan(clause, k - 1);
      if before.Err? then before
      else
        var d := DIALECTS[k - 1];
        var err := LexErrorOf(d, clause);
        match CheckFilter(Lex(d, clause), err)
        case Some(e) => Err(e)
        case None =>
          var p := before.value;
          if err.Some? then Ok(p.(lexErr := if p.lexErr.None? then err else p.lexErr))
          else Ok(p.(lexed := true))
  }

  /** None when the filter is accepted. */
  function ValidateFilter(clause: string): Option<SqlError> {
    match FilterScan(clause, |DIALECTS|)
    case Err(e) => Some(e)
    case Ok(p) => if p.lexed then None else Some(Unterminated(p.lexErr.value))
  }

  // ----- the accumulator fields, said of tokens -----

  predicate HasSemicolon(ts: seq<Token>) { exists k | 0 <= k < |ts| :: ts[k].Semicolon? }

  predicate IsComment(t: Token) { t.LineComment? || t.BlockComment? || (t.Bad? && t.error == UnterminatedComment) }

  /** Something a server would act on. */
  predicate IsVisible(t: Token) { !t.Blank? && !IsComment(t) }

  predicate HasVisible(ts: seq<Token>) { exists k | 0 <= k < |ts| :: IsVisible(ts[k]) }

  /** A comment that the dialect executes. */
  predicate IsExecutable(t: Token) { (t.BlockComment? || (t.Bad? && t.error == UnterminatedComment)) && t.executable }

  predicate HasExecutable(ts: seq<Token>) { exists k | 0 <= k < |ts| :: IsExecutable(ts[k]) }

  /** The offset of the first ';', or -1. */
  function SeparatorAt(ts: seq<Token>): (o: int)
    ensures -1 <= o && (o < 0 <==> !HasSemicolon(ts))
  {
    if ts == [] then -1
    else
      SemicolonCons(ts);
      if ts[0].Semicolon? then 0
      else
        var rest := SeparatorAt(ts[1..]);
        if rest < 0 then -1 else ts[0].Len() + rest
  }

  /** The tokens behind the first ';'. */
  function Behind(ts: seq<Token>): seq<Token> {
    if ts == [] then [] else if ts[0].Semicolon? then ts[1..] else Behind(ts[1..])
  }

  lemma VisibleCons(ts: seq<Token>)
    requires ts != []
    ensures HasVisible(ts) <==> IsVisible(ts[0]) || HasVisible(ts[1..])
    ensures HasExecutable(ts) <==> IsExecutable(ts[0]) || HasExecutable(ts[1..])
  {
    if k :| 0 <= k < |ts[1..]| && IsVisible(ts[1..][k]) {
      assert IsVisible(ts[k + 1]);
    }
    if k :| 0 <= k < |ts[1..]| && IsExecutable(ts[1..][k]) {
      assert IsExecutable(ts[k + 1]);
    }
  }

  lemma SeeKeeps(st: State, t: Token, pos: nat)
    ensures See(st, t, pos).trailing == st.res.trailing && See(st, t, pos).forbidden == st.res.forbidden
  {
    hide Destructive, ToUpper;
  }

  lemma FeedFlags(st: State, t: Token, pos: nat, total: nat)
    ensures var r := Feed(st, t, pos, total).res;
            && (r.trailing <==> st.res.trailing || (IsVisible(t) && st.res.statementEnd >= 0))
            && (r.forbidden <==> st.res.forbidden || IsExecutable(t))
  {
    hide Destructive, ToUpper, See;
    SeeKeeps(st.(res := st.res.(trailing := st.res.trailing || st.res.statementEnd >= 0)), t, pos);
  }

  /** The separator, what follows it and executable comments, as the accumulator finds them. */
  lemma {:induction false} FeedTrailing(st: State, ts: seq<Token>, pos: nat, total: nat)
    ensures var r := FeedAll(st, ts, pos, total).res;
            && (r.forbidden <==> st.res.forbidden || HasExecutable(ts))
            && (st.res.statementEnd >= 0 ==> (r.trailing <==> st.res.trailing || HasVisible(ts)))
            && (st.res.statementEnd < 0 ==>
                  && (r.trailing <==> st.res.trailing || HasVisible(Behind(ts)))
                  && r.statementEnd == (if HasSemicolon(ts) then pos + SeparatorAt(ts) else st.res.statementEnd))
    decreases |ts|
  {
    hide Feed, Destructive, ToUpper, HasVisible, HasExecutable, HasSemicolon, IsVisible, IsExecutable;
    if ts == [] {
      NoTokens();
    } else {
      var t := ts[0];
      FeedFields(st, t, pos, total);
      FeedFlags(st, t, pos, total);
      SemicolonCons(ts);
      VisibleCons(ts);
      FeedSeparators(Feed(st, t, pos, total), ts[1..], pos + t.Len(), total);
      FeedTrailing(Feed(st, t, pos, total), ts[1..], pos + t.Len(), total);
    }
  }

  lemma NoTokens()
    ensures !HasVisible([]) && !HasExecutable([]) && !HasSemicolon([])
  {
  }

  /** Words outside subscript brackets, `b` brackets being open before. */
  function BareWords(ts: seq<Token>, b: int): seq<string> {
    if ts == [] then []
    else
      (if ts[0].Word? && b == 0 then [ts[0].text] else []) + BareWords(ts[1..], b + BracketWeight(ts[0]))
  }

  lemma SeeFields(st: State, t: Token, pos: nat)
    ensures var r := See(st, t, pos);
            && (r.statementEnd == if st.res.statementEnd < 0 && t.Semicolon? then pos else st.res.statementEnd)
            && (st.brackets == 0 && t.Word? ==>
                  && r.firstWord == (if st.res.firstWord == "" then t.text else st.res.firstWord)
                  && r.keyword == if st.res.keyword == "" && Destructive(t.text) then ToUpper(t.text)
                      else st.res.keyword)
            && (st.brackets != 0 || !t.Word? ==> r.firstWord == st.res.firstWord && r.keyword == st.res.keyword)
  {
    hide Destructive, ToUpper;
  }

  lemma FeedFields(st: State, t: Token, pos: nat, total: nat)
    ensures var r := Feed(st, t, pos, total).res;
            && (r.statementEnd == if st.res.statementEnd < 0 && t.Semicolon? then pos else st.res.statementEnd)
            && (st.brackets == 0 && t.Word? ==>
                  && r.firstWord == (if st.res.firstWord == "" then t.text else st.res.firstWord)
                  && r.keyword == if st.res.keyword == "" && Destructive(t.text) then ToUpper(t.text)
                      else st.res.keyword)
            && (st.brackets != 0 || !t.Word? ==> r.firstWord == st.res.firstWord && r.keyword == st.res.keyword)
  {
    hide Destructive, ToUpper, See;
    SeeFields(st.(res := st.res.(trailing := st.res.trailing || st.res.statementEnd >= 0)), t, pos);
  }

  lemma DestructiveIsNotEmpty(w: string)
    ensures Destructive(w) ==> ToUpper(w) != ""
  {
  }

  lemma {:induction false} FeedSeparators(st: State, ts: seq<Token>, pos: nat, total: nat)
    ensures var r := FeedAll(st, ts, pos, total).res;
            && (st.res.statementEnd < 0 ==> (r.statementEnd < 0 <==> !HasSemicolon(ts)))
            && (!HasSemicolon(ts) || st.res.statementEnd >= 0 ==> r.statementEnd == st.res.statementEnd)
    decreases |ts|
  {
    hide Feed, Destructive, ToUpper;
    if ts != [] {
      var t := ts[0];
      FeedFields(st, t, pos, total);
      FeedSeparators(Feed(st, t, pos, total), ts[1..], pos + t.Len(), total);
      SemicolonCons(ts);
    }
  }

  lemma SemicolonCons(ts: seq<Token>)
    requires ts != []
    ensures HasSemicolon(ts) <==> ts[0].Semicolon? || HasSemicolon(ts[1..])
  {
    if HasSemicolon(ts[1..]) {
      var k :| 0 <= k < |ts[1..]| && ts[1..][k].Semicolon?;
      assert ts[k + 1].Semicolon?;
    }
  }

  lemma {:induction false} FeedWords(st: State, ts: seq<Token>, pos: nat, total: nat)
    requires forall k | 0 <= k < |ts| && ts[k].Word? :: ts[k].text != ""
    ensures var words := BareWords(ts, st.brackets);
            var r := FeedAll(st, ts, pos, total).res;
            && (st.res.firstWord == "" ==> r.firstWord == if words == [] then "" else words[0])
            && (st.res.firstWord != "" ==> r.firstWord == st.res.firstWord)
            && (r.keyword == "" <==> st.res.keyword == "" && forall w | w in words :: !Destructive(w))
    decreases |ts|
  {
    hide Feed, Destructive, ToUpper;
    if ts != [] {
      var t := ts[0];
      FeedFields(st, t, pos, total);
      FeedOne(st, t, pos, total);
      if t.Word? {
        DestructiveIsNotEmpty(t.text);
      }
      var next := Feed(st, t, pos, total);
      assert forall k | 0 <= k < |ts[1..]| :: ts[1..][k] == ts[k + 1];
      FeedWords(next, ts[1..], pos + t.Len(), total);
      assert forall w | w in BareWords(ts, st.brackets) ::
          w in BareWords(ts[1..], next.brackets) || (t.Word? && st.brackets == 0 && w == t.text);
    }
  }

  lemma {:induction false} WordsAreNotEmpty(d: Dialect, r: string)
    ensures forall k | 0 <= k < |Tokens(d, r)| && Tokens(d, r)[k].Word? :: Tokens(d, r)[k].text != ""
    decreases |r|
  {
    hide SqlScan.Scan;
    if r != "" && !Scan(d, r).Bad? {
      var t := Scan(d, r);
      WordsAreNotEmpty(d, r[t.Len()..]);
      assert Tokens(d, r) == [t] + Tokens(d, r[t.Len()..]);
    } else if r != "" {
      assert Tokens(d, r) == [Scan(d, r)];
    }
  }

  /** The lexer's summary of `s`, in terms of the tokens alone. */
  lemma LexMeaning(d: Dialect, s: string)
    ensures var ts := Tokens(d, s);
            var words := BareWords(ts, 0);
            var r := Lex(d, s);
            && (r.statementEnd < 0 <==> !HasSemicolon(ts))
            && r.statementEnd == SeparatorAt(ts)
            && (r.trailing <==> HasVisible(Behind(ts)))
            && (r.forbidden <==> HasExecutable(ts))
            && r.firstWord == (if words == [] then "" else words[0])
            && (r.keyword == "" <==> forall w | w in words :: !Destructive(w))
            && (Lexes(d, s) ==> (r.unbalanced <==> !Balanced(ts)))
            && (r.lineComment <==> EndsInLineComment(d, s))
  {
    hide SqlScan.Tokens, Balanced, Destructive, EndsInLineComment;
    WordsAreNotEmpty(d, s);
    FeedTrailing(START, Tokens(d, s), 0, |s|);
    FeedWords(START, Tokens(d, s), 0, |s|);
    if Lexes(d, s) {
      UnbalancedIff(d, s);
    }
    LineCommentFlag(d, s, START, 0, |s|);
  }

  // ----- acceptance, said of all dialects at once -----

  /** `d` sees one read-only statement in `q`, or fails in a way that keeps it from running `q`. */
  predicate Harmless(d: Dialect, q: string) {
    var ts := Tokens(d, q);
    var words := BareWords(ts, 0);
    && !HasExecutable(ts)
    && !HasSemicolon(ts)
    && (!Lexes(d, q) ==> Skippable(LexErrorOf(d, q).value))
    && (Lexes(d, q) ==>
          && words != []
          && (EqualFold(words[0], "SELECT") || EqualFold(words[0], "WITH"))
          && Balanced(ts)
          && forall w | w in words :: !Destructive(w))
  }

  /** A scan that succeeds has found every dialect in order and all ends equal. */
  lemma {:induction false} CutScanMeaning(query: string, k: nat)
    requires k <= |DIALECTS| && CutScan(query, k).Ok?
    ensures forall i | 0 <= i < k :: CheckShape(Lex(DIALECTS[i], query), LexErrorOf(DIALECTS[i], query)).None?
    ensures var p := CutScan(query, k).value;
            && (p.lexed <==> exists i | 0 <= i < k :: Lexes(DIALECTS[i], query))
            && forall i | 0 <= i < k && Lexes(DIALECTS[i], query) :: Lex(DIALECTS[i], query).statementEnd == p.end
    decreases k
  {
    hide Lex, LexErrorOf, CheckShape;
    if k > 0 {
      CutScanMeaning(query, k - 1);
    }
  }

  /** The fixpoints of cutting: no dialect sees a separator, and each sees the required shape. */
  lemma CutFixpoint(q: string)
    requires Cut(q) == Ok(q)
    ensures forall i | 0 <= i < |DIALECTS| :: Harmless(DIALECTS[i], q)
    ensures exists i | 0 <= i < |DIALECTS| :: Lexes(DIALECTS[i], q)
    ensures q != ""
  {
    hide Lex, LexErrorOf, Balanced, Destructive, EqualFold, SqlScan.Tokens;
    CutScanMeaning(q, |DIALECTS|);
    var p := CutScan(q, |DIALECTS|).value;
    if p.end >= 0 {
      TrimLeavesNoSpace(q[..p.end]);
      assert false;
    }
    forall i | 0 <= i < |DIALECTS|
      ensures Harmless(DIALECTS[i], q)
    {
      LexMeaning(DIALECTS[i], q);
    }
    if q == "" {
      LexMeaning(DIALECTS[0], q);
      EmptyTokens(DIALECTS[0]);
    }
  }

  /** Cutting accepts what every dialect finds harmless and some dialect reads, as it stands. */
  lemma {:induction false} HarmlessScans(q: string, k: nat)
    requires k <= |DIALECTS| && forall i | 0 <= i < k :: Harmless(DIALECTS[i], q)
    ensures CutScan(q, k).Ok? && CutScan(q, k).value.end == -1
    decreases k
  {
    hide Lex, LexErrorOf, Balanced, Destructive, EqualFold, SqlScan.Tokens, SqlScan.Lexes;
    if k > 0 {
      HarmlessScans(q, k - 1);
      var d := DIALECTS[k - 1];
      assert Harmless(d, q);
      LexMeaning(d, q);
      EmptyIsNoKeyword("SELECT");
      EmptyIsNoKeyword("WITH");
    }
  }

  lemma EmptyIsNoKeyword(k: string)
    ensures EqualFold("", k) <==> k == ""
  {
  }

  /** The normal forms, exactly. */
  lemma CutFixpointIff(q: string)
    ensures Cut(q) == Ok(q) <==>
            && (forall i | 0 <= i < |DIALECTS| :: Harmless(DIALECTS[i], q))
            && exists i | 0 <= i < |DIALECTS| :: Lexes(DIALECTS[i], q)
  {
    hide Harmless, CutScan, SqlScan.Lexes;
    if Cut(q) == Ok(q) {
      CutFixpoint(q);
    } else if forall i | 0 <= i < |DIALECTS| :: Harmless(DIALECTS[i], q) {
      HarmlessScans(q, |DIALECTS|);
      CutScanMeaning(q, |DIALECTS|);
    }
  }

  // ----- which texts are cut, and to what -----

  /**
   `d` sees one read-only statement in `q`, possibly ended by a ';' that only
   blanks and comments follow, or fails in a way that keeps it from running `q`.
   */
  predicate OneStatement(d: Dialect, q: string) {
    var ts := Tokens(d, q);
    var words := BareWords(ts, 0);
    && !HasExecutable(ts)
    && (HasSemicolon(ts) ==> Lexes(d, q) && !HasVisible(Behind(ts)))
    && (!Lexes(d, q) ==> Skippable(LexErrorOf(d, q).value))
    && (Lexes(d, q) ==>
          && words != []
          && (EqualFold(words[0], "SELECT") || EqualFold(words[0], "WITH"))
          && Balanced(ts)
          && forall w | w in words :: !Destructive(w))
  }

  lemma ShapeIff(d: Dialect, q: string)
    ensures CheckShape(Lex(d, q), LexErrorOf(d, q)).None? <==> OneStatement(d, q)
  {
    hide Lex, Balanced, Destructive, EqualFold, SqlScan.Tokens, HasVisible, HasExecutable;
    LexMeaning(d, q);
    EmptyIsNoKeyword("SELECT");
    EmptyIsNoKeyword("WITH");
  }

  /** All dialects that lex `q` see its first ';' at the same place, -1 for none. */
  predicate Agrees(q: string, at: int) {
    forall i | 0 <= i < |DIALECTS| && Lexes(DIALECTS[i], q) :: SeparatorAt(Tokens(DIALECTS[i], q)) == at
  }

  predicate AllOneStatement(q: string, k: nat)
    requires k <= |DIALECTS|
  {
    forall i | 0 <= i < k :: OneStatement(DIALECTS[i], q)
  }

  lemma {:induction false} CutScanIff(q: string, k: nat, at: int)
    requires k <= |DIALECTS|
    requires forall i | 0 <= i < k && Lexes(DIALECTS[i], q) :: SeparatorAt(Tokens(DIALECTS[i], q)) == at
    ensures CutScan(q, k).Ok? <==> AllOneStatement(q, k)
    ensures CutScan(q, k).Ok? && CutScan(q, k).value.lexed ==> CutScan(q, k).value.end == at
    decreases k
  {
    hide Lex, LexErrorOf, OneStatement, CheckShape, SqlScan.Tokens, SqlScan.Lexes, SeparatorAt;
    if k > 0 {
      CutScanIff(q, k - 1, at);
      ShapeIff(DIALECTS[k - 1], q);
      SeparatorIs(DIALECTS[k - 1], q);
    }
  }

  lemma SeparatorIs(d: Dialect, q: string)
    ensures Lex(d, q).statementEnd == SeparatorAt(Tokens(d, q)) < |q|
    ensures LexErrorOf(d, q).None? <==> Lexes(d, q)
  {
    LexMeaning(d, q);
    StatementEndInRange(d, q);
  }

  /** The text before the separator at `at`, or the whole text. */
  function Before(q: string, at: int): string
    requires at < |q| || at < 0
  {
    if at < 0 then q else TrimSpace(q[..at])
  }

  predicate SomeLexes(q: string) { exists i | 0 <= i < |DIALECTS| :: Lexes(DIALECTS[i], q) }

  /**
   A text is cut to `v` if and only if every dialect sees one read-only
   statement in it, some dialect lexes it, those that do agree where it ends,
   and `v` is the text up to there.
   */
  lemma CutIff(q: string, v: string)
    ensures Cut(q) == Ok(v) <==>
            && AllOneStatement(q, |DIALECTS|)
            && SomeLexes(q)
            && exists at | -1 <= at < |q| :: Agrees(q, at) && v == Before(q, at)
  {
    hide Lex, LexErrorOf, CheckShape, SqlScan.Tokens, SqlScan.Lexes, SeparatorAt, OneStatement, TrimSpace;
    if Cut(q).Ok? {
      CutScanMeaning(q, |DIALECTS|);
      var at := CutScan(q, |DIALECTS|).value.end;
      forall i | 0 <= i < |DIALECTS|
        ensures OneStatement(DIALECTS[i], q) && (Lexes(DIALECTS[i], q) ==> SeparatorAt(Tokens(DIALECTS[i], q)) == at)
      {
        ShapeIff(DIALECTS[i], q);
        SeparatorIs(DIALECTS[i], q);
      }
      assert Agrees(q, at);
      SeparatorKnown(q, at);
      assert Cut(q) == Ok(Before(q, at));
      forall at' | -1 <= at' < |q| && Agrees(q, at')
        ensures at' == at
      {
        AgreeOnce(q, at, at');
      }
    }
    if at :| -1 <= at < |q| && AllOneStatement(q, |DIALECTS|) && SomeLexes(q) && Agrees(q, at) && v == Before(q, at) {
      CutScanIff(q, |DIALECTS|, at);
      CutScanMeaning(q, |DIALECTS|);
    }
  }

  lemma SeparatorKnown(q: string, at: int)
    requires SomeLexes(q) && Agrees(q, at)
    ensures -1 <= at < |q|
  {
    hide Lex, SqlScan.Tokens, SqlScan.Lexes, SeparatorAt;
    var i :| 0 <= i < |DIALECTS| && Lexes(DIALECTS[i], q);
    SeparatorIs(DIALECTS[i], q);
  }

  lemma AgreeOnce(q: string, at: int, at': int)
    requires SomeLexes(q) && Agrees(q, at) && Agrees(q, at')
    ensures at == at'
  {
    hide SqlScan.Tokens, SqlScan.Lexes, SeparatorAt;
    var i :| 0 <= i < |DIALECTS| && Lexes(DIALECTS[i], q);
  }
}
