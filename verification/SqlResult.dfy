/**
 What one dialect sees in the text: a fold over its tokens, and the balance of
 parentheses and subscript brackets that the fold records.
 */
module SqlResult {
  import opened Prelude
  import opened SqlScan
  import opened SqlConcat

  datatype LexResult = LexResult(
    firstWord: string,
    lastWord: string,
    keyword: string,
    statementEnd: int,
    trailing: bool,
    comments: bool,
    lineComment: bool,
    unbalanced: bool,
    forbidden: bool)

  datatype State = State(parens: int, brackets: int, res: LexResult)

  const START := State(0, 0, LexResult("", "", "", -1, false, false, false, false, false))

  const DESTRUCTIVE: seq<string> := [
    "INSERT", "UPDATE", "DELETE", "DROP", "ALTER", "CREATE", "TRUNCATE", "GRANT", "REVOKE",
    "MERGE", "CALL", "EXEC", "EXECUTE", "COPY", "LOAD", "UNLOAD", "REPLACE", "INTO"
  ]

  predicate Destructive(word: string) { ToUpper(word) in DESTRUCTIVE }

  function SeeWord(brackets: int, r: LexResult, w: string): LexResult {
    if brackets != 0 then r
    else r.(
      firstWord := if r.firstWord == "" then w else r.firstWord,
      lastWord := w,
      keyword := if r.keyword == "" && Destructive(w) then ToUpper(w) else r.keyword)
  }

  function ParenWeight(t: Token): int { if t.OpenParen? then 1 else if t.CloseParen? then -1 else 0 }

  function BracketWeight(t: Token): int { if t.OpenBracket? then 1 else if t.CloseBracket? then -1 else 0 }

  /** What a token that is neither blank nor comment adds to the result. */
  function See(st: State, t: Token, pos: nat): LexResult {
    var r := st.res;
    match t
    case Semicolon => r.(statementEnd := if r.statementEnd < 0 then pos else r.statementEnd)
    case CloseParen => r.(unbalanced := r.unbalanced || st.parens - 1 < 0)
    case CloseBracket => r.(unbalanced := r.unbalanced || st.brackets - 1 < 0)
    case Word(w) => SeeWord(st.brackets, r, w)
    case _ => r
  }

  function FeedVisible(st: State, t: Token, pos: nat): State {
    var noted := st.(res := st.res.(trailing := st.res.trailing || st.res.statementEnd >= 0));
    State(st.parens + ParenWeight(t), st.brackets + BracketWeight(t), See(noted, t, pos))
  }

  /** One token that starts at `pos` in a text of `total` bytes. */
  function Feed(st: State, t: Token, pos: nat, total: nat): State {
    var r := st.res;
    if t.Blank? then st
    else if t.LineComment? then
      st.(res := r.(comments := true, lineComment := r.lineComment || pos + t.len == total))
    else if t.BlockComment? || (t.Bad? && t.error == UnterminatedComment) then
      st.(res := r.(comments := true, forbidden := r.forbidden || t.executable))
    else FeedVisible(st, t, pos)
  }

  function FeedAll(st: State, ts: seq<Token>, pos: nat, total: nat): State
    decreases |ts|
  {
    if ts == [] then st else FeedAll(Feed(st, ts[0], pos, total), ts[1..], pos + ts[0].Len(), total)
  }

  function LexErrorOf(d: Dialect, s: string): (e: Option<LexError>)
    ensures e.None? <==> Lexes(d, s)
  {
    BadIsLast(d, s);
    var ts := Tokens(d, s);
    if ts != [] && ts[|ts| - 1].Bad? then Some(ts[|ts| - 1].error) else None
  }

  /** The result of lexing `s`, up to the end or the first error. */
  function Lex(d: Dialect, s: string): LexResult {
    var st := FeedAll(START, Tokens(d, s), 0, |s|);
    if Lexes(d, s) && (st.parens != 0 || st.brackets != 0) then st.res.(unbalanced := true) else st.res
  }

  // ----- balance, said of token sequences -----

  function Parens(ts: seq<Token>): int { if ts == [] then 0 else ParenWeight(ts[0]) + Parens(ts[1..]) }

  function Brackets(ts: seq<Token>): int { if ts == [] then 0 else BracketWeight(ts[0]) + Brackets(ts[1..]) }

  /** Some prefix closes more than was open, `p` parentheses and `b` brackets being open before. */
  predicate Underflows(ts: seq<Token>, p: int, b: int) {
    exists k | 0 <= k <= |ts| :: p + Parens(ts[..k]) < 0 || b + Brackets(ts[..k]) < 0
  }

  predicate Balanced(ts: seq<Token>) { !Underflows(ts, 0, 0) && Parens(ts) == 0 && Brackets(ts) == 0 }

  /** The token at `n - 1` closes the group that the first token opens. */
  predicate ClosesFirstAt(ts: seq<Token>, n: nat) {
    && 1 <= n <= |ts|
    && ts[0].OpenParen?
    && Parens(ts[..n]) == 0
    && forall k | 0 < k < n :: Parens(ts[..k]) > 0
  }

  // ----- proofs -----

  lemma BadIsLast(d: Dialect, s: string)
    ensures forall k | 0 <= k < |Tokens(d, s)| - 1 :: !Tokens(d, s)[k].Bad?
    decreases |s|
  {
    if s != "" && !Scan(d, s).Bad? {
      var rest := s[Scan(d, s).Len()..];
      BadIsLast(d, rest);
      assert Tokens(d, s) == [Scan(d, s)] + Tokens(d, rest);
    }
  }

  lemma {:induction false} SumsConcat(a: seq<Token>, b: seq<Token>)
    ensures Parens(a + b) == Parens(a) + Parens(b)
    ensures Brackets(a + b) == Brackets(a) + Brackets(b)
  {
    if a == [] {
      assert a + b == b;
    } else {
      assert (a + b)[1..] == a[1..] + b;
      SumsConcat(a[1..], b);
    }
  }

  lemma UnderflowsCons(ts: seq<Token>, p: int, b: int)
    requires ts != []
    ensures Underflows(ts, p, b) <==>
            p < 0 || b < 0 || Underflows(ts[1..], p + ParenWeight(ts[0]), b + BracketWeight(ts[0]))
  {
    forall k | 0 < k <= |ts|
      ensures Parens(ts[..k]) == ParenWeight(ts[0]) + Parens(ts[1..][..k - 1])
      ensures Brackets(ts[..k]) == BracketWeight(ts[0]) + Brackets(ts[1..][..k - 1])
    {
      assert ts[..k][1..] == ts[1..][..k - 1];
    }
    if p < 0 || b < 0 {
      assert ts[..0] == [];
    } else if Underflows(ts, p, b) {
      var k :| 0 <= k <= |ts| && (p + Parens(ts[..k]) < 0 || b + Brackets(ts[..k]) < 0);
      assert k > 0;
      assert 0 <= k - 1 <= |ts[1..]|;
    }
    var p', b' := p + ParenWeight(ts[0]), b + BracketWeight(ts[0]);
    if Underflows(ts[1..], p', b') {
      var k :| 0 <= k <= |ts[1..]| && (p' + Parens(ts[1..][..k]) < 0 || b' + Brackets(ts[1..][..k]) < 0);
      assert 0 <= k + 1 <= |ts|;
      assert Parens(ts[..k + 1]) == ParenWeight(ts[0]) + Parens(ts[1..][..k]);
    }
  }

  /** What one token does to the depth, the underflow flag and the line-comment flag. */
  lemma FeedOne(st: State, t: Token, pos: nat, total: nat)
    ensures Feed(st, t, pos, total).parens == st.parens + ParenWeight(t)
    ensures Feed(st, t, pos, total).brackets == st.brackets + BracketWeight(t)
    ensures Feed(st, t, pos, total).res.unbalanced <==>
            || st.res.unbalanced
            || (t.CloseParen? && st.parens + ParenWeight(t) < 0)
            || (t.CloseBracket? && st.brackets + BracketWeight(t) < 0)
    ensures Feed(st, t, pos, total).res.lineComment <==>
            st.res.lineComment || (t.LineComment? && pos + t.Len() == total)
  {
  }

  /** The fold counts depth and remembers exactly whether some prefix underflowed. */
  lemma {:induction false} FeedBalance(st: State, ts: seq<Token>, pos: nat, total: nat)
    requires st.parens < 0 || st.brackets < 0 ==> st.res.unbalanced
    ensures FeedAll(st, ts, pos, total).parens == st.parens + Parens(ts)
    ensures FeedAll(st, ts, pos, total).brackets == st.brackets + Brackets(ts)
    ensures FeedAll(st, ts, pos, total).res.unbalanced <==>
            st.res.unbalanced || Underflows(ts, st.parens, st.brackets)
    decreases |ts|
  {
    hide Feed;
    if ts == [] {
      assert ts[..0] == [];
    } else {
      UnderflowsCons(ts, st.parens, st.brackets);
      FeedOne(st, ts[0], pos, total);
      var next := Feed(st, ts[0], pos, total);
      FeedBalance(next, ts[1..], pos + ts[0].Len(), total);
      if next.parens < 0 || next.brackets < 0 {
        assert ts[1..][..0] == [];
        assert Underflows(ts[1..], next.parens, next.brackets);
      }
    }
  }

  /** A dialect that reads all of `s` reports "unbalanced" exactly when the tokens are not balanced. */
  lemma UnbalancedIff(d: Dialect, s: string)
    requires Lexes(d, s)
    ensures Lex(d, s).unbalanced <==> !Balanced(Tokens(d, s))
  {
    FeedBalance(START, Tokens(d, s), 0, |s|);
  }

  /** "Ends in a line comment" is what the flag says, lexing error or not. */
  lemma {:induction false} LineCommentFlag(d: Dialect, r: string, st: State, pos: nat, total: nat)
    requires pos + |r| == total
    ensures FeedAll(st, Tokens(d, r), pos, total).res.lineComment <==>
            st.res.lineComment || EndsInLineComment(d, r)
    decreases |r|
  {
    hide SqlScan.Scan, Feed;
    if r != "" {
      var t := Scan(d, r);
      var ts := Tokens(d, r);
      FeedOne(st, t, pos, total);
      if t.Bad? {
        assert ts == [t];
        assert FeedAll(st, ts, pos, total) == Feed(st, t, pos, total);
      } else {
        var rest := r[t.Len()..];
        assert ts[1..] == Tokens(d, rest);
        LineCommentFlag(d, rest, Feed(st, t, pos, total), pos + t.Len(), total);
        if rest == "" {
          assert ts == [t];
        } else {
          assert Tokens(d, rest) != [];
          assert ts[|ts| - 1] == Tokens(d, rest)[|Tokens(d, rest)| - 1];
        }
      }
    }
  }

  /** Without a ']' in the text no token closes a bracket. */
  lemma {:induction false} NoCloser(d: Dialect, r: string)
    requires ']' !in r
    ensures Brackets(Tokens(d, r)) >= 0
    decreases |r|
  {
    if r != "" && !Scan(d, r).Bad? {
      NoCloser(d, r[Scan(d, r).Len()..]);
      assert Tokens(d, r)[1..] == Tokens(d, r[Scan(d, r).Len()..]);
    }
  }

  /** Balanced brackets leave no '[' whose look-ahead ran off the text. */
  lemma {:induction false} SettledIfBalanced(d: Dialect, r: string, p: int, b: int)
    requires Lexes(d, r) && !Underflows(Tokens(d, r), p, b) && b + Brackets(Tokens(d, r)) == 0
    ensures BracketsSettled(d, r)
    decreases |r|
  {
    hide SqlScan.Scan;
    if r != "" {
      var t := Scan(d, r);
      var ts := Tokens(d, r);
      assert t == ts[0] && !ts[0].Bad?;
      var rest := r[t.Len()..];
      assert ts[1..] == Tokens(d, rest);
      assert forall k | 0 <= k < |Tokens(d, rest)| :: Tokens(d, rest)[k] == ts[k + 1];
      UnderflowsCons(ts, p, b);
      if t.OpenBracket? && ']' !in r {
        NoCloser(d, rest);
      }
      SettledIfBalanced(d, rest, p + ParenWeight(t), b + BracketWeight(t));
    }
  }
}
