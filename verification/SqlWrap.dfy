/**
 The compositional theorem: text that a dialect reads as balanced stays one
 closed group after "(" text [newline] ")", whatever stands before and behind.
 */
module SqlWrap {
  import opened SqlScan
  import opened SqlConcat
  import opened SqlResult

  function Wrap(text: string, newline: bool): string {
    "(" + text + (if newline then "\n" else "") + ")"
  }

  /** The tokens of a wrapped text, given those of the text. */
  function WrapTokens(ts: seq<Token>, newline: bool): seq<Token> {
    [OpenParen] + ts + (if newline then [Blank] else []) + [CloseParen]
  }

  lemma LoneTokens(d: Dialect, rest: string)
    ensures Tokens(d, ")" + rest) == [CloseParen] + Tokens(d, rest)
    ensures Tokens(d, "\n" + rest) == [Blank] + Tokens(d, rest)
    ensures Tokens(d, "(" + rest) == [OpenParen] + Tokens(d, rest)
  {
    hide ScanWord, ScanBracket, ScanDollar, QuotedEnd, BlockEnd, LineEnd, ExecutableAt;
    forall c | c == ')' || c == '(' || c == '\n'
      ensures ([c] + rest)[1..] == rest
      ensures !LineCommentAt(d, [c] + rest) && !HasPrefix([c] + rest, "/*")
    {
      assert ([c] + rest)[0] == c;
    }
    assert ")" == [')'] && "(" == ['('] && "\n" == ['\n'];
  }

  /** The user's tokens are unchanged by wrapping, and `rest` is read as if it stood alone. */
  lemma WrappedTokens(d: Dialect, text: string, newline: bool, rest: string)
    requires Lexes(d, text) && Balanced(Tokens(d, text))
    requires EndsInLineComment(d, text) ==> newline
    ensures Tokens(d, Wrap(text, newline) + rest) == WrapTokens(Tokens(d, text), newline) + Tokens(d, rest)
  {
    hide SqlScan.Tokens, EndsInLineComment, BracketsSettled;
    SettledIfBalanced(d, text, 0, 0);
    var tail := (if newline then "\n" else "") + ")" + rest;
    LoneTokens(d, rest);
    LoneTokens(d, ")" + rest);
    if newline {
      assert tail == "\n" + (")" + rest);
      assert Tokens(d, tail) == [Blank] + ([CloseParen] + Tokens(d, rest));
    } else {
      assert tail == ")" + rest;
    }
    TokensConcat(d, text, tail);
    LoneTokens(d, text + tail);
    assert Wrap(text, newline) + rest == "(" + (text + tail);
  }

  lemma WrapPrefix(ts: seq<Token>, newline: bool, k: nat)
    requires Balanced(ts) && 0 < k < |WrapTokens(ts, newline)|
    ensures Parens(WrapTokens(ts, newline)[..k]) > 0 && Brackets(WrapTokens(ts, newline)[..k]) >= 0
  {
    var w := WrapTokens(ts, newline);
    if k <= |ts| + 1 {
      assert w[..k] == [OpenParen] + ts[..k - 1];
      SumsConcat([OpenParen], ts[..k - 1]);
      assert !(Parens(ts[..k - 1]) < 0 || Brackets(ts[..k - 1]) < 0);
    } else {
      assert w[..k] == [OpenParen] + ts + [Blank];
      SumsConcat([OpenParen], ts);
      SumsConcat([OpenParen] + ts, [Blank]);
    }
  }

  lemma WrapTotal(ts: seq<Token>, newline: bool)
    ensures Parens(WrapTokens(ts, newline)) == Parens(ts)
    ensures Brackets(WrapTokens(ts, newline)) == Brackets(ts)
  {
    var body := [OpenParen] + ts;
    var inner := if newline then body + [Blank] else body;
    SumsConcat([OpenParen], ts);
    SumsConcat(body, [Blank]);
    assert WrapTokens(ts, newline) == inner + [CloseParen];
    SumsConcat(inner, [CloseParen]);
  }

  /** Inside the group the depth never returns to zero; at its end it does. */
  lemma WrapCloses(ts: seq<Token>, newline: bool, rest: seq<Token>)
    requires Balanced(ts)
    ensures ClosesFirstAt(WrapTokens(ts, newline) + rest, |WrapTokens(ts, newline)|)
    ensures Balanced(WrapTokens(ts, newline))
  {
    var w := WrapTokens(ts, newline);
    WrapTotal(ts, newline);
    forall k | 0 < k < |w|
      ensures Parens(w[..k]) > 0 && Brackets(w[..k]) >= 0
      ensures (w + rest)[..k] == w[..k]
    {
      WrapPrefix(ts, newline, k);
    }
    assert w[..|w|] == w && w[..0] == [];
    assert (w + rest)[..|w|] == w;
  }

  /**
   Main result. In any context `before ... rest` whose beginning is itself read
   completely, the wrapped text is one group: its first token is the "(", the
   matching ")" is the one that was added, the tokens in between are those of
   the text alone, and `rest` is lexed as if nothing stood before it.
   */
  lemma WrappedTextIsOneGroup(d: Dialect, before: string, text: string, newline: bool, rest: string)
    requires Lexes(d, before) && BracketsSettled(d, before) && !EndsInLineComment(d, before)
    requires Lexes(d, text) && Balanced(Tokens(d, text))
    requires EndsInLineComment(d, text) ==> newline
    ensures var group := WrapTokens(Tokens(d, text), newline);
            && Tokens(d, before + Wrap(text, newline) + rest) == Tokens(d, before) + group + Tokens(d, rest)
            && ClosesFirstAt(group + Tokens(d, rest), |group|)
            && Balanced(group)
  {
    hide SqlScan.Tokens, EndsInLineComment, BracketsSettled, SqlScan.Lexes;
    var wrapped := Wrap(text, newline) + rest;
    WrappedTokens(d, text, newline, rest);
    assert wrapped[0] == '(';
    TokensConcat(d, before, wrapped);
    assert before + Wrap(text, newline) + rest == before + wrapped;
    WrapCloses(Tokens(d, text), newline, Tokens(d, rest));
    var group := WrapTokens(Tokens(d, text), newline);
    assert Tokens(d, before) + (group + Tokens(d, rest)) == Tokens(d, before) + group + Tokens(d, rest);
  }
}
