/**
 Lexing and concatenation: text that a dialect reads completely keeps its
 tokens when other text follows, provided that the follower cannot extend the
 last token and that no '[' was left looking for its ']'.
 */
module SqlConcat {
  import opened Prelude
  import opened SqlScan

  /** Bytes that never continue a token. */
  predicate Separates(c: char) { c == ' ' || c == '\n' || c == '(' || c == ')' }

  /** `t` may follow `r`: it starts a token of its own, on a new line if `r` ends in a line comment. */
  predicate MayFollow(d: Dialect, r: string, t: string) {
    t == "" || (Separates(t[0]) && (EndsInLineComment(d, r) ==> t[0] == '\n'))
  }

  predicate EndsInLineComment(d: Dialect, r: string) {
    var ts := Tokens(d, r);
    ts != [] && ts[|ts| - 1].LineComment?
  }

  /** Every '[' read as a subscript has a ']' somewhere after it. */
  predicate BracketsSettled(d: Dialect, r: string)
    decreases |r|
  {
    r == "" ||
    (var t := Scan(d, r);
     && (t.OpenBracket? ==> ']' in r)
     && (!t.Bad? ==> BracketsSettled(d, r[t.Len()..])))
  }

  // ----- each search gives the same answer with more text behind -----

  lemma {:induction false} IndexFromConcat(r: string, t: string, k: nat, c: char)
    requires k <= |r| && c in r[k..]
    ensures IndexFrom(r + t, k, c) == IndexFrom(r, k, c) < |r|
    decreases |r| - k
  {
    if r[k] != c {
      assert r[k..] == [r[k]] + r[k + 1..];
      IndexFromConcat(r, t, k + 1, c);
    }
  }

  lemma {:induction false} LineEndConcat(r: string, t: string, k: nat)
    requires k <= |r|
    requires LineEnd(r, k) < |r| || t == "" || t[0] == '\n'
    ensures LineEnd(r + t, k) == LineEnd(r, k)
    decreases |r| - k
  {
    if k < |r| && r[k] != '\r' && r[k] != '\n' {
      LineEndConcat(r, t, k + 1);
    }
  }

  lemma {:induction false} FindConcat(r: string, t: string, k: nat, pat: string)
    requires Find(r, k, pat).Some?
    ensures Find(r + t, k, pat) == Find(r, k, pat)
    decreases |r| - k
  {
    assert (r + t)[k..k + |pat|] == r[k..k + |pat|];
    if r[k..k + |pat|] != pat {
      FindConcat(r, t, k + 1, pat);
    }
  }

  lemma {:induction false} BlockEndConcat(nested: bool, r: string, t: string, k: nat, depth: nat)
    requires depth >= 1 && BlockEnd(nested, r, k, depth).Some?
    ensures BlockEnd(nested, r + t, k, depth) == BlockEnd(nested, r, k, depth)
    decreases |r| - k
  {
    if r[k] == '/' && r[k + 1] == '*' && nested {
      BlockEndConcat(nested, r, t, k + 2, depth + 1);
    } else if r[k] == '*' && r[k + 1] == '/' {
      if depth > 1 {
        BlockEndConcat(nested, r, t, k + 2, depth - 1);
      }
    } else {
      BlockEndConcat(nested, r, t, k + 1, depth);
    }
  }

  lemma {:induction false} QuotedEndConcat(r: string, t: string, k: nat, quote: char, backslash: bool)
    requires QuotedEnd(r, k, quote, backslash).Some?
    requires t == "" || t[0] != quote
    ensures QuotedEnd(r + t, k, quote, backslash) == QuotedEnd(r, k, quote, backslash)
    decreases |r| - k
  {
    if backslash && r[k] == '\\' {
      QuotedEndConcat(r, t, k + 2, quote, backslash);
    } else if r[k] != quote {
      QuotedEndConcat(r, t, k + 1, quote, backslash);
    } else if k + 1 < |r| && r[k + 1] == quote {
      QuotedEndConcat(r, t, k + 2, quote, backslash);
    }
  }

  lemma {:induction false} TagEndConcat(r: string, t: string, k: nat)
    requires 1 <= k <= |r| && (t == "" || Separates(t[0]))
    ensures TagEnd(r + t, k) == TagEnd(r, k)
    decreases |r| - k
  {
    if k < |r| && (IsIdentStart(r[k]) || IsHigh(r[k]) || (k > 1 && IsDigit(r[k]))) {
      TagEndConcat(r, t, k + 1);
    }
  }

  lemma {:induction false} WordEndConcat(r: string, t: string, k: nat)
    requires k <= |r| && (t == "" || Separates(t[0]))
    ensures WordEnd(r + t, k) == WordEnd(r, k)
    decreases |r| - k
  {
    if k < |r| && IsIdentPart(r[k]) {
      WordEndConcat(r, t, k + 1);
    }
  }

  // ----- the first token -----

  lemma ScanDollarConcat(r: string, t: string)
    requires r != "" && !ScanDollar(r).Bad? && (t == "" || Separates(t[0]))
    ensures ScanDollar(r + t) == ScanDollar(r)
  {
    TagEndConcat(r, t, 1);
    var j := TagEnd(r, 1);
    if j < |r| && r[j] == '$' {
      assert (r + t)[..j + 1] == r[..j + 1];
      FindConcat(r, t, j + 1, r[..j + 1]);
    }
  }

  lemma ScanBracketConcat(d: Dialect, r: string, t: string)
    requires r != "" && !ScanBracket(d, r).Bad? && (t == "" || Separates(t[0]))
    requires ScanBracket(d, r).OpenBracket? ==> ']' in r[1..]
    ensures ScanBracket(d, r + t) == ScanBracket(d, r)
  {
    if r[0] == '[' {
      if d.bracketIdents {
        QuotedEndConcat(r, t, 1, ']', false);
      } else {
        var close := IndexFrom(r, 1, ']');
        if close < |r| {
          assert r[close] in r[1..];
        }
        IndexFromConcat(r, t, 1, ']');
        assert (r + t)[1..close] == r[1..close];
      }
    }
  }

  lemma QQuoteConcat(r: string, t: string, k: nat)
    requires QQuoteEnd(r, k).Some?
    ensures QQuoteEnd(r + t, k) == QQuoteEnd(r, k)
  {
    hide SqlScan.CodePoint, SqlScan.ClosingDelimiter, SqlScan.Find;
    FindConcat(r, t, k + 1, CodePoint(ClosingDelimiter(r[k])) + "'");
  }

  lemma ScanWordConcat(d: Dialect, r: string, t: string)
    requires r != "" && !ScanWord(d, r).Bad? && (t == "" || Separates(t[0]))
    ensures ScanWord(d, r + t) == ScanWord(d, r)
  {
    hide SqlScan.EqualFold, SqlScan.QuotedEnd, SqlScan.WordEnd, SqlScan.QQuoteEnd;
    WordEndConcat(r, t, 1);
    var j := WordEnd(r, 1);
    assert (r + t)[..j] == r[..j];
    if j < |r| && r[j] == '\'' {
      if d.escapeStrings && EqualFold(r[..j], "E") {
        QuotedEndConcat(r, t, j + 1, '\'', true);
      } else if d.qQuotes && (EqualFold(r[..j], "Q") || EqualFold(r[..j], "NQ")) {
        QQuoteConcat(r, t, j + 1);
      }
    }
  }

  /** A short prefix test looks no further than `r` when `t` starts with a separator. */
  lemma PrefixConcat(r: string, t: string, a: char, b: char)
    requires r != "" && (t == "" || Separates(t[0])) && !Separates(b)
    ensures HasPrefix(r + t, [a, b]) == HasPrefix(r, [a, b])
  {
    if |r| >= 2 {
      assert (r + t)[..2] == r[..2];
    } else if t != "" {
      assert (r + t)[1] == t[0];
    }
  }

  lemma LineCommentAtConcat(d: Dialect, r: string, t: string)
    requires r != "" && (t == "" || Separates(t[0]))
    requires LineCommentAt(d, r) && LineEnd(r, 0) == |r| ==> t == "" || t[0] == '\n'
    ensures LineCommentAt(d, r + t) == LineCommentAt(d, r)
  {
    PrefixConcat(r, t, '-', '-');
    PrefixConcat(r, t, '/', '/');
    assert "--" == ['-', '-'] && "//" == ['/', '/'];
    if HasPrefix(r, "--") && |r| == 2 {
      assert r == "--";
      assert LineEnd(r, 0) == LineEnd(r, 1) == LineEnd(r, 2) == 2;
    }
  }

  lemma BlockCommentConcat(d: Dialect, r: string, t: string)
    requires HasPrefix(r, "/*") && BlockEnd(d.nestedComments, r, 2, 1).Some?
    ensures BlockEnd(d.nestedComments, r + t, 2, 1) == BlockEnd(d.nestedComments, r, 2, 1)
    ensures ExecutableAt(d, r + t) == ExecutableAt(d, r)
  {
    BlockEndConcat(d.nestedComments, r, t, 2, 1);
    assert |r| >= 4;
    assert (r + t)[..3] == r[..3] && (r + t)[..4] == r[..4];
    assert HasPrefix(r + t, "/*!") == HasPrefix(r, "/*!");
    assert HasPrefix(r + t, "/*M!") == HasPrefix(r, "/*M!");
  }

  /** A token that is read completely is read the same with a separator behind it. */
  lemma ScanConcat(d: Dialect, r: string, t: string)
    requires r != "" && !Scan(d, r).Bad? && (t == "" || Separates(t[0]))
    requires Scan(d, r).OpenBracket? ==> ']' in r
    requires Scan(d, r).LineComment? && Scan(d, r).Len() == |r| ==> t == "" || t[0] == '\n'
    ensures Scan(d, r + t) == Scan(d, r)
  {
    hide SqlScan.ScanWord, SqlScan.ScanDollar, SqlScan.LineCommentAt, SqlScan.ExecutableAt;
    hide SqlScan.QuotedEnd, SqlScan.BlockEnd, SqlScan.LineEnd;
    var c := r[0];
    assert (r + t)[0] == c;
    if !IsSpace(c) {
      LineCommentAtConcat(d, r, t);
      PrefixConcat(r, t, '/', '*');
      assert "/*" == ['/', '*'];
      if LineCommentAt(d, r) {
        LineEndConcat(r, t, 0);
      } else if HasPrefix(r, "/*") {
        BlockCommentConcat(d, r, t);
      } else if c == '\'' || c == '"' || (c == '`' && d.backticks) {
        QuotedEndConcat(r, t, 1, c, c in d.backslashQuotes);
      } else if c == '[' || c == ']' {
        assert ']' in r && c == '[' ==> ']' in r[1..];
        ScanBracketConcat(d, r, t);
      } else if c == '$' && d.dollarQuotes {
        ScanDollarConcat(r, t);
      } else if IsIdentStart(c) {
        ScanWordConcat(d, r, t);
      }
    }
  }

  // ----- all tokens -----

  /** What may follow `r` may follow the text behind its first token. */
  lemma MayFollowTail(d: Dialect, r: string, t: string)
    requires r != "" && !Scan(d, r).Bad? && MayFollow(d, r, t)
    ensures MayFollow(d, r[Scan(d, r).Len()..], t)
    ensures Scan(d, r).LineComment? && Scan(d, r).Len() == |r| ==> t == "" || t[0] == '\n'
  {
    var tok := Scan(d, r);
    var rest := r[tok.Len()..];
    assert Tokens(d, r) == [tok] + Tokens(d, rest);
    if Tokens(d, rest) != [] {
      assert Tokens(d, r)[|Tokens(d, r)| - 1] == Tokens(d, rest)[|Tokens(d, rest)| - 1];
    } else if tok.Len() == |r| {
      assert rest == "";
    }
  }

  /** One token off the front of `r`, the same one with and without `t` behind. */
  lemma FrontToken(d: Dialect, r: string, t: string) returns (tok: Token, rest: string)
    requires r != "" && Lexes(d, r) && BracketsSettled(d, r) && MayFollow(d, r, t)
    ensures |rest| < |r| && Lexes(d, rest) && BracketsSettled(d, rest) && MayFollow(d, rest, t)
    ensures Tokens(d, r) == [tok] + Tokens(d, rest)
    ensures Tokens(d, r + t) == [tok] + Tokens(d, rest + t)
  {
    hide SqlScan.Scan;
    tok := Scan(d, r);
    rest := r[tok.Len()..];
    assert tok == Tokens(d, r)[0];
    assert Tokens(d, r) == [tok] + Tokens(d, rest);
    forall k | 0 <= k < |Tokens(d, rest)|
      ensures !Tokens(d, rest)[k].Bad?
    {
      assert Tokens(d, rest)[k] == Tokens(d, r)[k + 1];
    }
    MayFollowTail(d, r, t);
    ScanConcat(d, r, t);
    assert (r + t)[tok.Len()..] == rest + t;
  }

  /** Concatenation: `r` keeps its tokens and `t` is read as if it stood alone. */
  lemma {:induction false} TokensConcat(d: Dialect, r: string, t: string)
    requires Lexes(d, r) && BracketsSettled(d, r) && MayFollow(d, r, t)
    ensures Tokens(d, r + t) == Tokens(d, r) + Tokens(d, t)
    decreases |r|
  {
    hide SqlScan.Scan;
    if r == "" {
      assert r + t == t;
    } else {
      var tok, rest := FrontToken(d, r, t);
      TokensConcat(d, rest, t);
    }
  }
}
