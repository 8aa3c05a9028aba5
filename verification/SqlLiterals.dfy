/** What literals and comments delimit: every written body reads back as one token of its length. */
module SqlLiterals {
  import opened Prelude
  import opened SqlScan

  // ----- quoted texts -----

  /** The body with quotes doubled and, where they escape, backslashes doubled. */
  function Escaped(body: string, quote: char, backslash: bool): string {
    if body == "" then ""
    else
      var c := body[0];
      (if c == quote || (backslash && c == '\\') then [c, c] else [c]) + Escaped(body[1..], quote, backslash)
  }

  lemma PrefixDrop(a: string, b: string, r: string, k: nat)
    requires k <= |r| && a + b <= r[k..]
    ensures k + |a| <= |r| && b <= r[k + |a|..] && forall i | 0 <= i < |a| :: r[k + i] == a[i]
  {
    forall i | 0 <= i < |a|
      ensures r[k + i] == a[i]
    {
      assert (a + b)[i] == r[k..][i];
    }
    forall i | 0 <= i < |b|
      ensures r[k + |a|..][i] == b[i]
    {
      assert (a + b)[|a| + i] == r[k..][|a| + i];
    }
  }

  lemma {:induction false} EscapedEnds(r: string, k: nat, body: string, quote: char, backslash: bool)
    requires quote != '\\' && k <= |r| && Escaped(body, quote, backslash) + [quote] <= r[k..]
    requires var end := k + |Escaped(body, quote, backslash)| + 1; end < |r| ==> r[end] != quote
    ensures QuotedEnd(r, k, quote, backslash) == Some(k + |Escaped(body, quote, backslash)| + 1)
    decreases |body|
  {
    if body == "" {
      PrefixDrop([quote], "", r, k);
    } else {
      var c, rest := body[0], Escaped(body[1..], quote, backslash);
      var head := if c == quote || (backslash && c == '\\') then [c, c] else [c];
      assert Escaped(body, quote, backslash) + [quote] == head + (rest + [quote]);
      hide Escaped;
      PrefixDrop(head, rest + [quote], r, k);
      Passes(r, k, quote, backslash, |head|);
      EscapedEnds(r, k + |head|, body[1..], quote, backslash);
    }
  }

  /** One escaped character is passed over. */
  lemma Passes(r: string, k: nat, quote: char, backslash: bool, n: nat)
    requires k + n <= |r| && quote != '\\' && (n == 1 || (n == 2 && r[k + 1] == r[k]))
    requires n == if r[k] == quote || (backslash && r[k] == '\\') then 2 else 1
    ensures QuotedEnd(r, k, quote, backslash) == QuotedEnd(r, k + n, quote, backslash)
  {
  }

  /** Every body, quoted and escaped, is one literal of exactly that length, whatever follows but another quote. */
  lemma QuotedIsOneLiteral(d: Dialect, body: string, quote: char, after: string)
    requires quote == '\'' || quote == '"' || (quote == '`' && d.backticks)
    requires after == "" || after[0] != quote
    ensures var text := [quote] + Escaped(body, quote, quote in d.backslashQuotes) + [quote];
            Scan(d, text + after) == Literal(|text|)
  {
    hide QuotedEnd, Escaped;
    var e := Escaped(body, quote, quote in d.backslashQuotes);
    var r := [quote] + e + [quote] + after;
    assert r[1..] == e + [quote] + after && r[0] == quote;
    assert after != "" ==> r[|e| + 2] == after[0];
    EscapedEnds(r, 1, body, quote, quote in d.backslashQuotes);
    assert !HasPrefix(r, "/*") && !LineCommentAt(d, r);
  }

  /** Without the closing quote it never ends. */
  lemma {:induction false} OpenNeverEnds(before: string, body: string, quote: char, backslash: bool)
    requires quote != '\\'
    ensures QuotedEnd(before + Escaped(body, quote, backslash), |before|, quote, backslash) == None
    decreases |body|
  {
    if body != "" {
      var c := body[0];
      var head := if c == quote || (backslash && c == '\\') then [c, c] else [c];
      OpenNeverEnds(before + head, body[1..], quote, backslash);
      var r := before + Escaped(body, quote, backslash);
      assert r == before + head + Escaped(body[1..], quote, backslash);
      assert r[|before|] == c && (|head| == 2 ==> r[|before| + 1] == c);
    }
  }

  /** SQL Server's bracketed names, in which "]]" stands for "]". */
  lemma BracketNameIsOneLiteral(d: Dialect, body: string, after: string)
    requires d.bracketIdents && (after == "" || after[0] != ']')
    ensures var text := "[" + Escaped(body, ']', false) + "]";
            Scan(d, text + after) == Literal(|text|)
  {
    hide QuotedEnd, Escaped;
    var e := Escaped(body, ']', false);
    var r := "[" + e + "]" + after;
    assert r[1..] == e + [']'] + after && r[0] == '[';
    assert after != "" ==> r[|e| + 2] == after[0];
    EscapedEnds(r, 1, body, ']', false);
    assert !HasPrefix(r, "/*") && !LineCommentAt(d, r);
  }

  // ----- comments -----

  /** The two characters do not stand side by side. */
  predicate Lacks(s: string, a: char, b: char) { forall i | 0 <= i < |s| - 1 :: !(s[i] == a && s[i + 1] == b) }

  /** A stretch without comment marks is passed over at the same depth. */
  lemma {:induction false} PassesOver(nested: bool, r: string, k: nat, n: nat, depth: nat)
    requires depth >= 1 && k <= n && n + 1 < |r|
    requires forall i | k <= i < n :: !(r[i] == '*' && r[i + 1] == '/') && !(nested && r[i] == '/' && r[i + 1] == '*')
    ensures BlockEnd(nested, r, k, depth) == BlockEnd(nested, r, n, depth)
    decreases n - k
  {
    if k < n {
      PassesOver(nested, r, k + 1, n, depth);
    }
  }

  /** A comment body that holds no closing mark and, where comments nest, no opening one. */
  predicate PlainBody(nested: bool, body: string) { Lacks(body, '*', '/') && (nested ==> Lacks(body + "*", '/', '*')) }

  lemma PlainBodyCloses(nested: bool, before: string, body: string, after: string, depth: nat)
    requires depth >= 1 && PlainBody(nested, body)
    ensures var r := before + body + "*/" + after;
            var end := |before| + |body| + 2;
            BlockEnd(nested, r, |before|, depth) == if depth == 1 then Some(end)
                else BlockEnd(nested, r, end, depth - 1)
  {
    var r := before + body + "*/" + after;
    var n := |before| + |body|;
    assert r[n] == '*' && r[n + 1] == '/';
    forall i | |before| <= i < n
      ensures !(r[i] == '*' && r[i + 1] == '/') && !(nested && r[i] == '/' && r[i + 1] == '*')
    {
      var j := i - |before|;
      assert r[i] == body[j] && r[i + 1] == (body + "*")[j + 1] && (body + "*")[j] == body[j];
      assert j + 1 < |body| ==> r[i + 1] == body[j + 1];
    }
    PassesOver(nested, r, |before|, n, depth);
  }

  /** Such a body between the marks is one comment of exactly that length. */
  lemma BlockIsOneComment(d: Dialect, body: string, after: string)
    requires PlainBody(d.nestedComments, body)
    ensures var text := "/*" + body + "*/";
            Scan(d, text + after) == BlockComment(|text|, ExecutableAt(d, text + after))
  {
    hide BlockEnd, PlainBody;
    PlainBodyCloses(d.nestedComments, "/*", body, after, 1);
    var r := "/*" + body + "*/" + after;
    assert r[0] == '/' && r[1] == '*' && r[..2] == "/*";
    assert !LineCommentAt(d, r);
  }

  /** A comment in a comment: one comment where they nest, and cut short at the first closing mark where they do not. */
  lemma NestedComment(d: Dialect, a: string, b: string, c: string, after: string)
    requires PlainBody(true, a) && PlainBody(true, b) && PlainBody(true, c)
    requires Lacks(a + "/", '*', '/') && (b == "" || b[0] != '/')
    ensures var text := "/*" + a + "/*" + b + "*/" + c + "*/";
            var t := Scan(d, text + after);
            t.BlockComment? && t.len == if d.nestedComments then |text| else |a| + |b| + 6
  {
    hide BlockEnd;
    var tail := c + "*/" + after;
    var r := "/*" + a + "/*" + b + "*/" + tail;
    assert r[0] == '/' && r[1] == '*' && r[..2] == "/*";
    assert !LineCommentAt(d, r);
    var n := 2 + |a|;
    assert r[n] == '/' && r[n + 1] == '*';
    var text := "/*" + a + "/*" + b + "*/" + c + "*/";
    assert text + after == r;
    if d.nestedComments {
      forall i | 2 <= i < n
        ensures !(r[i] == '*' && r[i + 1] == '/') && !(r[i] == '/' && r[i + 1] == '*')
      {
        assert r[i] == (a + "/")[i - 2] && r[i + 1] == (a + "/")[i - 1];
        assert i + 1 < n ==> r[i] == (a + "*")[i - 2] && r[i + 1] == (a + "*")[i - 1];
      }
      PassesOver(true, r, 2, n, 1);
      Opens(r, n, 1);
      PlainBodyCloses(true, "/*" + a + "/*", b, tail, 2);
      PlainBodyCloses(true, "/*" + a + "/*" + b + "*/", c, after, 1);
      assert r == "/*" + a + "/*" + b + "*/" + c + "*/" + after;
    } else {
      Flat(a, b);
      PlainBodyCloses(false, "/*", a + "/*" + b, tail, 1);
      assert r == "/*" + (a + "/*" + b) + "*/" + tail;
    }
  }

  lemma Opens(r: string, k: nat, depth: nat)
    requires depth >= 1 && k + 1 < |r| && r[k] == '/' && r[k + 1] == '*'
    ensures BlockEnd(true, r, k, depth) == BlockEnd(true, r, k + 2, depth + 1)
  {
  }

  lemma Flat(a: string, b: string)
    requires Lacks(a + "/", '*', '/') && Lacks(b, '*', '/') && Lacks(b + "*", '/', '*')
    requires b == "" || b[0] != '/'
    ensures PlainBody(false, a + "/*" + b)
  {
    var s := a + "/*" + b;
    forall i | 0 <= i < |s| - 1
      ensures !(s[i] == '*' && s[i + 1] == '/')
    {
      if i < |a| {
        assert s[i] == (a + "/")[i] && s[i + 1] == (a + "/")[i + 1];
      } else if i > |a| + 1 {
        assert s[i] == b[i - |a| - 2] && s[i + 1] == b[i - |a| - 1];
      }
    }
  }

  predicate OneLine(s: string) { forall i | 0 <= i < |s| :: s[i] != '\r' && s[i] != '\n' }

  lemma {:induction false} LineEndIs(r: string, k: nat, n: nat)
    requires k <= n <= |r| && (forall i | k <= i < n :: r[i] != '\r' && r[i] != '\n')
    requires n < |r| ==> r[n] == '\r' || r[n] == '\n'
    ensures LineEnd(r, k) == n
    decreases n - k
  {
    if k < n {
      LineEndIs(r, k + 1, n);
    }
  }

  /**
   A line comment reaches exactly to the end of the line: "-- " everywhere, "#" and "//"
   where the dialect has them.
   */
  lemma LineIsOneComment(d: Dialect, mark: string, body: string, after: string)
    requires mark == "-- " || (mark == "#" && d.hashComments) || (mark == "//" && d.slashComments)
    requires OneLine(body) && (after == "" || after[0] == '\r' || after[0] == '\n')
    ensures Scan(d, mark + body + after) == LineComment(|mark + body|)
  {
    var text := mark + body;
    var r := text + after;
    assert r[0] == mark[0] && (|mark| > 1 ==> r[1] == mark[1]) && (|mark| > 2 ==> r[2] == mark[2]);
    assert LineCommentAt(d, r);
    assert OneLine(text);
    assert forall i | 0 <= i < |text| :: r[i] == text[i];
    assert after != "" ==> r[|text|] == after[0];
    LineEndIs(r, 0, |text|);
  }

  // ----- dollar quotes -----

  predicate IsTag(tag: string) {
    forall i | 0 <= i < |tag| :: IsIdentStart(tag[i]) || IsHigh(tag[i]) || (i > 0 && IsDigit(tag[i]))
  }

  lemma {:induction false} TagEndIs(r: string, k: nat, n: nat)
    requires 1 <= k <= n < |r| && r[n] == '$'
    requires forall i | k <= i < n :: IsIdentStart(r[i]) || IsHigh(r[i]) || (i > 1 && IsDigit(r[i]))
    ensures TagEnd(r, k) == n
    decreases n - k
  {
    if k < n {
      TagEndIs(r, k + 1, n);
    }
  }

  predicate OccursAt(r: string, pat: string, i: nat) { i + |pat| <= |r| && r[i..i + |pat|] == pat }

  lemma {:induction false} FindIs(r: string, k: nat, n: nat, pat: string)
    requires k <= n && OccursAt(r, pat, n) && forall i | k <= i < n :: !OccursAt(r, pat, i)
    ensures Find(r, k, pat) == Some(n)
    decreases n - k
  {
    if k < n {
      assert !OccursAt(r, pat, k);
      FindIs(r, k + 1, n, pat);
    }
  }

  /** A dollar-quoted body in which the delimiter does not occur is one literal of exactly that length. */
  lemma DollarIsOneLiteral(d: Dialect, tag: string, body: string, after: string)
    requires d.dollarQuotes && IsTag(tag)
    requires var delim := "$" + tag + "$";
             forall i | |delim| <= i < |delim| + |body| :: !OccursAt(delim + body + delim + after, delim, i)
    ensures var delim := "$" + tag + "$";
            Scan(d, delim + body + delim + after) == Literal(|delim| + |body| + |delim|)
  {
    hide Find, TagEnd;
    var delim := "$" + tag + "$";
    var r := delim + body + delim + after;
    var j := |tag| + 1;
    assert r[0] == '$' && r[j] == '$' && r[..j + 1] == delim;
    assert forall i | 1 <= i < j :: r[i] == tag[i - 1];
    TagEndIs(r, 1, j);
    assert OccursAt(r, delim, |delim| + |body|);
    FindIs(r, |delim|, |delim| + |body|, delim);
    assert !HasPrefix(r, "/*") && !LineCommentAt(d, r);
  }

  // ----- the nine dialects -----

  /** Which dialects have which construct, by their place in the list. */
  lemma DialectTable(i: nat)
    requires i < |DIALECTS|
    ensures var d := DIALECTS[i];
            && |DIALECTS| == 9
            && (d.nestedComments <==> i == 1 || i == 6)
            && (d.dollarQuotes <==> i == 1 || i == 8)
            && (d.escapeStrings <==> i == 1)
            && (d.backticks <==> 2 <= i <= 5)
            && (d.hashComments <==> 2 <= i <= 5)
            && (d.dashNeedsSpace <==> 2 <= i <= 4)
            && (d.executableComments <==> 2 <= i <= 4)
            && (d.bracketIdents <==> i == 6)
            && (d.qQuotes <==> i == 7)
            && (d.slashComments <==> i == 8)
            && ('\'' in d.backslashQuotes <==> i == 2 || i == 3 || i == 5)
            && ('"' in d.backslashQuotes <==> i == 2 || i == 5)
            && ('`' in d.backslashQuotes <==> i == 5)
  {
  }

  // ----- prefixed literals, subscripts and words -----

  /** PostgreSQL's E'...', in which a backslash escapes too. */
  lemma EscapeStringIsOneLiteral(d: Dialect, e: char, body: string, after: string)
    requires d.escapeStrings && (e == 'E' || e == 'e') && (after == "" || after[0] != '\'')
    ensures var text := [e] + "'" + Escaped(body, '\'', true) + "'";
            Scan(d, text + after) == Literal(|text|)
  {
    hide QuotedEnd, Escaped;
    var x := Escaped(body, '\'', true);
    var r := [e] + "'" + x + "'" + after;
    assert r[0] == e && r[1] == '\'' && r[..1] == [e];
    assert r[2..] == x + ['\''] + after;
    assert after != "" ==> r[|x| + 3] == after[0];
    EscapedEnds(r, 2, body, '\'', true);
    assert WordEnd(r, 1) == 1;
    assert !HasPrefix(r, "/*") && !LineCommentAt(d, r);
    OneLetter(e, 'E');
  }

  lemma OneLetter(c: char, upper: char)
    requires 'A' <= upper <= 'Z' && (c == upper || c as int == upper as int + 32)
    ensures EqualFold([c], [upper])
  {
    assert ToUpper([c]) == [upper] + ToUpper([c][1..]);
    assert ToUpper([upper]) == [upper] + ToUpper([upper][1..]);
    assert [c][1..] == [upper][1..];
  }

  /** Oracle's q'x...x': everything up to the closing delimiter and a quote, quotes and comment marks included. */
  lemma QQuoteIsOneLiteral(d: Dialect, q: char, open: char, close: char, body: string, after: string)
    requires d.qQuotes && (q == 'q' || q == 'Q') && !IsHigh(open)
    requires close == (if open == '[' then ']' else if open == '{' then '}' else if open == '(' then ')'
                       else if open == '<' then '>' else open)
    requires forall i | 3 <= i < 3 + |body| ::
        !OccursAt([q, '\'', open] + body + [close, '\''] + after, [close, '\''], i)
    ensures Scan(d, [q, '\'', open] + body + [close, '\''] + after) == Literal(|body| + 5)
  {
    hide Find;
    var head, tail := [q, '\'', open], [close, '\''];
    var r := head + body + tail + after;
    assert r[0] == q && r[1] == '\'' && r[2] == open && r[..1] == [q];
    assert r[|body| + 3..|body| + 5] == tail;
    FindIs(r, 3, |body| + 3, tail);
    assert CodePoint(close) + "'" == tail;
    assert WordEnd(r, 1) == 1;
    assert !HasPrefix(r, "/*") && !LineCommentAt(d, r);
    OneLetter(q, 'Q');
    NotE(q);
  }

  lemma NotE(q: char)
    requires q == 'q' || q == 'Q'
    ensures !EqualFold([q], "E")
  {
    assert ToUpper([q])[0] == 'Q' && ToUpper("E")[0] == 'E';
  }

  /** Elsewhere a bracket around a plain name is one token, and around anything else just a bracket. */
  lemma SubscriptIsOneLiteral(d: Dialect, body: string, after: string)
    requires !d.bracketIdents && ']' !in body
    ensures Scan(d, "[" + body + "]" + after) ==
            if forall i | 0 <= i < |body| :: IsPlainNameChar(body[i]) then Literal(|body| + 2) else OpenBracket
  {
    var r := "[" + body + "]" + after;
    assert r[0] == '[' && r[|body| + 1] == ']';
    assert forall i | 1 <= i <= |body| :: r[i] == body[i - 1];
    IndexIs(r, 1, |body| + 1, ']');
    assert r[1..|body| + 1] == body;
    assert !HasPrefix(r, "/*") && !LineCommentAt(d, r);
  }

  lemma {:induction false} IndexIs(r: string, k: nat, n: nat, c: char)
    requires k <= n < |r| && r[n] == c && forall i | k <= i < n :: r[i] != c
    ensures IndexFrom(r, k, c) == n
    decreases n - k
  {
    if k < n {
      IndexIs(r, k + 1, n, c);
    }
  }

  /** A word ends where its letters, digits, '_' and '$' end, and no literal starts with it unless a quote follows. */
  lemma WordIsOneToken(d: Dialect, w: string, after: string)
    requires w != "" && IsIdentStart(w[0]) && forall i | 0 <= i < |w| :: IsIdentPart(w[i])
    requires after == "" || (!IsIdentPart(after[0]) && after[0] != '\'')
    ensures Scan(d, w + after) == Word(w)
  {
    var r := w + after;
    assert r[0] == w[0];
    WordEndIs(r, 1, |w|);
    assert r[..|w|] == w && (after != "" ==> r[|w|] == after[0]);
    assert !HasPrefix(r, "/*") && !LineCommentAt(d, r);
  }

  lemma {:induction false} WordEndIs(r: string, k: nat, n: nat)
    requires k <= n <= |r| && (forall i | k <= i < n :: IsIdentPart(r[i])) && (n < |r| ==> !IsIdentPart(r[n]))
    ensures WordEnd(r, k) == n
    decreases n - k
  {
    if k < n {
      WordEndIs(r, k + 1, n);
    }
  }

  /** MySQL reads "--" as a comment only before white space or the end; the other dialects always do. */
  lemma DashIff(d: Dialect, after: string)
    ensures Scan(d, "--" + after).LineComment? <==> !d.dashNeedsSpace || after == "" || after[0] <= ' '
    ensures !Scan(d, "--" + after).LineComment? ==> Scan(d, "--" + after) == Symbol
  {
    var r := "--" + after;
    assert r[0] == '-' && r[1] == '-' && r[..2] == "--";
    assert after != "" ==> r[2] == after[0];
  }

  /** Comments that MySQL runs as SQL are flagged, in the MySQL dialects only. */
  lemma ExecutableIff(d: Dialect, body: string, after: string)
    requires PlainBody(d.nestedComments, body)
    ensures var t := Scan(d, "/*" + body + "*/" + after);
            t.BlockComment? && (t.executable <==> d.executableComments && ("!" <= body || "M!" <= body))
  {
    hide BlockEnd;
    BlockIsOneComment(d, body, after);
    var r := "/*" + body + "*/" + after;
    assert forall i | 0 <= i < |body| :: r[i + 2] == body[i];
    assert r[|body| + 2] == '*' && r[|body| + 3] == '/';
    assert HasPrefix(r, "/*!") <==> r[2] == '!' by {
      assert r[..2] == "/*";
      assert r[2] == '!' ==> r[..3] == "/*!";
    }
    assert HasPrefix(r, "/*M!") <==> r[2] == 'M' && r[3] == '!' by {
      assert r[..2] == "/*";
      assert r[2] == 'M' && r[3] == '!' ==> r[..4] == "/*M!";
    }
    assert "!" <= body <==> body != "" && body[0] == '!';
    assert "M!" <= body <==> |body| >= 2 && body[0] == 'M' && body[1] == '!';
  }
}
