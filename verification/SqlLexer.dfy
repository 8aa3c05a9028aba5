/**
 The scanner itself: an object that moves an offset through the text, keeps a
 cached look-ahead for ']', and collects what it sees. Every step is proved to
 read exactly the token `Scan` finds and to fold it into the result.
 */
module SqlLexer {
  import opened Prelude
  import opened SqlScan
  import opened SqlResult

  lemma {:induction false} IndexFromLater(s: string, k: nat, k': nat, c: char)
    requires k <= |s| && k <= k' <= IndexFrom(s, k, c)
    ensures IndexFrom(s, k', c) == IndexFrom(s, k, c)
    decreases k' - k
  {
    if k < k' {
      IndexFromLater(s, k + 1, k', c);
    }
  }

  lemma SliceShift(s: string, i: nat, end: nat)
    requires i < end <= |s|
    ensures s[i..][1..end - i] == s[i + 1..end]
  {
  }

  lemma {:induction false} IndexFromShift(s: string, i: nat, k: nat, c: char)
    requires i <= |s| && k <= |s[i..]|
    ensures IndexFrom(s, i + k, c) == i + IndexFrom(s[i..], k, c)
    decreases |s| - i - k
  {
    if k < |s[i..]| && s[i..][k] != c {
      IndexFromShift(s, i, k + 1, c);
    }
  }

  class Lexer {
    const s: string
    const d: Dialect
    var i: nat
    var parens: int
    var brackets: int
    var nextBracket: int
    var res: LexResult

    constructor (s: string, d: Dialect)
      ensures this.s == s && this.d == d
      ensures Valid() && i == 0 && View() == START
    {
      this.s, this.d := s, d;
      i, parens, brackets, nextBracket := 0, 0, 0, -1;
      res := START.res;
    }

    /** The cache: an offset ahead of `i` is that of the first ']' behind `i`. */
    ghost predicate Valid()
      reads this
    {
      && i <= |s|
      && -1 <= nextBracket <= |s|
      && (i < nextBracket ==> nextBracket == IndexFrom(s, i + 1, ']'))
    }

    ghost function View(): State
      reads this
    {
      State(parens, brackets, res)
    }

    ghost function Rest(): string
      requires i <= |s|
      reads this
    {
      s[i..]
    }

    /** The cached offset always equals a fresh scan for the first ']' after `i`. */
    method ClosingBracket() returns (end: nat)
      requires Valid() && i < |s|
      modifies this`nextBracket
      ensures Valid()
      ensures end == IndexFrom(s, i + 1, ']')
    {
      if nextBracket <= i && nextBracket < |s| {
        nextBracket := IndexFrom(s, i + 1, ']');
      }
      end := nextBracket;
    }

    /** Moving ahead keeps the cache usable. */
    method Advance(j: nat)
      requires Valid() && i <= j <= |s|
      modifies this`i
      ensures Valid() && i == j
    {
      if j < nextBracket {
        IndexFromLater(s, i + 1, j + 1, ']');
      }
      i := j;
    }

    method SkipLineComment()
      requires Valid() && i < |s| && LineCommentAt(d, Rest())
      modifies this`i, this`res
      ensures Valid() && i == old(i) + LineEnd(old(Rest()), 0)
      ensures View() == Feed(old(View()), LineComment(LineEnd(old(Rest()), 0)), old(i), |s|)
    {
      res := res.(comments := true);
      var end := LineEnd(s[i..], 0);
      if end == |s[i..]| {
        res := res.(lineComment := true);
        Advance(|s|);
      } else {
        Advance(i + end);
      }
    }

    /** The offset after the block comment at `i`. */
    method BlockCommentStop() returns (stop: Option<nat>)
      requires Valid() && i < |s| && HasPrefix(Rest(), "/*")
      ensures var o := BlockEnd(d.nestedComments, Rest(), 2, 1);
              stop == if o.Some? then Some(i + o.value) else None
    {
      ghost var r := s[i..];
      var depth := 0;
      var j := i;
      while j + 1 < |s|
        invariant i <= j <= |s|
        invariant (j == i && depth == 0) || (j >= i + 2 && depth >= 1)
        invariant depth >= 1 ==> BlockEnd(d.nestedComments, r, j - i, depth) == BlockEnd(d.nestedComments, r, 2, 1)
        decreases |s| - j
      {
        assert s[j] == r[j - i] && s[j + 1] == r[j - i + 1];
        if s[j] == '/' && s[j + 1] == '*' && (depth == 0 || d.nestedComments) {
          depth := depth + 1;
          j := j + 2;
        } else if s[j] == '*' && s[j + 1] == '/' {
          j := j + 2;
          depth := depth - 1;
          if depth == 0 {
            return Some(j);
          }
        } else {
          j := j + 1;
        }
      }
      return None;
    }

    method SkipBlockComment() returns (err: Option<LexError>)
      requires Valid() && i < |s| && HasPrefix(Rest(), "/*")
      modifies this`i, this`res
      ensures Valid()
      ensures var o := BlockEnd(d.nestedComments, old(Rest()), 2, 1);
              && res == old(res).(comments := true, forbidden := old(res).forbidden || ExecutableAt(d, old(Rest())))
              && (o.Some? ==> err.None? && i == old(i) + o.value)
              && (o.None? ==> err == Some(UnterminatedComment) && i == |s|)
    {
      hide BlockEnd, IndexFrom;
      res := res.(comments := true);
      if d.executableComments && (HasPrefix(s[i..], "/*!") || HasPrefix(s[i..], "/*M!")) {
        res := res.(forbidden := true);
      }
      var stop := BlockCommentStop();
      if stop.Some? {
        Advance(stop.value);
        return None;
      }
      Advance(|s|);
      return Some(UnterminatedComment);
    }

    /** Moves past a quoted text whose body starts at `start`. */
    method SkipQuoted(start: nat, quote: char, backslash: bool, unterminated: LexError) returns (err: Option<LexError>)
      requires Valid() && i < start <= |s|
      modifies this`i
      ensures Valid()
      ensures var o := QuotedEnd(old(Rest()), start - old(i), quote, backslash);
              && (o.Some? ==> err.None? && i == old(i) + o.value)
              && (o.None? ==> err == Some(unterminated) && i == |s|)
    {
      ghost var r := s[i..];
      var j := start;
      while j < |s|
        invariant i == old(i) < j <= |s| + 1
        invariant QuotedEnd(r, j - i, quote, backslash) == QuotedEnd(r, start - i, quote, backslash)
        decreases |s| + 1 - j
      {
        assert s[j] == r[j - i];
        if backslash && s[j] == '\\' {
          j := j + 2;
        } else if s[j] != quote {
          j := j + 1;
        } else if j + 1 < |s| && s[j + 1] == quote {
          j := j + 2;
        } else {
          Advance(j + 1);
          return None;
        }
      }
      Advance(|s|);
      return Some(unterminated);
    }

    /** SQL Server's [name], in which ']]' stands for ']'. */
    method SkipBracketName() returns (err: Option<LexError>)
      requires Valid() && i < |s|
      modifies this`i
      ensures Valid()
      ensures var o := QuotedEnd(old(Rest()), 1, ']', false);
              && (o.Some? ==> err.None? && i == old(i) + o.value)
              && (o.None? ==> err == Some(UnterminatedBracket) && i == |s|)
    {
      ghost var r := s[i..];
      var j := i + 1;
      while j < |s|
        invariant i == old(i) < j <= |s|
        invariant QuotedEnd(r, j - i, ']', false) == QuotedEnd(r, 1, ']', false)
      {
        assert s[j] == r[j - i];
        if s[j] != ']' {
          j := j + 1;
        } else if j + 1 < |s| && s[j + 1] == ']' {
          j := j + 2;
        } else {
          Advance(j + 1);
          return None;
        }
      }
      Advance(|s|);
      return Some(UnterminatedBracket);
    }

    /** '[' where it is no identifier quote: a literal subscript such as [name], or an opening bracket. */
    method Subscript()
      requires Valid() && i < |s| && s[i] == '[' && !d.bracketIdents
      modifies this`i, this`brackets, this`nextBracket
      ensures Valid()
      ensures var t := ScanBracket(d, old(Rest()));
              !t.Bad? && i == old(i) + t.Len() && brackets == old(brackets) + BracketWeight(t) && !t.CloseBracket?
    {
      hide QuotedEnd, IsPlainName;
      IndexFromShift(s, i, 1, ']');
      var end := ClosingBracket();
      SliceShift(s, i, end);
      if end < |s| && IsPlainName(s[i + 1..end]) {
        Advance(end + 1);
      } else {
        brackets := brackets + 1;
        Advance(i + 1);
      }
    }

    method Bracket(c: char) returns (err: Option<LexError>)
      requires Valid() && i < |s| && s[i] == c && (c == '[' || c == ']')
      modifies this`i, this`brackets, this`res, this`nextBracket
      ensures Valid()
      ensures Reads(ScanBracket(d, old(Rest())), err, old(i))
      ensures var t := ScanBracket(d, old(Rest()));
              && brackets == old(brackets) + BracketWeight(t)
              && res == old(res).(unbalanced := old(res).unbalanced || (t.CloseBracket? && brackets < 0))
    {
      hide QuotedEnd, IsPlainName, IndexFrom;
      if c == '[' && d.bracketIdents {
        err := SkipBracketName();
        return;
      }
      if c == '[' {
        Subscript();
        return None;
      }
      brackets := brackets - 1;
      res := res.(unbalanced := res.unbalanced || brackets < 0);
      Advance(i + 1);
      return None;
    }

    /** How a token moves the offset, and the error an unterminated one gives. */
    ghost predicate Reads(t: Token, err: Option<LexError>, from: nat)
      reads this
    {
      if t.Bad? then err == Some(t.error) && i == |s| else err.None? && i == from + t.Len()
    }

    /** The end of the tag that starts after the '$' at `i`. */
    method TagStop() returns (j: nat)
      requires Valid() && i < |s|
      ensures j == i + TagEnd(Rest(), 1) && j <= |s|
    {
      ghost var r := s[i..];
      j := i + 1;
      while j < |s| && (IsIdentStart(s[j]) || IsHigh(s[j]) || (j > i + 1 && IsDigit(s[j])))
        invariant i < j <= |s|
        invariant TagEnd(r, j - i) == TagEnd(r, 1)
      {
        j := j + 1;
      }
    }

    method Dollar() returns (err: Option<LexError>)
      requires Valid() && i < |s|
      modifies this`i
      ensures Valid() && Reads(ScanDollar(old(Rest())), err, old(i))
    {
      hide TagEnd, Find, IndexFrom;
      var j := TagStop();
      if j >= |s| || s[j] != '$' {
        Advance(i + 1);
        return None;
      }
      var delim := s[i..j + 1];
      assert delim == s[i..][..j - i + 1];
      match Find(s[i..], j + 1 - i, delim) {
        case None =>
          Advance(|s|);
          return Some(UnterminatedDollar);
        case Some(p) =>
          Advance(i + p + |delim|);
          return None;
      }
    }

    method QQuote(start: nat) returns (err: Option<LexError>)
      requires Valid() && i < start <= |s|
      modifies this`i
      ensures Valid()
      ensures var o := QQuoteEnd(old(Rest()), start - old(i));
              && (o.Some? ==> err.None? && i == old(i) + o.value)
              && (o.None? ==> err == Some(UnterminatedString) && i == |s|)
    {
      hide CodePoint, ClosingDelimiter, Find;
      if start >= |s| {
        Advance(|s|);
        return Some(UnterminatedString);
      }
      match Find(s[i..], start + 1 - i, CodePoint(ClosingDelimiter(s[start])) + "'") {
        case None =>
          Advance(|s|);
          return Some(UnterminatedString);
        case Some(p) =>
          Advance(i + p + 2);
          return None;
      }
    }

    /** A word outside subscript brackets is remembered; inside them it is part of an expression. */
    method RecordWord(word: string)
      modifies this`res
      ensures res == SeeWord(brackets, old(res), word)
    {
      hide Destructive, ToUpper;
      if brackets == 0 {
        if res.firstWord == "" {
          res := res.(firstWord := word);
        }
        res := res.(lastWord := word);
        if res.keyword == "" && Destructive(word) {
          res := res.(keyword := ToUpper(word));
        }
      }
    }

    method WordStop() returns (j: nat)
      requires Valid() && i < |s|
      ensures i < j <= |s| && j == i + WordEnd(Rest(), 1)
    {
      ghost var r := s[i..];
      j := i + 1;
      while j < |s| && IsIdentPart(s[j])
        invariant i < j <= |s|
        invariant WordEnd(r, j - i) == WordEnd(r, 1)
      {
        j := j + 1;
      }
    }

    /** A bare word, or the prefix of E'...' and q'[...]' literals. */
    method ReadWord() returns (err: Option<LexError>)
      requires Valid() && i < |s|
      modifies this`i, this`res
      ensures Valid() && Reads(ScanWord(d, old(Rest())), err, old(i))
      ensures var t := ScanWord(d, old(Rest()));
              res == if t.Word? then SeeWord(brackets, old(res), t.text) else old(res)
    {
      hide EqualFold, SeeWord, QuotedEnd, QQuoteEnd, WordEnd;
      var j := WordStop();
      var word := s[i..j];
      assert word == s[i..][..j - i];
      if j < |s| && s[j] == '\'' {
        if d.escapeStrings && EqualFold(word, "E") {
          err := SkipQuoted(j + 1, '\'', true, UnterminatedString);
          return;
        } else if d.qQuotes && (EqualFold(word, "Q") || EqualFold(word, "NQ")) {
          err := QQuote(j + 1);
          return;
        }
      }
      RecordWord(word);
      Advance(j);
      return None;
    }

    method Punctuation(c: char)
      requires Valid() && i < |s| && s[i] == c && (c == ';' || c == '(' || c == ')')
      modifies this`i, this`parens, this`res
      ensures Valid() && i == old(i) + 1
      ensures var t := if c == ';' then Semicolon else if c == '(' then OpenParen else CloseParen;
              parens == old(parens) + ParenWeight(t) && res == See(old(View()), t, old(i))
    {
      hide IndexFrom;
      if c == ';' {
        if res.statementEnd < 0 {
          res := res.(statementEnd := i);
        }
      } else if c == '(' {
        parens := parens + 1;
      } else {
        parens := parens - 1;
        res := res.(unbalanced := res.unbalanced || parens < 0);
      }
      Advance(i + 1);
    }

    /** Reads one token that is neither blank nor comment. */
    method ReadVisible() returns (err: Option<LexError>)
      requires Valid() && i < |s|
      modifies this
      ensures Valid()
      ensures var t := ScanVisible(d, old(Rest()));
              && Reads(t, err, old(i))
              && parens == old(parens) + ParenWeight(t)
              && brackets == old(brackets) + BracketWeight(t)
              && res == See(old(View()), t, old(i))
    {
      hide ScanWord, ScanBracket, ScanDollar, QuotedEnd, SeeWord, IndexFrom;
      var c := s[i];
      err := None;
      if c == ';' || c == '(' || c == ')' {
        Punctuation(c);
      } else if c == '\'' {
        err := SkipQuoted(i + 1, c, c in d.backslashQuotes, UnterminatedString);
      } else if c == '"' || (c == '`' && d.backticks) {
        err := SkipQuoted(i + 1, c, c in d.backslashQuotes, UnterminatedIdentifier);
      } else if c == '[' || c == ']' {
        BracketKinds(d, s[i..]);
        err := Bracket(c);
      } else if c == '$' && d.dollarQuotes {
        DollarKinds(s[i..]);
        err := Dollar();
      } else if IsIdentStart(c) {
        WordKinds(d, s[i..]);
        err := ReadWord();
      } else {
        Advance(i + 1);
      }
    }

    /** Something besides blanks and comments: after a ';' that is trailing text. */
    method StepVisible() returns (err: Option<LexError>)
      requires Valid() && i < |s|
      modifies this
      ensures Valid() && Reads(ScanVisible(d, old(Rest())), err, old(i))
      ensures View() == FeedVisible(old(View()), ScanVisible(d, old(Rest())), old(i))
    {
      hide ScanVisible, See, IndexFrom;
      if res.statementEnd >= 0 {
        res := res.(trailing := true);
      }
      err := ReadVisible();
    }

    /** One step reads the token at `i`, strictly advances and stays within the text. */
    method Step() returns (err: Option<LexError>)
      requires Valid() && i < |s|
      modifies this
      ensures Valid() && Reads(Scan(d, old(Rest())), err, old(i))
      ensures old(i) < i <= |s|
      ensures View() == Feed(old(View()), Scan(d, old(Rest())), old(i), |s|)
    {
      hide ScanVisible, FeedVisible, BlockEnd, LineEnd, LineCommentAt, ExecutableAt;
      if IsSpace(s[i]) {
        Advance(i + 1);
        return None;
      } else if LineCommentAt(d, s[i..]) {
        SkipLineComment();
        return None;
      } else if HasPrefix(s[i..], "/*") {
        err := SkipBlockComment();
        return;
      }
      VisibleKinds(d, s[i..]);
      err := StepVisible();
    }
  }

  lemma VisibleKinds(d: Dialect, r: string)
    requires r != ""
    ensures var t := ScanVisible(d, r);
            && !t.Blank? && !t.LineComment? && !t.BlockComment?
            && (t.Bad? ==> t.error != UnterminatedComment)
  {
    hide ScanWord, ScanBracket, ScanDollar;
    BracketKinds(d, r);
    DollarKinds(r);
    WordKinds(d, r);
  }

  lemma BracketKinds(d: Dialect, r: string)
    requires r != ""
    ensures var t := ScanBracket(d, r);
            t.Literal? || t.OpenBracket? || t.CloseBracket? || t == Bad(UnterminatedBracket, false)
  {
  }

  lemma DollarKinds(r: string)
    requires r != ""
    ensures var t := ScanDollar(r); t.Literal? || t.Symbol? || t == Bad(UnterminatedDollar, false)
  {
  }

  lemma WordKinds(d: Dialect, r: string)
    requires r != ""
    ensures var t := ScanWord(d, r); t.Literal? || t.Word? || t == Bad(UnterminatedString, false)
  {
    hide EqualFold;
  }

  /** No step is wasted: a text of n bytes has at most n tokens. */
  lemma {:induction false} StepsBounded(d: Dialect, r: string)
    ensures |Tokens(d, r)| <= |r|
    decreases |r|
  {
    hide SqlScan.Scan;
    if r != "" && !Scan(d, r).Bad? {
      StepsBounded(d, r[Scan(d, r).Len()..]);
    }
  }

  lemma TailError(d: Dialect, r: string)
    requires r != "" && !Scan(d, r).Bad?
    ensures LexErrorOf(d, r[Scan(d, r).Len()..]) == LexErrorOf(d, r)
  {
    hide SqlScan.Scan;
    var rest := r[Scan(d, r).Len()..];
    assert Tokens(d, r) == [Scan(d, r)] + Tokens(d, rest);
    if Tokens(d, rest) != [] {
      assert Tokens(d, r)[|Tokens(d, r)| - 1] == Tokens(d, rest)[|Tokens(d, rest)| - 1];
    }
  }

  /** What is left to do after one token. */
  lemma AfterToken(d: Dialect, s: string, i: nat, st: State)
    requires i < |s| && !Scan(d, s[i..]).Bad?
    ensures var t := Scan(d, s[i..]);
            && i + t.Len() <= |s|
            && FeedAll(st, Tokens(d, s[i..]), i, |s|)
               == FeedAll(Feed(st, t, i, |s|), Tokens(d, s[i + t.Len()..]), i + t.Len(), |s|)
            && LexErrorOf(d, s[i + t.Len()..]) == LexErrorOf(d, s[i..])
  {
    hide SqlScan.Scan, Feed, LexErrorOf;
    var r := s[i..];
    var t := Scan(d, r);
    TailError(d, r);
    assert s[i + t.Len()..] == r[t.Len()..];
    assert Tokens(d, r)[1..] == Tokens(d, r[t.Len()..]);
  }

  lemma AfterError(d: Dialect, r: string, pos: nat, total: nat, st: State)
    requires r != "" && Scan(d, r).Bad?
    ensures FeedAll(st, Tokens(d, r), pos, total) == Feed(st, Scan(d, r), pos, total)
    ensures LexErrorOf(d, r) == Some(Scan(d, r).error)
  {
    hide SqlScan.Scan, Feed;
    LoneErrorToken(d, r);
    assert Tokens(d, r) == [Scan(d, r)];
    assert [Scan(d, r)][1..] == [];
  }

  lemma AfterAll(d: Dialect, st: State, pos: nat, total: nat)
    ensures FeedAll(st, Tokens(d, ""), pos, total) == st && LexErrorOf(d, "") == None
  {
    EmptyHasNoError(d);
  }

  /** Reads the whole text; the outcome is the one `Lex` gives. */
  method LexSql(s: string, d: Dialect) returns (res: LexResult, err: Option<LexError>)
    ensures res == Lex(d, s) && err == LexErrorOf(d, s)
  {
    hide SqlScan.Scan, SqlScan.Tokens, Feed, FeedAll, LexErrorOf;
    var l := new Lexer(s, d);
    assert s[0..] == s;
    while l.i < |s|
      invariant fresh(l) && l.Valid() && l.s == s && l.d == d
      invariant FeedAll(l.View(), Tokens(d, s[l.i..]), l.i, |s|) == FeedAll(START, Tokens(d, s), 0, |s|)
      invariant LexErrorOf(d, s[l.i..]) == LexErrorOf(d, s)
      decreases |s| - l.i
    {
      if Scan(d, s[l.i..]).Bad? {
        AfterError(d, s[l.i..], l.i, |s|, l.View());
      } else {
        AfterToken(d, s, l.i, l.View());
      }
      err := l.Step();
      if err.Some? {
        return l.res, err;
      }
    }
    assert s[l.i..] == "";
    AfterAll(d, l.View(), l.i, |s|);
    if l.parens != 0 || l.brackets != 0 {
      l.res := l.res.(unbalanced := true);
    }
    return l.res, None;
  }

  lemma LoneErrorToken(d: Dialect, r: string)
    requires r != "" && Scan(d, r).Bad?
    ensures LexErrorOf(d, r) == Some(Scan(d, r).error)
  {
    hide SqlScan.Scan;
    assert Tokens(d, r) == [Scan(d, r)];
  }

  lemma EmptyHasNoError(d: Dialect)
    ensures LexErrorOf(d, "") == None && Tokens(d, "") == []
  {
  }
}
