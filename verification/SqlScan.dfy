/**
 One dialect's reading of SQL text, as a function of the text that is left.

 `Scan(d, r)` reads the one token at the front of `r`; nothing before `r` can
 influence it. `Tokens(d, r)` reads all of `r`. Text is a `string` whose
 characters each stand for one byte.
 */
module SqlScan {
  import opened Prelude

  /** Which quotes take backslash escapes, which comments and literals exist. */
  datatype Dialect = Dialect(
    backslashQuotes: string,
    backticks: bool,
    hashComments: bool,
    slashComments: bool,
    dashNeedsSpace: bool,
    nestedComments: bool,
    executableComments: bool,
    dollarQuotes: bool,
    escapeStrings: bool,
    bracketIdents: bool,
    qQuotes: bool)

  const ANSI := Dialect("", false, false, false, false, false, false, false, false, false, false)

  /** The nine readings every query and every filter has to pass. */
  const DIALECTS: seq<Dialect> := [
    ANSI,
    /* postgres */ ANSI.(nestedComments := true, dollarQuotes := true, escapeStrings := true),
    /* mysql */ ANSI.(
      backslashQuotes := "'\"", backticks := true, hashComments := true, dashNeedsSpace := true,
      executableComments := true),
    /* mysql-ansi-quotes */ ANSI.(backslashQuotes := "'", backticks := true, hashComments := true,
    dashNeedsSpace := true, executableComments := true),
    /* mysql-no-backslash */ ANSI.(backticks := true, hashComments := true, dashNeedsSpace := true,
    executableComments := true),
    /* clickhouse */ ANSI.(backslashQuotes := "'\"`", backticks := true, hashComments := true),
    /* sqlserver */ ANSI.(nestedComments := true, bracketIdents := true),
    /* oracle */ ANSI.(qQuotes := true),
    /* cassandra */ ANSI.(slashComments := true, dollarQuotes := true)
  ]

  datatype LexError =
    | UnterminatedString
    | UnterminatedIdentifier
    | UnterminatedComment
    | UnterminatedDollar
    | UnterminatedBracket

  /** A lexeme; `Bad` stands for a literal or comment that never ends. */
  datatype Token =
    | Blank
    | LineComment(len: nat)
    | BlockComment(len: nat, executable: bool)
    | Semicolon
    | OpenParen
    | CloseParen
    | OpenBracket
    | CloseBracket
    | Literal(len: nat)
    | Word(text: string)
    | Symbol
    | Bad(error: LexError, executable: bool)
  {
    /** Bytes the token covers; an unterminated one covers none. */
    function Len(): nat {
      match this
      case LineComment(n) => n
      case BlockComment(n, _) => n
      case Literal(n) => n
      case Word(w) => |w|
      case Bad(_, _) => 0
      case _ => 1
    }
  }

  // ----- character classes -----

  predicate IsSpace(c: char) { c == ' ' || c == '\n' || c == '\r' || c == '\t' || c == FORM_FEED }

  const FORM_FEED := 12 as char

  predicate IsDigit(c: char) { '0' <= c <= '9' }

  predicate IsHigh(c: char) { c as int >= 0x80 }

  predicate IsIdentStart(c: char) { 'A' <= c <= 'Z' || 'a' <= c <= 'z' || c == '_' }

  predicate IsIdentPart(c: char) { IsIdentStart(c) || IsDigit(c) || c == '$' }

  predicate IsPlainNameChar(c: char) { IsIdentStart(c) || IsDigit(c) || c == ' ' || c == '.' || IsHigh(c) }

  predicate IsPlainName(s: string) { forall i | 0 <= i < |s| :: IsPlainNameChar(s[i]) }

  function ToUpperChar(c: char): char {
    if 'a' <= c <= 'z' then (c as int - 32) as char else c
  }

  function ToUpper(s: string): (u: string)
    ensures |u| == |s|
  {
    if s == "" then "" else [ToUpperChar(s[0])] + ToUpper(s[1..])
  }

  predicate EqualFold(a: string, b: string) { ToUpper(a) == ToUpper(b) }

  predicate HasPrefix(r: string, p: string) { p <= r }

  // ----- searches; each gives |r| or None when there is no match -----

  /** First offset at or after `k` holding `c`. */
  function IndexFrom(r: string, k: nat, c: char): (e: nat)
    requires k <= |r|
    ensures k <= e <= |r|
    ensures c !in r[k..e]
    ensures e < |r| ==> r[e] == c
    decreases |r| - k
  {
    if k == |r| || r[k] == c then k else IndexFrom(r, k + 1, c)
  }

  /** End of a line comment: the next CR or LF at or after `k`. */
  function LineEnd(r: string, k: nat): (e: nat)
    requires k <= |r|
    ensures k <= e <= |r|
    ensures forall i | k <= i < e :: r[i] != '\r' && r[i] != '\n'
    ensures e < |r| ==> r[e] == '\r' || r[e] == '\n'
    decreases |r| - k
  {
    if k == |r| || r[k] == '\r' || r[k] == '\n' then k else LineEnd(r, k + 1)
  }

  /** First offset at or after `k` where `pat` occurs. */
  function Find(r: string, k: nat, pat: string): (o: Option<nat>)
    ensures o.Some? ==> k <= o.value && o.value + |pat| <= |r| && r[o.value..o.value + |pat|] == pat
    decreases |r| - k
  {
    if k + |pat| > |r| then None
    else if r[k..k + |pat|] == pat then Some(k)
    else Find(r, k + 1, pat)
  }

  /** Offset after a block comment, `depth` comments deep at `k`. */
  function BlockEnd(nested: bool, r: string, k: nat, depth: nat): (o: Option<nat>)
    requires depth >= 1
    ensures o.Some? ==> k + 2 <= o.value <= |r|
    decreases |r| - k
  {
    if k + 1 >= |r| then None
    else if r[k] == '/' && r[k + 1] == '*' && nested then BlockEnd(nested, r, k + 2, depth + 1)
    else if r[k] == '*' && r[k + 1] == '/' then
      if depth == 1 then Some(k + 2) else BlockEnd(nested, r, k + 2, depth - 1)
    else BlockEnd(nested, r, k + 1, depth)
  }

  /** Offset after a quoted text whose body starts at `k`; a doubled quote does not end it. */
  function QuotedEnd(r: string, k: nat, quote: char, backslash: bool): (o: Option<nat>)
    ensures o.Some? ==> k + 1 <= o.value <= |r|
    decreases |r| - k
  {
    if k >= |r| then None
    else if backslash && r[k] == '\\' then QuotedEnd(r, k + 2, quote, backslash)
    else if r[k] != quote then QuotedEnd(r, k + 1, quote, backslash)
    else if k + 1 < |r| && r[k + 1] == quote then QuotedEnd(r, k + 2, quote, backslash)
    else Some(k + 1)
  }

  /** End of the tag of a dollar quote; digits may not come first. */
  function TagEnd(r: string, k: nat): (e: nat)
    requires 1 <= k <= |r|
    ensures k <= e <= |r|
    decreases |r| - k
  {
    if k < |r| && (IsIdentStart(r[k]) || IsHigh(r[k]) || (k > 1 && IsDigit(r[k]))) then TagEnd(r, k + 1) else k
  }

  function WordEnd(r: string, k: nat): (e: nat)
    requires k <= |r|
    ensures k <= e <= |r|
    ensures forall i | k <= i < e :: IsIdentPart(r[i])
    decreases |r| - k
  {
    if k < |r| && IsIdentPart(r[k]) then WordEnd(r, k + 1) else k
  }

  /** UTF-8 of the code point with the number of byte `c`: one byte below 0x80, else two. */
  function CodePoint(c: char): (u: string)
    ensures 1 <= |u| <= 2
  {
    if IsHigh(c) then [(0xC0 + c as int / 64) as char, (0x80 + c as int % 64) as char] else [c]
  }

  function ClosingDelimiter(c: char): char {
    if c == '[' then ']' else if c == '{' then '}' else if c == '(' then ')' else if c == '<' then '>' else c
  }

  /** Offset after Oracle's q'x...x' whose opening delimiter is at `k`. */
  function QQuoteEnd(r: string, k: nat): (o: Option<nat>)
    ensures o.Some? ==> k + 3 <= o.value <= |r|
  {
    if k >= |r| then None
    else
      match Find(r, k + 1, CodePoint(ClosingDelimiter(r[k])) + "'")
      case None => None
      case Some(p) => Some(p + 2)
  }

  // ----- the token at the front of r -----

  predicate LineCommentAt(d: Dialect, r: string)
    requires r != ""
  {
    if HasPrefix(r, "--") then !d.dashNeedsSpace || |r| <= 2 || r[2] <= ' '
    else if r[0] == '#' then d.hashComments
    else HasPrefix(r, "//") && d.slashComments
  }

  predicate ExecutableAt(d: Dialect, r: string) {
    d.executableComments && (HasPrefix(r, "/*!") || HasPrefix(r, "/*M!"))
  }

  function Ended(o: Option<nat>, e: LexError): (t: Token)
    ensures o.Some? ==> t.Len() == o.value
  {
    match o
    case Some(n) => Literal(n)
    case None => Bad(e, false)
  }

  function ScanDollar(r: string): Token
    requires r != ""
  {
    var j := TagEnd(r, 1);
    if j >= |r| || r[j] != '$' then Symbol
    else
      match Find(r, j + 1, r[..j + 1])
      case Some(p) => Literal(p + j + 1)
      case None => Bad(UnterminatedDollar, false)
  }

  function ScanBracket(d: Dialect, r: string): Token
    requires r != ""
  {
    if r[0] != '[' then CloseBracket
    else if d.bracketIdents then Ended(QuotedEnd(r, 1, ']', false), UnterminatedBracket)
    else
      var close := IndexFrom(r, 1, ']');
      if close < |r| && IsPlainName(r[1..close]) then Literal(close + 1) else OpenBracket
  }

  function ScanWord(d: Dialect, r: string): Token
    requires r != ""
  {
    var j := WordEnd(r, 1);
    var word := r[..j];
    if j < |r| && r[j] == '\'' && d.escapeStrings && EqualFold(word, "E") then
      Ended(QuotedEnd(r, j + 1, '\'', true), UnterminatedString)
    else if j < |r| && r[j] == '\'' && d.qQuotes && (EqualFold(word, "Q") || EqualFold(word, "NQ")) then
      Ended(QQuoteEnd(r, j + 1), UnterminatedString)
    else Word(word)
  }

  /** A token that is neither blank nor comment. */
  function ScanVisible(d: Dialect, r: string): (t: Token)
    requires r != ""
    ensures !t.Bad? ==> 1 <= t.Len() <= |r|
  {
    var c := r[0];
    if c == ';' then Semicolon
    else if c == '(' then OpenParen
    else if c == ')' then CloseParen
    else if c == '\'' then Ended(QuotedEnd(r, 1, c, c in d.backslashQuotes), UnterminatedString)
    else if c == '"' || (c == '`' && d.backticks) then
      Ended(QuotedEnd(r, 1, c, c in d.backslashQuotes), UnterminatedIdentifier)
    else if c == '[' || c == ']' then ScanBracket(d, r)
    else if c == '$' && d.dollarQuotes then ScanDollar(r)
    else if IsIdentStart(c) then ScanWord(d, r)
    else Symbol
  }

  function Scan(d: Dialect, r: string): (t: Token)
    requires r != ""
    ensures !t.Bad? ==> 1 <= t.Len() <= |r|
  {
    if IsSpace(r[0]) then Blank
    else if LineCommentAt(d, r) then LineComment(LineEnd(r, 0))
    else if HasPrefix(r, "/*") then
      match BlockEnd(d.nestedComments, r, 2, 1)
      case Some(n) => BlockComment(n, ExecutableAt(d, r))
      case None => Bad(UnterminatedComment, ExecutableAt(d, r))
    else ScanVisible(d, r)
  }

  /** All tokens of `r`, the last one `Bad` when lexing stops early. */
  function Tokens(d: Dialect, r: string): (ts: seq<Token>)
    decreases |r|
  {
    if r == "" then []
    else
      var t := Scan(d, r);
      if t.Bad? then [t] else [t] + Tokens(d, r[t.Len()..])
  }

  /** The dialect reads all of `r`. */
  predicate Lexes(d: Dialect, r: string) {
    forall k | 0 <= k < |Tokens(d, r)| :: !Tokens(d, r)[k].Bad?
  }
}
