/** Cursor values as text: how each domain encodes them and in which order it puts them. */
module CursorOrder {
  import opened Prelude
  import opened Trimming
  import opened DecimalText
  import opened CursorRange
  import opened CursorTasks

  /** What the standard library does: calendar texts, rational numbers, printing and lower-casing. */
  datatype Library = Library(
    date: Codec, stamp: Codec, rational: string -> Option<real>, show: CursorValue -> string, lower: string -> string)

  /** A scanned value: an integer, a float as it is printed, a text, or an instant as days and as nanoseconds. */
  datatype CursorValue = Whole(n: int) | Printed(text: string) | Words(text: string) | Moment(days: int, nanos: int)

  ghost predicate LibraryOk(lib: Library) {
    && Lawful(lib.date)
    && Lawful(lib.stamp)
    && lib.date.parse("").None?
    && lib.stamp.parse("").None?
    && lib.rational("").None?
    && forall s :: lib.rational(TrimSpace(s)) == lib.rational(s)
  }

  // ----- encoding -----

  /** Reads a text and writes the value again. */
  function Rewrite(c: Codec, s: string): Option<string> {
    if c.parse(s).None? then None else c.format(c.parse(s).value)
  }

  function EncodeWith(c: Codec, v: CursorValue): Option<string> {
    match v
    case Whole(n) => c.format(n)
    case Words(s) => Rewrite(c, s)
    case _ => None
  }

  function EncodeInstant(c: Codec, v: CursorValue, instant: int): Option<string> {
    match v
    case Moment(_, _) => c.format(instant)
    case Words(s) => Rewrite(c, s)
    case _ => None
  }

  function PlainText(v: CursorValue, lib: Library): string {
    match v
    case Whole(n) => Decimal(n)
    case Printed(s) => s
    case Words(s) => s
    case Moment(_, _) => lib.show(v)
  }

  function EncodeRational(v: CursorValue, lib: Library): Option<string> {
    if v.Moment? then None
    else
      var s := TrimSpace(PlainText(v, lib));
      if lib.rational(s).Some? then Some(s) else None
  }

  function EncodeCursor(domain: Domain, v: CursorValue, lib: Library): Option<string> {
    match domain
    case Int64 => EncodeWith(INT64_CODEC, v)
    case UInt64 => EncodeWith(UINT64_CODEC, v)
    case Date => EncodeInstant(lib.date, v, if v.Moment? then v.days else 0)
    case Timestamp => EncodeInstant(lib.stamp, v, if v.Moment? then v.nanos else 0)
    case Decimals => EncodeRational(v, lib)
    case Strings => Some(TrimSpace(PlainText(v, lib)))
    case Uuids => Some(lib.lower(TrimSpace(PlainText(v, lib))))
    case Unknown => None
  }

  // ----- order -----

  function CompareReals(a: real, b: real): int { if a < b then -1 else if a > b then 1 else 0 }

  function CompareTrimmed(a: string, b: string): int { CompareText(TrimSpace(a), TrimSpace(b)) }

  function Compare(domain: Domain, a: string, b: string, lib: Library): int {
    match domain
    case Int64 => CompareCursorValues(INT64_CODEC, a, b)
    case UInt64 => CompareCursorValues(UINT64_CODEC, a, b)
    case Date => CompareCursorValues(lib.date, a, b)
    case Timestamp => CompareCursorValues(lib.stamp, a, b)
    case Decimals =>
      var x, y := lib.rational(a), lib.rational(b);
      if x.Some? && y.Some? then CompareReals(x.value, y.value) else CompareTrimmed(a, b)
    case _ => CompareTrimmed(a, b)
  }

  /** Values the domain can read; any text for text domains. */
  predicate Readable(domain: Domain, s: string, lib: Library) {
    match domain
    case Int64 => ParseInt64(s).Some?
    case UInt64 => ParseUint64(s).Some?
    case Date => lib.date.parse(s).Some?
    case Timestamp => lib.stamp.parse(s).Some?
    case Decimals => lib.rational(s).Some?
    case _ => true
  }

  /** Total, transitive, and strict comparison is the converse of the weak one; "" is least where it is readable. */
  ghost predicate TotalPreorder(domain: Domain, lib: Library) {
    && (forall a, b | Readable(domain, a, lib) && Readable(domain, b, lib) ::
          Compare(domain, a, b, lib) < 0 <==> Compare(domain, b, a, lib) > 0)
    && (forall a, b, c | Readable(domain, a, lib) && Readable(domain, b, lib) && Readable(domain, c, lib)
                         && Compare(domain, a, b, lib) <= 0 && Compare(domain, b, c, lib) <= 0 ::
          Compare(domain, a, c, lib) <= 0)
    && (forall a | Readable(domain, a, lib) :: Compare(domain, a, a, lib) == 0)
    && (Readable(domain, "", lib) ==> forall a | Readable(domain, a, lib) :: Compare(domain, "", a, lib) <= 0)
  }

  lemma {:induction false} TextSymmetric(a: string, b: string)
    ensures CompareText(a, b) == -CompareText(b, a)
    decreases |a|
  {
    if a != "" && b != "" && a[0] == b[0] {
      TextSymmetric(a[1..], b[1..]);
    }
  }

  lemma {:induction false} TextTransitive(a: string, b: string, c: string)
    requires CompareText(a, b) <= 0 && CompareText(b, c) <= 0
    ensures CompareText(a, c) <= 0
    decreases |a|
  {
    if a != "" && b != "" && c != "" && a[0] == b[0] == c[0] {
      TextTransitive(a[1..], b[1..], c[1..]);
    }
  }

  lemma {:induction false} TextReflexive(a: string)
    ensures CompareText(a, a) == 0
    decreases |a|
  {
    if a != "" {
      TextReflexive(a[1..]);
    }
  }

  lemma BlankIsTrim()
    ensures TrimSpace("") == ""
  {
  }

  /** Text and UUID cursors are ordered bytewise, without outer white space. */
  lemma TextIsOrdered(domain: Domain, lib: Library)
    requires domain.Strings? || domain.Uuids? || domain.Unknown?
    ensures TotalPreorder(domain, lib)
  {
    hide TrimSpace, CompareText;
    forall a, b
      ensures CompareTrimmed(a, b) == -CompareTrimmed(b, a)
    {
      TextSymmetric(TrimSpace(a), TrimSpace(b));
    }
    forall a, b, c | CompareTrimmed(a, b) <= 0 && CompareTrimmed(b, c) <= 0
      ensures CompareTrimmed(a, c) <= 0
    {
      TextTransitive(TrimSpace(a), TrimSpace(b), TrimSpace(c));
    }
    forall a
      ensures CompareTrimmed(a, a) == 0 && CompareTrimmed("", a) <= 0
    {
      TextReflexive(TrimSpace(a));
      BlankIsTrim();
      BlankIsLeast(TrimSpace(a));
    }
  }

  lemma BlankIsLeast(a: string)
    ensures CompareText("", a) <= 0
  {
  }

  lemma BlankIsNoNumber()
    ensures ParseInt64("").None? && ParseUint64("").None?
  {
    BlankIsTrim();
  }

  /** In every domain comparison is a total preorder on the values that can be read. */
  lemma DomainIsOrdered(domain: Domain, lib: Library)
    requires LibraryOk(lib)
    ensures TotalPreorder(domain, lib)
  {
    hide TrimSpace, CompareText, CompareTrimmed, ParseInt64, ParseUint64, LibraryOk;
    LibraryBlank(lib);
    BlankIsNoNumber();
    if domain.Strings? || domain.Uuids? || domain.Unknown? {
      TextIsOrdered(domain, lib);
    }
  }

  lemma LibraryBlank(lib: Library)
    requires LibraryOk(lib)
    ensures lib.date.parse("").None? && lib.stamp.parse("").None? && lib.rational("").None?
  {
  }

  // ----- encoded values -----

  /** Instants of calendar domains whose text the library reads again: the years 0 to 9999. */
  ghost predicate InCalendar(domain: Domain, v: CursorValue, lib: Library) {
    v.Moment? ==> (domain.Date? ==> Writes(lib.date, v.days)) && (domain.Timestamp? ==> Writes(lib.stamp, v.nanos))
  }

  lemma RewriteIsReadable(c: Codec, s: string)
    requires Lawful(c)
    ensures Rewrite(c, s).Some? ==> c.parse(Rewrite(c, s).value) == c.parse(s)
  {
    if c.parse(s).Some? {
      assert Writes(c, c.parse(s).value);
    }
  }

  lemma WrittenIntegerIsReadable(v: CursorValue)
    ensures EncodeWith(INT64_CODEC, v).Some? ==> ParseInt64(EncodeWith(INT64_CODEC, v).value).Some?
    ensures EncodeWith(UINT64_CODEC, v).Some? ==> ParseUint64(EncodeWith(UINT64_CODEC, v).value).Some?
  {
    hide Lawful, ParseInt64, ParseUint64, FormatInt64, FormatUint64;
    match v
    case Whole(n) =>
      Int64Text(n);
      Uint64Text(n);
    case Words(s) =>
      Int64IsLawful();
      Uint64IsLawful();
      RewriteIsReadable(INT64_CODEC, s);
      RewriteIsReadable(UINT64_CODEC, s);
    case _ =>
  }

  /** What a domain encodes it can read. */
  lemma EncodedIsReadable(domain: Domain, v: CursorValue, lib: Library)
    requires LibraryOk(lib) && InCalendar(domain, v, lib)
    ensures EncodeCursor(domain, v, lib).Some? ==> Readable(domain, EncodeCursor(domain, v, lib).value, lib)
  {
    hide TrimSpace, ParseInt64, ParseUint64, Lawful;
    match domain
    case Int64 => WrittenIntegerIsReadable(v);
    case UInt64 => WrittenIntegerIsReadable(v);
    case Date =>
      if v.Words? {
        RewriteIsReadable(lib.date, v.text);
      }
    case Timestamp =>
      if v.Words? {
        RewriteIsReadable(lib.stamp, v.text);
      }
    case _ =>
  }

  /** Encoded integers compare as the integers. */
  lemma IntegersByValue(a: int, b: int, lib: Library)
    requires INT64_MIN <= a <= INT64_MAX && INT64_MIN <= b <= INT64_MAX
    ensures Compare(Int64, Decimal(a), Decimal(b), lib) == CompareInts(a, b)
  {
    hide ParseInt64, TrimSpace, Decimal;
    Int64Text(a);
    Int64Text(b);
  }
}
