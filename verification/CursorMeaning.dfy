/** What cursor texts mean: their order is that of the values, and encoding keeps the value. */
module CursorMeaning {
  import opened Prelude
  import opened Trimming
  import opened DecimalText
  import opened CursorRange
  import opened CursorTasks
  import opened CursorOrder

  // ----- order -----

  /** Bytewise order: a proper prefix, or the smaller byte after a common prefix of length `k`. */
  predicate LessAt(a: string, b: string, k: nat) {
    && k <= |a| && k < |b|
    && a[..k] == b[..k]
    && (k == |a| || a[k] < b[k])
  }

  ghost predicate LessText(a: string, b: string) { exists k: nat :: LessAt(a, b, k) }

  lemma {:induction false} TextOrderIff(a: string, b: string)
    ensures CompareText(a, b) < 0 <==> LessText(a, b)
    ensures CompareText(a, b) == 0 <==> a == b
    decreases |a|
  {
    if a == "" {
      assert b != "" ==> LessAt(a, b, 0);
    } else if b != "" {
      if a[0] != b[0] {
        assert a[0] < b[0] ==> LessAt(a, b, 0);
        forall k: nat
          ensures LessAt(a, b, k) ==> k == 0
        {
          assert k > 0 && k <= |a| && k < |b| ==> a[..k][0] == a[0] && b[..k][0] == b[0];
        }
      } else {
        TextOrderIff(a[1..], b[1..]);
        LessTail(a, b);
        assert a == [a[0]] + a[1..] && b == [b[0]] + b[1..];
      }
    }
  }

  lemma LessTail(a: string, b: string)
    requires a != "" && b != "" && a[0] == b[0]
    ensures LessText(a, b) <==> LessText(a[1..], b[1..])
  {
    if k: nat :| LessAt(a, b, k) {
      assert k > 0;
      assert a[1..][..k - 1] == a[..k][1..] && b[1..][..k - 1] == b[..k][1..];
      assert LessAt(a[1..], b[1..], k - 1);
    }
    if k: nat :| LessAt(a[1..], b[1..], k) {
      assert a[..k + 1] == [a[0]] + a[1..][..k] && b[..k + 1] == [b[0]] + b[1..][..k];
      assert LessAt(a, b, k + 1);
    }
  }

  /** The integer a text stands for in a discrete domain: itself, a day or a nanosecond. */
  function ValueOf(domain: Domain, s: string, lib: Library): Option<int> {
    match domain
    case Int64 => ParseInt64(s)
    case UInt64 => ParseUint64(s)
    case Date => lib.date.parse(s)
    case Timestamp => lib.stamp.parse(s)
    case _ => None
  }

  /** Comparison follows the values in every domain, and the trimmed bytes in text domains. */
  lemma OrderByValue(domain: Domain, a: string, b: string, lib: Library)
    requires Readable(domain, a, lib) && Readable(domain, b, lib)
    ensures domain.Splits() ==>
              && ValueOf(domain, a, lib).Some? && ValueOf(domain, b, lib).Some?
              && (Compare(domain, a, b, lib) < 0 <==> ValueOf(domain, a, lib).value < ValueOf(domain, b, lib).value)
              && (Compare(domain, a, b, lib) == 0 <==> ValueOf(domain, a, lib) == ValueOf(domain, b, lib))
    ensures domain.Decimals? ==>
              && (Compare(domain, a, b, lib) < 0 <==> lib.rational(a).value < lib.rational(b).value)
              && (Compare(domain, a, b, lib) == 0 <==> lib.rational(a) == lib.rational(b))
    ensures !domain.Splits() && !domain.Decimals? ==>
              && (Compare(domain, a, b, lib) < 0 <==> LessText(TrimSpace(a), TrimSpace(b)))
              && (Compare(domain, a, b, lib) == 0 <==> TrimSpace(a) == TrimSpace(b))
  {
    hide TrimSpace, ReadInt, ReadUint, CompareText, LessText;
    TextOrderIff(TrimSpace(a), TrimSpace(b));
  }

  // ----- encoding -----

  /** The value of a scanned cursor in a discrete domain. */
  function Scanned(domain: Domain, v: CursorValue, lib: Library): Option<int> {
    match v
    case Whole(n) =>
      if domain.Int64? && -0x8000_0000_0000_0000 <= n <= 0x7FFF_FFFF_FFFF_FFFF then Some(n)
      else if domain.UInt64? && 0 <= n <= 0xFFFF_FFFF_FFFF_FFFF then Some(n)
      else None
    case Words(s) => ValueOf(domain, s, lib)
    case Moment(days, nanos) => if domain.Date? then Some(days) else if domain.Timestamp? then Some(nanos) else None
    case Printed(_) => None
  }

  /** A discrete cursor is encoded if and only if it has a value, and the text stands for that value. */
  lemma EncodedKeepsValue(domain: Domain, v: CursorValue, lib: Library)
    requires LibraryOk(lib) && InCalendar(domain, v, lib) && domain.Splits()
    ensures EncodeCursor(domain, v, lib).Some? <==> Scanned(domain, v, lib).Some?
    ensures EncodeCursor(domain, v, lib).Some? ==>
              ValueOf(domain, EncodeCursor(domain, v, lib).value, lib) == Scanned(domain, v, lib)
  {
    hide Lawful, ParseInt64, ParseUint64;
    if v.Whole? {
      Int64Text(v.n);
      Uint64Text(v.n);
    }
    if v.Words? {
      Int64IsLawful();
      Uint64IsLawful();
      RewriteKeeps(INT64_CODEC, v.text);
      RewriteKeeps(UINT64_CODEC, v.text);
      RewriteKeeps(lib.date, v.text);
      RewriteKeeps(lib.stamp, v.text);
    }
  }

  lemma RewriteKeeps(c: Codec, s: string)
    requires Lawful(c)
    ensures Rewrite(c, s).Some? <==> c.parse(s).Some?
    ensures Rewrite(c, s).Some? ==> c.parse(Rewrite(c, s).value) == c.parse(s)
  {
    if c.parse(s).Some? {
      assert Writes(c, c.parse(s).value);
    }
  }

  /** Other cursors keep their trimmed text; decimals only when it is a number, with the same value. */
  lemma EncodedKeepsText(domain: Domain, v: CursorValue, lib: Library)
    requires LibraryOk(lib)
    ensures domain.Strings? ==> EncodeCursor(domain, v, lib) == Some(TrimSpace(PlainText(v, lib)))
    ensures domain.Uuids? ==> EncodeCursor(domain, v, lib) == Some(lib.lower(TrimSpace(PlainText(v, lib))))
    ensures domain.Decimals? ==>
              (EncodeCursor(domain, v, lib).Some? <==> !v.Moment? && lib.rational(PlainText(v, lib)).Some?)
    ensures domain.Decimals? && EncodeCursor(domain, v, lib).Some? ==>
              lib.rational(EncodeCursor(domain, v, lib).value) == lib.rational(PlainText(v, lib))
    ensures domain.Unknown? ==> EncodeCursor(domain, v, lib).None?
  {
    hide TrimSpace, Lawful;
    assert lib.rational(TrimSpace(PlainText(v, lib))) == lib.rational(PlainText(v, lib));
  }
}
