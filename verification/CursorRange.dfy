/**
 Cursor ranges: splitting [start, end] into pieces, chaining the pieces into
 tasks and the predicate each task sends to the source.
 */
module CursorRange {
  import opened Prelude
  import opened Trimming
  import opened DecimalText

  datatype Domain = Unknown | Int64 | UInt64 | Date | Timestamp | Decimals | Strings | Uuids
  {
    predicate Splits() { Int64? || UInt64? || Date? || Timestamp? }
  }

  /** How a discrete domain reads and writes its values (days or nanoseconds for calendar values). */
  datatype Codec = Codec(parse: string -> Option<int>, format: int -> Option<string>)

  /** The value can be written, and what is written is read back. */
  ghost predicate Writes(c: Codec, v: int) { c.format(v).Some? && c.parse(c.format(v).value) == Some(v) }

  /** Everything between two readable values is written faithfully, and outer white space is ignored. */
  ghost predicate Lawful(c: Codec) {
    && (forall a, b, v ::
          c.parse(a).Some? && c.parse(b).Some? && c.parse(a).value <= v <= c.parse(b).value ==> Writes(c, v))
    && (forall v :: c.format(v).Some? && c.parse(c.format(v).value).Some? ==> Writes(c, v))
    && (forall s :: c.parse(TrimSpace(s)) == c.parse(s))
  }

  function ParseInt64(s: string): Option<int> { ReadInt(TrimSpace(s), INT64_MIN, INT64_MAX) }

  function FormatInt64(v: int): Option<string> { if INT64_MIN <= v <= INT64_MAX then Some(Decimal(v)) else None }

  function ParseUint64(s: string): Option<int> { ReadUint(TrimSpace(s), UINT64_MAX) }

  function FormatUint64(v: int): Option<string> { if 0 <= v <= UINT64_MAX then Some(Decimal(v)) else None }

  const INT64_CODEC := Codec(ParseInt64, FormatInt64)
  const UINT64_CODEC := Codec(ParseUint64, FormatUint64)

  lemma TrimTwice(s: string)
    ensures TrimSpace(TrimSpace(s)) == TrimSpace(s)
  {
    hide TrimSpace, StartsWithSpace, EndsWithSpace;
    TrimLeavesNoSpace(s);
    TrimStable(TrimSpace(s));
  }

  lemma Int64Text(v: int)
    ensures FormatInt64(v).Some? ==> ParseInt64(FormatInt64(v).value) == Some(v)
  {
    hide TrimSpace, Decimal, ReadInt;
    if INT64_MIN <= v <= INT64_MAX {
      DecimalIsTrim(v);
      IntRoundTrip(v, INT64_MIN, INT64_MAX);
    }
  }

  lemma Uint64Text(v: int)
    ensures FormatUint64(v).Some? ==> ParseUint64(FormatUint64(v).value) == Some(v)
  {
    hide TrimSpace, Decimal, ReadUint;
    if 0 <= v <= UINT64_MAX {
      DecimalIsTrim(v);
      UintRoundTrip(v, UINT64_MAX);
    }
  }

  /** The integer domains obey the law, over their whole 64-bit range. */
  lemma Int64IsLawful()
    ensures Lawful(INT64_CODEC)
  {
    hide TrimSpace, Decimal, ReadInt;
    var c := INT64_CODEC;
    forall v: int
      ensures c.format(v).Some? ==> Writes(c, v)
    {
      Int64Text(v);
    }
    forall s: string
      ensures c.parse(TrimSpace(s)) == c.parse(s)
    {
      TrimTwice(s);
    }
  }

  lemma Uint64IsLawful()
    ensures Lawful(UINT64_CODEC)
  {
    hide TrimSpace, Decimal, ReadUint;
    var c := UINT64_CODEC;
    forall v: int
      ensures c.format(v).Some? ==> Writes(c, v)
    {
      Uint64Text(v);
    }
    forall s: string
      ensures c.parse(TrimSpace(s)) == c.parse(s)
    {
      TrimTwice(s);
    }
  }

  // ----- the bounds as integers -----

  function Min(a: int, b: int): int { if a <= b then a else b }

  /** Upper bounds of consecutive pieces of [start, end]. */
  predicate Increasing(start: int, end: int, b: seq<int>) {
    && b != []
    && start <= b[0]
    && b[|b| - 1] == end
    && forall i, j | 0 <= i < j < |b| :: b[i] < b[j]
  }

  function Lower(start: int, b: seq<int>, i: nat): int
    requires i < |b|
  {
    if i == 0 then start else b[i - 1] + 1
  }

  /** How many values piece `i` has. */
  function Size(start: int, b: seq<int>, i: nat): int
    requires i < |b|
  {
    b[i] - Lower(start, b, i) + 1
  }

  predicate Balanced(start: int, b: seq<int>) {
    forall i, j | 0 <= i < |b| && 0 <= j < |b| :: Size(start, b, i) - Size(start, b, j) <= 1
  }

  /** All pieces have two values, but for the last, which may have one. */
  predicate Paired(start: int, b: seq<int>) {
    forall i | 0 <= i < |b| :: Size(start, b, i) == 2 || (i == |b| - 1 && Size(start, b, i) == 1)
  }

  predicate GoodSplit(start: int, end: int, parts: int, b: seq<int>) {
    && Increasing(start, end, b)
    && |b| <= (if parts <= 1 then 1 else parts)
    && (end - start + 1 >= parts > 1 ==> |b| == parts && Balanced(start, b))
    && (end - start + 1 < parts ==> Paired(start, b))
  }

  /** Where piece number `i` ends when pieces are `base` long and the first `extra` are one longer. */
  function UpperBound(start: int, base: int, extra: int, i: nat): int { start + (i + 1) * base + Min(i + 1, extra) - 1 }

  lemma BoundStep(start: int, base: int, extra: int, i: nat)
    requires extra >= 0
    ensures UpperBound(start, base, extra, i + 1) ==
            UpperBound(start, base, extra, i) + base + if i + 1 < extra then 1 else 0
  {
    assert (i + 2) * base == (i + 1) * base + base;
  }

  predicate Regular(start: int, base: int, extra: int, b: seq<int>) {
    forall i | 0 <= i < |b| :: b[i] == UpperBound(start, base, extra, i)
  }

  lemma {:induction false} RegularGrows(start: int, base: int, extra: int, i: nat, j: nat)
    requires base >= 1 && extra >= 0 && i <= j
    ensures UpperBound(start, base, extra, i) + (j - i) <= UpperBound(start, base, extra, j)
    decreases j - i
  {
    if i < j {
      RegularGrows(start, base, extra, i, j - 1);
      BoundStep(start, base, extra, j - 1);
    }
  }

  lemma RegularSizes(start: int, base: int, extra: int, b: seq<int>, i: nat)
    requires extra >= 0 && Regular(start, base, extra, b) && i < |b|
    ensures Size(start, b, i) == base + if i < extra then 1 else 0
  {
    if i > 0 {
      BoundStep(start, base, extra, i - 1);
    }
  }

  /** A regular prefix that stays below the end, closed with the end, is a list of bounds. */
  lemma ClosedIsIncreasing(start: int, end: int, base: int, extra: int, b: seq<int>)
    requires base >= 1 && extra >= 0 && start <= end && Regular(start, base, extra, b)
    requires forall i | 0 <= i < |b| :: b[i] < end
    ensures Increasing(start, end, b + [end])
  {
    var out := b + [end];
    forall i, j | 0 <= i < j < |out|
      ensures out[i] < out[j]
    {
      if j < |b| {
        RegularGrows(start, base, extra, i, j);
      }
    }
    if b != [] {
      RegularGrows(start, base, extra, 0, 0);
      assert out[0] == UpperBound(start, base, extra, 0);
      assert UpperBound(start, base, extra, 0) == start + base + Min(1, extra) - 1;
    }
  }

  /** `parts` regular pieces end exactly at the end. */
  lemma LastBound(start: int, end: int, parts: int)
    requires parts > 1 && end - start + 1 >= parts
    ensures var width := end - start + 1;
            UpperBound(start, width / parts, width % parts, parts - 1) == end
  {
    var width := end - start + 1;
    assert parts * (width / parts) + width % parts == width;
    assert parts * (width / parts) == (parts - 1 + 1) * (width / parts);
  }

  lemma FullSplitIsBalanced(start: int, end: int, parts: int, b: seq<int>)
    requires parts > 1 && end - start + 1 >= parts && |b| == parts - 1
    requires Regular(start, (end - start + 1) / parts, (end - start + 1) % parts, b)
    ensures Balanced(start, b + [end])
  {
    var base, extra := (end - start + 1) / parts, (end - start + 1) % parts;
    var out := b + [end];
    LastBound(start, end, parts);
    assert Regular(start, base, extra, out);
    forall i | 0 <= i < |out|
      ensures base <= Size(start, out, i) <= base + 1
    {
      RegularSizes(start, base, extra, out, i);
    }
  }

  /** With fewer values than parts every piece but the last has two. */
  lemma ShortSplitIsPaired(start: int, end: int, b: seq<int>)
    requires start <= end && Regular(start, 1, end - start + 1, b) && forall i | 0 <= i < |b| :: b[i] < end
    requires UpperBound(start, 1, end - start + 1, |b|) >= end
    ensures Paired(start, b + [end])
  {
    var extra := end - start + 1;
    var out := b + [end];
    forall i | 0 <= i < |b|
      ensures Size(start, out, i) == 2
    {
      RegularSizes(start, 1, extra, b, i);
      assert b[i] == start + (i + 1) + Min(i + 1, extra) - 1;
      assert Size(start, out, i) == Size(start, b, i);
    }
    if b != [] {
      BoundStep(start, 1, extra, |b| - 1);
    }
    assert Size(start, out, |b|) == end - Lower(start, out, |b|) + 1;
  }

  // ----- the split -----

  datatype SplitError = BadStart | BadEnd | StartAfterEnd | Overflow

  ghost predicate ParsesTo(c: Codec, out: seq<string>, b: seq<int>) {
    |out| == |b| && forall i | 0 <= i < |out| :: c.parse(out[i]) == Some(b[i])
  }

  /**
   Splits a parsed range with start <= end into 1..parts bounds that parse to a
   good split; it never fails on such a range.
   */
  method SplitCursorRange(c: Codec, domain: Domain, startText: string, endText: string, parts: int)
    returns (r: Result<seq<string>, SplitError>, ghost bounds: seq<int>)
    requires Lawful(c)
    ensures !domain.Splits() ==> r == Ok([TrimSpace(endText)])
    ensures domain.Splits() && c.parse(startText).None? ==> r == Err(BadStart)
    ensures domain.Splits() && c.parse(startText).Some? && c.parse(endText).None? ==> r == Err(BadEnd)
    ensures domain.Splits() && c.parse(startText).Some? && c.parse(endText).Some? ==>
              var start, end := c.parse(startText).value, c.parse(endText).value;
              if start > end then r == Err(StartAfterEnd)
              else r.Ok? && ParsesTo(c, r.value, bounds) && GoodSplit(start, end, parts, bounds)
                   && r.value[|r.value| - 1] == TrimSpace(endText)
  {
    hide TrimSpace, Increasing, Balanced, Paired, UpperBound, Lawful;
    bounds := [];
    if !domain.Splits() {
      return Ok([TrimSpace(endText)]), bounds;
    }
    if c.parse(startText).None? {
      return Err(BadStart), bounds;
    }
    if c.parse(endText).None? {
      return Err(BadEnd), bounds;
    }
    var start, end := c.parse(startText).value, c.parse(endText).value;
    if start > end {
      return Err(StartAfterEnd), bounds;
    }
    TrimmedParses(c, endText);
    if parts <= 1 {
      OnePiece(start, end);
      return Ok([TrimSpace(endText)]), [end];
    }
    var width := end - start + 1;
    var base := width / parts;
    var extra := width % parts;
    if base <= 0 {
      base := 1;
    }
    SplitShape(width, parts);
    var out := [];
    var cur := start;
    var i := 0;
    FirstBound(start, base, extra);
    while i < parts - 1
      invariant 0 <= i == |out| <= parts - 1
      invariant ParsesTo(c, out, bounds) && Regular(start, base, extra, bounds)
      invariant forall k | 0 <= k < |bounds| :: bounds[k] < end
      invariant cur == UpperBound(start, base, extra, i) + 1 - base - (if i < extra then 1 else 0)
      invariant start <= cur <= end
    {
      var size := base;
      if i < extra {
        size := size + 1;
      }
      var upper := cur + size - 1;
      if upper >= end {
        break;
      }
      Writable(c, startText, endText, upper);
      var text := c.format(upper);
      if text.None? {
        return Err(Overflow), bounds;
      }
      BoundStep(start, base, extra, i);
      out, bounds := out + [text.value], bounds + [upper];
      cur := upper + 1;
      i := i + 1;
    }
    ClosedIsIncreasing(start, end, base, extra, bounds);
    SplitIsGood(start, end, parts, base, extra, bounds);
    out, bounds := out + [TrimSpace(endText)], bounds + [end];
    return Ok(out), bounds;
  }

  lemma TrimmedParses(c: Codec, s: string)
    requires Lawful(c)
    ensures c.parse(TrimSpace(s)) == c.parse(s)
  {
  }

  lemma OnePiece(start: int, end: int)
    requires start <= end
    ensures Increasing(start, end, [end]) && (end - start + 1 < 1 ==> Paired(start, [end]))
  {
  }

  lemma SplitShape(width: int, parts: int)
    requires width >= 1 && parts > 1
    ensures width < parts ==> width / parts == 0 && width % parts == width
    ensures width >= parts ==> width / parts >= 1
    ensures 0 <= width % parts < parts
  {
  }

  lemma FirstBound(start: int, base: int, extra: int)
    requires extra >= 0
    ensures UpperBound(start, base, extra, 0) == start + base - 1 + if 0 < extra then 1 else 0
  {
  }

  lemma Writable(c: Codec, a: string, b: string, v: int)
    requires Lawful(c) && c.parse(a).Some? && c.parse(b).Some? && c.parse(a).value <= v <= c.parse(b).value
    ensures Writes(c, v)
  {
  }

  lemma SplitIsGood(start: int, end: int, parts: int, base: int, extra: int, b: seq<int>)
    requires start <= end && parts > 1 && |b| <= parts - 1
    requires base == (if end - start + 1 < parts then 1 else (end - start + 1) / parts) &&
        extra == (end - start + 1) % parts
    requires Regular(start, base, extra, b) && forall i | 0 <= i < |b| :: b[i] < end
    requires |b| == parts - 1 || UpperBound(start, base, extra, |b|) >= end
    requires Increasing(start, end, b + [end])
    ensures GoodSplit(start, end, parts, b + [end])
  {
    hide UpperBound;
    var width := end - start + 1;
    SplitShape(width, parts);
    if width >= parts {
      LastBound(start, end, parts);
      RegularGrows(start, base, extra, |b|, parts - 1);
      if |b| == parts - 1 {
        FullSplitIsBalanced(start, end, parts, b);
      }
    } else {
      EnoughParts(start, end, parts, b);
      ShortSplitIsPaired(start, end, b);
    }
  }

  lemma EnoughParts(start: int, end: int, parts: int, b: seq<int>)
    requires start <= end && end - start + 1 < parts && Regular(start, 1, end - start + 1, b)
    requires forall i | 0 <= i < |b| :: b[i] < end
    requires |b| == parts - 1 || UpperBound(start, 1, end - start + 1, |b|) >= end
    ensures UpperBound(start, 1, end - start + 1, |b|) >= end
  {
    if |b| == parts - 1 {
      assert UpperBound(start, 1, end - start + 1, |b|) == start + parts + Min(parts, end - start + 1) - 1;
    }
  }
}
