/** The loop that turns source rows into record batches of adaptive size. */
module AdaptiveBatch {
  import opened Prelude
  import opened CursorRange
  import opened CursorTasks
  import opened CursorOrder

  // ----- rows and batches -----

  /**
   A scanned row: its cursor value, None when it is NULL or there is no cursor column,
   and whether its values convert.
   */
  datatype SourceRow = SourceRow(cursor: Option<CursorValue>, converts: bool, values: seq<string>)

  /** The encoded cursor of a row, if it has one. */
  function CursorOf(row: SourceRow, domain: Domain, lib: Library): Option<string> {
    if row.cursor.None? || domain.Unknown? then None else EncodeCursor(domain, row.cursor.value, lib)
  }

  const DEFAULT_LIMIT: int := 50_000
  const MIN_BATCH: int := 1000
  const FIRST_BATCH: int := 10_000
  const TARGET_BYTES: int := 64 * 1024 * 1024

  function Limit(batchSize: int): int { if batchSize <= 0 then DEFAULT_LIMIT else batchSize }

  /** No batch is larger. */
  function Most(batchSize: int): (m: int)
    ensures m >= MIN_BATCH
  {
    if Limit(batchSize) < MIN_BATCH then MIN_BATCH else Limit(batchSize)
  }

  /** The size aimed at after a batch of `n` rows with `bytes` bytes. */
  function NextSize(size: int, limit: int, n: int, bytes: nat): (next: int)
    requires n > 0 && MIN_BATCH <= size
    ensures MIN_BATCH <= next && (next <= limit || next <= MIN_BATCH || next <= size)
    ensures size / 2 <= next <= 2 * size
  {
    var perRow := bytes / n;
    if perRow == 0 then size
    else
      var aim := TARGET_BYTES / perRow;
      var a := if aim < MIN_BATCH then MIN_BATCH else aim;
      var b := if a > limit then limit else a;
      var c := if b > size * 2 then size * 2 else b;
      var d := if c < size / 2 then size / 2 else c;
      if d < MIN_BATCH then MIN_BATCH else d
  }

  function Distance(a: int, b: int): nat { if a < b then b - a else a - b }

  /**
   The next size is the nearest to 64 MiB a batch, at the bytes a row of the last
   one, among the sizes between half and twice the last one, at most the limit
   and at least 1000; without any bytes it stays.
   */
  lemma NextIsNearest(size: int, limit: int, n: int, bytes: nat, low: int, high: int, aim: int)
    requires n > 0 && MIN_BATCH <= size
    requires low == (if size / 2 < 1000 then 1000 else size / 2)
    requires high == (if limit < low then low else if limit < 2 * size then limit else 2 * size)
    requires bytes >= n ==> aim * (bytes / n) <= 67_108_864 < (aim + 1) * (bytes / n)
    ensures bytes < n ==> NextSize(size, limit, n, bytes) == size
    ensures bytes >= n ==>
              && low <= NextSize(size, limit, n, bytes) <= high
              && forall x | low <= x <= high :: Distance(NextSize(size, limit, n, bytes), aim) <= Distance(x, aim)
  {
    if bytes < n {
      assert bytes / n == 0;
    } else {
      PerRowPositive(bytes, n);
      DivisionIs(TARGET_BYTES, bytes / n, aim);
    }
  }

  lemma PerRowPositive(bytes: nat, n: int)
    requires 0 < n <= bytes
    ensures bytes / n > 0
  {
    var q := bytes / n;
    assert bytes == q * n + bytes % n;
    TimesGrows(q, 0, n);
  }

  function FirstSize(limit: int): (size: int)
    ensures size >= MIN_BATCH
  {
    var size := if limit > FIRST_BATCH then FIRST_BATCH else limit;
    if size < MIN_BATCH then MIN_BATCH else size
  }

  /** The size of the batch that follows these. */
  function SizeAfter(batches: seq<seq<SourceRow>>, limit: int, measure: seq<SourceRow> -> nat): (size: int)
    ensures size >= MIN_BATCH
  {
    if batches == [] then FirstSize(limit)
    else
      var last := batches[|batches| - 1];
      var size := SizeAfter(batches[..|batches| - 1], limit, measure);
      if last == [] then size else NextSize(size, limit, |last|, measure(last))
  }

  /** Every batch has exactly the size that the ones before it call for. */
  predicate Filled(batches: seq<seq<SourceRow>>, limit: int, measure: seq<SourceRow> -> nat) {
    forall i | 0 <= i < |batches| :: |batches[i]| == SizeAfter(batches[..i], limit, measure)
  }

  /** The last batch may be shorter. */
  predicate FilledButLast(batches: seq<seq<SourceRow>>, limit: int, measure: seq<SourceRow> -> nat) {
    batches != [] ==>
      var front := batches[..|batches| - 1];
      Filled(front, limit, measure) && |batches[|batches| - 1]| <= SizeAfter(front, limit, measure)
  }

  lemma FilledMore(batches: seq<seq<SourceRow>>, b: seq<SourceRow>, limit: int, measure: seq<SourceRow> -> nat)
    requires b != [] && Filled(batches, limit, measure) && |b| <= SizeAfter(batches, limit, measure)
    ensures SizeAfter(batches + [b], limit, measure)
            == NextSize(SizeAfter(batches, limit, measure), limit, |b|, measure(b))
    ensures FilledButLast(batches + [b], limit, measure)
    ensures |b| == SizeAfter(batches, limit, measure) ==> Filled(batches + [b], limit, measure)
  {
    hide NextSize;
    var more := batches + [b];
    assert more[..|batches|] == batches;
    assert forall i | 0 <= i < |batches| :: more[..i] == batches[..i];
  }

  function Kept(rows: seq<SourceRow>, keep: SourceRow -> bool): seq<SourceRow> {
    if rows == [] then []
    else
      var last := rows[|rows| - 1];
      Kept(rows[..|rows| - 1], keep) + if keep(last) then [last] else []
  }

  function Joined(batches: seq<seq<SourceRow>>): seq<SourceRow> {
    if batches == [] then [] else Joined(batches[..|batches| - 1]) + batches[|batches| - 1]
  }

  lemma JoinedMore(batches: seq<seq<SourceRow>>, b: seq<SourceRow>)
    ensures Joined(batches + [b]) == Joined(batches) + b
  {
    assert (batches + [b])[..|batches|] == batches;
  }

  /** Calendar cursors lie in the years the library reads. */
  ghost predicate AllInCalendar(rows: seq<SourceRow>, domain: Domain, lib: Library) {
    forall i | 0 <= i < |rows| && rows[i].cursor.Some? :: InCalendar(domain, rows[i].cursor.value, lib)
  }

  /** `max` is the cursor of row `i`, and the rows before have smaller ones, blank ones or none. */
  ghost predicate FirstAt(max: string, rows: seq<SourceRow>, i: nat, domain: Domain, lib: Library)
    requires i < |rows|
  {
    && CursorOf(rows[i], domain, lib) == Some(max)
    && forall j | 0 <= j < i && CursorOf(rows[j], domain, lib).Some? ::
         CursorOf(rows[j], domain, lib).value == "" ||
             Compare(domain, CursorOf(rows[j], domain, lib).value, max, lib) < 0
  }

  /** `max` is the first cursor that none exceeds; "" when no row has a cursor, or only blank ones. */
  ghost predicate IsMax(max: string, rows: seq<SourceRow>, domain: Domain, lib: Library) {
    && (forall i | 0 <= i < |rows| && CursorOf(rows[i], domain, lib).Some? ::
          Readable(domain, max, lib) && Compare(domain, CursorOf(rows[i], domain, lib).value, max, lib) <= 0)
    && (max == "" ==>
          forall i | 0 <= i < |rows| && CursorOf(rows[i], domain, lib).Some? ::
              CursorOf(rows[i], domain, lib).value == "")
    && (max == "" || exists i | 0 <= i < |rows| :: FirstAt(max, rows, i, domain, lib))
  }

  /** The greater of the greatest cursor so far, "" at first, and a new one. */
  function Greater(max: string, c: string, domain: Domain, lib: Library): string {
    if max == "" || Compare(domain, max, c, lib) < 0 then c else max
  }

  /** One more row, compared as the loop does. */
  function NewMax(max: string, row: SourceRow, domain: Domain, lib: Library): string {
    var c := CursorOf(row, domain, lib);
    if c.Some? then Greater(max, c.value, domain, lib) else max
  }

  lemma GreaterIsGreatest(max: string, c: string, domain: Domain, lib: Library)
    requires TotalPreorder(domain, lib) && Readable(domain, c, lib) && (max == "" || Readable(domain, max, lib))
    ensures var next := Greater(max, c, domain, lib);
            && Readable(domain, next, lib)
            && Compare(domain, c, next, lib) <= 0
            && forall x | Readable(domain, x, lib) && Readable(domain, max, lib) && Compare(domain, x, max, lib) <= 0 ::
                 Compare(domain, x, next, lib) <= 0
  {
    hide Readable, Compare;
  }

  lemma CursorIsReadable(row: SourceRow, domain: Domain, lib: Library)
    requires LibraryOk(lib) && (row.cursor.Some? ==> InCalendar(domain, row.cursor.value, lib))
    ensures CursorOf(row, domain, lib).Some? ==> Readable(domain, CursorOf(row, domain, lib).value, lib)
  {
    hide LibraryOk, InCalendar, Readable, EncodeCursor;
    if row.cursor.Some? {
      EncodedIsReadable(domain, row.cursor.value, lib);
    }
  }

  lemma MaxMore(max: string, rows: seq<SourceRow>, row: SourceRow, domain: Domain, lib: Library)
    requires LibraryOk(lib) && IsMax(max, rows, domain, lib) && AllInCalendar(rows + [row], domain, lib)
    ensures IsMax(NewMax(max, row, domain, lib), rows + [row], domain, lib)
  {
    hide LibraryOk, InCalendar, Readable, Compare, EncodeCursor, TotalPreorder, Greater, CursorOf, FirstAt;
    DomainIsOrdered(domain, lib);
    var more, next, c := rows + [row], NewMax(max, row, domain, lib), CursorOf(row, domain, lib);
    assert more[|rows|] == row;
    assert forall i | 0 <= i < |rows| :: more[i] == rows[i];
    forall i | 0 <= i < |more|
      ensures CursorOf(more[i], domain, lib).Some? ==> Readable(domain, CursorOf(more[i], domain, lib).value, lib)
    {
      CursorIsReadable(more[i], domain, lib);
    }
    if max != "" {
      var k :| 0 <= k < |rows| && FirstAt(max, rows, k, domain, lib);
      FirstStays(max, rows, row, k, domain, lib);
    }
    if c.Some? {
      GreaterIsGreatest(max, c.value, domain, lib);
      GreaterIsOneOf(max, c.value, domain, lib);
      BlankIsLast(max, c.value, domain, lib);
      if next != "" && next != max {
        NewIsFirst(max, rows, row, domain, lib);
      }
    }
  }

  lemma FirstStays(max: string, rows: seq<SourceRow>, row: SourceRow, k: nat, domain: Domain, lib: Library)
    requires k < |rows| && FirstAt(max, rows, k, domain, lib)
    ensures FirstAt(max, rows + [row], k, domain, lib) && CursorOf(rows[k], domain, lib) == Some(max)
  {
    hide Compare, CursorOf;
    assert forall i | 0 <= i < |rows| :: (rows + [row])[i] == rows[i];
  }

  lemma BlankIsLast(max: string, c: string, domain: Domain, lib: Library)
    requires TotalPreorder(domain, lib) && Readable(domain, c, lib) && (max != "" ==> Readable(domain, max, lib))
    ensures Greater(max, c, domain, lib) == "" ==> max == "" && c == ""
  {
    hide Compare, Readable;
    assert max != "" && c == "" ==> Compare(domain, "", max, lib) <= 0;
    assert max != "" && c == "" ==> (Compare(domain, max, "", lib) < 0 <==> Compare(domain, "", max, lib) > 0);
  }

  lemma StrictlyBelow(x: string, max: string, c: string, domain: Domain, lib: Library)
    requires TotalPreorder(domain, lib) && Readable(domain, x, lib) && Readable(domain, max, lib)
    requires Readable(domain, c, lib)
    requires Compare(domain, x, max, lib) <= 0 && Compare(domain, max, c, lib) < 0
    ensures Compare(domain, x, c, lib) < 0
  {
    hide Compare, Readable;
    assert Compare(domain, c, max, lib) > 0;
    assert Compare(domain, c, x, lib) <= 0 ==> Compare(domain, c, max, lib) <= 0;
  }

  /** A cursor that replaces the greatest one is greater than all before it. */
  lemma NewIsFirst(max: string, rows: seq<SourceRow>, row: SourceRow, domain: Domain, lib: Library)
    requires TotalPreorder(domain, lib) && IsMax(max, rows, domain, lib)
    requires forall i | 0 <= i < |rows| && CursorOf(rows[i], domain, lib).Some? ::
               Readable(domain, CursorOf(rows[i], domain, lib).value, lib)
    requires CursorOf(row, domain, lib).Some? && Readable(domain, CursorOf(row, domain, lib).value, lib)
    requires NewMax(max, row, domain, lib) != max
    ensures FirstAt(NewMax(max, row, domain, lib), rows + [row], |rows|, domain, lib)
  {
    hide Compare, CursorOf, Readable;
    var more, c := rows + [row], CursorOf(row, domain, lib).value;
    assert more[|rows|] == row && NewMax(max, row, domain, lib) == c;
    forall j | 0 <= j < |rows| && CursorOf(more[j], domain, lib).Some?
      ensures CursorOf(more[j], domain, lib).value == "" ||
          Compare(domain, CursorOf(more[j], domain, lib).value, c, lib) < 0
    {
      assert more[j] == rows[j];
      if max != "" {
        StrictlyBelow(CursorOf(rows[j], domain, lib).value, max, c, domain, lib);
      }
    }
  }

  lemma GreaterIsOneOf(max: string, c: string, domain: Domain, lib: Library)
    ensures Greater(max, c, domain, lib) == c || (max != "" && Greater(max, c, domain, lib) == max)
  {
  }

  /** For int64 cursors the greatest text is that of the greatest integer. */
  lemma GreatestInteger(max: string, rows: seq<SourceRow>, lib: Library, i: nat)
    requires IsMax(max, rows, Int64, lib) && i < |rows| && CursorOf(rows[i], Int64, lib).Some?
    ensures ParseInt64(CursorOf(rows[i], Int64, lib).value).Some? && ParseInt64(max).Some?
    ensures ParseInt64(CursorOf(rows[i], Int64, lib).value).value <= ParseInt64(max).value
  {
    hide ParseInt64, FormatInt64;
    WrittenIntegerIsReadable(rows[i].cursor.value);
  }

  predicate SizesOk(batches: seq<seq<SourceRow>>, most: int) {
    forall i | 0 <= i < |batches| :: 1 <= |batches[i]| <= most
  }

  /**
   The loop. Batches handed over concatenate to the kept rows in order, each has
   between 1 and max(1000, limit) rows and all but the last are filled, the count is their total and the cursor
   is the greatest over kept rows. A row that does not convert, or a batch the
   receiver refuses, ends it early with the figures for the rows used.
   */
  method RowsToBatches(rows: seq<SourceRow>, batchSize: int, domain: Domain, lib: Library,
                       keep: SourceRow -> bool, measure: seq<SourceRow> -> nat, accepts: nat -> bool)
    returns (batches: seq<seq<SourceRow>>, total: nat, maxCursor: string, ok: bool, used: nat)
    requires LibraryOk(lib) && AllInCalendar(rows, domain, lib)
    ensures used <= |rows| && SizesOk(batches, Most(batchSize))
    ensures FilledButLast(batches, Limit(batchSize), measure)
    ensures used < |rows| ==> Filled(batches, Limit(batchSize), measure)
    ensures total == |Kept(rows[..used], keep)| && IsMax(maxCursor, Kept(rows[..used], keep), domain, lib)
    ensures ok ==> used == |rows| && Joined(batches) == Kept(rows, keep)
    ensures !ok ==> Joined(batches) <= Kept(rows[..used], keep)
    ensures !ok ==> (used < |rows| && keep(rows[used]) && !rows[used].converts)
                    || (batches != [] && !accepts(|batches| - 1) && Joined(batches) == Kept(rows[..used], keep))
  {
    hide LibraryOk, IsMax, NewMax, Kept, Joined, SizesOk, AllInCalendar, Filled, FilledButLast, SizeAfter,
        NextSize;
    var limit := Limit(batchSize);
    var size := if limit > FIRST_BATCH then FIRST_BATCH else limit;
    if size < MIN_BATCH {
      size := MIN_BATCH;
    }
    batches, total, maxCursor, used := [], 0, "", 0;
    var batch: seq<SourceRow> := [];
    NoRows(rows, keep, domain, lib, Most(batchSize));
    NoBatches(limit, measure);
    while used < |rows|
      invariant used <= |rows| && SizesOk(batches, Most(batchSize))
      invariant MIN_BATCH <= size <= Most(batchSize) && |batch| < size
      invariant size == SizeAfter(batches, limit, measure)
      invariant Filled(batches, limit, measure) && FilledButLast(batches, limit, measure)
      invariant Joined(batches) + batch == Kept(rows[..used], keep) && total == |Kept(rows[..used], keep)|
      invariant IsMax(maxCursor, Kept(rows[..used], keep), domain, lib)
    {
      var row := rows[used];
      KeptMore(rows, keep, used, domain, lib);
      if !keep(row) {
        used := used + 1;
        continue;
      }
      if !row.converts {
        return batches, total, maxCursor, false, used;
      }
      MaxMore(maxCursor, Kept(rows[..used], keep), row, domain, lib);
      maxCursor := NewMax(maxCursor, row, domain, lib);
      total := total + 1;
      batch := batch + [row];
      used := used + 1;
      if |batch| >= size {
        var next := NextSize(size, limit, |batch|, measure(batch));
        JoinedMore(batches, batch);
        SizesMore(batches, batch, Most(batchSize));
        FilledMore(batches, batch, limit, measure);
        batches := batches + [batch];
        if !accepts(|batches| - 1) {
          return batches, total, maxCursor, false, used;
        }
        size, batch := next, [];
      }
    }
    assert rows[..used] == rows;
    if |batch| > 0 {
      JoinedMore(batches, batch);
      SizesMore(batches, batch, Most(batchSize));
      FilledMore(batches, batch, limit, measure);
      batches := batches + [batch];
      if !accepts(|batches| - 1) {
        return batches, total, maxCursor, false, used;
      }
    }
    return batches, total, maxCursor, true, used;
  }

  lemma NoRows(rows: seq<SourceRow>, keep: SourceRow -> bool, domain: Domain, lib: Library, most: int)
    ensures Kept(rows[..0], keep) == [] && Joined([]) == [] && SizesOk([], most) && IsMax("", [], domain, lib)
  {
  }

  /** The first batch has the configured size, 50000 by default, but at most 10000 and at least 1000 rows. */
  lemma FirstBatchSize(batchSize: int, measure: seq<SourceRow> -> nat)
    ensures SizeAfter([], Limit(batchSize), measure) ==
            if batchSize <= 0 || batchSize > 10_000 then 10_000 else if batchSize < 1000 then 1000 else batchSize
    ensures Limit(batchSize) == if batchSize <= 0 then 50_000 else batchSize
  {
  }

  lemma NoBatches(limit: int, measure: seq<SourceRow> -> nat)
    ensures SizeAfter([], limit, measure) == FirstSize(limit) && Filled([], limit, measure) &&
        FilledButLast([], limit, measure)
  {
  }

  lemma SizesMore(batches: seq<seq<SourceRow>>, b: seq<SourceRow>, most: int)
    requires SizesOk(batches, most) && 1 <= |b| <= most
    ensures SizesOk(batches + [b], most)
  {
  }

  lemma KeptMore(rows: seq<SourceRow>, keep: SourceRow -> bool, n: nat, domain: Domain, lib: Library)
    requires n < |rows| && AllInCalendar(rows, domain, lib)
    ensures Kept(rows[..n + 1], keep) == Kept(rows[..n], keep) + if keep(rows[n]) then [rows[n]] else []
    ensures AllInCalendar(Kept(rows[..n], keep) + [rows[n]], domain, lib)
  {
    hide InCalendar;
    assert rows[..n + 1][..n] == rows[..n];
    KeptInCalendar(rows[..n], keep, domain, lib);
  }

  lemma {:induction false} KeptInCalendar(rows: seq<SourceRow>, keep: SourceRow -> bool, domain: Domain, lib: Library)
    requires AllInCalendar(rows, domain, lib)
    ensures AllInCalendar(Kept(rows, keep), domain, lib)
    decreases |rows|
  {
    hide InCalendar;
    if rows != [] {
      KeptInCalendar(rows[..|rows| - 1], keep, domain, lib);
    }
  }

  /** Integer and text cursors need no condition at all. */
  lemma OnlyCalendarsAreBounded(rows: seq<SourceRow>, domain: Domain, lib: Library)
    requires !domain.Date? && !domain.Timestamp?
    ensures AllInCalendar(rows, domain, lib)
  {
  }
}
