/** The tasks made from a split range, and the rows each of them reads. */
module CursorTasks {
  import opened Prelude
  import opened Trimming
  import opened DecimalText
  import opened CursorRange

  // ----- comparison and steps on cursor text -----

  /** Bytewise comparison: -1, 0 or 1. */
  function CompareText(a: string, b: string): int {
    if a == "" then (if b == "" then 0 else -1)
    else if b == "" then 1
    else if a[0] < b[0] then -1
    else if a[0] > b[0] then 1
    else CompareText(a[1..], b[1..])
  }

  function CompareInts(a: int, b: int): int { if a < b then -1 else if a > b then 1 else 0 }

  /** By value when both can be read, by text otherwise. */
  function CompareCursorValues(c: Codec, a: string, b: string): int {
    var x, y := c.parse(a), c.parse(b);
    if x.Some? && y.Some? then CompareInts(x.value, y.value) else CompareText(TrimSpace(a), TrimSpace(b))
  }

  function CursorSuccessor(c: Codec, text: string): Option<string> {
    if c.parse(text).None? then None else c.format(c.parse(text).value + 1)
  }

  // ----- the predicate of one task -----

  datatype CursorQuery = CursorQuery(where: string, lower: string, lowerExclusive: bool, upper: string,
      upperInclusive: bool, domain: Domain)

  datatype Op = Ge | Gt | Lt | Le

  datatype Clause = Filter(text: string) | Bound(op: Op, position: nat)

  /** Conjuncts in order; a bound refers to an argument by its position, counted from 1. */
  datatype RangeSQL = RangeSQL(clauses: seq<Clause>, args: seq<int>)

  datatype RangeError = DomainRequired | BadLower | BadUpper

  predicate Holds(op: Op, v: int, bound: int) {
    match op
    case Ge => v >= bound
    case Gt => v > bound
    case Lt => v < bound
    case Le => v <= bound
  }

  predicate ClauseHolds(r: RangeSQL, i: nat, v: int)
    requires i < |r.clauses|
  {
    match r.clauses[i]
    case Filter(_) => true
    case Bound(op, p) => 1 <= p <= |r.args| && Holds(op, v, r.args[p - 1])
  }

  /** The cursor value satisfies every bound. */
  predicate Admits(r: RangeSQL, v: int) { forall i | 0 <= i < |r.clauses| :: ClauseHolds(r, i, v) }

  /** Above the lower bound, if there is one. */
  predicate AboveLower(c: Codec, lower: string, exclusive: bool, v: int) {
    TrimSpace(lower) != "" ==>
        c.parse(lower).Some? && if exclusive then v > c.parse(lower).value else v >= c.parse(lower).value
  }

  predicate BelowUpper(c: Codec, upper: string, inclusive: bool, v: int) {
    TrimSpace(upper) != "" ==>
        c.parse(upper).Some? && if inclusive then v <= c.parse(upper).value else v < c.parse(upper).value
  }

  /** What the query asks for: the bounds that are given, with their inclusivity. */
  predicate InRange(c: Codec, q: CursorQuery, v: int) {
    AboveLower(c, q.lower, q.lowerExclusive, v) && BelowUpper(c, q.upper, q.upperInclusive, v)
  }

  predicate BoundReadable(c: Codec, bound: string) { TrimSpace(bound) != "" ==> c.parse(bound).Some? }

  method NewRangeSQL(c: Codec, q: CursorQuery) returns (r: Result<RangeSQL, RangeError>)
    ensures r.Ok? <==> !q.domain.Unknown? && BoundReadable(c, q.lower) && BoundReadable(c, q.upper)
    ensures r.Ok? ==> forall v :: Admits(r.value, v) <==> InRange(c, q, v)
    ensures r.Ok? && TrimSpace(q.where) != "" ==> |r.value.clauses| > 0 && r.value.clauses[0] == Filter(q.where)
  {
    hide TrimSpace, Admits;
    if q.domain.Unknown? {
      return Err(DomainRequired);
    }
    var sql := RangeSQL([], []);
    if TrimSpace(q.where) != "" {
      sql := RangeSQL([Filter(q.where)], []);
    }
    assert forall v :: Admits(sql, v) by {
      NoBounds(sql);
    }
    if TrimSpace(q.lower) != "" {
      if c.parse(q.lower).None? {
        return Err(BadLower);
      }
      sql := AddBound(sql, if q.lowerExclusive then Gt else Ge, c.parse(q.lower).value);
    }
    if TrimSpace(q.upper) != "" {
      if c.parse(q.upper).None? {
        return Err(BadUpper);
      }
      sql := AddBound(sql, if q.upperInclusive then Le else Lt, c.parse(q.upper).value);
    }
    return Ok(sql);
  }

  lemma NoBounds(r: RangeSQL)
    requires forall i | 0 <= i < |r.clauses| :: r.clauses[i].Filter?
    ensures forall v :: Admits(r, v)
  {
  }

  predicate PositionsOk(r: RangeSQL) {
    forall i | 0 <= i < |r.clauses| && r.clauses[i].Bound? :: 1 <= r.clauses[i].position <= |r.args|
  }

  /** Appends the argument and a bound that refers to it. */
  function AddBound(r: RangeSQL, op: Op, x: int): (r': RangeSQL)
    requires PositionsOk(r)
    ensures PositionsOk(r') && |r'.clauses| == |r.clauses| + 1 && r.clauses <= r'.clauses
    ensures forall v :: Admits(r', v) <==> Admits(r, v) && Holds(op, v, x)
  {
    var r' := RangeSQL(r.clauses + [Bound(op, |r.args| + 1)], r.args + [x]);
    assert forall i, v | 0 <= i < |r.clauses| :: ClauseHolds(r', i, v) <==> ClauseHolds(r, i, v);
    assert forall v :: ClauseHolds(r', |r.clauses|, v) <==> Holds(op, v, x);
    r'
  }

  // ----- tiling -----

  /** The piece of a split that holds `v`. */
  lemma {:induction false} PieceOf(start: int, end: int, b: seq<int>, v: int, k: nat) returns (i: nat)
    requires Increasing(start, end, b) && start <= v && k < |b| && v <= b[k]
    ensures i <= k && Lower(start, b, i) <= v <= b[i]
  {
    if k == 0 || v > b[k - 1] {
      i := k;
    } else {
      i := PieceOf(start, end, b, v, k - 1);
    }
  }

  /** Task `i` reads from the previous bound, exclusive, to its own, inclusive. */
  predicate Chained(qs: seq<CursorQuery>, uppers: seq<string>, lower: string, exclusive: bool) {
    |qs| == |uppers| && forall i | 0 <= i < |qs| ::
      && qs[i].upper == uppers[i]
      && qs[i].upperInclusive
      && qs[i].lower == From(uppers, lower, i)
      && qs[i].lowerExclusive == (i > 0 || exclusive)
  }

  /** Where task `i` starts. */
  function From(uppers: seq<string>, lower: string, i: nat): string
    requires i <= |uppers|
  {
    if i == 0 then lower else uppers[i - 1]
  }

  lemma NothingChained(uppers: seq<string>, lower: string, exclusive: bool)
    ensures Chained([], uppers[..0], lower, exclusive)
  {
  }

  lemma ChainedMore(qs: seq<CursorQuery>, uppers: seq<string>, n: nat, lower: string, exclusive: bool, q: CursorQuery)
    requires n < |uppers| && Chained(qs, uppers[..n], lower, exclusive)
    requires q.upper == uppers[n] && q.upperInclusive
    requires q.lower == From(uppers, lower, n) && q.lowerExclusive == (n > 0 || exclusive)
    ensures Chained(qs + [q], uppers[..n + 1], lower, exclusive)
  {
    var few, more, all := uppers[..n], qs + [q], uppers[..n + 1];
    forall k | 0 <= k < |more|
      ensures more[k].upper == all[k] && more[k].upperInclusive
      ensures more[k].lower == From(all, lower, k) && more[k].lowerExclusive == (k > 0 || exclusive)
    {
      if k < n {
        assert more[k] == qs[k] && all[k] == few[k];
        assert From(all, lower, k) == From(few, lower, k);
      }
    }
  }

  /** Every value the plan is for: above the lower bound, if there is one, up to the maximum. */
  predicate Planned(c: Codec, lower: string, exclusive: bool, max: string, v: int) {
    AboveLower(c, lower, exclusive, v) && c.parse(max).Some? && v <= c.parse(max).value
  }

  predicate ReadBy(c: Codec, qs: seq<CursorQuery>, v: int, i: nat) { i < |qs| && InRange(c, qs[i], v) }

  /** Each planned value is read by exactly one task, and no other value is read at all. */
  ghost predicate Tiles(c: Codec, qs: seq<CursorQuery>, lower: string, exclusive: bool, max: string) {
    && (forall v :: Planned(c, lower, exclusive, max, v) <==> exists i: nat :: ReadBy(c, qs, v, i))
    && (forall v, i: nat, j: nat :: ReadBy(c, qs, v, i) && ReadBy(c, qs, v, j) ==> i == j)
  }

  lemma NonBlank(c: Codec, s: string)
    requires c.parse("").None? && Lawful(c) && c.parse(s).Some?
    ensures TrimSpace(s) != ""
  {
    hide TrimSpace;
    assert c.parse(TrimSpace(s)) == c.parse(s);
  }

  /** What one chained task reads, in terms of the bounds. */
  lemma TaskReads(c: Codec, qs: seq<CursorQuery>, uppers: seq<string>, b: seq<int>, lower: string,
      exclusive: bool, i: nat, v: int)
    requires Lawful(c) && c.parse("").None? && ParsesTo(c, uppers, b) && Chained(qs, uppers, lower, exclusive) &&
        i < |qs|
    ensures i > 0 ==> (ReadBy(c, qs, v, i) <==> b[i - 1] < v <= b[i])
    ensures i == 0 ==> (ReadBy(c, qs, v, 0) <==> v <= b[0] && AboveLower(c, lower, exclusive, v))
  {
    hide TrimSpace, Lawful;
    assert qs[i].upper == uppers[i];
    assert c.parse(uppers[i]) == Some(b[i]);
    NonBlank(c, uppers[i]);
    if i > 0 {
      assert c.parse(uppers[i - 1]) == Some(b[i - 1]);
      NonBlank(c, uppers[i - 1]);
    }
  }

  lemma ReadOnce(c: Codec, qs: seq<CursorQuery>, uppers: seq<string>, b: seq<int>, lower: string,
      exclusive: bool, start: int, end: int,
                 v: int, i: nat, j: nat)
    requires Lawful(c) && c.parse("").None? && ParsesTo(c, uppers, b) && Chained(qs, uppers, lower, exclusive)
    requires Increasing(start, end, b) && i < |qs| && ReadBy(c, qs, v, i) && ReadBy(c, qs, v, j)
    ensures i >= j
  {
    hide TrimSpace, Lawful, InRange, ReadBy, Chained, ParsesTo, AboveLower;
    ReadRange(c, qs, v, j);
    SameLength(c, qs, uppers, b, lower, exclusive);
    TaskReads(c, qs, uppers, b, lower, exclusive, i, v);
    TaskReads(c, qs, uppers, b, lower, exclusive, j, v);
  }

  lemma SameLength(c: Codec, qs: seq<CursorQuery>, uppers: seq<string>, b: seq<int>, lower: string, exclusive: bool)
    requires ParsesTo(c, uppers, b) && Chained(qs, uppers, lower, exclusive)
    ensures |qs| == |uppers| == |b|
  {
  }

  lemma PlannedIsRead(c: Codec, qs: seq<CursorQuery>, uppers: seq<string>, b: seq<int>, lower: string,
      exclusive: bool, start: int, max: string, v: int)
    requires Lawful(c) && c.parse("").None? && ParsesTo(c, uppers, b) && Chained(qs, uppers, lower, exclusive)
    requires c.parse(max).Some? && Increasing(start, c.parse(max).value, b)
    requires TrimSpace(lower) != "" ==>
        c.parse(lower).Some? && start == c.parse(lower).value + if exclusive then 1 else 0
    ensures Planned(c, lower, exclusive, max, v) <==> exists i: nat :: ReadBy(c, qs, v, i)
  {
    hide TrimSpace, Lawful, InRange, ReadBy, Chained, ParsesTo;
    var end := c.parse(max).value;
    SameLength(c, qs, uppers, b, lower, exclusive);
    if Planned(c, lower, exclusive, max, v) {
      if v <= b[0] {
        TaskReads(c, qs, uppers, b, lower, exclusive, 0, v);
        assert ReadBy(c, qs, v, 0);
      } else {
        var i := PieceOf(start, end, b, v, |b| - 1);
        TaskReads(c, qs, uppers, b, lower, exclusive, i, v);
        assert ReadBy(c, qs, v, i);
      }
    }
    if i: nat :| ReadBy(c, qs, v, i) {
      ReadRange(c, qs, v, i);
      TaskReads(c, qs, uppers, b, lower, exclusive, i, v);
      assert b[i] <= end;
      assert i > 0 ==> b[0] <= b[i - 1];
    }
  }

  /** The chained pieces of a good split tile the planned range. */
  lemma ChainTiles(c: Codec, qs: seq<CursorQuery>, uppers: seq<string>, b: seq<int>, lower: string,
      exclusive: bool, start: int, max: string)
    requires Lawful(c) && c.parse("").None? && ParsesTo(c, uppers, b) && Chained(qs, uppers, lower, exclusive)
    requires c.parse(max).Some? && Increasing(start, c.parse(max).value, b)
    requires TrimSpace(lower) != "" ==>
        c.parse(lower).Some? && start == c.parse(lower).value + if exclusive then 1 else 0
    ensures Tiles(c, qs, lower, exclusive, max)
  {
    hide TrimSpace, Lawful, ReadBy, Planned, Chained, ParsesTo, Increasing;
    forall v, i: nat, j: nat | ReadBy(c, qs, v, i) && ReadBy(c, qs, v, j)
      ensures i == j
    {
      ReadRange(c, qs, v, i);
      ReadRange(c, qs, v, j);
      ReadOnce(c, qs, uppers, b, lower, exclusive, start, c.parse(max).value, v, i, j);
      ReadOnce(c, qs, uppers, b, lower, exclusive, start, c.parse(max).value, v, j, i);
    }
    forall v
      ensures Planned(c, lower, exclusive, max, v) <==> exists i: nat :: ReadBy(c, qs, v, i)
    {
      PlannedIsRead(c, qs, uppers, b, lower, exclusive, start, max, v);
    }
  }

  lemma ReadRange(c: Codec, qs: seq<CursorQuery>, v: int, i: nat)
    requires ReadBy(c, qs, v, i)
    ensures i < |qs|
  {
  }

  // ----- the planner -----

  /** Where the plan starts, None when the bound has no successor that can be written. */
  function StartText(c: Codec, lower: string, exclusive: bool, min: string): Option<string> {
    if TrimSpace(lower) == "" then Some(TrimSpace(min))
    else if exclusive then CursorSuccessor(c, TrimSpace(lower))
    else Some(TrimSpace(lower))
  }

  predicate BoundsReadable(c: Codec, lower: string, max: string) {
    TrimSpace(lower) != "" && c.parse(lower).Some? && c.parse(max).Some?
  }

  predicate HasRange(min: string, max: string) { TrimSpace(min) != "" && TrimSpace(max) != "" }

  /**
   Plans (lower, max] or [lower, max], or everything up to max without a lower
   bound. The tasks tile that range; no task at all means it holds no value.
   */
  method PlanCursorTasks(c: Codec, domain: Domain, where: string, lowerText: string, exclusive: bool,
      minText: string, maxText: string, parts: int)
    returns (r: Result<seq<CursorQuery>, SplitError>)
    requires Lawful(c) && c.parse("").None? && domain.Splits()
    ensures r.Ok? && r.value != [] ==>
        Tiles(c, r.value, lowerText, exclusive, maxText) && |r.value| <= (if parts <= 1 then 1 else parts)
    ensures r.Err? ==>
              var start := StartText(c, lowerText, exclusive, minText);
              HasRange(minText, maxText) && start.Some? && (c.parse(start.value).None? || c.parse(maxText).None?)
    ensures HasRange(minText, maxText) && c.parse(maxText).Some? ==>
              var start := StartText(c, lowerText, exclusive, minText);
              start.Some? && c.parse(start.value).Some? ==>
                (r == Ok([]) <==> c.parse(start.value).value > c.parse(maxText).value)
    ensures !HasRange(minText, maxText) || StartText(c, lowerText, exclusive, minText).None? ==> r == Ok([])
    ensures r == Ok([]) && HasRange(minText, maxText) && BoundsReadable(c, lowerText, maxText) ==>
              || (forall v :: !Planned(c, lowerText, exclusive, maxText, v))
              || (exclusive && !Writes(c, c.parse(lowerText).value + 1))
  {
    hide TrimSpace, Tiles, InRange, Lawful, Chained, CompareText;
    var max, min := TrimSpace(maxText), TrimSpace(minText);
    if max == "" || min == "" {
      BlankIsNotRead(c, maxText);
      return Ok([]);
    }
    var lower := TrimSpace(lowerText);
    Trimmed(c, lowerText);
    Trimmed(c, maxText);
    var start := min;
    if lower != "" {
      start := lower;
      if exclusive {
        var next := CursorSuccessor(c, lower);
        if next.None? {
          return Ok([]);
        }
        start := next.value;
        if c.parse(lower).Some? {
          SuccessorParses(c, lower);
        }
      }
    }
    if start == "" || CompareCursorValues(c, start, max) > 0 {
      StartIsReadable(c, start);
      return Ok([]);
    }
    var uppers, bounds := SplitCursorRange(c, domain, start, max, parts);
    if uppers.Err? {
      return Err(uppers.error);
    }
    var qs := [];
    NothingChained(uppers.value, lower, exclusive);
    var from, open := lower, exclusive;
    for i := 0 to |uppers.value|
      invariant |qs| == i
      invariant from == (if i == 0 then lower else uppers.value[i - 1]) && open == (i > 0 || exclusive)
      invariant Chained(qs, uppers.value[..i], lower, exclusive)
    {
      var q := CursorQuery(where, from, open, uppers.value[i], true, domain);
      ChainedMore(qs, uppers.value, i, lower, exclusive, q);
      qs := qs + [q];
      from, open := uppers.value[i], true;
    }
    assert uppers.value[..|uppers.value|] == uppers.value;
    ChainTiles(c, qs, uppers.value, bounds, lower, exclusive, c.parse(start).value, max);
    TilesTrimmed(c, qs, lowerText, exclusive, maxText);
    return Ok(qs);
  }

  lemma BlankIsNotRead(c: Codec, s: string)
    requires Lawful(c) && c.parse("").None?
    ensures TrimSpace(s) == "" ==> c.parse(s).None?
  {
    hide TrimSpace;
    assert c.parse(TrimSpace(s)) == c.parse(s);
  }

  lemma Trimmed(c: Codec, s: string)
    requires Lawful(c)
    ensures c.parse(TrimSpace(s)) == c.parse(s) && TrimSpace(TrimSpace(s)) == TrimSpace(s)
  {
    hide TrimSpace;
    TrimTwice(s);
  }

  lemma SuccessorParses(c: Codec, s: string)
    requires Lawful(c) && c.parse(s).Some? && CursorSuccessor(c, s).Some?
    ensures var next := c.parse(CursorSuccessor(c, s).value);
            if next.Some? then next.value == c.parse(s).value + 1 else !Writes(c, c.parse(s).value + 1)
  {
  }

  lemma StartIsReadable(c: Codec, s: string)
    requires Lawful(c) && c.parse("").None?
    ensures s == "" ==> c.parse(s).None?
  {
  }

  lemma TilesTrimmed(c: Codec, qs: seq<CursorQuery>, lower: string, exclusive: bool, max: string)
    requires Lawful(c) && Tiles(c, qs, TrimSpace(lower), exclusive, TrimSpace(max))
    ensures Tiles(c, qs, lower, exclusive, max)
  {
    hide TrimSpace, ReadBy, Lawful;
    Trimmed(c, lower);
    Trimmed(c, max);
    forall v
      ensures Planned(c, lower, exclusive, max, v) <==> Planned(c, TrimSpace(lower), exclusive, TrimSpace(max), v)
    {
    }
  }

  // ----- look-back -----

  datatype LookbackError = BadLookback

  function Max(a: int, b: int): int { if a >= b then a else b }

  /** `units` before an int64 high-water mark, stopping at the smallest int64. */
  function LookbackInt64(hwm: string, units: string): (r: Result<string, LookbackError>)
    ensures var n, v := ReadInt(TrimSpace(units), INT64_MIN, INT64_MAX), ParseInt64(hwm);
            && (r.Ok? <==> n.Some? && n.value > 0 && v.Some?)
            && (r.Ok? ==> ParseInt64(r.value) == Some(Max(INT64_MIN, v.value - n.value)))
  {
    var n, v := ReadInt(TrimSpace(units), INT64_MIN, INT64_MAX), ParseInt64(hwm);
    if n.None? || n.value <= 0 || v.None? then Err(BadLookback)
    else
      var start := if v.value < INT64_MIN + n.value then INT64_MIN else v.value - n.value;
      Int64Text(start);
      Ok(Decimal(start))
  }

  /** The same for uint64, stopping at zero. */
  function LookbackUint64(hwm: string, units: string): (r: Result<string, LookbackError>)
    ensures var n, v := ReadUint(TrimSpace(units), UINT64_MAX), ParseUint64(hwm);
            && (r.Ok? <==> n.Some? && n.value > 0 && v.Some?)
            && (r.Ok? ==> ParseUint64(r.value) == Some(Max(0, v.value - n.value)))
  {
    var n, v := ReadUint(TrimSpace(units), UINT64_MAX), ParseUint64(hwm);
    if n.None? || n.value == 0 || v.None? then Err(BadLookback)
    else
      var start := if v.value < n.value then 0 else v.value - n.value;
      Uint64Text(start);
      Ok(Decimal(start))
  }
}
