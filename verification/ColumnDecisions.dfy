/** Which type a column gets, case by case. */
module ColumnDecisions {
  import opened Prelude
  import opened DecimalText
  import opened ColumnResolution

  // ----- what is read -----

  /** Some value of the source type is too large or too small for the request. */
  ghost predicate SomeOutgrows(source: Type, req: Type)
    requires WellFormed(source) && WellFormed(req)
  {
    exists v :: Represents(source, v) && !InSize(req, v)
  }

  /**
   The range is read where the source type says nothing about it, for an integer
   taken from a decimal, for uint64, and where the source type has values that
   the request cannot hold.
   */
  ghost predicate ReadsRange(source: Type, req: Type)
    requires WellFormed(source) && WellFormed(req)
  {
    || req == Integer(UInt64)
    || (source.Float? && ExactRequest(req))
    || (source.Unconstrained? && ExactRequest(req))
    || (source.Decimal? && req.Integer?)
    || (source.Integer? && ExactRequest(req) && SomeOutgrows(source, req))
    || (source.Decimal? && req.Decimal? && SomeOutgrows(source, req))
  }

  predicate ReadsFractions(source: Type, req: Type) {
    || (req.Integer? && (source.Float? || source.Unconstrained? || (source.Decimal? && source.scale > 0)))
    || (req.Decimal? && source.Unconstrained?)
  }

  /** A number with n digits is at least 10^(n-1). */
  lemma {:induction false} DigitsLow(n: nat)
    requires n > 0
    ensures Pow10(|Digits(n)| - 1) <= n
  {
    if n >= 10 {
      DigitsLow(n / 10);
      var d := Digits(n / 10);
      assert |Digits(n)| == |d| + 1;
      assert Pow10(|d|) == 10 * Pow10(|d| - 1);
    }
  }

  lemma KindEnds(k: IntKind)
    ensures k.Lo() <= 0 < k.Hi()
    ensures Represents(Integer(k), k.Lo() as real) && Represents(Integer(k), k.Hi() as real)
  {
  }

  lemma IntegerOutgrowsInteger(a: IntKind, b: IntKind)
    ensures KindFits(a, b) <==> !SomeOutgrows(Integer(a), Integer(b))
  {
    KindEnds(a);
    if KindFits(a, b) {
      forall v | Represents(Integer(a), v)
        ensures InSize(Integer(b), v)
      {
        BoundsOrder(a, b, v);
      }
    } else {
      assert !InSize(Integer(b), a.Lo() as real) || !InSize(Integer(b), a.Hi() as real);
    }
  }

  lemma IntegerOutgrowsDecimal(k: IntKind, t: Type)
    requires WellFormed(t) && t.Decimal?
    ensures IntegerDigits(k) > t.precision - t.scale <==> SomeOutgrows(Integer(k), t)
  {
    hide Pow10, Digits;
    KindEnds(k);
    var room := t.precision - t.scale;
    if IntegerDigits(k) <= room {
      forall v | Represents(Integer(k), v)
        ensures InSize(t, v)
      {
        KindBelowLimit(k, room, v);
      }
    } else {
      LongestEnd(k, room);
      assert !InSize(t, k.Lo() as real) || !InSize(t, k.Hi() as real);
    }
  }

  lemma LongestEnd(k: IntKind, room: nat)
    requires IntegerDigits(k) > room
    ensures Magnitude(k.Lo()) >= Pow10(room) || Magnitude(k.Hi()) >= Pow10(room)
  {
    hide IntKind.Lo, IntKind.Hi, Pow10;
    KindEnds(k);
    var lo, hi := Magnitude(k.Lo()), Magnitude(k.Hi());
    if |Digits(lo)| > room && lo > 0 {
      DigitsLow(lo);
      Pow10Grows(room, |Digits(lo)| - 1);
    }
    if |Digits(hi)| > room {
      DigitsLow(hi);
      Pow10Grows(room, |Digits(hi)| - 1);
    }
    assert |Digits(0)| == 1;
    PowZero();
    if lo == 0 {
      DigitsLow(hi);
      assert |Digits(hi)| >= 1;
      Pow10Grows(0, |Digits(hi)| - 1);
    }
  }

  lemma PowZero()
    ensures Pow10(0) == 1
  {
  }

  lemma DecimalOutgrowsDecimal(a: Type, b: Type)
    requires WellFormed(a) && WellFormed(b) && a.Decimal? && b.Decimal?
    ensures a.precision - a.scale > b.precision - b.scale <==> SomeOutgrows(a, b)
  {
    hide Pow10, HasScale;
    var big, room := a.precision - a.scale, b.precision - b.scale;
    if big <= room {
      Pow10Grows(big, room);
      assert forall v | Represents(a, v) :: InSize(b, v);
    } else {
      var v := Pow10(room) as real;
      WholeHasScale(v, a.scale);
      Pow10Grows(room + 1, big);
      PowNext(room);
      assert Represents(a, v) && !InSize(b, v);
    }
  }

  lemma PowNext(n: nat)
    ensures 0 < Pow10(n) < Pow10(n + 1)
  {
    Pow10Grows(0, n);
  }

  /** What is probed is exactly this. */
  lemma ProbedIff(source: Type, req: Type)
    requires WellFormed(source) && WellFormed(req)
    ensures Probe(source, req).range <==> ReadsRange(source, req)
    ensures Probe(source, req).fraction <==> ReadsFractions(source, req)
  {
    hide SomeOutgrows, KindFits, IntegerDigits;
    if source.Integer? && req.Integer? {
      IntegerOutgrowsInteger(source.kind, req.kind);
    } else if source.Integer? && req.Decimal? {
      IntegerOutgrowsDecimal(source.kind, req);
    } else if source.Decimal? && req.Decimal? {
      DecimalOutgrowsDecimal(source, req);
    }
  }

  // ----- what is used -----

  /** Both ends of the range of values are in size. */
  predicate Within(t: Type, min: real, max: real)
    requires WellFormed(t)
  {
    InSize(t, min) && InSize(t, max)
  }

  lemma WithinIff(t: Type, min: real, max: real)
    requires WellFormed(t) && min <= max
    ensures FitsLogical(t, min, max) <==> Within(t, min, max)
  {
    hide Pow10;
  }

  /** `t'` has the decimal places of the source as well, where 38 digits are enough, and no fewer integer digits. */
  predicate Adjusted(source: Type, t: Type, t': Type) {
    if source.Decimal? && t.Decimal? && source.scale > t.scale && t.precision + source.scale - t.scale <= 38 then
      && t'.Decimal?
      && t'.scale == source.scale
      && t'.precision - t'.scale == t.precision - t.scale
    else t' == t
  }

  /**
   The type used for a choice: uint64 becomes int64 when no value is above its greatest,
   others keep source places.
   */
  predicate UsedFor(source: Type, chosen: Type, st: Stats, t: Type) {
    if chosen == Integer(UInt64) then
      if st.Known? && (st.facts.bounds.None?
                       || (-0x8000_0000_0000_0000 as real <= st.facts.bounds.value.0
                           && st.facts.bounds.value.1 <= 0x7FFF_FFFF_FFFF_FFFF as real))
      then t == Integer(Int64) else t == Integer(UInt64)
    else Adjusted(source, chosen, t)
  }

  lemma UsedForChosen(source: Type, chosen: Type, st: Stats)
    requires WellFormed(source) && WellFormed(chosen)
    ensures UsedFor(source, chosen, st, NarrowUint64(WidenScale(source, chosen), st))
  {
  }

  /** The facts are of at least one value, and in order. */
  predicate Valued(st: Stats) {
    st.Known? && st.facts.bounds.Some? && st.facts.bounds.value.0 <= st.facts.bounds.value.1
  }

  /**
   The request is honoured when nothing has to be read, when the source cannot be
   read at all, when there is no value, and when every value fits it and no
   fraction is lost.
   */
  lemma FittingRequestIsUsed(source: Type, req: Type, st: Stats)
    requires WellFormed(source) && WellFormed(req)
    requires || (!ReadsRange(source, req) && !ReadsFractions(source, req))
             || st.Unsupported?
             || (st.Known? && st.facts.bounds.None?)
             || (&& Valued(st)
                 && Within(req, st.facts.bounds.value.0, st.facts.bounds.value.1)
                 && (ReadsFractions(source, req) ==> st.facts.fractions == 0))
    ensures ResolveOverride(source, req, st).Use? && UsedFor(source, req, st, ResolveOverride(source, req, st).t)
  {
    hide ReadsRange, ReadsFractions, Within, UsedFor, FitsLogical, Fallback, NarrowUint64, WidenScale, Probe;
    ProbedIff(source, req);
    UsedForChosen(source, req, st);
    if Valued(st) {
      WithinIff(req, st.facts.bounds.value.0, st.facts.bounds.value.1);
    }
  }

  /** No wider type holds the range either. */
  predicate NoneHolds(req: Type, min: real, max: real)
    requires WellFormed(req)
  {
    match req
    case Integer(k) =>
      && (k in {UInt8, UInt16, UInt32, UInt64} && min >= 0.0 ==>
            forall j | j in {UInt8, UInt16, UInt32, UInt64} :: !Within(Integer(j), min, max))
      && (k in {Int8, Int16, Int32, Int64} || min < 0.0 ==>
            forall j | j in {Int8, Int16, Int32, Int64} :: !Within(Integer(j), min, max))
      && !Within(Decimal(38, 0), min, max)
    case Decimal(p, s) => forall q | p < q <= 38 :: !Within(Decimal(q, s), min, max)
    case _ => true
  }

  lemma NoFallbackIff(req: Type, min: real, max: real)
    requires WellFormed(req) && min <= max
    ensures Fallback(req, min, max).None? <==> NoneHolds(req, min, max)
  {
    hide FitsLogical, Within;
    forall t | WellFormed(t)
      ensures FitsLogical(t, min, max) <==> Within(t, min, max)
    {
      WithinIff(t, min, max);
    }
    match req
    case Integer(k) =>
      var cs := Candidates(k, min);
      NoIntegerIff(cs, min, max);
      assert forall j :: j in UNSIGNED <==> j in {UInt8, UInt16, UInt32, UInt64};
      assert forall j :: j in SIGNED <==> j in {Int8, Int16, Int32, Int64};
    case Decimal(p, s) => LeastDecimal(p + 1, s, min, max);
    case _ =>
  }

  lemma {:induction false} NoIntegerIff(cs: seq<IntKind>, min: real, max: real)
    ensures FallbackInt(cs, min, max).None? <==>
            (forall k | k in cs :: !FitsLogical(Integer(k), min, max)) && !FitsLogical(Decimal(38, 0), min, max)
    decreases |cs|
  {
    hide FitsLogical;
    if cs != [] {
      NoIntegerIff(cs[1..], min, max);
      assert forall k :: k in cs <==> k == cs[0] || k in cs[1..];
    }
  }

  /**
   The source type is kept if and only if something had to be read and either
   could not be, or showed a fraction, or showed a range that neither the request
   nor any wider type holds.
   */
  lemma SourceIsKeptIff(source: Type, req: Type, st: Stats)
    requires WellFormed(source) && WellFormed(req)
    requires st.Known? && st.facts.bounds.Some? ==> Valued(st)
    ensures ResolveOverride(source, req, st).KeepSource? <==>
            && (ReadsRange(source, req) || ReadsFractions(source, req))
            && (|| st.Unread?
                || (&& Valued(st)
                    && (|| (ReadsFractions(source, req) && st.facts.fractions > 0)
                        || (&& !Within(req, st.facts.bounds.value.0, st.facts.bounds.value.1)
                            && NoneHolds(req, st.facts.bounds.value.0, st.facts.bounds.value.1)))))
  {
    hide ReadsRange, ReadsFractions, Within, NoneHolds, FitsLogical, Fallback, NarrowUint64, WidenScale, Probe;
    ProbedIff(source, req);
    if Valued(st) {
      WithinIff(req, st.facts.bounds.value.0, st.facts.bounds.value.1);
      NoFallbackIff(req, st.facts.bounds.value.0, st.facts.bounds.value.1);
    }
  }

  /** The first of the four kinds of the request's sign, or decimal(38,0); the least larger precision of a decimal. */
  predicate FirstWider(req: Type, min: real, max: real, t: Type)
    requires WellFormed(req)
  {
    && WellFormed(t)
    && Within(t, min, max)
    && match req
       case Integer(k) =>
         if k in {UInt8, UInt16, UInt32, UInt64} && min >= 0.0
         then FirstOf([UInt8, UInt16, UInt32, UInt64], min, max, t)
         else FirstOf([Int8, Int16, Int32, Int64], min, max, t)
       case Decimal(p, s) =>
         && t.Decimal? && t.scale == s && p < t.precision <= 38
         && forall q | p < q < t.precision :: !Within(Decimal(q, s), min, max)
       case _ => false
  }

  predicate FirstOf(cs: seq<IntKind>, min: real, max: real, t: Type) {
    || (exists i | 0 <= i < |cs| :: t == Integer(cs[i]) && forall j | 0 <= j < i :: !Within(Integer(cs[j]), min, max))
    || (t == Decimal(38, 0) && forall j | 0 <= j < |cs| :: !Within(Integer(cs[j]), min, max))
  }

  lemma FallbackIsFirstWider(req: Type, min: real, max: real)
    requires WellFormed(req) && min <= max && Fallback(req, min, max).Some?
    ensures FirstWider(req, min, max, Fallback(req, min, max).value)
  {
    hide FitsLogical, Within;
    forall t | WellFormed(t)
      ensures FitsLogical(t, min, max) <==> Within(t, min, max)
    {
      WithinIff(t, min, max);
    }
    FallbackFits(req, min, max);
    match req
    case Integer(k) => FirstInteger(Candidates(k, min), min, max);
    case Decimal(p, s) => LeastDecimal(p + 1, s, min, max);
    case _ =>
  }

  /** Otherwise the type used is that of the first wider one that holds the values. */
  lemma OtherwiseFirstWider(source: Type, req: Type, st: Stats) returns (wider: Type)
    requires WellFormed(source) && WellFormed(req) && Valued(st)
    requires ReadsRange(source, req) || ReadsFractions(source, req)
    requires ReadsFractions(source, req) ==> st.facts.fractions == 0
    requires !Within(req, st.facts.bounds.value.0, st.facts.bounds.value.1)
    requires !NoneHolds(req, st.facts.bounds.value.0, st.facts.bounds.value.1)
    ensures FirstWider(req, st.facts.bounds.value.0, st.facts.bounds.value.1, wider)
    ensures ResolveOverride(source, req, st).Use? && UsedFor(source, wider, st, ResolveOverride(source, req, st).t)
  {
    hide ReadsRange, ReadsFractions, Within, NoneHolds, FitsLogical, Fallback, NarrowUint64, WidenScale, Probe,
        FirstWider, UsedFor;
    var min, max := st.facts.bounds.value.0, st.facts.bounds.value.1;
    ProbedIff(source, req);
    WithinIff(req, min, max);
    NoFallbackIff(req, min, max);
    FallbackIsFirstWider(req, min, max);
    FallbackFits(req, min, max);
    wider := Fallback(req, min, max).value;
    UsedForChosen(source, wider, st);
  }

  /** An int64 column of small values that is to be int32 becomes int32. */
  lemma SmallValuesAreNarrowed()
    ensures ResolveOverride(Integer(Int64), Integer(Int32), Known(Facts(Some((0.0, 10.0)), 0))) == Use(Integer(Int32))
  {
    FittingRequestIsUsed(Integer(Int64), Integer(Int32), Known(Facts(Some((0.0, 10.0)), 0)));
  }

  /** Each width is the square of the one before, and a signed kind is the unsigned one shifted by half. */
  lemma KindRanges()
    ensures UInt8.Hi() == 255
    ensures UInt16.Hi() + 1 == (UInt8.Hi() + 1) * (UInt8.Hi() + 1)
    ensures UInt32.Hi() + 1 == (UInt16.Hi() + 1) * (UInt16.Hi() + 1)
    ensures UInt64.Hi() + 1 == (UInt32.Hi() + 1) * (UInt32.Hi() + 1)
    ensures forall u | u in UNSIGNED ::
              u.Lo() == 0 && 2 * SignedOf(u).Lo() == -(u.Hi() + 1) && SignedOf(u).Hi() == u.Hi() + SignedOf(u).Lo()
  {
  }

  // ----- entries -----

  /** A column with an override may be NULL if that was asked, or if it may hold NULLs and none were ruled out. */
  lemma NullableIff(r: Resolution, stats: map<string, ColumnStats>, failure: Option<Stats>)
    requires WellFormed(r.source) && r.requested.Some? && WellFormed(r.requested.value)
    ensures var d := Decide(r, stats, failure);
            && d.Some?
            && d.value.choice == ResolveOverride(r.source, r.requested.value, StatsOf(r.column, stats, failure))
            && (d.value.nullable <==>
                  || r.nullable
                  || (&& !r.knownNotNull
                      && r.reported != Some(false)
                      && (failure.Some? || r.column !in stats || stats[r.column].nullCount > 0)))
  {
    hide ResolveOverride;
  }

  /**
   A column without an override has an entry if and only if it is a uint64 column
   whose values were read and fit int64, or the catalog knows it to be NOT NULL.
   */
  lemma DefaultEntryIff(r: Resolution, stats: map<string, ColumnStats>, failure: Option<Stats>)
    requires WellFormed(r.source) && r.requested.None?
    ensures var d := Decide(r, stats, failure);
            var st := StatsOf(r.column, stats, failure);
            var fits := r.source == Integer(UInt64) && st.Known?
                        && (st.facts.bounds.Some? ==>
                              -0x8000_0000_0000_0000 as real <= st.facts.bounds.value.0
                              && st.facts.bounds.value.1 <= 0x7FFF_FFFF_FFFF_FFFF as real);
            && (fits ==> d == Some(Effective(Use(Integer(Int64)), !r.knownNotNull && r.reported != Some(false))))
            && (!fits && r.knownNotNull ==> d == Some(Effective(KeepSource, false)))
            && (!fits && !r.knownNotNull ==> d == None)
  {
  }

  /** What was read counts only if reading did not fail. */
  lemma StatsAreRead(column: string, stats: map<string, ColumnStats>, failure: Option<Stats>)
    ensures StatsOf(column, stats, failure).Known? && failure.None? ==>
              column in stats && StatsOf(column, stats, failure).facts == stats[column].facts
    ensures failure.None? && column !in stats ==> StatsOf(column, stats, failure) == Unread
    ensures failure.Some? ==> StatsOf(column, stats, failure) == failure.value
  {
  }
}
