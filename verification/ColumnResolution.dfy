/**
 Type overrides of numeric columns: the requested type is honoured, widened or
 refused on the evidence of the source type and of facts read from the data.
 Values are exact numbers.
 */
module ColumnResolution {
  import opened Prelude
  import opened DecimalText

  // ----- types -----

  datatype IntKind = Int8 | Int16 | Int32 | Int64 | UInt8 | UInt16 | UInt32 | UInt64
  {
    predicate Unsigned() { UInt8? || UInt16? || UInt32? || UInt64? }

    function Lo(): int {
      match this
      case Int8 => -0x80
      case Int16 => -0x8000
      case Int32 => -0x8000_0000
      case Int64 => -0x8000_0000_0000_0000
      case _ => 0
    }

    function Hi(): int {
      match this
      case Int8 => 0x7F
      case Int16 => 0x7FFF
      case Int32 => 0x7FFF_FFFF
      case Int64 => 0x7FFF_FFFF_FFFF_FFFF
      case UInt8 => 0xFF
      case UInt16 => 0xFFFF
      case UInt32 => 0xFFFF_FFFF
      case UInt64 => 0xFFFF_FFFF_FFFF_FFFF
    }
  }

  /** Unconstrained is a NUMERIC column without declared precision. */
  datatype Type = Integer(kind: IntKind) | Decimal(precision: nat, scale: nat) | Float | Unconstrained |
      NotNumeric(name: string)

  predicate WellFormed(t: Type) { t.Decimal? ==> 1 <= t.precision && t.scale <= t.precision }

  predicate IsWhole(v: real) { v.Floor as real == v }

  function Times(v: real, n: int): real { v * n as real }

  /** At most `s` decimal places. */
  predicate HasScale(v: real, s: nat) { IsWhole(Times(v, Pow10(s))) }

  function AbsReal(v: real): real { if v < 0.0 then -v else v }

  /** The type holds the value exactly. */
  predicate Represents(t: Type, v: real)
    requires WellFormed(t)
  {
    match t
    case Integer(k) => IsWhole(v) && k.Lo() as real <= v <= k.Hi() as real
    case Decimal(p, s) => HasScale(v, s) && AbsReal(v) < Pow10(p - s) as real
    case _ => true
  }

  predicate AllRepresented(t: Type, vs: seq<real>)
    requires WellFormed(t)
  {
    forall i | 0 <= i < |vs| :: Represents(t, vs[i])
  }

  // ----- arithmetic -----

  lemma Pow10Grows(a: nat, b: nat)
    requires a <= b
    ensures Pow10(a) <= Pow10(b)
  {
    Pow10Adds(a, b - a);
    assert Pow10(a) * 1 <= Pow10(a) * Pow10(b - a);
  }

  lemma WholeTimes(v: real, m: int)
    requires IsWhole(v)
    ensures IsWhole(Times(v, m))
  {
    var n := v.Floor * m;
    assert Times(v, m) == n as real;
    assert (n as real).Floor == n;
  }

  lemma TimesTwice(v: real, a: int, b: int)
    ensures Times(v, a * b) == Times(Times(v, a), b)
  {
    var x, y := a as real, b as real;
    assert (a * b) as real == x * y;
    assert v * (x * y) == v * x * y;
  }

  /** More decimal places hold what fewer hold. */
  lemma ScaleGrows(v: real, s: nat, s': nat)
    requires s <= s' && HasScale(v, s)
    ensures HasScale(v, s')
  {
    hide Times, IsWhole, Pow10;
    Pow10Adds(s, s' - s);
    TimesTwice(v, Pow10(s), Pow10(s' - s));
    WholeTimes(Times(v, Pow10(s)), Pow10(s' - s));
  }

  lemma WholeHasScale(v: real, s: nat)
    requires IsWhole(v)
    ensures HasScale(v, s)
  {
    WholeTimes(v, Pow10(s));
  }

  lemma ScaleZeroIsWhole(v: real)
    ensures HasScale(v, 0) <==> IsWhole(v)
  {
    assert Times(v, 1) == v;
  }

  lemma {:induction false} DigitsBound(n: nat)
    ensures n < Pow10(|Digits(n)|)
  {
    if n >= 10 {
      DigitsBound(n / 10);
      var d := Pow10(|Digits(n / 10)|);
      assert n / 10 + 1 <= d;
      assert |Digits(n)| == |Digits(n / 10)| + 1;
    }
  }

  // ----- what has to be read from the data -----

  function Magnitude(n: int): nat { if n < 0 then -n else n }

  /** Decimal digits of the largest magnitude of the kind. */
  function IntegerDigits(k: IntKind): nat {
    var a, b := |Digits(Magnitude(k.Lo()))|, |Digits(Magnitude(k.Hi()))|;
    if a > b then a else b
  }

  predicate KindFits(source: IntKind, target: IntKind) { source.Lo() >= target.Lo() && source.Hi() <= target.Hi() }

  datatype Needs = Needs(range: bool, fraction: bool)

  function TypeProbeNeeds(source: Type, req: Type): Needs
    requires WellFormed(source) && WellFormed(req)
  {
    if req.Integer? then
      match source
      case Integer(k) => Needs(!KindFits(k, req.kind), false)
      case Decimal(_, s) => Needs(true, s != 0)
      case Float => Needs(true, true)
      case Unconstrained => Needs(true, true)
      case NotNumeric(_) => Needs(false, false)
    else if req.Decimal? then
      match source
      case Integer(k) => Needs(IntegerDigits(k) > req.precision - req.scale, false)
      case Decimal(p, s) => Needs(p - s > req.precision - req.scale, false)
      case Float => Needs(true, false)
      case Unconstrained => Needs(true, true)
      case NotNumeric(_) => Needs(false, false)
    else Needs(false, false)
  }

  /** A requested uint64 is stored as int64 when values fit, which needs the range too. */
  function Probe(source: Type, req: Type): Needs
    requires WellFormed(source) && WellFormed(req)
  {
    var n := TypeProbeNeeds(source, req);
    n.(range := n.range || req == Integer(UInt64))
  }

  // ----- facts -----

  /** None when the column has no value. */
  datatype Facts = Facts(bounds: Option<(real, real)>, fractions: nat)

  /** The probe read the data correctly; `scale` is the scale it looked for. */
  ghost predicate Exact(f: Facts, vs: seq<real>, scale: nat) {
    && (f.bounds.None? <==> vs == [])
    && (f.bounds.Some? ==> forall i | 0 <= i < |vs| :: f.bounds.value.0 <= vs[i] <= f.bounds.value.1)
    && (f.fractions == 0 <==> forall i | 0 <= i < |vs| :: HasScale(vs[i], scale))
  }

  function ProbeScale(req: Type): nat { if req.Decimal? then req.scale else 0 }

  predicate FitsLogical(t: Type, min: real, max: real)
    requires WellFormed(t)
  {
    match t
    case Integer(k) => min >= k.Lo() as real && max <= k.Hi() as real
    case Decimal(p, s) => AbsReal(min) < Pow10(p - s) as real && AbsReal(max) < Pow10(p - s) as real
    case _ => true
  }

  const MAX_PRECISION: nat := 38

  const SIGNED := [Int8, Int16, Int32, Int64]
  const UNSIGNED := [UInt8, UInt16, UInt32, UInt64]

  function Candidates(req: IntKind, min: real): seq<IntKind> {
    if req.Unsigned() && min >= 0.0 then UNSIGNED else SIGNED
  }

  /** The same scale, a larger precision that fits, and no precision in between fits. */
  predicate LeastPrecision(req: Type, min: real, max: real, t: Type)
    requires WellFormed(req) && req.Decimal?
  {
    && t.Decimal?
    && t.scale == req.scale
    && req.precision < t.precision <= MAX_PRECISION
    && FitsLogical(t, min, max)
    && forall p | req.precision < p < t.precision :: !FitsLogical(Decimal(p, req.scale), min, max)
  }

  /** The first candidate that fits, or decimal(38,0) when none does. */
  predicate FirstCandidate(cs: seq<IntKind>, min: real, max: real, t: Type) {
    if t.Integer? then
      exists i | 0 <= i < |cs| ::
        && cs[i] == t.kind
        && FitsLogical(t, min, max)
        && forall j | 0 <= j < i :: !FitsLogical(Integer(cs[j]), min, max)
    else
      && t == Decimal(MAX_PRECISION, 0)
      && FitsLogical(t, min, max)
      && forall j | 0 <= j < |cs| :: !FitsLogical(Integer(cs[j]), min, max)
  }

  lemma {:induction false} LeastDecimal(p: nat, s: nat, min: real, max: real)
    requires 1 <= p && s <= p
    ensures var r := FallbackDecimal(p, s, min, max);
            if r.Some? then
              && r.value.Decimal? && r.value.scale == s && p <= r.value.precision <= MAX_PRECISION &&
                  FitsLogical(r.value, min, max)
              && forall q | p <= q < r.value.precision :: !FitsLogical(Decimal(q, s), min, max)
            else forall q | p <= q <= MAX_PRECISION :: !FitsLogical(Decimal(q, s), min, max)
    decreases MAX_PRECISION + 1 - p
  {
    hide FitsLogical;
    if p <= MAX_PRECISION && !FitsLogical(Decimal(p, s), min, max) {
      LeastDecimal(p + 1, s, min, max);
    }
  }

  lemma FirstInteger(cs: seq<IntKind>, min: real, max: real)
    ensures var r := FallbackInt(cs, min, max); r.Some? ==> FirstCandidate(cs, min, max, r.value)
  {
    hide FitsLogical;
    var r := FallbackInt(cs, min, max);
    FallbackIntFits(cs, min, max);
    if r.Some? && r.value.Integer? {
      var i := FallbackIsFirst(cs, min, max, r.value.kind);
    } else if r.Some? {
      NoneFits(cs, min, max);
    }
  }

  lemma {:induction false} NoneFits(cs: seq<IntKind>, min: real, max: real)
    requires FallbackInt(cs, min, max).None? || !FallbackInt(cs, min, max).value.Integer?
    ensures forall j | 0 <= j < |cs| :: !FitsLogical(Integer(cs[j]), min, max)
    decreases |cs|
  {
    hide FitsLogical;
    if cs != [] {
      NoneFits(cs[1..], min, max);
      assert forall j | 0 < j < |cs| :: cs[j] == cs[1..][j - 1];
    }
  }

  /** The search for a wider type. */
  method WiderFallback(req: Type, min: real, max: real) returns (r: Option<Type>)
    requires WellFormed(req)
    ensures r == Fallback(req, min, max)
    ensures r.Some? ==> WellFormed(r.value) && FitsLogical(r.value, min, max)
    ensures req.Decimal? && r.Some? ==> LeastPrecision(req, min, max, r.value)
    ensures req.Decimal? && r.None? ==>
        forall p | req.precision < p <= MAX_PRECISION :: !FitsLogical(Decimal(p, req.scale), min, max)
    ensures req.Integer? && r.Some? ==> FirstCandidate(Candidates(req.kind, min), min, max, r.value)
    ensures !req.Integer? && !req.Decimal? ==> r.None?
  {
    if req.Decimal? {
      LeastDecimal(req.precision + 1, req.scale, min, max);
    }
    if req.Integer? {
      FirstInteger(Candidates(req.kind, min), min, max);
    }
    if req.Integer? {
      var cs := Candidates(req.kind, min);
      for i := 0 to |cs|
        invariant FallbackInt(cs, min, max) == FallbackInt(cs[i..], min, max)
      {
        if FitsLogical(Integer(cs[i]), min, max) {
          return Some(Integer(cs[i]));
        }
        assert cs[i..][1..] == cs[i + 1..];
      }
      var d := Decimal(MAX_PRECISION, 0);
      return if FitsLogical(d, min, max) then Some(d) else None;
    }
    if req.Decimal? {
      var p := req.precision + 1;
      while p <= MAX_PRECISION
        invariant p > req.precision &&
            FallbackDecimal(req.precision + 1, req.scale, min, max) == FallbackDecimal(p, req.scale, min, max)
        decreases MAX_PRECISION + 1 - p
      {
        if FitsLogical(Decimal(p, req.scale), min, max) {
          return Some(Decimal(p, req.scale));
        }
        p := p + 1;
      }
    }
    return None;
  }

  function FallbackInt(cs: seq<IntKind>, min: real, max: real): Option<Type> {
    var widest := Decimal(MAX_PRECISION, 0);
    if cs == [] then (if FitsLogical(widest, min, max) then Some(widest) else None)
    else if FitsLogical(Integer(cs[0]), min, max) then Some(Integer(cs[0]))
    else FallbackInt(cs[1..], min, max)
  }

  function FallbackDecimal(p: nat, scale: nat, min: real, max: real): Option<Type>
    requires 1 <= p && scale <= p
    decreases MAX_PRECISION + 1 - p
  {
    if p > MAX_PRECISION then None
    else if FitsLogical(Decimal(p, scale), min, max) then Some(Decimal(p, scale))
    else FallbackDecimal(p + 1, scale, min, max)
  }

  function Fallback(req: Type, min: real, max: real): Option<Type>
    requires WellFormed(req)
  {
    match req
    case Integer(k) => FallbackInt(Candidates(k, min), min, max)
    case Decimal(p, s) => FallbackDecimal(p + 1, s, min, max)
    case _ => None
  }

  // ----- the decision -----

  datatype Choice = KeepSource | Use(t: Type)

  /** What is known about the data: exact facts, nothing because reading failed, or nothing because it is impossible. */
  datatype Stats = Known(facts: Facts) | Unread | Unsupported

  function ResolveRange(source: Type, req: Type, st: Stats): Choice
    requires WellFormed(source) && WellFormed(req)
  {
    var n := Probe(source, req);
    if !n.range && !n.fraction then Use(req)
    else match st
      case Unsupported => Use(req)
      case Unread => KeepSource
      case Known(f) =>
        if f.bounds.None? then Use(req)
        else if f.fractions > 0 && n.fraction then KeepSource
        else if FitsLogical(req, f.bounds.value.0, f.bounds.value.1) then Use(req)
        else
          var wider := Fallback(req, f.bounds.value.0, f.bounds.value.1);
          if wider.Some? then Use(wider.value) else KeepSource
  }

  /** The request with the source's decimal places, where precision allows. */
  function WidenScale(source: Type, t: Type): Type
    requires WellFormed(source) && WellFormed(t)
  {
    if !source.Decimal? || !t.Decimal? || source.scale <= t.scale then t
    else if t.precision - t.scale + source.scale > MAX_PRECISION then t
    else Decimal(t.precision - t.scale + source.scale, source.scale)
  }

  predicate FitsInt64(f: Facts) {
    f.bounds.None? || FitsLogical(Integer(Int64), f.bounds.value.0, f.bounds.value.1)
  }

  function NarrowUint64(t: Type, st: Stats): Type {
    if t == Integer(UInt64) && st.Known? && FitsInt64(st.facts) then Integer(Int64) else t
  }

  function ResolveOverride(source: Type, req: Type, st: Stats): Choice
    requires WellFormed(source) && WellFormed(req)
  {
    var c := ResolveRange(source, req, st);
    FallbackOk(source, req, st);
    if c.KeepSource? then c else Use(NarrowUint64(WidenScale(source, c.t), st))
  }

  lemma FallbackOk(source: Type, req: Type, st: Stats)
    requires WellFormed(source) && WellFormed(req)
    ensures var c := ResolveRange(source, req, st); c.Use? ==> WellFormed(c.t)
  {
    if st.Known? && st.facts.bounds.Some? {
      FallbackFits(req, st.facts.bounds.value.0, st.facts.bounds.value.1);
    }
  }

  lemma {:induction false} FallbackDecimalFits(p: nat, s: nat, min: real, max: real)
    requires 1 <= p && s <= p
    ensures var r := FallbackDecimal(p, s, min, max);
            r.Some? ==>
              && r.value.Decimal?
              && p <= r.value.precision <= MAX_PRECISION
              && r.value.scale == s
              && FitsLogical(r.value, min, max)
    decreases MAX_PRECISION + 1 - p
  {
    if p <= MAX_PRECISION && !FitsLogical(Decimal(p, s), min, max) {
      FallbackDecimalFits(p + 1, s, min, max);
    }
  }

  lemma {:induction false} FallbackIntFits(cs: seq<IntKind>, min: real, max: real)
    ensures var r := FallbackInt(cs, min, max);
            r.Some? ==> (r.value.Integer? || r.value == Decimal(MAX_PRECISION, 0)) && FitsLogical(r.value, min, max)
    decreases |cs|
  {
    if cs != [] {
      FallbackIntFits(cs[1..], min, max);
    }
  }

  /** A fallback always holds the range it was chosen for. */
  lemma FallbackFits(req: Type, min: real, max: real)
    requires WellFormed(req)
    ensures var r := Fallback(req, min, max); r.Some? ==> WellFormed(r.value) && FitsLogical(r.value, min, max)
  {
    match req
    case Integer(k) => FallbackIntFits(Candidates(k, min), min, max);
    case Decimal(p, s) => FallbackDecimalFits(p + 1, s, min, max);
    case _ =>
  }

  // ----- soundness -----

  lemma BoundsCover(t: Type, min: real, max: real, v: real)
    requires WellFormed(t) && FitsLogical(t, min, max) && min <= v <= max
    ensures t.Integer? ==> t.kind.Lo() as real <= v <= t.kind.Hi() as real
    ensures t.Decimal? ==> AbsReal(v) < Pow10(t.precision - t.scale) as real
  {
  }

  /** The magnitude of an integer kind has no more digits than counted. */
  lemma KindBelowLimit(k: IntKind, digits: nat, v: real)
    requires k.Lo() as real <= v <= k.Hi() as real && IntegerDigits(k) <= digits
    ensures AbsReal(v) < Pow10(digits) as real
  {
    hide IntKind.Lo, IntKind.Hi;
    DigitsBound(Magnitude(k.Lo()));
    DigitsBound(Magnitude(k.Hi()));
    Pow10Grows(|Digits(Magnitude(k.Lo()))|, digits);
    Pow10Grows(|Digits(Magnitude(k.Hi()))|, digits);
  }

  predicate ExactSource(t: Type) { t.Integer? || t.Decimal? || t.Unconstrained? }

  predicate ExactRequest(t: Type) { t.Integer? || t.Decimal? }

  /** Requests whose values are checked: floats may be rounded to a decimal, which is what was asked for. */
  predicate Checked(source: Type, req: Type) {
    ExactRequest(req) && (ExactSource(source) || (source.Float? && req.Integer?))
  }

  /** The value has the decimal places the chosen type keeps, or those the source has. */
  predicate Placed(source: Type, t: Type, v: real) {
    match t
    case Integer(_) => IsWhole(v)
    case Decimal(_, s) => HasScale(v, s) || (source.Decimal? && s < source.scale && HasScale(v, source.scale))
    case _ => true
  }

  predicate InSize(t: Type, v: real)
    requires WellFormed(t)
  {
    match t
    case Integer(k) => k.Lo() as real <= v <= k.Hi() as real
    case Decimal(p, s) => AbsReal(v) < Pow10(p - s) as real
    case _ => true
  }

  /** When no range is asked for, the type bounds alone imply that the request holds every value in size. */
  lemma NoProbeIsSafe(source: Type, req: Type, v: real)
    requires WellFormed(source) && WellFormed(req) && Checked(source, req)
    requires !TypeProbeNeeds(source, req).range && Represents(source, v)
    ensures InSize(req, v) && !TypeProbeNeeds(source, req).fraction
  {
    hide IsWhole, HasScale, AbsReal, Pow10, IntegerDigits, IntKind.Lo, IntKind.Hi;
    if req.Decimal? {
      match source
      case Integer(k) => KindBelowLimit(k, req.precision - req.scale, v);
      case Decimal(p, s) => Pow10Grows(p - s, req.precision - req.scale);
    } else {
      BoundsOrder(source.kind, req.kind, v);
    }
  }

  lemma BoundsOrder(a: IntKind, b: IntKind, v: real)
    requires KindFits(a, b) && a.Lo() as real <= v <= a.Hi() as real
    ensures b.Lo() as real <= v <= b.Hi() as real
  {
    hide IntKind.Lo, IntKind.Hi;
  }

  /** When no fraction is asked for, the source type alone implies the decimal places. */
  lemma PlacesFromSource(source: Type, req: Type, v: real)
    requires WellFormed(source) && WellFormed(req) && Checked(source, req)
    requires !TypeProbeNeeds(source, req).fraction && Represents(source, v)
    ensures Placed(source, req, v)
  {
    match source
    case Integer(k) =>
      if req.Decimal? {
        WholeHasScale(v, req.scale);
      }
    case Decimal(p, s) =>
      if req.Decimal? {
        if s <= req.scale {
          ScaleGrows(v, s, req.scale);
        }
      } else {
        ScaleZeroIsWhole(v);
      }
    case _ =>
      assert false;
  }

  lemma PlacesFromFacts(source: Type, req: Type, f: Facts, vs: seq<real>, i: nat)
    requires WellFormed(req) && ExactRequest(req) && i < |vs| && Exact(f, vs, ProbeScale(req)) && f.fractions == 0
    ensures Placed(source, req, vs[i])
  {
    assert HasScale(vs[i], ProbeScale(req));
    ScaleZeroIsWhole(vs[i]);
  }

  /** A fallback keeps the decimal places of the request. */
  lemma FallbackPlaces(source: Type, req: Type, min: real, max: real, v: real)
    requires WellFormed(req) && ExactRequest(req) && Fallback(req, min, max).Some? && Placed(source, req, v)
    ensures Placed(source, Fallback(req, min, max).value, v)
  {
    match req
    case Integer(k) =>
      FallbackIntFits(Candidates(k, min), min, max);
      WholeHasScale(v, 0);
    case Decimal(p, s) =>
      FallbackDecimalFits(p + 1, s, min, max);
  }

  /** The range decision chooses a type that every value fits, up to decimal places that the source has beyond it. */
  lemma RangeIsSound(source: Type, req: Type, f: Facts, vs: seq<real>, i: nat)
    requires WellFormed(source) && WellFormed(req) && Checked(source, req)
    requires AllRepresented(source, vs) && Exact(f, vs, ProbeScale(req)) && i < |vs|
    requires ResolveRange(source, req, Known(f)).Use?
    ensures var t := ResolveRange(source, req, Known(f)).t;
            WellFormed(t) && ExactRequest(t) && InSize(t, vs[i]) && Placed(source, t, vs[i])
  {
    hide Represents, InSize, Placed, FitsLogical, TypeProbeNeeds, Exact;
    var v, n, c := vs[i], Probe(source, req), ResolveRange(source, req, Known(f));
    assert Represents(source, v);
    FallbackOk(source, req, Known(f));
    if !n.range && !n.fraction {
      NoProbeIsSafe(source, req, v);
      PlacesFromSource(source, req, v);
    } else {
      ExactBounds(f, vs, ProbeScale(req), i);
      if n.fraction {
        PlacesFromFacts(source, req, f, vs, i);
      } else {
        PlacesFromSource(source, req, v);
      }
      var min, max := f.bounds.value.0, f.bounds.value.1;
      if FitsLogical(req, min, max) {
        InSizeFromBounds(req, min, max, v);
      } else {
        FallbackFits(req, min, max);
        FallbackKind(req, min, max);
        FallbackPlaces(source, req, min, max, v);
        InSizeFromBounds(c.t, min, max, v);
      }
    }
  }

  lemma ExactBounds(f: Facts, vs: seq<real>, scale: nat, i: nat)
    requires Exact(f, vs, scale) && i < |vs|
    ensures f.bounds.Some? && f.bounds.value.0 <= vs[i] <= f.bounds.value.1
  {
  }

  lemma InSizeFromBounds(t: Type, min: real, max: real, v: real)
    requires WellFormed(t) && FitsLogical(t, min, max) && min <= v <= max
    ensures InSize(t, v)
  {
    BoundsCover(t, min, max, v);
  }

  lemma FallbackKind(req: Type, min: real, max: real)
    requires WellFormed(req) && ExactRequest(req) && Fallback(req, min, max).Some?
    ensures ExactRequest(Fallback(req, min, max).value)
  {
    match req
    case Integer(k) => FallbackIntFits(Candidates(k, min), min, max);
    case Decimal(p, s) => FallbackDecimalFits(p + 1, s, min, max);
  }

  /** Widening the scale would take more than 38 digits. */
  predicate GivesUp(source: Type, t: Type)
    requires WellFormed(t)
  {
    source.Decimal? && t.Decimal? && source.scale > t.scale && t.precision - t.scale + source.scale > MAX_PRECISION
  }

  lemma WidenIsSound(source: Type, t: Type, v: real)
    requires WellFormed(source) && WellFormed(t) && ExactRequest(t) && InSize(t, v) && Placed(source, t, v)
    ensures WellFormed(WidenScale(source, t))
    ensures !GivesUp(source, t) || (t.Decimal? && HasScale(v, t.scale)) ==> Represents(WidenScale(source, t), v)
  {
    if source.Decimal? && t.Decimal? && source.scale > t.scale && HasScale(v, t.scale) {
      ScaleGrows(v, t.scale, source.scale);
    }
  }

  lemma NarrowIsSound(t: Type, f: Facts, vs: seq<real>, scale: nat, i: nat)
    requires WellFormed(t) && Exact(f, vs, scale) && i < |vs| && Represents(t, vs[i])
    ensures Represents(NarrowUint64(t, Known(f)), vs[i])
  {
  }

  /** The chosen type before the scale is widened. */
  function Chosen(source: Type, req: Type, st: Stats): (t: Type)
    requires WellFormed(source) && WellFormed(req)
    ensures WellFormed(t)
  {
    var c := ResolveRange(source, req, st);
    FallbackOk(source, req, st);
    if c.Use? then c.t else req
  }

  /**
   With exact facts, whenever the source type is not kept every value of the
   column is held exactly by the type that is used, except where widening the
   scale gives up; there a value is held exactly when it has no more decimal
   places than the type.
   */
  lemma OverrideIsSound(source: Type, req: Type, f: Facts, vs: seq<real>, i: nat)
    requires WellFormed(source) && WellFormed(req) && Checked(source, req)
    requires AllRepresented(source, vs) && Exact(f, vs, ProbeScale(req)) && i < |vs|
    requires ResolveOverride(source, req, Known(f)).Use?
    ensures var t, chosen := ResolveOverride(source, req, Known(f)).t, Chosen(source, req, Known(f));
            && WellFormed(t)
            && (!GivesUp(source, chosen) ==> Represents(t, vs[i]))
            && (GivesUp(source, chosen) ==> t == chosen && (Represents(t, vs[i]) <==> HasScale(vs[i], chosen.scale)))
  {
    hide Represents, InSize, Placed, Exact, AllRepresented, ResolveRange;
    var chosen := Chosen(source, req, Known(f));
    RangeIsSound(source, req, f, vs, i);
    WidenIsSound(source, chosen, vs[i]);
    var widened := WidenScale(source, chosen);
    if !GivesUp(source, chosen) || HasScale(vs[i], chosen.scale) {
      NarrowIsSound(widened, f, vs, ProbeScale(req), i);
    }
    RepresentsScale(chosen, vs[i]);
  }

  lemma RepresentsScale(t: Type, v: real)
    requires WellFormed(t)
    ensures t.Decimal? && Represents(t, v) ==> HasScale(v, t.scale)
  {
  }

  /** An integer request is sound without exception. */
  lemma IntegerRequestIsSound(source: Type, req: Type, f: Facts, vs: seq<real>, i: nat)
    requires WellFormed(source) && req.Integer? && Checked(source, req)
    requires AllRepresented(source, vs) && Exact(f, vs, 0) && i < |vs|
    requires ResolveOverride(source, req, Known(f)).Use?
    ensures WellFormed(ResolveOverride(source, req, Known(f)).t) &&
        Represents(ResolveOverride(source, req, Known(f)).t, vs[i])
  {
    hide Represents, InSize, Exact, AllRepresented, FitsLogical, TypeProbeNeeds;
    OverrideIsSound(source, req, f, vs, i);
    var chosen := Chosen(source, req, Known(f));
    WholeForInteger(source, req, f, vs, i);
    if chosen.Decimal? {
      WholeHasScale(vs[i], chosen.scale);
    }
  }

  lemma WholeForInteger(source: Type, req: Type, f: Facts, vs: seq<real>, i: nat)
    requires WellFormed(source) && req.Integer? && Checked(source, req)
    requires AllRepresented(source, vs) && Exact(f, vs, 0) && i < |vs| && ResolveRange(source, req, Known(f)).Use?
    ensures IsWhole(vs[i])
  {
    hide Represents, IsWhole, Exact, FitsLogical, KindFits;
    assert Represents(source, vs[i]);
    ExactBounds(f, vs, 0, i);
    if TypeProbeNeeds(source, req).fraction {
      PlacesFromFacts(source, req, f, vs, i);
    } else {
      PlacesFromSource(source, req, vs[i]);
    }
  }

  /** Where widening gives up the type used may not hold a value. */
  lemma WideningMayGiveUp()
    ensures var source, req, f := Decimal(38, 10), Decimal(38, 0), Facts(Some((0.5, 0.5)), 1);
            && Represents(source, 0.5)
            && Exact(f, [0.5], 0)
            && ResolveOverride(source, req, Known(f)) == Use(req)
            && !Represents(req, 0.5)
  {
    assert Pow10(0) == 1 && Pow10(1) == 10;
    assert Times(0.5, 10) == 5.0 && Times(0.5, 1) == 0.5;
    assert HasScale(0.5, 1) && !HasScale(0.5, 0);
    ScaleGrows(0.5, 1, 10);
    assert [0.5][0] == 0.5;
  }

  // ----- the fallback against the request -----

  /** The fallback is the first candidate that fits. */
  lemma {:induction false} FallbackIsFirst(cs: seq<IntKind>, min: real, max: real, k: IntKind) returns (i: nat)
    requires FallbackInt(cs, min, max) == Some(Integer(k))
    ensures i < |cs| && cs[i] == k && FitsLogical(Integer(k), min, max)
    ensures forall j | 0 <= j < i :: !FitsLogical(Integer(cs[j]), min, max)
    decreases |cs|
  {
    hide FitsLogical;
    if FitsLogical(Integer(cs[0]), min, max) {
      i := 0;
    } else {
      var rest := FallbackIsFirst(cs[1..], min, max, k);
      i := rest + 1;
      assert forall j | 0 < j < i :: cs[j] == cs[1..][j - 1];
    }
  }

  /** The signed kind of the same width. */
  function SignedOf(k: IntKind): IntKind {
    match k
    case UInt8 => Int8
    case UInt16 => Int16
    case UInt32 => Int32
    case UInt64 => Int64
    case _ => k
  }

  /**
   An integer fallback covers the requested kind if and only if the request is
   signed, the data has no negatives, or the data does not fit the signed kind
   of the same width.
   */
  lemma FallbackIsWiderIff(k: IntKind, min: real, max: real, k': IntKind)
    requires !FitsLogical(Integer(k), min, max) && Fallback(Integer(k), min, max) == Some(Integer(k'))
    ensures KindFits(k, k') <==> !k.Unsigned() || min >= 0.0 || !FitsLogical(Integer(SignedOf(k)), min, max)
    ensures k' != k
  {
    var cs := Candidates(k, min);
    var i := FallbackIsFirst(cs, min, max, k');
    assert cs[i] in cs;
    if k.Unsigned() && min < 0.0 && FitsLogical(Integer(SignedOf(k)), min, max) {
      SignedPlace(k);
    }
  }

  /** So an unsigned request with few negatives falls back to a narrower kind. */
  lemma FallbackMayBeNarrower()
    ensures !FitsLogical(Integer(UInt8), -1.0, 5.0)
    ensures Fallback(Integer(UInt8), -1.0, 5.0) == Some(Integer(Int8)) && !KindFits(UInt8, Int8)
  {
  }

  lemma SignedPlace(k: IntKind)
    ensures k.Unsigned() ==>
        SIGNED[0] == SignedOf(k) || SIGNED[1] == SignedOf(k) || SIGNED[2] == SignedOf(k) || SIGNED[3] == SignedOf(k)
  {
  }

  // ----- columns without an override, nullability -----

  /** Without an override the source type is kept, except for uint64 columns whose values fit int64. */
  lemma DefaultIsSound(source: Type, f: Facts, vs: seq<real>, i: nat)
    requires WellFormed(source) && AllRepresented(source, vs) && Exact(f, vs, 0) && i < |vs|
    ensures Represents(NarrowUint64(source, Known(f)), vs[i])
    ensures NarrowUint64(source, Known(f)) != source ==> source == Integer(UInt64)
  {
    hide Exact;
    assert Represents(source, vs[i]);
    NarrowIsSound(source, f, vs, 0, i);
  }

  /** `nullCount` is None when the data was not read. */
  function ResolveNullable(requested: bool, mayBeNull: bool, nullCount: Option<nat>): bool {
    requested || (mayBeNull && (nullCount.None? || nullCount.value > 0))
  }

  /** `reported` is what the driver says about NULLs, None when it cannot tell; the catalog may know better. */
  datatype Resolution = Resolution(
    column: string, source: Type, requested: Option<Type>, nullable: bool, reported: Option<bool>, knownNotNull: bool)
  {
    predicate MayBeNull() { !knownNotNull && (reported.None? || reported.value) }
  }

  datatype ColumnStats = ColumnStats(facts: Facts, nullCount: nat)

  datatype Effective = Effective(choice: Choice, nullable: bool)

  function StatsOf(column: string, stats: map<string, ColumnStats>, failure: Option<Stats>): Stats {
    if failure.Some? then failure.value else if column in stats then Known(stats[column].facts) else Unread
  }

  /** The entry for one column; None leaves the column as the source has it. */
  function Decide(r: Resolution, stats: map<string, ColumnStats>, failure: Option<Stats>): Option<Effective>
    requires WellFormed(r.source) && (r.requested.Some? ==> WellFormed(r.requested.value))
  {
    var st := StatsOf(r.column, stats, failure);
    if r.requested.None? then
      if NarrowUint64(r.source, st) != r.source then Some(Effective(Use(NarrowUint64(r.source, st)), r.MayBeNull()))
      else if r.knownNotNull then Some(Effective(KeepSource, false))
      else None
    else
      var nulls := if failure.None? && r.column in stats then Some(stats[r.column].nullCount) else None;
      Some(Effective(ResolveOverride(r.source, r.requested.value, st),
          ResolveNullable(r.nullable, r.MayBeNull(), nulls)))
  }

  /** A column that ends up NOT NULL has no NULL. */
  lemma NotNullIsSound(r: Resolution, stats: map<string, ColumnStats>, failure: Option<Stats>, nulls: nat)
    requires WellFormed(r.source) && (r.requested.Some? ==> WellFormed(r.requested.value))
    requires !r.MayBeNull() ==> nulls == 0
    requires r.column in stats ==> stats[r.column].nullCount == nulls
    ensures var d := Decide(r, stats, failure); d.Some? && !d.value.nullable ==> nulls == 0
  {
  }

  predicate AllWellFormed(rs: seq<Resolution>) {
    forall i | 0 <= i < |rs| ::
        WellFormed(rs[i].source) && (rs[i].requested.Some? ==> WellFormed(rs[i].requested.value))
  }

  /** Each entry is the decision for its column, and exactly the columns with a decision have one. */
  method FinalizeColumns(rs: seq<Resolution>, stats: map<string, ColumnStats>, failure: Option<Stats>)
      returns (effective: map<string, Effective>)
    requires AllWellFormed(rs) && forall i, j | 0 <= i < j < |rs| :: rs[i].column != rs[j].column
    ensures forall i | 0 <= i < |rs| ::
              var d := Decide(rs[i], stats, failure);
              if d.Some? then rs[i].column in effective && effective[rs[i].column] == d.value
              else rs[i].column !in effective
  {
    hide Decide;
    effective := map[];
    for n := 0 to |rs|
      invariant forall c | c in effective :: exists i | 0 <= i < n :: rs[i].column == c
      invariant forall i | 0 <= i < n ::
                  var d := Decide(rs[i], stats, failure);
                  if d.Some? then rs[i].column in effective && effective[rs[i].column] == d.value
                  else rs[i].column !in effective
    {
      var d := Decide(rs[n], stats, failure);
      if d.Some? {
        effective := effective[rs[n].column := d.value];
      }
    }
  }
}
