/**
 Column types of file sources: every cell of a file is observed once, in any
 order, and the column type must hold all of them.
 */
module FileTypes {
  import opened Prelude
  import opened Trimming
  import opened DecimalText

  /** The largest magnitude below which a float64 holds every integer. */
  const MAX_EXACT_FLOAT_INT: nat := 0x20_0000_0000_0000

  datatype Kind = Int64 | Float64 | Boolean | Date | Timestamp | TimestampTz | Text | Named(name: string)

  /** What a text that is not a plain integer can be. */
  type NonInteger = k: Kind | k != Int64 witness Text

  datatype LogicalType = LogicalType(kind: Kind, nullable: bool)

  /** Decoded cells: text, a JSON number with its text, a machine integer, or a value of some other kind. */
  datatype Value = Null | Cell(text: string) | Number(text: string) | Whole(n: int) | Other(kind: NonInteger)

  type Row = map<string, Value>

  datatype Override = NoOverride | Source(nullable: bool) | Requested(t: LogicalType)

  /** Whether cells are untyped text, how other texts than integers are classified, and what fits a requested type. */
  datatype Rules = Rules(textCells: bool, detect: string -> NonInteger, fits: (Value, Kind) -> bool)

  // ----- one cell -----

  function Lower(c: char): char { if 'A' <= c <= 'Z' then (c as int + 32) as char else c }

  function ToLower(s: string): string { seq(|s|, i requires 0 <= i < |s| => Lower(s[i])) }

  predicate IsNullToken(text: string) { ToLower(TrimSpace(text)) in {"null", "n/a", "na", "nan", "none"} }

  /** Digits without a leading zero. */
  predicate PlainDigits(s: string) {
    && s != ""
    && (forall i | 0 <= i < |s| :: '0' <= s[i] <= '9')
    && (|s| == 1 || s[0] != '0')
  }

  /** An optional minus and plain digits. */
  predicate IntPattern(text: string) {
    if text != "" && text[0] == '-' then PlainDigits(text[1..]) else PlainDigits(text)
  }

  function DetectTextType(text: string, detect: string -> NonInteger): Kind {
    var t := TrimSpace(text);
    if IntPattern(t) then (if ReadInt(t, INT64_MIN, INT64_MAX).Some? then Int64 else Text) else detect(t)
  }

  function Candidate(v: Value, r: Rules): Kind
    requires !v.Null?
  {
    match v
    case Cell(text) => if r.textCells then DetectTextType(text, r.detect) else Text
    case Number(text) => DetectTextType(text, r.detect)
    case Whole(_) => Int64
    case Other(k) => k
  }

  function Abs(n: int): nat { if n < 0 then -n else n }

  /** The magnitude noted for a value; the text of a JSON number is not looked at. */
  function AbsInt(v: Value): nat {
    match v
    case Cell(text) =>
      var n := ReadInt(TrimSpace(text), INT64_MIN, INT64_MAX);
      if n.Some? then Abs(n.value) else 0
    case Whole(n) => Abs(n)
    case _ => 0
  }

  /** The integer a cell stands for. */
  function IntegerOf(v: Value, r: Rules): Option<int> {
    if v.Null? || Candidate(v, r) != Int64 then None
    else match v
      case Cell(text) => ReadInt(TrimSpace(text), INT64_MIN, INT64_MAX)
      case Number(text) => ReadInt(TrimSpace(text), INT64_MIN, INT64_MAX)
      case Whole(n) => Some(n)
      case Other(_) => None
  }

  /** A text cell that may mean "no value". */
  predicate IsToken(v: Value, r: Rules) { v.Cell? && r.textCells && IsNullToken(v.text) }

  function Merge(a: Kind, b: Kind, maxAbs: nat): Option<Kind> {
    if a == b then Some(a)
    else if (a == Int64 && b == Float64) || (a == Float64 && b == Int64) then
      if maxAbs > MAX_EXACT_FLOAT_INT then None else Some(Float64)
    else if (a == Date && b == Timestamp) || (a == Timestamp && b == Date) then Some(Timestamp)
    else None
  }

  // ----- one column -----

  datatype Column = Column(
    present: nat, nulls: nat, tokens: nat, detected: Option<Kind>, mixed: bool, maxAbs: nat, misfit: bool)

  const NEW_COLUMN := Column(0, 0, 0, None, false, 0, false)

  function ObserveValue(c: Column, v: Value, r: Rules, o: Override): Column
    requires !v.Null?
  {
    if IsToken(v, r) then c.(tokens := c.tokens + 1)
    else
      var c1 := if o.Requested? && !r.fits(v, o.t.kind) then c.(misfit := true) else c;
      if c1.mixed then c1
      else
        var k := Candidate(v, r);
        var c2 := if k == Int64 && AbsInt(v) > c1.maxAbs then c1.(maxAbs := AbsInt(v)) else c1;
        if c2.detected.None? then c2.(detected := Some(k))
        else
          var m := Merge(c2.detected.value, k, c2.maxAbs);
          if m.None? then c2.(mixed := true) else c2.(detected := m)
  }

  function ObserveCell(c: Column, v: Value, r: Rules, o: Override): Column {
    var c1 := c.(present := c.present + 1);
    if v.Null? then c1.(nulls := c1.nulls + 1) else ObserveValue(c1, v, r, o)
  }

  function Fold(vs: seq<Value>, r: Rules, o: Override): Column {
    if vs == [] then NEW_COLUMN else ObserveCell(Fold(vs[..|vs| - 1], r, o), vs[|vs| - 1], r, o)
  }

  /** The type of a column that was seen in `rows` rows. */
  function Resolve(c: Column, rows: int, o: Override): LogicalType {
    var found := if c.detected.None? || c.mixed then Text else c.detected.value;
    match o
    case NoOverride => LogicalType(found, true)
    case Source(nullable) => WithNulls(found, nullable, c, rows)
    case Requested(t) => WithNulls(if c.misfit then Text else t.kind, t.nullable, c, rows)
  }

  function WithNulls(kind: Kind, nullable: bool, c: Column, rows: int): LogicalType {
    var nullRows := c.nulls + (rows - c.present) + if kind != Text then c.tokens else 0;
    LogicalType(kind, nullable || nullRows > 0)
  }

  // ----- closed form -----

  /** A cell that counts for the type. */
  predicate Typed(v: Value, r: Rules) { !v.Null? && !IsToken(v, r) }

  function Kinds(vs: seq<Value>, r: Rules): set<Kind> {
    set v | v in vs && Typed(v, r) :: Candidate(v, r)
  }

  predicate HasBigInt(vs: seq<Value>, r: Rules) {
    exists v :: v in vs && Typed(v, r) && Candidate(v, r) == Int64 && AbsInt(v) > MAX_EXACT_FLOAT_INT
  }

  /** `k` is the column kind for cells of these kinds; `big` says that some integer is beyond 2^53. */
  predicate Joins(kinds: set<Kind>, big: bool, k: Kind) {
    || kinds == {k}
    || (k == Float64 && kinds == {Int64, Float64} && !big)
    || (k == Timestamp && kinds == {Date, Timestamp})
  }

  lemma JoinIsUnique(kinds: set<Kind>, big: bool, a: Kind, b: Kind)
    requires Joins(kinds, big, a) && Joins(kinds, big, b)
    ensures a == b
  {
    assert a in kinds && b in kinds;
    assert Int64 in {Int64, Float64} && Date in {Date, Timestamp};
  }

  /** Taking in one more kind: the merge of the old kind and the new one. */
  lemma JoinStep(kinds: set<Kind>, big: bool, d: Kind, k: Kind, big': bool, maxAbs: nat)
    requires Joins(kinds, big, d) && (big ==> Int64 in kinds)
    requires (k != Int64 ==> big' == big) && (big ==> big') && (maxAbs > MAX_EXACT_FLOAT_INT <==> big')
    ensures var m := Merge(d, k, maxAbs);
            if m.Some? then Joins(kinds + {k}, big', m.value) else forall x :: !Joins(kinds + {k}, big', x)
  {
    var more, m := kinds + {k}, Merge(d, k, maxAbs);
    assert k in more && d in more;
    assert big' ==> Int64 in more;
    if m.Some? {
      if k in kinds {
        assert more == kinds;
      } else if kinds == {d} {
        assert more == {d, k};
      }
    } else {
      forall x
        ensures !Joins(more, big', x)
      {
        assert more == {x} ==> k in {x} && d in {x};
        assert more == {Int64, Float64} ==> k in {Int64, Float64} && d in {Int64, Float64};
        assert more == {Date, Timestamp} ==> k in {Date, Timestamp} && d in {Date, Timestamp};
      }
    }
  }

  /** What joins a set joins its subsets: a column that is mixed stays mixed. */
  lemma JoinOfSubset(kinds: set<Kind>, big: bool, kinds': set<Kind>, big': bool, x: Kind)
    requires kinds != {} && kinds <= kinds' && (big ==> big') && Joins(kinds', big', x)
    ensures exists y :: Joins(kinds, big, y)
  {
    var a := if kinds' == {x} then x else if x == Float64 then Int64 else Date;
    assert kinds' == {a, x};
    SubsetsOfTwo(kinds, a, x);
    assert Joins(kinds, big, a) || Joins(kinds, big, x);
  }

  lemma SubsetsOfTwo(s: set<Kind>, a: Kind, b: Kind)
    requires s <= {a, b} && s != {}
    ensures s == {a} || s == {b} || s == {a, b}
  {
    if a !in s {
      assert forall y | y in s :: y == b;
      assert b in s;
    } else if b !in s {
      assert forall y | y in s :: y == a;
    }
  }

  /** What the scan knows, in terms of which cells occur. */
  ghost predicate Describes(c: Column, vs: seq<Value>, r: Rules, o: Override) {
    && c.present == |vs|
    && (c.nulls > 0 <==> Null in vs)
    && (c.tokens > 0 <==> HasToken(vs, r))
    && (c.misfit <==> o.Requested? && HasMisfit(vs, r, o.t.kind))
    && KindKnown(c, Kinds(vs, r), HasBigInt(vs, r))
  }

  predicate HasToken(vs: seq<Value>, r: Rules) { exists v :: v in vs && IsToken(v, r) }

  predicate HasMisfit(vs: seq<Value>, r: Rules, k: Kind) { exists v :: v in vs && Typed(v, r) && !r.fits(v, k) }

  ghost predicate KindKnown(c: Column, kinds: set<Kind>, big: bool) {
    && (c.detected.None? <==> kinds == {})
    && (c.mixed ==> kinds != {} && forall k :: !Joins(kinds, big, k))
    && (c.detected.Some? && !c.mixed ==> Joins(kinds, big, c.detected.value))
    && (!c.mixed ==> (c.maxAbs > MAX_EXACT_FLOAT_INT <==> big))
    && (big ==> Int64 in kinds)
  }

  lemma KindsMore(vs: seq<Value>, v: Value, r: Rules)
    ensures Kinds(vs + [v], r) == Kinds(vs, r) + if Typed(v, r) then {Candidate(v, r)} else {}
    ensures HasBigInt(vs + [v], r) <==>
              HasBigInt(vs, r) || (Typed(v, r) && Candidate(v, r) == Int64 && AbsInt(v) > MAX_EXACT_FLOAT_INT)
    ensures HasToken(vs + [v], r) <==> HasToken(vs, r) || IsToken(v, r)
    ensures forall k :: HasMisfit(vs + [v], r, k) <==> HasMisfit(vs, r, k) || (Typed(v, r) && !r.fits(v, k))
  {
    hide Candidate, IsToken, AbsInt;
    assert forall x :: x in vs + [v] <==> x in vs || x == v;
  }

  lemma KindStep(c: Column, v: Value, r: Rules, o: Override, kinds: set<Kind>, big: bool)
    requires Typed(v, r) && KindKnown(c, kinds, big)
    ensures KindKnown(ObserveValue(c, v, r, o), kinds + {Candidate(v, r)},
              big || (Candidate(v, r) == Int64 && AbsInt(v) > MAX_EXACT_FLOAT_INT))
  {
    hide Candidate, IsToken, AbsInt, Merge, Joins;
    var k := Candidate(v, r);
    var big' := big || (k == Int64 && AbsInt(v) > MAX_EXACT_FLOAT_INT);
    if c.mixed {
      forall x
        ensures !Joins(kinds + {k}, big', x)
      {
        if Joins(kinds + {k}, big', x) {
          JoinOfSubset(kinds, big, kinds + {k}, big', x);
          assert false;
        }
      }
    } else if c.detected.Some? {
      JoinStep(kinds, big, c.detected.value, k, big',
          if k == Int64 && AbsInt(v) > c.maxAbs then AbsInt(v) else c.maxAbs);
    } else {
      OneKind(k, big');
      assert kinds + {k} == {k};
    }
  }

  lemma OneKind(k: Kind, big: bool)
    ensures Joins({k}, big, k)
  {
  }

  lemma DescribesStep(c: Column, vs: seq<Value>, v: Value, r: Rules, o: Override)
    requires Describes(c, vs, r, o)
    ensures Describes(ObserveCell(c, v, r, o), vs + [v], r, o)
  {
    hide Candidate, IsNullToken, AbsInt, Merge, Joins, Kinds, HasBigInt, HasToken, HasMisfit, KindKnown;
    KindsMore(vs, v, r);
    assert Null in vs + [v] <==> Null in vs || v == Null;
    var c1 := c.(present := c.present + 1);
    KindKnownSame(c, c1, Kinds(vs, r), HasBigInt(vs, r));
    if v.Null? || IsToken(v, r) {
      KindKnownSame(c, ObserveCell(c, v, r, o), Kinds(vs, r), HasBigInt(vs, r));
      assert Kinds(vs, r) + {} == Kinds(vs, r);
    } else {
      KindStep(c1, v, r, o, Kinds(vs, r), HasBigInt(vs, r));
    }
  }

  lemma KindKnownSame(c: Column, c': Column, kinds: set<Kind>, big: bool)
    requires KindKnown(c, kinds, big) && c'.detected == c.detected && c'.mixed == c.mixed && c'.maxAbs == c.maxAbs
    ensures KindKnown(c', kinds, big)
  {
  }

  /** The scan of any sequence of cells is described by which cells occur in it. */
  lemma {:induction false} FoldDescribes(vs: seq<Value>, r: Rules, o: Override)
    ensures Describes(Fold(vs, r, o), vs, r, o)
  {
    if vs == [] {
      assert Kinds(vs, r) == {};
    } else {
      hide Describes, ObserveCell;
      FoldDescribes(vs[..|vs| - 1], r, o);
      DescribesStep(Fold(vs[..|vs| - 1], r, o), vs[..|vs| - 1], vs[|vs| - 1], r, o);
      assert vs[..|vs| - 1] + [vs[|vs| - 1]] == vs;
    }
  }
}
