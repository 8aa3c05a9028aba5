/** The scan of a whole file and the types it ends with. */
module FileScan {
  import opened Prelude
  import opened Trimming
  import opened DecimalText
  import opened FileTypes

  /** The cells of one column, in row order. */
  function Cells(rows: seq<Row>, name: string): (vs: seq<Value>)
    ensures |vs| <= |rows|
  {
    if rows == [] then []
    else
      var last := rows[|rows| - 1];
      Cells(rows[..|rows| - 1], name) + if name in last then [last[name]] else []
  }

  predicate Holds(row: Row, name: string, v: Value) { name in row && row[name] == v }

  lemma {:induction false} CellsOf(rows: seq<Row>, name: string, v: Value)
    ensures v in Cells(rows, name) <==> exists row :: row in rows && Holds(row, name, v)
    decreases |rows|
  {
    if rows != [] {
      var few, last := rows[..|rows| - 1], rows[|rows| - 1];
      CellsOf(few, name, v);
      assert last in rows && forall row | row in few :: row in rows;
      if row :| row in rows && Holds(row, name, v) {
        assert row in few || row == last;
      }
    }
  }

  predicate Misses(row: Row, name: string) { name !in row }

  lemma {:induction false} FewerCells(rows: seq<Row>, name: string)
    ensures |Cells(rows, name)| < |rows| <==> exists row :: row in rows && Misses(row, name)
    decreases |rows|
  {
    if rows != [] {
      var few, last := rows[..|rows| - 1], rows[|rows| - 1];
      FewerCells(few, name);
      assert last in rows && forall row | row in few :: row in rows;
      if row :| row in rows && Misses(row, name) {
        assert row in few || row == last;
      }
    }
  }

  /** The type the scan of `rows` gives to a column. */
  function TypeIn(rows: seq<Row>, name: string, r: Rules, o: Override): LogicalType {
    Resolve(Fold(Cells(rows, name), r, o), |rows|, o)
  }

  // ----- order -----

  lemma SameKind(c: Column, c': Column, kinds: set<Kind>, big: bool)
    requires KindKnown(c, kinds, big) && KindKnown(c', kinds, big)
    ensures c.mixed == c'.mixed && (!c.mixed ==> c.detected == c'.detected) && c.detected.None? == c'.detected.None?
  {
    if c.detected.Some? && c'.detected.Some? && !c.mixed && !c'.mixed {
      JoinIsUnique(kinds, big, c.detected.value, c'.detected.value);
    }
  }

  lemma SameCells(vs: seq<Value>, vs': seq<Value>, r: Rules)
    requires forall v :: v in vs <==> v in vs'
    ensures Kinds(vs, r) == Kinds(vs', r) && (HasBigInt(vs, r) <==> HasBigInt(vs', r)) &&
        (HasToken(vs, r) <==> HasToken(vs', r))
    ensures forall k :: HasMisfit(vs, r, k) <==> HasMisfit(vs', r, k)
  {
    hide Candidate, IsToken, AbsInt;
  }

  /** The type depends only on which rows occur: not on their order, nor on how often. */
  lemma OrderDoesNotMatter(rows: seq<Row>, rows': seq<Row>, name: string, r: Rules, o: Override)
    requires forall row :: row in rows <==> row in rows'
    ensures TypeIn(rows, name, r, o) == TypeIn(rows', name, r, o)
  {
    hide Fold, Cells, Kinds, HasBigInt, HasToken, HasMisfit, KindKnown;
    var vs, vs' := Cells(rows, name), Cells(rows', name);
    var c, c' := Fold(vs, r, o), Fold(vs', r, o);
    forall v
      ensures v in vs <==> v in vs'
    {
      CellsOf(rows, name, v);
      CellsOf(rows', name, v);
    }
    FewerCells(rows, name);
    FewerCells(rows', name);
    FoldDescribes(vs, r, o);
    FoldDescribes(vs', r, o);
    SameCells(vs, vs', r);
    SameKind(c, c', Kinds(vs, r), HasBigInt(vs, r));
    assert |rows| - c.present > 0 <==> |rows'| - c'.present > 0;
    assert c.nulls > 0 <==> c'.nulls > 0;
    assert c.tokens > 0 <==> c'.tokens > 0;
  }

  /** In particular for every permutation of the rows. */
  lemma PermutationsAgree(rows: seq<Row>, rows': seq<Row>, name: string, r: Rules, o: Override)
    requires multiset(rows) == multiset(rows')
    ensures TypeIn(rows, name, r, o) == TypeIn(rows', name, r, o)
  {
    hide TypeIn;
    forall row
      ensures row in rows <==> row in rows'
    {
      assert row in rows <==> row in multiset(rows);
      assert row in rows' <==> row in multiset(rows');
    }
    OrderDoesNotMatter(rows, rows', name, r, o);
  }

  // ----- integers in float columns -----

  predicate Detected(o: Override) { !o.Requested? }

  /** For numbers of JSON files the guard sees no magnitude: whole numbers and floats always join to float64. */
  lemma NumbersAlwaysJoin(rows: seq<Row>, name: string, r: Rules, o: Override)
    requires Detected(o) && Kinds(Cells(rows, name), r) == {Int64, Float64}
    requires forall v | v in Cells(rows, name) :: v.Number? || v.Null?
    ensures TypeIn(rows, name, r, o).kind == Float64
  {
    hide Fold, Cells, Candidate, IsToken;
    var vs := Cells(rows, name);
    FoldDescribes(vs, r, o);
    assert !HasBigInt(vs, r);
    assert Joins(Kinds(vs, r), false, Float64);
    assert Int64 in Kinds(vs, r);
    SameKindAs(Fold(vs, r, o), Kinds(vs, r));
  }

  lemma SameKindAs(c: Column, kinds: set<Kind>)
    requires KindKnown(c, kinds, false) && Joins(kinds, false, Float64)
    ensures c.detected == Some(Float64) && !c.mixed
  {
    assert Float64 in kinds;
    JoinIsUnique(kinds, false, Float64, c.detected.value);
  }

  predicate HasBigNumber(vs: seq<Value>, r: Rules) {
    exists v :: v in vs && IntegerOf(v, r).Some? && Abs(IntegerOf(v, r).value) > MAX_EXACT_FLOAT_INT
  }

  lemma TokenIsNoInteger(v: Value, r: Rules)
    ensures IntegerOf(v, r).Some? ==> Typed(v, r)
  {
    hide TrimSpace, ReadInt;
    if v.Cell? && IsToken(v, r) {
      var t := TrimSpace(v.text);
      assert ToLower(t)[0] == 'n' && ToLower(t)[0] == Lower(t[0]);
      IntegersStart(t);
    }
  }

  lemma IntegersStart(t: string)
    ensures IntPattern(t) ==> t != "" && (t[0] == '-' || '0' <= t[0] <= '9')
  {
  }

  lemma BigNumberIsInt(vs: seq<Value>, r: Rules)
    requires HasBigNumber(vs, r)
    ensures Int64 in Kinds(vs, r)
  {
    hide Candidate, IsToken;
    var v :| v in vs && IntegerOf(v, r).Some?;
    TokenIsNoInteger(v, r);
    assert Typed(v, r) && Candidate(v, r) == Int64;
  }

  /** Only floats, or floats and integers that the scan took for small, resolve to float64. */
  lemma FloatKinds(rows: seq<Row>, name: string, r: Rules, o: Override)
    requires Detected(o)
    ensures var vs := Cells(rows, name);
            TypeIn(rows, name, r, o).kind == Float64 <==>
            Kinds(vs, r) == {Float64} || (Kinds(vs, r) == {Int64, Float64} && !HasBigInt(vs, r))
  {
    hide Fold, Cells, Kinds, HasBigInt, HasToken, HasMisfit;
    var vs := Cells(rows, name);
    FoldDescribes(vs, r, o);
    var c := Fold(vs, r, o);
    if Joins(Kinds(vs, r), HasBigInt(vs, r), Float64) {
      assert Float64 in Kinds(vs, r);
      JoinIsUnique(Kinds(vs, r), HasBigInt(vs, r), Float64, c.detected.value);
    }
  }

  /**
   A float64 column holds a whole number beyond 2^53 if and only if it has one,
   beside fractions and nothing else, and the scan saw no magnitude beyond 2^53.
   */
  lemma FloatRoundsIff(rows: seq<Row>, name: string, r: Rules, o: Override)
    requires Detected(o)
    ensures var vs := Cells(rows, name);
            (TypeIn(rows, name, r, o).kind == Float64 && HasBigNumber(vs, r)) <==>
            (Kinds(vs, r) == {Int64, Float64} && !HasBigInt(vs, r) && HasBigNumber(vs, r))
  {
    hide Fold, Cells, TypeIn, HasBigNumber, Kinds, HasBigInt;
    var vs := Cells(rows, name);
    FloatKinds(rows, name, r, o);
    assert Int64 !in {Float64};
    if HasBigNumber(vs, r) {
      BigNumberIsInt(vs, r);
    }
  }

  /** The scan sees every magnitude except that of JSON numbers. */
  lemma MagnitudeIsSeen(vs: seq<Value>, r: Rules)
    requires forall v | v in vs :: !v.Number?
    ensures HasBigNumber(vs, r) ==> HasBigInt(vs, r)
  {
    hide Candidate, IsToken, ReadInt, TrimSpace;
    if HasBigNumber(vs, r) {
      var v :| v in vs && IntegerOf(v, r).Some? && Abs(IntegerOf(v, r).value) > MAX_EXACT_FLOAT_INT;
      TokenIsNoInteger(v, r);
      assert Typed(v, r) && Candidate(v, r) == Int64 && AbsInt(v) > MAX_EXACT_FLOAT_INT;
    }
  }

  /** So without JSON numbers, in text cells and machine integers alike, a float64 column is exact. */
  lemma FloatsAreExact(rows: seq<Row>, name: string, r: Rules, o: Override)
    requires Detected(o) && forall v | v in Cells(rows, name) :: !v.Number?
    ensures TypeIn(rows, name, r, o).kind == Float64 ==> !HasBigNumber(Cells(rows, name), r)
  {
    hide TypeIn, Cells, Kinds, HasBigInt, HasBigNumber;
    MagnitudeIsSeen(Cells(rows, name), r);
    FloatRoundsIff(rows, name, r, o);
  }

  lemma DecimalIsInteger(n: nat)
    requires n <= INT64_MAX
    ensures IntPattern(Decimal(n)) && TrimSpace(Decimal(n)) == Decimal(n) &&
        ReadInt(Decimal(n), INT64_MIN, INT64_MAX) == Some(n)
  {
    DecimalIsTrim(n);
    IntRoundTrip(n, INT64_MIN, INT64_MAX);
  }

  /** The kinds of two numbers, a whole one and a fraction. */
  lemma TwoNumbers(a: Value, b: Value, r: Rules)
    requires a.Number? && b.Number? && Candidate(a, r) == Int64 && Candidate(b, r) == Float64
    ensures Kinds([a, b], r) == {Int64, Float64}
  {
    hide Candidate;
    assert a in [a, b] && b in [a, b];
    assert Typed(a, r) && Typed(b, r);
  }

  lemma TwoRows(a: Value, b: Value)
    ensures Cells([map["c" := a], map["c" := b]], "c") == [a, b]
  {
    var rows := [map["c" := a], map["c" := b]];
    assert rows[..1] == [map["c" := a]] && rows[..1][..0] == [];
    assert Cells(rows[..1], "c") == [a];
  }

  /** Such files exist: any number beyond 2^53 and one fraction. */
  lemma NumbersMayRound(n: nat, fraction: string, r: Rules)
    requires MAX_EXACT_FLOAT_INT < n <= INT64_MAX && Candidate(Number(fraction), r) == Float64
    ensures var rows := [map["c" := Number(Decimal(n))], map["c" := Number(fraction)]];
            TypeIn(rows, "c", r, NoOverride).kind == Float64 && HasBigNumber(Cells(rows, "c"), r)
  {
    hide Decimal, TrimSpace, ReadInt, IntPattern, Cells, TypeIn, Kinds;
    var a, b := Number(Decimal(n)), Number(fraction);
    DecimalIsInteger(n);
    TwoRows(a, b);
    TwoNumbers(a, b, r);
    assert a in [a, b] && IntegerOf(a, r) == Some(n);
    NumbersAlwaysJoin([map["c" := a], map["c" := b]], "c", r, NoOverride);
  }

  // ----- NOT NULL -----

  /** The value a row gives to a column when it is converted. */
  function Converted(row: Row, name: string, t: LogicalType): Value {
    var v := if name in row then row[name] else Null;
    if v.Cell? && t.kind != Text && IsNullToken(v.text) then Null else v
  }

  /** The conversion fails with "empty value in a NOT NULL column". */
  predicate HitsNotNull(row: Row, name: string, t: LogicalType) { Converted(row, name, t).Null? && !t.nullable }

  /** Among observed rows this takes a marker in typed text that the scan did not count as one. */
  lemma NotNullByType(rows: seq<Row>, name: string, r: Rules, o: Override, row: Row)
    requires row in rows
    ensures var t := TypeIn(rows, name, r, o);
            HitsNotNull(row, name, t) <==> HasMarker(row, name, r) && !t.nullable && t.kind != Text
  {
    hide Fold, Cells, Kinds, HasBigInt, HasMisfit, KindKnown, IsNullToken;
    var vs := Cells(rows, name);
    FoldDescribes(vs, r, o);
    FewerCells(rows, name);
    assert name !in row ==> Misses(row, name);
    if name in row {
      CellsOf(rows, name, row[name]);
      assert Holds(row, name, row[name]);
    }
  }

  /** A typed format, and a text that means "no value" in the row. */
  predicate HasMarker(row: Row, name: string, r: Rules) {
    !r.textCells && name in row && row[name].Cell? && IsNullToken(row[name].text)
  }

  /** Text of a typed format makes a detected column a string column. */
  lemma TypedTextIsText(rows: seq<Row>, name: string, r: Rules, o: Override, v: Value)
    requires Detected(o) && !r.textCells && v.Cell? && v in Cells(rows, name)
    ensures TypeIn(rows, name, r, o).kind == Text
  {
    hide Fold, Cells, HasBigInt, HasToken, HasMisfit;
    var vs := Cells(rows, name);
    FoldDescribes(vs, r, o);
    assert Typed(v, r) && Candidate(v, r) == Text;
    assert Text in Kinds(vs, r);
    assert Text !in {Int64, Float64} && Text !in {Date, Timestamp};
  }

  /** The NULL bookkeeping of a requested NOT NULL type. */
  lemma RequestedType(rows: seq<Row>, name: string, r: Rules, t: LogicalType)
    requires !r.textCells
    ensures var vs := Cells(rows, name);
            var u := TypeIn(rows, name, r, Requested(t));
            && u.kind == (if HasMisfit(vs, r, t.kind) then Text else t.kind)
            && (u.nullable <==> t.nullable || Null in vs || |vs| < |rows|)
  {
    hide Fold, Cells, Kinds, HasBigInt, HasMisfit, KindKnown, IsNullToken;
    FoldDescribes(Cells(rows, name), r, Requested(t));
    FewerCells(rows, name);
  }

  /**
   An observed row hits the error if and only if the format is typed, the row
   holds a marker, the override asks for a NOT NULL type other than string that
   every cell fits, and no row lacks a value. In particular only overrides that
   name a type can fail.
   */
  lemma NotNullIff(rows: seq<Row>, name: string, r: Rules, o: Override, row: Row)
    requires row in rows
    ensures var vs := Cells(rows, name);
            HitsNotNull(row, name, TypeIn(rows, name, r, o)) <==>
              && HasMarker(row, name, r)
              && o.Requested?
              && !o.t.nullable
              && o.t.kind != Text
              && !HasMisfit(vs, r, o.t.kind)
              && Null !in vs
              && |vs| == |rows|
  {
    hide TypeIn, HitsNotNull, HasMisfit, Cells, IsNullToken;
    NotNullByType(rows, name, r, o, row);
    if HasMarker(row, name, r) {
      CellsOf(rows, name, row[name]);
      assert Holds(row, name, row[name]);
      if o.Requested? {
        RequestedType(rows, name, r, o.t);
      } else {
        TypedTextIsText(rows, name, r, o, row[name]);
      }
    }
  }

  /** For typed formats such rows exist: any marker that fits the requested NOT NULL type. */
  lemma MarkersMayHitNotNull(text: string, kind: Kind, r: Rules)
    requires !r.textCells && IsNullToken(text) && kind != Text && r.fits(Cell(text), kind)
    ensures var row: Row := map["c" := Cell(text)];
            HitsNotNull(row, "c", TypeIn([row], "c", r, Requested(LogicalType(kind, false))))
  {
    hide IsNullToken, HitsNotNull;
    var v, o := Cell(text), Requested(LogicalType(kind, false));
    var row: Row := map["c" := v];
    OneCell(row, "c", r, o);
    NotNullByType([row], "c", r, o, row);
  }

  lemma OneCell(row: Row, name: string, r: Rules, o: Override)
    requires name in row
    ensures TypeIn([row], name, r, o) == Resolve(ObserveCell(NEW_COLUMN, row[name], r, o), 1, o)
  {
    hide ObserveCell, Resolve, Cells, Fold;
    OneMoreRow([], row, name, r, o);
    assert [] + [row] == [row];
    NoCells(name, r, o);
  }

  lemma NoCells(name: string, r: Rules, o: Override)
    ensures Cells([], name) == [] && Fold([], r, o) == NEW_COLUMN
  {
  }

  /** No observed row of a text file can hit the error. */
  lemma ObservedRowsHaveValues(rows: seq<Row>, name: string, r: Rules, o: Override, row: Row)
    requires r.textCells && row in rows
    ensures !HitsNotNull(row, name, TypeIn(rows, name, r, o))
  {
    hide TypeIn, HitsNotNull;
    NotNullIff(rows, name, r, o, row);
  }

  // ----- the scanner -----

  /** A column for every name seen, with the fold of its cells. */
  ghost predicate Scanned(columns: map<string, Column>, seen: seq<Row>, r: Rules, overrideOf: string -> Override) {
    && (forall name :: name in columns <==> Cells(seen, name) != [])
    && (forall name | name in columns :: columns[name] == Fold(Cells(seen, name), r, overrideOf(name)))
  }

  class FileTypeScanner {
    const r: Rules
    const overrideOf: string -> Override
    var columns: map<string, Column>
    var rows: nat
    ghost var seen: seq<Row>

    constructor (rules: Rules, overrides: string -> Override)
      ensures Valid() && seen == [] && r == rules && overrideOf == overrides
    {
      r, overrideOf := rules, overrides;
      columns, rows, seen := map[], 0, [];
    }

    ghost predicate Valid()
      reads this
    {
      rows == |seen| && Scanned(columns, seen, r, overrideOf)
    }

    method Observe(doc: Row)
      requires Valid()
      modifies this`columns, this`rows, this`seen
      ensures Valid() && seen == old(seen) + [doc]
    {
      hide Entered, Scanned;
      rows := rows + 1;
      AllEntered(columns, seen, doc, r, overrideOf);
      columns := EnterCells(columns, doc, r, overrideOf);
      seen := seen + [doc];
    }

    /** The type of every column seen, as if the rows had come in any order. */
    method Resolved() returns (types: map<string, LogicalType>)
      requires Valid()
      ensures types.Keys == columns.Keys
      ensures forall name | name in types :: types[name] == TypeIn(seen, name, r, overrideOf(name))
      ensures forall row, name | row in seen && name in types && r.textCells :: !HitsNotNull(row, name, types[name])
    {
      hide Resolve, HitsNotNull, Fold;
      types := map name | name in columns :: Resolve(columns[name], rows, overrideOf(name));
      forall row, name | row in seen && name in types && r.textCells
        ensures !HitsNotNull(row, name, types[name])
      {
        ObservedRowsHaveValues(seen, name, r, overrideOf(name), row);
      }
    }
  }

  /** The columns after the cells named in `done` were observed. */
  function Entered(before: map<string, Column>, doc: Row, done: set<string>, r: Rules,
      overrideOf: string -> Override): map<string, Column>
    requires done <= doc.Keys
  {
    map name | name in before.Keys + done ::
      if name in done
          then ObserveCell(if name in before then before[name] else NEW_COLUMN, doc[name], r, overrideOf(name))
      else before[name]
  }

  /** The loop over the cells of one row, in no particular order. */
  method EnterCells(before: map<string, Column>, doc: Row, r: Rules, overrideOf: string -> Override)
      returns (columns: map<string, Column>)
    ensures columns == Entered(before, doc, doc.Keys, r, overrideOf)
  {
    hide ObserveCell, Entered;
    columns := before;
    NothingEntered(before, doc, r, overrideOf);
    var todo := doc.Keys;
    ghost var done: set<string> := {};
    while todo != {}
      invariant done == doc.Keys - todo && todo <= doc.Keys
      invariant columns == Entered(before, doc, done, r, overrideOf)
      decreases |todo|
    {
      var name :| name in todo;
      EnteredMore(before, doc, done, name, r, overrideOf);
      var col := if name in columns then columns[name] else NEW_COLUMN;
      columns := columns[name := ObserveCell(col, doc[name], r, overrideOf(name))];
      todo := todo - {name};
      done := done + {name};
    }
    assert done == doc.Keys;
  }

  lemma NothingEntered(before: map<string, Column>, doc: Row, r: Rules, overrideOf: string -> Override)
    ensures Entered(before, doc, {}, r, overrideOf) == before
  {
    assert before.Keys + {} == before.Keys;
  }

  lemma EnteredMore(before: map<string, Column>, doc: Row, done: set<string>, name: string, r: Rules,
      overrideOf: string -> Override)
    requires done <= doc.Keys && name in doc && name !in done
    ensures var few := Entered(before, doc, done, r, overrideOf);
            Entered(before, doc, done + {name}, r, overrideOf)
            == few[name := ObserveCell(if name in few then few[name] else NEW_COLUMN, doc[name], r, overrideOf(name))]
  {
    hide ObserveCell;
  }

  lemma AllEntered(before: map<string, Column>, seen: seq<Row>, doc: Row, r: Rules, overrideOf: string -> Override)
    requires Scanned(before, seen, r, overrideOf)
    ensures Scanned(Entered(before, doc, doc.Keys, r, overrideOf), seen + [doc], r, overrideOf)
  {
    hide ObserveCell;
    var columns := Entered(before, doc, doc.Keys, r, overrideOf);
    forall name
      ensures name in columns <==> Cells(seen + [doc], name) != []
      ensures name in columns ==> columns[name] == Fold(Cells(seen + [doc], name), r, overrideOf(name))
    {
      OneMoreRow(seen, doc, name, r, overrideOf(name));
    }
  }

  lemma OneMoreRow(rows: seq<Row>, doc: Row, name: string, r: Rules, o: Override)
    ensures Cells(rows + [doc], name) == Cells(rows, name) + if name in doc then [doc[name]] else []
    ensures Fold(Cells(rows + [doc], name), r, o)
         == if name in doc then ObserveCell(Fold(Cells(rows, name), r, o), doc[name], r, o)
             else Fold(Cells(rows, name), r, o)
  {
    hide ObserveCell;
    assert (rows + [doc])[..|rows|] == rows;
    var vs := Cells(rows + [doc], name);
    if name in doc {
      assert vs[..|vs| - 1] == Cells(rows, name);
    } else {
      assert vs == Cells(rows, name);
    }
  }
}
