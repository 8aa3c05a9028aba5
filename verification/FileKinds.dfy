/** Which type a column of a file gets, in terms of its cells. */
module FileKinds {
  import opened Prelude
  import opened Trimming
  import opened DecimalText
  import opened FileTypes
  import opened FileScan

  /** Plain digits are what the number they stand for is written as. */
  lemma {:induction false} PlainIsDigits(s: string)
    requires PlainDigits(s)
    ensures ReadDigits(s).Some? && Digits(ReadDigits(s).value) == s
    decreases |s|
  {
    var front, last := s[..|s| - 1], s[|s| - 1];
    if |s| > 1 {
      assert front[0] == s[0];
      PlainIsDigits(front);
      var m := ReadDigits(front).value;
      assert m > 0;
      var n := ReadDigits(s).value;
      assert n == 10 * m + (last as int - 48);
      assert n / 10 == m && n % 10 == last as int - 48;
      assert s == front + [last];
    }
  }

  lemma {:induction false} DigitsArePlain(n: nat)
    ensures PlainDigits(Digits(n))
  {
    assert n < 10 ==> |Digits(n)| == 1;
  }

  /** The text is an integer as it is written, or "-0". */
  ghost predicate IsDecimal(t: string, n: int) { t == Decimal(n) || (t == "-0" && n == 0) }

  lemma PatternIff(t: string)
    ensures IntPattern(t) <==> exists n :: IsDecimal(t, n)
  {
    hide ReadDigits;
    if IntPattern(t) {
      var minus := t[0] == '-';
      var body := if minus then t[1..] else t;
      PlainIsDigits(body);
      var n: int := ReadDigits(body).value;
      if !minus {
        assert IsDecimal(t, n);
      } else if n == 0 {
        assert Digits(0) == "0" && t == "-" + body;
        assert IsDecimal(t, 0);
      } else {
        assert t == "-" + body;
        assert IsDecimal(t, 0 - n);
      }
    }
    if n :| IsDecimal(t, n) {
      DecimalHasPattern(n);
      assert "-0"[1..] == "0";
    }
  }

  lemma DecimalHasPattern(n: int)
    ensures IntPattern(Decimal(n))
  {
    if n < 0 {
      DigitsArePlain(-n);
      assert Decimal(n)[1..] == Digits(-n);
    } else {
      DigitsArePlain(n);
      assert Decimal(n)[0] != '-';
    }
  }

  lemma ReadsBack(t: string, n: int)
    requires IsDecimal(t, n)
    ensures ReadInt(t, INT64_MIN, INT64_MAX) == if INT64_MIN <= n <= INT64_MAX then Some(n) else None
  {
    if t == Decimal(n) {
      var lo := if n < INT64_MIN then n else INT64_MIN;
      var hi := if n > INT64_MAX then n else INT64_MAX;
      IntRoundTrip(n, lo, hi);
    } else {
      assert "-0"[1..] == "0";
    }
  }

  /**
   A text is an integer cell if and only if, trimmed, it is the decimal text of an
   int64 or "-0"; so "007", "+1" and "1.0" are not, and an integer out of range is text.
   */
  lemma IntegerTextIff(text: string, detect: string -> NonInteger)
    ensures DetectTextType(text, detect) == Int64 <==>
            exists n :: IsDecimal(TrimSpace(text), n) && INT64_MIN <= n <= INT64_MAX
    ensures (exists n :: IsDecimal(TrimSpace(text), n) && !(INT64_MIN <= n <= INT64_MAX)) ==>
              DetectTextType(text, detect) == Text
  {
    hide IsDecimal, IntPattern, ReadInt, TrimSpace;
    var t := TrimSpace(text);
    PatternIff(t);
    forall n | IsDecimal(t, n)
      ensures ReadInt(t, INT64_MIN, INT64_MAX) == if INT64_MIN <= n <= INT64_MAX then Some(n) else None
    {
      ReadsBack(t, n);
    }
  }

  /** The same letters in either case, as lower case has them. */
  predicate InAnyCase(t: string, lower: string) {
    && |t| == |lower|
    && forall i | 0 <= i < |t| ::
         if 'A' <= t[i] <= 'Z' then t[i] as int + 32 == lower[i] as int else t[i] == lower[i]
  }

  lemma LowerIs(t: string, lower: string)
    ensures ToLower(t) == lower <==> InAnyCase(t, lower)
  {
    var u := ToLower(t);
    assert forall i | 0 <= i < |t| :: u[i] == Lower(t[i]);
    if InAnyCase(t, lower) {
      assert forall i | 0 <= i < |t| :: u[i] == lower[i];
    }
  }

  /** The five markers for a missing value, in any letter case and with outer white space. */
  lemma MarkerIff(text: string)
    ensures IsNullToken(text) <==>
            var t := TrimSpace(text);
            || InAnyCase(t, "null") || InAnyCase(t, "none") || InAnyCase(t, "nan")
            || InAnyCase(t, "n/a") || InAnyCase(t, "na")
  {
    hide TrimSpace, ToLower, InAnyCase;
    var t := TrimSpace(text);
    LowerIs(t, "null");
    LowerIs(t, "none");
    LowerIs(t, "nan");
    LowerIs(t, "n/a");
    LowerIs(t, "na");
  }

  /** Some row has no value for the column: NULL, no cell, or, unless the column is text, a marker. */
  predicate LacksValue(rows: seq<Row>, name: string, r: Rules, kind: Kind) {
    exists row: Row :: row in rows && (name !in row || row[name].Null? || (kind != Text && IsToken(row[name], r)))
  }

  /**
   Every column type in full. Without a request the kind is the join of the kinds
   that occur, or text; a requested kind stands if every cell fits it. Without an
   override a column may be NULL; otherwise it may as asked, and where a row lacks
   a value.
   */
  lemma TypeOfColumn(rows: seq<Row>, name: string, r: Rules, o: Override)
    ensures var vs := Cells(rows, name);
            var t := TypeIn(rows, name, r, o);
            && (o.Requested? ==> t.kind == if HasMisfit(vs, r, o.t.kind) then Text else o.t.kind)
            && (!o.Requested? ==> Joins(Kinds(vs, r), HasBigInt(vs, r), t.kind)
                                  || (t.kind == Text && forall k :: !Joins(Kinds(vs, r), HasBigInt(vs, r), k)))
            && (o.NoOverride? ==> t.nullable)
            && (o.Source? ==> (t.nullable <==> o.nullable || LacksValue(rows, name, r, t.kind)))
            && (o.Requested? ==> (t.nullable <==> o.t.nullable || LacksValue(rows, name, r, t.kind)))
  {
    hide Fold, Cells, Kinds, HasBigInt, HasMisfit, IsToken, Joins, LacksValue, HasToken;
    var vs := Cells(rows, name);
    FoldDescribes(vs, r, o);
    LacksIff(rows, name, r, TypeIn(rows, name, r, o).kind);
    NoKinds(HasBigInt(vs, r));
  }

  lemma NoKinds(big: bool)
    ensures forall k :: !Joins({}, big, k)
  {
    forall k
      ensures !Joins({}, big, k)
    {
      assert k in {k} && Int64 in {Int64, Float64} && Date in {Date, Timestamp};
    }
  }

  lemma LacksIff(rows: seq<Row>, name: string, r: Rules, kind: Kind)
    ensures var vs := Cells(rows, name);
            LacksValue(rows, name, r, kind) <==>
            |vs| < |rows| || Null in vs || (kind != Text && HasToken(vs, r))
  {
    hide Cells, IsToken;
    var vs := Cells(rows, name);
    FewerCells(rows, name);
    forall v
      ensures v in vs <==> exists row :: row in rows && Holds(row, name, v)
    {
      CellsOf(rows, name, v);
    }
    if row :| row in rows && Misses(row, name) {
      assert name !in row;
    }
    if LacksValue(rows, name, r, kind) {
      var row: Row :| row in rows && (name !in row || row[name].Null? || (kind != Text && IsToken(row[name], r)));
      assert name !in row ==> Misses(row, name);
      assert name in row ==> Holds(row, name, row[name]);
    }
  }
}
