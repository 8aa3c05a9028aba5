/** When a file is rolled, on the sizes themselves. */
module ParquetSizes {
  import opened Prelude
  import opened ParquetRolling

  /** The configured target, 256 MiB by default. */
  function Aim(s: Rolling): int { if s.target <= 0 then 268_435_456 else s.target }

  /** A ratio between compressed and logical bytes is known. */
  predicate RatioKnown(s: Rolling) { s.logicalBytes > 0 && s.encodedBytes > 0 }

  /** `p` is the rounded compressed size of so many logical bytes at the ratio of the open file. */
  predicate Predicts(s: Rolling, bytes: int, p: int) {
    if RatioKnown(s) then p * s.logicalBytes <= bytes * s.encodedBytes < (p + 1) * s.logicalBytes else p == bytes
  }

  /** No product or sum leaves the 64-bit range. */
  predicate InRange(s: Rolling, bytes: int, p: int) {
    && 0 <= s.encodedBytes
    && 0 <= bytes
    && 20 * Aim(s) < TWO_63
    && (RatioKnown(s) ==> bytes * s.encodedBytes < TWO_63)
    && s.encodedBytes + p < TWO_63
  }

  lemma InRangeIsExact(n: int)
    requires 0 <= n < TWO_63
    ensures Wrap64(n) == n
  {
  }

  lemma QuotientIs(a: int, b: int, q: int)
    requires 0 <= a && 0 < b && q * b <= a < (q + 1) * b
    ensures Quotient(a, b) == q
  {
    DivisionIs(a, b, q);
  }

  /** At least 80% of the target is reached. */
  lemma NearIff(target: int, encoded: int)
    requires 0 < target && 20 * target < TWO_63
    ensures encoded >= NearTarget(target) <==> 100 * encoded >= 80 * target
  {
    InRangeIsExact(target * OVERSHOOT);
    QuotientIs(target * OVERSHOOT, 100, target / 5);
    InRangeIsExact(target - target / 5);
  }

  /**
   A batch closes the open file if and only if the file has reached 80% of the
   target and, with the batch at the ratio seen so far, would exceed 120% of it.
   */
  lemma RollsIff(s: Rolling, batch: seq<Row>, z: Sizes, p: int)
    requires RollingOk(s) && batch != []
    requires Predicts(s, z.measure(batch), p) && InRange(s, z.measure(batch), p)
    ensures var s' := Written(s, batch, z);
            var rolls := s.isOpen && 100 * s.encodedBytes >= 80 * Aim(s) && 100 * (s.encodedBytes + p) > 120 * Aim(s);
            && (|s'.files| == |s.files| + 1 <==> rolls)
            && (rolls ==> s'.files[|s.files|].rows == Join(s.current) && s'.current == [batch])
            && (!rolls ==> s'.files == s.files && s'.current == s.current + [batch])
            && s'.encodedBytes == z.encode(s'.current)
            && s'.logicalBytes == Wrap64((if rolls then 0 else s.logicalBytes) + z.measure(batch))
            && s'.rowCount == (if rolls then 0 else s.rowCount) + |batch|
  {
    hide RollingOk, NearTarget, Quotient, Wrap64, Join;
    var target, bytes := Aim(s), z.measure(batch);
    if RatioKnown(s) {
      assert bytes * s.encodedBytes >= 0;
      InRangeIsExact(bytes * s.encodedBytes);
      QuotientIs(bytes * s.encodedBytes, s.logicalBytes, p);
      PredictionIsNatural(bytes * s.encodedBytes, s.logicalBytes, p);
    }
    InRangeIsExact(s.encodedBytes + p);
    InRangeIsExact(target * OVERSHOOT);
    QuotientIs(target * OVERSHOOT, 100, target / 5);
    InRangeIsExact(target + target / 5);
    NearIff(target, s.encodedBytes);
    OpenHasRows(s);
  }

  lemma PredictionIsNatural(a: int, b: int, q: int)
    requires 0 <= a && 0 < b && a < (q + 1) * b
    ensures 0 <= q
  {
    TimesGrows(q + 1, 0, b);
  }

  lemma OpenHasRows(s: Rolling)
    requires RollingOk(s)
    ensures s.isOpen <==> s.rowCount > 0
  {
  }

  /**
   A file that stays open and compresses no worse than predicted ends at most
   at 120% of the target, or at 80% of it plus one batch.
   */
  lemma KeptOpenIsBounded(s: Rolling, batch: seq<Row>, z: Sizes, p: int)
    requires RollingOk(s) && s.isOpen && batch != []
    requires Predicts(s, z.measure(batch), p) && InRange(s, z.measure(batch), p)
    requires z.encode(s.current + [batch]) <= s.encodedBytes + p
    ensures var s' := Written(s, batch, z);
            s'.files == s.files ==>
              100 * s'.encodedBytes <= 120 * Aim(s) || 100 * (s'.encodedBytes - p) < 80 * Aim(s)
  {
    hide RollingOk, ShouldRollBefore;
    RollsIff(s, batch, z, p);
  }

  /** Outside the 64-bit range it fails: a product that wraps makes the prediction negative, and the file is kept. */
  lemma WrappedProductKeepsOpen(row: Row)
    ensures var batch := [row];
            var z := Sizes(_ => 0, _ => 0x8_0000_0000);
            var s := Rolling(0, "", true, [batch], 1, 0x1000_0000, 0x1000_0000, []);
            && RollingOk(s)
            && Predicts(s, z.measure(batch), 0x8_0000_0000)
            && 100 * (s.encodedBytes + 0x8_0000_0000) > 120 * Aim(s)
            && 100 * s.encodedBytes >= 80 * Aim(s)
            && Written(s, batch, z).files == []
  {
    var batch := [row];
    assert Join([batch]) == Join([batch][..0]) + batch;
    assert Wrap64(0x8_0000_0000 * 0x1000_0000) == -TWO_63;
  }
}
