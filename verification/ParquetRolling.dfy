/** A rolling sequence of output files. */
module ParquetRolling {
  import opened Prelude

  datatype Row = Row(cells: seq<string>)

  /** A finished file; `rolled` says that it was closed to start the next one. */
  datatype File = File(rows: seq<Row>, footer: string, rowCount: nat, logicalBytes: int, encodedBytes: int,
      rolled: bool)

  /** Integer division of Go, toward zero. */
  function Quotient(a: int, b: int): int
    requires b != 0
  {
    if (a >= 0) == (b > 0) then (if a >= 0 then a else -a) / (if b > 0 then b else -b)
    else -((if a >= 0 then a else -a) / (if b > 0 then b else -b))
  }

  const DEFAULT_TARGET: int := 256 * 1024 * 1024
  const OVERSHOOT: int := 20

  function Target(configured: int): (t: int)
    ensures t > 0
  {
    if configured <= 0 then DEFAULT_TARGET else configured
  }

  /** Below this size a file is not rolled; 64-bit arithmetic. */
  function NearTarget(target: int): int { Wrap64(target - Quotient(Wrap64(target * OVERSHOOT), 100)) }

  /**
   The threshold is at least 80% of the target, for every 64-bit target: where
   the product wraps the quotient is small, and near 2^63 it is exactly a fifth
   of the distance to 2^63 below zero.
   */
  lemma EightyPercent(target: int)
    requires 0 < target < TWO_63
    ensures 100 * NearTarget(target) >= 80 * target
  {
    var gap := TWO_63 - target;
    var product := target * OVERSHOOT;
    var wrapped := Wrap64(product);
    assert wrapped <= product && -TWO_63 <= wrapped < TWO_63;
    var fifth := Quotient(wrapped, 100);
    assert 100 * fifth <= product;
    if 20 * gap <= TWO_63 {
      assert wrapped == -20 * gap;
      assert fifth == -(20 * gap / 100);
    } else {
      assert fifth >= -(TWO_63 / 100) - 1;
    }
    assert 0 < target - fifth < TWO_63;
  }

  /** The rows of several files, one after the other. */
  function Rows(files: seq<File>): seq<Row> {
    if files == [] then [] else Rows(files[..|files| - 1]) + files[|files| - 1].rows
  }

  lemma RowsAppend(files: seq<File>, f: File)
    ensures Rows(files + [f]) == Rows(files) + f.rows
  {
    assert (files + [f])[..|files|] == files;
  }

  /** Files closed by rolling have reached the threshold, and counters agree with contents. */
  predicate FilesOk(files: seq<File>, footer: string, target: int) {
    forall i | 0 <= i < |files| ::
      && files[i].rows != []
      && files[i].rowCount == |files[i].rows|
      && files[i].footer == footer
      && (files[i].rolled ==> files[i].encodedBytes >= NearTarget(Target(target)))
  }

  /** How large rows are: compressed, for the batches written to one file, and in memory, for a batch. */
  datatype Sizes = Sizes(encode: seq<seq<Row>> -> int, measure: seq<Row> -> int)

  /** Batches, one after the other. */
  function Join(batches: seq<seq<Row>>): seq<Row> {
    if batches == [] then [] else Join(batches[..|batches| - 1]) + batches[|batches| - 1]
  }

  lemma JoinMore(batches: seq<seq<Row>>, b: seq<Row>)
    ensures Join(batches + [b]) == Join(batches) + b
  {
    assert (batches + [b])[..|batches|] == batches;
  }

  /** The state of one writer. */
  datatype Rolling = Rolling(
    target: int, footer: string, isOpen: bool, current: seq<seq<Row>>, rowCount: nat,
    logicalBytes: int, encodedBytes: int, files: seq<File>)

  function NewRolling(target: int, footer: string): Rolling { Rolling(target, footer, false, [], 0, 0, 0, []) }

  predicate RollingOk(s: Rolling) {
    && s.rowCount == |Join(s.current)|
    && (s.isOpen <==> Join(s.current) != [])
    && (!s.isOpen ==> s.current == [])
    && (!s.isOpen ==> s.logicalBytes == 0 && s.encodedBytes == 0)
    && FilesOk(s.files, s.footer, s.target)
  }

  /** Everything written, in order. */
  function Contents(s: Rolling): seq<Row> { Rows(s.files) + Join(s.current) }

  /** The file is near its target and the batch, at the compression seen so far, would overshoot. */
  predicate ShouldRollBefore(s: Rolling, nextLogicalBytes: int) {
    s.isOpen && s.rowCount > 0 &&
    var target := Target(s.target);
    var predicted :=
      if s.logicalBytes > 0 && s.encodedBytes > 0
      then Quotient(Wrap64(nextLogicalBytes * s.encodedBytes), s.logicalBytes) else nextLogicalBytes;
    var most := Wrap64(target + Quotient(Wrap64(target * OVERSHOOT), 100));
    s.encodedBytes >= NearTarget(target) && Wrap64(s.encodedBytes + predicted) > most
  }

  function Closed(s: Rolling, rolled: bool): Rolling {
    if !s.isOpen then s
    else
      s.(files := s.files + [File(Join(s.current), s.footer, s.rowCount, s.logicalBytes, s.encodedBytes, rolled)],
         isOpen := false, current := [], rowCount := 0, logicalBytes := 0, encodedBytes := 0)
  }

  function Written(s: Rolling, batch: seq<Row>, z: Sizes): Rolling {
    if batch == [] then s
    else
      var bytes := z.measure(batch);
      var r := if ShouldRollBefore(s, bytes) then Closed(s, true) else s;
      r.(isOpen := true, current := r.current + [batch], rowCount := r.rowCount + |batch|,
         logicalBytes := Wrap64(r.logicalBytes + bytes), encodedBytes := z.encode(r.current + [batch]))
  }

  lemma ClosedKeeps(s: Rolling, rolled: bool)
    requires RollingOk(s) && (rolled ==> s.encodedBytes >= NearTarget(Target(s.target)))
    ensures RollingOk(Closed(s, rolled)) && Contents(Closed(s, rolled)) == Contents(s)
  {
    hide NearTarget, Target;
    if s.isOpen {
      RowsAppend(s.files, File(Join(s.current), s.footer, s.rowCount, s.logicalBytes, s.encodedBytes, rolled));
    }
  }

  /**
   A batch is appended whole; a file that is closed to make room for it has
   reached the threshold, and files that were finished stay as they are.
   */
  lemma WrittenKeeps(s: Rolling, batch: seq<Row>, z: Sizes)
    requires RollingOk(s)
    ensures var s' := Written(s, batch, z);
            && RollingOk(s')
            && Contents(s') == Contents(s) + batch
            && (batch != [] ==> s'.isOpen)
            && s'.footer == s.footer
            && s'.target == s.target
            && (s'.files == s.files ||
                (|s'.files| == |s.files| + 1 && s.files <= s'.files && s'.files[|s.files|].rolled))
  {
    hide NearTarget, Target, Quotient, Wrap64;
    if batch != [] {
      if ShouldRollBefore(s, z.measure(batch)) {
        ClosedKeeps(s, true);
      }
      JoinMore(s.current, batch);
      JoinMore([], batch);
    }
  }

  class RollingWriter {
    const targetFileBytes: int
    const footer: string
    const sizes: Sizes
    var isOpen: bool
    var current: seq<seq<Row>>
    var currentRows: nat
    var currentLogicalBytes: int
    var currentEncodedBytes: int
    var files: seq<File>

    constructor (target: int, key: string, z: Sizes)
      ensures State() == NewRolling(target, key) && sizes == z
    {
      targetFileBytes, footer, sizes := target, key, z;
      isOpen, current, currentRows, currentLogicalBytes, currentEncodedBytes, files := false, [], 0, 0, 0, [];
    }

    function State(): Rolling
      reads this
    {
      Rolling(targetFileBytes, footer, isOpen, current, currentRows, currentLogicalBytes, currentEncodedBytes, files)
    }

    method CloseCurrent(rolled: bool)
      modifies this
      ensures State() == Closed(old(State()), rolled)
    {
      if !isOpen {
        return;
      }
      files := files + [File(Join(current), footer, currentRows, currentLogicalBytes, currentEncodedBytes, rolled)];
      isOpen, current, currentRows, currentLogicalBytes, currentEncodedBytes := false, [], 0, 0, 0;
    }

    method Write(batch: seq<Row>)
      modifies this
      ensures State() == Written(old(State()), batch, sizes)
      ensures RollingOk(old(State())) ==> RollingOk(State()) && Contents(State()) == Contents(old(State())) + batch
    {
      hide ShouldRollBefore, RollingOk, Contents;
      if RollingOk(State()) {
        WrittenKeeps(State(), batch, sizes);
      }
      if batch == [] {
        return;
      }
      var bytes := sizes.measure(batch);
      if ShouldRollBefore(State(), bytes) {
        CloseCurrent(true);
      }
      isOpen := true;
      current := current + [batch];
      currentRows := currentRows + |batch|;
      currentLogicalBytes := Wrap64(currentLogicalBytes + bytes);
      currentEncodedBytes := sizes.encode(current);
    }

    method Close()
      modifies this
      ensures State() == Closed(old(State()), false)
      ensures RollingOk(old(State())) ==> RollingOk(State()) && !isOpen && Rows(files) == Contents(old(State()))
    {
      if RollingOk(State()) {
        ClosedKeeps(State(), false);
      }
      CloseCurrent(false);
    }
  }
}
