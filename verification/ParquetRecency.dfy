/** Which partitions keep an open file: the ones written most recently. */
module ParquetRecency {
  import opened Prelude
  import opened ParquetRolling
  import opened ParquetPartitioned

  /** The open list after a sequence of writes to partitions. */
  function Opened(writes: seq<string>, maxOpen: int): seq<string> {
    if writes == [] then []
    else Recent(Opened(writes[..|writes| - 1], maxOpen), writes[|writes| - 1], maxOpen)
  }

  /** When a partition was last written, -1 for never. */
  function Last(writes: seq<string>, k: string): (i: int)
    ensures -1 <= i < |writes|
    ensures i >= 0 ==> writes[i] == k
    ensures forall j | i < j < |writes| :: writes[j] != k
  {
    if writes == [] then -1
    else if writes[|writes| - 1] == k then |writes| - 1
    else Last(writes[..|writes| - 1], k)
  }

  /** Ordered by last write, and every partition written but not listed was written before all that are. */
  predicate MostRecent(open: seq<string>, writes: seq<string>, maxOpen: int) {
    && |open| <= maxOpen
    && (forall i | 0 <= i < |open| :: Last(writes, open[i]) >= 0)
    && (forall i, j | 0 <= i < j < |open| :: Last(writes, open[i]) < Last(writes, open[j]))
    && (forall k | k in writes && k !in open :: |open| == maxOpen && OlderThanAll(open, writes, k))
  }

  predicate OlderThanAll(open: seq<string>, writes: seq<string>, k: string) {
    forall i | 0 <= i < |open| :: Last(writes, k) < Last(writes, open[i])
  }

  lemma LastMore(writes: seq<string>, x: string, k: string)
    ensures Last(writes + [x], k) == if k == x then |writes| else Last(writes, k)
  {
    assert (writes + [x])[..|writes|] == writes;
  }

  /** A list without one of its keys, in the old order. */
  lemma WithoutPresent(open: seq<string>, at: nat)
    requires at < |open| && Distinct(open)
    ensures Without(open, open[at]) == open[..at] + open[at + 1..]
  {
    TouchIsWithout(open, at);
    var a, b := Without(open, open[at]), open[..at] + open[at + 1..];
    assert a + [open[at]] == b + [open[at]];
    assert a == (a + [open[at]])[..|a|] && b == (b + [open[at]])[..|b|];
  }

  /** `stays` is the list without the key at `at`, or all of it when that is -1. */
  predicate Drops(open: seq<string>, stays: seq<string>, at: int) {
    && -1 <= at < |open|
    && |stays| == (if at < 0 then |open| else |open| - 1)
    && forall i | 0 <= i < |stays| :: stays[i] == open[if at < 0 || i < at then i else i + 1]
  }

  /** What stays before the new key: the old list without that key, or without its first if it must give way. */
  lemma Remaining(open: seq<string>, x: string, maxOpen: int) returns (at: int, stays: seq<string>)
    requires Distinct(open) && |open| <= maxOpen && maxOpen >= 1
    ensures Drops(open, stays, at) && x !in stays && Recent(open, x, maxOpen) == stays + [x]
    ensures at >= 0 ==> open[at] == x || (at == 0 && |open| == maxOpen)
    ensures at < 0 ==> |open| < maxOpen
  {
    if x in open {
      var i :| 0 <= i < |open| && open[i] == x;
      WithoutPresent(open, i);
      at, stays := i, open[..i] + open[i + 1..];
    } else if Evicts(open, x, maxOpen) {
      at, stays := 0, open[1..];
    } else {
      WithoutAbsent(open, x);
      at, stays := -1, open;
    }
  }

  lemma DistinctByLast(open: seq<string>, writes: seq<string>, maxOpen: int)
    requires MostRecent(open, writes, maxOpen)
    ensures Distinct(open)
  {
    hide Last, OlderThanAll;
  }

  /** The kept keys stay in order. */
  lemma StaysOrdered(open: seq<string>, stays: seq<string>, at: int, writes: seq<string>, x: string, maxOpen: int)
    requires MostRecent(open, writes, maxOpen) && Drops(open, stays, at) && x !in stays
    ensures forall i | 0 <= i < |stays| :: 0 <= Last(writes + [x], stays[i]) < |writes|
    ensures forall i, j | 0 <= i < j < |stays| :: Last(writes + [x], stays[i]) < Last(writes + [x], stays[j])
  {
    hide Last, OlderThanAll;
    forall i | 0 <= i < |stays|
      ensures Last(writes + [x], stays[i]) == Last(writes, stays[i])
    {
      LastMore(writes, x, stays[i]);
    }
    assert forall i | 0 <= i < |stays| :: Last(writes, stays[i]) < |writes|;
  }

  lemma OthersStay(open: seq<string>, stays: seq<string>, at: int, j: nat)
    requires Drops(open, stays, at) && j < |open|
    ensures j != at ==> open[j] in stays
  {
    if j != at {
      var i := if at < 0 || j < at then j else j - 1;
      assert stays[i] == open[j];
    }
  }

  /** A key that is not kept is older than all that are. */
  lemma DroppedIsOlder(open: seq<string>, stays: seq<string>, at: int, writes: seq<string>, maxOpen: int, k: string)
    requires MostRecent(open, writes, maxOpen) && Drops(open, stays, at) && (at > 0 ==> k != open[at])
    requires k in writes && k !in stays
    ensures OlderThanAll(stays, writes, k)
    ensures k !in open ==> |open| == maxOpen
    ensures k in open ==> at == 0 && open[0] == k
  {
    hide Last;
    if k in open {
      var j :| 0 <= j < |open| && open[j] == k;
      OthersStay(open, stays, at, j);
    }
  }

  lemma RecentStep(open: seq<string>, writes: seq<string>, x: string, maxOpen: int)
    requires maxOpen >= 1 && MostRecent(open, writes, maxOpen)
    ensures MostRecent(Recent(open, x, maxOpen), writes + [x], maxOpen)
  {
    hide Last, Recent, OlderThanAll, Drops;
    DistinctByLast(open, writes, maxOpen);
    var at, stays := Remaining(open, x, maxOpen);
    var next, more := stays + [x], writes + [x];
    DropsSize(open, stays, at);
    StaysOrdered(open, stays, at, writes, x, maxOpen);
    LastMore(writes, x, x);
    assert next[|stays|] == x;
    assert forall i | 0 <= i < |stays| :: next[i] == stays[i];
    forall k | k in more && k !in next
      ensures |next| == maxOpen && OlderThanAll(next, more, k)
    {
      assert k != x;
      DroppedIsOlder(open, stays, at, writes, maxOpen, k);
      OlderMore(stays, writes, x, k);
    }
  }

  lemma DropsSize(open: seq<string>, stays: seq<string>, at: int)
    requires Drops(open, stays, at)
    ensures |stays| == if at < 0 then |open| else |open| - 1
  {
  }

  lemma OlderMore(stays: seq<string>, writes: seq<string>, x: string, k: string)
    requires OlderThanAll(stays, writes, k) && x !in stays && k != x
    ensures OlderThanAll(stays + [x], writes + [x], k)
  {
    hide Last;
    LastMore(writes, x, k);
    LastMore(writes, x, x);
    forall i | 0 <= i < |stays|
      ensures Last(writes + [x], stays[i]) == Last(writes, stays[i])
    {
      LastMore(writes, x, stays[i]);
    }
    assert Last(writes, k) < |writes|;
  }

  /**
   After any writes the partitions with an open file are the last `maxOpen` different
   ones written, least recently written first: only older ones were closed.
   */
  lemma {:induction false} OpenedIsMostRecent(writes: seq<string>, maxOpen: int)
    requires maxOpen >= 1
    ensures MostRecent(Opened(writes, maxOpen), writes, maxOpen)
    decreases |writes|
  {
    if writes != [] {
      hide MostRecent, Recent, Last;
      var n := |writes| - 1;
      OpenedIsMostRecent(writes[..n], maxOpen);
      RecentStep(Opened(writes[..n], maxOpen), writes[..n], writes[n], maxOpen);
      assert writes[..n] + [writes[n]] == writes;
    }
  }
}
