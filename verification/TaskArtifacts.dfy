/**
 Reports with artifact records: the records are sorted by file index and must
 then be numbered 0, 1, 2, ... for this task and attempt.
 */
module TaskArtifacts {
  import opened ControlPlane
  import opened ControlInvariant
  import opened ControlRuns
  import opened ControlTheorems

  predicate KeyLess(a: string, b: string) {
    b != "" && (a == "" || a[0] < b[0] || (a[0] == b[0] && KeyLess(a[1..], b[1..])))
  }

  predicate RecordLess(a: Record, b: Record) {
    a.fileIndex < b.fileIndex || (a.fileIndex == b.fileIndex && KeyLess(a.objectKey, b.objectKey))
  }

  predicate ByIndex(rs: seq<Record>) {
    forall i, j | 0 <= i < j < |rs| :: rs[i].fileIndex <= rs[j].fileIndex
  }

  function Insert(r: Record, rs: seq<Record>): (out: seq<Record>)
    requires ByIndex(rs)
    ensures ByIndex(out) && multiset(out) == multiset(rs) + multiset{r} && |out| == |rs| + 1
  {
    if rs == [] || RecordLess(r, rs[0]) then [r] + rs
    else
      var rest := Insert(r, rs[1..]);
      InsertStep(r, rs, rest);
      [rs[0]] + rest
  }

  lemma InsertStep(r: Record, rs: seq<Record>, rest: seq<Record>)
    requires rs != [] && ByIndex(rs) && !RecordLess(r, rs[0])
    requires ByIndex(rest) && multiset(rest) == multiset(rs[1..]) + multiset{r}
    ensures ByIndex([rs[0]] + rest) && multiset([rs[0]] + rest) == multiset(rs) + multiset{r}
  {
    hide KeyLess;
    assert rs == [rs[0]] + rs[1..];
    forall x | x in rest
      ensures rs[0].fileIndex <= x.fileIndex
    {
      assert x in multiset(rest);
      assert x == r || x in rs[1..];
    }
  }

  function Sorted(rs: seq<Record>): (out: seq<Record>)
    ensures ByIndex(out) && multiset(out) == multiset(rs) && |out| == |rs|
  {
    if rs == [] then []
    else
      assert rs == [rs[0]] + rs[1..];
      Insert(rs[0], Sorted(rs[1..]))
  }

  predicate BelongsTo(r: Record, task: Id, attempt: Id) { r.valid && r.task == task && r.attempt == attempt }

  predicate AllBelong(rs: seq<Record>, task: Id, attempt: Id) {
    forall i | 0 <= i < |rs| :: BelongsTo(rs[i], task, attempt)
  }

  /** The check: every record well-formed, for this attempt, and in its place. */
  predicate InPlace(rs: seq<Record>, task: Id, attempt: Id) {
    forall i | 0 <= i < |rs| :: BelongsTo(rs[i], task, attempt) && rs[i].fileIndex == i
  }

  /** The file indices are 0..n-1, each once. */
  predicate Numbered(rs: seq<Record>) {
    && (forall i | 0 <= i < |rs| :: 0 <= rs[i].fileIndex < |rs|)
    && (forall n | 0 <= n < |rs| :: HasIndex(rs, n))
  }

  predicate HasIndex(rs: seq<Record>, n: int) { exists i | 0 <= i < |rs| :: rs[i].fileIndex == n }

  lemma SameElements(a: seq<Record>, b: seq<Record>)
    requires multiset(a) == multiset(b)
    ensures forall x :: x in a <==> x in b
    ensures forall n :: HasIndex(a, n) <==> HasIndex(b, n)
  {
    assert forall x :: x in a <==> x in multiset(a);
    assert forall x :: x in b <==> x in multiset(b);
    forall n
      ensures HasIndex(a, n) <==> HasIndex(b, n)
    {
      if HasIndex(a, n) {
        var i :| 0 <= i < |a| && a[i].fileIndex == n;
        assert a[i] in b;
      }
      if HasIndex(b, n) {
        var i :| 0 <= i < |b| && b[i].fileIndex == n;
        assert b[i] in a;
      }
    }
  }

  /** In a sorted sequence that has every index, no index can be skipped from below ... */
  lemma {:induction false} AtMostPlace(rs: seq<Record>, i: nat)
    requires ByIndex(rs) && Numbered(rs) && i < |rs|
    ensures rs[i].fileIndex <= i
  {
    var n := if i == 0 then 0 else rs[i - 1].fileIndex + 1;
    if i > 0 {
      AtMostPlace(rs, i - 1);
    }
    if rs[i].fileIndex > i {
      assert HasIndex(rs, n);
      var k :| 0 <= k < |rs| && rs[k].fileIndex == n;
      assert false;
    }
  }

  /** ... nor from above. */
  lemma {:induction false} AtLeastPlace(rs: seq<Record>, i: nat)
    requires ByIndex(rs) && Numbered(rs) && i < |rs|
    ensures rs[i].fileIndex >= i
    decreases |rs| - i
  {
    var n := if i == |rs| - 1 then |rs| - 1 else rs[i + 1].fileIndex - 1;
    if i < |rs| - 1 {
      AtLeastPlace(rs, i + 1);
    }
    if rs[i].fileIndex < i {
      assert HasIndex(rs, n);
      var k :| 0 <= k < |rs| && rs[k].fileIndex == n;
      assert false;
    }
  }

  /** The check passes exactly when the records belong to the attempt and are numbered 0..n-1 in some order. */
  lemma RecordsAcceptedIff(rs: seq<Record>, task: Id, attempt: Id)
    ensures InPlace(Sorted(rs), task, attempt) <==>
            Numbered(rs) && AllBelong(rs, task, attempt)
  {
    var s := Sorted(rs);
    SameElements(s, rs);
    if InPlace(s, task, attempt) {
      forall i | 0 <= i < |rs|
        ensures BelongsTo(rs[i], task, attempt) && 0 <= rs[i].fileIndex < |rs|
      {
        assert rs[i] in s;
      }
      forall n | 0 <= n < |rs|
        ensures HasIndex(rs, n)
      {
        assert s[n].fileIndex == n;
        assert HasIndex(s, n);
      }
    } else if Numbered(rs) && AllBelong(rs, task, attempt) {
      forall i | 0 <= i < |s|
        ensures BelongsTo(s[i], task, attempt) && 0 <= s[i].fileIndex < |s|
      {
        assert s[i] in rs;
      }
      assert Numbered(s);
      forall i | 0 <= i < |s|
        ensures s[i].fileIndex == i
      {
        AtMostPlace(s, i);
        AtLeastPlace(s, i);
      }
    }
  }

  /** The loop over the sorted records. */
  method CheckRecords(records: seq<Record>, task: Id, attempt: Id) returns (sorted: seq<Record>, ok: bool)
    ensures sorted == Sorted(records)
    ensures ok <==> Numbered(records) && AllBelong(records, task, attempt)
  {
    hide Numbered, AllBelong, Sorted;
    sorted := Sorted(records);
    RecordsAcceptedIff(records, task, attempt);
    for i := 0 to |sorted|
      invariant forall k | 0 <= k < i :: BelongsTo(sorted[k], task, attempt) && sorted[k].fileIndex == k
    {
      if !sorted[i].valid || sorted[i].task != task || sorted[i].attempt != attempt || sorted[i].fileIndex != i {
        return sorted, false;
      }
    }
    return sorted, true;
  }

  /** The set 0..n-1. */
  function Range(n: nat): (s: set<int>)
    ensures forall k :: k in s <==> 0 <= k < n
  {
    if n == 0 then {} else Range(n - 1) + {n - 1}
  }

  lemma IndicesInPlace(rs: seq<Record>, task: Id, attempt: Id)
    requires InPlace(rs, task, attempt)
    ensures (set i | 0 <= i < |rs| :: rs[i].fileIndex) == Range(|rs|)
  {
    var found := set i | 0 <= i < |rs| :: rs[i].fileIndex;
    forall n | n in Range(|rs|)
      ensures n in found
    {
      assert rs[n].fileIndex == n;
    }
  }

  /** After an accepted report of `n` checked records the attempt has exactly the artifacts 0..n-1, for ever. */
  lemma StoredIndicesAreConsecutive(db: Db, c: Caller, r: Report, records: seq<Record>, digest: string, k: string,
                                    now: Time, wall: Time, es: seq<Event>)
    requires Inv(db) && ArtifactsOk(db) && r.strict && r.records == Sorted(records)
    requires InPlace(Sorted(records), c.task, c.attempt)
    requires Judge(db, c, r, digest, now) == Accepted(TaskStatus.Succeeded)
    ensures FileIndices(Execute(Complete(db, c, r, digest, k, now, wall), es), c.attempt) == Range(|records|)
  {
    hide Execute, Complete, Judge, Inv, ArtifactsOk, Sorted, FileIndices;
    StoredIndices(db, c, r, digest, k, now, wall, es);
    IndicesInPlace(Sorted(records), c.task, c.attempt);
  }
}
