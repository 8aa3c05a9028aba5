/**
 The text that identifies a task result. Its hash is compared on every retry, so
 what matters is when two reports have the same text. (The hash itself is taken
 to be injective.)
 */
module ResultDigest {
  import opened Prelude
  import opened ControlPlane
  import opened ControlInvariant
  import opened ControlRuns
  import opened ControlTheorems
  import opened DecimalText

  const NUL := 0 as char

  function MessageText(r: Report): string { if r.message.Some? then r.message.value else "" }

  /** status NUL objects NUL rows NUL read NUL written NUL message [NUL boundary] */
  function ResultText(r: Report): string {
    r.status + ([NUL] + (r.objects + ([NUL] + (Decimal(r.counters.rows) + ([NUL] + (Decimal(r.counters.bytesRead)
    + ([NUL] + (Decimal(r.counters.bytesWritten) + ([NUL] + Tail(r))))))))))
  }

  function Tail(r: Report): string { MessageText(r) + (if r.boundary == "" then "" else [NUL] + r.boundary) }

  /** The fields that identify a result; failure class and record details are not among them. */
  predicate SameResult(r: Report, r': Report) {
    && r.status == r'.status
    && r.objects == r'.objects
    && r.counters == r'.counters
    && MessageText(r) == MessageText(r')
    && r.boundary == r'.boundary
  }

  /** JSON objects and status words hold no NUL. */
  predicate CleanHead(r: Report) { NUL !in r.status && NUL !in r.objects }

  /** No NUL in the message before its last byte. */
  predicate CleanMessage(m: string) { forall i | 0 <= i < |m| - 1 :: m[i] != NUL }

  /** The first NUL splits a text in one way only. */
  lemma SplitAtNul(a: string, x: string, b: string, y: string)
    requires NUL !in a && NUL !in b && a + ([NUL] + x) == b + ([NUL] + y)
    ensures a == b && x == y
  {
    var s := a + ([NUL] + x);
    assert s[|a|] == NUL && s[|b|] == NUL;
    assert s[..|a|] == a && s[..|b|] == b;
    assert s[|a| + 1..] == x && s[|b| + 1..] == y;
  }

  lemma DecimalHasNoNul(n: int)
    ensures NUL !in Decimal(n)
  {
    hide Decimal;
  }

  /** Up to the message the text determines every field. */
  lemma HeadIdentifies(r: Report, r': Report)
    requires CleanHead(r) && CleanHead(r') && ResultText(r) == ResultText(r')
    ensures r.status == r'.status && r.objects == r'.objects && r.counters == r'.counters && Tail(r) == Tail(r')
  {
    hide Decimal, Tail;
    var c, c' := r.counters, r'.counters;
    var t5, t5' := Tail(r), Tail(r');
    var t4, t4' := Decimal(c.bytesWritten) + ([NUL] + t5), Decimal(c'.bytesWritten) + ([NUL] + t5');
    var t3, t3' := Decimal(c.bytesRead) + ([NUL] + t4), Decimal(c'.bytesRead) + ([NUL] + t4');
    var t2, t2' := Decimal(c.rows) + ([NUL] + t3), Decimal(c'.rows) + ([NUL] + t3');
    forall n
      ensures NUL !in Decimal(n)
    {
      DecimalHasNoNul(n);
    }
    SplitAtNul(r.status, r.objects + ([NUL] + t2), r'.status, r'.objects + ([NUL] + t2'));
    SplitAtNul(r.objects, t2, r'.objects, t2');
    SplitAtNul(Decimal(c.rows), t3, Decimal(c'.rows), t3');
    SplitAtNul(Decimal(c.bytesRead), t4, Decimal(c'.bytesRead), t4');
    SplitAtNul(Decimal(c.bytesWritten), t5, Decimal(c'.bytesWritten), t5');
    DecimalInjective(c.rows, c'.rows);
    DecimalInjective(c.bytesRead, c'.bytesRead);
    DecimalInjective(c.bytesWritten, c'.bytesWritten);
  }

  /** Nobody else's result has this text. */
  ghost predicate Identified(r: Report) {
    forall r': Report | CleanHead(r') && ResultText(r') == ResultText(r) :: SameResult(r', r)
  }

  /** No boundary, and a message that cannot be mistaken for a message with a boundary. */
  predicate Unmistakable(r: Report) { r.boundary == "" && CleanMessage(MessageText(r)) }

  lemma UnmistakableIsIdentified(r: Report, r': Report)
    requires CleanHead(r) && CleanHead(r') && Unmistakable(r) && ResultText(r') == ResultText(r)
    ensures SameResult(r', r)
  {
    hide ResultText;
    var m, m' := MessageText(r), MessageText(r');
    assert Tail(r) == m;
    assert r'.boundary != "" ==> Tail(r')[|m'|] == NUL && |m'| < |Tail(r')| - 1;
    HeadIdentifies(r, r');
  }

  /** The report that a boundary, or a NUL inside the message, can be mistaken for. */
  function Impostor(r: Report): Report
    requires !Unmistakable(r)
  {
    var m := MessageText(r);
    if r.boundary != "" then r.(message := Some(m + [NUL] + r.boundary), boundary := "")
    else
      var i := FirstNul(m);
      r.(message := Some(m[..i]), boundary := m[i + 1..])
  }

  /** The place of the first NUL. */
  function FirstNul(m: string): (i: nat)
    requires !CleanMessage(m)
    ensures i < |m| - 1 && m[i] == NUL
  {
    if m[0] == NUL then 0
    else
      assert !CleanMessage(m[1..]) by {
        var k :| 0 <= k < |m| - 1 && m[k] == NUL;
        assert m[1..][k - 1] == NUL;
      }
      1 + FirstNul(m[1..])
  }

  lemma ImpostorHasSameText(r: Report)
    requires !Unmistakable(r)
    ensures ResultText(Impostor(r)) == ResultText(r) && !SameResult(Impostor(r), r)
    ensures CleanHead(r) ==> CleanHead(Impostor(r))
  {
    hide ResultText, CleanMessage, FirstNul;
    if r.boundary == "" {
      SplitsAt(MessageText(r), FirstNul(MessageText(r)));
    } else {
      Joins(MessageText(r), r.boundary);
    }
    SameTailSameText(Impostor(r), r);
  }

  lemma SplitsAt(m: string, i: nat)
    requires i < |m| - 1 && m[i] == NUL
    ensures m[..i] + ([NUL] + m[i + 1..]) == m && m[i + 1..] != ""
  {
  }

  lemma Joins(m: string, b: string)
    ensures m + [NUL] + b == m + ([NUL] + b)
  {
  }

  lemma SameTailSameText(r: Report, r': Report)
    requires r.status == r'.status && r.objects == r'.objects && r.counters == r'.counters && Tail(r) == Tail(r')
    ensures ResultText(r) == ResultText(r')
  {
    hide Tail, Decimal;
  }

  /**
   A result is identified by its text if and only if it has no boundary and no NUL before
   the last byte of its message.
   */
  lemma IdentifiedIff(r: Report)
    requires CleanHead(r)
    ensures Identified(r) <==> Unmistakable(r)
  {
    hide ResultText;
    if Unmistakable(r) {
      forall r': Report | CleanHead(r') && ResultText(r') == ResultText(r)
        ensures SameResult(r', r)
      {
        UnmistakableIsIdentified(r, r');
      }
    } else {
      ImpostorHasSameText(r);
    }
  }

  // ----- without any condition on the other report -----

  function Nuls(s: string): nat { multiset(s)[NUL] }

  lemma NulsAdd(a: string, b: string)
    ensures Nuls(a + b) == Nuls(a) + Nuls(b)
  {
    assert multiset(a + b) == multiset(a) + multiset(b);
  }

  lemma NulsZero(a: string)
    ensures Nuls(a) == 0 <==> NUL !in a
  {
    assert NUL in a <==> NUL in multiset(a);
  }

  lemma NulsOfText(r: Report)
    ensures Nuls(ResultText(r)) == Nuls(r.status) + Nuls(r.objects) + 5 + Nuls(MessageText(r))
                                   + if r.boundary == "" then 0 else 1 + Nuls(r.boundary)
  {
    hide Decimal, Nuls;
    var c := r.counters;
    forall n
      ensures Nuls(Decimal(n)) == 0
    {
      DecimalHasNoNul(n);
      NulsZero(Decimal(n));
    }
    forall a, b
      ensures Nuls(a + b) == Nuls(a) + Nuls(b)
    {
      NulsAdd(a, b);
    }
    OneNul();
  }

  lemma OneNul()
    ensures Nuls([NUL]) == 1 && Nuls("") == 0
  {
  }

  /** A result without NUL and boundary is told from every other report whatever. */
  lemma PlainIsIdentified(r: Report, r': Report)
    requires CleanHead(r) && NUL !in MessageText(r) && r.boundary == ""
    ensures ResultText(r') == ResultText(r) <==> SameResult(r', r)
  {
    hide ResultText;
    if ResultText(r') == ResultText(r) {
      NulsOfText(r);
      NulsOfText(r');
      NulsZero(r.status);
      NulsZero(r.objects);
      NulsZero(MessageText(r));
      NulsZero(r'.status);
      NulsZero(r'.objects);
      UnmistakableIsIdentified(r, r');
    } else if SameResult(r', r) {
      SameResultSameText(r', r);
    }
  }

  lemma SameResultSameText(r: Report, r': Report)
    requires SameResult(r, r')
    ensures ResultText(r) == ResultText(r')
  {
  }

  // ----- retries -----

  /** The answer to a retry, and that it changes nothing. */
  predicate Settles(db: Db, c: Caller, r: Report, k: string, now: Time, wall: Time, answer: Outcome) {
    Judge(db, c, r, ResultText(r), now) == answer && Complete(db, c, r, ResultText(r), k, now, wall) == db
  }

  predicate AcceptedAs(db: Db, c: Caller, r: Report, now: Time, final: TaskStatus) {
    && Judge(db, c, r, ResultText(r), now) == Accepted(final)
    && (final == TaskStatus.Succeeded || final == TaskStatus.Failed)
  }

  /**
   After a report was accepted, in every later state: an identical report is
   answered "already accepted"; a different one is a conflict, provided the
   accepted one is unmistakable. Neither changes a row.
   */
  lemma RetryIsAnswered(db: Db, c: Caller, r: Report, k: string, now: Time, wall: Time, final: TaskStatus,
      es: seq<Event>,
                        r': Report, k': string, now': Time, wall': Time)
    requires Inv(db) && AcceptedAs(db, c, r, now, final) && CleanHead(r) && CleanHead(r')
    ensures var after := Execute(Complete(db, c, r, ResultText(r), k, now, wall), es);
            && (SameResult(r', r) ==> Settles(after, c, r', k', now', wall', AlreadyAccepted(final)))
            && (!SameResult(r', r) && Unmistakable(r) ==> Settles(after, c, r', k', now', wall', Conflict))
  {
    hide Execute, Complete, Judge, Inv, ResultText;
    AcceptedReportIsSettled(db, c, r, ResultText(r), k, now, wall, es, r', ResultText(r'), k', now', wall');
    if SameResult(r', r) {
      SameResultSameText(r', r);
    } else if Unmistakable(r) && ResultText(r') == ResultText(r) {
      UnmistakableIsIdentified(r, r');
      assert false;
    }
  }

  /** Every different report is rejected. */
  ghost predicate RejectsOthers(db: Db, c: Caller, r: Report) {
    forall r': Report, now: Time | CleanHead(r') && !SameResult(r', r) ::
        Judge(db, c, r', ResultText(r'), now) == Conflict
  }

  /** In every later state every different report is rejected, if and only if the accepted one is unmistakable. */
  lemma OthersRejectedIff(db: Db, c: Caller, r: Report, k: string, now: Time, wall: Time, final: TaskStatus,
      es: seq<Event>)
    requires Inv(db) && AcceptedAs(db, c, r, now, final) && CleanHead(r)
    ensures RejectsOthers(Execute(Complete(db, c, r, ResultText(r), k, now, wall), es), c, r) <==> Unmistakable(r)
  {
    hide Execute, Complete, Judge, Inv, ResultText;
    var after := Execute(Complete(db, c, r, ResultText(r), k, now, wall), es);
    if Unmistakable(r) {
      forall r': Report, t: Time | CleanHead(r') && !SameResult(r', r)
        ensures Judge(after, c, r', ResultText(r'), t) == Conflict
      {
        RetryIsAnswered(db, c, r, k, now, wall, final, es, r', k, t, wall);
      }
    } else {
      var o := Impostor(r);
      ImpostorHasSameText(r);
      AcceptedReportIsSettled(db, c, r, ResultText(r), k, now, wall, es, o, ResultText(o), k, now, wall);
      assert Judge(after, c, o, ResultText(o), now) != Conflict;
    }
  }
}
