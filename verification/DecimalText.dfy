/** Decimal text of integers, as the standard library writes and reads it. */
module DecimalText {
  import opened Prelude
  import opened Trimming

  function Digits(n: nat): (s: string)
    ensures s != "" && forall i | 0 <= i < |s| :: '0' <= s[i] <= '9'
    ensures s[0] == '0' <==> n == 0
  {
    var last := [(48 + n % 10) as char];
    if n < 10 then last else Digits(n / 10) + last
  }

  function Decimal(n: int): (s: string)
    ensures s != "" && forall i | 0 <= i < |s| :: s[i] == '-' || '0' <= s[i] <= '9'
  {
    if n < 0 then "-" + Digits(-n) else Digits(n)
  }

  /** The value of a non-empty run of digits. */
  function ReadDigits(s: string): (r: Option<nat>)
    ensures r.Some? ==> s != ""
  {
    if s == "" then None
    else
      var last := s[|s| - 1];
      if !('0' <= last <= '9') then None
      else if |s| == 1 then Some(last as int - 48)
      else
        var front := ReadDigits(s[..|s| - 1]);
        if front.None? then None else Some(10 * front.value + (last as int - 48))
  }

  /** An optional sign and digits, within the given bounds. */
  function ReadInt(s: string, lo: int, hi: int): (r: Option<int>)
    ensures r.Some? ==> lo <= r.value <= hi
  {
    var negative := s != "" && s[0] == '-';
    var body := if s != "" && (s[0] == '-' || s[0] == '+') then s[1..] else s;
    var n := ReadDigits(body);
    if n.None? then None
    else
      var v: int := if negative then -(n.value as int) else n.value;
      if lo <= v <= hi then Some(v) else None
  }

  /** Digits without a sign, up to the given bound. */
  function ReadUint(s: string, hi: int): (r: Option<int>)
    ensures r.Some? ==> 0 <= r.value <= hi
  {
    var n := ReadDigits(s);
    if n.None? || n.value > hi then None else Some(n.value)
  }

  lemma {:induction false} DigitsRoundTrip(n: nat)
    ensures ReadDigits(Digits(n)) == Some(n)
  {
    if n >= 10 {
      DigitsRoundTrip(n / 10);
      var s := Digits(n);
      assert s[..|s| - 1] == Digits(n / 10);
    }
  }

  /** Digits are read exactly if there is one and nothing else. */
  lemma {:induction false} ReadDigitsIff(s: string)
    ensures ReadDigits(s).Some? <==> s != "" && forall i | 0 <= i < |s| :: '0' <= s[i] <= '9'
    decreases |s|
  {
    if |s| > 1 {
      ReadDigitsIff(s[..|s| - 1]);
    }
  }

  /** Leading zeros do not count. */
  lemma {:induction false} LeadingZero(s: string)
    requires ReadDigits(s).Some?
    ensures ReadDigits("0" + s) == ReadDigits(s)
    decreases |s|
  {
    var t := "0" + s;
    assert t[|t| - 1] == s[|s| - 1] && t[..|t| - 1] == "0" + s[..|s| - 1];
    if |s| > 1 {
      LeadingZero(s[..|s| - 1]);
    } else {
      assert t[..1] == "0";
    }
  }

  /** Every integer within the bounds is read back as it was written. */
  lemma IntRoundTrip(n: int, lo: int, hi: int)
    requires lo <= n <= hi
    ensures ReadInt(Decimal(n), lo, hi) == Some(n)
  {
    DigitsRoundTrip(if n < 0 then -n else n);
    assert n < 0 ==> Decimal(n)[1..] == Digits(-n);
    assert n >= 0 ==> Digits(n)[0] != '-' && Digits(n)[0] != '+';
  }

  lemma UintRoundTrip(n: nat, hi: int)
    requires n <= hi
    ensures ReadUint(Decimal(n), hi) == Some(n)
  {
    DigitsRoundTrip(n);
  }

  lemma DecimalInjective(a: int, b: int)
    requires Decimal(a) == Decimal(b)
    ensures a == b
  {
    var lo, hi := if a <= b then a else b, if a <= b then b else a;
    IntRoundTrip(a, lo, hi);
    IntRoundTrip(b, lo, hi);
  }

  lemma DecimalIsTrim(v: int)
    ensures TrimSpace(Decimal(v)) == Decimal(v)
  {
    hide Decimal, TrimSpace;
    VisibleIsTrim(Decimal(v));
  }

  // ----- powers of ten -----

  function Pow10(n: nat): (r: int)
    ensures r >= 1
  {
    if n == 0 then 1 else 10 * Pow10(n - 1)
  }

  lemma {:induction false} Pow10Adds(a: nat, b: nat)
    ensures Pow10(a + b) == Pow10(a) * Pow10(b)
  {
    if a > 0 {
      Pow10Adds(a - 1, b);
    }
  }
}
