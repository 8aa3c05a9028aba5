/** Removal of white space at both ends of a UTF-8 text. */
module Trimming {
  predicate Bytes3(u: string, x: int, y: int, lo: int, hi: int) {
    |u| == 3 && u[0] as int == x && u[1] as int == y && lo <= u[2] as int <= hi
  }

  /** `u` is the UTF-8 encoding of one white-space code point. */
  predicate IsSpaceRune(u: string) {
    || (|u| == 1 && (9 <= u[0] as int <= 13 || u[0] == ' '))
    || (|u| == 2 && u[0] as int == 0xC2 && (u[1] as int == 0x85 || u[1] as int == 0xA0))
    || Bytes3(u, 0xE1, 0x9A, 0x80, 0x80)
    || Bytes3(u, 0xE2, 0x80, 0x80, 0x8A)
    || Bytes3(u, 0xE2, 0x80, 0xA8, 0xA9)
    || Bytes3(u, 0xE2, 0x80, 0xAF, 0xAF)
    || Bytes3(u, 0xE2, 0x81, 0x9F, 0x9F)
    || Bytes3(u, 0xE3, 0x80, 0x80, 0x80)
  }

  predicate SpaceAtFront(s: string, n: nat) { n <= |s| && IsSpaceRune(s[..n]) }

  predicate SpaceAtBack(s: string, n: nat) { n <= |s| && IsSpaceRune(s[|s| - n..]) }

  predicate StartsWithSpace(s: string) { SpaceAtFront(s, 1) || SpaceAtFront(s, 2) || SpaceAtFront(s, 3) }

  predicate EndsWithSpace(s: string) { SpaceAtBack(s, 1) || SpaceAtBack(s, 2) || SpaceAtBack(s, 3) }

  function TrimLeft(s: string): (t: string)
    ensures |t| <= |s| && !StartsWithSpace(t)
    decreases |s|
  {
    if SpaceAtFront(s, 1) then TrimLeft(s[1..])
    else if SpaceAtFront(s, 2) then TrimLeft(s[2..])
    else if SpaceAtFront(s, 3) then TrimLeft(s[3..])
    else s
  }

  function TrimRight(s: string): string
    decreases |s|
  {
    if SpaceAtBack(s, 1) then TrimRight(s[..|s| - 1])
    else if SpaceAtBack(s, 2) then TrimRight(s[..|s| - 2])
    else if SpaceAtBack(s, 3) then TrimRight(s[..|s| - 3])
    else s
  }

  lemma BackFits(s: string, n: nat)
    requires SpaceAtBack(s, n)
    ensures 1 <= n <= |s|
  {
  }

  lemma {:induction false} TrimRightCuts(s: string)
    ensures TrimRight(s) <= s && !EndsWithSpace(TrimRight(s))
    decreases |s|
  {
    hide IsSpaceRune, SpaceAtBack;
    if SpaceAtBack(s, 1) {
      BackFits(s, 1);
      TrimRightCuts(s[..|s| - 1]);
      PrefixOfPrefix(TrimRight(s[..|s| - 1]), s, |s| - 1);
    } else if SpaceAtBack(s, 2) {
      BackFits(s, 2);
      TrimRightCuts(s[..|s| - 2]);
      PrefixOfPrefix(TrimRight(s[..|s| - 2]), s, |s| - 2);
    } else if SpaceAtBack(s, 3) {
      BackFits(s, 3);
      TrimRightCuts(s[..|s| - 3]);
      PrefixOfPrefix(TrimRight(s[..|s| - 3]), s, |s| - 3);
    }
  }

  lemma PrefixOfPrefix(t: string, s: string, n: nat)
    requires n <= |s| && t <= s[..n]
    ensures t <= s
  {
  }

  function TrimSpace(s: string): string { TrimRight(TrimLeft(s)) }

  lemma FrontOfPrefix(t: string, l: string, n: nat)
    requires t <= l && SpaceAtFront(t, n)
    ensures SpaceAtFront(l, n)
  {
    hide IsSpaceRune;
    assert t[..n] == l[..n];
  }

  lemma TrimLeavesNoSpace(s: string)
    ensures |TrimSpace(s)| <= |s|
    ensures !StartsWithSpace(TrimSpace(s)) && !EndsWithSpace(TrimSpace(s))
  {
    hide IsSpaceRune, SpaceAtFront, TrimLeft, TrimRight;
    var l := TrimLeft(s);
    var t := TrimRight(l);
    TrimRightCuts(l);
    forall n: nat | SpaceAtFront(t, n)
      ensures SpaceAtFront(l, n)
    {
      FrontOfPrefix(t, l, n);
    }
  }

  lemma TrimStable(t: string)
    requires !StartsWithSpace(t) && !EndsWithSpace(t)
    ensures TrimSpace(t) == t
  {
    hide IsSpaceRune;
  }

  lemma VisibleIsNotSpace(u: string)
    requires u != "" && '!' <= u[0] <= '~'
    ensures !IsSpaceRune(u)
  {
  }

  /** Texts of visible ASCII characters have nothing to trim. */
  lemma VisibleIsTrim(s: string)
    requires forall i | 0 <= i < |s| :: '!' <= s[i] <= '~'
    ensures TrimSpace(s) == s
  {
    hide IsSpaceRune, TrimSpace;
    forall n: nat | 1 <= n <= |s|
      ensures !SpaceAtFront(s, n) && !SpaceAtBack(s, n)
    {
      assert s[..n][0] == s[0] && s[|s| - n..][0] == s[|s| - n];
      VisibleIsNotSpace(s[..n]);
      VisibleIsNotSpace(s[|s| - n..]);
    }
    TrimStable(s);
  }

  // ----- what is removed -----

  /** Nothing but white-space code points, one after the other. */
  predicate AllSpace(s: string)
    decreases |s|, 1
  {
    s == "" || exists n | 1 <= n <= 3 :: SpaceThen(s, n)
  }

  predicate SpaceThen(s: string, n: nat)
    requires 1 <= n
    decreases |s|, 0
  {
    SpaceAtFront(s, n) && AllSpace(s[n..])
  }

  lemma {:induction false} AllSpaceConcat(a: string, b: string)
    requires AllSpace(a) && AllSpace(b)
    ensures AllSpace(a + b)
    decreases |a|
  {
    hide IsSpaceRune;
    if a == "" {
      assert a + b == b;
    } else {
      var n :| 1 <= n <= 3 && SpaceThen(a, n);
      AllSpaceConcat(a[n..], b);
      assert (a + b)[..n] == a[..n] && (a + b)[n..] == a[n..] + b;
      assert SpaceThen(a + b, n);
    }
  }

  lemma OneRuneIsSpace(u: string, n: nat)
    requires 1 <= n <= 3 && n == |u| && IsSpaceRune(u)
    ensures AllSpace(u)
  {
    hide IsSpaceRune;
    assert u[..n] == u && u[n..] == "";
    assert SpaceThen(u, n);
  }

  lemma {:induction false} LeftIsSpace(s: string) returns (a: string)
    ensures s == a + TrimLeft(s) && AllSpace(a)
    decreases |s|
  {
    hide IsSpaceRune, AllSpace;
    var n := if SpaceAtFront(s, 1) then 1 else if SpaceAtFront(s, 2) then 2 else if SpaceAtFront(s, 3) then 3 else 0;
    if n == 0 {
      NoSpace();
      a := "";
    } else {
      var rest := LeftIsSpace(s[n..]);
      OneRuneIsSpace(s[..n], n);
      AllSpaceConcat(s[..n], rest);
      a := s[..n] + rest;
      assert s == s[..n] + s[n..];
    }
  }

  lemma NoSpace()
    ensures AllSpace("")
  {
  }

  lemma {:induction false} RightIsSpace(s: string) returns (b: string)
    ensures s == TrimRight(s) + b && AllSpace(b)
    decreases |s|
  {
    hide IsSpaceRune, AllSpace;
    var n := if SpaceAtBack(s, 1) then 1 else if SpaceAtBack(s, 2) then 2 else if SpaceAtBack(s, 3) then 3 else 0;
    if n == 0 {
      NoSpace();
      b := "";
    } else {
      var k := |s| - n;
      var rest := RightIsSpace(s[..k]);
      OneRuneIsSpace(s[k..], n);
      AllSpaceConcat(rest, s[k..]);
      b := rest + s[k..];
      assert s == s[..k] + s[k..];
    }
  }

  /** Trimming removes white space at both ends and nothing else. */
  lemma TrimIsMiddle(s: string) returns (a: string, b: string)
    ensures s == a + TrimSpace(s) + b && AllSpace(a) && AllSpace(b)
  {
    hide TrimLeft, TrimRight, AllSpace;
    a := LeftIsSpace(s);
    b := RightIsSpace(TrimLeft(s));
  }
}
