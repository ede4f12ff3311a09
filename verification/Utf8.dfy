/** Strings by the length of their UTF-8 form, and cutting them to size. */
module Utf8 {
  import opened Basics

  function Width(c: char): (w: nat)
    ensures 1 <= w <= 4
  {
    if c as int < 0x80 then 1 else if c as int < 0x800 then 2 else if c as int < 0x1_0000 then 3 else 4
  }

  function Length(s: string): nat {
    if s == [] then 0 else Length(s[..|s| - 1]) + Width(s[|s| - 1])
  }

  lemma LengthOfPrefix(s: string, k: nat)
    requires k < |s|
    ensures Length(s[..k + 1]) == Length(s[..k]) + Width(s[k])
  {
    assert s[..k + 1][..k] == s[..k];
  }

  lemma {:induction false} LongerIsLonger(s: string, i: nat, j: nat)
    requires i <= j <= |s|
    ensures Length(s[..i]) + (j - i) <= Length(s[..j]) <= Length(s[..i]) + 4 * (j - i)
    decreases j - i
  {
    if i < j {
      LongerIsLonger(s, i, j - 1);
      LengthOfPrefix(s, j - 1);
    }
  }

  predicate AtBoundary(s: string, t: nat) {
    Length(s[..Fitting(s, t)]) == t
  }

  /** Some character of `s` begins at byte `t`, or `s` ends there. */
  ghost predicate Boundary(s: string, t: nat) {
    exists k :: 0 <= k <= |s| && Length(s[..k]) == t
  }

  /** How many characters fit into `t` bytes. */
  function Fitting(s: string, t: nat): (k: nat)
    ensures k <= |s| && Length(s[..k]) <= t
    ensures k < |s| ==> t < Length(s[..k + 1])
    decreases |s|
  {
    if Length(s) <= t then
      assert s[..|s|] == s;
      |s|
    else
      var k := Fitting(s[..|s| - 1], t);
      assert s[..|s| - 1][..k] == s[..k];
      assert k < |s| - 1 ==> s[..|s| - 1][..k + 1] == s[..k + 1];
      assert s[..|s|] == s;
      k
  }

  /** The boundary at or before a byte position. */
  lemma FittingIsBoundary(s: string, t: nat)
    requires t <= Length(s)
    ensures Boundary(s, t) <==> AtBoundary(s, t)
  {
    var k := Fitting(s, t);
    if Boundary(s, t) {
      var i :| 0 <= i <= |s| && Length(s[..i]) == t;
      if i > k {
        LongerIsLonger(s, k + 1, i);
      } else {
        LongerIsLonger(s, i, k);
      }
    }
  }

  lemma FittingBefore(s: string, t: nat)
    requires 0 < t <= Length(s) && !Boundary(s, t)
    ensures Fitting(s, t - 1) == Fitting(s, t)
  {
    FittingIsBoundary(s, t);
    var k, j := Fitting(s, t), Fitting(s, t - 1);
    if j < k {
      LongerIsLonger(s, j + 1, k);
    } else if k < j {
      LongerIsLonger(s, k + 1, j);
    }
  }

  function Minimum(s: string, keepOne: bool): nat {
    if keepOne && s != [] then Width(s[0]) else 0
  }

  function Max(a: int, b: int): int {
    if a > b then a else b
  }

  /** The cut that a request for so many bytes leads to. */
  function Target(s: string, requested: nat, keepOne: bool): nat
    requires Minimum(s, keepOne) < Length(s)
  {
    Max(Max(Length(s) - Max(requested, 1), 0), Minimum(s, keepOne))
  }

  function Shortened(s: string, requested: nat, keepOne: bool): string {
    if Length(s) <= Minimum(s, keepOne) then s else s[..Fitting(s, Target(s, requested, keepOne))]
  }

  lemma MinimumFits(s: string, keepOne: bool, t: nat)
    requires Minimum(s, keepOne) <= t <= Length(s)
    ensures Boundary(s, Minimum(s, keepOne))
    ensures keepOne && s != [] ==> Fitting(s, t) >= 1
  {
    if keepOne && s != [] {
      LengthOfPrefix(s, 0);
      assert Length(s[..1]) == Minimum(s, keepOne);
      var k := Fitting(s, t);
      assert k < |s| ==> t < Length(s[..k + 1]);
    } else {
      assert Length(s[..0]) == 0;
    }
  }

  /** Something is removed whenever something may be, about as much as asked for, and never half a character. */
  lemma ShortenedSize(s: string, requested: nat, keepOne: bool)
    ensures var r := Shortened(s, requested, keepOne);
            && r <= s && Length(r) <= Length(s)
            && (Length(s) > Minimum(s, keepOne) ==> r != s && Length(r) < Length(s))
            && (Length(s) > Minimum(s, keepOne) ==>
                  Target(s, requested, keepOne) < Length(r) + 4 && Length(r) <= Target(s, requested, keepOne))
            && (keepOne && s != [] ==> r != [])
  {
    assert s[..|s|] == s;
    if Length(s) > Minimum(s, keepOne) {
      var t := Target(s, requested, keepOne);
      var k := Fitting(s, t);
      MinimumFits(s, keepOne, t);
      LongerIsLonger(s, k, |s|);
      if k < |s| {
        LengthOfPrefix(s, k);
      }
    }
  }

  /** The loop steps back from a byte position to the beginning of a character. */
  method ShortenTail(s: string, requested: nat, keepOne: bool) returns (r: string, removed: nat)
    ensures r == Shortened(s, requested, keepOne)
    ensures removed == Length(s) - Length(r)
  {
    ShortenedSize(s, requested, keepOne);
    var minimum := Minimum(s, keepOne);
    if Length(s) <= minimum { return s, 0; }
    var start := Target(s, requested, keepOne);
    var target := start;
    MinimumFits(s, keepOne, target);
    while target > minimum && !AtBoundary(s, target)
      invariant minimum <= target <= start < Length(s) && Fitting(s, target) == Fitting(s, start)
    {
      FittingIsBoundary(s, target);
      FittingBefore(s, target);
      target := target - 1;
    }
    r := s[..Fitting(s, target)];
    removed := Length(s) - Length(r);
  }
}
