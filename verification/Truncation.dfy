/**
 Fitting a program's provider data into 32768 bytes. The JSON text is represented by the data it is made
 from and by its length; how long the JSON of some data is, apart from the self-recorded length, is a parameter.
*/
module Truncation {
  import opened Basics
  import opened Utf8

  const HARD_LIMIT: nat := 32768

  // ---------------------------------------------------------------- the length that is recorded in the text itself

  function Digits(n: nat): (d: nat)
    ensures d >= 1
  {
    if n < 10 then 1 else 1 + Digits(n / 10)
  }

  type int64 = x: int | -0x8000_0000_0000_0000 <= x < 0x8000_0000_0000_0000

  function Decimal(x: int): nat {
    if x < 0 then 1 + Digits(-x) else Digits(x)
  }

  /** `,"providerDataFinalBytes":` */
  const FINAL_KEY: nat := 26

  /** `"providerDataTruncationCode":"PROVIDER_DATA_TRUNCATED"`, which is always there. */
  const FIXED: nat := 54

  function TextLength(base: nat, final: Option<int>): nat {
    base + match final case None => 0 case Some(x) => FINAL_KEY + Decimal(x)
  }

  lemma {:induction false} DigitsGrow(m: nat, n: nat)
    requires m <= n
    ensures Digits(m) <= Digits(n)
    decreases n
  {
    if n >= 10 && m >= 10 {
      DigitsGrow(m / 10, n / 10);
    }
  }

  lemma DigitsTimesTen(n: nat)
    requires n > 0
    ensures Digits(10 * n) == Digits(n) + 1
  {
    assert 10 * n / 10 == n;
  }

  lemma {:induction false} DigitsAreFew(n: nat)
    requires n > 0
    ensures Digits(n) <= n
    decreases n
  {
    if n >= 10 {
      DigitsAreFew(n / 10);
    }
  }

  function Ten(k: nat): nat {
    if k == 0 then 1 else 10 * Ten(k - 1)
  }

  lemma {:induction false} DigitsBelow(n: nat, k: nat)
    requires n < Ten(k) && k > 0
    ensures Digits(n) <= k
    decreases k
  {
    if n >= 10 {
      assert k > 1;
      DigitsBelow(n / 10, k - 1);
    }
  }

  lemma DecimalOf64(x: int64)
    ensures 1 <= Decimal(x) <= 20
  {
    assert Ten(5) == 100_000;
    assert Ten(10) == 10_000_000_000;
    assert Ten(15) == 1_000_000_000_000_000;
    assert Ten(19) == 10_000_000_000_000_000_000;
    DigitsBelow(if x < 0 then -(x as int) else x, 19);
  }

  /** At most one more digit within a factor of ten. */
  lemma NearbyDigits(x: nat, y: nat)
    requires 0 < x <= y <= 10 * x
    ensures Digits(x) <= Digits(y) <= Digits(x) + 1
  {
    DigitsGrow(x, y);
    DigitsGrow(y, 10 * x);
    DigitsTimesTen(x);
  }

  /** Recording the length changes it by its digits; from the second round on it has one of two values. */
  lemma SettlesToTwo(base: nat, t: nat)
    requires base >= FIXED && base <= t <= base + FINAL_KEY + 20
    ensures var b := base + FINAL_KEY;
            var d := Digits(b + 1);
            var t1 := b + Digits(t);
            && (Digits(t1) == d || Digits(t1) == d + 1)
            && (Digits(b + d) == d || Digits(b + d) == d + 1)
            && (Digits(b + d + 1) == d || Digits(b + d + 1) == d + 1)
            && Digits(b + d) <= Digits(b + d + 1)
  {
    var b := base + FINAL_KEY;
    var x := b + 1;
    var d := Digits(x);
    DigitsAreFew(x);
    assert d >= 2 by { assert Digits(x) == 1 + Digits(x / 10); }
    if t >= x {
      NearbyDigits(x, t);
    } else {
      NearbyDigits(t, x);
    }
    assert d - 1 <= Digits(t) <= d + 1;
    NearbyDigits(x, b + Digits(t));
    NearbyDigits(x, b + d);
    NearbyDigits(x, b + d + 1);
    DigitsGrow(b + d, b + d + 1);
  }

  /** Lengths of text; no allocation reaches the end of the 64-bit range. */
  type Size = n: int | 0 <= n < 0x4000_0000_0000_0000

  /** The sixteen rounds: the length is recorded until recording it does not change it. They always suffice. */
  method Settle(rest: Size, final: Option<int64>) returns (length: nat, recorded: int64)
    ensures recorded == length == TextLength(FIXED + rest, Some(recorded))
  {
    var base := FIXED + rest as int;
    length := TextLength(base, final);
    recorded := 0;
    if final.Some? {
      DecimalOf64(final.value);
    }
    ghost var b := base + FINAL_KEY;
    ghost var d := Digits(b + 1);
    SettlesToTwo(base, length);
    ghost var first := length;
    hide Digits;
    for round := 0 to 16
      invariant length <= b + 20
      invariant round == 0 ==> length == first
      invariant round == 1 ==> length == b + Digits(first)
      invariant round == 2 ==> length == b + d || length == b + d + 1
      invariant round >= 3 ==> b + Digits(length) == length && (round == 3 || recorded == length)
    {
      recorded := length;
      DecimalOf64(length);
      var next := TextLength(base, Some(length));
      if next == length { return; }
      length := next;
    }
  }

  // ---------------------------------------------------------------- the data

  type Item = seq<Option<string>>

  /** How the texts of a group may be cut. */
  datatype Rule = Plain | KeepOne | Hex

  /**
   Lists whose elements may be dropped from the end, and texts that may be cut. The groups are, in the order
   in which they are cut: extended texts, short events (text, then title), parser messages, genre names, the
   series name, linkage data, video and audio fields. `kept` is everything else.
  */
  datatype Program = Program(kept: string, raw: seq<string>, unknown: seq<string>, ratings: seq<string>,
                             diagnostics: seq<string>, items: seq<string>, groups: seq<seq<Item>>)

  const GROUPS: nat := 8

  function RuleOf(g: nat): Rule {
    if g == 2 then KeepOne else if g == 5 then Hex else Plain
  }

  /** One counter for each kind of thing dropped, and one for bytes of text. */
  datatype Counts = Counts(raw: nat, unknown: nat, ratings: nat, diagnostics: nat, items: nat, text: nat)

  function Total(c: Counts): nat {
    c.raw + c.unknown + c.ratings + c.diagnostics + c.items + c.text
  }

  // ---------------------------------------------------------------- one text

  predicate Shrinkable(rule: Rule, f: Option<string>) {
    f.Some? && if rule.KeepOne? then |f.value| > 1 else f.value != ""
  }

  /** Hexadecimal data is made even by dropping one more character, counted as one byte. */
  function Even(t: string): (r: (string, nat))
    ensures r.0 <= t && Length(r.0) + r.1 <= Length(t)
    ensures r.1 == Length(t) - Length(r.0) <==> Length(t) % 2 == 0 || Width(t[|t| - 1]) == 1
  {
    if Length(t) % 2 == 0 then (t, 0) else (t[..|t| - 1], 1)
  }

  /** The text after a cut, and how many bytes are reported as removed. */
  function CutText(rule: Rule, s: string, requested: nat): (r: (string, nat))
    ensures r.0 <= s
  {
    var t := Shortened(s, requested, rule.KeepOne?);
    ShortenedSize(s, requested, rule.KeepOne?);
    var removed := Length(s) - Length(t);
    if rule.Hex? then (Even(t).0, removed + Even(t).1) else (t, removed)
  }

  lemma ShrinkableIsLong(rule: Rule, s: string)
    requires Shrinkable(rule, Some(s))
    ensures Length(s) > Minimum(s, rule.KeepOne?)
  {
    assert s[..|s|] == s;
    LongerIsLonger(s, 1, |s|);
    LengthOfPrefix(s, 0);
    assert s[..0] == [];
  }

  lemma PlainCut(rule: Rule, s: string, requested: nat)
    requires Shrinkable(rule, Some(s)) && !rule.Hex?
    ensures var t := Shortened(s, requested, rule.KeepOne?);
            && CutText(rule, s, requested) == (t, Length(s) - Length(t)) && Length(t) < Length(s)
            && (rule.KeepOne? ==> t != "")
  {
    ShrinkableIsLong(rule, s);
    ShortenedSize(s, requested, rule.KeepOne?);
    hide Shortened, Length;
  }

  lemma HexCut(s: string, requested: nat)
    requires Shrinkable(Hex, Some(s))
    ensures var (t, removed) := CutText(Hex, s, requested);
            Length(t) < Length(s) && 0 < removed <= Length(s) - Length(t)
  {
    ShrinkableIsLong(Hex, s);
    ShortenedSize(s, requested, false);
    hide Shortened, Length, Even;
  }

  /** A cut removes something, reports no more than it removes, and keeps a message from becoming empty. */
  lemma CutTextSize(rule: Rule, s: string, requested: nat)
    requires Shrinkable(rule, Some(s))
    ensures var (t, removed) := CutText(rule, s, requested);
            && Length(t) < Length(s) && 0 < removed <= Length(s) - Length(t)
            && (!rule.Hex? ==> removed == Length(s) - Length(t))
            && (rule.KeepOne? ==> t != "")
  {
    if rule.Hex? {
      HexCut(s, requested);
    } else {
      PlainCut(rule, s, requested);
    }
    hide CutText, Shortened, Length;
  }

  lemma EmptyLength()
    ensures Length("") == 0
  {
  }

  predicate Ascii(s: string) {
    forall i :: 0 <= i < |s| ==> s[i] as int < 0x80
  }

  /** Every part of the text with an odd number of bytes ends with a one-byte character. */
  predicate OddPartsEndNarrow(s: string) {
    forall k :: 0 < k < |s| && Length(s[..k]) % 2 != 0 ==> Width(s[k - 1]) == 1
  }

  /** Whether the report for hexadecimal data is exact for every request depends on the text alone. */
  lemma HexReportIff(s: string)
    requires s != ""
    ensures OddPartsEndNarrow(s) <==>
            forall n: nat :: CutText(Hex, s, n).1 == Length(s) - Length(CutText(Hex, s, n).0)
  {
    ShrinkableIsLong(Hex, s);
    forall n: nat | OddPartsEndNarrow(s) ensures CutText(Hex, s, n).1 == Length(s) - Length(CutText(Hex, s, n).0) {
      HexReport(s, n);
    }
    forall k | 0 < k < |s| && Length(s[..k]) % 2 != 0 && Width(s[k - 1]) != 1
      ensures exists n: nat :: CutText(Hex, s, n).1 != Length(s) - Length(CutText(Hex, s, n).0)
    {
      assert s[..|s|] == s;
      LongerIsLonger(s, k, |s|);
      var n := Length(s) - Length(s[..k]);
      CutsAt(s, k, n);
      HexReport(s, n);
    }
  }

  lemma CutsAt(s: string, k: nat, n: nat)
    requires 0 < k < |s| && n == Length(s) - Length(s[..k]) && n > 0
    ensures Length(s) > 0 && Shortened(s, n, false) == s[..k]
  {
    hide Length, Fitting;
    FittingOfPrefix(s, k);
    assert Minimum(s, false) == 0 && Target(s, n, false) == Length(s[..k]);
  }

  lemma FittingOfPrefix(s: string, k: nat)
    requires k <= |s|
    ensures Fitting(s, Length(s[..k])) == k
  {
    var j := Fitting(s, Length(s[..k]));
    hide Length, Fitting;
    if j < k {
      LongerIsLonger(s, j + 1, k);
    } else if k < j {
      LongerIsLonger(s, k, j);
    }
  }

  lemma HexReport(s: string, n: nat)
    requires s != "" && Length(s) > 0
    ensures var t := Shortened(s, n, false);
            && t == s[..|t|] && |t| < |s|
            && (CutText(Hex, s, n).1 == Length(s) - Length(CutText(Hex, s, n).0) <==>
                  Length(t) % 2 == 0 || (|t| > 0 && Width(s[|t| - 1]) == 1))
  {
    ShortenedSize(s, n, false);
    EmptyLength();
    hide Shortened, Length, Even;
  }

  lemma AsciiReportsExactly(s: string)
    requires Ascii(s)
    ensures OddPartsEndNarrow(s)
  {
  }

  /** Linkage data is not checked to be hexadecimal; other characters can be miscounted. */
  lemma WideHexIsMiscounted()
    ensures CutText(Hex, "a\U{00e9}b", 1) == ("a", 2) && Length("a\U{00e9}b") - Length("a") == 3
  {
    var s := "a\U{00e9}b";
    assert s[..1] == "a" && s[..2] == "a\U{00e9}" && s[..3] == s && s[..0] == "";
    LengthOfPrefix(s, 0);
    LengthOfPrefix(s, 1);
    LengthOfPrefix(s, 2);
    assert Length(s[..2]) == 3 && Length(s) == 4;
    CutsAt(s, 2, 1);
    assert s[..2][..1] == "a";
  }

  // ---------------------------------------------------------------- all texts

  predicate None_(rule: Rule, item: Item) {
    forall j :: 0 <= j < |item| ==> !Shrinkable(rule, item[j])
  }

  /** Where to cut next in a group: the last item with something to cut, its first field that has. */
  predicate Next(rule: Rule, group: seq<Item>, i: nat, j: nat) {
    && i < |group| && j < |group[i]| && Shrinkable(rule, group[i][j])
    && (forall k :: 0 <= k < j ==> !Shrinkable(rule, group[i][k]))
    && (forall k :: i < k < |group| ==> None_(rule, group[k]))
  }

  predicate Exhausted(rule: Rule, group: seq<Item>) {
    forall i :: 0 <= i < |group| ==> None_(rule, group[i])
  }

  method FindField(rule: Rule, item: Item) returns (j: nat)
    ensures j <= |item|
    ensures j < |item| ==> Shrinkable(rule, item[j]) && forall k :: 0 <= k < j ==> !Shrinkable(rule, item[k])
    ensures j == |item| ==> None_(rule, item)
  {
    j := 0;
    while j < |item| && !Shrinkable(rule, item[j])
      invariant 0 <= j <= |item| && forall k :: 0 <= k < j ==> !Shrinkable(rule, item[k])
    {
      j := j + 1;
    }
  }

  method FindText(rule: Rule, group: seq<Item>) returns (found: bool, i: nat, j: nat)
    ensures found ==> Next(rule, group, i, j)
    ensures !found ==> Exhausted(rule, group)
  {
    i, j := |group|, 0;
    while i > 0
      invariant 0 <= i <= |group| && forall k :: i <= k < |group| ==> None_(rule, group[k])
    {
      i := i - 1;
      j := FindField(rule, group[i]);
      if j < |group[i]| { return true, i, j; }
    }
    return false, 0, 0;
  }

  function FieldBytes(f: Option<string>): nat {
    match f case None => 0 case Some(s) => Length(s)
  }

  function ItemBytes(item: Item): nat {
    if item == [] then 0 else ItemBytes(item[..|item| - 1]) + FieldBytes(item[|item| - 1])
  }

  function GroupBytes(group: seq<Item>): nat {
    if group == [] then 0 else GroupBytes(group[..|group| - 1]) + ItemBytes(group[|group| - 1])
  }

  function TextBytes(groups: seq<seq<Item>>): nat {
    if groups == [] then 0 else TextBytes(groups[..|groups| - 1]) + GroupBytes(groups[|groups| - 1])
  }

  lemma {:induction false} ItemBytesUpdate(item: Item, j: nat, f: Option<string>)
    requires j < |item|
    ensures ItemBytes(item[j := f]) == ItemBytes(item) - FieldBytes(item[j]) + FieldBytes(f)
    decreases |item|
  {
    var front := item[..|item| - 1];
    if j < |item| - 1 {
      ItemBytesUpdate(front, j, f);
      assert item[j := f][..|item| - 1] == front[j := f];
    } else {
      assert item[j := f][..|item| - 1] == front;
    }
  }

  lemma {:induction false} GroupBytesUpdate(group: seq<Item>, i: nat, x: Item)
    requires i < |group|
    ensures GroupBytes(group[i := x]) == GroupBytes(group) - ItemBytes(group[i]) + ItemBytes(x)
    decreases |group|
  {
    var front := group[..|group| - 1];
    if i < |group| - 1 {
      GroupBytesUpdate(front, i, x);
      assert group[i := x][..|group| - 1] == front[i := x];
    } else {
      assert group[i := x][..|group| - 1] == front;
    }
  }

  lemma {:induction false} TextBytesUpdate(groups: seq<seq<Item>>, g: nat, x: seq<Item>)
    requires g < |groups|
    ensures TextBytes(groups[g := x]) == TextBytes(groups) - GroupBytes(groups[g]) + GroupBytes(x)
    decreases |groups|
  {
    var front := groups[..|groups| - 1];
    if g < |groups| - 1 {
      TextBytesUpdate(front, g, x);
      assert groups[g := x][..|groups| - 1] == front[g := x];
    } else {
      assert groups[g := x][..|groups| - 1] == front;
    }
  }

  function PutText(groups: seq<seq<Item>>, g: nat, i: nat, j: nat, s: string): seq<seq<Item>>
    requires g < |groups| && i < |groups[g]| && j < |groups[g][i]|
  {
    groups[g := groups[g][i := groups[g][i][j := Some(s)]]]
  }

  lemma PutTextBytes(groups: seq<seq<Item>>, g: nat, i: nat, j: nat, s: string)
    requires g < |groups| && i < |groups[g]| && j < |groups[g][i]|
    ensures TextBytes(PutText(groups, g, i, j, s)) == TextBytes(groups) - FieldBytes(groups[g][i][j]) + Length(s)
  {
    var group := groups[g];
    var item := group[i];
    ItemBytesUpdate(item, j, Some(s));
    GroupBytesUpdate(group, i, item[j := Some(s)]);
    TextBytesUpdate(groups, g, group[i := item[j := Some(s)]]);
  }

  // ---------------------------------------------------------------- what a cut leaves alone

  predicate FieldCut(rule: Rule, a: Option<string>, b: Option<string>) {
    && a.Some? == b.Some?
    && (a.Some? ==> b.value <= a.value && (rule.KeepOne? && a.value != "" ==> b.value != ""))
  }

  ghost predicate ItemCut(rule: Rule, a: Item, b: Item) {
    |a| == |b| && forall j :: 0 <= j < |a| ==> FieldCut(rule, a[j], b[j])
  }

  ghost predicate GroupCut(rule: Rule, a: seq<Item>, b: seq<Item>) {
    |a| == |b| && forall i :: 0 <= i < |a| ==> ItemCut(rule, a[i], b[i])
  }

  /** Every text is a beginning of what it was, nothing is added or reordered, and no message is lost. */
  ghost predicate GroupsCut(a: seq<seq<Item>>, b: seq<seq<Item>>) {
    |a| == |b| && forall g :: 0 <= g < |a| ==> GroupCut(RuleOf(g), a[g], b[g])
  }

  lemma PutTextCut(a: seq<seq<Item>>, b: seq<seq<Item>>, g: nat, i: nat, j: nat, s: string)
    requires GroupsCut(a, b) && g < |b| && i < |b[g]| && j < |b[g][i]|
    requires b[g][i][j].Some? && s <= b[g][i][j].value && (RuleOf(g).KeepOne? ==> s != "")
    ensures GroupsCut(a, PutText(b, g, i, j, s))
  {
    var rule, item := RuleOf(g), b[g][i];
    assert GroupCut(rule, a[g], b[g]);
    assert ItemCut(rule, a[g][i], item);
    assert FieldCut(rule, a[g][i][j], item[j]);
    assert ItemCut(rule, a[g][i], item[j := Some(s)]);
    assert GroupCut(rule, a[g], b[g][i := item[j := Some(s)]]);
  }

  const LINKAGE: nat := 5

  predicate NarrowItem(item: Item) {
    forall j :: 0 <= j < |item| && item[j].Some? ==> OddPartsEndNarrow(item[j].value)
  }

  predicate NarrowGroup(group: seq<Item>) {
    forall i :: 0 <= i < |group| ==> NarrowItem(group[i])
  }

  /** Every cut of the linkage data is reported exactly; ASCII, as hexadecimal digits are, is enough for that. */
  predicate NarrowLinkage(groups: seq<seq<Item>>) {
    |groups| > LINKAGE ==> NarrowGroup(groups[LINKAGE])
  }

  lemma PrefixIsNarrow(s: string, t: string)
    requires OddPartsEndNarrow(s) && t <= s
    ensures OddPartsEndNarrow(t)
  {
    hide Length;
    forall k | 0 < k < |t| && Length(t[..k]) % 2 != 0 ensures Width(t[k - 1]) == 1 {
      assert t[..k] == s[..k];
    }
  }

  /** The first group with something left to cut loses some text. */
  method ShortenLongText(groups: seq<seq<Item>>, requested: nat) returns (r: seq<seq<Item>>, removed: nat)
    requires |groups| == GROUPS
    ensures removed == 0 <==> forall g :: 0 <= g < |groups| ==> Exhausted(RuleOf(g), groups[g])
    ensures removed == 0 ==> r == groups
    ensures removed > 0 ==>
              exists g: nat, i: nat, j: nat, s: string ::
                && g < |groups| && Next(RuleOf(g), groups[g], i, j)
                && (forall k :: 0 <= k < g ==> Exhausted(RuleOf(k), groups[k]))
                && CutText(RuleOf(g), groups[g][i][j].value, requested) == (s, removed)
                && r == PutText(groups, g, i, j, s)
  {
    var g := 0;
    while g < |groups|
      invariant 0 <= g <= |groups| && forall k :: 0 <= k < g ==> Exhausted(RuleOf(k), groups[k])
    {
      var found, i, j := FindText(RuleOf(g), groups[g]);
      if found {
        var s, n := ShortenText(RuleOf(g), groups[g][i][j].value, requested);
        CutTextSize(RuleOf(g), groups[g][i][j].value, requested);
        hide Exhausted, CutText;
        NextIsLeft(RuleOf(g), groups[g], i, j);
        return PutText(groups, g, i, j, s), n;
      }
      g := g + 1;
    }
    return groups, 0;
  }

  lemma NextIsLeft(rule: Rule, group: seq<Item>, i: nat, j: nat)
    requires Next(rule, group, i, j)
    ensures !Exhausted(rule, group)
  {
    assert !None_(rule, group[i]);
  }

  method ShortenText(rule: Rule, s: string, requested: nat) returns (t: string, removed: nat)
    ensures (t, removed) == CutText(rule, s, requested)
  {
    hide Shortened, Length;
    t, removed := ShortenTail(s, requested, rule.KeepOne?);
    EmptyLength();
    if rule.Hex? && Length(t) % 2 != 0 {
      t, removed := t[..|t| - 1], removed + 1;
    }
  }
}
