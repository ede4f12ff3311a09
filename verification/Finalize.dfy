/** The loop that drops and cuts until the provider data fits. */
module Finalize {
  import opened Basics
  import opened Utf8
  import opened Truncation

  /** How long the JSON is, as first written and with truncation metadata, and which parts are valid. */
  datatype Encoder = Encoder(plain: Program -> Size, rest: (Program, Counts, nat) -> Size,
                             validKept: string -> bool, validElement: string -> bool)

  datatype Outcome =
    | Untouched(length: nat)
    | Fitted(program: Program, counts: Counts, dropped: nat, original: nat, length: nat, recorded: int64)
    | Invalid
    | TooBig(program: Program, length: nat)

  // ---------------------------------------------------------------- validity

  const MESSAGES: nat := 2

  predicate HasText(f: Option<string>) {
    f.Some? ==> f.value != ""
  }

  predicate ItemHasText(item: Item) {
    forall j :: 0 <= j < |item| ==> HasText(item[j])
  }

  predicate MessagesOk(group: seq<Item>) {
    forall i :: 0 <= i < |group| ==> ItemHasText(group[i])
  }

  predicate AllValid(e: Encoder, list: seq<string>) {
    forall i :: 0 <= i < |list| ==> e.validElement(list[i])
  }

  predicate Valid(e: Encoder, p: Program) {
    && e.validKept(p.kept)
    && AllValid(e, p.raw) && AllValid(e, p.unknown) && AllValid(e, p.ratings)
    && AllValid(e, p.diagnostics) && AllValid(e, p.items)
    && |p.groups| == GROUPS && MessagesOk(p.groups[MESSAGES])
  }

  // ---------------------------------------------------------------- what is dropped and what is not

  /** Nothing protected changes; lists lose elements at their end, texts lose characters at theirs. */
  ghost predicate Trimmed(o: Program, p: Program) {
    && p.kept == o.kept && p.raw <= o.raw && p.unknown <= o.unknown && p.ratings <= o.ratings
    && p.diagnostics <= o.diagnostics && p.items <= o.items && GroupsCut(o.groups, p.groups)
  }

  /** A later kind is only touched when nothing is left of the earlier ones. */
  ghost predicate InOrder(o: Program, p: Program) {
    && (p.unknown != o.unknown ==> p.raw == [])
    && (p.ratings != o.ratings ==> p.raw == [] && p.unknown == [])
    && (p.diagnostics != o.diagnostics ==> p.raw == [] && p.unknown == [] && p.ratings == [])
    && (p.items != o.items ==> p.raw == [] && p.unknown == [] && p.ratings == [] && p.diagnostics == [])
    && (p.groups != o.groups ==> ListsEmpty(p)) && TextsInOrder(o.groups, p.groups)
  }

  /** Fields are cut from the first one on. */
  ghost predicate ItemInOrder(rule: Rule, a: Item, b: Item) {
    |a| == |b| && forall j, k :: 0 <= k < j < |b| && b[j] != a[j] ==> !Shrinkable(rule, b[k])
  }

  /** Items are cut from the last one on. */
  ghost predicate GroupInOrder(rule: Rule, a: seq<Item>, b: seq<Item>) {
    && |a| == |b| && (forall i, k :: 0 <= i < k < |b| && b[i] != a[i] ==> None_(rule, b[k]))
    && (forall i :: 0 <= i < |b| ==> ItemInOrder(rule, a[i], b[i]))
  }

  /** A group is only touched when nothing can be cut in the groups before it, and so within each group. */
  ghost predicate TextsInOrder(a: seq<seq<Item>>, b: seq<seq<Item>>) {
    && |a| == |b| && (forall g, k :: 0 <= k < g < |b| && b[g] != a[g] ==> Exhausted(RuleOf(k), b[k]))
    && (forall g :: 0 <= g < |b| ==> GroupInOrder(RuleOf(g), a[g], b[g]))
  }

  predicate ListsEmpty(p: Program) {
    p.raw == [] && p.unknown == [] && p.ratings == [] && p.diagnostics == [] && p.items == []
  }

  /** The counters say what is gone. */
  ghost predicate CountsOk(o: Program, p: Program, c: Counts) {
    && c.raw == |o.raw| - |p.raw| && c.unknown == |o.unknown| - |p.unknown|
    && c.ratings == |o.ratings| - |p.ratings| && c.diagnostics == |o.diagnostics| - |p.diagnostics|
    && c.items == |o.items| - |p.items|
    && c.text <= TextBytes(o.groups) - TextBytes(p.groups)
    && (NarrowLinkage(o.groups) ==> c.text == TextBytes(o.groups) - TextBytes(p.groups))
  }

  ghost predicate Inv(o: Program, p: Program, c: Counts) {
    |p.groups| == GROUPS && Trimmed(o, p) && InOrder(o, p) && CountsOk(o, p, c)
  }

  function Measure(p: Program): nat {
    |p.raw| + |p.unknown| + |p.ratings| + |p.diagnostics| + |p.items| + TextBytes(p.groups)
  }

  /** Nothing may be dropped or cut any more. */
  ghost predicate NothingLeft(p: Program) {
    ListsEmpty(p) && forall g :: 0 <= g < |p.groups| ==> Exhausted(RuleOf(g), p.groups[g])
  }

  lemma NothingIsInOrder(a: seq<seq<Item>>)
    ensures TextsInOrder(a, a)
  {
    forall g | 0 <= g < |a| ensures GroupInOrder(RuleOf(g), a[g], a[g]) {
      assert forall i :: 0 <= i < |a[g]| ==> ItemInOrder(RuleOf(g), a[g][i], a[g][i]);
    }
  }

  lemma FieldInOrder(rule: Rule, a: Item, b: Item, j: nat, s: string)
    requires ItemInOrder(rule, a, b) && j < |b| && Shrinkable(rule, b[j])
    requires forall k :: 0 <= k < j ==> !Shrinkable(rule, b[k])
    ensures ItemInOrder(rule, a, b[j := Some(s)])
  {
    hide Shrinkable;
    var c := b[j := Some(s)];
    forall m, k | 0 <= k < m < |c| && c[m] != a[m] ensures !Shrinkable(rule, c[k]) {
    }
  }

  lemma ItemsInOrder(rule: Rule, a: seq<Item>, b: seq<Item>, i: nat, j: nat, s: string)
    requires GroupInOrder(rule, a, b) && Next(rule, b, i, j)
    ensures GroupInOrder(rule, a, b[i := b[i][j := Some(s)]])
  {
    FieldInOrder(rule, a[i], b[i], j, s);
    assert !None_(rule, b[i]);
    hide None_, Shrinkable, ItemInOrder;
    var c := b[i := b[i][j := Some(s)]];
    forall m, k | 0 <= m < k < |c| && c[m] != a[m] ensures None_(rule, c[k]) {
    }
  }

  /** The next cut respects the order. */
  lemma CutInOrder(a: seq<seq<Item>>, b: seq<seq<Item>>, g: nat, i: nat, j: nat, s: string)
    requires TextsInOrder(a, b) && g < |b| && Next(RuleOf(g), b[g], i, j)
    requires forall k :: 0 <= k < g ==> Exhausted(RuleOf(k), b[k])
    ensures TextsInOrder(a, PutText(b, g, i, j, s))
  {
    ItemsInOrder(RuleOf(g), a[g], b[g], i, j, s);
    NextIsLeft(RuleOf(g), b[g], i, j);
    hide Exhausted, GroupInOrder, Next;
    var c := PutText(b, g, i, j, s);
    forall h, k | 0 <= k < h < |c| && c[h] != a[h] ensures Exhausted(RuleOf(k), c[k]) {
    }
  }

  lemma StartInv(o: Program)
    requires |o.groups| == GROUPS
    ensures Inv(o, o, Counts(0, 0, 0, 0, 0, 0))
  {
    NothingIsInOrder(o.groups);
    hide TextsInOrder;
  }

  lemma ValidStays(e: Encoder, o: Program, p: Program)
    requires Valid(e, o) && Trimmed(o, p)
    ensures Valid(e, p)
  {
    hide AllValid;
    PrefixValid(e, o.raw, p.raw);
    PrefixValid(e, o.unknown, p.unknown);
    PrefixValid(e, o.ratings, p.ratings);
    PrefixValid(e, o.diagnostics, p.diagnostics);
    PrefixValid(e, o.items, p.items);
    assert GroupCut(RuleOf(MESSAGES), o.groups[MESSAGES], p.groups[MESSAGES]);
    MessagesStay(o.groups[MESSAGES], p.groups[MESSAGES]);
  }

  lemma PrefixValid(e: Encoder, a: seq<string>, b: seq<string>)
    requires AllValid(e, a) && b <= a
    ensures AllValid(e, b)
  {
  }

  lemma MessagesStay(a: seq<Item>, b: seq<Item>)
    requires MessagesOk(a) && GroupCut(KeepOne, a, b)
    ensures MessagesOk(b)
  {
    forall i, j | 0 <= i < |b| && 0 <= j < |b[i]| ensures HasText(b[i][j]) {
      assert ItemCut(KeepOne, a[i], b[i]) && ItemHasText(a[i]);
      assert FieldCut(KeepOne, a[i][j], b[i][j]) && HasText(a[i][j]);
    }
  }

  /** In narrow linkage data every cut is counted exactly. */
  lemma ExactCut(o: seq<seq<Item>>, p: seq<seq<Item>>, g: nat, i: nat, j: nat, requested: nat)
    requires NarrowLinkage(o) && GroupsCut(o, p) && |p| == GROUPS
    requires g < |p| && i < |p[g]| && j < |p[g][i]| && Shrinkable(RuleOf(g), p[g][i][j])
    ensures var s := p[g][i][j].value;
            CutText(RuleOf(g), s, requested).1 == Length(s) - Length(CutText(RuleOf(g), s, requested).0)
  {
    var s := p[g][i][j].value;
    hide CutText, Length, OddPartsEndNarrow;
    if g == LINKAGE {
      assert GroupCut(RuleOf(g), o[g], p[g]);
      assert ItemCut(RuleOf(g), o[g][i], p[g][i]) && NarrowItem(o[g][i]);
      assert FieldCut(RuleOf(g), o[g][i][j], p[g][i][j]);
      PrefixIsNarrow(o[g][i][j].value, s);
      HexReportIff(s);
    } else {
      CutTextSize(RuleOf(g), s, requested);
    }
  }

  lemma CutInv(o: Program, p: Program, c: Counts, g: nat, i: nat, j: nat, requested: nat, s: string, removed: nat)
    requires Inv(o, p, c) && ListsEmpty(p) && g < |p.groups| && Next(RuleOf(g), p.groups[g], i, j)
    requires forall k :: 0 <= k < g ==> Exhausted(RuleOf(k), p.groups[k])
    requires CutText(RuleOf(g), p.groups[g][i][j].value, requested) == (s, removed)
    ensures var q := p.(groups := PutText(p.groups, g, i, j, s));
            Inv(o, q, c.(text := c.text + removed)) && Measure(q) < Measure(p)
  {
    var t := p.groups[g][i][j].value;
    CutTextSize(RuleOf(g), t, requested);
    PutTextBytes(p.groups, g, i, j, s);
    PutTextCut(o.groups, p.groups, g, i, j, s);
    CutInOrder(o.groups, p.groups, g, i, j, s);
    if NarrowLinkage(o.groups) {
      ExactCut(o.groups, p.groups, g, i, j, requested);
    }
    hide CutText, Length, PutText, GroupsCut, TextBytes, NarrowLinkage, TextsInOrder, Exhausted, Next;
  }

  // ---------------------------------------------------------------- the loop

  /** Drops the last element of the first list that has one. */
  method DropElement(p: Program, c: Counts, ghost o: Program) returns (dropped: bool, q: Program, d: Counts)
    requires Inv(o, p, c)
    ensures dropped <==> !ListsEmpty(p)
    ensures dropped ==> Inv(o, q, d) && Measure(q) < Measure(p)
    ensures !dropped ==> q == p && d == c
  {
    hide GroupsCut, TextBytes, NarrowLinkage, TextsInOrder;
    if |p.raw| > 0 {
      return true, p.(raw := p.raw[..|p.raw| - 1]), c.(raw := c.raw + 1);
    }
    if |p.unknown| > 0 {
      return true, p.(unknown := p.unknown[..|p.unknown| - 1]), c.(unknown := c.unknown + 1);
    }
    if |p.ratings| > 0 {
      return true, p.(ratings := p.ratings[..|p.ratings| - 1]), c.(ratings := c.ratings + 1);
    }
    if |p.diagnostics| > 0 {
      return true, p.(diagnostics := p.diagnostics[..|p.diagnostics| - 1]), c.(diagnostics := c.diagnostics + 1);
    }
    if |p.items| > 0 {
      return true, p.(items := p.items[..|p.items| - 1]), c.(items := c.items + 1);
    }
    return false, p, c;
  }

  method DropOne(p: Program, c: Counts, excess: nat, ghost o: Program) returns (dropped: bool, q: Program, d: Counts)
    requires Inv(o, p, c)
    ensures dropped ==> Inv(o, q, d) && Measure(q) < Measure(p)
    ensures !dropped ==> NothingLeft(p) && q == p
  {
    dropped, q, d := DropElement(p, c, o);
    if dropped { return; }
    var groups, removed := ShortenLongText(p.groups, excess);
    if removed == 0 { return; }
    ghost var g: nat, i: nat, j: nat, s: string :|
      && g < |p.groups| && Next(RuleOf(g), p.groups[g], i, j)
      && (forall k :: 0 <= k < g ==> Exhausted(RuleOf(k), p.groups[k]))
      && CutText(RuleOf(g), p.groups[g][i][j].value, excess) == (s, removed)
      && groups == PutText(p.groups, g, i, j, s);
    CutInv(o, p, c, g, i, j, excess, s, removed);
    return true, p.(groups := groups), c.(text := c.text + removed);
  }

  /** Either the data is fitted, with an honest account of what was left out, or nothing more may go. */
  method FinalizeProgram(e: Encoder, program: Program, final: Option<int64>) returns (r: Outcome)
    requires |program.groups| == GROUPS
    ensures r.Invalid? <==> !Valid(e, program)
    ensures r.Untouched? <==> Valid(e, program) && e.plain(program) <= HARD_LIMIT
    ensures r.Untouched? ==> r.length == e.plain(program)
    ensures r.Fitted? ==>
              && Inv(program, r.program, r.counts) && Valid(e, r.program)
              && r.dropped == Total(r.counts) <= Measure(program) - Measure(r.program)
              && (NarrowLinkage(program.groups) ==> r.dropped == Measure(program) - Measure(r.program))
              && r.length <= HARD_LIMIT && r.original == e.plain(program) > HARD_LIMIT
              && r.recorded == r.length
              && r.length == TextLength(FIXED + e.rest(r.program, r.counts, r.original), Some(r.recorded))
    ensures r.TooBig? ==>
              && (exists c :: Inv(program, r.program, c)) && Valid(e, r.program)
              && NothingLeft(r.program) && r.length > HARD_LIMIT
  {
    if !Valid(e, program) { return Invalid; }
    var original := e.plain(program);
    if original <= HARD_LIMIT { return Untouched(original); }
    var p, c, recorded := program, Counts(0, 0, 0, 0, 0, 0), final;
    StartInv(program);
    hide Inv, Valid;
    while true
      invariant Inv(program, p, c)
      decreases Measure(p)
    {
      var length, now := Settle(e.rest(p, c, original), recorded);
      recorded := Some(now);
      InvIsTrimmed(e, program, p, c);
      if length <= HARD_LIMIT {
        DroppedIsGone(program, p, c);
        return Fitted(p, c, Total(c), original, length, now);
      }
      var dropped, q, d := DropOne(p, c, length - HARD_LIMIT, program);
      if !dropped {
        return TooBig(p, length);
      }
      p, c := q, d;
    }
  }

  /** The recorded total is what the data has lost, counted in elements and bytes of text. */
  lemma DroppedIsGone(o: Program, p: Program, c: Counts)
    requires Inv(o, p, c)
    ensures Total(c) <= Measure(o) - Measure(p)
    ensures NarrowLinkage(o.groups) ==> Total(c) == Measure(o) - Measure(p)
  {
    hide TextBytes, Trimmed, InOrder, NarrowLinkage;
  }

  predicate AsciiItem(item: Item) {
    forall j :: 0 <= j < |item| && item[j].Some? ==> Ascii(item[j].value)
  }

  /** With ASCII linkage data, as hexadecimal digits are, nothing is miscounted. */
  lemma AsciiIsCountedExactly(o: Program, p: Program, c: Counts)
    requires Inv(o, p, c) && forall i :: 0 <= i < |o.groups[LINKAGE]| ==> AsciiItem(o.groups[LINKAGE][i])
    ensures Total(c) == Measure(o) - Measure(p)
  {
    forall i, j | 0 <= i < |o.groups[LINKAGE]| && 0 <= j < |o.groups[LINKAGE][i]| && o.groups[LINKAGE][i][j].Some?
      ensures OddPartsEndNarrow(o.groups[LINKAGE][i][j].value)
    {
      assert AsciiItem(o.groups[LINKAGE][i]);
      AsciiReportsExactly(o.groups[LINKAGE][i][j].value);
    }
    DroppedIsGone(o, p, c);
  }

  lemma InvIsTrimmed(e: Encoder, o: Program, p: Program, c: Counts)
    requires Inv(o, p, c) && Valid(e, o)
    ensures Valid(e, p)
  {
    ValidStays(e, o, p);
  }
}
