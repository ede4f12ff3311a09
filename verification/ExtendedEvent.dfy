/** Extended event descriptors: fragments in sequence, and items that continue from one fragment into the next. */
module ExtendedEvent {
  import opened Basics
  import opened AribText
  import opened AribDecoder

  datatype Part = Part(description: Bytes, text: Bytes)

  datatype Fragment = Fragment(number: byte, last: byte, parts: seq<Part>)

  // ---------------------------------------------------------------- the sequence check

  predicate Sorted(s: seq<Fragment>) {
    forall i, j :: 0 <= i < j < |s| ==> s[i].number <= s[j].number
  }

  predicate Numbered(s: seq<Fragment>, n: int) {
    exists i :: 0 <= i < |s| && s[i].number == n
  }

  /** What the descriptor parser checks after sorting. */
  predicate SequenceOk(s: seq<Fragment>) {
    && s != [] && (forall i :: 0 <= i < |s| ==> s[i].last == s[0].last)
    && s[0].last as int + 1 == |s|
    && (forall i, j :: 0 <= i < j < |s| ==> s[i].number != s[j].number)
    && (forall n: byte :: n <= s[0].last ==> Numbered(s, n))
  }

  lemma {:induction false} AtLeastIndex(s: seq<Fragment>, i: nat)
    requires Sorted(s) && SequenceOk(s) && i < |s|
    ensures s[i].number >= i
    decreases i
  {
    if i > 0 {
      AtLeastIndex(s, i - 1);
      assert s[i - 1].number <= s[i].number && s[i - 1].number != s[i].number;
    }
  }

  /** The check passes exactly when fragment number `i` stands in place `i`, up to the last one. */
  lemma {:induction false} InPlace(s: seq<Fragment>, n: nat)
    requires Sorted(s) && SequenceOk(s) && n < |s|
    ensures s[n].number == n
    decreases n
  {
    assert Numbered(s, n) by {
      var b: byte := n;
      assert b <= s[0].last;
    }
    var k :| 0 <= k < |s| && s[k].number == n;
    AtLeastIndex(s, k);
    if k < n {
      InPlace(s, k);
    }
  }

  lemma SequenceIff(s: seq<Fragment>)
    requires Sorted(s)
    ensures SequenceOk(s) <==>
            && s != [] && s[0].last as int + 1 == |s|
            && forall i :: 0 <= i < |s| ==> s[i].number == i && s[i].last == s[0].last
  {
    if SequenceOk(s) {
      forall i | 0 <= i < |s| ensures s[i].number == i {
        InPlace(s, i);
      }
    }
    if s != [] && s[0].last as int + 1 == |s| && forall i :: 0 <= i < |s| ==> s[i].number == i && s[i].last == s[0].last {
      forall n: byte | n <= s[0].last ensures Numbered(s, n) {
        assert s[n].number == n;
      }
    }
  }

  /** However the fragments arrive, a complete sequence sorts into one list only. */
  lemma SequenceIsUnique(s: seq<Fragment>, t: seq<Fragment>)
    requires Sorted(s) && Sorted(t) && multiset(s) == multiset(t) && SequenceOk(s) && SequenceOk(t)
    ensures s == t
  {
    SequenceIff(s);
    SequenceIff(t);
    assert |s| == |multiset(s)| == |multiset(t)| == |t|;
    forall i | 0 <= i < |s| ensures s[i] == t[i] {
      assert s[i] in multiset(t);
      var j :| 0 <= j < |t| && t[j] == s[i];
      assert t[j].number == j && s[i].number == i;
    }
  }

  // ---------------------------------------------------------------- logical items

  /** A part, and whether it goes on with the item before it. */
  datatype Piece = Piece(part: Part, continues: bool)

  /** Only the first part of a fragment can go on, without a description, when the fragment before had parts. */
  function PieceAt(s: seq<Fragment>, k: nat, i: nat): Piece
    requires k < |s| && i < |s[k].parts|
  {
    Piece(s[k].parts[i], i == 0 && s[k].parts[i].description == [] && k > 0 && s[k - 1].parts != [])
  }

  function PiecesOf(s: seq<Fragment>, k: nat, i: nat): seq<Piece>
    requires k < |s| && i <= |s[k].parts|
    decreases i
  {
    if i == 0 then [] else PiecesOf(s, k, i - 1) + [PieceAt(s, k, i - 1)]
  }

  function Pieces(s: seq<Fragment>, k: nat): seq<Piece>
    requires k <= |s|
    decreases k
  {
    if k == 0 then [] else Pieces(s, k - 1) + PiecesOf(s, k - 1, |s[k - 1].parts|)
  }

  datatype Logical = Logical(description: Bytes, texts: seq<Bytes>)

  function Extend(ls: seq<Logical>, p: Piece): seq<Logical> {
    if p.continues && ls != [] then
      var l := ls[|ls| - 1];
      ls[..|ls| - 1] + [l.(texts := l.texts + [p.part.text])]
    else ls + [Logical(p.part.description, [p.part.text])]
  }

  function Items(ps: seq<Piece>): seq<Logical> {
    if ps == [] then [] else Extend(Items(ps[..|ps| - 1]), ps[|ps| - 1])
  }

  /** Reading an item's texts one after the other with one decoder. */
  datatype Progress = Progress(text: string, state: Invocation, ok: bool)

  function ReadOn(g: Glyphs, p: Progress, bytes: Bytes): Progress {
    match Strict(g, p.state, bytes)
    case Done(t, s) => Progress(p.text + Trim(t), s, p.ok)
    case Failed(_) => p.(ok := false)
  }

  function ReadAll(g: Glyphs, texts: seq<Bytes>): Progress {
    if texts == [] then Progress("", INITIAL, true)
    else ReadOn(g, ReadAll(g, texts[..|texts| - 1]), texts[|texts| - 1])
  }

  datatype Shown = Shown(description: string, text: string)

  function Described(g: Glyphs, bytes: Bytes): Decoded {
    if bytes == [] then Text("") else DecodedOf(Strict(g, INITIAL, bytes))
  }

  /** An item is shown when all of it can be read and something is left of it. */
  function Show(g: Glyphs, strip: string -> string, l: Logical): seq<Shown> {
    var d, r := Described(g, l.description), ReadAll(g, l.texts);
    if d.Undecodable? || !r.ok || (d.text == "" && r.text == "") then []
    else [Shown(strip(d.text), strip(r.text))]
  }

  function ShowAll(g: Glyphs, strip: string -> string, ls: seq<Logical>): seq<Shown> {
    if ls == [] then [] else ShowAll(g, strip, ls[..|ls| - 1]) + Show(g, strip, ls[|ls| - 1])
  }

  lemma ShowAllEnds(g: Glyphs, strip: string -> string, ls: seq<Logical>)
    ensures ShowAll(g, strip, ls) ==
            if ls == [] then [] else ShowAll(g, strip, ls[..|ls| - 1]) + Show(g, strip, ls[|ls| - 1])
  {
    hide Show;
  }

  // ---------------------------------------------------------------- what continuation means

  function Joined(texts: seq<Bytes>): Bytes {
    if texts == [] then [] else Joined(texts[..|texts| - 1]) + texts[|texts| - 1]
  }

  /** The first `k` texts, joined, can be read. */
  ghost predicate Reads(g: Glyphs, texts: seq<Bytes>, k: nat)
    requires k <= |texts|
  {
    Strict(g, INITIAL, Joined(texts[..k])).Done?
  }

  /** Where the first `k` texts end in the joined bytes, a unit of text ends too. */
  ghost predicate UnitBorder(g: Glyphs, texts: seq<Bytes>, k: nat)
    requires k <= |texts|
  {
    Boundary(g, INITIAL, Joined(texts), |Joined(texts[..k])|)
  }

  lemma {:induction false} JoinedSplits(texts: seq<Bytes>, k: nat) returns (rest: Bytes)
    requires k <= |texts|
    ensures Joined(texts) == Joined(texts[..k]) + rest
    decreases |texts|
  {
    if k == |texts| {
      rest := [];
      assert texts[..k] == texts;
    } else {
      var front := texts[..|texts| - 1];
      var less := JoinedSplits(front, k);
      assert front[..k] == texts[..k];
      rest := less + texts[|texts| - 1];
    }
  }

  ghost predicate AllRead(g: Glyphs, texts: seq<Bytes>) {
    forall k :: 0 <= k <= |texts| ==> Reads(g, texts, k)
  }

  lemma AllReadLast(g: Glyphs, texts: seq<Bytes>)
    requires texts != []
    ensures AllRead(g, texts) <==> AllRead(g, texts[..|texts| - 1]) && Strict(g, INITIAL, Joined(texts)).Done?
  {
    var front := texts[..|texts| - 1];
    assert texts[..|texts|] == texts;
    assert Reads(g, texts, |texts|) <==> Strict(g, INITIAL, Joined(texts)).Done?;
    forall k | 0 <= k <= |front| ensures Reads(g, front, k) <==> Reads(g, texts, k) {
      assert front[..k] == texts[..k];
    }
    hide Strict, Joined;
  }

  /** The parts of an item can all be read exactly when every beginning of it can. */
  lemma {:induction false} OkIffReads(g: Glyphs, texts: seq<Bytes>)
    ensures ReadAll(g, texts).ok <==> AllRead(g, texts)
    ensures ReadAll(g, texts).ok ==>
              && Strict(g, INITIAL, Joined(texts)).Done?
              && Strict(g, INITIAL, Joined(texts)).state == ReadAll(g, texts).state
    decreases |texts|
  {
    if texts == [] {
      EmptyText(g);
      assert texts[..0] == texts;
    } else {
      var front, b := texts[..|texts| - 1], texts[|texts| - 1];
      OkIffReads(g, front);
      AllReadLast(g, texts);
      hide AllRead, Strict;
      if ReadAll(g, front).ok {
        StrictSplits(g, INITIAL, Joined(front), b);
      }
    }
  }

  /** An item is readable part by part exactly when its joined bytes are readable and every border between its
      parts is a border between units of text. */
  lemma OkIffBorders(g: Glyphs, texts: seq<Bytes>)
    ensures ReadAll(g, texts).ok <==>
            Strict(g, INITIAL, Joined(texts)).Done? && forall k :: 0 <= k <= |texts| ==> UnitBorder(g, texts, k)
  {
    OkIffReads(g, texts);
    assert texts[..|texts|] == texts;
    assert Reads(g, texts, |texts|) <==> Strict(g, INITIAL, Joined(texts)).Done?;
    if Strict(g, INITIAL, Joined(texts)).Done? {
      forall k | 0 <= k <= |texts| ensures Reads(g, texts, k) <==> UnitBorder(g, texts, k) {
        var rest := JoinedSplits(texts, k);
        CutIffBoundary(g, INITIAL, Joined(texts[..k]), rest);
      }
    }
  }

  /** No NUL lies at the seam before part `k`, between two texts with content. */
  ghost predicate CleanSeam(g: Glyphs, texts: seq<Bytes>, k: nat)
    requires k < |texts|
  {
    var before := Strict(g, INITIAL, Joined(texts[..k]));
    before.Done? ==>
      var part := Strict(g, before.state, texts[k]);
      part.Done? ==> !NulAtSeam(before.text, part.text)
  }

  ghost predicate CleanSeams(g: Glyphs, texts: seq<Bytes>) {
    forall k :: 0 <= k < |texts| ==> CleanSeam(g, texts, k)
  }

  /** Read part by part, an item ends in the state of its joined bytes; its text is theirs exactly when no NUL lies
      at a seam, and shorter otherwise. */
  lemma {:induction false} PartsReadAsJoined(g: Glyphs, texts: seq<Bytes>)
    requires ReadAll(g, texts).ok
    ensures Strict(g, INITIAL, Joined(texts)).Done?
    ensures Strict(g, INITIAL, Joined(texts)).state == ReadAll(g, texts).state
    ensures Trim(Strict(g, INITIAL, Joined(texts)).text) == ReadAll(g, texts).text <==> CleanSeams(g, texts)
    ensures !CleanSeams(g, texts) ==> |Trim(Strict(g, INITIAL, Joined(texts)).text)| > |ReadAll(g, texts).text|
    decreases |texts|
  {
    OkIffReads(g, texts);
    if texts == [] {
      EmptyText(g);
    } else {
      var front, b := texts[..|texts| - 1], texts[|texts| - 1];
      assert ReadAll(g, front).ok;
      PartsReadAsJoined(g, front);
      StrictSplits(g, INITIAL, Joined(front), b);
      LastSeam(g, texts);
      hide Strict, Trim, NulAtSeam, CleanSeam, CleanSeams;
      var whole := Strict(g, INITIAL, Joined(front));
      LongerAtSeams(whole.text, Strict(g, whole.state, b).text);
    }
  }

  lemma LastSeam(g: Glyphs, texts: seq<Bytes>)
    requires texts != []
    ensures CleanSeams(g, texts) <==> CleanSeams(g, texts[..|texts| - 1]) && CleanSeam(g, texts, |texts| - 1)
    ensures texts[..|texts| - 1] == texts[..|texts| - 1][..|texts| - 1]
  {
    var front := texts[..|texts| - 1];
    forall k | 0 <= k < |front| ensures CleanSeam(g, front, k) <==> CleanSeam(g, texts, k) {
      assert front[..k] == texts[..k] && front[k] == texts[k];
    }
  }

  lemma LongerAtSeams(t: string, u: string)
    ensures |Trim(t + u)| >= |Trim(t)| + |Trim(u)|
    ensures Trim(t + u) == Trim(t) + Trim(u) <==> !NulAtSeam(t, u)
    ensures NulAtSeam(t, u) ==> |Trim(t + u)| > |Trim(t)| + |Trim(u)|
  {
    TrimSplitsIff(t, u);
    if NulAtSeam(t, u) {
      SeamIsLonger(t, u);
    }
  }

  lemma EmptyText(g: Glyphs)
    ensures Strict(g, INITIAL, []) == Done("", INITIAL) && Trim("") == ""
  {
  }

  // ---------------------------------------------------------------- the assembling loop

  lemma ItemsLast(ps: seq<Piece>, p: Piece)
    ensures Items(ps + [p]) == Extend(Items(ps), p)
  {
    assert (ps + [p])[..|ps|] == ps;
  }

  lemma ReadAllLast(g: Glyphs, texts: seq<Bytes>, b: Bytes)
    ensures ReadAll(g, texts + [b]) == ReadOn(g, ReadAll(g, texts), b)
  {
    assert (texts + [b])[..|texts|] == texts;
  }

  /** The item in hand. */
  class Assembler {
    const glyphs: Glyphs
    const strip: string -> string
    var shown: seq<Shown>
    var description: string
    var text: string
    var decoder: Option<AribStringDecoder>
    var active: bool
    var valid: bool

    /** The item in hand has this description and has been read this far. */
    ghost predicate InHand(bytes: Bytes, texts: seq<Bytes>)
      reads this, if decoder.Some? then {decoder.value} else {}
    {
      var d, r := Described(glyphs, bytes), ReadAll(glyphs, texts);
      && active && decoder.Some? && decoder.value.glyphs == glyphs && decoder.value.state == r.state
      && valid == (r.ok && d.Text?) && text == r.text && description == (if d.Text? then d.text else "")
    }

    /** The finished items are shown, and the last one is in hand. */
    ghost predicate Holds(ls: seq<Logical>)
      reads this, if decoder.Some? then {decoder.value} else {}
    {
      if ls == [] then !active && valid && description == "" && text == "" && shown == []
      else shown == ShowAll(glyphs, strip, ls[..|ls| - 1]) && InHand(ls[|ls| - 1].description, ls[|ls| - 1].texts)
    }

    constructor (glyphs: Glyphs, strip: string -> string)
      ensures this.glyphs == glyphs && this.strip == strip && Holds([]) && decoder.None?
    {
      this.glyphs, this.strip := glyphs, strip;
      shown, description, text, decoder, active, valid := [], "", "", None, false, true;
    }

    method Flush(ghost ls: seq<Logical>)
      requires Holds(ls)
      modifies this
      ensures shown == ShowAll(glyphs, strip, ls)
      ensures !active && valid && description == "" && text == "" && decoder.None?
    {
      hide Described, ReadAll, ShowAll;
      ShowAllEnds(glyphs, strip, ls);
      if active && valid && (description != "" || text != "") {
        shown := shown + [Shown(strip(description), strip(text))];
      } else {
        assert shown + [] == shown;
      }
      description, text, decoder, active, valid := "", "", None, false, true;
    }

    /** Starts a new item: the one in hand is finished, the decoder is fresh. */
    method Begin(ghost ls: seq<Logical>, bytes: Bytes)
      requires Holds(ls)
      modifies this
      ensures shown == ShowAll(glyphs, strip, ls) && InHand(bytes, []) && fresh(decoder.value)
    {
      hide ShowAll, Strict, Holds;
      Flush(ls);
      active := true;
      var d := new AribStringDecoder(glyphs);
      decoder := Some(d);
      if bytes != [] {
        var other := new AribStringDecoder(glyphs);
        var r := other.Decode(bytes);
        match r {
          case Text(t) => description := t;
          case Undecodable(_) => valid := false;
        }
      }
    }

    /** Reads one more part of the item in hand. */
    method ReadPart(bytes: Bytes, ghost about: Bytes, ghost texts: seq<Bytes>)
      requires InHand(about, texts)
      modifies this`text, this`valid, decoder.value
      ensures InHand(about, texts + [bytes])
    {
      ReadAllLast(glyphs, texts, bytes);
      hide Described, ReadAll, Strict, Trim;
      var r := decoder.value.Decode(bytes);
      match r {
        case Text(t) => text := text + t;
        case Undecodable(_) => valid := false;
      }
    }

    /** One part: of the item in hand, or of a new one. */
    method Take(ghost ls: seq<Logical>, p: Piece)
      requires Holds(ls)
      modifies this, if decoder.Some? then {decoder.value} else {}
      ensures Holds(Extend(ls, p))
      ensures decoder.Some? ==> decoder == old(decoder) || fresh(decoder.value)
    {
      ghost var next := Extend(ls, p);
      hide ShowAll;
      if p.continues && active {
        ghost var l := ls[|ls| - 1];
        assert next[..|next| - 1] == ls[..|ls| - 1] && next[|next| - 1] == l.(texts := l.texts + [p.part.text]);
        hide InHand;
        ReadPart(p.part.text, l.description, l.texts);
      } else {
        assert next[..|next| - 1] == ls && next[|next| - 1] == Logical(p.part.description, [p.part.text]);
        Begin(ls, p.part.description);
        assert [] + [p.part.text] == [p.part.text];
        ReadPart(p.part.text, p.part.description, []);
      }
    }
  }

  lemma NoItems()
    ensures Items([]) == []
  {
  }

  /** The loops over fragments and parts show exactly the logical items. */
  method Assemble(g: Glyphs, strip: string -> string, s: seq<Fragment>) returns (shown: seq<Shown>)
    ensures shown == ShowAll(g, strip, Items(Pieces(s, |s|)))
  {
    hide ShowAll, PieceAt, Items, Extend;
    assert Items([]) == [] by { NoItems(); }
    var a := new Assembler(g, strip);
    ghost var ps: seq<Piece> := [];
    for k := 0 to |s|
      invariant fresh(a) && (a.decoder.Some? ==> fresh(a.decoder.value)) && a.glyphs == g && a.strip == strip
      invariant ps == Pieces(s, k) && a.Holds(Items(ps))
    {
      ghost var done := ps;
      assert done + [] == done;
      for i := 0 to |s[k].parts|
        invariant fresh(a) && (a.decoder.Some? ==> fresh(a.decoder.value)) && a.glyphs == g && a.strip == strip
        invariant ps == done + PiecesOf(s, k, i) && a.Holds(Items(ps))
      {
        var p := PieceAt(s, k, i);
        ItemsLast(ps, p);
        a.Take(Items(ps), p);
        ps := ps + [p];
        assert done + (PiecesOf(s, k, i) + [p]) == (done + PiecesOf(s, k, i)) + [p];
      }
    }
    a.Flush(Items(ps));
    return a.shown;
  }
}
