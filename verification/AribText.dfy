/**
 Text of service information: 8-bit codes with designated and invoked graphic sets, read strictly or
 with replacement characters. The glyph tables are a parameter.
*/
module AribText {
  import opened Basics

  datatype GraphicSet = Alnum | Hiragana | Katakana | Kanji | AdditionalSymbols

  datatype Invocation = Invocation(g0: GraphicSet, g1: GraphicSet, g2: GraphicSet, g3: GraphicSet,
                                   gl: GraphicSet, gr: GraphicSet, middle: bool)

  const INITIAL: Invocation := Invocation(Kanji, Alnum, Hiragana, Katakana, Kanji, Hiragana, false)

  datatype Glyphs = Glyphs(hiragana: byte -> string, katakana: byte -> string,
                           twoByte: (GraphicSet, byte, byte) -> string)

  const REPLACEMENT: char := '\U{FFFD}'

  datatype Error = TruncatedEscape | TruncatedGraphic | UnsupportedEscape | UnsupportedControl | MalformedCsi
                 | MiddleSizeGraphic

  /** What can go wrong, and where. */
  datatype Fault = MiddleShift | CutShift | CutEscape | BadEscape | BadCsi | MiddleGl | CutGl | BadSecondGl
                 | MiddleGr | CutGr | BadSecondGr | BadByte

  function ErrorOf(f: Fault): Error {
    match f
    case MiddleShift => MiddleSizeGraphic
    case CutShift => TruncatedGraphic
    case CutEscape => TruncatedEscape
    case BadEscape => UnsupportedEscape
    case BadCsi => MalformedCsi
    case MiddleGl => MiddleSizeGraphic
    case CutGl => TruncatedGraphic
    case BadSecondGl => UnsupportedControl
    case MiddleGr => MiddleSizeGraphic
    case CutGr => TruncatedGraphic
    case BadSecondGr => UnsupportedControl
    case BadByte => UnsupportedControl
  }

  /** Faults after which a replacing run gives up on the rest. */
  predicate Stops(f: Fault) {
    f.CutShift? || f.CutEscape? || f.BadCsi? || f.CutGl? || f.CutGr?
  }

  predicate TwoByte(set_: GraphicSet) {
    set_.Kanji? || set_.AdditionalSymbols?
  }

  predicate IsGl(b: byte) {
    0x21 <= b <= 0x7e
  }

  predicate IsGr(b: byte) {
    0xa1 <= b <= 0xfe
  }

  // ---------------------------------------------------------------- one unit of text

  /** The next unit: text and a new state, or a fault; `size` bytes are used up. */
  datatype Unit = Emit(text: string, state: Invocation, size: nat) | Bad(fault: Fault, size: nat)

  function OneByteGlyph(g: Glyphs, set_: GraphicSet, b: byte): string {
    match set_
    case Alnum => [b as char]
    case Hiragana => g.hiragana(b)
    case _ => g.katakana(b)
  }

  function ShiftUnit(g: Glyphs, s: Invocation, set_: GraphicSet, rest: Bytes): Unit {
    if s.middle && !set_.Alnum? then Bad(MiddleShift, if TwoByte(set_) then 3 else 2)
    else if |rest| < 2 || (TwoByte(set_) && |rest| < 3) then Bad(CutShift, 1)
    else if TwoByte(set_) then Emit(g.twoByte(set_, rest[1], rest[2]), s, 3)
    else Emit(OneByteGlyph(g, set_, rest[1]), s, 2)
  }

  function DesignatedOne(b: byte): Option<GraphicSet> {
    if b == 0x42 || b == 0x4a then Some(Alnum)
    else if b == 0x49 then Some(Katakana)
    else if b == 0x30 then Some(Hiragana)
    else None
  }

  function DesignatedTwo(b: byte): Option<GraphicSet> {
    if b == 0x42 || b == 0x40 then Some(Kanji) else if b == 0x3b then Some(AdditionalSymbols) else None
  }

  predicate Intermediate(b: byte) {
    0x28 <= b <= 0x2b
  }

  /** Designating G0 also invokes it. */
  function Designate(s: Invocation, which: byte, set_: GraphicSet): Invocation
    requires Intermediate(which)
  {
    if which == 0x28 then s.(g0 := set_, gl := set_)
    else if which == 0x29 then s.(g1 := set_)
    else if which == 0x2a then s.(g2 := set_)
    else s.(g3 := set_)
  }

  /** An escape sequence: the new state and its length, or why not. */
  datatype Escape = Applied(state: Invocation, size: nat) | CutOff | Strange

  function LockingShift(s: Invocation, b: byte): Option<Invocation> {
    if b == 0x6e then Some(s.(gl := s.g2))
    else if b == 0x6f then Some(s.(gl := s.g3))
    else if b == 0x7e then Some(s.(gr := s.g1))
    else if b == 0x7d then Some(s.(gr := s.g2))
    else if b == 0x7c then Some(s.(gr := s.g3))
    else None
  }

  function EscapeOf(s: Invocation, rest: Bytes): Escape {
    if |rest| < 2 then CutOff
    else if LockingShift(s, rest[1]).Some? then Applied(LockingShift(s, rest[1]).value, 2)
    else if |rest| < 3 || (rest[1] == 0x24 && Intermediate(rest[2]) && |rest| < 4) then CutOff
    else if Intermediate(rest[1]) && DesignatedOne(rest[2]).Some? then
      Applied(Designate(s, rest[1], DesignatedOne(rest[2]).value), 3)
    else if rest[1] == 0x24 && DesignatedTwo(rest[2]).Some? then
      Applied(Designate(s, 0x28, DesignatedTwo(rest[2]).value), 3)
    else if rest[1] == 0x24 && Intermediate(rest[2]) && DesignatedTwo(rest[3]).Some? then
      Applied(Designate(s, rest[2], DesignatedTwo(rest[3]).value), 4)
    else Strange
  }

  function Min(a: nat, b: nat): nat {
    if a < b then a else b
  }

  /** How much of an unknown sequence is passed over. */
  function UnknownLength(rest: Bytes): (n: nat)
    ensures n >= 1 || |rest| == 0
  {
    if |rest| < 2 then 1
    else if rest[1] == 0x24 && |rest| > 2 && Intermediate(rest[2]) then Min(|rest|, 4)
    else if rest[1] == 0x24 || Intermediate(rest[1]) then Min(|rest|, 3)
    else Min(|rest|, 2)
  }

  /** The length of a control sequence, from `i` on: parameters, then a final byte. */
  function CsiEnd(rest: Bytes, i: nat): (n: Option<nat>)
    ensures n.Some? ==> i < n.value <= |rest|
    decreases |rest| - i
  {
    if i >= |rest| then None
    else if 0x40 <= rest[i] <= 0x7e then Some(i + 1)
    else if !(0x20 <= rest[i] <= 0x3f) then None
    else CsiEnd(rest, i + 1)
  }

  function CsiLength(rest: Bytes): (n: Option<nat>)
    ensures n.Some? ==> 1 < n.value <= |rest|
  {
    if |rest| == 0 || rest[0] != 0x9b then None else CsiEnd(rest, 1)
  }

  /** External characters are bracketed by two control sequences. */
  datatype Marker = Opens | Closes | Plain

  function MarkerOf(rest: Bytes, size: nat): Marker
    requires size <= |rest|
  {
    if size == 4 && rest[2] == 0x20 && rest[3] == 0x66 then
      if rest[1] == 0x30 then Opens else if rest[1] == 0x31 then Closes else Plain
    else Plain
  }

  /** The end of a bracketed block whose inside starts at `at`; blocks do not nest. */
  function BlockEnd(rest: Bytes, at: nat): (n: Option<nat>)
    ensures n.Some? ==> at < n.value <= |rest|
    decreases |rest| - at
  {
    if at >= |rest| then None
    else if rest[at] != 0x9b then BlockEnd(rest, at + 1)
    else
      var size := CsiLength(rest[at..]);
      if size.None? then None
      else match MarkerOf(rest[at..], size.value)
        case Closes => Some(at + size.value)
        case Opens => None
        case Plain => BlockEnd(rest, at + size.value)
  }

  function ControlLength(rest: Bytes): (n: Option<nat>)
    ensures n.Some? ==> 1 < n.value <= |rest|
  {
    var size := CsiLength(rest);
    if size.Some? && MarkerOf(rest, size.value).Opens? then BlockEnd(rest, size.value) else size
  }

  function GraphicUnit(g: Glyphs, s: Invocation, set_: GraphicSet, right: bool, rest: Bytes): Unit
    requires rest != []
  {
    if s.middle && !set_.Alnum? then
      Bad(if right then MiddleGr else MiddleGl, if TwoByte(set_) && |rest| > 1 then 2 else 1)
    else if !TwoByte(set_) then Emit(OneByteGlyph(g, set_, rest[0] % 128), s, 1)
    else if |rest| < 2 then Bad(if right then CutGr else CutGl, 1)
    else if !(IsGl(rest[1]) || (right && IsGr(rest[1]))) then Bad(if right then BadSecondGr else BadSecondGl, 1)
    else Emit(g.twoByte(set_, rest[0] % 128, rest[1] % 128), s, 2)
  }

  function UnitOf(g: Glyphs, s: Invocation, rest: Bytes): (u: Unit)
    requires rest != []
    ensures u.size >= 1 && (u.Emit? ==> u.size <= |rest|)
  {
    var b := rest[0];
    if b == 0x00 then Emit("", s, 1)
    else if b == 0x0d then Emit("\n", s, 1)
    else if b == 0x0e then Emit("", s.(gl := s.g1), 1)
    else if b == 0x0f then Emit("", s.(gl := s.g0), 1)
    else if b == 0x19 then ShiftUnit(g, s, s.g2, rest)
    else if b == 0x1d then ShiftUnit(g, s, s.g3, rest)
    else if b == 0x1b then
      match EscapeOf(s, rest)
      case Applied(t, size) => Emit("", t, size)
      case CutOff => Bad(CutEscape, 1)
      case Strange => Bad(BadEscape, UnknownLength(rest))
    else if b == 0x20 then Emit(" ", s, 1)
    else if b == 0x89 then Emit("", s.(middle := true), 1)
    else if b == 0x8a then Emit("", s.(middle := false), 1)
    else if b == 0x9b then
      match ControlLength(rest) case Some(n) => Emit("", s, n) case None => Bad(BadCsi, 1)
    else if IsGl(b) then GraphicUnit(g, s, s.gl, false, rest)
    else if IsGr(b) then GraphicUnit(g, s, s.gr, true, rest)
    else Bad(BadByte, 1)
  }

  // ---------------------------------------------------------------- whole texts

  datatype Strictly = Done(text: string, state: Invocation) | Failed(error: Error)

  function Prepend(text: string, r: Strictly): Strictly {
    if r.Failed? then r else r.(text := text + r.text)
  }

  /** The first fault ends a strict run. */
  function Strict(g: Glyphs, s: Invocation, rest: Bytes): Strictly
    decreases |rest|
  {
    if rest == [] then Done("", s)
    else match UnitOf(g, s, rest)
      case Bad(f, _) => Failed(ErrorOf(f))
      case Emit(text, t, size) => Prepend(text, Strict(g, t, rest[size..]))
  }

  datatype Entry = Entry(offset: nat, prefix: Bytes, fault: Fault)

  datatype Replaced = Replaced(text: string, state: Invocation, entries: seq<Entry>)

  function EntryAt(all: Bytes, at: nat, f: Fault): Entry
    requires at <= |all|
  {
    Entry(at, all[at..Min(at + 8, |all|)], f)
  }

  /** A replacing run notes every fault and goes on, if it can. */
  function Replacing(g: Glyphs, s: Invocation, all: Bytes, at: nat): Replaced
    decreases |all| - at
  {
    if at >= |all| then Replaced("", s, [])
    else match UnitOf(g, s, all[at..])
      case Emit(text, t, size) =>
        var r := Replacing(g, t, all, at + size);
        r.(text := text + r.text)
      case Bad(f, size) =>
        if Stops(f) then Replaced([REPLACEMENT], s, [EntryAt(all, at, f)])
        else
          var r := Replacing(g, s, all, at + size);
          Replaced([REPLACEMENT] + r.text, r.state, [EntryAt(all, at, f)] + r.entries)
  }

  /** Strict reading succeeds exactly when a replacing run has nothing to replace, and then they agree; otherwise
      it fails with the first fault that the replacing run notes. */
  lemma {:induction false} StrictIffNothingReplaced(g: Glyphs, s: Invocation, all: Bytes, at: nat)
    requires at <= |all|
    ensures var strict, r := Strict(g, s, all[at..]), Replacing(g, s, all, at);
            && (strict.Done? <==> r.entries == [])
            && (strict.Done? ==> strict.text == r.text && strict.state == r.state)
            && (strict.Failed? ==> strict.error == ErrorOf(r.entries[0].fault))
    decreases |all| - at
  {
    hide UnitOf;
    if at < |all| {
      var u := UnitOf(g, s, all[at..]);
      if u.Emit? {
        assert all[at..][u.size..] == all[at + u.size..];
        StrictIffNothingReplaced(g, u.state, all, at + u.size);
      }
    }
  }

  /** Entries stand in the order of their offsets. */
  lemma {:induction false} EntriesAreInOrder(g: Glyphs, s: Invocation, all: Bytes, at: nat, i: nat)
    requires i < |Replacing(g, s, all, at).entries|
    ensures var es := Replacing(g, s, all, at).entries;
            && at <= es[i].offset < |all| && es[i] == EntryAt(all, es[i].offset, es[i].fault)
            && (i > 0 ==> es[i - 1].offset < es[i].offset)
            && (Stops(es[i].fault) ==> i == |es| - 1)
    decreases |all| - at
  {
    hide UnitOf;
    var u := UnitOf(g, s, all[at..]);
    if u.Emit? {
      EntriesAreInOrder(g, u.state, all, at + u.size, i);
    } else if !Stops(u.fault) && i > 0 {
      EntriesAreInOrder(g, s, all, at + u.size, i - 1);
    }
  }

  // ---------------------------------------------------------------- units are local

  lemma {:induction false} CsiEndLocal(p: Bytes, q: Bytes, i: nat)
    requires CsiEnd(p, i).Some? && |q| >= CsiEnd(p, i).value && q[..CsiEnd(p, i).value] == p[..CsiEnd(p, i).value]
    ensures CsiEnd(q, i) == CsiEnd(p, i)
    decreases |p| - i
  {
    var n := CsiEnd(p, i).value;
    assert q[i] == q[..n][i] == p[..n][i] == p[i];
    if 0x20 <= p[i] <= 0x3f {
      CsiEndLocal(p, q, i + 1);
    }
  }

  predicate SameFront(p: Bytes, q: Bytes, n: nat) {
    n <= |p| && n <= |q| && p[..n] == q[..n]
  }

  lemma SameAt(p: Bytes, q: Bytes, n: nat, i: nat)
    requires SameFront(p, q, n) && i < n
    ensures p[i] == q[i]
  {
    assert p[i] == p[..n][i] && q[i] == q[..n][i];
  }

  lemma SameAfter(p: Bytes, q: Bytes, n: nat, i: nat, k: nat)
    requires SameFront(p, q, n) && i + k <= n
    ensures SameFront(p[i..], q[i..], k) && SameFront(p, q, k)
  {
    forall j | 0 <= j < n ensures p[j] == q[j] {
      SameAt(p, q, n, j);
    }
  }

  lemma CsiLocal(p: Bytes, q: Bytes)
    requires CsiLength(p).Some? && SameFront(p, q, CsiLength(p).value)
    ensures CsiLength(q) == CsiLength(p) && MarkerOf(q, CsiLength(p).value) == MarkerOf(p, CsiLength(p).value)
  {
    var n := CsiLength(p).value;
    SameAt(p, q, n, 0);
    SameAt(p, q, n, 1);
    CsiEndLocal(p, q, 1);
    if n == 4 {
      SameAt(p, q, n, 2);
      SameAt(p, q, n, 3);
    }
  }

  lemma {:induction false} CsiEndIff(rest: Bytes, i: nat, n: nat)
    ensures CsiEnd(rest, i) == Some(n) <==>
            i < n <= |rest| && 0x40 <= rest[n - 1] <= 0x7e && forall k :: i <= k < n - 1 ==> 0x20 <= rest[k] <= 0x3f
    decreases |rest| - i
  {
    if i < |rest| {
      CsiEndIff(rest, i + 1, n);
    }
  }

  /** A control sequence is the introducer, parameters and one final byte. */
  lemma CsiLengthIff(rest: Bytes, n: nat)
    ensures CsiLength(rest) == Some(n) <==>
            && 1 < n <= |rest| && rest[0] == 0x9b && 0x40 <= rest[n - 1] <= 0x7e
            && forall k :: 1 <= k < n - 1 ==> 0x20 <= rest[k] <= 0x3f
  {
    CsiEndIff(rest, 1, n);
  }

  predicate WholeCsi(piece: Bytes, kind: Marker) {
    CsiLength(piece) == Some(|piece|) && MarkerOf(piece, |piece|) == kind
  }

  /** A byte of no control sequence, or a control sequence that is no bracket. */
  predicate Inner(piece: Bytes) {
    (|piece| == 1 && piece[0] != 0x9b) || WholeCsi(piece, Marker.Plain)
  }

  /** Inner pieces up to the first closing bracket. */
  predicate Bracketed(pieces: seq<Bytes>) {
    && |pieces| > 0 && WholeCsi(pieces[|pieces| - 1], Closes)
    && forall i :: 0 <= i < |pieces| - 1 ==> Inner(pieces[i])
  }

  function Joined(pieces: seq<Bytes>): Bytes {
    if pieces == [] then [] else pieces[0] + Joined(pieces[1..])
  }

  lemma WholeInFront(rest: Bytes, size: nat)
    requires CsiLength(rest) == Some(size)
    ensures WholeCsi(rest[..size], MarkerOf(rest, size))
  {
    assert SameFront(rest, rest[..size], size);
    CsiLocal(rest, rest[..size]);
  }

  lemma FrontIsWhole(piece: Bytes, rest: Bytes)
    requires CsiLength(piece) == Some(|piece|) && piece <= rest
    ensures CsiLength(rest) == Some(|piece|) && MarkerOf(rest, |piece|) == MarkerOf(piece, |piece|)
  {
    CsiLocal(piece, rest);
  }

  /** Where a block ends, its bytes are inner pieces and one closing bracket. */
  lemma {:induction false} BlockHasPieces(rest: Bytes, at: nat) returns (pieces: seq<Bytes>)
    requires BlockEnd(rest, at).Some?
    ensures Bracketed(pieces) && Joined(pieces) == rest[at..BlockEnd(rest, at).value]
    decreases |rest| - at
  {
    hide CsiLength, MarkerOf;
    if rest[at] != 0x9b {
      var more := BlockHasPieces(rest, at + 1);
      pieces := [[rest[at]]] + more;
      assert pieces[1..] == more;
      assert forall i :: 0 < i < |pieces| ==> pieces[i] == more[i - 1];
    } else {
      var size := CsiLength(rest[at..]).value;
      WholeInFront(rest[at..], size);
      var piece := rest[at..][..size];
      if MarkerOf(rest[at..], size).Closes? {
        pieces := [piece];
        assert Joined(pieces[1..]) == [];
      } else {
        var more := BlockHasPieces(rest, at + size);
        pieces := [piece] + more;
        assert pieces[1..] == more;
        assert forall i :: 0 < i < |pieces| ==> pieces[i] == more[i - 1];
      }
    }
  }

  /** Inner pieces and one closing bracket are a block, whatever follows. */
  lemma {:induction false} PiecesAreBlock(rest: Bytes, at: nat, pieces: seq<Bytes>)
    requires at <= |rest| && Bracketed(pieces) && Joined(pieces) <= rest[at..]
    ensures BlockEnd(rest, at) == Some(at + |Joined(pieces)|)
    decreases |pieces|
  {
    hide CsiLength, MarkerOf;
    var piece, more := pieces[0], pieces[1..];
    assert piece <= rest[at..];
    PieceIsThere(piece);
    assert rest[at] == piece[0];
    if piece[0] == 0x9b {
      FrontIsWhole(piece, rest[at..]);
    }
    if |pieces| > 1 {
      assert Joined(more) <= rest[at + |piece|..];
      assert forall i :: 0 <= i < |more| ==> more[i] == pieces[i + 1];
      PiecesAreBlock(rest, at + |piece|, more);
      assert Inner(piece);
    } else {
      assert Joined(more) == [];
    }
  }

  lemma PieceIsThere(piece: Bytes)
    ensures CsiLength(piece) == Some(|piece|) ==> |piece| > 0 && piece[0] == 0x9b
  {
  }

  lemma {:induction false} BlockLocal(p: Bytes, q: Bytes, at: nat)
    requires BlockEnd(p, at).Some? && SameFront(p, q, BlockEnd(p, at).value)
    ensures BlockEnd(q, at) == BlockEnd(p, at)
    decreases |p| - at
  {
    var n := BlockEnd(p, at).value;
    SameAt(p, q, n, at);
    if p[at] != 0x9b {
      BlockLocal(p, q, at + 1);
    } else {
      var size := CsiLength(p[at..]).value;
      SameAfter(p, q, n, at, size);
      CsiLocal(p[at..], q[at..]);
      if MarkerOf(p[at..], size).Plain? {
        BlockLocal(p, q, at + size);
      }
    }
  }

  lemma ControlLocal(p: Bytes, q: Bytes)
    requires ControlLength(p).Some? && SameFront(p, q, ControlLength(p).value)
    ensures ControlLength(q) == ControlLength(p)
  {
    var n, size := ControlLength(p).value, CsiLength(p).value;
    if MarkerOf(p, size).Opens? {
      BlockLocal(p, q, size);
    }
    SameAfter(p, q, n, 0, size);
    CsiLocal(p, q);
  }

  lemma EscapeLocal(s: Invocation, p: Bytes, q: Bytes)
    requires EscapeOf(s, p).Applied? && SameFront(p, q, EscapeOf(s, p).size)
    ensures EscapeOf(s, q) == EscapeOf(s, p)
  {
    var n := EscapeOf(s, p).size;
    SameAt(p, q, n, 1);
    if n > 2 { SameAt(p, q, n, 2); }
    if n > 3 { SameAt(p, q, n, 3); }
  }

  /** A good unit depends on its own bytes only: not on what follows, and not on how much follows. */
  lemma UnitIsLocal(g: Glyphs, s: Invocation, p: Bytes, q: Bytes)
    requires p != [] && q != [] && UnitOf(g, s, p).Emit? && SameFront(p, q, UnitOf(g, s, p).size)
    ensures UnitOf(g, s, q) == UnitOf(g, s, p)
  {
    hide EscapeOf, ControlLength;
    var n := UnitOf(g, s, p).size;
    SameAt(p, q, n, 0);
    if n > 1 { SameAt(p, q, n, 1); }
    if n > 2 { SameAt(p, q, n, 2); }
    if p[0] == 0x1b {
      EscapeLocal(s, p, q);
    } else if p[0] == 0x9b {
      ControlLocal(p, q);
    }
  }

  // ---------------------------------------------------------------- splitting a text

  lemma FrontOfJoined(a: Bytes, b: Bytes, n: nat)
    requires n <= |a|
    ensures SameFront(a, a + b, n) && (a + b)[n..] == a[n..] + b
  {
  }

  lemma PrependTwice(x: string, y: string, r: Strictly)
    ensures Prepend(x, Prepend(y, r)) == Prepend(x + y, r) && Prepend("", r) == r
  {
    if r.Done? {
      assert x + (y + r.text) == (x + y) + r.text && "" + r.text == r.text;
    }
  }

  /** A text that reads well can be read in one go with what follows: the state is all that carries over. */
  lemma {:induction false} StrictSplits(g: Glyphs, s: Invocation, a: Bytes, b: Bytes)
    requires Strict(g, s, a).Done?
    ensures var first := Strict(g, s, a);
            Strict(g, s, a + b) == Prepend(first.text, Strict(g, first.state, b))
    decreases |a|
  {
    hide UnitOf;
    if a == [] {
      assert a + b == b;
      PrependTwice("", "", Strict(g, s, b));
    } else {
      var u := UnitOf(g, s, a);
      FrontOfJoined(a, b, u.size);
      UnitIsLocal(g, s, a, a + b);
      var first := Strict(g, u.state, a[u.size..]);
      StrictSplits(g, u.state, a[u.size..], b);
      PrependTwice(u.text, first.text, Strict(g, first.state, b));
    }
  }

  /** The places between units of a strict run. */
  ghost predicate Boundary(g: Glyphs, s: Invocation, rest: Bytes, k: nat)
    decreases |rest|
  {
    k == 0 || (rest != [] && var u := UnitOf(g, s, rest);
                             u.Emit? && u.size <= k && Boundary(g, u.state, rest[u.size..], k - u.size))
  }

  /** Cutting a readable text leaves a readable front exactly when the cut is between two units. */
  lemma {:induction false} CutIffBoundary(g: Glyphs, s: Invocation, a: Bytes, b: Bytes)
    requires Strict(g, s, a + b).Done?
    ensures Strict(g, s, a).Done? <==> Boundary(g, s, a + b, |a|)
    decreases |a|
  {
    hide UnitOf;
    if a != [] {
      var all := a + b;
      var u := UnitOf(g, s, all);
      if u.size <= |a| {
        FrontOfJoined(a, b, u.size);
        UnitIsLocal(g, s, all, a);
        CutIffBoundary(g, u.state, a[u.size..], b);
      } else {
        var v := UnitOf(g, s, a);
        if v.Emit? {
          FrontOfJoined(a, b, v.size);
          UnitIsLocal(g, s, a, all);
        }
      }
    }
  }

  // ---------------------------------------------------------------- trimming

  const NUL: char := '\0'

  predicate AllNul(t: string) {
    forall i :: 0 <= i < |t| ==> t[i] == NUL
  }

  function TrimStart(t: string): string {
    if t != [] && t[0] == NUL then TrimStart(t[1..]) else t
  }

  function TrimEnd(t: string): string {
    if t != [] && t[|t| - 1] == NUL then TrimEnd(t[..|t| - 1]) else t
  }

  function Trim(t: string): string {
    TrimEnd(TrimStart(t))
  }

  lemma {:induction false} TrimStartParts(t: string)
    ensures |TrimStart(t)| <= |t| && TrimStart(t) == t[|t| - |TrimStart(t)|..]
    ensures AllNul(t[..|t| - |TrimStart(t)|])
    ensures TrimStart(t) != [] ==> TrimStart(t)[0] != NUL
    ensures AllNul(t) <==> TrimStart(t) == []
    decreases |t|
  {
    if t != [] && t[0] == NUL {
      TrimStartParts(t[1..]);
      assert t == [t[0]] + t[1..];
    }
  }

  lemma {:induction false} TrimEndParts(t: string)
    ensures |TrimEnd(t)| <= |t| && TrimEnd(t) == t[..|TrimEnd(t)|]
    ensures AllNul(t[|TrimEnd(t)|..])
    ensures TrimEnd(t) != [] ==> TrimEnd(t)[|TrimEnd(t)| - 1] != NUL
    ensures AllNul(t) <==> TrimEnd(t) == []
    decreases |t|
  {
    if t != [] && t[|t| - 1] == NUL {
      TrimEndParts(t[..|t| - 1]);
      assert t == t[..|t| - 1] + [t[|t| - 1]];
    }
  }

  lemma {:induction false} TrimStartJoined(t: string, u: string)
    ensures TrimStart(t + u) == if AllNul(t) then TrimStart(u) else TrimStart(t) + u
    decreases |t|
  {
    if t == [] {
      assert t + u == u;
    } else if t[0] == NUL {
      assert (t + u)[1..] == t[1..] + u;
      TrimStartJoined(t[1..], u);
      assert t == [t[0]] + t[1..];
    }
  }

  lemma {:induction false} TrimEndJoined(t: string, u: string)
    ensures TrimEnd(t + u) == if AllNul(u) then TrimEnd(t) else t + TrimEnd(u)
    decreases |u|
  {
    if u == [] {
      assert t + u == t;
    } else if u[|u| - 1] == NUL {
      assert (t + u)[..|t + u| - 1] == t + u[..|u| - 1];
      TrimEndJoined(t, u[..|u| - 1]);
      assert u == u[..|u| - 1] + [u[|u| - 1]];
    }
  }

  predicate NulAtSeam(t: string, u: string) {
    !AllNul(t) && !AllNul(u) && (t[|t| - 1] == NUL || u[0] == NUL)
  }

  lemma NotAllNul(t: string)
    requires !AllNul(t)
    ensures t != [] && TrimStart(t) != [] && TrimEnd(t) != []
    ensures !AllNul(TrimStart(t)) && !AllNul(TrimEnd(t))
    ensures TrimStart(t)[|TrimStart(t)| - 1] == t[|t| - 1]
    ensures |TrimEnd(t)| == |t| <==> t[|t| - 1] != NUL
    ensures |TrimStart(t)| == |t| <==> t[0] != NUL
  {
    TrimStartParts(t);
    TrimEndParts(t);
    assert TrimStart(t)[0] != NUL;
    assert TrimEnd(t)[|TrimEnd(t)| - 1] != NUL;
  }

  lemma AllNulTrims(t: string)
    requires AllNul(t)
    ensures TrimStart(t) == [] && TrimEnd(t) == [] && Trim(t) == []
  {
    TrimStartParts(t);
    TrimEndParts(t);
  }

  /** `u` is NULs and then `v`. */
  lemma FrontNuls(u: string) returns (front: string, v: string)
    requires !AllNul(u)
    ensures u == front + v && AllNul(front) && v == TrimStart(u) && !AllNul(v)
    ensures TrimEnd(u) == front + TrimEnd(v) && (front == [] <==> u[0] != NUL)
  {
    TrimStartParts(u);
    NotAllNul(u);
    v, front := TrimStart(u), u[..|u| - |TrimStart(u)|];
    assert u == front + v;
    TrimEndJoined(front, v);
  }

  /** A NUL at the seam makes the whole longer than its parts, each trimmed. */
  lemma SeamIsLonger(t: string, u: string)
    requires NulAtSeam(t, u)
    ensures |Trim(t + u)| > |Trim(t)| + |Trim(u)|
  {
    hide TrimStart, TrimEnd, AllNul;
    TrimStartJoined(t, u);
    NotAllNul(t);
    var x := TrimStart(t);
    NotAllNul(x);
    TrimEndJoined(x, u);
    TrimEndParts(x);
    var front, v := FrontNuls(u);
  }

  lemma NoSeam(t: string, u: string)
    requires !AllNul(t) && !AllNul(u) && t[|t| - 1] != NUL && u[0] != NUL
    ensures Trim(t + u) == Trim(t) + Trim(u)
  {
    hide TrimStart, TrimEnd, AllNul;
    TrimStartJoined(t, u);
    NotAllNul(t);
    NotAllNul(u);
    var x := TrimStart(t);
    NotAllNul(x);
    TrimEndParts(x);
    TrimStartParts(u);
    TrimEndJoined(x, u);
    assert TrimEnd(x) == x[..|x|] == x && TrimStart(u) == u[0..] == u;
  }

  /** Trimming each part is trimming the whole, unless a NUL lies at the seam of two texts with content. */
  lemma TrimSplitsIff(t: string, u: string)
    ensures Trim(t + u) == Trim(t) + Trim(u) <==> !NulAtSeam(t, u)
  {
    hide TrimStart, TrimEnd, AllNul;
    if AllNul(t) {
      AllNulTrims(t);
      TrimStartJoined(t, u);
      assert [] + Trim(u) == Trim(u);
    } else if AllNul(u) {
      AllNulTrims(u);
      TrimStartJoined(t, u);
      TrimEndJoined(TrimStart(t), u);
      assert Trim(t) + [] == Trim(t);
    } else {
      NotAllNul(t);
      NotAllNul(u);
      if NulAtSeam(t, u) {
        SeamIsLonger(t, u);
      } else {
        NoSeam(t, u);
      }
    }
  }

  // ---------------------------------------------------------------- text over several fragments

  /** What a decoder gives for a text: trimmed, or an error that leaves its state alone. */
  datatype Decoded = Text(text: string) | Undecodable(error: Error)

  function DecodedOf(r: Strictly): Decoded {
    match r case Done(t, _) => Text(Trim(t)) case Failed(e) => Undecodable(e)
  }

  function StateAfter(s: Invocation, r: Strictly): Invocation {
    match r case Done(_, t) => t case Failed(_) => s
  }

  /** An item continued in the next fragment reads as the joined bytes would, except at a NUL at the seam. */
  lemma ContinuedItem(g: Glyphs, s: Invocation, a: Bytes, b: Bytes)
    requires Strict(g, s, a).Done?
    ensures var first := Strict(g, s, a);
            var second := Strict(g, first.state, b);
            && (Strict(g, s, a + b).Done? <==> second.Done?)
            && StateAfter(s, Strict(g, s, a + b)) == (if second.Done? then StateAfter(first.state, second) else s)
            && (second.Done? ==>
                  (DecodedOf(Strict(g, s, a + b)) == Text(Trim(first.text) + Trim(second.text))
                   <==> !NulAtSeam(first.text, second.text)))
  {
    var first := Strict(g, s, a);
    hide Strict, Trim, NulAtSeam;
    StrictSplits(g, s, a, b);
    var second := Strict(g, first.state, b);
    if second.Done? {
      TrimSplitsIff(first.text, second.text);
    }
  }

  /** Escapes that make G2 alphanumeric and G0 alphanumeric and invoked. */
  const TO_ALNUM: Bytes := [0x1b, 0x2a, 0x42, 0x1b, 0x28, 0x42]

  const ALNUM: Invocation := INITIAL.(g0 := Alnum, g2 := Alnum, gl := Alnum)

  lemma EscapesToAlnum(g: Glyphs)
    ensures Strict(g, INITIAL, TO_ALNUM) == Done("", ALNUM)
  {
    var s := INITIAL.(g2 := Alnum);
    var rest := TO_ALNUM[3..];
    assert rest == [0x1b, 0x28, 0x42] && rest[3..] == [];
    assert UnitOf(g, INITIAL, TO_ALNUM) == Emit("", s, 3);
    assert UnitOf(g, s, rest) == Emit("", ALNUM, 3);
    assert Strict(g, ALNUM, rest[3..]) == Done("", ALNUM);
    assert "" + "" == "";
    assert Strict(g, s, rest) == Done("", ALNUM);
  }

  /** A single shift can produce a NUL, so the exception is real: from the initial state on, an item whose first
      part ends with one reads differently in two parts. */
  lemma NulSeamExists(g: Glyphs)
    ensures var a: Bytes, b: Bytes := TO_ALNUM + [0x41, 0x19, 0x00], [0x42];
            var first := Strict(g, INITIAL, a);
            && first == Done(['A', NUL], ALNUM) && Strict(g, ALNUM, b) == Done("B", ALNUM)
            && DecodedOf(Strict(g, INITIAL, a + b)) != Text(Trim(first.text) + Trim("B"))
  {
    var tail, b: Bytes := [0x41, 0x19, 0x00], [0x42];
    EscapesToAlnum(g);
    StrictSplits(g, INITIAL, TO_ALNUM, tail);
    NulTail(g);
    PrependTwice("", "", Done(['A', NUL], ALNUM));
    assert !AllNul("B") by { assert "B"[0] != NUL; }
    assert !AllNul(['A', NUL]) by { assert ['A', NUL][0] != NUL; }
    ContinuedItem(g, INITIAL, TO_ALNUM + tail, b);
  }

  lemma NulTail(g: Glyphs)
    ensures Strict(g, ALNUM, [0x41, 0x19, 0x00]) == Done(['A', NUL], ALNUM) && Strict(g, ALNUM, [0x42]) == Done("B", ALNUM)
  {
    var a, b: Bytes := [0x41, 0x19, 0x00], [0x42];
    assert a[1..] == [0x19, 0x00] && b[1..] == [];
    hide UnitOf;
    NulAlone(g);
    LetterUnit(g, a);
    LetterUnit(g, b);
    assert "A" + [NUL] == ['A', NUL] && "B" + "" == "B";
  }

  lemma LetterUnit(g: Glyphs, rest: Bytes)
    requires rest != [] && 0x41 <= rest[0] <= 0x5a
    ensures UnitOf(g, ALNUM, rest) == Emit([rest[0] as char], ALNUM, 1)
  {
    hide EscapeOf, ControlLength, LockingShift;
  }

  lemma NulAlone(g: Glyphs)
    ensures Strict(g, ALNUM, [0x19, 0x00]) == Done([NUL], ALNUM)
  {
    var a: Bytes := [0x19, 0x00];
    assert a[2..] == [];
    assert UnitOf(g, ALNUM, a) == Emit([NUL], ALNUM, 2);
    hide UnitOf;
  }

  /** A two-byte character may be cut by a fragment border: the whole is readable, its first part is not. */
  lemma CutCharacterExists(g: Glyphs)
    ensures Strict(g, INITIAL, [0x30, 0x21]).Done? && Strict(g, INITIAL, [0x30]) == Failed(TruncatedGraphic)
  {
    var a: Bytes := [0x30, 0x21];
    assert a[2..] == [];
    assert UnitOf(g, INITIAL, a) == Emit(g.twoByte(Kanji, 0x30, 0x21), INITIAL, 2);
  }
}
