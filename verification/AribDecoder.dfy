/** The text decoder's loops and its object. */
module AribDecoder {
  import opened Basics
  import opened AribText

  // ---------------------------------------------------------------- control sequences

  method ConsumeCsi(bytes: Bytes) returns (n: Option<nat>)
    ensures n == CsiLength(bytes)
  {
    if |bytes| == 0 || bytes[0] != 0x9b { return None; }
    var index := 1;
    while index < |bytes|
      invariant 1 <= index <= |bytes| && CsiEnd(bytes, 1) == CsiEnd(bytes, index)
    {
      if 0x40 <= bytes[index] <= 0x7e { return Some(index + 1); }
      if !(0x20 <= bytes[index] <= 0x3f) { return None; }
      index := index + 1;
    }
    return None;
  }

  /** The inside of a bracketed block, up to and with the closing sequence. */
  method ConsumeBlock(bytes: Bytes, start: nat) returns (n: Option<nat>)
    requires start <= |bytes|
    ensures n == BlockEnd(bytes, start)
  {
    var cursor := start;
    while cursor < |bytes|
      invariant start <= cursor <= |bytes| && BlockEnd(bytes, start) == BlockEnd(bytes, cursor)
    {
      if bytes[cursor] != 0x9b {
        cursor := cursor + 1;
        continue;
      }
      var consumed := ConsumeCsi(bytes[cursor..]);
      if consumed.None? { return None; }
      match MarkerOf(bytes[cursor..], consumed.value) {
        case Closes => return Some(cursor + consumed.value);
        case Opens => return None;
        case Plain => cursor := cursor + consumed.value;
      }
    }
    return None;
  }

  method ConsumeControl(bytes: Bytes) returns (n: Option<nat>)
    ensures n == ControlLength(bytes)
  {
    n := ConsumeCsi(bytes);
    if n.Some? && MarkerOf(bytes, n.value).Opens? {
      n := ConsumeBlock(bytes, n.value);
    }
  }

  // ---------------------------------------------------------------- the decoding loop

  datatype Diagnostic = Diagnostic(replacements: nat, badEscapes: nat, cutEscapes: nat, cutGraphics: nat,
                                   entries: seq<Entry>)

  datatype Outcome = Read(text: string, diagnostic: Diagnostic) | Err(error: Error)

  predicate CutGraphic(f: Fault) {
    f.CutShift? || f.CutGl? || f.CutGr?
  }

  function CountIf(es: seq<Entry>, p: Fault -> bool): nat {
    if es == [] then 0 else CountIf(es[..|es| - 1], p) + if p(es[|es| - 1].fault) then 1 else 0
  }

  /** The counters are the counts of the entries. */
  predicate Tallied(d: Diagnostic) {
    && d.replacements == |d.entries|
    && d.badEscapes == CountIf(d.entries, (f: Fault) => f.BadEscape?)
    && d.cutEscapes == CountIf(d.entries, (f: Fault) => f.CutEscape?)
    && d.cutGraphics == CountIf(d.entries, f => CutGraphic(f))
  }

  const NOTHING: Diagnostic := Diagnostic(0, 0, 0, 0, [])

  /** A diagnostic with one more entry: every replacement is counted, some faults once more by kind. */
  function Noted(d: Diagnostic, e: Entry): Diagnostic {
    Diagnostic(d.replacements + 1,
               d.badEscapes + (if e.fault.BadEscape? then 1 else 0),
               d.cutEscapes + (if e.fault.CutEscape? then 1 else 0),
               d.cutGraphics + (if CutGraphic(e.fault) then 1 else 0),
               d.entries + [e])
  }

  lemma NotedTallies(d: Diagnostic, e: Entry)
    requires Tallied(d)
    ensures Tallied(Noted(d, e))
  {
    assert Noted(d, e).entries[..|d.entries|] == d.entries;
  }

  /** What a replacing run has so far, and the rest of it. */
  ghost function After(text: string, entries: seq<Entry>, r: Replaced): Replaced {
    Replaced(text + r.text, r.state, entries + r.entries)
  }

  lemma AfterEmit(text: string, entries: seq<Entry>, more: string, r: Replaced)
    ensures After(text, entries, r.(text := more + r.text)) == After(text + more, entries, r)
    ensures After("", [], r) == r
  {
    assert text + (more + r.text) == (text + more) + r.text;
    assert "" + r.text == r.text && [] + r.entries == r.entries;
  }

  lemma AfterBad(text: string, entries: seq<Entry>, e: Entry, r: Replaced)
    ensures After(text, entries, Replaced([REPLACEMENT] + r.text, r.state, [e] + r.entries)) ==
            After(text + [REPLACEMENT], entries + [e], r)
    ensures After(text, entries, Replaced([REPLACEMENT], r.state, [e])) ==
            Replaced(text + [REPLACEMENT], r.state, entries + [e])
  {
    assert text + ([REPLACEMENT] + r.text) == (text + [REPLACEMENT]) + r.text;
    assert entries + ([e] + r.entries) == (entries + [e]) + r.entries;
  }

  /** How the handling of one byte ends: go on behind it, go on where the index stands, stop, or fail. */
  datatype Flow = Next | Again | Stop | Fail(error: Error)

  /** The variables of the loop. */
  datatype Work = Work(state: Invocation, out: string, index: nat, d: Diagnostic)

  /** What handling the unit `u` at `p.index` has to do. */
  ghost predicate Effect(bytes: Bytes, strict: bool, p: Work, u: Unit, q: Work, flow: Flow)
    requires p.index < |bytes|
  {
    match u
    case Emit(text, state, size) =>
      flow == Next && q.index + 1 == p.index + size && q == Work(state, p.out + text, q.index, p.d)
    case Bad(f, size) =>
      if strict then flow == Fail(ErrorOf(f))
      else
        && q.state == p.state && q.out == p.out + [REPLACEMENT] && q.d == Noted(p.d, EntryAt(bytes, p.index, f))
        && (if Stops(f) then flow == Stop
            else (flow == Next && q.index + 1 == p.index + size) || (flow == Again && q.index == p.index + size))
  }

  /** The decoding loop's variables, and one method for each arm of its match. */
  class Decoding {
    const glyphs: Glyphs
    const bytes: Bytes
    const strict: bool
    var state: Invocation
    var out: string
    var index: nat
    var replacements: nat
    var badEscapes: nat
    var cutEscapes: nat
    var cutGraphics: nat
    var entries: seq<Entry>

    ghost function Abs(): Work
      reads this
    {
      Work(state, out, index, Diagnostic(replacements, badEscapes, cutEscapes, cutGraphics, entries))
    }

    constructor (glyphs: Glyphs, bytes: Bytes, state: Invocation, strict: bool)
      ensures this.glyphs == glyphs && this.bytes == bytes && this.strict == strict
      ensures Abs() == Work(state, "", 0, NOTHING)
    {
      this.glyphs, this.bytes, this.strict, this.state := glyphs, bytes, strict, state;
      out, index, replacements, badEscapes, cutEscapes, cutGraphics, entries := "", 0, 0, 0, 0, 0, [];
    }

    method RecordEntry(f: Fault)
      requires index <= |bytes|
      modifies this`entries
      ensures entries == old(entries) + [EntryAt(bytes, index, f)]
    {
      entries := entries + [Entry(index, bytes[index..Min(index + 8, |bytes|)], f)];
    }

    /** SS2 and SS3. */
    method SingleShift(set_: GraphicSet) returns (flow: Flow)
      requires index < |bytes|
      modifies this
      ensures Effect(bytes, strict, old(Abs()), ShiftUnit(glyphs, old(state), set_, bytes[old(index)..]), Abs(), flow)
    {
      if state.middle && set_ != Alnum {
        if strict { return Fail(MiddleSizeGraphic); }
        replacements := replacements + 1;
        RecordEntry(MiddleShift);
        out := out + [REPLACEMENT];
        index := index + if TwoByte(set_) then 3 else 2;
        return Again;
      }
      if index + 1 >= |bytes| || (TwoByte(set_) && index + 2 >= |bytes|) {
        if strict { return Fail(TruncatedGraphic); }
        cutGraphics := cutGraphics + 1;
        replacements := replacements + 1;
        RecordEntry(CutShift);
        out := out + [REPLACEMENT];
        return Stop;
      }
      if TwoByte(set_) {
        out := out + glyphs.twoByte(set_, bytes[index + 1], bytes[index + 2]);
        index := index + 2;
      } else {
        out := out + OneByteGlyph(glyphs, set_, bytes[index + 1]);
        index := index + 1;
      }
      return Next;
    }

    /** Applies an escape sequence to the state. */
    method ApplyEscape() returns (r: Escape)
      requires index < |bytes|
      modifies this`state
      ensures var e := EscapeOf(old(state), bytes[index..]);
              (if e.Applied? then r.Applied? && r.size == e.size && state == e.state else r == e && state == old(state))
    {
      var rest := bytes[index..];
      if |rest| < 2 { return CutOff; }
      match rest[1] {
        case 0x6e => state := state.(gl := state.g2); return Applied(state, 2);
        case 0x6f => state := state.(gl := state.g3); return Applied(state, 2);
        case 0x7e => state := state.(gr := state.g1); return Applied(state, 2);
        case 0x7d => state := state.(gr := state.g2); return Applied(state, 2);
        case 0x7c => state := state.(gr := state.g3); return Applied(state, 2);
        case _ =>
      }
      if |rest| < 3 { return CutOff; }
      if rest[1] == 0x24 && Intermediate(rest[2]) && |rest| < 4 { return CutOff; }
      if Intermediate(rest[1]) {
        var one := DesignatedOne(rest[2]);
        if one.None? { return Strange; }
        DesignateSet(rest[1], one.value);
        return Applied(state, 3);
      }
      if rest[1] == 0x24 && DesignatedTwo(rest[2]).Some? {
        state := state.(g0 := DesignatedTwo(rest[2]).value, gl := DesignatedTwo(rest[2]).value);
        return Applied(state, 3);
      }
      if rest[1] == 0x24 && Intermediate(rest[2]) && DesignatedTwo(rest[3]).Some? {
        DesignateSet(rest[2], DesignatedTwo(rest[3]).value);
        return Applied(state, 4);
      }
      return Strange;
    }

    method DesignateSet(which: byte, set_: GraphicSet)
      requires Intermediate(which)
      modifies this`state
      ensures state == Designate(old(state), which, set_)
    {
      match which {
        case 0x28 => state := state.(g0 := set_, gl := set_);
        case 0x29 => state := state.(g1 := set_);
        case 0x2a => state := state.(g2 := set_);
        case _ => state := state.(g3 := set_);
      }
    }

    method EscapeArm() returns (flow: Flow)
      requires index < |bytes| && bytes[index] == 0x1b
      modifies this
      ensures Effect(bytes, strict, old(Abs()), UnitOf(glyphs, old(state), bytes[old(index)..]), Abs(), flow)
    {
      assert bytes[index..][0] == 0x1b;
      var r := ApplyEscape();
      hide EscapeOf;
      match r {
        case Applied(_, size) =>
          index := index + size - 1;
          assert out + "" == out;
          return Next;
        case CutOff =>
          if strict { return Fail(TruncatedEscape); }
          cutEscapes := cutEscapes + 1;
          replacements := replacements + 1;
          RecordEntry(CutEscape);
          out := out + [REPLACEMENT];
          return Stop;
        case Strange =>
          if strict { return Fail(UnsupportedEscape); }
          badEscapes := badEscapes + 1;
          replacements := replacements + 1;
          RecordEntry(BadEscape);
          out := out + [REPLACEMENT];
          index := index + UnknownLength(bytes[index..]) - 1;
          return Next;
      }
    }

    /** Control sequences and external character blocks. */
    method ControlArm() returns (flow: Flow)
      requires index < |bytes| && bytes[index] == 0x9b
      modifies this
      ensures Effect(bytes, strict, old(Abs()), UnitOf(glyphs, old(state), bytes[old(index)..]), Abs(), flow)
    {
      assert bytes[index..][0] == 0x9b;
      var consumed := ConsumeControl(bytes[index..]);
      hide ControlLength;
      if consumed.None? {
        if strict { return Fail(MalformedCsi); }
        replacements := replacements + 1;
        RecordEntry(BadCsi);
        out := out + [REPLACEMENT];
        return Stop;
      }
      index := index + consumed.value - 1;
      assert out + "" == out;
      return Next;
    }

    /** A byte of the left half. */
    method LeftArm() returns (flow: Flow)
      requires index < |bytes| && IsGl(bytes[index])
      modifies this
      ensures Effect(bytes, strict, old(Abs()), GraphicUnit(glyphs, old(state), old(state).gl, false, bytes[old(index)..]), Abs(), flow)
    {
      var b := bytes[index];
      assert bytes[index..][0] == b && b % 128 == b;
      if state.middle && state.gl != Alnum {
        if strict { return Fail(MiddleSizeGraphic); }
        replacements := replacements + 1;
        RecordEntry(MiddleGl);
        out := out + [REPLACEMENT];
        if TwoByte(state.gl) && index + 1 < |bytes| {
          index := index + 1;
        }
        return Next;
      }
      match state.gl {
        case Alnum => out := out + [b as char];
        case Hiragana => out := out + glyphs.hiragana(b);
        case Katakana => out := out + glyphs.katakana(b);
        case _ =>
          if index + 1 >= |bytes| {
            if strict { return Fail(TruncatedGraphic); }
            cutGraphics := cutGraphics + 1;
            replacements := replacements + 1;
            RecordEntry(CutGl);
            out := out + [REPLACEMENT];
            return Stop;
          }
          var next := bytes[index + 1];
          if !IsGl(next) {
            if strict { return Fail(UnsupportedControl); }
            replacements := replacements + 1;
            RecordEntry(BadSecondGl);
            out := out + [REPLACEMENT];
          } else {
            assert next % 128 == next;
            out := out + glyphs.twoByte(state.gl, b, next);
            index := index + 1;
          }
      }
      return Next;
    }

    /** A byte of the right half. */
    method RightArm() returns (flow: Flow)
      requires index < |bytes| && IsGr(bytes[index])
      modifies this
      ensures Effect(bytes, strict, old(Abs()), GraphicUnit(glyphs, old(state), old(state).gr, true, bytes[old(index)..]), Abs(), flow)
    {
      assert bytes[index..][0] == bytes[index];
      if state.middle && state.gr != Alnum {
        if strict { return Fail(MiddleSizeGraphic); }
        replacements := replacements + 1;
        RecordEntry(MiddleGr);
        out := out + [REPLACEMENT];
        if TwoByte(state.gr) && index + 1 < |bytes| {
          index := index + 1;
        }
        return Next;
      }
      var normalized := bytes[index] % 128;
      match state.gr {
        case Alnum => out := out + [normalized as char];
        case Hiragana => out := out + glyphs.hiragana(normalized);
        case Katakana => out := out + glyphs.katakana(normalized);
        case _ =>
          if index + 1 >= |bytes| {
            if strict { return Fail(TruncatedGraphic); }
            cutGraphics := cutGraphics + 1;
            replacements := replacements + 1;
            RecordEntry(CutGr);
            out := out + [REPLACEMENT];
            return Stop;
          }
          var next := bytes[index + 1];
          if !IsGr(next) && !IsGl(next) {
            if strict { return Fail(UnsupportedControl); }
            replacements := replacements + 1;
            RecordEntry(BadSecondGr);
            out := out + [REPLACEMENT];
          } else {
            out := out + glyphs.twoByte(state.gr, normalized, next % 128);
            index := index + 1;
          }
      }
      return Next;
    }

    /** A byte without an arm of its own. */
    method OtherArm() returns (flow: Flow)
      requires index < |bytes| && UnitOf(glyphs, state, bytes[index..]) == Bad(BadByte, 1)
      modifies this
      ensures Effect(bytes, strict, old(Abs()), UnitOf(glyphs, old(state), bytes[old(index)..]), Abs(), flow)
    {
      hide UnitOf;
      if strict { return Fail(UnsupportedControl); }
      replacements := replacements + 1;
      RecordEntry(BadByte);
      out := out + [REPLACEMENT];
      return Next;
    }

    /** The match on one byte. */
    method HandleByte() returns (flow: Flow)
      requires index < |bytes|
      modifies this
      ensures Effect(bytes, strict, old(Abs()), UnitOf(glyphs, old(state), bytes[old(index)..]), Abs(), flow)
    {
      hide GraphicUnit, ShiftUnit, EscapeOf, ControlLength;
      var b := bytes[index];
      assert bytes[index..][0] == b && out + "" == out;
      if b == 0x00 {
        return Next;
      } else if b == 0x0d {
        out := out + "\n";
        return Next;
      } else if b == 0x0e {
        state := state.(gl := state.g1);
        return Next;
      } else if b == 0x0f {
        state := state.(gl := state.g0);
        return Next;
      } else if b == 0x19 {
        flow := SingleShift(state.g2);
      } else if b == 0x1d {
        flow := SingleShift(state.g3);
      } else if b == 0x1b {
        flow := EscapeArm();
      } else if b == 0x20 {
        out := out + " ";
        return Next;
      } else if b == 0x89 {
        state := state.(middle := true);
        return Next;
      } else if b == 0x8a {
        state := state.(middle := false);
        return Next;
      } else if b == 0x9b {
        flow := ControlArm();
      } else if IsGl(b) {
        flow := LeftArm();
      } else if IsGr(b) {
        flow := RightArm();
      } else {
        flow := OtherArm();
      }
    }
  }

  /** Where the loop stands, for either policy. */
  ghost predicate SoFar(g: Glyphs, bytes: Bytes, state: Invocation, strict: bool, w: Work, open: bool) {
    && Tallied(w.d)
    && (strict ==> open && w.d == NOTHING && w.index <= |bytes|
                   && Strict(g, state, bytes) == Prepend(w.out, Strict(g, w.state, bytes[w.index..])))
    && (!strict && open ==> Replacing(g, state, bytes, 0) == After(w.out, w.d.entries, Replacing(g, w.state, bytes, w.index)))
    && (!strict && !open ==> Replacing(g, state, bytes, 0) == Replaced(w.out, w.state, w.d.entries))
  }

  lemma SoFarStarts(g: Glyphs, bytes: Bytes, state: Invocation, strict: bool)
    ensures SoFar(g, bytes, state, strict, Work(state, "", 0, NOTHING), true)
  {
    EmptyTally();
    hide Strict, Replacing;
    assert bytes[0..] == bytes;
    PrependTwice("", "", Strict(g, state, bytes));
    AfterEmit("", [], "", Replacing(g, state, bytes, 0));
  }

  lemma SoFarEmit(g: Glyphs, bytes: Bytes, state: Invocation, strict: bool, p: Work, u: Unit)
    requires SoFar(g, bytes, state, strict, p, true) && p.index < |bytes|
    requires u == UnitOf(g, p.state, bytes[p.index..]) && u.Emit?
    ensures SoFar(g, bytes, state, strict, Work(u.state, p.out + u.text, p.index + u.size, p.d), true)
  {
    hide UnitOf, Tallied;
    assert bytes[p.index..][u.size..] == bytes[p.index + u.size..];
    PrependTwice(p.out, u.text, Strict(g, u.state, bytes[p.index + u.size..]));
    AfterEmit(p.out, p.d.entries, u.text, Replacing(g, u.state, bytes, p.index + u.size));
  }

  lemma NotedEntries(d: Diagnostic, e: Entry)
    ensures Noted(d, e).entries == d.entries + [e]
  {
  }

  lemma ReplacingBad(g: Glyphs, s: Invocation, all: Bytes, at: nat, u: Unit)
    requires at < |all| && u == UnitOf(g, s, all[at..]) && u.Bad?
    ensures var e := EntryAt(all, at, u.fault);
            Replacing(g, s, all, at) ==
            if Stops(u.fault) then Replaced([REPLACEMENT], s, [e])
            else var r := Replacing(g, s, all, at + u.size);
                 Replaced([REPLACEMENT] + r.text, r.state, [e] + r.entries)
  {
    hide UnitOf, EntryAt, Stops;
  }

  lemma SoFarBad(g: Glyphs, bytes: Bytes, state: Invocation, p: Work, u: Unit, at: nat)
    requires SoFar(g, bytes, state, false, p, true) && p.index < |bytes|
    requires u == UnitOf(g, p.state, bytes[p.index..]) && u.Bad? && (Stops(u.fault) || at == p.index + u.size)
    ensures var e := EntryAt(bytes, p.index, u.fault);
            SoFar(g, bytes, state, false, Work(p.state, p.out + [REPLACEMENT], at, Noted(p.d, e)), !Stops(u.fault))
  {
    hide UnitOf, Tallied, EntryAt, Stops, Strict, Noted, Replacing, After;
    var e := EntryAt(bytes, p.index, u.fault);
    NotedTallies(p.d, e);
    NotedEntries(p.d, e);
    ReplacingBad(g, p.state, bytes, p.index, u);
    AfterBad(p.out, p.d.entries, e, Replacing(g, p.state, bytes, p.index + u.size));
    AfterBad(p.out, p.d.entries, e, Replaced("", p.state, []));
  }

  /** One byte handled keeps the account, wherever in the match it was handled. */
  lemma SoFarStep(g: Glyphs, bytes: Bytes, state: Invocation, strict: bool, p: Work, q: Work, flow: Flow)
    requires SoFar(g, bytes, state, strict, p, true) && p.index < |bytes|
    requires Effect(bytes, strict, p, UnitOf(g, p.state, bytes[p.index..]), q, flow)
    ensures flow.Fail? ==> strict && Strict(g, state, bytes) == Failed(flow.error)
    ensures !flow.Fail? ==>
              && SoFar(g, bytes, state, strict, if flow.Next? then q.(index := q.index + 1) else q, !flow.Stop?)
              && (!flow.Stop? ==> p.index < q.index + if flow.Next? then 1 else 0)
  {
    hide UnitOf, SoFar, Strict, Replacing, Noted, EntryAt;
    var u := UnitOf(g, p.state, bytes[p.index..]);
    if u.Emit? {
      SoFarEmit(g, bytes, state, strict, p, u);
    } else if strict {
      SoFarFails(g, bytes, state, p, u);
    } else {
      SoFarBad(g, bytes, state, p, u, if flow.Next? then q.index + 1 else q.index);
    }
  }

  lemma SoFarFails(g: Glyphs, bytes: Bytes, state: Invocation, p: Work, u: Unit)
    requires SoFar(g, bytes, state, true, p, true) && p.index < |bytes|
    requires u == UnitOf(g, p.state, bytes[p.index..]) && u.Bad?
    ensures Strict(g, state, bytes) == Failed(ErrorOf(u.fault))
  {
    hide UnitOf, Replacing, Tallied;
    assert Strict(g, p.state, bytes[p.index..]) == Failed(ErrorOf(u.fault));
  }

  lemma SoFarEnds(g: Glyphs, bytes: Bytes, state: Invocation, strict: bool, w: Work, open: bool)
    requires SoFar(g, bytes, state, strict, w, open) && (!open || w.index >= |bytes|)
    ensures strict ==> Strict(g, state, bytes) == Done(w.out, w.state)
    ensures !strict ==> Replacing(g, state, bytes, 0) == Replaced(w.out, w.state, w.d.entries)
  {
    assert w.out + "" == w.out && w.d.entries + [] == w.d.entries;
    assert strict ==> bytes[w.index..] == [];
  }

  /** Both policies in one loop: a fault ends a strict run, a replacing run notes it. */
  method DecodeWithPolicy(g: Glyphs, bytes: Bytes, state: Invocation, strict: bool)
    returns (r: Outcome, next: Invocation)
    ensures strict ==>
              match Strict(g, state, bytes)
              case Done(text, t) => r == Read(Trim(text), NOTHING) && next == t
              case Failed(e) => r == Err(e)
    ensures !strict ==>
              && r.Read? && r.text == Trim(Replacing(g, state, bytes, 0).text)
              && next == Replacing(g, state, bytes, 0).state
              && r.diagnostic.entries == Replacing(g, state, bytes, 0).entries && Tallied(r.diagnostic)
  {
    hide UnitOf, Trim, Effect, Strict, Replacing;
    var w := new Decoding(g, bytes, state, strict);
    SoFarStarts(g, bytes, state, strict);
    var open := true;
    while open && w.index < |bytes|
      invariant fresh(w) && w.glyphs == g && w.bytes == bytes && w.strict == strict
      invariant SoFar(g, bytes, state, strict, w.Abs(), open)
      decreases open, |bytes| - w.index
    {
      ghost var before := w.Abs();
      var flow := w.HandleByte();
      SoFarStep(g, bytes, state, strict, before, w.Abs(), flow);
      match flow {
        case Fail(error) => return Err(error), w.state;
        case Next => w.index := w.index + 1;
        case Again =>
        case Stop => open := false;
      }
    }
    SoFarEnds(g, bytes, state, strict, w.Abs(), open);
    var diagnostic := Diagnostic(w.replacements, w.badEscapes, w.cutEscapes, w.cutGraphics, w.entries);
    return Read(Trim(w.out), diagnostic), w.state;
  }

  lemma EmptyTally()
    ensures Tallied(NOTHING)
  {
  }

  class AribStringDecoder {
    const glyphs: Glyphs
    var state: Invocation

    constructor (glyphs: Glyphs)
      ensures this.glyphs == glyphs && state == INITIAL
    {
      this.glyphs, state := glyphs, INITIAL;
    }

    /** A text that cannot be read leaves the state as it was. */
    method Decode(bytes: Bytes) returns (r: Decoded)
      modifies this
      ensures r == DecodedOf(Strict(glyphs, old(state), bytes))
      ensures state == StateAfter(old(state), Strict(glyphs, old(state), bytes))
    {
      var outcome, next := DecodeWithPolicy(glyphs, bytes, state, true);
      match outcome {
        case Read(text, _) =>
          state := next;
          return Text(text);
        case Err(error) =>
          return Undecodable(error);
      }
    }

    method LossyDiagnostic(bytes: Bytes) returns (d: Diagnostic)
      ensures Tallied(d) && d.entries == Replacing(glyphs, state, bytes, 0).entries
    {
      var outcome, _ := DecodeWithPolicy(glyphs, bytes, state, false);
      return outcome.diagnostic;
    }
  }
}
