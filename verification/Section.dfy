/** Sections that carry entitlement messages, and how the plugin takes them apart. */
module Section {
  import opened Basics
  import opened BitStrings
  import Crc

  datatype EmmMessage = EmmMessage(payload: Bytes, individual: bool)

  datatype Outcome<+T> = Accepted(value: T) | Refused(code: Result)

  // ---------------------------------------------------------------- the frame

  function LengthField(section: Bytes): nat
    requires |section| >= 3
  {
    Be16(section[1] % 16, section[2])
  }

  /** The fixed parts of the header. */
  predicate Framed(section: Bytes) {
    && 12 <= |section| <= 4096
    && LengthField(section) + 3 == |section|
    && section[1] / 128 == 1 && section[1] / 16 % 4 == 3
    && section[5] / 64 == 3
    && section[6] <= section[7]
  }

  predicate Current(section: Bytes)
    requires Framed(section)
  {
    section[5] % 2 == 1
  }

  function Body(section: Bytes): (body: Bytes)
    requires Framed(section)
    ensures |body| == |section| - 12
  {
    section[8..|section| - 4]
  }

  function SectionBody(section: Bytes): Outcome<Bytes> {
    if !Framed(section) || !Crc.Sound(section) then Refused(BadValue)
    else if !Current(section) then Refused(Unsupported)
    else Accepted(Body(section))
  }

  method CheckSection(section: Bytes) returns (r: Outcome<Bytes>)
    ensures r == SectionBody(section)
  {
    if |section| < 12 || |section| > 4096 { return Refused(BadValue); }
    var length := LengthField(section);
    if length + 3 != |section| || !(section[1] / 128 == 1 && section[1] / 16 % 4 == 3)
       || section[5] / 64 != 3 || section[6] > section[7] { return Refused(BadValue); }
    var crc := Crc.SectionCrc(section);
    if crc != Zeros(Crc.WIDTH) { return Refused(BadValue); }
    if section[5] % 2 == 0 { return Refused(Unsupported); }
    return Accepted(section[8..|section| - 4]);
  }

  /** A section is taken exactly when its frame fits and its last four bytes are the checksum. */
  lemma AcceptedIffSealed(section: Bytes)
    ensures SectionBody(section).Accepted? <==>
            && Framed(section) && Current(section)
            && section[|section| - 4..] == Crc.Trailer(Crc.Crc(section[..|section| - 4]))
  {
    if Framed(section) {
      var m, t := section[..|section| - 4], section[|section| - 4..];
      assert section == m + t;
      Crc.SoundIffTrailer(m, t);
    }
  }

  /** Damage within 32 bits of a taken section is never taken for another section of its length. */
  lemma DamageIsRefused(section: Bytes, damaged: Bytes, i: nat, j: nat)
    requires SectionBody(section).Accepted?
    requires |damaged| == |section| && damaged != section && i <= j <= 8 * |section| && j - i <= 32
    requires OfBytes(section)[..i] == OfBytes(damaged)[..i]
    requires OfBytes(section)[j..] == OfBytes(damaged)[j..]
    ensures SectionBody(damaged) == Refused(BadValue)
  {
    if Crc.Sound(damaged) {
      Crc.BurstIsDetected(section, damaged, i, j);
    }
  }

  // ---------------------------------------------------------------- control messages

  function EcmOf(section: Bytes): Outcome<Bytes> {
    var body := SectionBody(section);
    if body.Refused? then body
    else if section[0] != 0x82 then Refused(Unsupported)
    else if |body.value| < 30 || |body.value| > 256 then Refused(BadValue)
    else body
  }

  method EcmPayload(section: Bytes) returns (r: Outcome<Bytes>)
    ensures r == EcmOf(section)
    ensures r.Accepted? ==> 30 <= |r.value| <= 256 && r.value == section[8..|section| - 4]
  {
    r := CheckSection(section);
    if r.Refused? { return; }
    if section[0] != 0x82 { return Refused(Unsupported); }
    if |r.value| < 30 || |r.value| > 256 { return Refused(BadValue); }
  }

  // ---------------------------------------------------------------- management messages

  function HeaderSize(individual: bool): nat {
    if individual then 8 else 7
  }

  function MinSize(individual: bool): nat {
    if individual then 25 else 17
  }

  /** The size a message announces in its header. */
  function Announced(data: Bytes, individual: bool): nat
    requires |data| >= HeaderSize(individual)
  {
    HeaderSize(individual) + if individual then Be16(data[6], data[7]) else data[6]
  }

  /** What the backend asks of every message again. */
  predicate Declared(m: EmmMessage) {
    MinSize(m.individual) <= |m.payload| <= 256 && Announced(m.payload, m.individual) == |m.payload|
  }

  function Join(ms: seq<EmmMessage>): Bytes {
    if ms == [] then [] else ms[0].payload + Join(ms[1..])
  }

  ghost predicate AllDeclared(ms: seq<EmmMessage>, individual: bool) {
    forall i :: 0 <= i < |ms| ==> ms[i].individual == individual && Declared(ms[i])
  }

  /** The first message of `rest` is complete and in bounds. */
  predicate Fits(rest: Bytes, individual: bool) {
    && |rest| >= HeaderSize(individual)
    && MinSize(individual) <= Announced(rest, individual) <= 256
    && Announced(rest, individual) <= |rest|
  }

  function Split(rest: Bytes, individual: bool): Option<seq<EmmMessage>>
    decreases |rest|
  {
    if rest == [] then Some([])
    else if !Fits(rest, individual) then None
    else
      var size := Announced(rest, individual);
      Prepend([EmmMessage(rest[..size], individual)], Split(rest[size..], individual))
  }

  /** By table and, for individual messages, extension zero: the others are for every receiver. */
  function EmmFrom(table: byte, extension: uint16, body: Bytes): Outcome<seq<EmmMessage>> {
    if table != 0x84 && table != 0x85 then Refused(Unsupported)
    else if table == 0x85 && extension != 0 then Refused(Unsupported)
    else if body == [] then Refused(BadValue)
    else
      var ms := Split(body, table == 0x85);
      if ms.None? then Refused(BadValue) else Accepted(ms.value)
  }

  function EmmOf(section: Bytes): Outcome<seq<EmmMessage>> {
    var body := SectionBody(section);
    if body.Refused? then Refused(body.code)
    else EmmFrom(section[0], Be16(section[3], section[4]), body.value)
  }

  /** The announced size only depends on the header. */
  lemma AnnouncedAtFront(m: EmmMessage, others: Bytes)
    requires Declared(m)
    ensures Fits(m.payload + others, m.individual)
    ensures Announced(m.payload + others, m.individual) == |m.payload|
  {
  }

  /** There is one way, and only one, to cut a body into messages. */
  lemma {:induction false} SplitIff(rest: Bytes, individual: bool, ms: seq<EmmMessage>)
    ensures Split(rest, individual) == Some(ms) <==> Join(ms) == rest && AllDeclared(ms, individual)
    decreases |rest|, |ms|
  {
    if Split(rest, individual) == Some(ms) {
      SplitJoins(rest, individual);
    }
    if Join(ms) == rest && AllDeclared(ms, individual) {
      JoinSplits(ms, individual);
    }
  }

  lemma {:induction false} SplitJoins(rest: Bytes, individual: bool)
    requires Split(rest, individual).Some?
    ensures Join(Split(rest, individual).value) == rest && AllDeclared(Split(rest, individual).value, individual)
    decreases |rest|
  {
    if rest != [] {
      var size := Announced(rest, individual);
      var first, others := EmmMessage(rest[..size], individual), Split(rest[size..], individual).value;
      SplitJoins(rest[size..], individual);
      var ms := [first] + others;
      assert ms[1..] == others && rest == rest[..size] + rest[size..];
      assert Declared(first);
    }
  }

  lemma {:induction false} JoinSplits(ms: seq<EmmMessage>, individual: bool)
    requires AllDeclared(ms, individual)
    ensures Split(Join(ms), individual) == Some(ms)
    decreases |ms|
  {
    if ms != [] {
      var rest, others := Join(ms), Join(ms[1..]);
      assert ms[0].individual == individual && Declared(ms[0]);
      AnnouncedAtFront(ms[0], others);
      assert rest[..|ms[0].payload|] == ms[0].payload && rest[|ms[0].payload|..] == others;
      JoinSplits(ms[1..], individual);
      assert ms == [ms[0]] + ms[1..];
    }
  }

  lemma EmmFromIff(table: byte, extension: uint16, body: Bytes, ms: seq<EmmMessage>)
    ensures EmmFrom(table, extension, body) == Accepted(ms) <==>
            && (table == 0x84 || (table == 0x85 && extension == 0))
            && ms != [] && Join(ms) == body && AllDeclared(ms, table == 0x85)
  {
    SplitIff(body, table == 0x85, ms);
    if ms != [] && AllDeclared(ms, table == 0x85) {
      assert Declared(ms[0]);
    }
  }

  /** Exactly which sections yield which messages. */
  lemma EmmIff(section: Bytes, ms: seq<EmmMessage>)
    ensures EmmOf(section) == Accepted(ms) <==>
            && SectionBody(section).Accepted?
            && (section[0] == 0x84 || (section[0] == 0x85 && Be16(section[3], section[4]) == 0))
            && ms != [] && Join(ms) == SectionBody(section).value && AllDeclared(ms, section[0] == 0x85)
  {
    var body := SectionBody(section);
    if body.Accepted? {
      EmmFromIff(section[0], Be16(section[3], section[4]), body.value, ms);
    }
  }

  function Prepend(done: seq<EmmMessage>, rest: Option<seq<EmmMessage>>): Option<seq<EmmMessage>> {
    if rest.None? then None else Some(done + rest.value)
  }

  lemma PrependOne(done: seq<EmmMessage>, m: EmmMessage, others: Option<seq<EmmMessage>>)
    ensures Prepend(done, Prepend([m], others)) == Prepend(done + [m], others)
    ensures Prepend([], others) == others
  {
    if others.Some? {
      assert done + ([m] + others.value) == (done + [m]) + others.value;
      assert [] + others.value == others.value;
    }
  }

  /** The cutting loop: the views lie one after the other in the body. */
  lemma SplitRefuses(data: Bytes, individual: bool)
    requires data != []
    ensures !Fits(data, individual) ==> Split(data, individual).None?
  {
    hide Fits;
  }

  lemma SplitStep(data: Bytes, individual: bool, parsed: seq<EmmMessage>)
    requires data != [] && Fits(data, individual)
    ensures var size := Announced(data, individual);
            Prepend(parsed, Split(data, individual)) ==
            Prepend(parsed + [EmmMessage(data[..size], individual)], Split(data[size..], individual))
  {
    var size := Announced(data, individual);
    PrependOne(parsed, EmmMessage(data[..size], individual), Split(data[size..], individual));
    hide Fits, Announced, Prepend;
  }

  lemma NothingToSplit(individual: bool)
    ensures Split([], individual) == Some([])
  {
  }

  method CutBody(body: Bytes, individual: bool) returns (r: Outcome<seq<EmmMessage>>)
    ensures r == match Split(body, individual) case None => Refused(BadValue) case Some(ms) => Accepted(ms)
  {
    hide Split;
    var parsed, offset := [], 0;
    assert body[0..] == body;
    PrependOne([], EmmMessage([], individual), Split(body, individual));
    while offset < |body|
      invariant 0 <= offset <= |body|
      invariant Split(body, individual) == Prepend(parsed, Split(body[offset..], individual))
      decreases |body| - offset
    {
      var data := body[offset..];
      SplitRefuses(data, individual);
      if |data| < HeaderSize(individual) { return Refused(BadValue); }
      var size := HeaderSize(individual) + if individual then Be16(data[6], data[7]) else data[6];
      if size < MinSize(individual) || size > 256 || size > |data| { return Refused(BadValue); }
      var message := EmmMessage(data[..size], individual);
      assert data[size..] == body[offset + size..];
      SplitStep(data, individual, parsed);
      parsed := parsed + [message];
      offset := offset + size;
    }
    assert body[offset..] == [];
    NothingToSplit(individual);
    assert parsed + [] == parsed;
    return Accepted(parsed);
  }

  method EmmMessages(section: Bytes) returns (r: Outcome<seq<EmmMessage>>)
    ensures r == EmmOf(section)
  {
    var body := CheckSection(section);
    if body.Refused? { return Refused(body.code); }
    var individual := section[0] == 0x85;
    if section[0] != 0x84 && !individual { return Refused(Unsupported); }
    if individual && Be16(section[3], section[4]) != 0 { return Refused(Unsupported); }
    if |body.value| == 0 { return Refused(BadValue); }
    r := CutBody(body.value, individual);
  }
}
