/** The bit reader, and the loops that read an element, move its bits and scan a stream. */
module AudioReader {
  import opened Basics
  import opened BitStrings
  import opened AudioConfig
  import opened AdtsProbe

  lemma ReadGrows(bits: Bits, start: nat, i: nat)
    requires start + i < |bits|
    ensures ValueOf(bits[start..start + i + 1]) == 2 * ValueOf(bits[start..start + i]) + (if bits[start + i] then 1 else 0)
  {
    assert bits[start..start + i + 1] == bits[start..start + i] + [bits[start + i]];
    ValueSnoc(bits[start..start + i], bits[start + i]);
  }

  lemma BitIsShifted(bytes: Bytes, at: nat)
    requires at < 8 * |bytes|
    ensures Power(7 - at % 8) > 0
    ensures OfBytes(bytes)[at] <==> bytes[at / 8] / Power(7 - at % 8) % 2 == 1
  {
    BitOfBytes(bytes, at);
    BitByShift(bytes[at / 8], 8, at % 8);
  }

  class AudioConfigBits {
    const bytes: Bytes
    var offset: nat

    ghost predicate Valid()
      reads this
    {
      offset <= 8 * |bytes|
    }

    constructor (bytes: Bytes, offset: nat)
      requires offset <= 8 * |bytes|
      ensures Valid() && this.bytes == bytes && this.offset == offset
    {
      this.bytes, this.offset := bytes, offset;
    }

    method Read(count: nat) returns (r: Option<nat>)
      requires Valid()
      modifies this
      ensures Valid() && r == ReadAt(OfBytes(bytes), old(offset), count)
      ensures r.Some? ==> offset == old(offset) + count
    {
      hide Power, OfBytes;
      var value, i := 0, 0;
      assert OfBytes(bytes)[offset..offset + 0] == [];
      while i < count
        invariant 0 <= i <= count && offset == old(offset) + i && Valid()
        invariant value == ValueOf(OfBytes(bytes)[old(offset)..offset])
      {
        if offset / 8 >= |bytes| { return None; }
        BitIsShifted(bytes, offset);
        ReadGrows(OfBytes(bytes), old(offset), i);
        value := 2 * value + bytes[offset / 8] / Power(7 - offset % 8) % 2;
        offset, i := offset + 1, i + 1;
      }
      return Some(value);
    }
  }

  // ---------------------------------------------------------------- reading an element

  lemma ReadIsValue(bits: Bits, start: nat, i: nat, j: nat)
    requires start <= |bits| && i <= j
    ensures ReadAt(bits, start + i, j - i) ==
            if start + j <= |bits| then Some(Value(bits[start..], i, j)) else None
  {
    if start + j <= |bits| {
      assert bits[start..][i..j] == bits[start + i..start + j];
    }
  }

  /** The next `n` bits, which stand `i` bits after `start`. */
  method ReadField(r: AudioConfigBits, ghost start: nat, ghost i: nat, n: nat) returns (v: Option<nat>)
    requires r.Valid() && r.offset == start + i
    modifies r
    ensures r.Valid() && v == if start + i + n <= 8 * |r.bytes| then Some(Value(OfBytes(r.bytes)[start..], i, i + n)) else None
    ensures v.Some? ==> r.offset == start + i + n
  {
    hide OfBytes;
    ReadIsValue(OfBytes(r.bytes), start, i, i + n);
    v := r.Read(n);
  }

  lemma OneBit(b: Bits, i: nat)
    requires i < |b|
    ensures Value(b, i, i + 1) == if b[i] then 1 else 0
  {
    var one := [b[i]];
    assert b[i..i + 1] == one && one[..0] == [];
    assert ValueOf(one) == 2 * ValueOf([]) + (if b[i] then 1 else 0);
  }

  lemma NoSpeakers(b: Bits, w: Walk)
    ensures Speakers(b, w, 0) == Some(w)
  {
  }

  method ReadSpeakers(r: AudioConfigBits, ghost start: nat, w: Walk, count: nat) returns (end: Option<Walk>)
    requires r.Valid() && r.offset == start + w.at
    modifies r
    ensures r.Valid() && end == Speakers(OfBytes(r.bytes)[start..], w, count)
    ensures end.Some? ==> r.offset == start + end.value.at
  {
    ghost var b := OfBytes(r.bytes)[start..];
    hide OfBytes, Value, Speakers;
    var v, left := w, count;
    while left > 0
      invariant 0 <= left <= count && r.Valid() && r.offset == start + v.at
      invariant Speakers(b, w, count) == Speakers(b, v, left)
    {
      SpeakersOne(b, v, left);
      var pair := ReadField(r, start, v.at, 1);
      if pair.None? { return None; }
      OneBit(b, v.at);
      var tag := ReadField(r, start, v.at + 1, 4);
      if tag.None? || (pair.value, tag.value) in v.tags { return None; }
      var more := if pair.value == 1 then 2 else 1;
      v := Walk(v.at + 5, v.tags + {(pair.value, tag.value)}, v.channels + more);
      left := left - 1;
    }
    NoSpeakers(b, v);
    return Some(v);
  }

  method ReadLfes(r: AudioConfigBits, ghost start: nat, w: Walk, count: nat) returns (end: Option<Walk>)
    requires r.Valid() && r.offset == start + w.at
    modifies r
    ensures r.Valid() && end == Lfes(OfBytes(r.bytes)[start..], w, count)
    ensures end.Some? ==> r.offset == start + end.value.at
  {
    ghost var b := OfBytes(r.bytes)[start..];
    hide OfBytes, Value;
    var v, left := w, count;
    while left > 0
      invariant 0 <= left <= count && r.Valid() && r.offset == start + v.at
      invariant Lfes(b, w, count) == Lfes(b, v, left)
    {
      var tag := ReadField(r, start, v.at, 4);
      if tag.None? || (3, tag.value) in v.tags { return None; }
      v := Walk(v.at + 4, v.tags + {(3, tag.value)}, v.channels + 1);
      left := left - 1;
    }
    return Some(v);
  }

  method SkipAssociated(r: AudioConfigBits, count: nat) returns (ok: bool)
    requires r.Valid()
    modifies r
    ensures r.Valid() && ok == (old(r.offset) + 4 * count <= 8 * |r.bytes|)
    ensures ok ==> r.offset == old(r.offset) + 4 * count
  {
    hide OfBytes;
    var left := count;
    while left > 0
      invariant 0 <= left <= count && r.Valid() && r.offset == old(r.offset) + 4 * (count - left)
    {
      var tag := r.Read(4);
      if tag.None? { return false; }
      left := left - 1;
    }
    return true;
  }

  /** The counts that the head of an element announces. */
  datatype Head = Head(objectType: nat, frequency: nat, speakers: nat, lfes: nat, associated: nat)

  function HeadOf(b: Bits): Option<Head> {
    if !HeadOk(b) || AudioConfig.Body(b) > |b| then None
    else Some(Head(Value(b, 4, 6) + 1, Value(b, 6, 10), Value(b, 10, 14) + Value(b, 14, 18) + Value(b, 18, 22),
                   Value(b, 22, 24), Value(b, 24, 27)))
  }

  method ReadHead(r: AudioConfigBits) returns (h: Option<Head>)
    requires r.Valid()
    modifies r
    ensures r.Valid() && h == HeadOf(OfBytes(r.bytes)[old(r.offset)..])
    ensures h.Some? ==> r.offset == old(r.offset) + AudioConfig.Body(OfBytes(r.bytes)[old(r.offset)..])
  {
    ghost var start := r.offset;
    hide OfBytes, Value;
    var tag := ReadField(r, start, 0, 4);
    if tag.None? { return None; }
    var profile := ReadField(r, start, 4, 2);
    if profile.None? { return None; }
    var frequency := ReadField(r, start, 6, 4);
    if frequency.None? || AudioFrequency(frequency.value).None? { return None; }
    var front := ReadField(r, start, 10, 4);
    if front.None? { return None; }
    var side := ReadField(r, start, 14, 4);
    if side.None? { return None; }
    var back := ReadField(r, start, 18, 4);
    if back.None? { return None; }
    var lfe := ReadField(r, start, 22, 2);
    if lfe.None? { return None; }
    var associated := ReadField(r, start, 24, 3);
    if associated.None? { return None; }
    var ok := ReadMixdown(r, start);
    if !ok { return None; }
    return Some(Head(profile.value + 1, frequency.value, front.value + side.value + back.value, lfe.value,
                     associated.value));
  }

  /** No coupling elements and no mixdown elements; a matrix mixdown index is passed over. */
  method ReadMixdown(r: AudioConfigBits, ghost start: nat) returns (ok: bool)
    requires r.Valid() && r.offset == start + 27
    modifies r
    ensures r.Valid()
    ensures var b := OfBytes(r.bytes)[start..];
            && ok == (|b| >= HEAD && Value(b, 27, 31) == 0 && !b[31] && !b[32] && (b[33] ==> |b| >= HEAD + 3))
            && (ok ==> r.offset == start + if b[33] then HEAD + 3 else HEAD)
  {
    ghost var b := OfBytes(r.bytes)[start..];
    hide OfBytes, Value;
    var coupling := ReadField(r, start, 27, 4);
    if coupling.None? || coupling.value != 0 { return false; }
    var mono := ReadField(r, start, 31, 1);
    if mono.None? { return false; }
    OneBit(b, 31);
    if mono.value != 0 { return false; }
    var stereo := ReadField(r, start, 32, 1);
    if stereo.None? { return false; }
    OneBit(b, 32);
    if stereo.value != 0 { return false; }
    var matrix := ReadField(r, start, 33, 1);
    if matrix.None? { return false; }
    OneBit(b, 33);
    if matrix.value != 0 {
      var index := ReadField(r, start, 34, 3);
      if index.None? { return false; }
    }
    return true;
  }

  function AfterHead(b: Bits, at: nat, h: Head): Option<Fields> {
    match Speakers(b, Walk(at, {}, 0), h.speakers)
    case None => None
    case Some(v) =>
      match Lfes(b, v, h.lfes)
      case None => None
      case Some(w) =>
        if w.at + 4 * h.associated > |b| || w.channels == 0 then None
        else Some(Fields(h.objectType, h.frequency, w.channels, w.at + 4 * h.associated))
  }

  lemma FieldsByHead(b: Bits)
    ensures ParseFields(b) == if HeadOf(b).None? then None else AfterHead(b, AudioConfig.Body(b), HeadOf(b).value)
  {
    hide Speakers, Lfes, Value;
  }

  method ReadFields(r: AudioConfigBits) returns (f: Option<Fields>)
    requires r.Valid()
    modifies r
    ensures r.Valid() && f == ParseFields(OfBytes(r.bytes)[old(r.offset)..])
    ensures f.Some? ==> r.offset == old(r.offset) + f.value.size
  {
    hide OfBytes, HeadOf, Speakers, Lfes, AudioConfig.Body, ParseFields, HeadOk, Channels, Value;
    var start := r.offset;
    FieldsByHead(OfBytes(r.bytes)[start..]);
    var h := ReadHead(r);
    if h.None? { return None; }
    var w := ReadSpeakers(r, start, Walk(r.offset - start, {}, 0), h.value.speakers);
    if w.None? { return None; }
    w := ReadLfes(r, start, w.value, h.value.lfes);
    if w.None? { return None; }
    var ok := SkipAssociated(r, h.value.associated);
    if !ok || w.value.channels == 0 { return None; }
    return Some(Fields(h.value.objectType, h.value.frequency, w.value.channels, r.offset - start));
  }

  /** An element's fields, then its comment from the next whole byte on. */
  method ReadElement(r: AudioConfigBits) returns (pce: Option<ProgramConfig>)
    requires r.Valid()
    modifies r
    ensures r.Valid() && pce == ParseProgramConfig(r.bytes, old(r.offset))
  {
    hide OfBytes, ParseFields;
    var start := r.offset;
    var f := ReadFields(r);
    if f.None? { return None; }
    var end := r.offset;
    r.offset := (end + 7) / 8 * 8;
    var commentStart := r.offset / 8;
    if commentStart >= |r.bytes| { return None; }
    var commentEnd := commentStart + 1 + r.bytes[commentStart];
    if commentEnd > |r.bytes| { return None; }
    r.offset := commentEnd * 8;
    return Some(ProgramConfig(f.value.objectType, f.value.frequency, f.value.channels, start, end,
                              commentStart, commentEnd));
  }

  // ---------------------------------------------------------------- moving bits

  /** Or a bit into a byte, counting from the most significant one. */
  function OrBit(x: byte, p: nat, v: bool): (y: byte)
    requires p < 8
    ensures OfByte(y) == OfByte(x)[p := OfByte(x)[p] || v]
  {
    ToByte(OfByte(x)[p := OfByte(x)[p] || v])
  }

  /** Bit `p` of byte `i` is bit `8 * i + p` of the whole. */
  lemma {:induction false} SetBitOf(bytes: Bytes, i: nat, p: nat, v: bool)
    requires i < |bytes| && p < 8
    ensures OfBytes(bytes[i := OrBit(bytes[i], p, v)]) == OfBytes(bytes)[8 * i + p := OfBytes(bytes)[8 * i + p] || v]
    decreases |bytes|
  {
    hide OrBit, OfByte;
    var rest, changed := bytes[1..], bytes[i := OrBit(bytes[i], p, v)];
    assert OfBytes(bytes) == OfByte(bytes[0]) + OfBytes(rest);
    if i == 0 {
      assert changed[1..] == rest;
      assert OfBytes(changed) == OfByte(changed[0]) + OfBytes(rest);
    } else {
      SetBitOf(rest, i - 1, p, v);
      assert changed[1..] == rest[i - 1 := OrBit(rest[i - 1], p, v)];
      assert OfBytes(changed) == OfByte(bytes[0]) + OfBytes(changed[1..]);
    }
  }

  lemma SetBit(bytes: Bytes, at: nat, v: bool)
    requires at < 8 * |bytes|
    ensures OfBytes(bytes[at / 8 := OrBit(bytes[at / 8], at % 8, v)]) ==
            OfBytes(bytes)[at := OfBytes(bytes)[at] || v]
  {
    hide OrBit, OfByte, OfBytes;
    assert 8 * (at / 8) + at % 8 == at;
    SetBitOf(bytes, at / 8, at % 8, v);
  }

  lemma ZeroByte()
    ensures OfByte(0) == Zeros(8)
  {
    ZeroBits(8);
  }

  lemma {:induction false} ZeroBits(n: nat)
    ensures BitsOf(0, n) == Zeros(n)
    decreases n
  {
    if n > 0 {
      ZeroBits(n - 1);
    }
  }

  /** The bits copied so far, filled up with zeros to whole bytes. */
  ghost predicate Copied(config: Bytes, prefix: Bytes, done: Bits) {
    |config| == |prefix| + (|done| + 7) / 8 && OfBytes(config) == OfBytes(prefix) + done + Zeros(8 * |config| - 8 * |prefix| - |done|)
  }

  lemma CopiedIsPacked(config: Bytes, prefix: Bytes, done: Bits)
    requires Copied(config, prefix, done)
    ensures config == prefix + Pack(done)
  {
    PackedBits(done);
    BitsOfJoined(prefix, Pack(done));
    assert OfBytes(prefix) + (done + Zeros(8 * |Pack(done)| - |done|)) == OfBytes(config);
    BytesAreTheirBits(config, prefix + Pack(done));
  }

  lemma Room(config: Bytes, prefix: Bytes, done: Bits)
    requires Copied(config, prefix, done) && |done| % 8 == 0
    ensures OfBytes(config + [0]) == OfBytes(prefix) + done + Zeros(8)
  {
    BitsOfJoined(config, [0]);
    OneByte(0);
    ZeroByte();
  }

  lemma OneMore(p: Bits, done: Bits, n: nat, v: bool)
    requires n > 0
    ensures (p + done + Zeros(n))[|p| + |done| := v] == p + (done + [v]) + Zeros(n - 1)
  {
  }

  /** The bits copied so far, with room for one more. */
  ghost predicate Roomy(config: Bytes, prefix: Bytes, done: Bits) {
    && |config| == |prefix| + (|done| + 8) / 8
    && OfBytes(config) == OfBytes(prefix) + done + Zeros(8 * |config| - 8 * |prefix| - |done|)
  }

  lemma RoomIsMade(config: Bytes, prefix: Bytes, done: Bits)
    requires Copied(config, prefix, done)
    ensures var full := (8 * |prefix| + |done|) / 8 == |config|;
            Roomy(if full then config + [0] else config, prefix, done)
  {
    if |done| % 8 == 0 {
      Room(config, prefix, done);
    }
    hide OfBytes, Zeros;
  }

  lemma BitIsPut(config: Bytes, prefix: Bytes, done: Bits, at: nat, v: bool)
    requires Roomy(config, prefix, done) && at == 8 * |prefix| + |done|
    ensures at / 8 < |config| && Copied(config[at / 8 := OrBit(config[at / 8], at % 8, v)], prefix, done + [v])
  {
    hide OfBytes, OrBit, Zeros;
    var n := 8 * |config| - 8 * |prefix| - |done|;
    SetBit(config, at, v);
    OneMore(OfBytes(prefix), done, n, v);
    BitIsZero(OfBytes(prefix), done, n);
  }

  lemma BitIsZero(p: Bits, done: Bits, n: nat)
    requires n > 0
    ensures !(p + done + Zeros(n))[|p| + |done|]
  {
  }

  /** Makes room when a byte is full, then ors the bit in. */
  method CopyBit(config: Bytes, ghost prefix: Bytes, ghost done: Bits, at: nat, v: bool) returns (r: Bytes)
    requires Copied(config, prefix, done) && at == 8 * |prefix| + |done|
    ensures Copied(r, prefix, done + [v])
  {
    hide Copied, Roomy, OrBit;
    r := config;
    RoomIsMade(config, prefix, done);
    if at / 8 == |r| {
      r := r + [0];
    }
    BitIsPut(r, prefix, done, at, v);
    r := r[at / 8 := OrBit(r[at / 8], at % 8, v)];
  }

  /** The copy loop of the probe: `from` and `to` are bit positions. */
  method CopyBits(payload: Bytes, from: nat, to: nat, prefix: Bytes) returns (config: Bytes)
    requires from <= to <= 8 * |payload|
    ensures config == prefix + Pack(OfBytes(payload)[from..to])
  {
    hide OfBytes, Power, Pack;
    ghost var bits := OfBytes(payload);
    config := prefix;
    var outputBit, sourceBit := 8 * |prefix|, from;
    assert OfBytes(prefix) + bits[from..from] + Zeros(0) == OfBytes(prefix);
    while sourceBit < to
      invariant from <= sourceBit <= to && outputBit == 8 * |prefix| + sourceBit - from
      invariant Copied(config, prefix, bits[from..sourceBit])
    {
      BitIsShifted(payload, sourceBit);
      var v := payload[sourceBit / 8] / Power(7 - sourceBit % 8) % 2 == 1;
      assert bits[from..sourceBit + 1] == bits[from..sourceBit] + [v];
      config := CopyBit(config, prefix, bits[from..sourceBit], outputBit, v);
      outputBit, sourceBit := outputBit + 1, sourceBit + 1;
    }
    CopiedIsPacked(config, prefix, bits[from..to]);
  }

  // ---------------------------------------------------------------- scanning a stream

  lemma RelocatedParts(payload: Bytes, pce: ProgramConfig, h: HeaderBytes, packed: Bytes, comment: Bytes)
    requires pce.start <= pce.end <= 8 * |payload| && pce.commentStart <= pce.commentEnd <= |payload|
    requires pce.frequency == FrequencyIndex(h)
    requires packed == Pack(OfBytes(payload)[pce.start..pce.end]) && comment == payload[pce.commentStart..pce.commentEnd]
    ensures Relocated(payload, pce) == Prefix(2, FrequencyIndex(h), 0) + (packed + comment)
  {
    hide OfBytes, Pack, Prefix, FrequencyIndex;
  }

  /** A frame whose header does not give the channel count: by its element, if it starts with one. */
  method ProbeElement(payload: Bytes, h: HeaderBytes) returns (starts: bool, v: Option<Verdict>)
    requires !Skipped(h)
    ensures starts == StartsElement(payload)
    ensures starts ==> |payload| > 0 && v == OnElement(payload, h)
  {
    hide OfBytes, ParseProgramConfig, Pack, Relocated, Frequency, Skipped, FrequencyIndex, Prefix;
    var r := new AudioConfigBits(payload, 0);
    var id := r.Read(3);
    if id != Some(5) { return false, None; }
    var pce := ReadElement(r);
    if pce.None? { return true, None; }
    if pce.value.objectType != 2 || pce.value.frequency != FrequencyIndex(h) {
      return true, Some(Invalid(ElementMismatch));
    }
    var config := CopyBits(payload, pce.value.start, pce.value.end, Prefix(2, FrequencyIndex(h), 0));
    ghost var packed := Pack(OfBytes(payload)[pce.value.start..pce.value.end]);
    var comment := payload[pce.value.commentStart..pce.value.commentEnd];
    config := config + comment;
    RelocatedParts(payload, pce.value, h, packed, comment);
    assert config == Prefix(2, FrequencyIndex(h), 0) + (packed + comment);
    return true, Some(Ready(2, Frequency(h), None, 0, pce.value.channels, config));
  }

  method ProbeAdtsConfiguration(bytes: Bytes, asc: Option<Bytes>) returns (v: Verdict)
    ensures v == Probe(bytes, asc, 0)
  {
    hide ParseAsc, OnElement, StartsElement, AgainstConfig, Prefix;
    var cursor := 0;
    while cursor + 7 <= |bytes|
      invariant Probe(bytes, asc, 0) == Probe(bytes, asc, cursor)
      decreases |bytes| - cursor
    {
      var h := bytes[cursor..cursor + 7];
      if Skipped(h) {
        cursor := cursor + 1;
        continue;
      }
      if Refused(h) { return Invalid(UnsupportedFrame); }
      var frameEnd := cursor + FrameLength(h);
      if cursor + HeaderSize(h) > |bytes| { return Pending; }
      if asc.Some? { return AgainstConfig(asc.value, h); }
      var count := ChannelCount(Configuration(h));
      if count.Some? {
        return Ready(2, Frequency(h), None, Configuration(h), count.value, Prefix(2, FrequencyIndex(h), Configuration(h)));
      }
      var starts, verdict := ProbeElement(Payload(bytes, cursor, h), h);
      if !starts {
        if frameEnd > |bytes| { return Pending; }
        cursor := frameEnd;
        continue;
      }
      if verdict.None? {
        return if frameEnd > |bytes| then Pending else Invalid(BadElement);
      }
      return verdict.value;
    }
    return Pending;
  }
}
