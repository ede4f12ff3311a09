/** Finding the audio configuration in an ADTS byte stream that is still arriving. */
module AdtsProbe {
  import opened Basics
  import opened BitStrings
  import opened AudioConfig

  datatype Reason = UnsupportedFrame | BadConfig | ConfigMismatch | BadConfigChannels | BadElement | ElementMismatch

  datatype Verdict =
    | Pending
    | Invalid(reason: Reason)
    | Ready(objectType: nat, frequency: nat, extension: Option<nat>, configuration: nat, channels: nat, config: Bytes)

  // ---------------------------------------------------------------- frame headers

  type HeaderBytes = h: Bytes | |h| == 7 witness [0, 0, 0, 0, 0, 0, 0]

  predicate Sync(h: HeaderBytes) {
    h[0] == 0xff && h[1] / 16 == 15 && h[1] / 2 % 4 == 0
  }

  function HeaderSize(h: HeaderBytes): nat {
    if h[1] % 2 == 0 then 9 else 7
  }

  function ObjectType(h: HeaderBytes): nat {
    h[2] / 64 + 1
  }

  function FrequencyIndex(h: HeaderBytes): (f: nat)
    ensures f < 16
  {
    h[2] / 4 % 16
  }

  function Configuration(h: HeaderBytes): (c: nat)
    ensures c < 8
  {
    h[2] % 2 * 4 + h[3] / 64
  }

  function FrameLength(h: HeaderBytes): nat {
    (h[3] % 4) as int * 2048 + h[4] as int * 8 + h[5] / 32
  }

  /** Not the beginning of a frame. */
  predicate Skipped(h: HeaderBytes) {
    !Sync(h) || FrequencyIndex(h) >= |FREQUENCIES| || FrameLength(h) < HeaderSize(h)
  }

  predicate Refused(h: HeaderBytes) {
    ObjectType(h) != 2 || h[6] % 4 != 0
  }

  function Frequency(h: HeaderBytes): nat
    requires !Skipped(h)
  {
    FREQUENCIES[FrequencyIndex(h)]
  }

  // ---------------------------------------------------------------- verdicts

  function AgainstConfig(asc: Bytes, h: HeaderBytes): (v: Verdict)
    requires !Skipped(h)
    ensures !v.Pending?
  {
    match ParseAsc(asc)
    case None => Invalid(BadConfig)
    case Some(a) =>
      var core := match a.core case None => a.objectType case Some(c) => c;
      if !(a.objectType == 2 || a.objectType == 5 || a.objectType == 29) || core != 2
         || a.frequency != Frequency(h) || a.configuration != Configuration(h) then Invalid(ConfigMismatch)
      else match a.channels
        case None => Invalid(BadConfigChannels)
        case Some(count) => Ready(a.objectType, Frequency(h), a.extension, Configuration(h), count, asc)
  }

  /** The verdict on an element, or none when the element cannot be read. */
  function OnElement(payload: Bytes, h: HeaderBytes): (v: Option<Verdict>)
    requires !Skipped(h) && |payload| > 0
    ensures v.Some? ==> !v.value.Pending?
  {
    match ParseProgramConfig(payload, 3)
    case None => None
    case Some(pce) =>
      if pce.objectType != 2 || pce.frequency != FrequencyIndex(h) then Some(Invalid(ElementMismatch))
      else Some(Ready(2, Frequency(h), None, 0, pce.channels, Relocated(payload, pce)))
  }

  predicate StartsElement(payload: Bytes) {
    ReadAt(OfBytes(payload), 0, 3) == Some(5)
  }

  function Min(a: nat, b: nat): nat {
    if a < b then a else b
  }

  function Payload(bytes: Bytes, cursor: nat, h: HeaderBytes): Bytes
    requires cursor + HeaderSize(h) <= |bytes| && !Skipped(h)
  {
    bytes[cursor + HeaderSize(h)..Min(cursor + FrameLength(h), |bytes|)]
  }

  function Probe(bytes: Bytes, asc: Option<Bytes>, cursor: nat): Verdict
    decreases |bytes| - cursor
  {
    if cursor + 7 > |bytes| then Pending
    else
      var h := bytes[cursor..cursor + 7];
      if Skipped(h) then Probe(bytes, asc, cursor + 1)
      else if Refused(h) then Invalid(UnsupportedFrame)
      else if cursor + HeaderSize(h) > |bytes| then Pending
      else if asc.Some? then AgainstConfig(asc.value, h)
      else match ChannelCount(Configuration(h))
        case Some(count) =>
          Ready(2, Frequency(h), None, Configuration(h), count, Prefix(2, FrequencyIndex(h), Configuration(h)))
        case None =>
          var payload, end := Payload(bytes, cursor, h), cursor + FrameLength(h);
          if !StartsElement(payload) then
            if end > |bytes| then Pending else Probe(bytes, asc, end)
          else match OnElement(payload, h)
            case None => if end > |bytes| then Pending else Invalid(BadElement)
            case Some(v) => v
  }

  // ---------------------------------------------------------------- verdicts are final

  lemma SamePrefix(p: Bytes, q: Bytes, k: nat)
    requires p <= q && k <= 8 * |p|
    ensures Agree(OfBytes(p), OfBytes(q), k)
  {
    assert q == p + q[|p|..];
    BitsOfJoined(p, q[|p|..]);
  }

  lemma ReadExtends(p: Bytes, q: Bytes, at: nat, n: nat)
    requires p <= q && ReadAt(OfBytes(p), at, n).Some?
    ensures ReadAt(OfBytes(q), at, n) == ReadAt(OfBytes(p), at, n)
  {
    SamePrefix(p, q, 8 * |p|);
    AgreeOnValue(OfBytes(p), OfBytes(q), 8 * |p|, at, at + n);
  }

  lemma AgreeAfter(b: Bits, c: Bits, start: nat, k: nat)
    requires Agree(b, c, start + k)
    ensures Agree(b[start..], c[start..], k)
  {
    assert b[start..][..k] == b[..start + k][start..] && c[start..][..k] == c[..start + k][start..];
  }

  lemma FieldsExtend(p: Bytes, q: Bytes, start: nat)
    requires p <= q && start <= 8 * |p| && ParseFields(OfBytes(p)[start..]).Some?
    ensures ParseFields(OfBytes(q)[start..]) == ParseFields(OfBytes(p)[start..])
  {
    hide ParseFields, OfBytes;
    var b := OfBytes(p)[start..];
    FieldsFit(b);
    var k := ParseFields(b).value.size;
    SamePrefix(p, q, start + k);
    AgreeAfter(OfBytes(p), OfBytes(q), start, k);
    FieldsStable(b, OfBytes(q)[start..]);
  }

  /** An element that can be read is read the same when more bytes follow. */
  lemma ElementExtends(p: Bytes, q: Bytes, start: nat)
    requires p <= q && start <= 8 * |p| && ParseProgramConfig(p, start).Some?
    ensures ParseProgramConfig(q, start) == ParseProgramConfig(p, start)
  {
    hide ParseFields, OfBytes;
    FieldsExtend(p, q, start);
  }

  lemma RelocatedExtends(p: Bytes, q: Bytes, pce: ProgramConfig)
    requires p <= q && pce.start <= pce.end <= 8 * |p| && pce.commentStart <= pce.commentEnd <= |p|
    requires pce.frequency < 16
    ensures Relocated(q, pce) == Relocated(p, pce)
  {
    SamePrefix(p, q, 8 * |p|);
    hide OfBytes, Agree;
    AgreeOnSlice(OfBytes(p), OfBytes(q), 8 * |p|, pce.start, pce.end);
    assert q[pce.commentStart..pce.commentEnd] == p[pce.commentStart..pce.commentEnd];
  }

  lemma VerdictExtends(p: Bytes, q: Bytes, h: HeaderBytes)
    requires p <= q && !Skipped(h) && StartsElement(p) && |p| > 0 && OnElement(p, h).Some?
    ensures StartsElement(q) && OnElement(q, h) == OnElement(p, h)
  {
    ReadExtends(p, q, 0, 3);
    ElementExtends(p, q, 3);
    hide ParseProgramConfig, ReadAt, OfBytes;
    var pce := ParseProgramConfig(p, 3).value;
    if pce.frequency == FrequencyIndex(h) {
      RelocatedExtends(p, q, pce);
    }
  }

  lemma ElementNeedsBytes(p: Bytes)
    requires StartsElement(p)
    ensures |p| > 0
  {
  }

  lemma PayloadExtends(bytes: Bytes, more: Bytes, cursor: nat, h: HeaderBytes)
    requires cursor + HeaderSize(h) <= |bytes| && !Skipped(h)
    ensures Payload(bytes, cursor, h) <= Payload(bytes + more, cursor, h)
    ensures cursor + FrameLength(h) <= |bytes| ==> Payload(bytes + more, cursor, h) == Payload(bytes, cursor, h)
  {
  }

  /** Once the probe has decided, no later byte changes its mind. */
  lemma {:induction false} VerdictIsFinal(bytes: Bytes, more: Bytes, asc: Option<Bytes>, cursor: nat)
    requires !Probe(bytes, asc, cursor).Pending?
    ensures Probe(bytes + more, asc, cursor) == Probe(bytes, asc, cursor)
    decreases |bytes| - cursor
  {
    hide ParseAsc, OnElement, StartsElement, Payload;
    var all, h := bytes + more, bytes[cursor..cursor + 7];
    assert all[cursor..cursor + 7] == h;
    if Skipped(h) {
      VerdictIsFinal(bytes, more, asc, cursor + 1);
    } else if !Refused(h) && asc.None? && ChannelCount(Configuration(h)).None? {
      var p, end := Payload(bytes, cursor, h), cursor + FrameLength(h);
      PayloadExtends(bytes, more, cursor, h);
      if StartsElement(p) {
        ElementNeedsBytes(p);
        if OnElement(p, h).Some? {
          VerdictExtends(p, Payload(all, cursor, h), h);
        }
      } else {
        VerdictIsFinal(bytes, more, asc, end);
      }
    }
  }

  // ---------------------------------------------------------------- what is announced is what the bytes say

  ghost predicate Announced(v: Verdict) {
    v.Ready? ==>
      && ParseAsc(v.config).Some?
      && var a := ParseAsc(v.config).value;
         && a.objectType == v.objectType && a.frequency == v.frequency && a.extension == v.extension
         && a.configuration == v.configuration && a.channels == Some(v.channels)
  }

  lemma ElementAnnounced(payload: Bytes, h: HeaderBytes)
    requires !Skipped(h) && |payload| > 0 && OnElement(payload, h).Some?
    ensures Announced(OnElement(payload, h).value)
  {
    hide ParseProgramConfig, ParseAsc, Relocated;
    var pce := ParseProgramConfig(payload, 3).value;
    if pce.objectType == 2 {
      RelocationPreservesMeaning(payload, 3, pce);
    }
  }

  lemma ConfigAnnounced(asc: Bytes, h: HeaderBytes)
    requires !Skipped(h)
    ensures Announced(AgainstConfig(asc, h))
    ensures AgainstConfig(asc, h).Ready? <==>
            && ParseAsc(asc).Some?
            && var a := ParseAsc(asc).value;
               && a.objectType in {2, 5, 29} && (a.core == Some(2) || (a.core.None? && a.objectType == 2))
               && a.frequency == Frequency(h) && a.configuration == Configuration(h) && a.channels.Some?
    ensures AgainstConfig(asc, h).Ready? ==> AgainstConfig(asc, h).config == asc
  {
    hide ParseAsc;
  }

  lemma PrefixAnnounced(h: HeaderBytes)
    requires !Skipped(h) && ChannelCount(Configuration(h)).Some?
    ensures Announced(Ready(2, Frequency(h), None, Configuration(h), ChannelCount(Configuration(h)).value,
                            Prefix(2, FrequencyIndex(h), Configuration(h))))
  {
    hide ParseAsc, Prefix;
    PrefixIsConfig(FrequencyIndex(h), Configuration(h));
  }

  /** Whatever the stream, a configuration that is announced parses to exactly what is announced with it. */
  lemma {:induction false} ReadyIsAnnounced(bytes: Bytes, asc: Option<Bytes>, cursor: nat)
    ensures Announced(Probe(bytes, asc, cursor))
    decreases |bytes| - cursor
  {
    hide ParseAsc, OnElement, StartsElement, Payload, Announced, AgainstConfig, Prefix;
    if cursor + 7 <= |bytes| {
      var h := bytes[cursor..cursor + 7];
      if Skipped(h) {
        ReadyIsAnnounced(bytes, asc, cursor + 1);
      } else if !Refused(h) && cursor + HeaderSize(h) <= |bytes| {
        if asc.Some? {
          ConfigAnnounced(asc.value, h);
        } else if ChannelCount(Configuration(h)).Some? {
          PrefixAnnounced(h);
        } else {
          var p, end := Payload(bytes, cursor, h), cursor + FrameLength(h);
          if StartsElement(p) {
            ElementNeedsBytes(p);
            if OnElement(p, h).Some? {
              ElementAnnounced(p, h);
            }
          } else if end <= |bytes| {
            ReadyIsAnnounced(bytes, asc, end);
          }
        }
      }
    }
    NotReadyIsAnnounced();
  }

  lemma NotReadyIsAnnounced()
    ensures Announced(Pending) && forall r :: Announced(Invalid(r))
  {
  }
}
