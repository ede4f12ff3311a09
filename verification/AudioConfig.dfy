/** AudioSpecificConfig headers and the program_config_element (sections 1.6.2.1 and 4.4.1.1 of ISO/IEC 14496-3). */
module AudioConfig {
  import opened Basics
  import opened BitStrings

  const FREQUENCIES: seq<nat> :=
    [96000, 88200, 64000, 48000, 44100, 32000, 24000, 22050, 16000, 12000, 11025, 8000, 7350]

  function AudioFrequency(index: nat): Option<nat> {
    if index < |FREQUENCIES| then Some(FREQUENCIES[index]) else None
  }

  function ChannelCount(configuration: nat): Option<nat> {
    if 1 <= configuration <= 6 then Some(configuration)
    else if configuration == 7 || configuration == 12 || configuration == 14 then Some(8)
    else if configuration == 11 then Some(7)
    else if configuration == 13 then Some(24)
    else None
  }

  // ---------------------------------------------------------------- reading bits

  function ReadAt(bits: Bits, at: nat, n: nat): Option<nat> {
    if at + n <= |bits| then Some(ValueOf(bits[at..at + n])) else None
  }

  function Value(bits: Bits, i: nat, j: nat): nat
    requires i <= j <= |bits|
  {
    ValueOf(bits[i..j])
  }

  /** Two bit strings begin with the same `k` bits. */
  predicate Agree(b: Bits, c: Bits, k: nat) {
    k <= |b| && k <= |c| && b[..k] == c[..k]
  }

  lemma AgreeOnSlice(b: Bits, c: Bits, k: nat, i: nat, j: nat)
    requires Agree(b, c, k) && i <= j <= k
    ensures b[i..j] == c[i..j]
  {
    forall m | 0 <= m < k ensures b[m] == c[m] {
      assert b[m] == b[..k][m] && c[m] == c[..k][m];
    }
  }

  lemma AgreeOnValue(b: Bits, c: Bits, k: nat, i: nat, j: nat)
    requires Agree(b, c, k) && i <= j <= k
    ensures Value(b, i, j) == Value(c, i, j)
    ensures i < j ==> b[i] == c[i]
  {
    AgreeOnSlice(b, c, k, i, j);
    if i < j {
      assert b[i] == b[i..j][0] && c[i] == c[i..j][0];
    }
  }

  // ---------------------------------------------------------------- the element's fields

  /** Where a list of channel elements ends, the tags used so far and the channels counted. */
  datatype Walk = Walk(at: nat, tags: set<(nat, nat)>, channels: nat)

  function SpeakerTag(b: Bits, at: nat): (nat, nat)
    requires at + 5 <= |b|
  {
    (if b[at] then 1 else 0, Value(b, at + 1, at + 5))
  }

  /** Front, side and back elements: a pair flag and a tag each, no two alike. */
  function Speakers(b: Bits, w: Walk, count: nat): Option<Walk>
    decreases count
  {
    if count == 0 then Some(w)
    else if w.at + 5 > |b| || SpeakerTag(b, w.at) in w.tags then None
    else
      var tag := SpeakerTag(b, w.at);
      Speakers(b, Walk(w.at + 5, w.tags + {tag}, w.channels + 1 + tag.0), count - 1)
  }

  function Lfes(b: Bits, w: Walk, count: nat): Option<Walk>
    decreases count
  {
    if count == 0 then Some(w)
    else if w.at + 4 > |b| || (3, Value(b, w.at, w.at + 4)) in w.tags then None
    else Lfes(b, Walk(w.at + 4, w.tags + {(3, Value(b, w.at, w.at + 4))}, w.channels + 1), count - 1)
  }

  datatype Fields = Fields(objectType: nat, frequency: nat, channels: nat, size: nat)

  const HEAD: nat := 34

  /** No associated data or coupling elements with content, no stereo mixdown. */
  predicate HeadOk(b: Bits) {
    |b| >= HEAD && Value(b, 6, 10) < |FREQUENCIES| && Value(b, 27, 31) == 0 && !b[31] && !b[32]
  }

  function Body(b: Bits): nat
    requires HeadOk(b)
  {
    if b[33] then HEAD + 3 else HEAD
  }

  function Channels(b: Bits): Option<Walk>
    requires HeadOk(b)
  {
    var w := Speakers(b, Walk(Body(b), {}, 0), Value(b, 10, 14) + Value(b, 14, 18) + Value(b, 18, 22));
    if w.None? then None else Lfes(b, w.value, Value(b, 22, 24))
  }

  function ParseFields(b: Bits): Option<Fields> {
    if !HeadOk(b) || Body(b) > |b| || Channels(b).None? then None
    else
      var w := Channels(b).value;
      var end := w.at + 4 * Value(b, 24, 27);
      if end > |b| || w.channels == 0 then None
      else Some(Fields(Value(b, 4, 6) + 1, Value(b, 6, 10), w.channels, end))
  }

  lemma {:induction false} SpeakersAdvance(b: Bits, w: Walk, count: nat)
    requires Speakers(b, w, count).Some?
    ensures w.at <= Speakers(b, w, count).value.at
    decreases count
  {
    if count > 0 {
      var tag := SpeakerTag(b, w.at);
      SpeakersAdvance(b, Walk(w.at + 5, w.tags + {tag}, w.channels + 1 + tag.0), count - 1);
    }
  }

  lemma {:induction false} LfesAdvance(b: Bits, w: Walk, count: nat)
    requires Lfes(b, w, count).Some?
    ensures w.at <= Lfes(b, w, count).value.at
    decreases count
  {
    if count > 0 {
      LfesAdvance(b, Walk(w.at + 4, w.tags + {(3, Value(b, w.at, w.at + 4))}, w.channels + 1), count - 1);
    }
  }

  lemma {:induction false} SpeakersStable(b: Bits, c: Bits, k: nat, w: Walk, count: nat)
    requires Agree(b, c, k) && Speakers(b, w, count).Some? && Speakers(b, w, count).value.at <= k
    ensures Speakers(c, w, count) == Speakers(b, w, count)
    decreases count
  {
    if count > 0 {
      var tag := SpeakerTag(b, w.at);
      var next := Walk(w.at + 5, w.tags + {tag}, w.channels + 1 + tag.0);
      SpeakersAdvance(b, next, count - 1);
      AgreeOnValue(b, c, k, w.at, w.at + 5);
      AgreeOnValue(b, c, k, w.at + 1, w.at + 5);
      SpeakersStable(b, c, k, next, count - 1);
    }
  }

  lemma {:induction false} LfesStable(b: Bits, c: Bits, k: nat, w: Walk, count: nat)
    requires Agree(b, c, k) && Lfes(b, w, count).Some? && Lfes(b, w, count).value.at <= k
    ensures Lfes(c, w, count) == Lfes(b, w, count)
    decreases count
  {
    if count > 0 {
      var next := Walk(w.at + 4, w.tags + {(3, Value(b, w.at, w.at + 4))}, w.channels + 1);
      LfesAdvance(b, next, count - 1);
      AgreeOnValue(b, c, k, w.at, w.at + 4);
      LfesStable(b, c, k, next, count - 1);
    }
  }

  lemma HeadStable(b: Bits, c: Bits, k: nat)
    requires Agree(b, c, k) && k >= HEAD && HeadOk(b)
    ensures HeadOk(c) && Body(c) == Body(b)
    ensures Value(c, 4, 6) == Value(b, 4, 6) && Value(c, 6, 10) == Value(b, 6, 10)
    ensures Value(c, 10, 14) == Value(b, 10, 14) && Value(c, 14, 18) == Value(b, 14, 18)
    ensures Value(c, 18, 22) == Value(b, 18, 22) && Value(c, 22, 24) == Value(b, 22, 24)
    ensures Value(c, 24, 27) == Value(b, 24, 27)
  {
    AgreeOnValue(b, c, k, 4, 6);
    AgreeOnValue(b, c, k, 6, 10);
    AgreeOnValue(b, c, k, 10, 14);
    AgreeOnValue(b, c, k, 14, 18);
    AgreeOnValue(b, c, k, 18, 22);
    AgreeOnValue(b, c, k, 22, 24);
    AgreeOnValue(b, c, k, 24, 27);
    AgreeOnValue(b, c, k, 27, 31);
    AgreeOnValue(b, c, k, 31, 32);
    AgreeOnValue(b, c, k, 32, 33);
    AgreeOnValue(b, c, k, 33, 34);
  }

  lemma ChannelsStable(b: Bits, c: Bits, k: nat)
    requires Agree(b, c, k) && k >= HEAD && HeadOk(b) && Channels(b).Some? && Channels(b).value.at <= k
    ensures HeadOk(c) && Channels(c) == Channels(b) && Body(b) <= Channels(b).value.at
  {
    hide Speakers, Lfes, Value;
    HeadStable(b, c, k);
    var w, n := Walk(Body(b), {}, 0), Value(b, 10, 14) + Value(b, 14, 18) + Value(b, 18, 22);
    var v := Speakers(b, w, n).value;
    SpeakersAdvance(b, w, n);
    LfesAdvance(b, v, Value(b, 22, 24));
    SpeakersStable(b, c, k, w, n);
    LfesStable(b, c, k, v, Value(b, 22, 24));
  }

  /** The fields mean the same wherever their bits stand and whatever follows them. */
  lemma FieldsStable(b: Bits, c: Bits)
    requires ParseFields(b).Some? && Agree(b, c, ParseFields(b).value.size)
    ensures ParseFields(c) == ParseFields(b)
  {
    var k := ParseFields(b).value.size;
    FieldsSize(b);
    HeadStable(b, c, k);
    ChannelsStable(b, c, k);
  }

  lemma FieldsFit(b: Bits)
    requires ParseFields(b).Some?
    ensures ParseFields(b).value.size <= |b|
  {
    hide Speakers, Lfes, Channels, Value, HeadOk;
  }

  lemma FieldsSize(b: Bits)
    requires ParseFields(b).Some?
    ensures HEAD <= Body(b) <= Channels(b).value.at <= ParseFields(b).value.size <= |b|
    ensures ParseFields(b).value.frequency < |FREQUENCIES|
  {
    var w, n := Walk(Body(b), {}, 0), Value(b, 10, 14) + Value(b, 14, 18) + Value(b, 18, 22);
    SpeakersAdvance(b, w, n);
    LfesAdvance(b, Speakers(b, w, n).value, Value(b, 22, 24));
  }

  // ---------------------------------------------------------------- which elements are accepted

  type Tag = (nat, nat)

  predicate Fresh(tags: seq<Tag>, used: set<Tag>) {
    && (forall i, j :: 0 <= i < j < |tags| ==> tags[i] != tags[j])
    && (forall i :: 0 <= i < |tags| ==> tags[i] !in used)
  }

  lemma FreshRest(tag: Tag, tags: seq<Tag>, used: set<Tag>)
    requires Fresh([tag] + tags, used)
    ensures tag !in used && Fresh(tags, used + {tag})
  {
    var all := [tag] + tags;
    assert all[0] == tag;
    forall i | 0 <= i < |tags| ensures tags[i] !in used + {tag} { assert all[i + 1] == tags[i] && all[i + 1] != all[0]; }
    forall i, j | 0 <= i < j < |tags| ensures tags[i] != tags[j] {
      assert all[i + 1] == tags[i] && all[j + 1] == tags[j];
    }
  }

  lemma FreshWhole(tag: Tag, tags: seq<Tag>, used: set<Tag>)
    requires tag !in used && Fresh(tags, used + {tag})
    ensures Fresh([tag] + tags, used)
  {
    var all := [tag] + tags;
    forall i | 0 <= i < |all| ensures all[i] !in used {
      if i > 0 { assert all[i] == tags[i - 1] && tags[i - 1] !in used + {tag}; }
    }
    forall i, j | 0 <= i < j < |all| ensures all[i] != all[j] {
      assert all[j] == tags[j - 1] && tags[j - 1] !in used + {tag};
      if i > 0 { assert all[i] == tags[i - 1]; }
    }
  }

  lemma FreshCons(tag: Tag, tags: seq<Tag>, used: set<Tag>)
    ensures Fresh([tag] + tags, used) <==> tag !in used && Fresh(tags, used + {tag})
  {
    hide Fresh;
    if Fresh([tag] + tags, used) { FreshRest(tag, tags, used); }
    if tag !in used && Fresh(tags, used + {tag}) { FreshWhole(tag, tags, used); }
  }

  /** The tags of `count` channel elements of five bits each, and of four bits each for low-frequency ones. */
  function SpeakerTags(b: Bits, at: nat, count: nat): (tags: seq<Tag>)
    requires at + 5 * count <= |b|
    ensures |tags| == count && forall i :: 0 <= i < count ==> tags[i].0 <= 1
    decreases count
  {
    if count == 0 then [] else [SpeakerTag(b, at)] + SpeakerTags(b, at + 5, count - 1)
  }

  function LfeTags(b: Bits, at: nat, count: nat): (tags: seq<Tag>)
    requires at + 4 * count <= |b|
    ensures |tags| == count && forall i :: 0 <= i < count ==> tags[i].0 == 3
    decreases count
  {
    if count == 0 then [] else [(3, Value(b, at, at + 4))] + LfeTags(b, at + 4, count - 1)
  }

  function Pairs(tags: seq<Tag>): (n: nat)
    ensures n <= |tags|
  {
    if tags == [] then 0 else (if tags[0].0 == 1 then 1 else 0) + Pairs(tags[1..])
  }

  lemma SpeakerTagsCons(b: Bits, at: nat, count: nat)
    requires count > 0 && at + 5 * count <= |b|
    ensures var tag, rest := SpeakerTag(b, at), SpeakerTags(b, at + 5, count - 1);
            && tag.0 <= 1 && SpeakerTags(b, at, count) == [tag] + rest && Pairs([tag] + rest) == tag.0 + Pairs(rest)
  {
    var tag, rest := SpeakerTag(b, at), SpeakerTags(b, at + 5, count - 1);
    assert ([tag] + rest)[1..] == rest;
    hide Value, SpeakerTags;
  }

  lemma SpeakersOne(b: Bits, w: Walk, count: nat)
    requires count > 0
    ensures w.at + 5 > |b| || SpeakerTag(b, w.at) in w.tags ==> Speakers(b, w, count).None?
    ensures w.at + 5 <= |b| && SpeakerTag(b, w.at) !in w.tags ==>
              var tag := SpeakerTag(b, w.at);
              Speakers(b, w, count) == Speakers(b, Walk(w.at + 5, w.tags + {tag}, w.channels + 1 + tag.0), count - 1)
  {
    hide SpeakerTag;
  }

  lemma {:induction false} SpeakersIff(b: Bits, w: Walk, count: nat)
    requires w.at <= |b|
    ensures Speakers(b, w, count).Some? <==>
            w.at + 5 * count <= |b| && Fresh(SpeakerTags(b, w.at, count), w.tags)
    ensures Speakers(b, w, count).Some? ==>
              var v := Speakers(b, w, count).value;
              && v.at == w.at + 5 * count && v.channels == w.channels + count + Pairs(SpeakerTags(b, w.at, count))
              && forall t :: t in v.tags ==> t in w.tags || t.0 <= 1
    decreases count
  {
    if count > 0 {
      hide Speakers, SpeakerTag, SpeakerTags, Fresh, Pairs;
      SpeakersOne(b, w, count);
      if w.at + 5 <= |b| {
        var tag := SpeakerTag(b, w.at);
        SpeakersIff(b, Walk(w.at + 5, w.tags + {tag}, w.channels + 1 + tag.0), count - 1);
        if w.at + 5 * count <= |b| {
          SpeakerTagsCons(b, w.at, count);
          FreshCons(tag, SpeakerTags(b, w.at + 5, count - 1), w.tags);
        }
      }
    }
  }

  lemma {:induction false} LfesIff(b: Bits, w: Walk, count: nat)
    requires w.at <= |b|
    ensures Lfes(b, w, count).Some? <==> w.at + 4 * count <= |b| && Fresh(LfeTags(b, w.at, count), w.tags)
    ensures Lfes(b, w, count).Some? ==>
              Lfes(b, w, count).value.at == w.at + 4 * count && Lfes(b, w, count).value.channels == w.channels + count
    decreases count
  {
    if count > 0 && w.at + 4 <= |b| {
      var tag := (3, Value(b, w.at, w.at + 4));
      LfesIff(b, Walk(w.at + 4, w.tags + {tag}, w.channels + 1), count - 1);
      if w.at + 4 * count <= |b| {
        FreshCons(tag, LfeTags(b, w.at + 4, count - 1), w.tags);
      }
    }
  }

  /** Low-frequency tags cannot meet the tags of other elements. */
  lemma FreshApart(tags: seq<Tag>, used: set<Tag>)
    requires (forall i :: 0 <= i < |tags| ==> tags[i].0 == 3) && (forall t :: t in used ==> t.0 <= 1)
    ensures Fresh(tags, used) <==> Fresh(tags, {})
  {
  }

  lemma SmallValue(b: Bits, i: nat, j: nat, limit: nat)
    requires i <= j <= |b| && limit == Power(j - i)
    ensures Value(b, i, j) < limit
  {
    BitsOfValue(b[i..j]);
  }

  /** The front, side and back elements of an element's head. */
  function SpeakerCount(b: Bits): nat
    requires |b| >= HEAD
  {
    Value(b, 10, 14) + Value(b, 14, 18) + Value(b, 18, 22)
  }

  /** All listed elements are there, no two of a kind have the same tag, and there is at least one. */
  ghost predicate Listed(b: Bits)
    requires HeadOk(b)
  {
    var n, lfes := SpeakerCount(b), Value(b, 22, 24);
    && Body(b) + 5 * n + 4 * lfes + 4 * Value(b, 24, 27) <= |b| && n + lfes > 0
    && Fresh(SpeakerTags(b, Body(b), n), {}) && Fresh(LfeTags(b, Body(b) + 5 * n, lfes), {})
  }

  lemma ChannelsIff(b: Bits, n: nat, lfes: nat)
    requires HeadOk(b) && Body(b) <= |b| && n == SpeakerCount(b) && lfes == Value(b, 22, 24)
    ensures Channels(b).Some? <==>
              Body(b) + 5 * n + 4 * lfes <= |b|
              && Fresh(SpeakerTags(b, Body(b), n), {}) && Fresh(LfeTags(b, Body(b) + 5 * n, lfes), {})
    ensures Channels(b).Some? ==>
              && Channels(b).value.at == Body(b) + 5 * n + 4 * lfes
              && Channels(b).value.channels == n + Pairs(SpeakerTags(b, Body(b), n)) + lfes
  {
    hide Speakers, Lfes, Value, Fresh, Body, HeadOk, SpeakerTags, LfeTags, Pairs;
    var start := Walk(Body(b), {}, 0);
    SpeakersIff(b, start, n);
    if Speakers(b, start, n).Some? {
      var w := Speakers(b, start, n).value;
      LfesIff(b, w, lfes);
      if w.at + 4 * lfes <= |b| {
        FreshApart(LfeTags(b, w.at, lfes), w.tags);
      }
    }
  }

  /** An element is read exactly when its head and its list are in order. It then has one channel for each element and
      one more for each pair, a count that cannot leave a byte. */
  lemma FieldsIff(b: Bits)
    ensures ParseFields(b).Some? <==> HeadOk(b) && Listed(b)
    ensures ParseFields(b).Some? ==>
              var n, lfes := SpeakerCount(b), Value(b, 22, 24);
              && ParseFields(b).value.channels == n + Pairs(SpeakerTags(b, Body(b), n)) + lfes
              && 0 < ParseFields(b).value.channels <= 93
              && ParseFields(b).value.size == Body(b) + 5 * n + 4 * lfes + 4 * Value(b, 24, 27)
  {
    hide Speakers, Lfes, Channels, Value, Fresh, SpeakerTags, LfeTags, Pairs;
    if HeadOk(b) && Body(b) <= |b| {
      ChannelsIff(b, SpeakerCount(b), Value(b, 22, 24));
      assert Power(4) == 16 && Power(2) == 4;
      SmallValue(b, 10, 14, 16);
      SmallValue(b, 14, 18, 16);
      SmallValue(b, 18, 22, 16);
      SmallValue(b, 22, 24, 4);
    }
  }

  // ---------------------------------------------------------------- the whole element

  /** `start` and `end` count bits, the comment's bounds count bytes. */
  datatype ProgramConfig = ProgramConfig(objectType: nat, frequency: nat, channels: nat, start: nat, end: nat,
                                         commentStart: nat, commentEnd: nat)

  /** The comment starts at the next whole byte; it must be there to its end. */
  function WithComment(bytes: Bytes, start: nat, f: Fields): (r: Option<ProgramConfig>)
    ensures r.Some? ==> r.value.start == start <= r.value.end <= 8 * r.value.commentStart
    ensures r.Some? ==> r.value.commentStart < r.value.commentEnd <= |bytes|
  {
    var end := start + f.size;
    var comment := (end + 7) / 8;
    if comment >= |bytes| || comment + 1 + bytes[comment] > |bytes| then None
    else Some(ProgramConfig(f.objectType, f.frequency, f.channels, start, end, comment, comment + 1 + bytes[comment]))
  }

  function ParseProgramConfig(bytes: Bytes, start: nat): (r: Option<ProgramConfig>)
    requires start <= 8 * |bytes|
    ensures r.Some? ==> r.value.start == start <= r.value.end <= 8 * r.value.commentStart
    ensures r.Some? ==> r.value.commentStart < r.value.commentEnd <= |bytes|
  {
    var f := ParseFields(OfBytes(bytes)[start..]);
    if f.None? then None else WithComment(bytes, start, f.value)
  }

  // ---------------------------------------------------------------- the configuration header

  datatype Asc = Asc(objectType: nat, frequency: nat, configuration: nat, extension: Option<nat>, core: Option<nat>,
                     channels: Option<nat>)

  /** An object type and where it ends. */
  function ObjectAt(bits: Bits, at: nat): Option<(nat, nat)> {
    match ReadAt(bits, at, 5)
    case None => None
    case Some(v) =>
      if v != 31 then Some((v, at + 5))
      else match ReadAt(bits, at + 5, 6) case None => None case Some(w) => Some((32 + w, at + 11))
  }

  function FrequencyAt(bits: Bits, at: nat): Option<(nat, nat)> {
    match ReadAt(bits, at, 4)
    case None => None
    case Some(v) =>
      if v == 15 then
        match ReadAt(bits, at + 4, 24) case None => None case Some(w) => if w == 0 then None else Some((w, at + 28))
      else match AudioFrequency(v) case None => None case Some(f) => Some((f, at + 4))
  }

  /** The channels of an AAC core whose header says "see the element". */
  function ElementChannels(bytes: Bytes, at: nat, frequency: nat): Option<nat> {
    if ReadAt(OfBytes(bytes), at, 3) != Some(0) then None
    else
      var pce := ParseProgramConfig(bytes, at + 3);
      if pce.Some? && pce.value.objectType == 2 && AudioFrequency(pce.value.frequency) == Some(frequency)
      then Some(pce.value.channels) else None
  }

  function CoreChannels(bytes: Bytes, at: nat, core: nat, frequency: nat, configuration: nat): Option<nat> {
    if core == 2 && configuration == 0 then ElementChannels(bytes, at, frequency)
    else if core == 2 || core == 5 || core == 29 then ChannelCount(configuration)
    else None
  }

  function ParseAsc(bytes: Bytes): Option<Asc> {
    var bits := OfBytes(bytes);
    var objectType := ObjectAt(bits, 0);
    if objectType.None? then None
    else
      var frequency := FrequencyAt(bits, objectType.value.1);
      if frequency.None? then None
      else
        var configuration := ReadAt(bits, frequency.value.1, 4);
        if configuration.None? then None
        else AscAfter(bytes, frequency.value.1 + 4, objectType.value.0, frequency.value.0, configuration.value)
  }

  /** Spectral band replication has a second frequency and a core object type. */
  function AscAfter(bytes: Bytes, at: nat, objectType: nat, frequency: nat, configuration: nat): Option<Asc> {
    if objectType != 5 && objectType != 29 then
      Some(Asc(objectType, frequency, configuration, None, None,
               CoreChannels(bytes, at, objectType, frequency, configuration)))
    else
      match FrequencyAt(OfBytes(bytes), at)
      case None => None
      case Some((extension, next)) =>
        match ObjectAt(OfBytes(bytes), next)
        case None => None
        case Some((core, end)) =>
          Some(Asc(objectType, frequency, configuration, Some(extension), Some(core),
                   CoreChannels(bytes, end, core, frequency, configuration)))
  }

  // ---------------------------------------------------------------- moving an element

  /** Bits as bytes, the last one filled up with zeros. */
  function Pack(bits: Bits): (bytes: Bytes)
    ensures |bytes| == (|bits| + 7) / 8
    decreases |bits|
  {
    if |bits| == 0 then []
    else if |bits| <= 8 then [ToByte(bits + Zeros(8 - |bits|))]
    else [ToByte(bits[..8])] + Pack(bits[8..])
  }

  lemma {:induction false} PackedBits(bits: Bits)
    ensures OfBytes(Pack(bits)) == bits + Zeros(8 * |Pack(bits)| - |bits|)
    decreases |bits|
  {
    if |bits| == 0 {
    } else if |bits| <= 8 {
      OneByte(ToByte(bits + Zeros(8 - |bits|)));
    } else {
      var first, others := ToByte(bits[..8]), Pack(bits[8..]);
      PackedBits(bits[8..]);
      BitsOfJoined([first], others);
      OneByte(first);
      assert bits == bits[..8] + bits[8..];
    }
  }

  /** Object type, frequency index and channel configuration, and three zero bits. */
  function Prefix(objectType: nat, frequency: nat, configuration: nat): (p: Bytes)
    requires objectType < 32 && frequency < 16 && configuration < 8
    ensures |p| == 2
  {
    [objectType * 8 + frequency / 2, frequency % 2 * 128 + configuration * 8]
  }

  lemma {:induction false} BitsOfSum(a: nat, b: nat, n: nat, k: nat)
    requires b < Power(k)
    ensures BitsOf(a * Power(k) + b, n + k) == BitsOf(a, n) + BitsOf(b, k)
    decreases k
  {
    if k == 0 {
      assert a * 1 == a;
    } else {
      var p := Power(k - 1);
      assert a * Power(k) == 2 * (a * p);
      assert (a * Power(k) + b) / 2 == a * p + b / 2 && (a * Power(k) + b) % 2 == b % 2;
      BitsOfSum(a, b / 2, n, k - 1);
    }
  }

  lemma FirstByte(a: nat, h: nat)
    requires a < 32 && h < 8
    ensures OfByte(a * 8 + h) == BitsOf(a, 5) + BitsOf(h, 3)
  {
    assert Power(3) == 8;
    BitsOfSum(a, h, 5, 3);
  }

  lemma SecondByte(l: nat, c: nat)
    requires l < 2 && c < 8
    ensures OfByte(l * 128 + c * 8) == BitsOf(l, 1) + (BitsOf(c, 4) + BitsOf(0, 3))
  {
    assert Power(7) == 128 && Power(3) == 8;
    BitsOfSum(l, c * 8, 1, 7);
    BitsOfSum(c, 0, 4, 3);
  }

  lemma TwoBytes(x: byte, y: byte)
    ensures OfBytes([x, y]) == OfByte(x) + OfByte(y)
  {
    assert [x, y] == [x] + [y];
    BitsOfJoined([x], [y]);
    OneByte(x);
    OneByte(y);
  }

  lemma LastBit(f: nat)
    ensures BitsOf(f, 4) == BitsOf(f / 2, 3) + BitsOf(f % 2, 1)
  {
    assert BitsOf(f % 2, 1) == [f % 2 == 1];
  }

  lemma Regroup(a: Bits, h: Bits, l: Bits, c: Bits, z: Bits)
    ensures (a + h) + (l + (c + z)) == a + (h + l) + c + z
  {
  }

  lemma PrefixParts(a: nat, h: nat, l: nat, c: nat)
    requires a < 32 && h < 8 && l < 2 && c < 8
    ensures OfBytes([a * 8 + h, l * 128 + c * 8]) ==
            BitsOf(a, 5) + (BitsOf(h, 3) + BitsOf(l, 1)) + BitsOf(c, 4) + BitsOf(0, 3)
  {
    hide OfBytes, OfByte, BitsOf;
    TwoBytes(a * 8 + h, l * 128 + c * 8);
    FirstByte(a, h);
    SecondByte(l, c);
    Regroup(BitsOf(a, 5), BitsOf(h, 3), BitsOf(l, 1), BitsOf(c, 4), BitsOf(0, 3));
  }

  lemma PrefixBits(objectType: nat, f: nat, configuration: nat)
    requires objectType < 32 && f < 16 && configuration < 8
    ensures OfBytes(Prefix(objectType, f, configuration)) ==
            BitsOf(objectType, 5) + BitsOf(f, 4) + BitsOf(configuration, 4) + BitsOf(0, 3)
  {
    hide OfBytes, BitsOf;
    PrefixParts(objectType, f / 2, f % 2, configuration);
    LastBit(f);
  }

  lemma FourParts(a: Bits, b: Bits, c: Bits, d: Bits, rest: Bits)
    requires |a| == 5 && |b| == 4 && |c| == 4 && |d| == 3
    ensures var bits := (a + b + c + d) + rest;
            bits[0..5] == a && bits[5..9] == b && bits[9..13] == c && bits[13..16] == d
  {
  }

  lemma ValuesBack(objectType: nat, f: nat, configuration: nat)
    requires objectType < 31 && f < 15 && configuration < 8
    ensures ValueOf(BitsOf(objectType, 5)) == objectType && ValueOf(BitsOf(f, 4)) == f
    ensures ValueOf(BitsOf(configuration, 4)) == configuration && ValueOf(BitsOf(0, 3)) == 0
  {
    assert Power(3) == 8 && Power(4) == 16 && Power(5) == 32;
    ValueOfBits(objectType, 5, 32);
    ValueOfBits(f, 4, 16);
    ValueOfBits(configuration, 4, 16);
    ValueOfBits(0, 3, 8);
  }

  lemma PrefixReads(rest: Bytes, objectType: nat, f: nat, configuration: nat)
    requires objectType < 31 && f < 15 && configuration < 8
    ensures var bits := OfBytes(Prefix(objectType, f, configuration) + rest);
            && ReadAt(bits, 0, 5) == Some(objectType) && ReadAt(bits, 5, 4) == Some(f)
            && ReadAt(bits, 9, 4) == Some(configuration) && ReadAt(bits, 13, 3) == Some(0)
  {
    BitsOfJoined(Prefix(objectType, f, configuration), rest);
    PrefixBits(objectType, f, configuration);
    FourParts(BitsOf(objectType, 5), BitsOf(f, 4), BitsOf(configuration, 4), BitsOf(0, 3), OfBytes(rest));
    ValuesBack(objectType, f, configuration);
  }

  lemma AscOfPrefix(rest: Bytes, f: nat, configuration: nat)
    requires f < |FREQUENCIES| && configuration < 8
    ensures var config := Prefix(2, f, configuration) + rest;
            ParseAsc(config) == Some(Asc(2, FREQUENCIES[f], configuration, None, None,
                                         CoreChannels(config, 13, 2, FREQUENCIES[f], configuration)))
    ensures ReadAt(OfBytes(Prefix(2, f, configuration) + rest), 13, 3) == Some(0)
  {
    PrefixReads(rest, 2, f, configuration);
  }

  function Relocated(payload: Bytes, pce: ProgramConfig): Bytes
    requires pce.start <= pce.end <= 8 * |payload| && pce.commentStart <= pce.commentEnd <= |payload|
    requires pce.frequency < 16
  {
    Prefix(2, pce.frequency, 0)
    + (Pack(OfBytes(payload)[pce.start..pce.end]) + payload[pce.commentStart..pce.commentEnd])
  }

  lemma MiddleBits(p: Bits, fields: Bits, z: Bits, comment: Bits)
    ensures (p + ((fields + z) + comment))[|p|..][..|fields|] == fields
  {
  }

  lemma RelocatedBits(p: Bytes, fields: Bits, comment: Bytes)
    requires |p| == 2
    ensures var bits := OfBytes(p + (Pack(fields) + comment));
            |bits| >= 16 + |fields| && bits[16..][..|fields|] == fields
  {
    BitsOfJoined(p, Pack(fields) + comment);
    BitsOfJoined(Pack(fields), comment);
    PackedBits(fields);
    MiddleBits(OfBytes(p), fields, Zeros(8 * |Pack(fields)| - |fields|), OfBytes(comment));
  }

  lemma TakeDrop(b: Bits, i: nat, j: nat)
    requires i <= j <= |b|
    ensures b[i..][..j - i] == b[i..j]
  {
  }

  lemma MovedComment(payload: Bytes, start: nat, f: Fields, p: Bytes, packed: Bytes)
    requires WithComment(payload, start, f).Some? && |p| == 2 && |packed| == (f.size + 7) / 8
    ensures var pce := WithComment(payload, start, f).value;
            var config := p + (packed + payload[pce.commentStart..pce.commentEnd]);
            WithComment(config, 16, f) ==
            Some(ProgramConfig(f.objectType, f.frequency, f.channels, 16, 16 + f.size, 2 + |packed|, |config|))
  {
    var pce := WithComment(payload, start, f).value;
    var comment := payload[pce.commentStart..pce.commentEnd];
    var config := p + (packed + comment);
    assert (16 + f.size + 7) / 8 == 2 + |packed|;
    assert config[2 + |packed|] == comment[0] == payload[pce.commentStart];
  }

  lemma RelocatedElement(payload: Bytes, start: nat, f: Fields)
    requires start <= 8 * |payload| && ParseFields(OfBytes(payload)[start..]) == Some(f) && f.frequency < 16
    requires WithComment(payload, start, f).Some?
    ensures var config := Relocated(payload, WithComment(payload, start, f).value);
            && 16 <= 8 * |config| && ParseProgramConfig(config, 16).Some?
            && ParseProgramConfig(config, 16).value.objectType == f.objectType
            && ParseProgramConfig(config, 16).value.frequency == f.frequency
            && ParseProgramConfig(config, 16).value.channels == f.channels
  {
    hide ParseFields, OfBytes, Pack, Prefix;
    var pce := WithComment(payload, start, f).value;
    var b := OfBytes(payload);
    var fields, comment := b[start..pce.end], payload[pce.commentStart..pce.commentEnd];
    var p := Prefix(2, f.frequency, 0);
    RelocatedBits(p, fields, comment);
    TakeDrop(b, start, pce.end);
    FieldsStable(b[start..], OfBytes(p + (Pack(fields) + comment))[16..]);
    MovedComment(payload, start, f, p, Pack(fields));
  }

  lemma PceIsBounded(payload: Bytes, start: nat)
    requires start <= 8 * |payload| && ParseProgramConfig(payload, start).Some?
    ensures ParseProgramConfig(payload, start).value.frequency < |FREQUENCIES|
  {
    FieldsSize(OfBytes(payload)[start..]);
  }

  lemma ElementFound(config: Bytes, pce: ProgramConfig)
    requires 16 <= 8 * |config| && ReadAt(OfBytes(config), 13, 3) == Some(0)
    requires ParseProgramConfig(config, 16) == Some(pce) && pce.objectType == 2 && pce.frequency < |FREQUENCIES|
    ensures CoreChannels(config, 13, 2, FREQUENCIES[pce.frequency], 0) == Some(pce.channels)
  {
    hide ParseProgramConfig, ReadAt, OfBytes;
  }

  /** A moved element keeps its meaning: the rebuilt configuration says what the element said. */
  lemma RelocationPreservesMeaning(payload: Bytes, start: nat, pce: ProgramConfig)
    requires start <= 8 * |payload| && ParseProgramConfig(payload, start) == Some(pce) && pce.objectType == 2
    ensures pce.frequency < |FREQUENCIES|
    ensures ParseAsc(Relocated(payload, pce)) ==
            Some(Asc(2, FREQUENCIES[pce.frequency], 0, None, None, Some(pce.channels)))
  {
    PceIsBounded(payload, start);
    RelocatedElement(payload, start, ParseFields(OfBytes(payload)[start..]).value);
    var rest := Pack(OfBytes(payload)[start..pce.end]) + payload[pce.commentStart..pce.commentEnd];
    var config := Prefix(2, pce.frequency, 0) + rest;
    AscOfPrefix(rest, pce.frequency, 0);
    ElementFound(config, ParseProgramConfig(config, 16).value);
  }

  /** Without an element the two prefix bytes say it all. */
  lemma PrefixIsConfig(f: nat, configuration: nat)
    requires f < |FREQUENCIES| && 1 <= configuration < 8
    ensures ParseAsc(Prefix(2, f, configuration)) ==
            Some(Asc(2, FREQUENCIES[f], configuration, None, None, ChannelCount(configuration)))
  {
    assert Prefix(2, f, configuration) + [] == Prefix(2, f, configuration);
    AscOfPrefix([], f, configuration);
  }
}
