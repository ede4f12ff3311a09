/**
 The file that keeps accepted work keys across restarts: the encoder of a commit and the parser
 of a load. File-system calls are left to the backend's step model.
*/
module StateCodec {
  import opened Basics

  const MAGIC: Bytes := [0x4d, 0x43, 0x41, 0x53, 0x50, 0x53, 0x30, 0x32]

  const GROUP_CODES: Bytes := [0x02, 0x03, 0x17, 0x1d, 0x1e, 0x20]

  const BUCKETS: nat := 10

  const MAX_STATE_SIZE: nat := 16384

  const MAX_MESSAGE: nat := 256

  type CardId = c: Bytes | |c| == 6 witness [0, 0, 0, 0, 0, 0]

  type Key = k: Bytes | |k| == 8 witness [0, 0, 0, 0, 0, 0, 0, 0]

  datatype WorkKey = WorkKey(id: byte, key: Key)

  datatype Group = Group(updated: bool, number: uint16, lastMessage: Bytes, keys: seq<Option<WorkKey>>)

  datatype State = State(cardId: CardId, groups: seq<Group>)

  function BlankGroup(): Group {
    Group(false, 0, [], seq(BUCKETS, _ => None))
  }

  function Blank(cardId: CardId): State {
    State(cardId, seq(|GROUP_CODES|, _ => BlankGroup()))
  }

  predicate KeyOk(k: Option<WorkKey>, bucket: nat) {
    k.Some? ==> k.value.id != 0xff && k.value.id % BUCKETS == bucket
  }

  predicate KeysOk(keys: seq<Option<WorkKey>>) {
    |keys| == BUCKETS && forall b :: 0 <= b < |keys| ==> KeyOk(keys[b], b)
  }

  predicate GroupOk(g: Group) {
    |g.lastMessage| <= MAX_MESSAGE && KeysOk(g.keys)
  }

  /** The states the encoder accepts. */
  predicate WellFormed(s: State) {
    |s.groups| == |GROUP_CODES| && forall g :: 0 <= g < |s.groups| ==> GroupOk(s.groups[g])
  }

  // ---------------------------------------------------------------- encoding

  function EncodeKey(k: Option<WorkKey>): Bytes {
    if k.None? then [0] else [1, k.value.id] + k.value.key
  }

  function EncodeKeys(keys: seq<Option<WorkKey>>): Bytes {
    if |keys| == 0 then [] else EncodeKey(keys[0]) + EncodeKeys(keys[1..])
  }

  function GroupHeader(code: byte, updated: bool, number: uint16, size: nat): (h: Bytes)
    ensures |h| == 6
  {
    [code, if updated then 1 else 0, number / 0x100, number % 0x100, size / 0x100 % 0x100, size % 0x100]
  }

  function EncodeGroup(code: byte, g: Group): Bytes {
    GroupHeader(code, g.updated, g.number, |g.lastMessage|) + (g.lastMessage + EncodeKeys(g.keys))
  }

  function EncodeGroups(codes: Bytes, groups: seq<Group>): Bytes
    requires |codes| == |groups|
    decreases |groups|
  {
    if |groups| == 0 then [] else EncodeGroup(codes[0], groups[0]) + EncodeGroups(codes[1..], groups[1..])
  }

  function Encode(s: State): Bytes
    requires WellFormed(s)
  {
    MAGIC + s.cardId + EncodeGroups(GROUP_CODES, s.groups)
  }

  // ---------------------------------------------------------------- parsing

  /** A parsed value and the input left after it. */
  datatype Parsed<+T> = Refused | Parsed(value: T, rest: Bytes)

  function ParseKey(input: Bytes, bucket: nat): (p: Parsed<Option<WorkKey>>)
    ensures p.Parsed? ==> |p.rest| < |input|
  {
    if |input| == 0 || input[0] > 1 then Refused
    else if input[0] == 0 then Parsed(None, input[1..])
    else if |input| < 10 || input[1] == 0xff || input[1] % BUCKETS != bucket then Refused
    else Parsed(Some(WorkKey(input[1], input[2..10])), input[10..])
  }

  function ParseKeys(input: Bytes, bucket: nat): (p: Parsed<seq<Option<WorkKey>>>)
    requires bucket <= BUCKETS
    ensures p.Parsed? ==> |p.rest| <= |input|
    decreases |input|
  {
    if bucket == BUCKETS then Parsed([], input)
    else
      match ParseKey(input, bucket)
      case Refused => Refused
      case Parsed(k, rest) => Prepend([k], ParseKeys(rest, bucket + 1))
  }

  function Prepend<T>(done: seq<T>, more: Parsed<seq<T>>): Parsed<seq<T>> {
    if more.Refused? then Refused else Parsed(done + more.value, more.rest)
  }

  lemma PrependUnit<T>(done: seq<T>, more: Parsed<seq<T>>, rest: Bytes)
    ensures Prepend([], more) == more
    ensures Prepend(done, Parsed([], rest)) == Parsed(done, rest)
  {
    assert done + [] == done;
    if more.Parsed? { assert [] + more.value == more.value; }
  }

  lemma PrependTwice<T>(done: seq<T>, x: T, more: Parsed<seq<T>>)
    ensures Prepend(done, Prepend([x], more)) == Prepend(done + [x], more)
  {
    if more.Parsed? { assert done + ([x] + more.value) == (done + [x]) + more.value; }
  }

  function ParseGroup(input: Bytes, code: byte): (p: Parsed<Group>)
    ensures p.Parsed? ==> |p.rest| < |input|
  {
    if |input| < 6 || input[0] != code || input[1] > 1 then Refused
    else
      var size := Be16(input[4], input[5]);
      if size > MAX_MESSAGE || |input| - 6 < size then Refused
      else
        match ParseKeys(input[6 + size..], 0)
        case Refused => Refused
        case Parsed(keys, rest) =>
          Parsed(Group(input[1] != 0, Be16(input[2], input[3]), input[6..6 + size], keys), rest)
  }

  function ParseGroups(input: Bytes, codes: Bytes): Parsed<seq<Group>>
    decreases |input|
  {
    if |codes| == 0 then Parsed([], input)
    else
      match ParseGroup(input, codes[0])
      case Refused => Refused
      case Parsed(g, rest) => Prepend([g], ParseGroups(rest, codes[1..]))
  }

  function Parse(input: Bytes, cardId: CardId): Option<State> {
    if |input| < 14 || input[..8] != MAGIC || input[8..14] != cardId then None
    else
      match ParseGroups(input[14..], GROUP_CODES)
      case Refused => None
      case Parsed(groups, rest) => if rest == [] then Some(State(cardId, groups)) else None
  }

  // ---------------------------------------------------------------- the codec is a bijection

  lemma KeyRoundTrip(k: Option<WorkKey>, bucket: nat, tail: Bytes)
    requires KeyOk(k, bucket)
    ensures ParseKey(EncodeKey(k) + tail, bucket) == Parsed(k, tail)
  {
    if k.Some? {
      var input := EncodeKey(k) + tail;
      assert input[2..10] == k.value.key && input[10..] == tail;
    }
  }

  lemma {:induction false} KeysRoundTrip(keys: seq<Option<WorkKey>>, bucket: nat, tail: Bytes)
    requires bucket + |keys| == BUCKETS && forall b :: 0 <= b < |keys| ==> KeyOk(keys[b], bucket + b)
    ensures ParseKeys(EncodeKeys(keys) + tail, bucket) == Parsed(keys, tail)
  {
    hide KeyOk, ParseKey, EncodeKey;
    EncodedKeys(keys, tail);
    hide EncodeKeys;
    if |keys| > 0 {
      var more := EncodeKeys(keys[1..]) + tail;
      KeyRoundTrip(keys[0], bucket, more);
      KeysRoundTrip(keys[1..], bucket + 1, tail);
      assert [keys[0]] + keys[1..] == keys;
    }
  }

  lemma EncodedKeys(keys: seq<Option<WorkKey>>, tail: Bytes)
    ensures EncodeKeys(keys) + tail ==
            if |keys| == 0 then tail else EncodeKey(keys[0]) + (EncodeKeys(keys[1..]) + tail)
  {
    hide EncodeKey;
  }

  lemma HeaderFields(code: byte, updated: bool, number: uint16, size: nat)
    requires size <= MAX_MESSAGE
    ensures var h := GroupHeader(code, updated, number, size);
            && h[0] == code && h[1] <= 1 && (h[1] != 0) == updated
            && Be16(h[2], h[3]) == number && Be16(h[4], h[5]) == size
  {
  }

  lemma SliceThree(a: Bytes, b: Bytes, c: Bytes)
    ensures (a + (b + c))[..|a|] == a
    ensures (a + (b + c))[|a|..|a| + |b|] == b
    ensures (a + (b + c))[|a| + |b|..] == c
  {
  }

  lemma EncodedGroup(code: byte, g: Group, tail: Bytes)
    ensures EncodeGroup(code, g) + tail ==
            GroupHeader(code, g.updated, g.number, |g.lastMessage|) + (g.lastMessage + (EncodeKeys(g.keys) + tail))
  {
    hide EncodeKeys, GroupHeader;
  }

  lemma ParsedGroup(input: Bytes, code: byte, size: nat, keys: seq<Option<WorkKey>>, rest: Bytes)
    requires size <= MAX_MESSAGE && 6 + size <= |input| && input[0] == code && input[1] <= 1
    requires Be16(input[4], input[5]) == size && ParseKeys(input[6 + size..], 0) == Parsed(keys, rest)
    ensures ParseGroup(input, code) ==
            Parsed(Group(input[1] != 0, Be16(input[2], input[3]), input[6..6 + size], keys), rest)
  {
    hide ParseKeys, Be16;
  }

  lemma GroupRoundTrip(code: byte, g: Group, tail: Bytes)
    requires GroupOk(g)
    ensures ParseGroup(EncodeGroup(code, g) + tail, code) == Parsed(g, tail)
  {
    KeysRoundTrip(g.keys, 0, tail);
    hide ParseGroup, EncodeGroup, ParseKeys, EncodeKeys, GroupHeader, Be16, KeyOk;
    var size := |g.lastMessage|;
    var header := GroupHeader(code, g.updated, g.number, size);
    var keys := EncodeKeys(g.keys) + tail;
    var input := header + (g.lastMessage + keys);
    EncodedGroup(code, g, tail);
    HeaderFields(code, g.updated, g.number, size);
    SliceThree(header, g.lastMessage, keys);
    FirstSix(header, g.lastMessage + keys);
    ParsedGroup(input, code, size, g.keys, tail);
  }

  lemma FirstSix(header: Bytes, rest: Bytes)
    requires |header| == 6
    ensures var input := header + rest;
            && input[0] == header[0] && input[1] == header[1] && input[2] == header[2] && input[3] == header[3]
            && input[4] == header[4] && input[5] == header[5]
  {
  }

  lemma {:induction false} GroupsRoundTrip(codes: Bytes, groups: seq<Group>, tail: Bytes)
    requires |codes| == |groups| && forall g :: 0 <= g < |groups| ==> GroupOk(groups[g])
    ensures ParseGroups(EncodeGroups(codes, groups) + tail, codes) == Parsed(groups, tail)
  {
    if |groups| > 0 {
      var more := EncodeGroups(codes[1..], groups[1..]) + tail;
      assert EncodeGroups(codes, groups) + tail == EncodeGroup(codes[0], groups[0]) + more;
      GroupRoundTrip(codes[0], groups[0], more);
      GroupsRoundTrip(codes[1..], groups[1..], tail);
      assert [groups[0]] + groups[1..] == groups;
    } else {
      assert EncodeGroups(codes, groups) + tail == tail;
    }
  }

  /** Loading what was committed for this card returns it. */
  lemma LoadOfCommit(s: State)
    requires WellFormed(s)
    ensures Parse(Encode(s), s.cardId) == Some(s)
  {
    var groups := EncodeGroups(GROUP_CODES, s.groups);
    assert Encode(s)[..8] == MAGIC && Encode(s)[8..14] == s.cardId;
    assert Encode(s)[14..] == groups && groups + [] == groups;
    GroupsRoundTrip(GROUP_CODES, s.groups, []);
  }

  lemma KeyCanonical(input: Bytes, bucket: nat)
    requires ParseKey(input, bucket).Parsed?
    ensures var p := ParseKey(input, bucket); KeyOk(p.value, bucket) && EncodeKey(p.value) + p.rest == input
  {
  }

  lemma {:induction false} KeysCanonical(input: Bytes, bucket: nat)
    requires bucket <= BUCKETS && ParseKeys(input, bucket).Parsed?
    ensures var p := ParseKeys(input, bucket);
            && |p.value| == BUCKETS - bucket
            && (forall b :: 0 <= b < |p.value| ==> KeyOk(p.value[b], bucket + b))
            && EncodeKeys(p.value) + p.rest == input
    decreases BUCKETS - bucket
  {
    hide KeyOk, ParseKey, EncodeKey;
    if bucket < BUCKETS {
      KeyCanonical(input, bucket);
      var first := ParseKey(input, bucket);
      KeysCanonical(first.rest, bucket + 1);
      var later, all := ParseKeys(first.rest, bucket + 1), ParseKeys(input, bucket);
      assert all.value[1..] == later.value;
      JoinThree(EncodeKey(first.value), EncodeKeys(later.value), later.rest);
    }
  }

  lemma HeaderCanonical(input: Bytes, code: byte)
    requires |input| >= 6 && input[0] == code && input[1] <= 1
    ensures GroupHeader(code, input[1] != 0, Be16(input[2], input[3]), Be16(input[4], input[5])) == input[..6]
  {
  }

  lemma GroupCanonical(input: Bytes, code: byte)
    requires ParseGroup(input, code).Parsed?
    ensures var p := ParseGroup(input, code); GroupOk(p.value) && EncodeGroup(code, p.value) + p.rest == input
  {
    hide ParseKeys, EncodeKeys, GroupHeader, KeyOk, Be16;
    var size := Be16(input[4], input[5]);
    var p := ParseGroup(input, code);
    HeaderCanonical(input, code);
    KeysCanonical(input[6 + size..], 0);
    GroupOfParts(input, size, EncodeKeys(p.value.keys), p.rest);
  }

  lemma GroupOfParts(input: Bytes, size: nat, keys: Bytes, rest: Bytes)
    requires 6 + size <= |input| && keys + rest == input[6 + size..]
    ensures (input[..6] + (input[6..6 + size] + keys)) + rest == input
  {
    JoinFour(input[..6], input[6..6 + size], keys, rest);
    assert input[6..6 + size] + input[6 + size..] == input[6..];
  }

  lemma JoinFour(a: Bytes, b: Bytes, c: Bytes, d: Bytes)
    ensures (a + (b + c)) + d == a + (b + (c + d))
  {
  }

  lemma {:induction false} GroupsCanonical(input: Bytes, codes: Bytes)
    requires ParseGroups(input, codes).Parsed?
    ensures var p := ParseGroups(input, codes);
            && |p.value| == |codes|
            && (forall g :: 0 <= g < |p.value| ==> GroupOk(p.value[g]))
            && EncodeGroups(codes, p.value) + p.rest == input
    decreases |codes|
  {
    if |codes| > 0 {
      GroupCanonical(input, codes[0]);
      var first := ParseGroup(input, codes[0]);
      GroupsCanonical(first.rest, codes[1..]);
      var later, all := ParseGroups(first.rest, codes[1..]), ParseGroups(input, codes);
      assert all.value[1..] == later.value;
      JoinThree(EncodeGroup(codes[0], first.value), EncodeGroups(codes[1..], later.value), later.rest);
    }
  }

  /** Any file that loads is the one encoding of the state it loads as; other cards' files do not load. */
  lemma CommitOfLoad(input: Bytes, cardId: CardId)
    requires Parse(input, cardId).Some?
    ensures var s := Parse(input, cardId).value;
            WellFormed(s) && s.cardId == cardId && Encode(s) == input
  {
    hide ParseGroups, EncodeGroups, GroupOk;
    GroupsCanonical(input[14..], GROUP_CODES);
    var groups := ParseGroups(input[14..], GROUP_CODES).value;
    assert EncodeGroups(GROUP_CODES, groups) + [] == EncodeGroups(GROUP_CODES, groups);
    assert input == input[..8] + input[8..14] + input[14..];
  }

  lemma {:induction false} KeysSize(keys: seq<Option<WorkKey>>)
    ensures |EncodeKeys(keys)| <= 10 * |keys|
  {
    if |keys| > 0 { KeysSize(keys[1..]); }
  }

  lemma {:induction false} GroupsSize(codes: Bytes, groups: seq<Group>)
    requires |codes| == |groups| && forall g :: 0 <= g < |groups| ==> GroupOk(groups[g])
    ensures |EncodeGroups(codes, groups)| <= 362 * |groups|
  {
    if |groups| > 0 {
      KeysSize(groups[0].keys);
      GroupsSize(codes[1..], groups[1..]);
    }
  }

  /** An encoded state is far below the size limit, so the limit never refuses one. */
  lemma EncodedSize(s: State)
    requires WellFormed(s)
    ensures |Encode(s)| <= 2186 < MAX_STATE_SIZE
  {
    GroupsSize(GROUP_CODES, s.groups);
  }

  // ---------------------------------------------------------------- the loops

  lemma {:induction false} EncodeKeysAppend(keys: seq<Option<WorkKey>>, k: Option<WorkKey>)
    ensures EncodeKeys(keys + [k]) == EncodeKeys(keys) + EncodeKey(k)
  {
    if |keys| == 0 {
      assert keys + [k] == [k] && [k][1..] == [];
      assert EncodeKeys([k]) == EncodeKey(k) + EncodeKeys([]);
    } else {
      assert (keys + [k])[1..] == keys[1..] + [k];
      EncodeKeysAppend(keys[1..], k);
    }
  }

  lemma {:induction false} EncodeGroupsAppend(codes: Bytes, groups: seq<Group>, code: byte, g: Group)
    requires |codes| == |groups|
    ensures EncodeGroups(codes + [code], groups + [g]) == EncodeGroups(codes, groups) + EncodeGroup(code, g)
  {
    if |groups| == 0 {
      assert groups + [g] == [g] && codes + [code] == [code];
      assert EncodeGroups([code], [g]) == EncodeGroup(code, g) + EncodeGroups([], []);
    } else {
      assert (groups + [g])[1..] == groups[1..] + [g] && (codes + [code])[1..] == codes[1..] + [code];
      EncodeGroupsAppend(codes[1..], groups[1..], code, g);
    }
  }

  method AppendBytes(output: Bytes, data: Bytes) returns (r: Option<Bytes>)
    ensures r == if |output| + |data| <= MAX_STATE_SIZE then Some(output + data) else None
  {
    if |data| > MAX_STATE_SIZE || |output| > MAX_STATE_SIZE - |data| { return None; }
    return Some(output + data);
  }

  method CommitKey(start: Bytes, k: Option<WorkKey>, bucket: nat) returns (r: Option<Bytes>)
    requires |start| + 10 <= MAX_STATE_SIZE
    ensures r == if KeyOk(k, bucket) then Some(start + EncodeKey(k)) else None
  {
    var output := start + [if k.Some? then 1 else 0];
    if k.None? { return Some(output); }
    if k.value.id == 0xff || k.value.id % BUCKETS != bucket { return None; }
    output := output + [k.value.id];
    r := AppendBytes(output, k.value.key);
    assert output + k.value.key == start + ([1, k.value.id] + k.value.key);
  }

  lemma NoKeys(start: Bytes, keys: seq<Option<WorkKey>>)
    ensures start + EncodeKeys(keys[..0]) == start
  {
  }

  lemma CommittedKeys(start: Bytes, keys: seq<Option<WorkKey>>, bucket: nat)
    requires bucket < |keys|
    ensures start + EncodeKeys(keys[..bucket + 1]) == start + EncodeKeys(keys[..bucket]) + EncodeKey(keys[bucket])
    ensures |EncodeKey(keys[bucket])| <= 10
  {
    EncodeKeysAppend(keys[..bucket], keys[bucket]);
    assert keys[..bucket] + [keys[bucket]] == keys[..bucket + 1];
    hide EncodeKeys;
    JoinThree(start, EncodeKeys(keys[..bucket]), EncodeKey(keys[bucket]));
  }

  /** The keys of one group: refused when one is out of its bucket. */
  method CommitKeys(start: Bytes, keys: seq<Option<WorkKey>>) returns (r: Option<Bytes>)
    requires |keys| == BUCKETS && |start| + 10 * BUCKETS <= MAX_STATE_SIZE
    ensures r == if KeysOk(keys) then Some(start + EncodeKeys(keys)) else None
  {
    hide EncodeKeys, EncodeKey, KeyOk;
    var output, bucket := start, 0;
    NoKeys(start, keys);
    while bucket < |keys|
      invariant 0 <= bucket <= |keys|
      invariant forall b :: 0 <= b < bucket ==> KeyOk(keys[b], b)
      invariant output == start + EncodeKeys(keys[..bucket]) && |output| <= |start| + 10 * bucket
    {
      var next := CommitKey(output, keys[bucket], bucket);
      if next.None? { return None; }
      CommittedKeys(start, keys, bucket);
      output, bucket := next.value, bucket + 1;
    }
    assert keys[..bucket] == keys;
    return Some(output);
  }

  /** One group: refused when its message is too long or a key is out of its bucket. */
  method CommitGroup(start: Bytes, code: byte, entry: Group) returns (r: Option<Bytes>)
    requires |entry.keys| == BUCKETS && |start| + 362 <= MAX_STATE_SIZE
    ensures r == if GroupOk(entry) then Some(start + EncodeGroup(code, entry)) else None
  {
    var size := |entry.lastMessage|;
    var output := start + [code, if entry.updated then 1 else 0, entry.number / 0x100, entry.number % 0x100];
    if size > MAX_MESSAGE { return None; }
    output := output + [size / 0x100, size % 0x100];
    HeaderCommitted(start, output, code, entry.updated, entry.number, size);
    var appended := AppendBytes(output, entry.lastMessage);
    if appended.None? { return None; }
    r := CommitKeys(appended.value, entry.keys);
    JoinFour(start, GroupHeader(code, entry.updated, entry.number, size), entry.lastMessage, EncodeKeys(entry.keys));
    JoinThree(start, GroupHeader(code, entry.updated, entry.number, size), entry.lastMessage);
  }

  lemma HeaderCommitted(start: Bytes, output: Bytes, code: byte, updated: bool, number: uint16, size: nat)
    requires size <= MAX_MESSAGE
    requires output == start + [code, if updated then 1 else 0, number / 0x100, number % 0x100] + [size / 0x100, size % 0x100]
    ensures output == start + GroupHeader(code, updated, number, size)
  {
  }

  lemma JoinThree(a: Bytes, b: Bytes, c: Bytes)
    ensures (a + b) + c == a + (b + c)
  {
  }

  ghost predicate GroupsOk(groups: seq<Group>) {
    forall g :: 0 <= g < |groups| ==> GroupOk(groups[g])
  }

  lemma NoGroups(start: Bytes, codes: Bytes, groups: seq<Group>)
    requires |codes| == |groups|
    ensures start + EncodeGroups(codes[..0], groups[..0]) == start
  {
  }

  lemma GroupSize(code: byte, g: Group)
    requires GroupOk(g)
    ensures |EncodeGroup(code, g)| <= 362
  {
    KeysSize(g.keys);
    hide EncodeKeys;
  }

  lemma CommittedGroups(start: Bytes, codes: Bytes, groups: seq<Group>, g: nat)
    requires g < |codes| == |groups| && GroupOk(groups[g])
    ensures start + EncodeGroups(codes[..g + 1], groups[..g + 1]) ==
            start + EncodeGroups(codes[..g], groups[..g]) + EncodeGroup(codes[g], groups[g])
    ensures |EncodeGroup(codes[g], groups[g])| <= 362
  {
    hide EncodeGroups, EncodeGroup, GroupOk;
    GroupSize(codes[g], groups[g]);
    EncodeGroupsAppend(codes[..g], groups[..g], codes[g], groups[g]);
    assert codes[..g] + [codes[g]] == codes[..g + 1];
    assert groups[..g] + [groups[g]] == groups[..g + 1];
    JoinThree(start, EncodeGroups(codes[..g], groups[..g]), EncodeGroup(codes[g], groups[g]));
  }

  method CommitGroups(start: Bytes, codes: Bytes, groups: seq<Group>) returns (r: Option<Bytes>)
    requires |codes| == |groups| && forall g :: 0 <= g < |groups| ==> |groups[g].keys| == BUCKETS
    requires |start| + 362 * |groups| <= MAX_STATE_SIZE
    ensures r == if GroupsOk(groups) then Some(start + EncodeGroups(codes, groups)) else None
  {
    hide EncodeGroups, EncodeGroup, GroupOk;
    var output, g := start, 0;
    NoGroups(start, codes, groups);
    while g < |groups|
      invariant 0 <= g <= |groups|
      invariant GroupsOk(groups[..g])
      invariant output == start + EncodeGroups(codes[..g], groups[..g]) && |output| <= |start| + 362 * g
    {
      var next := CommitGroup(output, codes[g], groups[g]);
      if next.None? { return None; }
      CommittedGroups(start, codes, groups, g);
      output, g := next.value, g + 1;
    }
    assert codes[..g] == codes && groups[..g] == groups;
    return Some(output);
  }

  /** The bytes a commit writes; nothing is written for a state that is not well formed. */
  method CommitBytes(s: State) returns (r: Option<Bytes>)
    requires |s.groups| == |GROUP_CODES| && forall g :: 0 <= g < |s.groups| ==> |s.groups[g].keys| == BUCKETS
    ensures r == if WellFormed(s) then Some(Encode(s)) else None
  {
    var output := MAGIC + s.cardId;
    r := CommitGroups(output, GROUP_CODES, s.groups);
    if r.None? { return; }
    EncodedSize(s);
    if |r.value| > MAX_STATE_SIZE { return None; }
  }

  lemma KeyAt(input: Bytes, p: nat, bucket: nat)
    requires p <= |input|
    ensures ParseKey(input[p..], bucket) ==
            if p == |input| || input[p] > 1 then Refused
            else if input[p] == 0 then Parsed(None, input[p + 1..])
            else if |input| - p < 10 || input[p + 1] == 0xff || input[p + 1] % BUCKETS != bucket then Refused
            else Parsed(Some(WorkKey(input[p + 1], input[p + 2..p + 10])), input[p + 10..])
  {
    assert p < |input| ==> input[p..][1..] == input[p + 1..];
    assert p + 10 <= |input| ==> input[p..][2..10] == input[p + 2..p + 10] && input[p..][10..] == input[p + 10..];
  }

  /** One key more is done, or the whole is refused. */
  lemma KeysStep(whole: Parsed<seq<Option<WorkKey>>>, input: Bytes, keys: seq<Option<WorkKey>>)
    requires |keys| < BUCKETS && whole == Prepend(keys, ParseKeys(input, |keys|))
    ensures ParseKey(input, |keys|).Refused? ==> whole.Refused?
    ensures ParseKey(input, |keys|).Parsed? ==>
              var k := ParseKey(input, |keys|); whole == Prepend(keys + [k.value], ParseKeys(k.rest, |keys| + 1))
  {
    hide ParseKey;
    var k := ParseKey(input, |keys|);
    if k.Parsed? {
      PrependTwice(keys, k.value, ParseKeys(k.rest, |keys| + 1));
    }
  }

  lemma KeysEnd(input: Bytes)
    ensures ParseKeys(input, BUCKETS) == Parsed([], input)
  {
  }

  /** The key loop of one group, from cursor `start`; the cursor never passes the end. */
  method LoadKeys(input: Bytes, start: nat) returns (ok: bool, keys: seq<Option<WorkKey>>, p: nat)
    requires start <= |input|
    ensures ok == ParseKeys(input[start..], 0).Parsed?
    ensures ok ==> p <= |input| && ParseKeys(input[start..], 0) == Parsed(keys, input[p..])
  {
    hide ParseKeys, ParseKey, Prepend;
    keys, p := [], start;
    ghost var whole := ParseKeys(input[start..], 0);
    PrependUnit([], whole, []);
    while |keys| < BUCKETS
      invariant |keys| <= BUCKETS && p <= |input|
      invariant whole == Prepend(keys, ParseKeys(input[p..], |keys|))
      decreases BUCKETS - |keys|
    {
      KeyAt(input, p, |keys|);
      KeysStep(whole, input[p..], keys);
      if p >= |input| || input[p] > 1 { return false, [], p; }
      if input[p] == 0 {
        p, keys := p + 1, keys + [None];
        continue;
      }
      if |input| - p < 10 || input[p + 1] == 0xff || input[p + 1] % BUCKETS != |keys| { return false, [], p; }
      var k := Some(WorkKey(input[p + 1], input[p + 2..p + 10]));
      p, keys := p + 10, keys + [k];
    }
    KeysEnd(input[p..]);
    PrependUnit(keys, whole, input[p..]);
    return true, keys, p;
  }

  /** The group at `p`, read with positions in the whole input. */
  lemma GroupAt(input: Bytes, p: nat, code: byte)
    requires p <= |input|
    ensures ParseGroup(input[p..], code) ==
            if |input| - p < 6 || input[p] != code || input[p + 1] > 1 then Refused
            else
              var size := Be16(input[p + 4], input[p + 5]);
              if size > MAX_MESSAGE || |input| - p - 6 < size then Refused
              else match ParseKeys(input[p + 6 + size..], 0)
                case Refused => Refused
                case Parsed(keys, rest) =>
                  Parsed(Group(input[p + 1] != 0, Be16(input[p + 2], input[p + 3]), input[p + 6..p + 6 + size], keys), rest)
  {
    hide ParseKeys, Be16;
    if |input| - p >= 6 {
      var size := Be16(input[p + 4], input[p + 5]);
      if size <= |input| - p - 6 {
        assert input[p..][6 + size..] == input[p + 6 + size..] && input[p..][6..6 + size] == input[p + 6..p + 6 + size];
      }
    }
  }

  /** One group, from cursor `p`. */
  method LoadGroup(input: Bytes, p: nat, code: byte) returns (ok: bool, g: Group, next: nat)
    requires p <= |input|
    ensures ok == ParseGroup(input[p..], code).Parsed?
    ensures ok ==> next <= |input| && ParseGroup(input[p..], code) == Parsed(g, input[next..])
  {
    hide ParseGroup, ParseKeys, Be16;
    GroupAt(input, p, code);
    g, next := BlankGroup(), p;
    ok := false;
    if |input| - p < 6 || input[p] != code || input[p + 1] > 1 { return; }
    var size := Be16(input[p + 4], input[p + 5]);
    if size > MAX_MESSAGE || |input| - p - 6 < size { return; }
    var keys;
    ok, keys, next := LoadKeys(input, p + 6 + size);
    g := Group(input[p + 1] != 0, Be16(input[p + 2], input[p + 3]), input[p + 6..p + 6 + size], keys);
  }

  /** The parser of a load, with its single cursor. */
  method LoadBytes(input: Bytes, cardId: CardId) returns (r: Option<State>)
    ensures r == Parse(input, cardId)
  {
    if |input| < 14 || input[..8] != MAGIC || input[8..14] != cardId { return None; }
    var p, groups, codes := 14, [], GROUP_CODES;
    ghost var whole := ParseGroups(input[14..], codes);
    PrependUnit([], whole, []);
    while |codes| > 0
      invariant 14 <= p <= |input|
      invariant whole == Prepend(groups, ParseGroups(input[p..], codes))
      decreases |codes|
    {
      var ok, g, next := LoadGroup(input, p, codes[0]);
      if !ok { return None; }
      PrependTwice(groups, g, ParseGroups(input[next..], codes[1..]));
      p, groups, codes := next, groups + [g], codes[1..];
    }
    PrependUnit(groups, whole, input[p..]);
    if p != |input| { return None; }
    return Some(State(cardId, groups));
  }
}
