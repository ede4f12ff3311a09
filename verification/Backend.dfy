/**
 The backend that accepts work-key messages, keeps them on disk and publishes decoded keys.

 One mutex serialises the backend's operations, while sessions open and close slots beside them
 and the process or the machine may stop at any step. `Step` is one such step. The cipher is
 foreign code: `Cipher` says what its calls return, `CipherOk` what is assumed of them.
*/
module Backend {
  import opened Basics
  import opened KeyCells
  import opened StateCodec
  import R = KeyRegistry

  const GROUPS: nat := 6

  /** The work keys of one group, by key id. */
  type GroupKeys = map<byte, Key>

  /** What a decoder call returns: the plain text, or one of the error numbers it knows. */
  datatype Decoded<+T> = Plain(value: T) | Invalid | Garbled | NoKey | NoMessage | OtherError

  /** The card and the key table that the credential file gives, and the foreign functions. */
  datatype Cipher = Cipher(
    cardId: CardId,
    base: seq<GroupKeys>,
    decodeEcm: (Bytes, GroupKeys) -> Decoded<Secret>,
    decodeEmm: (Bytes, bool) -> Decoded<Bytes>,
    register: (GroupKeys, byte, Key) -> Option<GroupKeys>)

  predicate SameBucket(x: byte, y: byte) {
    x % BUCKETS == y % BUCKETS
  }

  /** Registering a key adds it, leaves other buckets alone, and may forget older keys of its bucket. */
  ghost predicate RegisterOk(m: GroupKeys, id: byte, key: Key, r: Option<GroupKeys>) {
    r.Some? ==>
      && id in r.value && r.value[id] == key
      && (forall x :: x in r.value && x != id ==> x in m && r.value[x] == m[x])
      && (forall x :: x in m && !SameBucket(x, id) ==> x in r.value)
  }

  ghost predicate CipherOk(c: Cipher) {
    && |c.base| == GROUPS
    && (forall m, id, key :: RegisterOk(m, id, key, c.register(m, id, key)))
    && (forall message, individual :: c.decodeEmm(message, individual).Plain? ==>
          |c.decodeEmm(message, individual).value| == 256)
  }

  function DecodeResult<T>(d: Decoded<T>): Result {
    match d
    case Plain(_) => Ok
    case Invalid => BadValue
    case Garbled => Decrypt
    case NoKey => NoLicense
    case _ => Unknown
  }

  /** The index of a group code, or the number of groups when the code is not served. */
  function GroupIndex(code: byte): (g: nat)
    ensures g <= GROUPS
    ensures g < GROUPS ==> GROUP_CODES[g] == code
    ensures g == GROUPS ==> code !in GROUP_CODES
  {
    if code == 0x02 then 0 else if code == 0x03 then 1 else if code == 0x17 then 2
    else if code == 0x1d then 3 else if code == 0x1e then 4 else if code == 0x20 then 5 else 6
  }

  /** No protocol bit outside 0x4c is set. */
  predicate ProtocolSupported(protocol: byte) {
    protocol / 0x80 == 0 && protocol / 0x10 % 4 == 0 && protocol % 4 == 0
  }

  // ---------------------------------------------------------------- accepting a message

  datatype NewKey = NewKey(id: byte, key: Key, duplicate: bool)

  datatype Update = Update(g: nat, number: uint16, message: Bytes, keys: seq<NewKey>)

  /** A newer id in the bucket, or another key under the same id. */
  ghost predicate Clashes(m: GroupKeys, id: byte, key: Key) {
    exists x :: x in m && x < 0xff && SameBucket(x, id) && (x > id || (x == id && m[x] != key))
  }

  datatype Outcome = Fail(code: Result) | Updates(keys: seq<NewKey>)

  function Cons(k: NewKey, rest: Outcome): Outcome {
    if rest.Fail? then rest else Updates([k] + rest.keys)
  }

  /** The key entries of a plain message between `p` and `end`. */
  ghost function ReadKeys(plain: Bytes, p: nat, end: nat, m: GroupKeys, taken: set<nat>): Outcome
    requires end <= |plain|
    decreases end - p
  {
    if p >= end then Updates([])
    else if end - p < 2 then Fail(BadValue)
    else if plain[p + 1] > end - p - 2 then Fail(BadValue)
    else if plain[p] != 0x10 then Fail(Unsupported)
    else if plain[p + 1] != 9 || plain[p + 2] == 0xff || plain[p + 2] % BUCKETS in taken then Fail(BadValue)
    else
      var id, key := plain[p + 2], plain[p + 3..p + 11];
      if Clashes(m, id, key) then Fail(InvalidState)
      else Cons(NewKey(id, key, id in m), ReadKeys(plain, p + 11, end, m, taken + {id % BUCKETS}))
  }

  /** A message for this card either is settled at once with a code, or asks for an update. */
  datatype Verdict = Settle(code: Result) | Accept(u: Update)

  ghost function Judge(c: Cipher, s: State, tables: seq<GroupKeys>, message: Bytes, individual: bool): (v: Verdict)
    requires CipherOk(c) && |s.groups| == |tables| == GROUPS && 17 <= |message| <= 256
    ensures v.Accept? ==> v.u.g < GROUPS
  {
    if message[..6] != c.cardId then Settle(Ok)
    else
      var protocol := message[if individual then 8 else 7];
      if !ProtocolSupported(protocol) && !(individual && protocol == 0xff) then Settle(Unsupported)
      else
        var decoded := c.decodeEmm(message, individual);
        if decoded.NoMessage? then Settle(Ok)
        else if !decoded.Plain? then Settle(DecodeResult(decoded))
        else if individual then Settle(Unsupported)
        else JudgePlain(c, s, tables, message, decoded.value)
  }

  ghost function JudgePlain(c: Cipher, s: State, tables: seq<GroupKeys>, message: Bytes, plain: Bytes): (v: Verdict)
    requires |s.groups| == |tables| == GROUPS && 17 <= |message| <= 256 && |plain| == 256
    ensures v.Accept? ==> v.u.g < GROUPS
  {
    if plain[..6] != c.cardId || plain[6] as int + 7 != |message| then Settle(BadValue)
    else
      var g := GroupIndex(plain[8]);
      if g == GROUPS then Settle(Unsupported)
      else
        var number := Be16(plain[9], plain[10]);
        if s.groups[g].updated && number <= s.groups[g].number then
          Settle(if number == s.groups[g].number && s.groups[g].lastMessage == message then Ok else InvalidState)
        else
          var keys := ReadKeys(plain, 13, |message| - 4, tables[g], {});
          if keys.Fail? then Settle(keys.code)
          else if keys.keys == [] then Settle(Unsupported)
          else Accept(Update(g, number, message, keys.keys))
  }

  function KeysAfter(keys: seq<Option<WorkKey>>, more: seq<NewKey>): (r: seq<Option<WorkKey>>)
    requires |keys| == BUCKETS
    ensures |r| == BUCKETS
  {
    if more == [] then keys
    else
      var last := more[|more| - 1];
      KeysAfter(keys, more[..|more| - 1])[last.id % BUCKETS := Some(WorkKey(last.id, last.key))]
  }

  predicate Shaped(s: State) {
    |s.groups| == GROUPS && forall g :: 0 <= g < |s.groups| ==> |s.groups[g].keys| == BUCKETS
  }

  function Next(s: State, u: Update): (t: State)
    requires Shaped(s) && u.g < GROUPS
    ensures Shaped(t)
  {
    s.(groups := s.groups[u.g := Group(true, u.number, u.message, KeysAfter(s.groups[u.g].keys, u.keys))])
  }

  // ---------------------------------------------------------------- restoring

  datatype Restored = Tables(tables: seq<GroupKeys>) | KeyClash | RegisterFailed

  /** One saved key: kept if the table has it, registered if the table has nothing newer. */
  ghost function RestoreKey(c: Cipher, m: GroupKeys, saved: Option<WorkKey>): (r: Option<Option<GroupKeys>>) {
    if saved.None? then Some(Some(m))
    else if Clashes(m, saved.value.id, saved.value.key) then None
    else if saved.value.id in m then Some(Some(m))
    else Some(c.register(m, saved.value.id, saved.value.key))
  }

  datatype RestoredGroup = Table(m: GroupKeys) | GroupClash | GroupRegisterFailed

  ghost function RestoreGroup(c: Cipher, m: GroupKeys, keys: seq<Option<WorkKey>>): RestoredGroup
    decreases |keys|
  {
    if keys == [] then Table(m)
    else
      match RestoreKey(c, m, keys[0])
      case None => GroupClash
      case Some(None) => GroupRegisterFailed
      case Some(Some(next)) => RestoreGroup(c, next, keys[1..])
  }

  ghost function RestoreGroups(c: Cipher, base: seq<GroupKeys>, groups: seq<Group>): Restored
    requires |base| == |groups|
  {
    if groups == [] then Tables([])
    else
      match RestoreGroup(c, base[0], groups[0].keys)
      case GroupClash => KeyClash
      case GroupRegisterFailed => RegisterFailed
      case Table(m) =>
        match RestoreGroups(c, base[1..], groups[1..])
        case Tables(tables) => Tables([m] + tables)
        case other => other
  }

  // ---------------------------------------------------------------- steps

  datatype Phase =
    | Free
    | Publishing(slot: R.SlotId, keys: Secret, payload: Bytes)
    | Committing(u: Update)
    | Renamed(u: Update)
    | Registering(u: Update, i: nat)
    | Invalidating(g: nat)

  /** `visible` is the state file now, `durable` what survives a power cut.
      `log` lists the updates whose commit reached the file, `synced` how many of them are durable. */
  datatype Sys = Sys(
    initialized: bool, revoked: bool, state: State, tables: seq<GroupKeys>, registry: R.Registry, phase: Phase,
    visible: Option<Bytes>, durable: Option<Bytes>, log: seq<Update>, synced: nat)

  /** The credential file: absent, lost while it was being read, or loaded. */
  datatype Credential = Absent | Unreadable | Loaded

  datatype Action =
    | Initialize(credential: Credential, readable: bool)
    | DecodeEcm(slot: R.SlotId, payload: Bytes)
    | PublishKeys
    | Receive(message: Bytes, individual: bool)
    | CommitUnchanged
    | Rename
    | Sync
    | SyncFailed
    | RegisterNext
    | Invalidate
    | Session(a: R.Action)
    | ProcessDeath
    | PowerCut(renameKept: bool)

  function Initial(c: Cipher): Sys {
    Sys(false, false, Blank(c.cardId), c.base, R.Empty(), Free, None, None, [], 0)
  }

  predicate Working(s: Sys) {
    s.initialized && !s.revoked && s.phase.Free?
  }

  /** Sessions open, close and drop slots; keys and revocation only come from the backend. */
  ghost predicate SessionAllowed(s: Sys, a: R.Action) {
    && (a.OpenSlot? || a.CloseSlot? || a.DropSlot?)
    && R.Enabled(s.registry, a)
    && !(a.DropSlot? && s.phase.Publishing? && s.phase.slot == a.id)
  }

  ghost predicate Enabled(c: Cipher, s: Sys, a: Action) {
    match a
    case Initialize(_, _) => !s.initialized && !s.revoked && s.phase.Free?
    case DecodeEcm(slot, payload) =>
      Working(s) && R.Known(s.registry, slot) && s.registry.arena[slot].held && 30 <= |payload| <= 256
    case PublishKeys => s.phase.Publishing?
    case Receive(message, individual) =>
      Working(s) && (if individual then 25 else 17) <= |message| <= 256
    case CommitUnchanged => s.phase.Committing?
    case Rename => s.phase.Committing?
    case Sync => s.phase.Renamed?
    case SyncFailed => s.phase.Renamed?
    case RegisterNext => s.phase.Registering?
    case Invalidate => s.phase.Invalidating?
    case Session(b) => SessionAllowed(s, b)
    case ProcessDeath => true
    case PowerCut(_) => true
  }

  /** No key can be read and none will be published before a restart. */
  ghost function FailClosed(s: Sys): Sys {
    s.(revoked := true, registry := R.AfterRevokeAll(s.registry), phase := Free)
  }

  ghost function Restart(c: Cipher, s: Sys): Sys {
    Initial(c).(visible := s.visible, durable := s.durable, log := s.log, synced := s.synced)
  }

  /** What a load finds in an existing file. */
  function LoadFile(file: Bytes, cardId: CardId, readable: bool): (r: Option<State>)
    ensures r.Some? ==> |r.value.groups| == GROUPS
  {
    if !readable || |file| == 0 || |file| > MAX_STATE_SIZE then None
    else if Parse(file, cardId).None? then None
    else
      CommitOfLoad(file, cardId);
      Parse(file, cardId)
  }

  /** The state and key table that an existing file leads to, if it loads and registers. */
  ghost function Recovered(c: Cipher, file: Bytes, readable: bool): Option<(State, seq<GroupKeys>)>
    requires |c.base| == GROUPS
  {
    var loaded := LoadFile(file, c.cardId, readable);
    if loaded.None? then None
    else
      match RestoreGroups(c, c.base, loaded.value.groups)
      case Tables(tables) => Some((loaded.value, tables))
      case _ => None
  }

  ghost function AfterInitialize(c: Cipher, s: Sys, credential: Credential, readable: bool): Sys
    requires |c.base| == GROUPS
  {
    match credential
    case Absent => s
    case Unreadable => FailClosed(s)
    case Loaded =>
      if s.visible.None? then s.(initialized := true, state := Blank(c.cardId), tables := c.base)
      else
        match Recovered(c, s.visible.value, readable)
        case None => FailClosed(s)
        case Some((state, tables)) => s.(initialized := true, state := state, tables := tables)
  }

  ghost function AfterDecode(c: Cipher, s: Sys, slot: R.SlotId, payload: Bytes): Sys
    requires |s.tables| == GROUPS && |payload| >= 2
  {
    var g := GroupIndex(payload[1]);
    if g == GROUPS || !ProtocolSupported(payload[0]) then s
    else
      var decoded := c.decodeEcm(payload, s.tables[g]);
      if decoded.Plain? then s.(phase := Publishing(slot, decoded.value, payload)) else s
  }

  ghost function AfterReceive(c: Cipher, s: Sys, message: Bytes, individual: bool): Sys
    requires CipherOk(c) && |s.state.groups| == |s.tables| == GROUPS && 17 <= |message| <= 256
  {
    var v := Judge(c, s.state, s.tables, message, individual);
    if v.Accept? then s.(phase := Committing(v.u)) else s
  }

  /** The commit refuses a state it cannot encode; otherwise the new file takes the old one's place. */
  ghost function AfterRename(s: Sys): Sys
    requires s.phase.Committing? && s.phase.u.g < GROUPS && Shaped(s.state)
  {
    var next := Next(s.state, s.phase.u);
    if !WellFormed(next) then s.(phase := Free)
    else s.(phase := Renamed(s.phase.u), visible := Some(Encode(next)), log := s.log + [s.phase.u])
  }

  ghost function AfterRegister(c: Cipher, s: Sys): Sys
    requires s.phase.Registering? && s.phase.u.g < GROUPS == |s.tables| && Shaped(s.state)
  {
    var u, i := s.phase.u, s.phase.i;
    if i >= |u.keys| then s.(state := Next(s.state, u), phase := Invalidating(u.g))
    else if u.keys[i].duplicate then s.(phase := Registering(u, i + 1))
    else
      match c.register(s.tables[u.g], u.keys[i].id, u.keys[i].key)
      case None => FailClosed(s)
      case Some(m) => s.(tables := s.tables[u.g := m], phase := Registering(u, i + 1))
  }

  function AfterPublish(s: Sys): Sys
    requires Typed(s) && s.phase.Publishing?
  {
    var p := s.phase;
    s.(registry := R.AfterUpdate(s.registry, p.slot, p.keys, p.payload[1]), phase := Free)
  }

  function AfterSync(s: Sys): Sys
    requires s.phase.Renamed?
  {
    s.(phase := Registering(s.phase.u, 0), durable := s.visible, synced := |s.log|)
  }

  ghost function AfterInvalidate(s: Sys): Sys
    requires Typed(s) && s.phase.Invalidating?
  {
    s.(registry := R.AfterInvalidateGroup(s.registry, GROUP_CODES[s.phase.g]), phase := Free)
  }

  /** Indices are in range; part of the invariant, so no run is cut short by it. */
  predicate Typed(s: Sys) {
    && |s.tables| == GROUPS && Shaped(s.state) && s.synced <= |s.log|
    && match s.phase
       case Free => true
       case Publishing(slot, _, payload) => R.Known(s.registry, slot) && |payload| >= 2
       case Committing(u) => u.g < GROUPS
       case Renamed(u) => u.g < GROUPS
       case Registering(u, _) => u.g < GROUPS
       case Invalidating(g) => g < GROUPS
  }

  ghost function Step(c: Cipher, s: Sys, a: Action): Sys
    requires CipherOk(c) && Typed(s) && Enabled(c, s, a)
  {
    match a
    case Initialize(credential, readable) => AfterInitialize(c, s, credential, readable)
    case DecodeEcm(slot, payload) => AfterDecode(c, s, slot, payload)
    case PublishKeys => AfterPublish(s)
    case Receive(message, individual) => AfterReceive(c, s, message, individual)
    case CommitUnchanged => s.(phase := Free)
    case Rename => AfterRename(s)
    case Sync => AfterSync(s)
    case SyncFailed => FailClosed(s)
    case RegisterNext => AfterRegister(c, s)
    case Invalidate => AfterInvalidate(s)
    case Session(b) => s.(registry := R.Apply(s.registry, b))
    case ProcessDeath => Restart(c, s)
    case PowerCut(renameKept) =>
      if renameKept then Restart(c, s).(durable := s.visible, synced := |s.log|)
      else Restart(c, s).(visible := s.durable, log := s.log[..s.synced])
  }

  // ---------------------------------------------------------------- invariant: the file

  predicate UpdateOk(u: Update) {
    && u.g < GROUPS && 0 < |u.keys| && |u.message| <= MAX_MESSAGE
    && forall k :: 0 <= k < |u.keys| ==> u.keys[k].id != 0xff
  }

  predicate LogOk(log: seq<Update>) {
    forall k :: 0 <= k < |log| ==> UpdateOk(log[k])
  }

  /** The state that a list of accepted updates leads to. */
  function Replay(c: Cipher, log: seq<Update>): (s: State)
    requires LogOk(log)
    ensures Shaped(s)
  {
    if log == [] then Blank(c.cardId) else Next(Replay(c, log[..|log| - 1]), log[|log| - 1])
  }

  lemma {:induction false} KeysAfterOk(keys: seq<Option<WorkKey>>, more: seq<NewKey>)
    requires KeysOk(keys) && forall k :: 0 <= k < |more| ==> more[k].id != 0xff
    ensures KeysOk(KeysAfter(keys, more))
  {
    if more != [] {
      KeysAfterOk(keys, more[..|more| - 1]);
    }
  }

  lemma NextOk(s: State, u: Update)
    requires Shaped(s) && WellFormed(s) && UpdateOk(u)
    ensures WellFormed(Next(s, u)) && Next(s, u).cardId == s.cardId
  {
    assert GroupOk(s.groups[u.g]);
    KeysAfterOk(s.groups[u.g].keys, u.keys);
  }

  lemma {:induction false} ReplayOk(c: Cipher, log: seq<Update>)
    requires LogOk(log)
    ensures WellFormed(Replay(c, log)) && Replay(c, log).cardId == c.cardId
  {
    if log != [] {
      ReplayOk(c, log[..|log| - 1]);
      NextOk(Replay(c, log[..|log| - 1]), log[|log| - 1]);
    }
  }

  /** An update whose number is newer than the last one of its group. */
  predicate Newer(s: State, u: Update) {
    u.g < |s.groups| && (s.groups[u.g].updated ==> u.number > s.groups[u.g].number)
  }

  predicate Ordered(c: Cipher, log: seq<Update>)
    requires LogOk(log)
  {
    log == [] || (Ordered(c, log[..|log| - 1]) && Newer(Replay(c, log[..|log| - 1]), log[|log| - 1]))
  }

  /** The file is missing before the first commit, and then encodes the replayed updates. */
  ghost predicate Holds(c: Cipher, file: Option<Bytes>, log: seq<Update>) {
    && LogOk(log) && WellFormed(Replay(c, log)) && Ordered(c, log)
    && file == if log == [] then None else Some(Encode(Replay(c, log)))
  }

  ghost predicate FilesOk(c: Cipher, visible: Option<Bytes>, durable: Option<Bytes>, log: seq<Update>, synced: nat) {
    synced <= |log| && Holds(c, visible, log) && Holds(c, durable, log[..synced])
  }

  // ---------------------------------------------------------------- invariant: the key table

  /** Base and current keys of one bucket, against what is saved for it. */
  ghost predicate BucketOk(base: GroupKeys, saved: Option<WorkKey>, m: GroupKeys, b: nat) {
    match saved
    case None => forall x: byte :: x % BUCKETS == b ==> (x in m <==> x in base) && (x in m ==> m[x] == base[x])
    case Some(k) =>
      && k.id % BUCKETS == b && k.id < 0xff && k.id in m && m[k.id] == k.key
      && NoneNewer(m, k, b) && NoneNewer(base, k, b)
  }

  ghost predicate NoneNewer(m: GroupKeys, k: WorkKey, b: nat) {
    forall x: byte :: x in m && x < 0xff && x % BUCKETS == b ==> x <= k.id && (x == k.id ==> m[x] == k.key)
  }

  ghost predicate TableOk(base: GroupKeys, keys: seq<Option<WorkKey>>, m: GroupKeys) {
    |keys| == BUCKETS && forall b :: 0 <= b < BUCKETS ==> BucketOk(base, keys[b], m, b)
  }

  ghost predicate TablesOk(c: Cipher, s: State, tables: seq<GroupKeys>) {
    && |c.base| == |tables| == GROUPS && Shaped(s)
    && forall g :: 0 <= g < GROUPS ==> TableOk(c.base[g], s.groups[g].keys, tables[g])
  }

  /** Key `k` has its own bucket and passed the acceptance test against `m`. */
  ghost predicate Pending(m: GroupKeys, k: NewKey) {
    k.id != 0xff && !Clashes(m, k.id, k.key) && (k.duplicate <==> k.id in m)
  }

  ghost predicate KeysPending(m: GroupKeys, keys: seq<NewKey>, from: nat) {
    && (forall j :: from <= j < |keys| ==> Pending(m, keys[j]))
    && (forall i, j :: 0 <= i < j < |keys| ==> !SameBucket(keys[i].id, keys[j].id))
  }

  /** Every saved key is compatible with the credential file, whatever is in memory. */
  ghost predicate BaseOk(c: Cipher, s: State) {
    && |c.base| == GROUPS && Shaped(s)
    && forall g, b :: 0 <= g < GROUPS && 0 <= b < BUCKETS && s.groups[g].keys[b].Some? ==>
         NoneNewer(c.base[g], s.groups[g].keys[b].value, b)
  }

  // ---------------------------------------------------------------- invariant: freshness

  /** The slot's keys come from an ECM of its group under the keys of that group as they are now. */
  ghost predicate Fresh(c: Cipher, tables: seq<GroupKeys>, slot: R.Slot)
    requires |tables| == GROUPS && R.Readable(slot)
  {
    exists payload: Bytes :: DecodesTo(c, tables, payload, slot.group, Contents(slot.cell).value)
  }

  ghost predicate DecodesTo(c: Cipher, tables: seq<GroupKeys>, payload: Bytes, code: byte, keys: Secret)
    requires |tables| == GROUPS
  {
    && |payload| >= 2 && payload[1] == code && GroupIndex(code) < GROUPS
    && c.decodeEcm(payload, tables[GroupIndex(code)]) == Plain(keys)
  }

  /** The group whose published keys may be out of date while its update is being installed. */
  function Stale(p: Phase): Option<nat> {
    match p
    case Registering(u, _) => Some(u.g)
    case Invalidating(g) => Some(g)
    case _ => None
  }

  ghost predicate FreshOk(c: Cipher, tables: seq<GroupKeys>, arena: seq<R.Slot>, active: bool, stale: Option<nat>) {
    |tables| == GROUPS &&
    forall id :: 0 <= id < |arena| && R.Readable(arena[id]) ==>
      active && (stale == Some(GroupIndex(arena[id].group)) || Fresh(c, tables, arena[id]))
  }

  // ---------------------------------------------------------------- invariant: the phases

  ghost predicate PhaseOk(c: Cipher, s: Sys) {
    match s.phase
    case Free => s.initialized && !s.revoked ==> InMemory(c, s.state, s.tables, s.log)
    case Publishing(slot, keys, payload) =>
      && Active(s) && InMemory(c, s.state, s.tables, s.log) && R.Known(s.registry, slot) && s.registry.arena[slot].held
      && |payload| >= 2 && DecodesTo(c, s.tables, payload, payload[1], keys)
    case Committing(u) =>
      Active(s) && InMemory(c, s.state, s.tables, s.log) && UpdateOk(u) && Newer(s.state, u) && KeysPending(s.tables[u.g], u.keys, 0)
    case Renamed(u) =>
      && Active(s) && Behind(c, s.state, s.log, u) && TablesOk(c, s.state, s.tables)
      && KeysPending(s.tables[u.g], u.keys, 0)
    case Registering(u, i) =>
      && Active(s) && Behind(c, s.state, s.log, u) && s.synced == |s.log| && i <= |u.keys|
      && TablesOk(c, Partly(s.state, u, i), s.tables)
      && KeysPending(s.tables[u.g], u.keys, i)
    case Invalidating(g) => Active(s) && g < GROUPS && InMemory(c, s.state, s.tables, s.log)
  }

  predicate Active(s: Sys) {
    s.initialized && !s.revoked
  }

  /** Memory equals the file, and the key table is what restoring the file would allow. */
  ghost predicate InMemory(c: Cipher, state: State, tables: seq<GroupKeys>, log: seq<Update>) {
    LogOk(log) && state == Replay(c, log) && TablesOk(c, state, tables)
  }

  /** The file is one update ahead of memory. */
  ghost predicate Behind(c: Cipher, state: State, log: seq<Update>, u: Update) {
    && log != [] && LogOk(log) && UpdateOk(u) && log[|log| - 1] == u
    && state == Replay(c, log[..|log| - 1])
  }

  /** The saved keys after the first `i` of an update's keys. */
  function Partly(s: State, u: Update, i: nat): (t: State)
    requires Shaped(s) && u.g < GROUPS && i <= |u.keys|
    ensures Shaped(t)
  {
    s.(groups := s.groups[u.g := s.groups[u.g].(keys := KeysAfter(s.groups[u.g].keys, u.keys[..i]))])
  }

  ghost predicate Inv(c: Cipher, s: Sys) {
    && R.Inv(s.registry)
    && Typed(s)
    && FilesOk(c, s.visible, s.durable, s.log, s.synced)
    && BasesOk(c, s.log, s.synced)
    && PhaseOk(c, s)
    && FreshOk(c, s.tables, s.registry.arena, Active(s), Stale(s.phase))
  }

  /** What a restart may find is compatible with the credential file. */
  ghost predicate BasesOk(c: Cipher, log: seq<Update>, synced: nat) {
    && synced <= |log| && LogOk(log)
    && BaseOk(c, Replay(c, log)) && BaseOk(c, Replay(c, log[..synced]))
  }

  // ---------------------------------------------------------------- acceptance

  lemma {:induction false} ReadKeysOk(plain: Bytes, p: nat, end: nat, m: GroupKeys, taken: set<nat>)
    requires end <= |plain| && ReadKeys(plain, p, end, m, taken).Updates?
    ensures var keys := ReadKeys(plain, p, end, m, taken).keys;
            KeysPending(m, keys, 0) && forall j :: 0 <= j < |keys| ==> keys[j].id % BUCKETS !in taken
    decreases end - p
  {
    if p < end {
      ReadKeysOk(plain, p + 11, end, m, taken + {plain[p + 2] % BUCKETS});
    }
  }

  /** An accepted message carries new keys in distinct buckets, none older than the table. */
  lemma JudgeOk(c: Cipher, s: State, tables: seq<GroupKeys>, message: Bytes, individual: bool)
    requires CipherOk(c) && |s.groups| == |tables| == GROUPS && 17 <= |message| <= 256
    requires Judge(c, s, tables, message, individual).Accept?
    ensures var u := Judge(c, s, tables, message, individual).u;
            && UpdateOk(u) && u.message == message && KeysPending(tables[u.g], u.keys, 0)
            && Newer(s, u)
  {
    var plain := c.decodeEmm(message, individual).value;
    var g := GroupIndex(plain[8]);
    ReadKeysOk(plain, 13, |message| - 4, tables[g], {});
    var keys := ReadKeys(plain, 13, |message| - 4, tables[g], {}).keys;
    assert forall k :: 0 <= k < |keys| ==> Pending(tables[g], keys[k]);
  }

  // ---------------------------------------------------------------- saved keys

  lemma {:induction false} KeysAfterAt(keys: seq<Option<WorkKey>>, more: seq<NewKey>, b: nat)
    requires |keys| == BUCKETS && b < BUCKETS
    requires forall i, j :: 0 <= i < j < |more| ==> !SameBucket(more[i].id, more[j].id)
    ensures (forall j :: 0 <= j < |more| ==> more[j].id % BUCKETS != b) ==> KeysAfter(keys, more)[b] == keys[b]
    ensures forall j :: 0 <= j < |more| && more[j].id % BUCKETS == b ==>
              KeysAfter(keys, more)[b] == Some(WorkKey(more[j].id, more[j].key))
  {
    if more != [] {
      KeysAfterAt(keys, more[..|more| - 1], b);
    }
  }

  /** A key that passed the test against the table is also compatible with the credential file. */
  lemma PendingBase(base: GroupKeys, saved: Option<WorkKey>, m: GroupKeys, k: NewKey)
    requires BucketOk(base, saved, m, k.id % BUCKETS) && Pending(m, k)
    ensures NoneNewer(base, WorkKey(k.id, k.key), k.id % BUCKETS)
    ensures NoneNewer(m, WorkKey(k.id, k.key), k.id % BUCKETS)
  {
    forall x: byte | x in m && x < 0xff && x % BUCKETS == k.id % BUCKETS
      ensures x <= k.id && (x == k.id ==> m[x] == k.key)
    {
      assert SameBucket(x, k.id);
    }
    if saved.Some? {
      var y := saved.value.id;
      assert y in m && y < 0xff && SameBucket(y, k.id);
    }
  }

  lemma NextBaseOk(c: Cipher, s: State, tables: seq<GroupKeys>, u: Update)
    requires TablesOk(c, s, tables) && UpdateOk(u) && KeysPending(tables[u.g], u.keys, 0) && BaseOk(c, s)
    ensures BaseOk(c, Next(s, u))
  {
    var t := Next(s, u);
    forall g, b | 0 <= g < GROUPS && 0 <= b < BUCKETS && t.groups[g].keys[b].Some?
      ensures NoneNewer(c.base[g], t.groups[g].keys[b].value, b)
    {
      if g == u.g {
        KeysAfterAt(s.groups[g].keys, u.keys, b);
        if j :| 0 <= j < |u.keys| && u.keys[j].id % BUCKETS == b {
          assert TableOk(c.base[g], s.groups[g].keys, tables[g]);
          assert BucketOk(c.base[g], s.groups[g].keys[b], tables[g], b);
          PendingBase(c.base[g], s.groups[g].keys[b], tables[g], u.keys[j]);
        }
      }
    }
  }

  // ---------------------------------------------------------------- registering

  /** One key entering the table, by registration or because it is there already. */
  lemma RegisterKeepsTable(base: GroupKeys, keys: seq<Option<WorkKey>>, m: GroupKeys, m': GroupKeys, k: NewKey)
    requires TableOk(base, keys, m) && Pending(m, k)
    requires if k.duplicate then m' == m else RegisterOk(m, k.id, k.key, Some(m'))
    ensures TableOk(base, keys[k.id % BUCKETS := Some(WorkKey(k.id, k.key))], m')
  {
    var b0 := k.id % BUCKETS;
    var keys' := keys[b0 := Some(WorkKey(k.id, k.key))];
    assert BucketOk(base, keys[b0], m, b0);
    PendingBase(base, keys[b0], m, k);
    assert k.duplicate ==> SameBucket(k.id, k.id) && m[k.id] == k.key;
    forall b | 0 <= b < BUCKETS ensures BucketOk(base, keys'[b], m', b) {
      assert BucketOk(base, keys[b], m, b);
      if b != b0 {
        SameElsewhere(m, m', k, b);
      }
    }
  }

  lemma SameElsewhere(m: GroupKeys, m': GroupKeys, k: NewKey, b: nat)
    requires k.id % BUCKETS != b
    requires if k.duplicate then m' == m else RegisterOk(m, k.id, k.key, Some(m'))
    ensures forall x: byte :: x % BUCKETS == b ==> (x in m <==> x in m') && (x in m ==> m[x] == m'[x])
  {
    forall x: byte | x % BUCKETS == b ensures (x in m <==> x in m') && (x in m ==> m[x] == m'[x]) {
      assert !SameBucket(x, k.id);
    }
  }

  lemma PendingElsewhere(m: GroupKeys, m': GroupKeys, k: NewKey, later: NewKey)
    requires Pending(m, later) && !SameBucket(k.id, later.id)
    requires if k.duplicate then m' == m else RegisterOk(m, k.id, k.key, Some(m'))
    ensures Pending(m', later)
  {
    SameElsewhere(m, m', k, later.id % BUCKETS);
  }

  lemma RegisterKeepsPending(m: GroupKeys, m': GroupKeys, keys: seq<NewKey>, i: nat)
    requires i < |keys| && KeysPending(m, keys, i)
    requires if keys[i].duplicate then m' == m else RegisterOk(m, keys[i].id, keys[i].key, Some(m'))
    ensures KeysPending(m', keys, i + 1)
  {
    forall j | i + 1 <= j < |keys| ensures Pending(m', keys[j]) {
      PendingElsewhere(m, m', keys[i], keys[j]);
    }
  }

  lemma RegisterKeepsTables(c: Cipher, s: State, u: Update, i: nat, tables: seq<GroupKeys>, m': GroupKeys)
    requires Shaped(s) && u.g < GROUPS && i < |u.keys| && TablesOk(c, Partly(s, u, i), tables)
    requires KeysPending(tables[u.g], u.keys, i)
    requires if u.keys[i].duplicate then m' == tables[u.g]
             else RegisterOk(tables[u.g], u.keys[i].id, u.keys[i].key, Some(m'))
    ensures TablesOk(c, Partly(s, u, i + 1), tables[u.g := m'])
  {
    var before, after, tables' := Partly(s, u, i), Partly(s, u, i + 1), tables[u.g := m'];
    assert u.keys[..i + 1][..i] == u.keys[..i];
    assert TableOk(c.base[u.g], before.groups[u.g].keys, tables[u.g]);
    RegisterKeepsTable(c.base[u.g], before.groups[u.g].keys, tables[u.g], m', u.keys[i]);
    forall g | 0 <= g < GROUPS ensures TableOk(c.base[g], after.groups[g].keys, tables'[g]) {
      assert TableOk(c.base[g], before.groups[g].keys, tables[g]);
    }
  }

  lemma TablesOfSameKeys(c: Cipher, s: State, t: State, tables: seq<GroupKeys>)
    requires TablesOk(c, s, tables) && Shaped(t)
    requires forall g :: 0 <= g < GROUPS ==> s.groups[g].keys == t.groups[g].keys
    ensures TablesOk(c, t, tables)
  {
    forall g | 0 <= g < GROUPS ensures TableOk(c.base[g], t.groups[g].keys, tables[g]) {
      assert TableOk(c.base[g], s.groups[g].keys, tables[g]);
    }
  }

  // ---------------------------------------------------------------- restoring

  function SavedBelow(keys: seq<Option<WorkKey>>, n: nat, b: nat): Option<WorkKey> {
    if b < n && b < |keys| then keys[b] else None
  }

  /** Buckets below `n` hold their saved keys, the others still what the credential file gave. */
  ghost predicate RestoredTo(base: GroupKeys, keys: seq<Option<WorkKey>>, m: GroupKeys, n: nat) {
    && |keys| == BUCKETS && n <= BUCKETS
    && forall b :: 0 <= b < BUCKETS ==> BucketOk(base, SavedBelow(keys, n, b), m, b)
  }

  ghost predicate SavedOk(base: GroupKeys, keys: seq<Option<WorkKey>>) {
    forall b :: 0 <= b < |keys| ==>
      KeyOk(keys[b], b) && (keys[b].Some? ==> NoneNewer(base, keys[b].value, b))
  }

  lemma RestoreKeyOk(c: Cipher, base: GroupKeys, keys: seq<Option<WorkKey>>, m: GroupKeys, n: nat)
    requires CipherOk(c) && n < BUCKETS && RestoredTo(base, keys, m, n) && SavedOk(base, keys)
    ensures RestoreKey(c, m, keys[n]).Some?
    ensures RestoreKey(c, m, keys[n]).value.Some? ==>
              RestoredTo(base, keys, RestoreKey(c, m, keys[n]).value.value, n + 1)
  {
    assert BucketOk(base, SavedBelow(keys, n, n), m, n) && KeyOk(keys[n], n);
    var next := n + 1;
    if keys[n].Some? {
      var k := keys[n].value;
      assert NoneNewer(base, k, n);
      forall x | x in m && x < 0xff && SameBucket(x, k.id) ensures !(x > k.id || (x == k.id && m[x] != k.key)) {
        assert x % BUCKETS == n && x in base;
      }
      var r := RestoreKey(c, m, keys[n]).value;
      if r.Some? {
        RestoreOneBucket(c, base, keys, m, r.value, n);
      }
    } else {
      forall b | 0 <= b < BUCKETS ensures BucketOk(base, SavedBelow(keys, next, b), m, b) {
        assert BucketOk(base, SavedBelow(keys, n, b), m, b);
      }
    }
  }

  lemma RestoreOneBucket(c: Cipher, base: GroupKeys, keys: seq<Option<WorkKey>>, m: GroupKeys, m': GroupKeys, n: nat)
    requires CipherOk(c) && n < BUCKETS && RestoredTo(base, keys, m, n) && SavedOk(base, keys) && keys[n].Some?
    requires !Clashes(m, keys[n].value.id, keys[n].value.key)
    requires RestoreKey(c, m, keys[n]) == Some(Some(m'))
    ensures RestoredTo(base, keys, m', n + 1)
  {
    var k := NewKey(keys[n].value.id, keys[n].value.key, keys[n].value.id in m);
    assert KeyOk(keys[n], n) && Pending(m, k);
    assert RegisterOk(m, k.id, k.key, c.register(m, k.id, k.key));
    var saved := seq(BUCKETS, b requires 0 <= b < BUCKETS => SavedBelow(keys, n, b));
    forall b | 0 <= b < BUCKETS ensures BucketOk(base, saved[b], m, b) {
      assert BucketOk(base, SavedBelow(keys, n, b), m, b);
    }
    RegisterKeepsTable(base, saved, m, m', k);
    var saved' := saved[n := Some(WorkKey(k.id, k.key))];
    var next := n + 1;
    forall b | 0 <= b < BUCKETS ensures BucketOk(base, SavedBelow(keys, next, b), m', b) {
      assert BucketOk(base, saved'[b], m', b);
    }
  }

  lemma {:induction false} RestoreGroupOk(c: Cipher, base: GroupKeys, keys: seq<Option<WorkKey>>, m: GroupKeys, n: nat)
    requires CipherOk(c) && RestoredTo(base, keys, m, n) && SavedOk(base, keys)
    ensures !RestoreGroup(c, m, keys[n..]).GroupClash?
    ensures RestoreGroup(c, m, keys[n..]).Table? ==> TableOk(base, keys, RestoreGroup(c, m, keys[n..]).m)
    decreases BUCKETS - n
  {
    if n < BUCKETS {
      RestoreKeyOk(c, base, keys, m, n);
      assert keys[n..][1..] == keys[n + 1..];
      var r := RestoreKey(c, m, keys[n]).value;
      if r.Some? {
        RestoreGroupOk(c, base, keys, r.value, n + 1);
      }
    } else {
      forall b | 0 <= b < BUCKETS ensures BucketOk(base, keys[b], m, b) {
        assert BucketOk(base, SavedBelow(keys, n, b), m, b);
      }
    }
  }

  lemma {:induction false} RestoreGroupsOk(c: Cipher, base: seq<GroupKeys>, groups: seq<Group>)
    requires CipherOk(c) && |base| == |groups|
    requires forall g :: 0 <= g < |groups| ==> |groups[g].keys| == BUCKETS && SavedOk(base[g], groups[g].keys)
    ensures !RestoreGroups(c, base, groups).KeyClash?
    ensures var r := RestoreGroups(c, base, groups);
            r.Tables? ==>
              && |r.tables| == |groups|
              && forall g :: 0 <= g < |groups| ==> TableOk(base[g], groups[g].keys, r.tables[g])
    decreases |groups|
  {
    if groups != [] {
      var keys := groups[0].keys;
      assert keys[0..] == keys;
      assert RestoredTo(base[0], keys, base[0], 0) by {
        forall b | 0 <= b < BUCKETS ensures BucketOk(base[0], SavedBelow(keys, 0, b), base[0], b) {
        }
      }
      RestoreGroupOk(c, base[0], keys, base[0], 0);
      RestoreGroupsOk(c, base[1..], groups[1..]);
    }
  }

  /** Restoring a state that fits the credential file never meets a newer or a different key. */
  lemma RestoreNeverClashes(c: Cipher, s: State)
    requires CipherOk(c) && BaseOk(c, s) && WellFormed(s)
    ensures !RestoreGroups(c, c.base, s.groups).KeyClash?
    ensures var r := RestoreGroups(c, c.base, s.groups); r.Tables? ==> TablesOk(c, s, r.tables)
  {
    forall g | 0 <= g < |s.groups| ensures SavedOk(c.base[g], s.groups[g].keys) {
      assert GroupOk(s.groups[g]);
    }
    RestoreGroupsOk(c, c.base, s.groups);
  }

  // ---------------------------------------------------------------- every step keeps the invariant

  lemma InitialInv(c: Cipher)
    requires CipherOk(c)
    ensures Inv(c, Initial(c))
  {
    assert Initial(c).log[..0] == [];
    ReplayOk(c, []);
    R.EmptyInv();
  }

  lemma {:induction false} BlankTables(c: Cipher)
    requires CipherOk(c)
    ensures TablesOk(c, Blank(c.cardId), c.base) && BaseOk(c, Blank(c.cardId))
  {
    var s := Blank(c.cardId);
    forall g | 0 <= g < GROUPS ensures TableOk(c.base[g], s.groups[g].keys, c.base[g]) {
      forall b | 0 <= b < BUCKETS ensures BucketOk(c.base[g], s.groups[g].keys[b], c.base[g], b) {
      }
    }
  }

  /** Failing closed leaves nothing readable. */
  lemma FailClosedInv(c: Cipher, s: Sys)
    requires R.Inv(s.registry) && Typed(s) && FilesOk(c, s.visible, s.durable, s.log, s.synced) && BasesOk(c, s.log, s.synced)
    ensures Inv(c, FailClosed(s))
    ensures forall id :: 0 <= id < |FailClosed(s).registry.arena| ==> !R.Readable(FailClosed(s).registry.arena[id])
  {
    R.RevokedRegistry(s.registry);
  }

  lemma InitializeInv(c: Cipher, s: Sys, credential: Credential, readable: bool)
    requires CipherOk(c) && Inv(c, s) && s.phase.Free? && !s.initialized && !s.revoked
    ensures Inv(c, AfterInitialize(c, s, credential, readable))
  {
    if credential.Loaded? && s.visible.None? {
      StartBlankInv(c, s);
    } else if credential.Loaded? {
      RecoverInv(c, s, readable);
    } else if credential.Unreadable? {
      FailClosedInv(c, s);
    }
    hide Inv, FailClosed, Recovered;
  }

  lemma FailedInv(c: Cipher, s: Sys)
    requires Inv(c, s)
    ensures Inv(c, FailClosed(s))
  {
    FailClosedInv(c, s);
  }

  lemma StartBlankInv(c: Cipher, s: Sys)
    requires CipherOk(c) && Inv(c, s) && s.phase.Free? && !s.initialized && !s.revoked && s.visible.None?
    ensures Inv(c, s.(initialized := true, state := Blank(c.cardId), tables := c.base))
  {
    hide TablesOk, BaseOk, BasesOk, FreshOk, CipherOk, Encode, WellFormed;
    BlankTables(c);
    assert Replay(c, s.log) == Blank(c.cardId);
    LoadedInv(c, s, Blank(c.cardId), c.base);
  }

  /** The file of a reachable state leads to that state, or the backend fails closed. */
  lemma RecoverInv(c: Cipher, s: Sys, readable: bool)
    requires CipherOk(c) && Inv(c, s) && s.phase.Free? && !s.initialized && !s.revoked && s.visible.Some?
    ensures match Recovered(c, s.visible.value, readable)
            case None => Inv(c, FailClosed(s))
            case Some((state, tables)) => Inv(c, s.(initialized := true, state := state, tables := tables))
  {
    FailClosedInv(c, s);
    RecoveredIsReplayed(c, s.visible.value, s.log, readable);
    var r := Recovered(c, s.visible.value, readable);
    hide FailClosed, Recovered, Inv;
    if r.Some? {
      LoadedInv(c, s, r.value.0, r.value.1);
    }
  }

  lemma RecoveredIsReplayed(c: Cipher, file: Bytes, log: seq<Update>, readable: bool)
    requires CipherOk(c) && Holds(c, Some(file), log) && BaseOk(c, Replay(c, log))
    ensures var r := Recovered(c, file, readable);
            r.Some? ==> r.value.0 == Replay(c, log) && TablesOk(c, r.value.0, r.value.1)
  {
    var t := Replay(c, log);
    LoadOfCommit(t);
    RestoreNeverClashes(c, t);
    ReplayOk(c, log);
    hide Encode, RestoreGroups, TablesOk, BaseOk, CipherOk, WellFormed, LogOk, Ordered, Replay;
  }

  lemma LoadedInv(c: Cipher, s: Sys, t: State, tables: seq<GroupKeys>)
    requires Inv(c, s) && s.phase.Free? && !s.initialized && !s.revoked
    requires t == Replay(c, s.log) && TablesOk(c, t, tables)
    ensures Inv(c, s.(initialized := true, state := t, tables := tables))
  {
  }

  lemma DecodeInv(c: Cipher, s: Sys, slot: R.SlotId, payload: Bytes)
    requires CipherOk(c) && Inv(c, s) && Working(s) && R.Known(s.registry, slot) && s.registry.arena[slot].held && |payload| >= 30
    ensures Inv(c, AfterDecode(c, s, slot, payload))
  {
  }

  lemma PublishInv(c: Cipher, s: Sys)
    requires CipherOk(c) && Inv(c, s) && s.phase.Publishing?
    ensures Inv(c, AfterPublish(s))
  {
    var p, t := s.phase, AfterPublish(s);
    R.StepKeepsInv(s.registry, R.UpdateSlot(p.slot, p.keys, p.payload[1]));
    assert R.SlotOk(s.registry, p.slot);
    forall id | 0 <= id < |t.registry.arena| && R.Readable(t.registry.arena[id])
      ensures Fresh(c, t.tables, t.registry.arena[id])
    {
      if id == p.slot && s.registry.arena[id].live {
        assert DecodesTo(c, t.tables, p.payload, p.payload[1], p.keys);
      } else {
        assert t.registry.arena[id] == s.registry.arena[id];
      }
    }
  }

  lemma ReceiveInv(c: Cipher, s: Sys, message: Bytes, individual: bool)
    requires CipherOk(c) && Inv(c, s) && Working(s) && 17 <= |message| <= 256
    ensures Inv(c, AfterReceive(c, s, message, individual))
  {
    if Judge(c, s.state, s.tables, message, individual).Accept? {
      JudgeOk(c, s.state, s.tables, message, individual);
    }
  }

  lemma RenameInv(c: Cipher, s: Sys)
    requires CipherOk(c) && Inv(c, s) && s.phase.Committing?
    ensures Inv(c, AfterRename(s))
  {
    RenameFiles(c, s);
    RenamePhase(c, s);
    FreshFrame(c, s, AfterRename(s));
  }

  lemma RenamePhase(c: Cipher, s: Sys)
    requires PhaseOk(c, s) && BasesOk(c, s.log, s.synced) && s.phase.Committing? && Shaped(s.state)
    ensures PhaseOk(c, AfterRename(s)) && BasesOk(c, AfterRename(s).log, AfterRename(s).synced)
  {
    var u, t := s.phase.u, AfterRename(s);
    NextBaseOk(c, s.state, s.tables, u);
    assert t.phase.Renamed? ==> t.log[..|t.log| - 1] == s.log && t.log[..s.synced] == s.log[..s.synced];
  }

  lemma RenameFiles(c: Cipher, s: Sys)
    requires FilesOk(c, s.visible, s.durable, s.log, s.synced) && Shaped(s.state)
    requires s.phase.Committing? && PhaseOk(c, s)
    ensures var t := AfterRename(s); FilesOk(c, t.visible, t.durable, t.log, t.synced)
  {
    var u, t := s.phase.u, AfterRename(s);
    InMemoryIsReplayed(c, s);
    hide PhaseOk, Holds, Encode, WellFormed, Next, Replay, UpdateOk, Newer;
    HoldsNext(c, s.visible, s.log, u);
    assert t.log[..s.synced] == s.log[..s.synced];
  }

  lemma InMemoryIsReplayed(c: Cipher, s: Sys)
    requires PhaseOk(c, s) && s.phase.Committing?
    ensures LogOk(s.log) && s.state == Replay(c, s.log) && UpdateOk(s.phase.u) && Newer(s.state, s.phase.u)
  {
    hide TablesOk, KeysPending, Replay, UpdateOk, Newer;
  }

  lemma HoldsNext(c: Cipher, file: Option<Bytes>, log: seq<Update>, u: Update)
    requires Holds(c, file, log) && UpdateOk(u) && Newer(Replay(c, log), u)
    ensures var next := Next(Replay(c, log), u); WellFormed(next) && Holds(c, Some(Encode(next)), log + [u])
  {
    NextOk(Replay(c, log), u);
    assert (log + [u])[..|log|] == log;
    hide Encode, WellFormed, Next, UpdateOk, Newer;
  }

  lemma SyncInv(c: Cipher, s: Sys)
    requires CipherOk(c) && Inv(c, s) && s.phase.Renamed?
    ensures Inv(c, AfterSync(s))
  {
    var t := AfterSync(s);
    RestartFiles(c, s.visible, s.durable, s.log, s.synced);
    SyncPhase(c, s);
    FreshFrame(c, s, t);
  }

  lemma SyncPhase(c: Cipher, s: Sys)
    requires PhaseOk(c, s) && s.phase.Renamed?
    ensures PhaseOk(c, AfterSync(s))
  {
    var u := s.phase.u;
    assert u.keys[..0] == [];
    TablesOfSameKeys(c, s.state, Partly(s.state, u, 0), s.tables);
  }

  /** Freshness is untouched when slots and tables are, and no group becomes current again. */
  lemma FreshFrame(c: Cipher, s: Sys, t: Sys)
    requires FreshOk(c, s.tables, s.registry.arena, Active(s), Stale(s.phase)) && t.registry == s.registry && t.tables == s.tables
    requires t.initialized == s.initialized && t.revoked == s.revoked
    requires Stale(s.phase) == None || Stale(t.phase) == Stale(s.phase)
    ensures FreshOk(c, t.tables, t.registry.arena, Active(t), Stale(t.phase))
  {
  }

  lemma RegisterInv(c: Cipher, s: Sys)
    requires CipherOk(c) && Inv(c, s) && s.phase.Registering?
    ensures Inv(c, AfterRegister(c, s))
  {
    if s.phase.i >= |s.phase.u.keys| {
      RegisteredAllInv(c, s);
    } else {
      RegisterOneInv(c, s);
    }
  }

  lemma InvIsTyped(c: Cipher, s: Sys)
    requires Inv(c, s)
    ensures Typed(s)
  {
  }

  lemma RegisterIsOk(c: Cipher, m: GroupKeys, id: byte, key: Key)
    requires CipherOk(c)
    ensures RegisterOk(m, id, key, c.register(m, id, key))
  {
    hide RegisterOk;
  }

  lemma RegisterOneInv(c: Cipher, s: Sys)
    requires CipherOk(c) && Inv(c, s) && s.phase.Registering? && s.phase.i < |s.phase.u.keys|
    ensures Inv(c, AfterRegister(c, s))
  {
    hide CipherOk, RegisterOk, Inv, FailClosed;
    InvIsTyped(c, s);
    var g, k := s.phase.u.g, s.phase.u.keys[s.phase.i];
    var registered := c.register(s.tables[g], k.id, k.key);
    RegisterIsOk(c, s.tables[g], k.id, k.key);
    if k.duplicate {
      RegisteredInv(c, s, s.tables[g]);
      assert s.tables[g := s.tables[g]] == s.tables;
    } else {
      if registered.None? {
        FailedInv(c, s);
      } else {
        RegisteredInv(c, s, registered.value);
      }
    }
  }

  lemma RegisteredAllInv(c: Cipher, s: Sys)
    requires Inv(c, s) && s.phase.Registering? && s.phase.i >= |s.phase.u.keys|
    ensures Inv(c, s.(state := Next(s.state, s.phase.u), phase := Invalidating(s.phase.u.g)))
  {
    RegisteredAllPhase(c, s);
    FreshFrame(c, s, s.(state := Next(s.state, s.phase.u), phase := Invalidating(s.phase.u.g)));
  }

  lemma RegisteredAllPhase(c: Cipher, s: Sys)
    requires PhaseOk(c, s) && s.phase.Registering? && s.phase.i == |s.phase.u.keys|
    ensures PhaseOk(c, s.(state := Next(s.state, s.phase.u), phase := Invalidating(s.phase.u.g)))
  {
    var u := s.phase.u;
    assert u.keys[..|u.keys|] == u.keys;
    TablesOfSameKeys(c, Partly(s.state, u, |u.keys|), Next(s.state, u), s.tables);
  }

  lemma RegisteredInv(c: Cipher, s: Sys, m: GroupKeys)
    requires CipherOk(c) && Inv(c, s) && s.phase.Registering? && s.phase.i < |s.phase.u.keys|
    requires var k := s.phase.u.keys[s.phase.i];
             if k.duplicate then m == s.tables[s.phase.u.g]
             else RegisterOk(s.tables[s.phase.u.g], k.id, k.key, Some(m))
    ensures Inv(c, s.(tables := s.tables[s.phase.u.g := m], phase := Registering(s.phase.u, s.phase.i + 1)))
  {
    hide CipherOk, RegisterOk, FilesOk, BasesOk, FreshOk, PhaseOk, R.Inv;
    var u, i := s.phase.u, s.phase.i;
    var t := s.(tables := s.tables[u.g := m], phase := Registering(u, i + 1));
    RegisteredPhase(c, s, m);
    RegisteredFresh(c, s, t);
  }

  lemma RegisteredPhase(c: Cipher, s: Sys, m: GroupKeys)
    requires PhaseOk(c, s) && s.phase.Registering? && s.phase.i < |s.phase.u.keys|
    requires var k := s.phase.u.keys[s.phase.i];
             if k.duplicate then m == s.tables[s.phase.u.g]
             else RegisterOk(s.tables[s.phase.u.g], k.id, k.key, Some(m))
    ensures PhaseOk(c, s.(tables := s.tables[s.phase.u.g := m], phase := Registering(s.phase.u, s.phase.i + 1)))
  {
    var u, i := s.phase.u, s.phase.i;
    RegisterKeepsTables(c, s.state, u, i, s.tables, m);
    RegisterKeepsPending(s.tables[u.g], m, u.keys, i);
  }

  lemma RegisteredFresh(c: Cipher, s: Sys, t: Sys)
    requires FreshOk(c, s.tables, s.registry.arena, Active(s), Stale(s.phase)) && s.phase.Registering? && t.phase.Registering? && t.phase.u == s.phase.u
    requires s.phase.u.g < GROUPS && |t.tables| == GROUPS && t.registry == s.registry
    requires t.initialized == s.initialized && t.revoked == s.revoked
    requires forall g :: 0 <= g < GROUPS && g != s.phase.u.g ==> t.tables[g] == s.tables[g]
    ensures FreshOk(c, t.tables, t.registry.arena, Active(t), Stale(t.phase))
  {
    forall id | 0 <= id < |t.registry.arena| && R.Readable(t.registry.arena[id])
      ensures Stale(t.phase) == Some(GroupIndex(t.registry.arena[id].group)) || Fresh(c, t.tables, t.registry.arena[id])
    {
      if GroupIndex(t.registry.arena[id].group) != s.phase.u.g {
        FreshElsewhere(c, s.tables, t.tables, t.registry.arena[id]);
      }
    }
  }

  lemma FreshElsewhere(c: Cipher, tables: seq<GroupKeys>, tables': seq<GroupKeys>, slot: R.Slot)
    requires |tables| == |tables'| == GROUPS && R.Readable(slot) && Fresh(c, tables, slot)
    requires var g := GroupIndex(slot.group); g < GROUPS ==> tables'[g] == tables[g]
    ensures Fresh(c, tables', slot)
  {
    var payload :| DecodesTo(c, tables, payload, slot.group, Contents(slot.cell).value);
    assert DecodesTo(c, tables', payload, slot.group, Contents(slot.cell).value);
  }

  lemma InvalidateInv(c: Cipher, s: Sys)
    requires CipherOk(c) && Inv(c, s) && s.phase.Invalidating?
    ensures Inv(c, AfterInvalidate(s))
  {
    var g, t := s.phase.g, AfterInvalidate(s);
    R.StepKeepsInv(s.registry, R.InvalidateSlots(GROUP_CODES[g]));
    forall id | 0 <= id < |t.registry.arena| && R.Readable(t.registry.arena[id])
      ensures Fresh(c, t.tables, t.registry.arena[id])
    {
      R.InvalidatedGroupIsUnreadable(s.registry, GROUP_CODES[g], id);
    }
  }

  lemma SessionInv(c: Cipher, s: Sys, a: R.Action)
    requires CipherOk(c) && Inv(c, s) && SessionAllowed(s, a)
    ensures Inv(c, s.(registry := R.Apply(s.registry, a)))
  {
    R.StepKeepsInv(s.registry, a);
    SessionPhase(c, s, a);
    SessionFresh(c, s, a);
  }

  lemma SessionPhase(c: Cipher, s: Sys, a: R.Action)
    requires PhaseOk(c, s) && SessionAllowed(s, a)
    ensures PhaseOk(c, s.(registry := R.Apply(s.registry, a)))
  {
  }

  lemma SessionFresh(c: Cipher, s: Sys, a: R.Action)
    requires FreshOk(c, s.tables, s.registry.arena, Active(s), Stale(s.phase)) && SessionAllowed(s, a) && R.Inv(s.registry)
    ensures FreshOk(c, s.tables, R.Apply(s.registry, a).arena, Active(s), Stale(s.phase))
  {
    SessionPublishesNothing(s.registry, a);
  }

  /** Whatever is readable after a session's step was there, and the same, before it. */
  lemma SessionPublishesNothing(reg: R.Registry, a: R.Action)
    requires R.Inv(reg) && R.Enabled(reg, a) && (a.OpenSlot? || a.CloseSlot? || a.DropSlot?)
    ensures forall id :: 0 <= id < |R.Apply(reg, a).arena| && R.Readable(R.Apply(reg, a).arena[id]) ==>
              id < |reg.arena| && R.Apply(reg, a).arena[id] == reg.arena[id]
  {
    var next := R.Apply(reg, a);
    forall id | 0 <= id < |next.arena| && R.Readable(next.arena[id])
      ensures id < |reg.arena| && next.arena[id] == reg.arena[id]
    {
      if id < |reg.arena| { assert R.SlotOk(reg, id); }
    }
  }

  lemma RestartInv(c: Cipher, s: Sys)
    requires CipherOk(c) && Inv(c, s)
    ensures Inv(c, Restart(c, s))
    ensures Inv(c, Restart(c, s).(durable := s.visible, synced := |s.log|))
    ensures Inv(c, Restart(c, s).(visible := s.durable, log := s.log[..s.synced]))
  {
    RestartedInv(c, Restart(c, s));
    RestartFiles(c, s.visible, s.durable, s.log, s.synced);
    RestartedInv(c, Restart(c, s).(durable := s.visible, synced := |s.log|));
    RestartedInv(c, Restart(c, s).(visible := s.durable, log := s.log[..s.synced]));
  }

  /** A process that has just started satisfies the invariant whatever consistent files it finds. */
  lemma RestartedInv(c: Cipher, t: Sys)
    requires CipherOk(c)
    requires FilesOk(c, t.visible, t.durable, t.log, t.synced) && BasesOk(c, t.log, t.synced)
    requires t == Initial(c).(visible := t.visible, durable := t.durable, log := t.log, synced := t.synced)
    ensures Inv(c, t)
  {
    R.EmptyInv();
  }

  lemma RestartFiles(c: Cipher, visible: Option<Bytes>, durable: Option<Bytes>, log: seq<Update>, synced: nat)
    requires FilesOk(c, visible, durable, log, synced) && BasesOk(c, log, synced)
    ensures FilesOk(c, visible, visible, log, |log|) && BasesOk(c, log, |log|)
    ensures FilesOk(c, durable, durable, log[..synced], synced) && BasesOk(c, log[..synced], synced)
  {
    assert log[..|log|] == log;
    assert log[..synced][..synced] == log[..synced];
  }

  lemma CommitUnchangedInv(c: Cipher, s: Sys)
    requires CipherOk(c) && Inv(c, s) && s.phase.Committing?
    ensures Inv(c, s.(phase := Free))
  {
  }

  lemma SyncFailedInv(c: Cipher, s: Sys)
    requires CipherOk(c) && Inv(c, s) && s.phase.Renamed?
    ensures Inv(c, FailClosed(s))
  {
    FailClosedInv(c, s);
  }

  lemma CommitStepInv(c: Cipher, s: Sys, a: Action)
    requires CipherOk(c) && Inv(c, s) && Enabled(c, s, a)
    requires a.CommitUnchanged? || a.Rename? || a.Sync? || a.SyncFailed? || a.RegisterNext? || a.Invalidate?
    ensures Inv(c, Step(c, s, a))
  {
    InvIsTyped(c, s);
    hide Inv, CipherOk, AfterRename, AfterSync, AfterRegister, AfterInvalidate, FailClosed;
    match a {
      case CommitUnchanged => CommitUnchangedInv(c, s);
      case Rename => RenameInv(c, s);
      case Sync => SyncInv(c, s);
      case SyncFailed => SyncFailedInv(c, s);
      case RegisterNext => RegisterInv(c, s);
      case Invalidate => InvalidateInv(c, s);
    }
  }

  lemma StepInv(c: Cipher, s: Sys, a: Action)
    requires CipherOk(c) && Inv(c, s) && Enabled(c, s, a)
    ensures Inv(c, Step(c, s, a))
  {
    InvIsTyped(c, s);
    hide Inv, CipherOk, AfterInitialize, AfterDecode, AfterPublish, AfterReceive, R.Apply;
    match a {
      case Initialize(credential, readable) => InitializeInv(c, s, credential, readable);
      case DecodeEcm(slot, payload) => DecodeInv(c, s, slot, payload);
      case PublishKeys => PublishInv(c, s);
      case Receive(message, individual) => ReceiveInv(c, s, message, individual);
      case Session(b) => SessionInv(c, s, b);
      case ProcessDeath => RestartInv(c, s);
      case PowerCut(_) => RestartInv(c, s);
      case _ => CommitStepInv(c, s, a);
    }
  }
}
