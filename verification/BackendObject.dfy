/** The backend as an object: each operation is a sequence of the steps of `Backend`. */
module BackendObject {
  import opened Basics
  import opened KeyCells
  import opened StateCodec
  import opened Backend
  import R = KeyRegistry
  import Section

  /** How a commit ends: nothing written, renamed but perhaps not durable, or durable. */
  datatype Commit = Unchanged | OutcomeUnknown | Durable

  // ---------------------------------------------------------------- whole operations as steps

  /** Registers the keys that are left, then drops what was published under the old ones. */
  ghost function Install(c: Cipher, s: Sys): Sys
    requires CipherOk(c) && Typed(s)
    decreases KeysLeft(s)
  {
    if s.phase.Registering? then Install(c, AfterRegister(c, s))
    else if s.phase.Invalidating? then AfterInvalidate(s)
    else s
  }

  function KeysLeft(s: Sys): nat {
    if !s.phase.Registering? then 0
    else if s.phase.i <= |s.phase.u.keys| then |s.phase.u.keys| - s.phase.i + 1
    else 1
  }

  /** A durable commit is installed, one that may be lost fails closed. */
  ghost function AfterCommit(c: Cipher, s: Sys, commit: Commit): Sys
    requires CipherOk(c) && Typed(s) && s.phase.Committing?
  {
    var renamed := AfterRename(s);
    if commit.Unchanged? then s.(phase := Free)
    else if renamed.phase.Free? then renamed
    else if commit.OutcomeUnknown? then FailClosed(renamed)
    else Install(c, AfterSync(renamed))
  }

  ghost predicate CanApply(c: Cipher, s: Sys, message: Bytes, individual: bool) {
    CipherOk(c) && Typed(s) && Working(s) && (if individual then 25 else 17) <= |message| <= 256
  }

  ghost function AfterMessage(c: Cipher, s: Sys, message: Bytes, individual: bool, commit: Commit): Sys
    requires CanApply(c, s, message, individual)
  {
    var received := AfterReceive(c, s, message, individual);
    if received.phase.Free? then received else AfterCommit(c, received, commit)
  }

  ghost function MessageResult(c: Cipher, s: Sys, message: Bytes, individual: bool, commit: Commit): Result
    requires CanApply(c, s, message, individual)
  {
    match Judge(c, s.state, s.tables, message, individual)
    case Settle(code) => code
    case Accept(u) =>
      if commit.Unchanged? || !WellFormed(Next(s.state, u)) then Unknown
      else if AfterMessage(c, s, message, individual, commit).revoked then Revoked
      else Ok
  }

  /** An ECM that decodes is published, one that does not changes nothing. */
  ghost function AfterEcm(c: Cipher, s: Sys, slot: R.SlotId, payload: Bytes): Sys
    requires CipherOk(c) && Typed(s) && Enabled(c, s, DecodeEcm(slot, payload))
  {
    var decoded := AfterDecode(c, s, slot, payload);
    if decoded.phase.Publishing? then AfterPublish(decoded) else decoded
  }

  /** What an ECM is answered with: how it fails to decode, or how its keys are received by the slot. */
  ghost function EcmResult(c: Cipher, s: Sys, slot: R.SlotId, payload: Bytes): Result
    requires CipherOk(c) && Typed(s) && Enabled(c, s, DecodeEcm(slot, payload))
  {
    var g := GroupIndex(payload[1]);
    if g == GROUPS || !ProtocolSupported(payload[0]) then Unsupported
    else if AfterDecode(c, s, slot, payload).phase.Free? then DecodeResult(c.decodeEcm(payload, s.tables[g]))
    else if !s.registry.arena[slot].live then SessionClosed
    else if R.Readable(AfterEcm(c, s, slot, payload).registry.arena[slot]) then Ok
    else Revoked
  }

  /** Only published keys are answered with success, and then they are what the slot shows. */
  lemma EcmOkIff(c: Cipher, s: Sys, slot: R.SlotId, payload: Bytes)
    requires CipherOk(c) && Typed(s) && Enabled(c, s, DecodeEcm(slot, payload)) && R.Inv(s.registry)
    ensures EcmResult(c, s, slot, payload) == Ok <==>
            var decoded := AfterDecode(c, s, slot, payload);
            && decoded.phase.Publishing? && s.registry.arena[slot].live
            && Contents(AfterEcm(c, s, slot, payload).registry.arena[slot].cell) == Some(decoded.phase.keys)
  {
    assert R.SlotOk(s.registry, slot);
  }

  lemma EcmInv(c: Cipher, s: Sys, slot: R.SlotId, payload: Bytes)
    requires CipherOk(c) && Inv(c, s) && Enabled(c, s, DecodeEcm(slot, payload))
    ensures var t := AfterEcm(c, s, slot, payload); Inv(c, t) && t.phase.Free?
  {
    DecodeInv(c, s, slot, payload);
    var decoded := AfterDecode(c, s, slot, payload);
    if decoded.phase.Publishing? {
      PublishInv(c, decoded);
    }
  }

  lemma {:induction false} InstallInv(c: Cipher, s: Sys)
    requires CipherOk(c) && Inv(c, s) && (s.phase.Registering? || s.phase.Invalidating? || s.phase.Free?)
    ensures Inv(c, Install(c, s)) && Install(c, s).phase.Free?
    decreases KeysLeft(s)
  {
    if s.phase.Registering? {
      RegisterInv(c, s);
      RegisterMoves(c, s);
      InstallInv(c, AfterRegister(c, s));
    } else if s.phase.Invalidating? {
      InvalidateInv(c, s);
    }
  }

  lemma RegisterMoves(c: Cipher, s: Sys)
    requires CipherOk(c) && Typed(s) && s.phase.Registering?
    ensures var t := AfterRegister(c, s);
            && Typed(t) && KeysLeft(t) < KeysLeft(s) && Install(c, s) == Install(c, t)
            && (t.phase.Registering? || t.phase.Invalidating? || t.phase.Free?)
  {
  }

  lemma CommitInv(c: Cipher, s: Sys, commit: Commit)
    requires CipherOk(c) && Inv(c, s) && s.phase.Committing?
    ensures Inv(c, AfterCommit(c, s, commit)) && AfterCommit(c, s, commit).phase.Free?
  {
    hide Inv, CipherOk, FailClosed, Install, AfterRename, AfterSync;
    InvIsTyped(c, s);
    if commit.Unchanged? {
      CommitUnchangedInv(c, s);
    } else {
      RenameInv(c, s);
      RenameEnds(c, s);
      var renamed := AfterRename(s);
      InvIsTyped(c, renamed);
      if renamed.phase.Renamed? {
        if commit.OutcomeUnknown? {
          SyncFailedInv(c, renamed);
          SyncEnds(c, renamed);
        } else {
          SyncInv(c, renamed);
          SyncEnds(c, renamed);
          InvIsTyped(c, AfterSync(renamed));
          InstallInv(c, AfterSync(renamed));
        }
      }
    }
  }

  lemma RenameEnds(c: Cipher, s: Sys)
    requires Typed(s) && s.phase.Committing?
    ensures AfterRename(s).phase.Free? || AfterRename(s).phase.Renamed?
  {
  }

  lemma SyncEnds(c: Cipher, s: Sys)
    requires s.phase.Renamed?
    ensures AfterSync(s).phase.Registering? && FailClosed(s).phase.Free?
  {
  }

  /** A message leaves the backend between operations, in a state that steps lead to. */
  lemma MessageInv(c: Cipher, s: Sys, message: Bytes, individual: bool, commit: Commit)
    requires CanApply(c, s, message, individual) && Inv(c, s)
    ensures var t := AfterMessage(c, s, message, individual, commit); Inv(c, t) && t.phase.Free?
  {
    hide Inv, CipherOk, AfterCommit, Judge;
    ReceiveInv(c, s, message, individual);
    var received := AfterReceive(c, s, message, individual);
    InvIsTyped(c, received);
    if received.phase.Committing? {
      CommitInv(c, received, commit);
    }
  }

  lemma {:induction false} InstallEnds(c: Cipher, s: Sys)
    requires CipherOk(c) && Typed(s) && (s.phase.Registering? || s.phase.Invalidating? || s.phase.Free?)
    ensures var t := Install(c, s); Typed(t) && t.phase.Free? && t.initialized == s.initialized
    decreases KeysLeft(s)
  {
    if s.phase.Registering? {
      RegisterMoves(c, s);
      InstallEnds(c, AfterRegister(c, s));
    }
  }

  /** After an accepted message the backend can take the next one. */
  lemma OkKeepsWorking(c: Cipher, s: Sys, message: Bytes, individual: bool, commit: Commit)
    requires CanApply(c, s, message, individual) && MessageResult(c, s, message, individual, commit) == Ok
    ensures var t := AfterMessage(c, s, message, individual, commit); Typed(t) && Working(t)
  {
    var received := AfterReceive(c, s, message, individual);
    if received.phase.Committing? && !commit.Unchanged? {
      var renamed := AfterRename(received);
      if renamed.phase.Renamed? && commit.Durable? {
        InstallEnds(c, AfterSync(renamed));
      }
    }
  }

  ghost predicate CanApplyAll(c: Cipher, s: Sys, ms: seq<Section.EmmMessage>, commits: seq<Commit>) {
    && CipherOk(c) && Typed(s) && Working(s) && |ms| <= |commits|
    && forall i :: 0 <= i < |ms| ==> Section.Declared(ms[i])
  }

  /** Messages are applied in order until one is not accepted. */
  ghost function AfterMessages(c: Cipher, s: Sys, ms: seq<Section.EmmMessage>, commits: seq<Commit>): (Sys, Result)
    requires CanApplyAll(c, s, ms, commits)
    decreases |ms|
  {
    if ms == [] then (s, Ok)
    else
      var m := ms[0];
      assert Section.Declared(m);
      var t := AfterMessage(c, s, m.payload, m.individual, commits[0]);
      var code := MessageResult(c, s, m.payload, m.individual, commits[0]);
      if code != Ok then (t, code)
      else
        OkKeepsWorking(c, s, m.payload, m.individual, commits[0]);
        AfterMessages(c, t, ms[1..], commits[1..])
  }

  /** The first message ends the batch, or leads to the rest of it. */
  lemma MessagesStep(c: Cipher, s: Sys, ms: seq<Section.EmmMessage>, commits: seq<Commit>)
    requires CanApplyAll(c, s, ms, commits) && ms != []
    ensures var m := ms[0];
            CanApply(c, s, m.payload, m.individual) &&
            var t, code := AfterMessage(c, s, m.payload, m.individual, commits[0]),
                           MessageResult(c, s, m.payload, m.individual, commits[0]);
            if code != Ok then AfterMessages(c, s, ms, commits) == (t, code)
            else && CanApplyAll(c, t, ms[1..], commits[1..])
                 && AfterMessages(c, s, ms, commits) == AfterMessages(c, t, ms[1..], commits[1..])
  {
    var m := ms[0];
    assert Section.Declared(m);
    if MessageResult(c, s, m.payload, m.individual, commits[0]) == Ok {
      OkKeepsWorking(c, s, m.payload, m.individual, commits[0]);
    }
    hide CipherOk, AfterMessage, MessageResult, Section.Declared, Typed;
  }

  lemma BatchFits(c: Cipher, s: Sys, ms: seq<Section.EmmMessage>, commits: seq<Commit>)
    requires CanApplyAll(c, s, ms, commits)
    ensures |ms| <= |commits|
  {
  }

  lemma MessagesEnd(c: Cipher, s: Sys, commits: seq<Commit>)
    requires CanApplyAll(c, s, [], commits)
    ensures AfterMessages(c, s, [], commits) == (s, Ok)
  {
  }

  lemma {:induction false} MessagesInv(c: Cipher, s: Sys, ms: seq<Section.EmmMessage>, commits: seq<Commit>)
    requires CanApplyAll(c, s, ms, commits) && Inv(c, s)
    ensures var t := AfterMessages(c, s, ms, commits).0; Inv(c, t) && t.phase.Free?
    decreases |ms|
  {
    hide Inv, AfterMessage, MessageResult;
    if ms != [] {
      var m := ms[0];
      assert Section.Declared(m);
      MessageInv(c, s, m.payload, m.individual, commits[0]);
      if MessageResult(c, s, m.payload, m.individual, commits[0]) == Ok {
        OkKeepsWorking(c, s, m.payload, m.individual, commits[0]);
        MessagesInv(c, AfterMessage(c, s, m.payload, m.individual, commits[0]), ms[1..], commits[1..]);
      }
    }
  }

  // ---------------------------------------------------------------- loops without state

  /** Scans the ids of one bucket: is there a newer key or a different one, and is the id there. */
  method FindClash(m: GroupKeys, id: byte, key: Key) returns (clash: bool, exact: bool)
    requires id != 0xff
    ensures clash <==> Clashes(m, id, key)
    ensures !clash ==> (exact <==> id in m)
  {
    exact := false;
    var x := id % BUCKETS;
    while x < 255
      invariant x % BUCKETS == id % BUCKETS && 0 <= x < 265
      invariant forall y :: y in m && y < x && SameBucket(y, id) ==> y <= id && (y == id ==> m[y] == key)
      invariant exact <==> id in m && id < x
      decreases 265 - x
    {
      if x in m {
        assert SameBucket(x, id);
        if x > id { return true, exact; }
        if x == id {
          if m[x] != key { return true, exact; }
          exact := true;
        }
      }
      x := x + BUCKETS;
    }
    return false, exact;
  }

  function Extend(done: seq<NewKey>, rest: Outcome): Outcome {
    if rest.Fail? then rest else Updates(done + rest.keys)
  }

  lemma ExtendCons(done: seq<NewKey>, k: NewKey, rest: Outcome)
    ensures Extend(done, Cons(k, rest)) == Extend(done + [k], rest)
  {
    if rest.Updates? {
      assert done + ([k] + rest.keys) == (done + [k]) + rest.keys;
    }
  }

  /** The entries of a plain message, collected one by one and checked against the group's table and each other. */
  method CollectKeys(plain: Bytes, end: nat, m: GroupKeys) returns (r: Outcome)
    requires end <= |plain|
    ensures r == ReadKeys(plain, 13, end, m, {})
  {
    var p, updates, buckets: set<nat> := 13, [], {};
    assert Extend([], ReadKeys(plain, p, end, m, {})) == ReadKeys(plain, p, end, m, {}) by {
      var rest := ReadKeys(plain, p, end, m, {});
      if rest.Updates? { assert [] + rest.keys == rest.keys; }
    }
    while p < end
      invariant ReadKeys(plain, 13, end, m, {}) == Extend(updates, ReadKeys(plain, p, end, m, buckets))
      decreases end - p
    {
      if end - p < 2 { return Fail(BadValue); }
      var tag, length := plain[p], plain[p + 1];
      if length as int > end - p - 2 { return Fail(BadValue); }
      if tag != 0x10 { return Fail(Unsupported); }
      if length != 9 || plain[p + 2] == 0xff || plain[p + 2] % BUCKETS in buckets { return Fail(BadValue); }
      var id, key := plain[p + 2], plain[p + 3..p + 11];
      var clash, exact := FindClash(m, id, key);
      if clash { return Fail(InvalidState); }
      var next := buckets + {id % BUCKETS};
      ExtendCons(updates, NewKey(id, key, exact), ReadKeys(plain, p + 11, end, m, next));
      p, updates, buckets := p + 11, updates + [NewKey(id, key, exact)], next;
    }
    assert updates + [] == updates;
    return Updates(updates);
  }

  method JudgeMessage(c: Cipher, s: State, tables: seq<GroupKeys>, message: Bytes, individual: bool) returns (v: Verdict)
    requires CipherOk(c) && |s.groups| == |tables| == GROUPS && 17 <= |message| <= 256
    ensures v == Judge(c, s, tables, message, individual)
  {
    if message[..6] != c.cardId { return Settle(Ok); }
    var protocol := message[if individual then 8 else 7];
    if !ProtocolSupported(protocol) && !(individual && protocol == 0xff) { return Settle(Unsupported); }
    var decoded := c.decodeEmm(message, individual);
    if decoded.NoMessage? { return Settle(Ok); }
    if !decoded.Plain? { return Settle(DecodeResult(decoded)); }
    if individual { return Settle(Unsupported); }
    var plain := decoded.value;
    if plain[..6] != c.cardId || plain[6] as int + 7 != |message| { return Settle(BadValue); }
    var g := GroupIndex(plain[8]);
    if g == GROUPS { return Settle(Unsupported); }
    var number := Be16(plain[9], plain[10]);
    var persisted := s.groups[g];
    if persisted.updated && number <= persisted.number {
      var duplicate := number == persisted.number && persisted.lastMessage == message;
      return Settle(if duplicate then Ok else InvalidState);
    }
    var keys := CollectKeys(plain, |message| - 4, tables[g]);
    if keys.Fail? { return Settle(keys.code); }
    if keys.keys == [] { return Settle(Unsupported); }
    return Accept(Update(g, number, message, keys.keys));
  }

  /** The saved keys of a group after an update. */
  method MergeKeys(keys: seq<Option<WorkKey>>, more: seq<NewKey>) returns (r: seq<Option<WorkKey>>)
    requires |keys| == BUCKETS
    ensures r == KeysAfter(keys, more)
  {
    r := keys;
    var i := 0;
    while i < |more|
      invariant 0 <= i <= |more| && r == KeysAfter(keys, more[..i])
    {
      assert more[..i + 1][..i] == more[..i];
      r := r[more[i].id % BUCKETS := Some(WorkKey(more[i].id, more[i].key))];
      i := i + 1;
    }
    assert more[..i] == more;
  }

  /** The saved keys of one group against the key table. */
  method RestoreTable(c: Cipher, base: GroupKeys, keys: seq<Option<WorkKey>>) returns (r: RestoredGroup)
    requires forall b :: 0 <= b < |keys| ==> KeyOk(keys[b], b)
    ensures r == RestoreGroup(c, base, keys)
  {
    var m, bucket := base, 0;
    while bucket < |keys|
      invariant 0 <= bucket <= |keys| && RestoreGroup(c, base, keys) == RestoreGroup(c, m, keys[bucket..])
    {
      assert KeyOk(keys[bucket], bucket) && keys[bucket..][1..] == keys[bucket + 1..];
      var saved := keys[bucket];
      bucket := bucket + 1;
      if saved.None? { continue; }
      var clash, exact := FindClash(m, saved.value.id, saved.value.key);
      if clash { return GroupClash; }
      if !exact {
        var registered := c.register(m, saved.value.id, saved.value.key);
        if registered.None? { return GroupRegisterFailed; }
        m := registered.value;
      }
    }
    return Table(m);
  }

  function Prefixed(done: seq<GroupKeys>, rest: Restored): Restored {
    if rest.Tables? then Tables(done + rest.tables) else rest
  }

  method RestoreTables(c: Cipher, base: seq<GroupKeys>, groups: seq<Group>) returns (r: Restored)
    requires |base| == |groups| && forall g :: 0 <= g < |groups| ==> GroupOk(groups[g])
    ensures r == RestoreGroups(c, base, groups)
  {
    var g, tables := 0, [];
    assert base[0..] == base && groups[0..] == groups;
    while g < |groups|
      invariant 0 <= g <= |groups|
      invariant RestoreGroups(c, base, groups) == Prefixed(tables, RestoreGroups(c, base[g..], groups[g..]))
    {
      assert base[g..][1..] == base[g + 1..] && groups[g..][1..] == groups[g + 1..];
      ghost var rest := RestoreGroups(c, base[g + 1..], groups[g + 1..]);
      assert GroupOk(groups[g]);
      var table := RestoreTable(c, base[g], groups[g].keys);
      match table {
        case GroupClash => return KeyClash;
        case GroupRegisterFailed => return RegisterFailed;
        case Table(m) =>
          assert rest.Tables? ==> tables + ([m] + rest.tables) == (tables + [m]) + rest.tables;
          tables := tables + [m];
      }
      g := g + 1;
    }
    assert tables + [] == tables;
    return Tables(tables);
  }

  lemma {:induction false} RestoredSize(c: Cipher, base: seq<GroupKeys>, groups: seq<Group>)
    requires |base| == |groups| && RestoreGroups(c, base, groups).Tables?
    ensures |RestoreGroups(c, base, groups).tables| == |groups|
  {
    if groups != [] {
      RestoredSize(c, base[1..], groups[1..]);
    }
  }

  /** Loads a file and restores its keys over the credential file's. */
  method Recover(c: Cipher, file: Bytes, readable: bool) returns (r: Option<(State, seq<GroupKeys>)>)
    requires |c.base| == GROUPS
    ensures r == Recovered(c, file, readable)
    ensures r.Some? ==> Shaped(r.value.0) && |r.value.1| == GROUPS
  {
    if !readable || |file| == 0 || |file| > MAX_STATE_SIZE { return None; }
    var loaded := LoadBytes(file, c.cardId);
    if loaded.None? { return None; }
    CommitOfLoad(file, c.cardId);
    assert forall g :: 0 <= g < |loaded.value.groups| ==> GroupOk(loaded.value.groups[g]);
    var restored := RestoreTables(c, c.base, loaded.value.groups);
    if !restored.Tables? { return None; }
    RestoredSize(c, c.base, loaded.value.groups);
    return Some((loaded.value, restored.tables));
  }

  // ---------------------------------------------------------------- the object

  class YakisobaBackend {
    const cipher: Cipher
    const registry: R.Keys
    var initialized: bool
    var revoked: bool
    var state: State
    var tables: seq<GroupKeys>
    var file: Option<Bytes>
    ghost var durable: Option<Bytes>
    ghost var log: seq<Update>
    ghost var synced: nat

    ghost function Abs(): Sys
      reads this, registry, registry.slots
    {
      Sys(initialized, revoked, state, tables, registry.Abs(), Free, file, durable, log, synced)
    }

    ghost predicate Valid()
      reads this, registry, registry.slots
    {
      registry.Valid() && CipherOk(cipher) && Typed(Abs())
    }

    /** A process that starts with an empty registry and finds the file that the process before it left, if any. */
    constructor (cipher: Cipher, registry: R.Keys, file: Option<Bytes>, ghost before: Sys)
      requires CipherOk(cipher) && registry.Valid() && registry.Abs() == R.Empty() && Typed(before) && file == before.visible
      ensures Valid() && this.cipher == cipher && this.registry == registry
      ensures Abs() == Restart(cipher, before) && (before == Initial(cipher) ==> Abs() == Initial(cipher))
    {
      this.cipher, this.registry, this.file := cipher, registry, file;
      initialized, revoked, state, tables := false, false, Blank(cipher.cardId), cipher.base;
      durable, log, synced := before.durable, before.log, before.synced;
    }

    method Close() returns (result: Result)
      requires Valid()
      modifies this`revoked, registry`arena
      ensures Valid() && Abs() == FailClosed(old(Abs())) && result == Revoked
    {
      revoked := true;
      registry.RevokeAll();
      return Revoked;
    }

    /** Loads the saved state once the credential file has been read. */
    method RestorePersistentState(readable: bool) returns (result: Result)
      requires Valid() && !initialized && !revoked
      modifies this`revoked, this`state, this`tables, registry`arena
      ensures Valid() && (result == Ok || result == Revoked)
      ensures AfterInitialize(cipher, old(Abs()), Loaded, readable) == Abs().(initialized := result == Ok)
    {
      if file.None? {
        state, tables := Blank(cipher.cardId), cipher.base;
        return Ok;
      }
      var recovered := Recover(cipher, file.value, readable);
      if recovered.None? {
        result := Close();
        return;
      }
      state, tables := recovered.value.0, recovered.value.1;
      return Ok;
    }

    method Initialize(credential: Credential, readable: bool) returns (result: Result)
      requires Valid()
      modifies this`initialized, this`revoked, this`state, this`tables, registry`arena
      ensures Valid()
      ensures Abs() == if old(initialized || revoked) then old(Abs())
                       else AfterInitialize(cipher, old(Abs()), credential, readable)
      ensures result == if revoked then Revoked else if initialized then Ok else NotProvisioned
    {
      if revoked { return Revoked; }
      if initialized { return Ok; }
      if credential.Absent? { return NotProvisioned; }
      if credential.Unreadable? {
        result := Close();
        return;
      }
      result := RestorePersistentState(readable);
      if result != Ok { return; }
      initialized := true;
    }

    /** Decodes an ECM and publishes its keys in the slot: the step model's two steps in a row. */
    method DecodeAndPublish(slot: R.SlotId, payload: Bytes) returns (result: Result)
      requires Valid() && Enabled(cipher, Abs(), DecodeEcm(slot, payload))
      modifies registry
      ensures Valid()
      ensures Abs() == AfterEcm(cipher, old(Abs()), slot, payload)
      ensures result == EcmResult(cipher, old(Abs()), slot, payload)
    {
      var g := GroupIndex(payload[1]);
      if g == GROUPS || !ProtocolSupported(payload[0]) { return Unsupported; }
      var decoded := cipher.decodeEcm(payload, tables[g]);
      if !decoded.Plain? { return DecodeResult(decoded); }
      result := registry.Update(slot, decoded.value, payload[1]);
    }

    /** A missing slot or a payload of the wrong size is refused before anything happens. */
    method ProcessEcm(slot: Option<R.SlotId>, payload: Bytes, credential: Credential, readable: bool)
      returns (result: Result)
      requires Valid() && (slot.Some? ==> R.Known(registry.Abs(), slot.value) && registry.Abs().arena[slot.value].held)
      modifies this`initialized, this`revoked, this`state, this`tables, registry
      ensures Valid()
      ensures slot.None? || |payload| < 30 || |payload| > 256 ==> Abs() == old(Abs()) && result == BadValue
      ensures slot.Some? && 30 <= |payload| <= 256 ==>
                var ready := if old(initialized || revoked) then old(Abs())
                             else AfterInitialize(cipher, old(Abs()), credential, readable);
                if ready.revoked then Abs() == ready && result == Revoked
                else if !ready.initialized then Abs() == ready && result == NotProvisioned
                else Typed(ready) && Enabled(cipher, ready, DecodeEcm(slot.value, payload))
                     && Abs() == AfterEcm(cipher, ready, slot.value, payload)
                     && result == EcmResult(cipher, ready, slot.value, payload)
    {
      if slot.None? || |payload| < 30 || |payload| > 256 { return BadValue; }
      result := Initialize(credential, readable);
      if result != Ok { return; }
      result := DecodeAndPublish(slot.value, payload);
    }

    /** One key of a durable update; a refused registration fails closed. */
    method RegisterOne(u: Update, i: nat) returns (done: bool)
      requires Valid() && u.g < GROUPS && !revoked && i < |u.keys|
      modifies this`revoked, this`tables, registry`arena
      ensures Valid() && done == !revoked
      ensures AfterRegister(cipher, old(Abs()).(phase := Registering(u, i))) ==
              if done then Abs().(phase := Registering(u, i + 1)) else Abs()
    {
      if !u.keys[i].duplicate {
        var registered := cipher.register(tables[u.g], u.keys[i].id, u.keys[i].key);
        if registered.None? {
          var _ := Close();
          return false;
        }
        tables := tables[u.g := registered.value];
      }
      return true;
    }

    /** The registration loop; it stops, revoked, when a key is refused. */
    method RegisterKeys(u: Update) returns (done: bool)
      requires Valid() && u.g < GROUPS && !revoked
      modifies this`revoked, this`tables, registry`arena
      ensures Valid() && done == !revoked
      ensures Install(cipher, old(Abs()).(phase := Registering(u, 0))) ==
              if done then Install(cipher, Abs().(phase := Registering(u, |u.keys|))) else Abs()
    {
      ghost var start := Abs().(phase := Registering(u, 0));
      var i := 0;
      while i < |u.keys|
        invariant 0 <= i <= |u.keys| && Valid() && !revoked
        invariant Install(cipher, Abs().(phase := Registering(u, i))) == Install(cipher, start)
      {
        RegisterMoves(cipher, Abs().(phase := Registering(u, i)));
        done := RegisterOne(u, i);
        if !done { return false; }
        i := i + 1;
      }
      return true;
    }

    /** Registers the keys of a durable update, installs it and invalidates the group. */
    method InstallUpdate(u: Update) returns (result: Result)
      requires Valid() && u.g < GROUPS && !revoked
      modifies this`revoked, this`state, this`tables, registry`arena
      ensures Valid() && Abs() == Install(cipher, old(Abs()).(phase := Registering(u, 0)))
      ensures result == if revoked then Revoked else Ok
    {
      var done := RegisterKeys(u);
      if !done { return Revoked; }
      RegisterMoves(cipher, Abs().(phase := Registering(u, |u.keys|)));
      var keys := MergeKeys(state.groups[u.g].keys, u.keys);
      state := state.(groups := state.groups[u.g := Group(true, u.number, u.message, keys)]);
      registry.InvalidateGroup(GROUP_CODES[u.g]);
      return Ok;
    }

    /** Writes an accepted update to the file and, once it is durable, installs it. */
    method CommitUpdate(u: Update, commit: Commit) returns (result: Result)
      requires Valid() && u.g < GROUPS && initialized && !revoked
      modifies this, registry`arena
      ensures Valid() && Abs() == AfterCommit(cipher, old(Abs()).(phase := Committing(u)), commit)
      ensures result == if commit.Unchanged? || !WellFormed(Next(old(state), u)) then Unknown
                        else if revoked then Revoked else Ok
    {
      var keys := MergeKeys(state.groups[u.g].keys, u.keys);
      var next := state.(groups := state.groups[u.g := Group(true, u.number, u.message, keys)]);
      assert next == Next(state, u);
      var bytes := CommitBytes(next);
      if bytes.None? || commit.Unchanged? { return Unknown; }
      file, log := bytes, log + [u];
      if commit.OutcomeUnknown? {
        result := Close();
        return;
      }
      durable, synced := file, |log|;
      result := InstallUpdate(u);
    }

    /** One message: settled at once, or judged, committed and installed. */
    method ApplyMessage(message: Bytes, individual: bool, commit: Commit) returns (result: Result)
      requires Valid() && CanApply(cipher, Abs(), message, individual)
      modifies this, registry`arena
      ensures Valid() && Abs() == AfterMessage(cipher, old(Abs()), message, individual, commit)
      ensures result == MessageResult(cipher, old(Abs()), message, individual, commit)
    {
      var verdict := JudgeMessage(cipher, state, tables, message, individual);
      if verdict.Settle? { return verdict.code; }
      result := CommitUpdate(verdict.u, commit);
    }

    /** The loop over messages that have passed the checks. */
    method ApplyMessages(messages: seq<Section.EmmMessage>, commits: seq<Commit>) returns (result: Result)
      requires Valid() && CanApplyAll(cipher, Abs(), messages, commits)
      modifies this, registry`arena
      ensures Valid() && (Abs(), result) == AfterMessages(cipher, old(Abs()), messages, commits)
    {
      hide AfterMessages, AfterMessage, MessageResult, CanApplyAll, CanApply;
      BatchFits(cipher, Abs(), messages, commits);
      ghost var start := Abs();
      var i := 0;
      assert messages[0..] == messages && commits[0..] == commits;
      while i < |messages|
        invariant 0 <= i <= |messages| <= |commits| && Valid()
        invariant CanApplyAll(cipher, Abs(), messages[i..], commits[i..])
        invariant AfterMessages(cipher, Abs(), messages[i..], commits[i..])
                  == AfterMessages(cipher, start, messages, commits)
      {
        var m := messages[i];
        assert messages[i..][1..] == messages[i + 1..] && commits[i..][1..] == commits[i + 1..];
        assert messages[i..][0] == m && commits[i..][0] == commits[i];
        MessagesStep(cipher, Abs(), messages[i..], commits[i..]);
        result := ApplyMessage(m.payload, m.individual, commits[i]);
        if result != Ok { return; }
        i := i + 1;
      }
      assert messages[i..] == [];
      MessagesEnd(cipher, Abs(), commits[i..]);
      return Ok;
    }

    /** A batch is checked as a whole before anything happens, then applied in order. */
    method ProcessEmm(messages: seq<Section.EmmMessage>, credential: Credential, readable: bool, commits: seq<Commit>)
      returns (result: Result)
      requires Valid() && |messages| <= |commits|
      modifies this, registry`arena
      ensures Valid()
      ensures messages == [] || (exists i :: 0 <= i < |messages| && !Section.Declared(messages[i])) ==>
                Abs() == old(Abs()) && result == BadValue
      ensures messages != [] && (forall i :: 0 <= i < |messages| ==> Section.Declared(messages[i])) ==>
                var ready := if old(initialized || revoked) then old(Abs())
                             else AfterInitialize(cipher, old(Abs()), credential, readable);
                if ready.revoked then Abs() == ready && result == Revoked
                else if !ready.initialized then Abs() == ready && result == NotProvisioned
                else CanApplyAll(cipher, ready, messages, commits)
                     && (Abs(), result) == AfterMessages(cipher, ready, messages, commits)
    {
      if |messages| == 0 { return BadValue; }
      var i := 0;
      while i < |messages|
        invariant 0 <= i <= |messages| && Valid() && Abs() == old(Abs())
        invariant forall k :: 0 <= k < i ==> Section.Declared(messages[k])
      {
        if !Section.Declared(messages[i]) { return BadValue; }
        i := i + 1;
      }
      result := Initialize(credential, readable);
      if result != Ok { return; }
      result := ApplyMessages(messages, commits);
    }

    /** Keys are only handed out while the backend works. */
    method Bind(token: R.Token, readerFd: int) returns (result: Result, fd: int)
      requires Valid()
      ensures revoked ==> result == Revoked
      ensures !revoked && !initialized ==> result == NotProvisioned
      ensures result == Ok <==>
              && Working(Abs()) && readerFd >= 0
              && exists id :: id in R.LiveSlots(Abs().registry) && Abs().registry.arena[id].token == token
                              && R.Readable(Abs().registry.arena[id])
      ensures fd == if result == Ok then readerFd else -1
    {
      if revoked { return Revoked, -1; }
      if !initialized { return NotProvisioned, -1; }
      result, fd := registry.Bind(token, readerFd);
    }
  }
}
