/**
 The registry that hands out key slots.

 A slot is named by its index in `arena`, the list of all slots ever made; whoever may update a
 slot holds such an index. `table` holds weak references: an entry whose slot is no longer
 `held` has expired. Random tokens and the outcome of mapping shared memory are inputs.
*/
module KeyRegistry {
  import opened Basics
  import opened KeyCells
  import SeqLock

  const CAPACITY: nat := 64

  const TOKEN_ATTEMPTS: nat := 8

  type Token = t: seq<byte> | |t| == 16 witness seq(16, _ => 0)

  type SlotId = nat

  datatype Slot = Slot(token: Token, cell: KeyCell, live: bool, group: byte, held: bool)

  datatype Registry = Registry(table: seq<Option<SlotId>>, arena: seq<Slot>, issued: set<Token>)

  function Empty(): Registry {
    Registry(seq(CAPACITY, _ => None), [], {})
  }

  predicate ZeroToken(t: Token) {
    forall i :: 0 <= i < |t| ==> t[i] == 0
  }

  /** A reader of this slot's memory can obtain keys. */
  predicate Readable(s: Slot) {
    Contents(s.cell).Some?
  }

  predicate Known(reg: Registry, id: SlotId) {
    id < |reg.arena|
  }

  /** The table entry still leads to its slot. */
  predicate Locks(reg: Registry, i: nat)
    requires i < |reg.table|
  {
    reg.table[i].Some? && reg.table[i].value < |reg.arena| && reg.arena[reg.table[i].value].held
  }

  predicate Vacant(reg: Registry, i: nat)
    requires i < |reg.table|
  {
    Locks(reg, i) ==> !reg.arena[reg.table[i].value].live
  }

  ghost predicate Listed(reg: Registry, id: SlotId) {
    exists i :: 0 <= i < |reg.table| && reg.table[i] == Some(id)
  }

  // ---------------------------------------------------------------- operations

  function Clear(s: Slot): Slot {
    s.(cell := AfterStore(s.cell, None))
  }

  /** The first vacant entry, or the capacity when there is none. */
  function FirstVacant(reg: Registry, from: nat): (i: nat)
    requires from <= |reg.table|
    ensures from <= i <= |reg.table|
    ensures forall k :: from <= k < i ==> !Vacant(reg, k)
    ensures i < |reg.table| ==> Vacant(reg, i)
    decreases |reg.table| - from
  {
    if from == |reg.table| || Vacant(reg, from) then from else FirstVacant(reg, from + 1)
  }

  predicate Usable(reg: Registry, t: Token) {
    t !in reg.issued && !ZeroToken(t)
  }

  /** The first usable token drawn, if no draw before it fails. */
  function Draw(reg: Registry, draws: seq<Option<Token>>): (t: Option<Token>)
    ensures t.Some? ==> Usable(reg, t.value) && t in draws
  {
    if |draws| == 0 || draws[0].None? then None
    else if Usable(reg, draws[0].value) then draws[0]
    else Draw(reg, draws[1..])
  }

  predicate Opens(reg: Registry, draws: seq<Option<Token>>, mapped: bool) {
    && FirstVacant(reg, 0) < |reg.table|
    && Draw(reg, draws).Some?
    && mapped
  }

  function AfterOpen(reg: Registry, draws: seq<Option<Token>>, mapped: bool): Registry {
    if !Opens(reg, draws, mapped) then reg
    else
      var token := Draw(reg, draws).value;
      Registry(reg.table[FirstVacant(reg, 0) := Some(|reg.arena|)],
               reg.arena + [Slot(token, FRESH, true, 0, true)],
               reg.issued + {token})
  }

  function AfterClose(reg: Registry, id: SlotId): Registry
    requires Known(reg, id)
  {
    reg.(arena := reg.arena[id := Clear(reg.arena[id].(live := false))])
  }

  function Updated(s: Slot, keys: Secret, group: byte): Slot {
    if !s.live then s
    else s.(group := group, cell := AfterStore(s.cell, Some(keys)), live := Stored(s.cell))
  }

  function AfterUpdate(reg: Registry, id: SlotId, keys: Secret, group: byte): Registry
    requires Known(reg, id)
  {
    reg.(arena := reg.arena[id := Updated(reg.arena[id], keys, group)])
  }

  /** The last holder lets go: the slot is destroyed, which clears its memory first. */
  function AfterDrop(reg: Registry, id: SlotId): Registry
    requires Known(reg, id)
  {
    reg.(arena := reg.arena[id := Clear(reg.arena[id]).(held := false)])
  }

  ghost predicate Reaches(reg: Registry, id: SlotId)
    requires Known(reg, id)
  {
    Listed(reg, id) && reg.arena[id].held
  }

  ghost function Invalidated(reg: Registry, group: byte, id: SlotId): Slot
    requires Known(reg, id)
  {
    if Reaches(reg, id) && reg.arena[id].group == group then Clear(reg.arena[id]) else reg.arena[id]
  }

  ghost function Withdrawn(reg: Registry, id: SlotId): Slot
    requires Known(reg, id)
  {
    if Reaches(reg, id) then Clear(reg.arena[id].(live := false)) else reg.arena[id]
  }

  ghost function AfterInvalidateGroup(reg: Registry, group: byte): Registry {
    reg.(arena := seq(|reg.arena|, id requires 0 <= id < |reg.arena| => Invalidated(reg, group, id)))
  }

  ghost function AfterRevokeAll(reg: Registry): Registry {
    reg.(arena := seq(|reg.arena|, id requires 0 <= id < |reg.arena| => Withdrawn(reg, id)))
  }

  datatype Action =
    | OpenSlot(draws: seq<Option<Token>>, mapped: bool)
    | CloseSlot(id: SlotId)
    | UpdateSlot(id: SlotId, keys: Secret, group: byte)
    | DropSlot(id: SlotId)
    | InvalidateSlots(group: byte)
    | RevokeSlots

  /** Only a holder can close, update or drop a slot. */
  predicate Enabled(reg: Registry, a: Action) {
    match a
    case CloseSlot(id) => Known(reg, id) && reg.arena[id].held
    case UpdateSlot(id, _, _) => Known(reg, id) && reg.arena[id].held
    case DropSlot(id) => Known(reg, id) && reg.arena[id].held
    case _ => true
  }

  ghost function Apply(reg: Registry, a: Action): Registry
    requires Enabled(reg, a)
  {
    match a
    case OpenSlot(draws, mapped) => AfterOpen(reg, draws, mapped)
    case CloseSlot(id) => AfterClose(reg, id)
    case UpdateSlot(id, keys, group) => AfterUpdate(reg, id, keys, group)
    case DropSlot(id) => AfterDrop(reg, id)
    case InvalidateSlots(group) => AfterInvalidateGroup(reg, group)
    case RevokeSlots => AfterRevokeAll(reg)
  }

  // ---------------------------------------------------------------- invariant

  ghost predicate Inv(reg: Registry) {
    && |reg.table| == CAPACITY
    && TableOk(reg)
    && (forall id :: 0 <= id < |reg.arena| ==> SlotOk(reg, id))
    && TokensDistinct(reg)
  }

  ghost predicate TableOk(reg: Registry) {
    && (forall i :: 0 <= i < |reg.table| && reg.table[i].Some? ==> reg.table[i].value < |reg.arena|)
    && (forall i, j :: 0 <= i < j < |reg.table| && reg.table[i].Some? ==> reg.table[i] != reg.table[j])
  }

  ghost predicate Sound(s: Slot) {
    Settled(s.cell) && (Readable(s) ==> s.live && s.held)
  }

  ghost predicate SlotOk(reg: Registry, id: SlotId)
    requires Known(reg, id)
  {
    && Sound(reg.arena[id])
    && (reg.arena[id].live && reg.arena[id].held ==> Listed(reg, id))
    && reg.arena[id].token in reg.issued && !ZeroToken(reg.arena[id].token)
  }

  ghost predicate TokensDistinct(reg: Registry) {
    forall i, j :: 0 <= i < j < |reg.arena| ==> reg.arena[i].token != reg.arena[j].token
  }

  lemma OpenKeepsInv(reg: Registry, draws: seq<Option<Token>>, mapped: bool)
    requires Inv(reg)
    ensures Inv(AfterOpen(reg, draws, mapped))
  {
    if Opens(reg, draws, mapped) {
      var next := AfterOpen(reg, draws, mapped);
      var e := FirstVacant(reg, 0);
      forall id | 0 <= id < |next.arena| ensures SlotOk(next, id) {
        if id < |reg.arena| {
          assert SlotOk(reg, id) && next.arena[id] == reg.arena[id];
          if reg.arena[id].live && reg.arena[id].held {
            var i :| 0 <= i < |reg.table| && reg.table[i] == Some(id);
            assert i != e;
            assert next.table[i] == Some(id);
          }
        } else {
          assert next.table[e] == Some(id);
        }
      }
      forall i, j | 0 <= i < j < |next.arena| ensures next.arena[i].token != next.arena[j].token {
        assert SlotOk(reg, i);
      }
    }
  }

  /** Operations that change one slot in place keep the rest of the registry. */
  lemma ChangeKeepsInv(reg: Registry, next: Registry)
    requires Inv(reg)
    requires next.table == reg.table && next.issued == reg.issued && |next.arena| == |reg.arena|
    requires forall id :: 0 <= id < |reg.arena| ==>
               next.arena[id].token == reg.arena[id].token && Successor(reg.arena[id], next.arena[id])
    ensures Inv(next)
  {
    forall id | 0 <= id < |next.arena| ensures SlotOk(next, id) {
      assert SlotOk(reg, id);
      if Listed(reg, id) {
        var i :| 0 <= i < |reg.table| && reg.table[i] == Some(id);
        assert next.table[i] == Some(id);
      }
    }
  }

  /** A slot may lose its life and its keys; only a live, held slot may gain keys. */
  ghost predicate Successor(s: Slot, t: Slot) {
    (Sound(s) ==> Sound(t)) && (t.live ==> s.live) && (t.held ==> s.held)
  }

  lemma StepKeepsInv(reg: Registry, a: Action)
    requires Inv(reg) && Enabled(reg, a)
    ensures Inv(Apply(reg, a))
  {
    if a.OpenSlot? {
      OpenKeepsInv(reg, a.draws, a.mapped);
    } else {
      var next := Apply(reg, a);
      forall id | 0 <= id < |reg.arena|
        ensures next.arena[id].token == reg.arena[id].token && Successor(reg.arena[id], next.arena[id])
      {
        assert SlotOk(reg, id);
      }
      ChangeKeepsInv(reg, next);
    }
  }

  /** What every step does to every slot that exists: tokens stay, death is final. */
  ghost predicate Continues(reg: Registry, next: Registry) {
    && |reg.arena| <= |next.arena| && reg.issued <= next.issued
    && forall id :: 0 <= id < |reg.arena| ==>
         && next.arena[id].token == reg.arena[id].token
         && (next.arena[id].live && next.arena[id].held ==> reg.arena[id].live && reg.arena[id].held)
  }

  lemma StepContinues(reg: Registry, a: Action)
    requires Inv(reg) && Enabled(reg, a)
    ensures Continues(reg, Apply(reg, a))
  {
  }

  ghost predicate IsRun(trace: seq<Registry>, acts: seq<Action>) {
    && |trace| == |acts| + 1
    && trace[0] == Empty()
    && forall j :: 0 <= j < |acts| ==> Enabled(trace[j], acts[j]) && trace[j + 1] == Apply(trace[j], acts[j])
  }

  lemma EmptyInv()
    ensures Inv(Empty())
  {
  }

  lemma {:induction false} RunKeepsInv(trace: seq<Registry>, acts: seq<Action>, j: nat)
    requires IsRun(trace, acts) && j < |trace|
    ensures Inv(trace[j])
  {
    if j > 0 {
      RunKeepsInv(trace, acts, j - 1);
      assert Enabled(trace[j - 1], acts[j - 1]) && trace[j] == Apply(trace[j - 1], acts[j - 1]);
      hide IsRun, Inv, Apply, Enabled;
      StepKeepsInv(trace[j - 1], acts[j - 1]);
    } else {
      EmptyInv();
      hide Inv;
    }
  }

  lemma {:induction false} RunContinues(trace: seq<Registry>, acts: seq<Action>, i: nat, j: nat)
    requires IsRun(trace, acts) && i <= j < |trace|
    ensures Continues(trace[i], trace[j])
  {
    hide IsRun, Inv, Apply, Enabled, Continues;
    if i < j {
      RunContinues(trace, acts, i, j - 1);
      RunStep(trace, acts, j - 1);
      StepContinues(trace[j - 1], acts[j - 1]);
      ContinuesOn(trace[i], trace[j - 1], trace[j]);
    } else {
      ContinuesItself(trace[i]);
    }
  }

  lemma RunStep(trace: seq<Registry>, acts: seq<Action>, j: nat)
    requires IsRun(trace, acts) && j + 1 < |trace|
    ensures j < |acts| && Inv(trace[j]) && Enabled(trace[j], acts[j]) && trace[j + 1] == Apply(trace[j], acts[j])
  {
    RunKeepsInv(trace, acts, j);
    hide Inv, Apply, Enabled;
  }

  lemma ContinuesItself(a: Registry)
    ensures Continues(a, a)
  {
  }

  lemma ContinuesOn(a: Registry, b: Registry, c: Registry)
    requires Continues(a, b) && Continues(b, c)
    ensures Continues(a, c)
  {
  }

  // ---------------------------------------------------------------- main results

  ghost function LiveSlots(reg: Registry): set<SlotId> {
    set id | 0 <= id < |reg.arena| && reg.arena[id].live && reg.arena[id].held
  }

  /** In every reachable state at most 64 slots are live, and each of them is in the table. */
  lemma AtMostCapacityLive(trace: seq<Registry>, acts: seq<Action>, j: nat)
    requires IsRun(trace, acts) && j < |trace|
    ensures |LiveSlots(trace[j])| <= CAPACITY
    ensures forall id :: id in LiveSlots(trace[j]) ==> Listed(trace[j], id)
  {
    RunKeepsInv(trace, acts, j);
    var reg := trace[j];
    forall id | id in LiveSlots(reg) ensures Listed(reg, id) {
      assert SlotOk(reg, id);
    }
    ListedIsBounded(reg.table, LiveSlots(reg));
  }

  /** Distinct slots need distinct table entries. */
  lemma {:induction false} ListedIsBounded(table: seq<Option<SlotId>>, ids: set<SlotId>)
    requires forall id :: id in ids ==> Some(id) in table
    ensures |ids| <= |table|
  {
    if |table| == 0 {
      assert ids == {} by {
        forall id ensures id !in ids { assert Some(id) !in table; }
      }
    } else {
      var last := table[|table| - 1];
      var rest := if last.Some? then ids - {last.value} else ids;
      forall id | id in rest ensures Some(id) in table[..|table| - 1] {
        assert Some(id) in table && Some(id) != last;
      }
      ListedIsBounded(table[..|table| - 1], rest);
      if last.Some? {
        assert ids <= rest + {last.value};
        SubsetSize(ids, rest + {last.value});
      }
    }
  }

  lemma {:induction false} SubsetSize(small: set<SlotId>, large: set<SlotId>)
    requires small <= large
    ensures |small| <= |large|
  {
    assert large == small + (large - small);
  }

  /** A token, once given to a slot, is never given to another, in any continuation. */
  lemma TokensAreNeverReissued(trace: seq<Registry>, acts: seq<Action>, i: nat, j: nat, old_: SlotId, new_: SlotId)
    requires IsRun(trace, acts) && i <= j < |trace|
    requires old_ < |trace[i].arena| <= new_ < |trace[j].arena|
    ensures trace[j].arena[old_].token == trace[i].arena[old_].token
    ensures trace[j].arena[new_].token != trace[i].arena[old_].token
    ensures !ZeroToken(trace[j].arena[new_].token)
  {
    RunContinues(trace, acts, i, j);
    RunKeepsInv(trace, acts, j);
    assert SlotOk(trace[j], new_);
  }

  /** A slot that has been closed, revoked or dropped can never be read again. */
  lemma DeadSlotStaysUnreadable(trace: seq<Registry>, acts: seq<Action>, i: nat, j: nat, id: SlotId)
    requires IsRun(trace, acts) && i <= j < |trace|
    requires Known(trace[i], id) && !(trace[i].arena[id].live && trace[i].arena[id].held)
    ensures Known(trace[j], id) && !Readable(trace[j].arena[id])
  {
    RunContinues(trace, acts, i, j);
    RunKeepsInv(trace, acts, j);
    assert SlotOk(trace[j], id);
  }

  /** After `revokeAll` no slot made so far can be read, then or later. */
  lemma RevokeAllIsFinal(trace: seq<Registry>, acts: seq<Action>, i: nat, j: nat, id: SlotId)
    requires IsRun(trace, acts) && i < j < |trace| && acts[i] == RevokeSlots && Known(trace[i], id)
    ensures Known(trace[j], id) && !Readable(trace[j].arena[id])
  {
    RunKeepsInv(trace, acts, i);
    assert SlotOk(trace[i], id);
    DeadSlotStaysUnreadable(trace, acts, i + 1, j, id);
  }

  lemma RevokedRegistry(reg: Registry)
    requires Inv(reg)
    ensures Inv(AfterRevokeAll(reg))
    ensures forall id :: 0 <= id < |AfterRevokeAll(reg).arena| ==> !Readable(AfterRevokeAll(reg).arena[id])
  {
    StepKeepsInv(reg, RevokeSlots);
    forall id | 0 <= id < |reg.arena| ensures !Readable(AfterRevokeAll(reg).arena[id]) {
      assert SlotOk(reg, id);
    }
  }

  /** After `close` the slot cannot be read, then or later. */
  lemma CloseIsFinal(trace: seq<Registry>, acts: seq<Action>, i: nat, j: nat, id: SlotId)
    requires IsRun(trace, acts) && i < j < |trace| && acts[i] == CloseSlot(id)
    ensures Known(trace[j], id) && !Readable(trace[j].arena[id])
  {
    DeadSlotStaysUnreadable(trace, acts, i + 1, j, id);
  }

  /** After `invalidateGroup` no slot of the group can be read; slots of other groups are untouched. */
  lemma InvalidatedGroupIsUnreadable(reg: Registry, group: byte, id: SlotId)
    requires Inv(reg) && Known(reg, id)
    ensures var s := AfterInvalidateGroup(reg, group).arena[id];
            if reg.arena[id].group == group then !Readable(s) else s == reg.arena[id]
  {
    assert SlotOk(reg, id);
  }

  // ---------------------------------------------------------------- the registry object

  class Keys {
    const slots: array<Option<SlotId>>
    var arena: seq<Slot>
    var issued: set<Token>

    ghost function Abs(): Registry
      reads this, slots
    {
      Registry(slots[..], arena, issued)
    }

    ghost predicate Valid()
      reads this, slots
    {
      slots.Length == CAPACITY && Inv(Abs())
    }

    constructor ()
      ensures Valid() && fresh(slots) && Abs() == Empty()
    {
      slots := new Option<SlotId>[CAPACITY](_ => None);
      arena, issued := [], {};
      new;
      assert slots[..] == Empty().table;
    }

    method Open(draws: seq<Option<Token>>, mapped: bool) returns (result: Result, slot: Option<SlotId>)
      requires Valid() && |draws| == TOKEN_ATTEMPTS
      modifies this, slots
      ensures Valid() && Abs() == AfterOpen(old(Abs()), draws, mapped)
      ensures result == if Opens(old(Abs()), draws, mapped) then Ok else Busy
      ensures slot == if result == Ok then Some(|old(arena)|) else None
    {
      ghost var reg := Abs();
      OpenKeepsInv(reg, draws, mapped);
      var empty := 0;
      while empty < slots.Length
        invariant 0 <= empty <= slots.Length && Abs() == reg
        invariant FirstVacant(reg, 0) == FirstVacant(reg, empty)
      {
        var entry := slots[empty];
        if entry.None? || !arena[entry.value].held || !arena[entry.value].live { break; }
        empty := empty + 1;
      }
      if empty == slots.Length { return Busy, None; }
      assert Vacant(reg, empty);
      var attempt := 0;
      while attempt < TOKEN_ATTEMPTS
        invariant 0 <= attempt <= TOKEN_ATTEMPTS && Abs() == reg
        invariant Draw(reg, draws) == Draw(reg, draws[attempt..])
      {
        var drawn := draws[attempt];
        if drawn.None? { return Busy, None; }
        var token := drawn.value;
        if token in issued || ZeroToken(token) {
          assert draws[attempt..][1..] == draws[attempt + 1..];
          attempt := attempt + 1;
          continue;
        }
        if !mapped { return Busy, None; }
        slot := Some(|arena|);
        issued := issued + {token};
        slots[empty] := slot;
        arena := arena + [Slot(token, FRESH, true, 0, true)];
        return Ok, slot;
      }
      return Busy, None;
    }

    method Close(id: SlotId)
      requires Valid() && Enabled(Abs(), CloseSlot(id))
      modifies this
      ensures Valid() && Abs() == AfterClose(old(Abs()), id)
    {
      StepKeepsInv(Abs(), CloseSlot(id));
      arena := arena[id := Clear(arena[id].(live := false))];
    }

    method Update(id: SlotId, keys: Secret, group: byte) returns (result: Result)
      requires Valid() && Enabled(Abs(), UpdateSlot(id, keys, group))
      modifies this
      ensures Valid() && Abs() == AfterUpdate(old(Abs()), id, keys, group)
      ensures result == SessionClosed <==> !old(arena[id].live)
      ensures result == Ok <==> Contents(arena[id].cell) == Some(keys) && old(arena[id].live)
      ensures result in {Ok, SessionClosed, Revoked}
    {
      StepKeepsInv(Abs(), UpdateSlot(id, keys, group));
      assert SlotOk(Abs(), id);
      var s := arena[id];
      if !s.live {
        assert arena[id := s] == arena;
        return SessionClosed;
      }
      s := s.(group := group);
      var stored := Stored(s.cell);
      s := s.(cell := AfterStore(s.cell, Some(keys)));
      if !stored {
        arena := arena[id := s.(live := false)];
        return Revoked;
      }
      arena := arena[id := s];
      return Ok;
    }

    method InvalidateGroup(group: byte)
      requires Valid()
      modifies this`arena
      ensures Valid() && Abs() == AfterInvalidateGroup(old(Abs()), group)
    {
      ghost var reg := Abs();
      StepKeepsInv(reg, InvalidateSlots(group));
      var i := 0;
      while i < slots.Length
        invariant 0 <= i <= slots.Length && |arena| == |reg.arena|
        invariant forall id :: 0 <= id < |arena| ==>
                    arena[id] == if Some(id) in slots[..i] && reg.arena[id].held && reg.arena[id].group == group
                                 then Clear(reg.arena[id]) else reg.arena[id]
      {
        var entry := slots[i];
        if entry.Some? {
          assert entry !in slots[..i];
          if arena[entry.value].held && arena[entry.value].group == group {
            arena := arena[entry.value := Clear(arena[entry.value])];
          }
        }
        i := i + 1;
      }
      assert slots[..i] == reg.table;
      assert arena == AfterInvalidateGroup(reg, group).arena;
    }

    method RevokeAll()
      requires Valid()
      modifies this`arena
      ensures Valid() && Abs() == AfterRevokeAll(old(Abs()))
    {
      ghost var reg := Abs();
      StepKeepsInv(reg, RevokeSlots);
      var i := 0;
      while i < slots.Length
        invariant 0 <= i <= slots.Length && |arena| == |reg.arena|
        invariant forall id :: 0 <= id < |arena| ==>
                    arena[id] == if Some(id) in slots[..i] && reg.arena[id].held
                                 then Clear(reg.arena[id].(live := false)) else reg.arena[id]
      {
        var entry := slots[i];
        if entry.Some? {
          assert entry !in slots[..i];
          if arena[entry.value].held {
            arena := arena[entry.value := Clear(arena[entry.value].(live := false))];
          }
        }
        i := i + 1;
      }
      assert slots[..i] == reg.table;
      assert arena == AfterRevokeAll(reg).arena;
    }

    /** A token opens its slot exactly when a live slot bears it, keys are published and a descriptor is left. */
    method Bind(token: Token, readerFd: int) returns (result: Result, fd: int)
      requires Valid()
      ensures result == SessionClosed || result == Ok || result == Busy || result == NoLicense
      ensures result == Ok <==>
                readerFd >= 0 && exists id :: id in LiveSlots(Abs()) && arena[id].token == token && Readable(arena[id])
      ensures (forall id :: id in LiveSlots(Abs()) ==> arena[id].token != token) ==> result == SessionClosed
      ensures forall id :: id in LiveSlots(Abs()) && arena[id].token == token ==>
                result == if Exhausted(arena[id].cell) then SessionClosed else if !Readable(arena[id]) then NoLicense
                          else if readerFd < 0 then Busy else Ok
      ensures fd == if result == Ok then readerFd else -1
    {
      var i := 0;
      while i < slots.Length
        invariant 0 <= i <= slots.Length
        invariant forall id :: id in LiveSlots(Abs()) && Some(id) in slots[..i] ==> arena[id].token != token
      {
        var entry := slots[i];
        if entry.Some? && arena[entry.value].held && arena[entry.value].live && arena[entry.value].token == token {
          var s := arena[entry.value];
          assert SlotOk(Abs(), entry.value) && entry.value in LiveSlots(Abs());
          var snapshot := SeqLock.TakeSnapshot(_ => s.cell);
          SeqLock.UncontendedSnapshot(s.cell, _ => s.cell);
          if snapshot.Refused? { return snapshot.code, -1; }
          if readerFd >= 0 { return Ok, readerFd; }
          return Busy, -1;
        }
        i := i + 1;
      }
      forall id | id in LiveSlots(Abs()) ensures arena[id].token != token {
        assert SlotOk(Abs(), id);
        assert Some(id) in slots[..i];
      }
      return SessionClosed, -1;
    }
  }
}
