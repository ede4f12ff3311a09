/** The registry's stores on one slot, and the readers of that slot's memory, access by access. */
module SlotReaders {
  import opened Basics
  import opened KeyCells
  import R = KeyRegistry
  import L = SeqLock

  /** The store that a registry operation makes on a slot, if it makes one. */
  ghost function StoreOf(reg: R.Registry, a: R.Action, id: R.SlotId): Option<Option<Secret>>
    requires R.Known(reg, id)
  {
    match a
    case OpenSlot(_, _) => None
    case CloseSlot(i) => if i == id then Some(None) else None
    case UpdateSlot(i, keys, _) => if i == id && reg.arena[id].live then Some(Some(keys)) else None
    case DropSlot(i) => if i == id then Some(None) else None
    case InvalidateSlots(group) => if R.Reaches(reg, id) && reg.arena[id].group == group then Some(None) else None
    case RevokeSlots => if R.Reaches(reg, id) then Some(None) else None
  }

  /** All stores on a slot up to step `j`. */
  ghost function Stores(trace: seq<R.Registry>, acts: seq<R.Action>, id: R.SlotId, j: nat): seq<Option<Secret>>
    requires j <= |acts| < |trace|
  {
    if j == 0 then []
    else
      Stores(trace, acts, id, j - 1) +
      if R.Known(trace[j - 1], id) && StoreOf(trace[j - 1], acts[j - 1], id).Some?
      then [StoreOf(trace[j - 1], acts[j - 1], id).value] else []
  }

  lemma StepStores(reg: R.Registry, a: R.Action, id: R.SlotId)
    requires R.Enabled(reg, a) && R.Known(reg, id)
    ensures var v, next := StoreOf(reg, a, id), R.Apply(reg, a);
            R.Known(next, id) && next.arena[id].cell == if v.Some? then AfterStore(reg.arena[id].cell, v.value) else reg.arena[id].cell
  {
  }

  lemma NewSlotIsFresh(reg: R.Registry, a: R.Action, id: R.SlotId)
    requires R.Enabled(reg, a) && !R.Known(reg, id) && R.Known(R.Apply(reg, a), id)
    ensures R.Apply(reg, a).arena[id].cell == FRESH
  {
  }

  /** A slot's memory holds what its stores leave. */
  lemma {:induction false} CellIsStores(trace: seq<R.Registry>, acts: seq<R.Action>, id: R.SlotId, j: nat)
    requires R.IsRun(trace, acts) && j < |trace|
    ensures R.Known(trace[j], id) ==> trace[j].arena[id].cell == L.CellAfter(Stores(trace, acts, id, j))
    ensures !R.Known(trace[j], id) ==> Stores(trace, acts, id, j) == []
    decreases j
  {
    if j > 0 {
      CellIsStores(trace, acts, id, j - 1);
      R.RunContinues(trace, acts, j - 1, j);
      var reg, a, before := trace[j - 1], acts[j - 1], Stores(trace, acts, id, j - 1);
      assert R.Enabled(reg, a) && trace[j] == R.Apply(reg, a);
      hide R.IsRun, R.Apply, StoreOf;
      assert before + [] == before;
      if R.Known(reg, id) {
        StepStores(reg, a, id);
        if StoreOf(reg, a, id).Some? {
          L.CellAfterLast(before, StoreOf(reg, a, id).value);
        }
      } else if R.Known(trace[j], id) {
        NewSlotIsFresh(reg, a, id);
      }
    }
  }

  predicate Clearing(values: seq<Option<Secret>>) {
    forall i :: 0 <= i < |values| ==> values[i] == None
  }

  ghost predicate Dead(reg: R.Registry, id: R.SlotId) {
    R.Known(reg, id) && !(reg.arena[id].live && reg.arena[id].held)
  }

  lemma DeadStep(reg: R.Registry, a: R.Action, id: R.SlotId)
    requires R.Inv(reg) && R.Enabled(reg, a) && Dead(reg, id)
    ensures StoreOf(reg, a, id).Some? ==> StoreOf(reg, a, id).value == None
  {
  }

  lemma DeadInRun(trace: seq<R.Registry>, acts: seq<R.Action>, id: R.SlotId, i: nat, j: nat)
    requires R.IsRun(trace, acts) && i <= j < |acts| < |trace| && Dead(trace[i], id)
    ensures R.Known(trace[j], id)
    ensures StoreOf(trace[j], acts[j], id).Some? ==> StoreOf(trace[j], acts[j], id).value == None
  {
    R.RunContinues(trace, acts, i, j);
    R.RunKeepsInv(trace, acts, j);
    assert R.Enabled(trace[j], acts[j]);
    hide R.IsRun, R.Inv, StoreOf;
    DeadStep(trace[j], acts[j], id);
  }

  /** On a dead slot the registry only ever clears. */
  lemma {:induction false} DeadIsOnlyCleared(trace: seq<R.Registry>, acts: seq<R.Action>, id: R.SlotId, i: nat, j: nat)
    returns (more: seq<Option<Secret>>)
    requires R.IsRun(trace, acts) && i <= j < |trace| && Dead(trace[i], id)
    ensures Stores(trace, acts, id, j) == Stores(trace, acts, id, i) + more && Clearing(more)
    decreases j
  {
    assert |trace| == |acts| + 1;
    hide R.IsRun, R.Inv, StoreOf, Dead;
    if i == j {
      more := [];
      assert Stores(trace, acts, id, i) + [] == Stores(trace, acts, id, i);
    } else {
      var less := DeadIsOnlyCleared(trace, acts, id, i, j - 1);
      DeadInRun(trace, acts, id, i, j - 1);
      var v := StoreOf(trace[j - 1], acts[j - 1], id);
      more := less + if v.Some? then [v.value] else [];
      assert Stores(trace, acts, id, i) + more == Stores(trace, acts, id, j - 1) + if v.Some? then [v.value] else [];
    }
  }

  lemma {:induction false} BegunGrows(acts: seq<L.Action>, i: nat, j: nat)
    requires i <= j <= |acts|
    ensures L.Begun(acts, i) <= L.Begun(acts, j)
    decreases j
  {
    if i < j {
      BegunGrows(acts, i, j - 1);
    }
  }

  lemma {:induction false} BegunAt(acts: seq<L.Action>, k: nat, j: nat)
    requires k < j <= |acts| && acts[k].StartStore?
    ensures |L.Begun(acts, k)| < |L.Begun(acts, j)| && L.Begun(acts, j)[|L.Begun(acts, k)|] == acts[k].value
  {
    BegunGrows(acts, k + 1, j);
    assert L.Begun(acts, k + 1) == L.Begun(acts, k) + [acts[k].value];
  }

  /** The memory's accesses carry out the registry's stores on the slot, in order; so far, perhaps not all of them. */
  ghost predicate Serves(acts: seq<L.Action>, trace: seq<R.Registry>, ops: seq<R.Action>, id: R.SlotId)
    requires |ops| < |trace|
  {
    L.Begun(acts, |acts|) <= Stores(trace, ops, id, |ops|)
  }

  /** No `Some` store begins after those that came before the slot's death. */
  lemma OnlyClearingBegins(acts: seq<L.Action>, trace: seq<R.Registry>, ops: seq<R.Action>, id: R.SlotId, i: nat, from: nat, k: nat)
    requires R.IsRun(trace, ops) && i < |trace| && Dead(trace[i], id) && Serves(acts, trace, ops, id)
    requires from <= k < |acts| && L.Begun(acts, from) == Stores(trace, ops, id, i)
    ensures !(acts[k].StartStore? && acts[k].value.Some?)
  {
    if acts[k].StartStore? {
      var more := DeadIsOnlyCleared(trace, ops, id, i, |ops|);
      BegunGrows(acts, from, k);
      BegunAt(acts, k, |acts|);
      hide R.IsRun;
      var n, m := |L.Begun(acts, k)|, |Stores(trace, ops, id, i)|;
      assert acts[k].value == Stores(trace, ops, id, |ops|)[n] == more[n - m];
    }
  }

  /** Once a slot is closed, revoked or dropped and the clearing store is through, no reader that begins
      afterwards gets keys, however its loads interleave with whatever stores are still to come. */
  lemma NoReaderAfterDeath(trace: seq<R.Registry>, ops: seq<R.Action>, id: R.SlotId, i: nat,
                           memory: seq<L.System>, acts: seq<L.Action>, from: nat,
                           r: L.ReaderId, start: nat, end: nat, result: L.Snapshot)
    requires R.IsRun(trace, ops) && i < |trace| && Dead(trace[i], id)
    requires L.IsRun(memory, acts) && Serves(acts, trace, ops, id)
    requires from <= start && from < |memory| && memory[from].writer.Resting?
    requires L.Begun(acts, from) == Stores(trace, ops, id, i)
    requires L.Answers(memory, acts, r, start, end, result)
    ensures !result.Taken?
  {
    R.DeadSlotStaysUnreadable(trace, ops, i, i, id);
    CellIsStores(trace, ops, id, i);
    L.RunTracks(memory, acts, from);
    L.RunKeepsInv(memory, acts, from);
    forall k | from <= k < end ensures !(acts[k].StartStore? && acts[k].value.Some?) {
      OnlyClearingBegins(acts, trace, ops, id, i, from, k);
    }
    hide R.IsRun, L.IsRun, Stores;
    assert L.Current(memory[from]) == Contents(memory[from].cell) == None;
    L.NoKeysAfterClearing(memory, acts, from, r, start, end, result);
  }

  /** Closing and revoking kill. */
  lemma CloseAndRevokeKill(trace: seq<R.Registry>, ops: seq<R.Action>, id: R.SlotId, i: nat)
    requires R.IsRun(trace, ops) && i < |ops| && R.Known(trace[i], id)
    requires ops[i] == R.CloseSlot(id) || ops[i] == R.DropSlot(id) || ops[i] == R.RevokeSlots
    ensures Dead(trace[i + 1], id)
  {
    R.RunKeepsInv(trace, ops, i);
    assert R.Enabled(trace[i], ops[i]) && trace[i + 1] == R.Apply(trace[i], ops[i]);
    assert R.SlotOk(trace[i], id);
  }
}
