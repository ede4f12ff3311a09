/** What holds over every run of the backend, with crashes and restarts anywhere in it. */
module BackendRuns {
  import opened Basics
  import opened KeyCells
  import opened StateCodec
  import opened Backend
  import R = KeyRegistry

  ghost predicate IsRun(c: Cipher, trace: seq<Sys>, acts: seq<Action>) {
    && CipherOk(c)
    && |trace| == |acts| + 1
    && trace[0] == Initial(c)
    && forall j :: 0 <= j < |acts| ==> Moves(c, trace[j], acts[j], trace[j + 1])
  }

  ghost predicate Moves(c: Cipher, s: Sys, a: Action, t: Sys)
    requires CipherOk(c)
  {
    Typed(s) && Enabled(c, s, a) && t == Step(c, s, a)
  }

  lemma {:induction false} RunInv(c: Cipher, trace: seq<Sys>, acts: seq<Action>, j: nat)
    requires IsRun(c, trace, acts) && j < |trace|
    ensures Inv(c, trace[j])
  {
    hide Inv, Initial, Moves;
    if j == 0 {
      InitialInv(c);
    } else {
      RunInv(c, trace, acts, j - 1);
      MoveInv(c, trace[j - 1], acts[j - 1], trace[j]);
    }
  }

  lemma MoveInv(c: Cipher, s: Sys, a: Action, t: Sys)
    requires CipherOk(c) && Inv(c, s) && Moves(c, s, a, t)
    ensures Inv(c, t)
  {
    hide Inv, Step, Enabled;
    StepInv(c, s, a);
  }

  predicate Restarts(a: Action) {
    a.ProcessDeath? || a.PowerCut?
  }

  // ---------------------------------------------------------------- freshness

  /** The group whose keys are being replaced: its new keys are in the file, its slots not yet cleared. */
  function Busy(p: Phase): Option<nat> {
    match p
    case Renamed(u) => Some(u.g)
    case Registering(u, _) => Some(u.g)
    case Invalidating(g) => Some(g)
    case _ => None
  }

  /** A step of installing an accepted update of group `g`: its file, one of its keys, or its slots. */
  predicate Replaces(s: Sys, a: Action, t: Sys, g: nat) {
    || (a == Rename && Busy(t.phase) == Some(g))
    || ((a == Sync || a == SyncFailed || a == RegisterNext || a == Invalidate) && Busy(s.phase) == Some(g))
  }

  /** Neither a restart nor any step of an update of `g` in between. */
  ghost predicate Quiet(trace: seq<Sys>, acts: seq<Action>, from: nat, to: nat, g: nat)
    requires to <= |acts| < |trace|
  {
    forall m :: from <= m < to ==> !Restarts(acts[m]) && !Replaces(trace[m], acts[m], trace[m + 1], g)
  }

  /** Step `k` decodes an ECM of group `code` for slot `id` to these keys. */
  ghost predicate DecodedAt(c: Cipher, s: Sys, a: Action, id: R.SlotId, code: byte, keys: Secret) {
    && a.DecodeEcm? && a.slot == id && |s.tables| == GROUPS && DecodesTo(c, s.tables, a.payload, code, keys)
  }

  /** The keys were decoded for this slot, and nothing about their group has changed since. */
  ghost predicate Sourced(c: Cipher, trace: seq<Sys>, acts: seq<Action>, j: nat, id: R.SlotId, code: byte, keys: Secret)
    requires j <= |acts| < |trace|
  {
    exists k :: 0 <= k < j && DecodedAt(c, trace[k], acts[k], id, code, keys) && Quiet(trace, acts, k, j, GroupIndex(code))
  }

  ghost predicate SlotSourced(c: Cipher, trace: seq<Sys>, acts: seq<Action>, j: nat, id: R.SlotId)
    requires j <= |acts| < |trace| && id < |trace[j].registry.arena|
  {
    var slot := trace[j].registry.arena[id];
    R.Readable(slot) ==>
      Busy(trace[j].phase) == Some(GroupIndex(slot.group)) || Sourced(c, trace, acts, j, id, slot.group, Contents(slot.cell).value)
  }

  lemma SourcedStays(c: Cipher, trace: seq<Sys>, acts: seq<Action>, j: nat, id: R.SlotId, code: byte, keys: Secret)
    requires j < |acts| < |trace| && Sourced(c, trace, acts, j, id, code, keys)
    requires !Restarts(acts[j]) && !Replaces(trace[j], acts[j], trace[j + 1], GroupIndex(code))
    ensures Sourced(c, trace, acts, j + 1, id, code, keys)
  {
    hide DecodedAt, Replaces;
    var k :| 0 <= k < j && DecodedAt(c, trace[k], acts[k], id, code, keys) && Quiet(trace, acts, k, j, GroupIndex(code));
    assert Quiet(trace, acts, k, j + 1, GroupIndex(code));
  }

  /** Where a readable slot comes from in one step: it was just published, or it was the same before. */
  ghost predicate Inherited(s: Sys, a: Action, t: Sys, id: R.SlotId)
    requires id < |t.registry.arena|
  {
    var slot := t.registry.arena[id];
    || (a == PublishKeys && s.phase.Publishing? && s.phase.slot == id && |s.phase.payload| >= 2
        && slot.group == s.phase.payload[1] && Contents(slot.cell) == Some(s.phase.keys))
    || (&& id < |s.registry.arena| && R.Readable(s.registry.arena[id]) && s.registry.arena[id].group == slot.group
        && Contents(s.registry.arena[id].cell) == Contents(slot.cell) && !Restarts(a)
        && (Busy(t.phase) != Some(GroupIndex(slot.group)) ==>
              !Replaces(s, a, t, GroupIndex(slot.group)) && Busy(s.phase) != Some(GroupIndex(slot.group))))
  }

  lemma UpdatePublishes(reg: R.Registry, slot: R.SlotId, keys: Secret, code: byte, id: R.SlotId)
    requires R.Inv(reg) && R.Known(reg, slot)
    requires var t := R.AfterUpdate(reg, slot, keys, code); id < |t.arena| && R.Readable(t.arena[id])
    ensures id < |reg.arena|
    ensures var now := R.AfterUpdate(reg, slot, keys, code).arena[id];
            if id == slot then now.group == code && Contents(now.cell) == Some(keys) else now == reg.arena[id]
  {
    assert R.SlotOk(reg, slot);
    hide R.Inv, Settled;
    StoreContents(reg.arena[slot].cell, Some(keys));
  }

  lemma PublishInherits(c: Cipher, s: Sys, id: R.SlotId)
    requires Typed(s) && R.Inv(s.registry) && s.phase.Publishing?
    requires id < |AfterPublish(s).registry.arena| && R.Readable(AfterPublish(s).registry.arena[id])
    ensures Inherited(s, PublishKeys, AfterPublish(s), id)
  {
    hide R.Inv, R.AfterUpdate;
    UpdatePublishes(s.registry, s.phase.slot, s.phase.keys, s.phase.payload[1], id);
  }

  lemma SessionInherits(c: Cipher, s: Sys, b: R.Action, id: R.SlotId)
    requires CipherOk(c) && Inv(c, s) && SessionAllowed(s, b)
    requires var t := s.(registry := R.Apply(s.registry, b)); id < |t.registry.arena| && R.Readable(t.registry.arena[id])
    ensures Inherited(s, Session(b), s.(registry := R.Apply(s.registry, b)), id)
  {
    SessionPublishesNothing(s.registry, b);
  }

  lemma InvalidateInherits(c: Cipher, s: Sys, id: R.SlotId)
    requires CipherOk(c) && Inv(c, s) && s.phase.Invalidating?
    requires id < |AfterInvalidate(s).registry.arena| && R.Readable(AfterInvalidate(s).registry.arena[id])
    ensures Inherited(s, Invalidate, AfterInvalidate(s), id)
  {
    R.InvalidatedGroupIsUnreadable(s.registry, GROUP_CODES[s.phase.g], id);
  }

  lemma FailClosedShowsNothing(c: Cipher, s: Sys, id: R.SlotId)
    requires R.Inv(s.registry) && id < |FailClosed(s).registry.arena|
    ensures !R.Readable(FailClosed(s).registry.arena[id])
  {
    R.RevokedRegistry(s.registry);
  }

  /** Steps that leave the registry alone, or clear all of it. */
  lemma CommitInherits(c: Cipher, s: Sys, a: Action, id: R.SlotId)
    requires CipherOk(c) && Typed(s) && R.Inv(s.registry) && Enabled(c, s, a)
    requires a.CommitUnchanged? || a.Rename? || a.Sync? || a.SyncFailed?
    requires id < |Step(c, s, a).registry.arena| && R.Readable(Step(c, s, a).registry.arena[id])
    ensures Inherited(s, a, Step(c, s, a), id)
  {
    hide CipherOk, R.Inv, Next, WellFormed, Encode, R.Readable;
    FailClosedShowsNothing(c, s, id);
  }

  lemma RegisterInherits(c: Cipher, s: Sys, id: R.SlotId)
    requires CipherOk(c) && Typed(s) && R.Inv(s.registry) && s.phase.Registering?
    requires id < |AfterRegister(c, s).registry.arena| && R.Readable(AfterRegister(c, s).registry.arena[id])
    ensures Inherited(s, RegisterNext, AfterRegister(c, s), id)
  {
    hide CipherOk, R.Inv, Next, R.Readable;
    FailClosedShowsNothing(c, s, id);
  }

  lemma OtherInherits(c: Cipher, s: Sys, a: Action, id: R.SlotId)
    requires CipherOk(c) && Typed(s) && R.Inv(s.registry) && Enabled(c, s, a)
    requires a.Initialize? || a.DecodeEcm? || a.Receive? || Restarts(a)
    requires id < |Step(c, s, a).registry.arena| && R.Readable(Step(c, s, a).registry.arena[id])
    ensures Inherited(s, a, Step(c, s, a), id)
  {
    FailClosedShowsNothing(c, s, id);
    hide CipherOk, R.Inv, Recovered, Judge;
  }

  lemma StepInherits(c: Cipher, s: Sys, a: Action, id: R.SlotId)
    requires CipherOk(c) && Inv(c, s) && Enabled(c, s, a)
    requires id < |Step(c, s, a).registry.arena| && R.Readable(Step(c, s, a).registry.arena[id])
    ensures Inherited(s, a, Step(c, s, a), id)
  {
    assert Typed(s) && R.Inv(s.registry);
    hide Inv, Inherited, AfterPublish, AfterInvalidate;
    match a {
      case PublishKeys => PublishInherits(c, s, id);
      case Session(b) => SessionInherits(c, s, b, id);
      case Invalidate => InvalidateInherits(c, s, id);
      case RegisterNext => RegisterInherits(c, s, id);
      case Initialize(_, _) => OtherInherits(c, s, a, id);
      case DecodeEcm(_, _) => OtherInherits(c, s, a, id);
      case Receive(_, _) => OtherInherits(c, s, a, id);
      case ProcessDeath => OtherInherits(c, s, a, id);
      case PowerCut(_) => OtherInherits(c, s, a, id);
      case _ => CommitInherits(c, s, a, id);
    }
  }

  /** A publishing phase begins with its decode and lasts through session steps only. */
  ghost predicate Continued(c: Cipher, s: Sys, a: Action, t: Sys)
    requires t.phase.Publishing? && |t.phase.payload| >= 2
  {
    || DecodedAt(c, s, a, t.phase.slot, t.phase.payload[1], t.phase.keys)
    || (s.phase == t.phase && a.Session?)
  }

  lemma StepContinues(c: Cipher, s: Sys, a: Action)
    requires CipherOk(c) && Typed(s) && Enabled(c, s, a) && Step(c, s, a).phase.Publishing?
    requires |Step(c, s, a).phase.payload| >= 2
    ensures Continued(c, s, a, Step(c, s, a))
  {
    hide Recovered, Judge;
  }

  ghost predicate PhaseIsSourced(c: Cipher, trace: seq<Sys>, acts: seq<Action>, j: nat)
    requires j <= |acts| < |trace|
  {
    var p := trace[j].phase;
    p.Publishing? ==> |p.payload| >= 2 && Sourced(c, trace, acts, j, p.slot, p.payload[1], p.keys)
  }

  ghost predicate SlotsAreSourced(c: Cipher, trace: seq<Sys>, acts: seq<Action>, j: nat)
    requires j <= |acts| < |trace|
  {
    forall id :: 0 <= id < |trace[j].registry.arena| ==> SlotSourced(c, trace, acts, j, id)
  }

  lemma {:induction false} AllSourced(c: Cipher, trace: seq<Sys>, acts: seq<Action>, j: nat)
    requires IsRun(c, trace, acts) && j < |trace|
    ensures PhaseIsSourced(c, trace, acts, j) && SlotsAreSourced(c, trace, acts, j)
  {
    hide Inv, Moves;
    if j > 0 {
      AllSourced(c, trace, acts, j - 1);
      RunInv(c, trace, acts, j - 1);
      RunInv(c, trace, acts, j);
      assert Moves(c, trace[j - 1], acts[j - 1], trace[j]);
      hide PhaseIsSourced, SlotsAreSourced;
      SourcedStep(c, trace, acts, j - 1, j);
    } else {
      hide SlotSourced;
      assert trace[0] == Initial(c);
    }
  }

  lemma SourcedStep(c: Cipher, trace: seq<Sys>, acts: seq<Action>, k: nat, j: nat)
    requires CipherOk(c) && j == k + 1 <= |acts| < |trace| && Inv(c, trace[k]) && Inv(c, trace[j])
    requires Moves(c, trace[k], acts[k], trace[j])
    requires PhaseIsSourced(c, trace, acts, k) && SlotsAreSourced(c, trace, acts, k)
    ensures PhaseIsSourced(c, trace, acts, j) && SlotsAreSourced(c, trace, acts, j)
  {
    var s, a, t := trace[k], acts[k], trace[j];
    assert Typed(t);
    hide Inv, Step, Enabled;
    if t.phase.Publishing? {
      StepContinues(c, s, a);
      PhaseSourced(c, trace, acts, j);
    }
    forall id | 0 <= id < |t.registry.arena| ensures SlotSourced(c, trace, acts, j, id) {
      if R.Readable(t.registry.arena[id]) {
        StepInherits(c, s, a, id);
        SlotStep(c, trace, acts, k, j, id);
      }
    }
  }

  lemma PhaseSourced(c: Cipher, trace: seq<Sys>, acts: seq<Action>, j: nat)
    requires 0 < j <= |acts| < |trace| && trace[j].phase.Publishing? && |trace[j].phase.payload| >= 2
    requires Continued(c, trace[j - 1], acts[j - 1], trace[j]) && PhaseIsSourced(c, trace, acts, j - 1)
    ensures var p := trace[j].phase; Sourced(c, trace, acts, j, p.slot, p.payload[1], p.keys)
  {
    var p, k := trace[j].phase, j - 1;
    hide DecodesTo;
    if DecodedAt(c, trace[k], acts[k], p.slot, p.payload[1], p.keys) {
      assert Quiet(trace, acts, k, j, GroupIndex(p.payload[1]));
    } else {
      SourcedStays(c, trace, acts, k, p.slot, p.payload[1], p.keys);
    }
  }

  lemma SlotStep(c: Cipher, trace: seq<Sys>, acts: seq<Action>, k: nat, j: nat, id: R.SlotId)
    requires j == k + 1 <= |acts| < |trace| && id < |trace[j].registry.arena| && R.Readable(trace[j].registry.arena[id])
    requires Inherited(trace[k], acts[k], trace[j], id)
    requires PhaseIsSourced(c, trace, acts, k) && SlotsAreSourced(c, trace, acts, k)
    ensures SlotSourced(c, trace, acts, j, id)
  {
    var slot := trace[j].registry.arena[id];
    hide Sourced;
    if Busy(trace[j].phase) != Some(GroupIndex(slot.group)) {
      if id < |trace[k].registry.arena| {
        assert SlotSourced(c, trace, acts, k, id);
      }
      SourcedStays(c, trace, acts, k, id, slot.group, Contents(slot.cell).value);
    }
  }

  /** Whenever the mutex is free, the keys of every readable slot were decoded from an ECM of its group for this
      very slot, after the last step of any accepted update of the group; and the group's work keys as they are
      now still decode an ECM to them. */
  lemma ReadableKeysAreFresh(c: Cipher, trace: seq<Sys>, acts: seq<Action>, j: nat, id: R.SlotId)
    requires IsRun(c, trace, acts) && j < |trace| && trace[j].phase.Free?
    requires id < |trace[j].registry.arena| && R.Readable(trace[j].registry.arena[id])
    ensures trace[j].initialized && !trace[j].revoked
    ensures var slot := trace[j].registry.arena[id];
            exists k :: 0 <= k < j && DecodedAt(c, trace[k], acts[k], id, slot.group, Contents(slot.cell).value)
                        && Quiet(trace, acts, k, j, GroupIndex(slot.group))
    ensures |trace[j].tables| == GROUPS && Fresh(c, trace[j].tables, trace[j].registry.arena[id])
  {
    RunInv(c, trace, acts, j);
    AllSourced(c, trace, acts, j);
    hide IsRun, DecodedAt, Quiet;
    assert SlotSourced(c, trace, acts, j, id);
  }

  /** Once it has failed closed, a process never makes a slot readable again. */
  lemma {:induction false} FailedClosedStaysClosed(c: Cipher, trace: seq<Sys>, acts: seq<Action>, i: nat, j: nat)
    requires IsRun(c, trace, acts) && i <= j < |trace| && trace[i].revoked
    requires forall k :: i <= k < j ==> !Restarts(acts[k])
    ensures trace[j].revoked
    ensures forall id :: 0 <= id < |trace[j].registry.arena| ==> !R.Readable(trace[j].registry.arena[id])
  {
    if i < j {
      FailedClosedStaysClosed(c, trace, acts, i, j - 1);
      assert Moves(c, trace[j - 1], acts[j - 1], trace[j]);
      RevokedStays(c, trace[j - 1], acts[j - 1]);
    }
    RunInv(c, trace, acts, j);
    RevokedIsUnreadable(c, trace[j]);
  }

  lemma RevokedStays(c: Cipher, s: Sys, a: Action)
    requires CipherOk(c) && Typed(s) && Enabled(c, s, a) && s.revoked && !Restarts(a)
    ensures Step(c, s, a).revoked
  {
  }

  lemma RevokedIsUnreadable(c: Cipher, s: Sys)
    requires FreshOk(c, s.tables, s.registry.arena, Active(s), Stale(s.phase)) && s.revoked
    ensures forall id :: 0 <= id < |s.registry.arena| ==> !R.Readable(s.registry.arena[id])
  {
  }

  /** At every instant the file, and what a power cut would leave of it, is the outcome of a
      prefix of the updates accepted so far, each newer than those before it in its group. */
  lemma CrashConsistent(c: Cipher, trace: seq<Sys>, acts: seq<Action>, j: nat)
    requires IsRun(c, trace, acts) && j < |trace|
    ensures trace[j].synced <= |trace[j].log|
    ensures Holds(c, trace[j].visible, trace[j].log)
    ensures Holds(c, trace[j].durable, trace[j].log[..trace[j].synced])
  {
    RunInv(c, trace, acts, j);
  }

  /** The message of step `a` is judged acceptable, as update `u`. */
  ghost predicate AcceptedAt(c: Cipher, s: Sys, a: Action, u: Update)
    requires CipherOk(c)
  {
    && a.Receive? && 17 <= |a.message| <= 256 && |s.state.groups| == |s.tables| == GROUPS
    && Judge(c, s.state, s.tables, a.message, a.individual) == Accept(u)
  }

  /** The update was accepted at an earlier step, and since then only sessions have moved. */
  ghost predicate Accepted(c: Cipher, trace: seq<Sys>, acts: seq<Action>, j: nat, u: Update)
    requires CipherOk(c) && j <= |acts| < |trace|
  {
    exists k :: && 0 <= k < j && AcceptedAt(c, trace[k], acts[k], u)
                && trace[k].state == trace[j].state && trace[k].log == trace[j].log
                && forall m :: k < m < j ==> acts[m].Session?
  }

  lemma CommittingStep(c: Cipher, s: Sys, a: Action)
    requires CipherOk(c) && Typed(s) && Enabled(c, s, a) && Step(c, s, a).phase.Committing?
    ensures var t := Step(c, s, a);
            && t.state == s.state && t.log == s.log
            && ((s.phase == t.phase && a.Session?) || AcceptedAt(c, s, a, t.phase.u))
  {
    hide Recovered;
  }

  lemma AcceptedStays(c: Cipher, trace: seq<Sys>, acts: seq<Action>, k: nat, j: nat, u: Update)
    requires CipherOk(c) && j == k + 1 <= |acts| < |trace| && acts[k].Session?
    requires Accepted(c, trace, acts, k, u) && trace[j].state == trace[k].state && trace[j].log == trace[k].log
    ensures Accepted(c, trace, acts, j, u)
  {
    hide AcceptedAt, CipherOk;
    var i :| && 0 <= i < k && AcceptedAt(c, trace[i], acts[i], u)
             && trace[i].state == trace[k].state && trace[i].log == trace[k].log
             && forall m :: i < m < k ==> acts[m].Session?;
    assert AcceptedAt(c, trace[i], acts[i], u);
  }

  lemma AcceptedNow(c: Cipher, trace: seq<Sys>, acts: seq<Action>, k: nat, j: nat, u: Update)
    requires CipherOk(c) && j == k + 1 <= |acts| < |trace| && AcceptedAt(c, trace[k], acts[k], u)
    requires trace[j].state == trace[k].state && trace[j].log == trace[k].log
    ensures Accepted(c, trace, acts, j, u)
  {
    hide AcceptedAt, CipherOk;
    assert AcceptedAt(c, trace[k], acts[k], u);
  }

  /** A commit in progress goes back to a message accepted in the state that is still in memory. */
  lemma {:induction false} CommitWasAccepted(c: Cipher, trace: seq<Sys>, acts: seq<Action>, j: nat)
    requires IsRun(c, trace, acts) && j < |trace| && trace[j].phase.Committing?
    ensures Accepted(c, trace, acts, j, trace[j].phase.u)
  {
    hide Accepted, AcceptedAt, Typed, Enabled, Step;
    if j > 0 {
      var u := trace[j].phase.u;
      assert Moves(c, trace[j - 1], acts[j - 1], trace[j]);
      CommittingStep(c, trace[j - 1], acts[j - 1]);
      if trace[j - 1].phase == trace[j].phase && acts[j - 1].Session? {
        CommitWasAccepted(c, trace, acts, j - 1);
        AcceptedStays(c, trace, acts, j - 1, j, u);
      } else {
        AcceptedNow(c, trace, acts, j - 1, j, u);
      }
    }
  }

  /** An update enters the log only when a message has been judged acceptable against the very state that the
      rest of the log leads to, with nothing but sessions in between. */
  lemma LogGrowsByAcceptedUpdates(c: Cipher, trace: seq<Sys>, acts: seq<Action>, j: nat)
    requires IsRun(c, trace, acts) && j + 1 < |trace|
    ensures LogExtended(c, trace[j], acts[j], trace[j + 1].log)
    ensures trace[j].phase.Committing? ==> Accepted(c, trace, acts, j, trace[j].phase.u)
  {
    RunInv(c, trace, acts, j);
    assert Moves(c, trace[j], acts[j], trace[j + 1]);
    LogStep(c, trace[j], acts[j]);
    if trace[j].phase.Committing? {
      CommitWasAccepted(c, trace, acts, j);
    }
  }

  ghost predicate LogExtended(c: Cipher, s: Sys, a: Action, log: seq<Update>) {
    || log == s.log
    || (a == PowerCut(false) && s.synced <= |s.log| && log == s.log[..s.synced])
    || (&& a == Rename && s.phase.Committing? && log == s.log + [s.phase.u]
        && LogOk(s.log) && s.state == Replay(c, s.log) && Newer(s.state, s.phase.u))
  }

  lemma LogStep(c: Cipher, s: Sys, a: Action)
    requires CipherOk(c) && Typed(s) && PhaseOk(c, s) && Enabled(c, s, a)
    ensures LogExtended(c, s, a, Step(c, s, a).log)
  {
    hide CipherOk, Judge, Recovered, Encode, WellFormed, Next, TablesOk, KeysPending;
  }

  /** While the backend serves and its mutex is free, loading the file gives the state in memory. */
  lemma MemoryEqualsDisk(c: Cipher, trace: seq<Sys>, acts: seq<Action>, j: nat)
    requires IsRun(c, trace, acts) && j < |trace| && Working(trace[j])
    ensures trace[j].visible.None? ==> trace[j].state == Blank(c.cardId)
    ensures trace[j].visible.Some? ==> LoadFile(trace[j].visible.value, c.cardId, true) == Some(trace[j].state)
  {
    RunInv(c, trace, acts, j);
    FileLoads(c, trace[j].visible, trace[j].log);
  }

  lemma FileLoads(c: Cipher, file: Option<Bytes>, log: seq<Update>)
    requires Holds(c, file, log)
    ensures file.None? ==> Replay(c, log) == Blank(c.cardId)
    ensures file.Some? ==> LoadFile(file.value, c.cardId, true) == Some(Replay(c, log))
  {
    if file.Some? {
      ReplayOk(c, log);
      LoadOfCommit(Replay(c, log));
      EncodedSize(Replay(c, log));
      assert |file.value| > 0;
    }
  }

  ghost predicate Recovers(c: Cipher, s: Sys, expected: State)
    requires |c.base| == GROUPS && |expected.groups| == GROUPS
  {
    var t := AfterInitialize(c, s, Loaded, true);
    || (t.initialized && !t.revoked && t.state == expected)
    || (s.visible.Some? && RestoreGroups(c, c.base, expected.groups).RegisterFailed?)
  }

  /** Loading the file leads to what its updates lead to. */
  ghost predicate ComesBack(c: Cipher, s: Sys) {
    |c.base| == GROUPS && LogOk(s.log) && Recovers(c, s, Replay(c, s.log))
  }

  lemma RecoversAlways(c: Cipher, s: Sys)
    requires CipherOk(c) && Inv(c, s) && !s.initialized && !s.revoked
    ensures Recovers(c, s, Replay(c, s.log))
  {
    FileLoads(c, s.visible, s.log);
    if s.visible.Some? {
      RestoreNeverClashes(c, Replay(c, s.log));
    }
  }

  /** What is found when a process starts again. */
  ghost function Found(c: Cipher, s: Sys, a: Action): Sys
    requires Restarts(a) && s.synced <= |s.log|
  {
    if a.ProcessDeath? then Restart(c, s)
    else if a.renameKept then Restart(c, s).(durable := s.visible, synced := |s.log|)
    else Restart(c, s).(visible := s.durable, log := s.log[..s.synced])
  }

  lemma FoundComesBack(c: Cipher, s: Sys, a: Action)
    requires CipherOk(c) && Inv(c, s) && Restarts(a) && s.synced <= |s.log|
    ensures ComesBack(c, Found(c, s, a))
  {
    hide Inv, Recovers, Replay, LogOk;
    RestartInv(c, s);
    var t := Found(c, s, a);
    RecoversAlways(c, t);
    InvHasLog(c, t);
  }

  lemma InvHasLog(c: Cipher, s: Sys)
    requires Inv(c, s)
    ensures LogOk(s.log)
  {
  }

  /** A restart at any instant loads the file, and no saved id or key makes it fail closed:
      it comes up with the replayed state unless registering a key fails. */
  lemma RestartNeverClashes(c: Cipher, trace: seq<Sys>, acts: seq<Action>, j: nat, a: Action)
    requires IsRun(c, trace, acts) && j < |trace| && Restarts(a)
    ensures Typed(trace[j]) && ComesBack(c, Step(c, trace[j], a))
  {
    RunInv(c, trace, acts, j);
    assert CipherOk(c);
    hide IsRun, Inv, CipherOk, ComesBack, Restart;
    InvIsTyped(c, trace[j]);
    FoundComesBack(c, trace[j], a);
  }

  /** Within one group the numbers of the updates on disk strictly increase. */
  lemma {:induction false} NumbersIncrease(c: Cipher, log: seq<Update>, i: nat, k: nat)
    requires LogOk(log) && Ordered(c, log) && i < k < |log| && log[i].g == log[k].g
    ensures log[i].number < log[k].number
  {
    if k < |log| - 1 {
      NumbersIncrease(c, log[..|log| - 1], i, k);
    } else {
      NumberReached(c, log[..k], i);
    }
  }

  lemma {:induction false} NumberReached(c: Cipher, log: seq<Update>, i: nat)
    requires LogOk(log) && Ordered(c, log) && i < |log|
    ensures var g := Replay(c, log).groups[log[i].g]; g.updated && g.number >= log[i].number
  {
    if i < |log| - 1 {
      NumberReached(c, log[..|log| - 1], i);
    }
  }
}
