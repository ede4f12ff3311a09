/** Which event an entry of the tables goes back to, and whether what it brought has been withdrawn since. */
module Provenance {
  import opened Basics
  import opened Discovery

  /** The association table before event `n`. */
  function PatAt(events: seq<Event>, n: nat): map<Program, uint16>
    requires n <= |events|
  {
    TablesOf(events[..n]).pat
  }

  /** A map table on `pid` that the association table puts there for `p`. */
  predicate Puts(events: seq<Event>, m: nat, p: Program, pid: uint16) {
    && m < |events| && events[m].AddPmt? && events[m].pid == pid && events[m].sid == p.sid
    && Carries(PatAt(events, m), p, pid, p.sid)
  }

  /** The map table on `pid` is withdrawn. */
  predicate Withdraws(v: Event, p: Program, pid: uint16) {
    v == DropPmt(pid, p.sid)
  }

  /** A withdrawal that finds `p` on `pid`, or the end of the association table. */
  predicate Removes(events: seq<Event>, n: nat, p: Program, pid: uint16) {
    n < |events| && (events[n].DropPat? || (Withdraws(events[n], p, pid) && Carries(PatAt(events, n), p, pid, p.sid)))
  }

  /** The last map table put down for `p` on `pid`, with nothing removed since. */
  ghost predicate Source(events: seq<Event>, m: nat, p: Program, pid: uint16) {
    Puts(events, m, p, pid) && forall n :: m < n < |events| ==> !Puts(events, n, p, pid) && !Removes(events, n, p, pid)
  }

  lemma SameBefore(events: seq<Event>, n: nat, p: Program, pid: uint16)
    requires n + 1 < |events|
    ensures var before := events[..|events| - 1];
            && (Puts(events, n, p, pid) <==> Puts(before, n, p, pid))
            && (Removes(events, n, p, pid) <==> Removes(before, n, p, pid))
  {
    assert events[..|events| - 1][..n] == events[..n];
  }

  lemma SourceBefore(events: seq<Event>, m: nat, p: Program, pid: uint16)
    requires events != [] && m + 1 < |events|
    ensures Source(events, m, p, pid) <==>
            && Source(events[..|events| - 1], m, p, pid)
            && !Puts(events, |events| - 1, p, pid) && !Removes(events, |events| - 1, p, pid)
  {
    var before, last := events[..|events| - 1], |events| - 1;
    SameBefore(events, m, p, pid);
    if Source(events, m, p, pid) {
      forall n: nat | m < n < last ensures !Puts(before, n, p, pid) && !Removes(before, n, p, pid) {
        SameBefore(events, n, p, pid);
      }
    }
    if Source(before, m, p, pid) && !Puts(events, last, p, pid) && !Removes(events, last, p, pid) {
      forall n: nat | m < n < |events| ensures !Puts(events, n, p, pid) && !Removes(events, n, p, pid) {
        if n < last {
          SameBefore(events, n, p, pid);
        }
      }
    }
  }

  /** One event decides about one entry of the stored map tables. */
  lemma StoredStep(t: Tables, v: Event, p: Program, pid: uint16)
    ensures var s, u := PmtKey(p, pid), TablesAfter(t, v);
            var puts := v.AddPmt? && v.pid == pid && v.sid == p.sid && Carries(t.pat, p, pid, p.sid);
            var removes := v.DropPat? || (Withdraws(v, p, pid) && Carries(t.pat, p, pid, p.sid));
            && (s in u.stored <==> puts || (s in t.stored && !removes))
            && (s in u.stored ==> u.stored[s] == if puts then v.facts else t.stored[s])
  {
  }

  ghost predicate HasSource(events: seq<Event>, p: Program, pid: uint16) {
    exists m: nat :: Source(events, m, p, pid)
  }

  /** Sources before the last event stay sources, unless the last event puts or removes. */
  lemma SourceLast(events: seq<Event>, p: Program, pid: uint16)
    requires events != []
    ensures var before, last := events[..|events| - 1], |events| - 1;
            HasSource(events, p, pid) <==>
            Puts(events, last, p, pid) || (HasSource(before, p, pid) && !Removes(events, last, p, pid))
  {
    var before, last := events[..|events| - 1], |events| - 1;
    if Puts(events, last, p, pid) {
      assert Source(events, last, p, pid);
    } else {
      if m: nat :| Source(events, m, p, pid) {
        assert m < last by { assert Puts(events, m, p, pid); }
        SourceBefore(events, m, p, pid);
      }
      if m: nat :| Source(before, m, p, pid) {
        assert m < last by { assert Puts(before, m, p, pid); }
        SourceBefore(events, m, p, pid);
      }
    }
  }

  /** An entry is stored exactly when it has a source, and holds what its source brought. */
  lemma {:induction false} StoredIff(events: seq<Event>, p: Program, pid: uint16)
    ensures PmtKey(p, pid) in TablesOf(events).stored <==> HasSource(events, p, pid)
    ensures forall m: nat :: Source(events, m, p, pid) ==>
              PmtKey(p, pid) in TablesOf(events).stored && TablesOf(events).stored[PmtKey(p, pid)] == events[m].facts
    decreases |events|
  {
    if events != [] {
      var before, last := events[..|events| - 1], |events| - 1;
      StoredIff(before, p, pid);
      StoredStep(TablesOf(before), events[last], p, pid);
      SourceLast(events, p, pid);
      assert events[..last] == before;
      hide TablesAfter, HasSource;
      forall m: nat | Source(events, m, p, pid)
        ensures PmtKey(p, pid) in TablesOf(events).stored && TablesOf(events).stored[PmtKey(p, pid)] == events[m].facts
      {
        assert Puts(events, m, p, pid);
        if m < last {
          SourceBefore(events, m, p, pid);
        }
      }
    }
  }

  /** The entry of the association table for `p` goes back to its last mention since the table began. */
  ghost predicate PatSource(events: seq<Event>, m: nat, p: Program) {
    && m < |events| && events[m].AddProgram? && events[m].program == p
    && forall n :: m < n < |events| ==> !events[n].DropPat? && !(events[n].AddProgram? && events[n].program == p)
  }

  lemma {:induction false} PatIff(events: seq<Event>, p: Program)
    ensures p in TablesOf(events).pat <==> exists m: nat :: PatSource(events, m, p)
    ensures forall m: nat :: PatSource(events, m, p) ==> p in TablesOf(events).pat && TablesOf(events).pat[p] == events[m].pid
    decreases |events|
  {
    if events != [] {
      var before, last := events[..|events| - 1], |events| - 1;
      PatIff(before, p);
      var v := events[last];
      forall m | 0 <= m < last
        ensures PatSource(events, m, p) <==>
                PatSource(before, m, p) && !v.DropPat? && !(v.AddProgram? && v.program == p)
      {
        assert forall n :: m < n < last ==> before[n] == events[n];
      }
      assert PatSource(events, last, p) <==> v.AddProgram? && v.program == p;
      if m: nat :| PatSource(before, m, p) {
        assert m < last;
      }
    }
  }

  // ---------------------------------------------------------------- facts that were withdrawn

  /** What is stored for `p` on `pid` came from a map table that has been withdrawn since. */
  ghost predicate Outdated(events: seq<Event>, p: Program, pid: uint16) {
    exists m: nat, n: nat :: m < n < |events| && Source(events, m, p, pid) && Withdraws(events[n], p, pid)
  }

  /** Since the map table was put down, a withdrawal came while the association table had `p` elsewhere. */
  ghost predicate Missed(events: seq<Event>, p: Program, pid: uint16) {
    exists m: nat, n: nat :: && m < n < |events| && Source(events, m, p, pid) && Withdraws(events[n], p, pid)
                   && !Carries(PatAt(events, n), p, pid, p.sid)
  }

  /** Withdrawn facts remain exactly when the withdrawal missed them. */
  lemma OutdatedIffMissed(events: seq<Event>, p: Program, pid: uint16)
    ensures Outdated(events, p, pid) <==> Missed(events, p, pid)
  {
    if Outdated(events, p, pid) {
      var m: nat, n: nat :| m < n < |events| && Source(events, m, p, pid) && Withdraws(events[n], p, pid);
      assert !Removes(events, n, p, pid);
    }
  }

  /** Service `k` shows what event `m` brought on `pid`, and that has been withdrawn since. */
  ghost predicate ShowsWithdrawn(events: seq<Event>, m: nat, k: ServiceKey, pid: uint16) {
    && Source(events, m, k.Of(), pid) && (exists n: nat :: m < n < |events| && Withdraws(events[n], k.Of(), pid))
    && k in Run(events).services && Run(events).services[k].facts == events[m].facts
  }

  /** The only service of a program shows facts of a withdrawn map table exactly when the program is back on the
      PID where it missed the withdrawal. */
  lemma ShowsWithdrawnIff(events: seq<Event>, k: ServiceKey, pid: uint16)
    requires Sole(TablesOf(events).announced, k) && k.Of() in TablesOf(events).pat && TablesOf(events).pat[k.Of()] == pid
    ensures (exists m: nat :: ShowsWithdrawn(events, m, k, pid)) <==> Missed(events, k.Of(), pid)
  {
    OutdatedIffMissed(events, k.Of(), pid);
    if Missed(events, k.Of(), pid) {
      var m: nat, n: nat :| m < n < |events| && Source(events, m, k.Of(), pid) && Withdraws(events[n], k.Of(), pid);
      SourceIsShown(events, k, pid, m);
      assert ShowsWithdrawn(events, m, k, pid);
    }
  }

  lemma SourceIsShown(events: seq<Event>, k: ServiceKey, pid: uint16, m: nat)
    requires Sole(TablesOf(events).announced, k) && k.Of() in TablesOf(events).pat && TablesOf(events).pat[k.Of()] == pid
    requires Source(events, m, k.Of(), pid)
    ensures k in Run(events).services && Run(events).services[k].facts == events[m].facts
  {
    IncrementalIsBatch(events, k);
    StoredIff(events, k.Of(), pid);
    hide Run, TablesOf, Source, HasSource;
  }

  lemma Extend(events: seq<Event>, v: Event, t: Tables)
    requires TablesOf(events) == t
    ensures TablesOf(events + [v]) == TablesAfter(t, v)
  {
    RunLast(events, v);
  }

  /** A program moved to another PID and back shows its old facts, although they were withdrawn in between. */
  lemma WithdrawalCanMiss(k: ServiceKey, pid: uint16, other: uint16, facts: Facts)
    requires pid != other
    ensures var p := k.Of();
            var events := [Announce(k)] + [AddProgram(p, pid)] + [AddPmt(pid, p.sid, facts)] + [AddProgram(p, other)]
                          + [DropPmt(pid, p.sid)] + [AddProgram(p, pid)];
            k in Run(events).services && Run(events).services[k].facts == facts
  {
    var p := k.Of();
    var e1 := [Announce(k)];
    var e2 := e1 + [AddProgram(p, pid)];
    var e3 := e2 + [AddPmt(pid, p.sid, facts)];
    var e4 := e3 + [AddProgram(p, other)];
    var e5 := e4 + [DropPmt(pid, p.sid)];
    var e6 := e5 + [AddProgram(p, pid)];
    var stored := map[PmtKey(p, pid) := facts];
    assert [] + [Announce(k)] == e1;
    Extend([], Announce(k), Tables(map[], map[], {}));
    Extend(e1, AddProgram(p, pid), Tables(map[], map[], {k}));
    assert Carries(map[p := pid], p, pid, p.sid);
    Extend(e2, AddPmt(pid, p.sid, facts), Tables(map[p := pid], map[], {k}));
    assert TablesOf(e3).stored == stored;
    Extend(e3, AddProgram(p, other), Tables(map[p := pid], stored, {k}));
    assert !Carries(map[p := other], p, pid, p.sid);
    Extend(e4, DropPmt(pid, p.sid), Tables(map[p := other], stored, {k}));
    assert TablesOf(e5).stored == stored;
    Extend(e5, AddProgram(p, pid), Tables(map[p := other], stored, {k}));
    assert TablesOf(e6) == Tables(map[p := pid], stored, {k});
    assert Sole({k}, k);
    IncrementalIsBatch(e6, k);
  }

  // ---------------------------------------------------------------- two services for one program

  function AnnouncedAt(events: seq<Event>, n: nat): set<ServiceKey>
    requires n <= |events|
  {
    TablesOf(events[..n]).announced
  }

  /** Event `n` announces a rival: until then `k` was the only service of its program. */
  predicate RivalAt(events: seq<Event>, n: nat, k: ServiceKey) {
    n < |events| && Sole(AnnouncedAt(events, n), k) && !Sole(AnnouncedAt(events, n + 1), k)
  }

  /** Since event `n`, the association table ended or the map table on `pid` was withdrawn from `p`. */
  ghost predicate TakenBack(events: seq<Event>, n: nat, p: Program, pid: uint16) {
    exists m: nat :: n < m < |events| && Removes(events, m, p, pid)
  }

  lemma LastEvent(events: seq<Event>, n: nat)
    requires events != [] && n < |events|
    ensures var before := events[..|events| - 1];
            && before[..n] == events[..n]
            && Run(events) == After(Run(before), events[|events| - 1])
            && TablesOf(events) == TablesAfter(TablesOf(before), events[|events| - 1])
  {
    assert events[..|events| - 1][..n] == events[..n];
  }

  lemma EngineTables(events: seq<Event>)
    ensures Run(events).pat == TablesOf(events).pat && Run(events).services.Keys == TablesOf(events).announced
  {
    RunInv(events);
  }

  lemma StaysUnlessRemoved(e: Engine, v: Event, k: ServiceKey, pid: uint16)
    requires k in e.services && !Sole(e.services.Keys, k) && e.services[k].pmtPid == Some(pid)
    ensures var hit := v.DropPat? || (v == DropPmt(pid, k.sid) && Carries(e.pat, k.Of(), pid, k.sid));
            && k in After(e, v).services
            && (hit ==> After(e, v).services[k].facts == NOTHING)
            && (!hit ==> After(e, v).services[k] == e.services[k])
  {
    AmbiguousIsFrozen(e, v, k);
  }

  lemma RivalChangesNothing(e: Engine, v: Event, k: ServiceKey)
    requires Sole(e.services.Keys, k) && v.Announce? && !Sole(e.services.Keys + {v.service}, k)
    ensures var a := After(e, v); k in a.services && !Sole(a.services.Keys, k) && a.services[k] == e.services[k]
  {
    var other := v.service;
    var named := e.(services := e.services[other := Service(None, NOTHING)]);
    assert named.services.Keys == e.services.Keys + {other};
    assert other.Of() == k.Of() && other != k;
    assert !Sole(named.services.Keys, other) by { assert k in named.services.Keys; }
    ResolvedIff(named.services.Keys, other);
  }

  lemma OnlyNamesAdd(t: Tables, v: Event, k: ServiceKey)
    ensures TablesAfter(t, v).announced == if v.Announce? then t.announced + {v.service} else t.announced
  {
  }

  /** From the rival on, nothing changes what `k` shows but being taken back. */
  lemma {:induction false} FrozenSince(events: seq<Event>, k: ServiceKey, n: nat, pid: uint16)
    requires RivalAt(events, n, k)
    requires k in Run(events[..n]).services && Run(events[..n]).services[k].pmtPid == Some(pid)
    ensures k in Run(events).services && !Sole(Run(events).services.Keys, k)
    ensures if TakenBack(events, n, k.Of(), pid) then Run(events).services[k].facts == NOTHING
            else Run(events).services[k] == Run(events[..n]).services[k]
    decreases |events|
  {
    var last := |events| - 1;
    var before, v := events[..last], events[last];
    LastEvent(events, n);
    EngineTables(before);
    if last == n {
      OnlyNamesAdd(TablesOf(before), v, k);
      assert events[..n + 1] == events;
      hide Run, TablesOf, After, TablesAfter;
      RivalChangesNothing(Run(before), v, k);
    } else {
      assert events[..n + 1] == before[..n + 1];
      FrozenSince(before, k, n, pid);
      TakenBackLast(events, n, k.Of(), pid);
      hide Run, TablesOf, After, TablesAfter, TakenBack;
      AmbiguousIsFrozen(Run(before), v, k);
      if !TakenBack(before, n, k.Of(), pid) {
        StaysUnlessRemoved(Run(before), v, k, pid);
      }
    }
  }

  lemma TakenBackLast(events: seq<Event>, n: nat, p: Program, pid: uint16)
    requires n + 1 < |events|
    ensures var before, last := events[..|events| - 1], |events| - 1;
            && (TakenBack(events, n, p, pid) <==> TakenBack(before, n, p, pid) || Removes(events, last, p, pid))
            && (Removes(events, last, p, pid) <==>
                  events[last].DropPat? || (events[last] == DropPmt(pid, p.sid) && Carries(TablesOf(before).pat, p, pid, p.sid)))
  {
    var before, last := events[..|events| - 1], |events| - 1;
    forall m: nat | m < last ensures Removes(events, m, p, pid) <==> Removes(before, m, p, pid) {
      SameBefore(events, m, p, pid);
    }
    hide Removes;
    assert forall m: nat :: n < m < last ==> (Removes(events, m, p, pid) <==> Removes(before, m, p, pid));
  }

  /** What shows nothing while it has a rival goes on showing nothing. */
  lemma {:induction false} NothingSince(events: seq<Event>, k: ServiceKey, n: nat)
    requires n <= |events| && k in Run(events[..n]).services && !Sole(Run(events[..n]).services.Keys, k)
    requires Run(events[..n]).services[k].facts == NOTHING
    ensures k in Run(events).services && Run(events).services[k].facts == NOTHING
    ensures !Sole(Run(events).services.Keys, k)
    decreases |events|
  {
    if n == |events| {
      assert events[..n] == events;
    } else {
      LastEvent(events, n);
      hide Run, After;
      var before := events[..|events| - 1];
      NothingSince(before, k, n);
      AmbiguousIsFrozen(Run(before), events[|events| - 1], k);
    }
  }

  lemma NeverAloneBefore(events: seq<Event>, k: ServiceKey)
    requires events != [] && forall n :: 0 <= n <= |events| ==> !Sole(AnnouncedAt(events, n), k)
    ensures var before := events[..|events| - 1]; forall n :: 0 <= n <= |before| ==> !Sole(AnnouncedAt(before, n), k)
  {
    hide TablesOf, Sole;
    var before := events[..|events| - 1];
    forall n | 0 <= n <= |before| ensures !Sole(AnnouncedAt(before, n), k) {
      assert before[..n] == events[..n];
      assert !Sole(AnnouncedAt(events, n), k);
    }
  }

  /** A service that is announced beside another one, and never was alone, shows nothing. */
  lemma {:induction false} NeverAlone(events: seq<Event>, k: ServiceKey)
    requires k in TablesOf(events).announced && forall n :: 0 <= n <= |events| ==> !Sole(AnnouncedAt(events, n), k)
    ensures k in Run(events).services && Run(events).services[k].facts == NOTHING
    decreases |events|
  {
    assert events[..|events|] == events;
    if events != [] {
      var last := |events| - 1;
      var before, v := events[..last], events[last];
      LastEvent(events, last);
      EngineTables(before);
      EngineTables(events);
      OnlyNamesAdd(TablesOf(before), v, k);
      hide Run, TablesOf, TablesAfter;
      if k in TablesOf(before).announced {
        NeverAloneBefore(events, k);
        assert !Sole(AnnouncedAt(events, last), k);
        NeverAlone(before, k);
        AmbiguousIsFrozen(Run(before), v, k);
      } else {
        assert !Sole(AnnouncedAt(events, |events|), k);
        ResolvedIff(Run(events).services.Keys, k);
        NewBesideRival(Run(before), k);
      }
    }
  }

  lemma NewBesideRival(e: Engine, k: ServiceKey)
    requires k !in e.services && !Sole(e.services.Keys + {k}, k)
    ensures var a := AfterAnnounce(e, k); k in a.services && a.services[k].facts == NOTHING
  {
    var named := e.(services := e.services[k := Service(None, NOTHING)]);
    assert named.services.Keys == e.services.Keys + {k};
    ResolvedIff(named.services.Keys, k);
  }

  /** Who was alone and is not has met its rival in between. */
  lemma {:induction false} RivalIsMet(events: seq<Event>, k: ServiceKey, n: nat) returns (m: nat)
    requires n <= |events| && Sole(AnnouncedAt(events, n), k) && !Sole(AnnouncedAt(events, |events|), k)
    ensures RivalAt(events, m, k)
    decreases |events| - n
  {
    if Sole(AnnouncedAt(events, n + 1), k) {
      m := RivalIsMet(events, k, n + 1);
    } else {
      m := n;
    }
  }

  /** Over any run, a service with a rival shows the join of the moment before the rival was announced, or nothing if
      that has been taken back since; a service that never was alone shows nothing. */
  lemma AmbiguousShows(events: seq<Event>, k: ServiceKey)
    requires k in TablesOf(events).announced && !Sole(TablesOf(events).announced, k)
    ensures k in Run(events).services
    ensures forall n: nat :: RivalAt(events, n, k) ==>
              var t, p := TablesOf(events[..n]), k.Of();
              Run(events).services[k].facts ==
              if p in t.pat && TakenBack(events, n, p, t.pat[p]) then NOTHING else Join(t.pat, t.stored, p)
    ensures (forall n: nat :: !RivalAt(events, n, k)) ==> Run(events).services[k].facts == NOTHING
  {
    EngineTables(events);
    forall n: nat | RivalAt(events, n, k)
      ensures var t, p := TablesOf(events[..n]), k.Of();
              Run(events).services[k].facts ==
              if p in t.pat && TakenBack(events, n, p, t.pat[p]) then NOTHING else Join(t.pat, t.stored, p)
    {
      ShowsSince(events, k, n);
    }
    if forall n: nat :: !RivalAt(events, n, k) {
      forall n | 0 <= n <= |events| ensures !Sole(AnnouncedAt(events, n), k) {
        if Sole(AnnouncedAt(events, n), k) {
          assert events[..|events|] == events;
          var m := RivalIsMet(events, k, n);
          assert false;
        }
      }
      NeverAlone(events, k);
    }
  }

  lemma ShowsSince(events: seq<Event>, k: ServiceKey, n: nat)
    requires RivalAt(events, n, k)
    ensures k in Run(events).services
    ensures var t, p := TablesOf(events[..n]), k.Of();
            Run(events).services[k].facts ==
            if p in t.pat && TakenBack(events, n, p, t.pat[p]) then NOTHING else Join(t.pat, t.stored, p)
  {
    var t, p := TablesOf(events[..n]), k.Of();
    AloneShows(events[..n], k);
    hide Run, TablesOf, TakenBack;
    var s := Run(events[..n]).services[k];
    if s.pmtPid.Some? {
      FrozenSince(events, k, n, s.pmtPid.value);
    } else {
      NothingSinceRival(events, k, n);
    }
  }

  lemma AloneShows(events: seq<Event>, k: ServiceKey)
    requires Sole(TablesOf(events).announced, k)
    ensures k in Run(events).services
    ensures var s, t := Run(events).services[k], TablesOf(events);
            && s.facts == Join(t.pat, t.stored, k.Of())
            && (s.pmtPid.Some? ==> k.Of() in t.pat && s.pmtPid.value == t.pat[k.Of()])
            && (s.pmtPid.None? ==> s.facts == NOTHING)
  {
    RunInv(events);
    hide Run, TablesOf, Linked;
  }

  lemma NothingSinceRival(events: seq<Event>, k: ServiceKey, n: nat)
    requires RivalAt(events, n, k) && k in Run(events[..n]).services && Run(events[..n]).services[k].facts == NOTHING
    ensures k in Run(events).services && Run(events).services[k].facts == NOTHING
  {
    var upto := events[..n + 1];
    LastEvent(upto, n);
    assert upto[..n] == events[..n] && upto[n] == events[n];
    EngineTables(events[..n]);
    OnlyNamesAdd(TablesOf(events[..n]), events[n], k);
    hide Run, TablesOf, After, TablesAfter;
    RivalChangesNothing(Run(events[..n]), events[n], k);
    NothingSince(events, k, n + 1);
  }
}
