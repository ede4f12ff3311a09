/** The collector: version tracking per table in front of the discovery engine. */
module Collector {
  import opened Basics
  import opened BitStrings
  import opened SectionTracking
  import opened Discovery
  import opened DiscoveryEngine
  import opened Provenance
  import Crc
  import Framing = Section

  datatype TrackerKey = TrackerKey(pid: uint16, table: byte, extension: uint16, scope: uint16)

  const GLOBAL_SCOPE: uint16 := 0xffff

  type Trackers = map<TrackerKey, Tracker>

  /** A current section in the long form, which alone has an extension and a version. */
  predicate Tracked(section: Bytes) {
    DiscoveryEngine.Current(section) && |section| >= 8 && section[1] / 128 == 1
  }

  /** Service tables are told apart by network as well. */
  function KeyOf(pid: uint16, section: Bytes): TrackerKey
    requires Tracked(section)
  {
    var scope := if (section[0] == 0x42 || section[0] == 0x46) && |section| >= 11
                 then Be16(section[8], section[9]) else GLOBAL_SCOPE;
    TrackerKey(pid, section[0], Be16(section[3], section[4]), scope)
  }

  function VersionOf(section: Bytes): Version
    requires Tracked(section)
  {
    section[5] / 2 % 32
  }

  function Get(trackers: Trackers, key: TrackerKey): Tracker {
    if key in trackers then trackers[key] else Fresh()
  }

  function Track(t: Tracker, section: Bytes): (Tracker, bool)
    requires Tracked(section)
  {
    Observed(t, VersionOf(section), section[6], section[7], section)
  }

  /** What the engine withdraws when a table changes its version. */
  function Withdrawal(pid: uint16, section: Bytes): seq<Event>
    requires Tracked(section)
  {
    if pid == 0x0000 && section[0] == 0x00 then [DropPat]
    else if section[0] == 0x02 then [DropPmt(pid, Be16(section[3], section[4]))]
    else []
  }

  /** A new version is tracked from nothing. */
  function Baseline(before: Tracker, section: Bytes): Tracker
    requires Tracked(section)
  {
    if before.version.Some? && before.version.value != VersionOf(section) then Fresh() else before
  }

  /** The trackers after a section, and the events that the engine is given. */
  datatype Pushed = Pushed(trackers: Trackers, events: seq<Event>)

  function Push(malformed: Bytes -> bool, trackers: Trackers, e: Engine, pid: uint16, section: Bytes): Pushed {
    if !Tracked(section) || !Accepts(Get(trackers, KeyOf(pid, section)).version, VersionOf(section)) then
      Pushed(trackers, [])
    else
      var key := KeyOf(pid, section);
      var before := Get(trackers, key);
      var changed := before.version.Some? && before.version.value != VersionOf(section);
      var (after, isNew) := Track(Baseline(before, section), section);
      var first := if changed then Withdrawal(pid, section) else [];
      Pushed(trackers[key := after],
             first + if isNew then Accepted(malformed, Fold(e, first).pat, pid, section)
                     else if section[0] == 0x02 && after.inconsistent then Withdrawal(pid, section)
                     else [])
  }

  /** All events of a stream of sections, whatever they are. */
  function Log(malformed: Bytes -> bool, input: seq<(uint16, Bytes)>): (Trackers, seq<Event>) {
    if input == [] then (map[], [])
    else
      var (trackers, log) := Log(malformed, input[..|input| - 1]);
      var (pid, section) := input[|input| - 1];
      var p := Push(malformed, trackers, Run(log), pid, section);
      (p.trackers, log + p.events)
  }

  // ---------------------------------------------------------------- from events back to sections

  type Input = seq<(uint16, Bytes)>

  /** The events of section `i` of the stream. */
  function StepEvents(malformed: Bytes -> bool, input: Input, i: nat): seq<Event>
    requires i < |input|
  {
    var (trackers, log) := Log(malformed, input[..i]);
    Push(malformed, trackers, Run(log), input[i].0, input[i].1).events
  }

  lemma LogStep(malformed: Bytes -> bool, input: Input, i: nat)
    requires i < |input|
    ensures Log(malformed, input[..i + 1]).1 == Log(malformed, input[..i]).1 + StepEvents(malformed, input, i)
  {
    assert input[..i + 1][..i] == input[..i];
  }

  lemma {:induction false} LogGrows(malformed: Bytes -> bool, input: Input, i: nat, j: nat)
    requires i <= j <= |input|
    ensures Log(malformed, input[..i]).1 <= Log(malformed, input[..j]).1
    decreases j
  {
    hide Log, StepEvents;
    if i < j {
      LogGrows(malformed, input, i, j - 1);
      LogStep(malformed, input, j - 1);
    }
  }

  lemma EmptyLog(malformed: Bytes -> bool, input: Input)
    ensures input == [] ==> Log(malformed, input).1 == []
  {
  }

  /** Every event of the log belongs to one section of the stream. */
  lemma {:induction false} EventHasSection(malformed: Bytes -> bool, input: Input, j: nat, q: nat) returns (i: nat)
    requires j <= |input| && q < |Log(malformed, input[..j]).1|
    ensures i < j && |Log(malformed, input[..i]).1| <= q < |Log(malformed, input[..i + 1]).1|
    ensures Log(malformed, input[..j]).1[q] in StepEvents(malformed, input, i)
    decreases j
  {
    hide Log, StepEvents;
    EmptyLog(malformed, input[..j]);
    LogStep(malformed, input, j - 1);
    if q < |Log(malformed, input[..j - 1]).1| {
      i := EventHasSection(malformed, input, j - 1, q);
    } else {
      i := j - 1;
    }
  }

  /** Section `i` is undamaged, current, of an accepted version, and new to its tracker. */
  ghost predicate UsedAt(malformed: Bytes -> bool, input: Input, i: nat) {
    && i < |input| && Tracked(input[i].1)
    && var before := Get(Log(malformed, input[..i]).0, KeyOf(input[i].0, input[i].1));
       && Accepts(before.version, VersionOf(input[i].1))
       && Track(Baseline(before, input[i].1), input[i].1).1
  }

  ghost predicate IsMapOf(malformed: Bytes -> bool, pid: uint16, section: Bytes, v: Event) {
    && Tracked(section) && |section| >= 12 && section[0] == 0x02 && Whole(section)
    && v.AddPmt? && v.pid == pid && v.sid == Be16(section[3], section[4]) && PmtFacts(malformed, section) == Some(v.facts)
  }

  ghost predicate IsEntryOf(pid: uint16, section: Bytes, v: Event) {
    && Tracked(section) && section[0] == 0x00 && pid == 0x0000 && Whole(section) && 8 <= BodyEnd(section)
    && v in PatEvents(Be16(section[3], section[4]), section[8..BodyEnd(section)])
  }

  lemma {:induction false} PatEventsAreEntries(tsid: uint16, rest: Bytes, v: Event)
    requires v in PatEvents(tsid, rest)
    ensures v.AddProgram? && v.program.tsid == tsid
    decreases |rest|
  {
    if |rest| >= 4 && v in PatEvents(tsid, rest[4..]) {
      PatEventsAreEntries(tsid, rest[4..], v);
    }
  }

  lemma {:induction false} SdtEventsAnnounce(tsid: uint16, onid: uint16, rest: Bytes, v: Event)
    requires v in SdtEvents(tsid, onid, rest)
    ensures v.Announce?
    decreases |rest|
  {
    if |rest| >= 5 && 5 + LoopLength(rest[3], rest[4]) <= |rest| && v in SdtEvents(tsid, onid, rest[5 + LoopLength(rest[3], rest[4])..]) {
      SdtEventsAnnounce(tsid, onid, rest[5 + LoopLength(rest[3], rest[4])..], v);
    }
  }

  /** Table entries and map tables only come from sections of their kind. */
  lemma EventKinds(malformed: Bytes -> bool, pat: map<Program, uint16>, pid: uint16, section: Bytes, v: Event)
    requires Tracked(section) && Whole(section) && v in EventsOf(malformed, pat, pid, section)
    ensures v.AddPmt? ==> IsMapOf(malformed, pid, section, v)
    ensures v.AddProgram? ==> IsEntryOf(pid, section, v)
  {
    hide DiscoveryEngine.Current, PatEvents, SdtEvents;
    var end := BodyEnd(section);
    if section[0] == 0x00 && pid == 0x0000 {
      PatEventsAreEntries(Be16(section[3], section[4]), section[8..end], v);
    } else if (section[0] == 0x42 || section[0] == 0x46) && pid == 0x0011 && !(section[0] == 0x02 && pid in pat.Values) {
      SdtEventsAnnounce(Be16(section[3], section[4]), Be16(section[8], section[9]), section[11..end], v);
    }
  }

  lemma PushedEvent(malformed: Bytes -> bool, trackers: Trackers, e: Engine, pid: uint16, section: Bytes, v: Event)
    requires v in Push(malformed, trackers, e, pid, section).events && (v.AddPmt? || v.AddProgram?)
    ensures Tracked(section)
    ensures var before := Get(trackers, KeyOf(pid, section));
            && Accepts(before.version, VersionOf(section))
            && Track(Baseline(before, section), section).1
    ensures exists pat :: Whole(section) && v in EventsOf(malformed, pat, pid, section)
  {
    hide DiscoveryEngine.Current, EventsOf, Track, Accepts, Fold;
    var before := Get(trackers, KeyOf(pid, section));
    var changed := before.version.Some? && before.version.value != VersionOf(section);
    var first := if changed then Withdrawal(pid, section) else [];
    assert v !in Withdrawal(pid, section);
    assert v in Accepted(malformed, Fold(e, first).pat, pid, section);
  }

  /** What is used of the stream is what new sections of accepted versions say. */
  lemma UsedSection(malformed: Bytes -> bool, input: Input, i: nat, v: Event)
    requires i < |input| && v in StepEvents(malformed, input, i) && (v.AddPmt? || v.AddProgram?)
    ensures UsedAt(malformed, input, i)
    ensures v.AddPmt? ==> IsMapOf(malformed, input[i].0, input[i].1, v)
    ensures v.AddProgram? ==> IsEntryOf(input[i].0, input[i].1, v)
  {
    var (trackers, log) := Log(malformed, input[..i]);
    PushedEvent(malformed, trackers, Run(log), input[i].0, input[i].1, v);
    hide Log, Run, Track, EventsOf, Push;
    var pat :| v in EventsOf(malformed, pat, input[i].0, input[i].1);
    EventKinds(malformed, pat, input[i].0, input[i].1, v);
  }

  // ---------------------------------------------------------------- what the services show

  /** The entry for `p` on `pid` is what section `i` says, and the log holds nothing later about it. */
  ghost predicate StoredFrom(malformed: Bytes -> bool, input: Input, i: nat, p: Program, pid: uint16, facts: Facts) {
    && UsedAt(malformed, input, i) && input[i].0 == pid
    && IsMapOf(malformed, pid, input[i].1, AddPmt(pid, p.sid, facts))
    && exists m: nat :: && |Log(malformed, input[..i]).1| <= m < |Log(malformed, input[..i + 1]).1|
                        && Source(Log(malformed, input).1, m, p, pid) && Log(malformed, input).1[m].facts == facts
  }

  /** The association of `p` is an entry of section `i`, and the log holds no later one. */
  ghost predicate MappedFrom(malformed: Bytes -> bool, input: Input, i: nat, p: Program, pid: uint16) {
    && UsedAt(malformed, input, i) && IsEntryOf(input[i].0, input[i].1, AddProgram(p, pid))
    && exists m: nat :: && |Log(malformed, input[..i]).1| <= m < |Log(malformed, input[..i + 1]).1|
                        && PatSource(Log(malformed, input).1, m, p) && Log(malformed, input).1[m].pid == pid
  }

  /** Everything stored for a map table is what its last accepted section since the last withdrawal says. */
  lemma StoredHasSection(malformed: Bytes -> bool, input: Input, p: Program, pid: uint16) returns (i: nat)
    requires PmtKey(p, pid) in TablesOf(Log(malformed, input).1).stored
    ensures StoredFrom(malformed, input, i, p, pid, TablesOf(Log(malformed, input).1).stored[PmtKey(p, pid)])
  {
    var log := Log(malformed, input).1;
    StoredIff(log, p, pid);
    var m: nat :| Source(log, m, p, pid);
    assert Puts(log, m, p, pid);
    assert input[..|input|] == input;
    i := EventHasSection(malformed, input, |input|, m);
    UsedSection(malformed, input, i, log[m]);
    hide Log, UsedAt, TablesOf, Source;
    assert log[m] == AddPmt(pid, p.sid, log[m].facts);
  }

  /** Every association is what the last accepted section since the table began says. */
  lemma MappedHasSection(malformed: Bytes -> bool, input: Input, p: Program) returns (i: nat)
    requires p in TablesOf(Log(malformed, input).1).pat
    ensures MappedFrom(malformed, input, i, p, TablesOf(Log(malformed, input).1).pat[p])
  {
    var log := Log(malformed, input).1;
    PatIff(log, p);
    var m: nat :| PatSource(log, m, p);
    assert input[..|input|] == input;
    i := EventHasSection(malformed, input, |input|, m);
    UsedSection(malformed, input, i, log[m]);
    hide Log, UsedAt, TablesOf;
    assert log[m] == AddProgram(p, log[m].pid);
  }

  lemma JoinOfSections(malformed: Bytes -> bool, input: Input, i: nat, j: nat, p: Program, pid: uint16, facts: Facts)
    requires MappedFrom(malformed, input, i, p, pid) && StoredFrom(malformed, input, j, p, pid, facts)
    ensures var t := TablesOf(Log(malformed, input).1); Join(t.pat, t.stored, p) == facts
  {
    var log := Log(malformed, input).1;
    hide Log, UsedAt, TablesOf, IsEntryOf, IsMapOf, PatSource, Source;
    PatIff(log, p);
    StoredIff(log, p, pid);
  }

  /** For every stream of sections, damaged, repeated or contradictory, the only service of a program shows the join
      of two sections of the stream: the last one that maps the program, and the last one accepted on that PID for
      it and not withdrawn from it since; or nothing when one of them is missing. */
  lemma CollectedIsJoined(malformed: Bytes -> bool, input: Input, k: ServiceKey)
    requires Sole(TablesOf(Log(malformed, input).1).announced, k)
    ensures k in Run(Log(malformed, input).1).services
    ensures var facts := Run(Log(malformed, input).1).services[k].facts;
            || facts == NOTHING
            || exists i: nat, j: nat, pid: uint16 ::
                 MappedFrom(malformed, input, i, k.Of(), pid) && StoredFrom(malformed, input, j, k.Of(), pid, facts)
    ensures forall i: nat, j: nat, pid: uint16, facts: Facts ::
              MappedFrom(malformed, input, i, k.Of(), pid) && StoredFrom(malformed, input, j, k.Of(), pid, facts) ==>
                Run(Log(malformed, input).1).services[k].facts == facts
  {
    var log := Log(malformed, input).1;
    var t, p := TablesOf(log), k.Of();
    IncrementalIsBatch(log, k);
    if Stored(t.pat, t.stored, p) {
      var i := MappedHasSection(malformed, input, p);
      var j := StoredHasSection(malformed, input, p, t.pat[p]);
      assert MappedFrom(malformed, input, i, p, t.pat[p]) && StoredFrom(malformed, input, j, p, t.pat[p], t.stored[PmtKey(p, t.pat[p])]);
    }
    forall i: nat, j: nat, pid: uint16, facts: Facts
      | MappedFrom(malformed, input, i, p, pid) && StoredFrom(malformed, input, j, p, pid, facts)
      ensures Run(log).services[k].facts == facts
    {
      JoinOfSections(malformed, input, i, j, p, pid, facts);
    }
  }

  // ---------------------------------------------------------------- repetitions

  /** A section of the same table, of another version, is accepted. */
  ghost predicate Turns(malformed: Bytes -> bool, input: Input, n: nat, key: TrackerKey, v: Version) {
    && n < |input| && Tracked(input[n].1) && KeyOf(input[n].0, input[n].1) == key && VersionOf(input[n].1) != v
    && Accepts(Get(Log(malformed, input[..n]).0, key).version, VersionOf(input[n].1))
  }

  predicate Remembers(t: Tracker, v: Version, number: byte) {
    t.version == Some(v) && number in t.payloads
  }

  lemma TrackersStep(malformed: Bytes -> bool, input: Input, n: nat)
    requires n < |input|
    ensures var (trackers, log) := Log(malformed, input[..n]);
            Log(malformed, input[..n + 1]).0 == Push(malformed, trackers, Run(log), input[n].0, input[n].1).trackers
  {
    assert input[..n + 1][..n] == input[..n];
  }

  lemma PushedTrackers(malformed: Bytes -> bool, trackers: Trackers, e: Engine, pid: uint16, section: Bytes)
    ensures Push(malformed, trackers, e, pid, section).trackers ==
            if Tracked(section) && Accepts(Get(trackers, KeyOf(pid, section)).version, VersionOf(section))
            then trackers[KeyOf(pid, section) := Track(Baseline(Get(trackers, KeyOf(pid, section)), section), section).0]
            else trackers
  {
    hide Tracked, Accepts, Track, Accepted, Withdrawal, Fold, Get, KeyOf, VersionOf, Baseline;
  }

  lemma NewIsRemembered(t: Tracker, section: Bytes)
    requires Tracked(section) && Track(t, section).1
    ensures Remembers(Track(t, section).0, VersionOf(section), section[6])
  {
    hide DiscoveryEngine.Current;
  }

  lemma StaysRemembered(t: Tracker, section: Bytes, number: byte)
    requires Tracked(section) && Remembers(t, VersionOf(section), number)
    ensures Remembers(Track(t, section).0, VersionOf(section), number)
    ensures number == section[6] ==> !Track(t, section).1
  {
    hide DiscoveryEngine.Current;
  }

  lemma UsedIsRemembered(malformed: Bytes -> bool, input: Input, i: nat)
    requires UsedAt(malformed, input, i)
    ensures Remembers(Get(Log(malformed, input[..i + 1]).0, KeyOf(input[i].0, input[i].1)), VersionOf(input[i].1), input[i].1[6])
  {
    hide Log, DiscoveryEngine.Current, Run, Push, Track, Remembers, KeyOf, VersionOf, Baseline, Accepts;
    TrackersStep(malformed, input, i);
    var (trackers, log) := Log(malformed, input[..i]);
    PushedTrackers(malformed, trackers, Run(log), input[i].0, input[i].1);
    NewIsRemembered(Baseline(Get(trackers, KeyOf(input[i].0, input[i].1)), input[i].1), input[i].1);
  }

  lemma KeptUnlessTurned(malformed: Bytes -> bool, input: Input, n: nat, key: TrackerKey, v: Version, number: byte)
    requires n < |input| && Remembers(Get(Log(malformed, input[..n]).0, key), v, number) && !Turns(malformed, input, n, key, v)
    ensures Remembers(Get(Log(malformed, input[..n + 1]).0, key), v, number)
  {
    hide Log, Tracked, Run, Push, Track, KeyOf, VersionOf, Accepts;
    TrackersStep(malformed, input, n);
    var (trackers, log) := Log(malformed, input[..n]);
    PushedTrackers(malformed, trackers, Run(log), input[n].0, input[n].1);
    if Tracked(input[n].1) && KeyOf(input[n].0, input[n].1) == key && VersionOf(input[n].1) == v {
      StaysRemembered(Get(trackers, key), input[n].1, number);
    }
  }

  lemma {:induction false} RememberedUnlessTurned(malformed: Bytes -> bool, input: Input, i: nat, n: nat,
                                                  key: TrackerKey, v: Version, number: byte)
    requires i <= n <= |input| && Remembers(Get(Log(malformed, input[..i]).0, key), v, number)
    requires forall m :: i <= m < n ==> !Turns(malformed, input, m, key, v)
    ensures Remembers(Get(Log(malformed, input[..n]).0, key), v, number)
    decreases n
  {
    hide Log, Remembers, Turns;
    if i < n {
      RememberedUnlessTurned(malformed, input, i, n - 1, key, v, number);
      KeptUnlessTurned(malformed, input, n - 1, key, v, number);
    }
  }

  lemma RepeatTurns(malformed: Bytes -> bool, input: Input, j: nat, key: TrackerKey, v: Version)
    requires UsedAt(malformed, input, j) && KeyOf(input[j].0, input[j].1) == key
    requires Remembers(Get(Log(malformed, input[..j]).0, key), v, input[j].1[6])
    ensures Turns(malformed, input, j, key, v)
  {
    hide Log, DiscoveryEngine.Current, Track, KeyOf, VersionOf, Accepts;
    if VersionOf(input[j].1) == v {
      StaysRemembered(Get(Log(malformed, input[..j]).0, key), input[j].1, input[j].1[6]);
      assert false;
    }
  }

  /** In any stream, the same section number of a table is used again only when another version of the table has been
      accepted in between: repetitions, whatever they contain, give nothing new. */
  lemma UsedOncePerVersion(malformed: Bytes -> bool, input: Input, i: nat, j: nat)
    requires UsedAt(malformed, input, i) && UsedAt(malformed, input, j) && i < j
    requires KeyOf(input[i].0, input[i].1) == KeyOf(input[j].0, input[j].1) && input[i].1[6] == input[j].1[6]
    ensures exists n :: i < n <= j && Turns(malformed, input, n, KeyOf(input[i].0, input[i].1), VersionOf(input[i].1))
  {
    var key, v := KeyOf(input[i].0, input[i].1), VersionOf(input[i].1);
    hide Log, DiscoveryEngine.Current, Track, Remembers, KeyOf, VersionOf, Accepts;
    UsedIsRemembered(malformed, input, i);
    if forall n :: i + 1 <= n < j ==> !Turns(malformed, input, n, key, v) {
      RememberedUnlessTurned(malformed, input, i + 1, j, key, v, input[i].1[6]);
      RepeatTurns(malformed, input, j, key, v);
    }
  }

  // ---------------------------------------------------------------- withdrawal

  /** Nothing of the map table on `pid` is left for `p`: not stored, not pending for a service, not shown. */
  ghost predicate Gone(e: Engine, p: Program, pid: uint16) {
    && PmtKey(p, pid) !in e.unresolved
    && (forall k :: k in e.pending && k.service.Of() == p ==> k.pid != pid)
    && (forall k :: k in e.services && k.Of() == p && e.services[k].pmtPid == Some(pid) ==> e.services[k].facts == NOTHING)
  }

  lemma DropIsGone(e: Engine, pid: uint16, p: Program)
    requires Carries(e.pat, p, pid, p.sid)
    ensures Gone(AfterDropPmt(e, pid, p.sid), p, pid) && AfterDropPmt(e, pid, p.sid).pat == e.pat
  {
  }

  lemma WithdrawnTwice(e: Engine, pid: uint16, p: Program)
    requires Carries(e.pat, p, pid, p.sid)
    ensures var v := DropPmt(pid, p.sid); Gone(Fold(e, [v]), p, pid) && Gone(Fold(e, [v] + [v]), p, pid)
  {
    var v := DropPmt(pid, p.sid);
    hide Fold, Gone, AfterDropPmt;
    DropIsGone(e, pid, p);
    DropIsGone(After(e, v), pid, p);
    FoldSingle(e, v);
    FoldOne(e, v, [v]);
    FoldSingle(After(e, v), v);
  }

  lemma ContradictionIsNotNew(t: Tracker, section: Bytes)
    requires Tracked(section) && Track(t, section).0.inconsistent
    ensures !Track(t, section).1
  {
  }

  /** A section that leaves its map table contradictory leaves nothing of it, for every program that the association
      table puts there. */
  lemma ContradictionWithdraws(malformed: Bytes -> bool, trackers: Trackers, e: Engine, pid: uint16, section: Bytes, p: Program)
    requires Tracked(section) && section[0] == 0x02
    requires Accepts(Get(trackers, KeyOf(pid, section)).version, VersionOf(section))
    requires Push(malformed, trackers, e, pid, section).trackers[KeyOf(pid, section)].inconsistent
    requires Carries(e.pat, p, pid, Be16(section[3], section[4]))
    ensures Gone(Fold(e, Push(malformed, trackers, e, pid, section).events), p, pid)
  {
    var before := Get(trackers, KeyOf(pid, section));
    ContradictionIsNotNew(Baseline(before, section), section);
    hide Track, DiscoveryEngine.Current, Fold, Gone, Accepts;
    WithdrawnTwice(e, pid, p);
    var v := DropPmt(pid, p.sid);
    assert [] + [v] == [v];
  }

  class ServiceDiscoveryCollector {
    var trackers: Trackers
    const engine: ServiceDiscoveryEngine
    ghost var log: seq<Event>

    ghost predicate Valid()
      reads this, engine
    {
      engine.Abs() == Run(log)
    }

    constructor (malformed: Bytes -> bool)
      ensures Valid() && trackers == map[] && log == [] && fresh(engine) && engine.malformed == malformed
    {
      trackers, log := map[], [];
      engine := new ServiceDiscoveryEngine(malformed);
    }

    method Withdraw(pid: uint16, section: Bytes)
      requires Valid() && Tracked(section)
      modifies this`log, engine
      ensures Valid() && log == old(log) + Withdrawal(pid, section)
      ensures engine.Abs() == Fold(old(engine.Abs()), Withdrawal(pid, section))
    {
      hide Fold, Run, DiscoveryEngine.Current;
      FoldIsRun(log, Withdrawal(pid, section));
      if pid == 0x0000 && section[0] == 0x00 {
        FoldSingle(engine.Abs(), DropPat);
        engine.InvalidatePat();
      } else if section[0] == 0x02 {
        FoldSingle(engine.Abs(), DropPmt(pid, Be16(section[3], section[4])));
        engine.InvalidatePmt(pid, Be16(section[3], section[4]));
      } else {
        FoldNothing(engine.Abs());
      }
      log := log + Withdrawal(pid, section);
    }

    method PushSection(pid: uint16, section: Bytes)
      requires Valid()
      modifies this, engine
      ensures Valid()
      ensures var p := Push(engine.malformed, old(trackers), old(engine.Abs()), pid, section);
              trackers == p.trackers && log == old(log) + p.events
    {
      hide Fold, Run, Withdrawal, Accepted, Track, Observed, Tracked, Accepts;
      FoldNothing(engine.Abs());
      assert log + [] == log;
      var ok := CheckSection(section);
      if !ok { return; }
      var key := KeyOf(pid, section);
      var before := Get(trackers, key);
      if !Accepts(before.version, VersionOf(section)) { return; }
      ghost var first: seq<Event>, start := [], log;
      if before.version.Some? && before.version.value != VersionOf(section) {
        first := Withdrawal(pid, section);
        Withdraw(pid, section);
        before := Fresh();
      }
      assert log == start + first;
      var isNew := Note(key, before, section);
      if isNew {
        ghost var events := Accepted(engine.malformed, engine.pat, pid, section);
        FoldIsRun(log, events);
        engine.PushSection(pid, section);
        assert start + (first + events) == (start + first) + events;
        log := log + events;
      } else if key.table == 0x02 && trackers[key].inconsistent {
        assert start + (first + Withdrawal(pid, section)) == (start + first) + Withdrawal(pid, section);
        Withdraw(pid, section);
      } else {
        assert first + [] == first;
      }
    }

    method Note(key: TrackerKey, before: Tracker, section: Bytes) returns (isNew: bool)
      requires Tracked(section)
      modifies this`trackers
      ensures var r := Track(before, section); trackers == old(trackers)[key := r.0] && isNew == r.1
    {
      hide DiscoveryEngine.Current, Observed;
      var tracker := new SectionTracker(before);
      isNew := tracker.Observe(VersionOf(section), section[6], section[7], section);
      trackers := trackers[key := tracker.Abs()];
    }
  }

  method CheckSection(section: Bytes) returns (ok: bool)
    ensures ok == Tracked(section)
  {
    if |section| < 8 || Framing.LengthField(section) < 4 || 3 + Framing.LengthField(section) > |section| { return false; }
    var total := 3 + Framing.LengthField(section);
    if section[1] / 128 != 1 || total < 8 || section[5] % 2 == 0 { return false; }
    var crc := Crc.Crc32Mpeg(section[..total]);
    return crc == Zeros(Crc.WIDTH);
  }

  lemma FoldSingle(e: Engine, v: Event)
    ensures Fold(e, [v]) == After(e, v)
  {
    assert [v] + [] == [v];
    FoldOne(e, v, []);
  }

  lemma FoldNothing(e: Engine)
    ensures Fold(e, []) == e
  {
  }
}
