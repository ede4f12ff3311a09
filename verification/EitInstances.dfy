/** Event information tables, collected section by section, one instance per table key. */
module EitInstances {
  import opened Basics
  import opened SectionTracking
  import opened EitEvents
  import opened BitStrings
  import Crc
  import Framing = Section

  type Section = b: Bytes | |b| >= 18 witness seq(18, _ => 0)

  datatype Key = Key(table: byte, network: uint16, stream: uint16, service: uint16, current: bool)

  datatype Instance = Instance(tracker: Tracker, sections: map<byte, seq<Event>>, safe: set<byte>,
                               ends: map<byte, byte>)

  // ---------------------------------------------------------------- fields of a section

  function VersionOf(b: Section): Version {
    b[5] / 2 % 32
  }

  function Number(b: Section): byte {
    b[6]
  }

  function Last(b: Section): byte {
    b[7]
  }

  /** The last section of the segment, as the section itself says. */
  function End(b: Section): byte {
    b[12]
  }

  /** Schedule tables come in segments of eight section numbers. */
  function Segment(n: byte): byte {
    n - n % 8
  }

  predicate Schedule(table: byte) {
    table >= 0x50
  }

  function KeyOf(b: Section): Key {
    Key(b[0], Be16(b[10], b[11]), Be16(b[8], b[9]), Be16(b[3], b[4]), b[5] % 2 == 1)
  }

  function OriginOf(b: Section): Origin {
    Origin(b[0], VersionOf(b), b[6], b[7], Be16(b[3], b[4]), Be16(b[8], b[9]), Be16(b[10], b[11]))
  }

  function Read(b: Section): Listing {
    ListEvents(OriginOf(b), b[14..|b| - 4])
  }

  /** `bad` tells which descriptor loops have a structural error. */
  predicate Clean(bad: Bytes -> bool, l: Listing) {
    l.complete && forall i :: 0 <= i < |l.events| ==> !l.events[i].timing.MalformedTiming? && !bad(l.events[i].descriptors)
  }

  predicate Safe(bad: Bytes -> bool, b: Section) {
    Clean(bad, Read(b))
  }

  // ---------------------------------------------------------------- one section

  function Start(): Instance {
    Instance(Fresh(), map[], {}, map[])
  }

  predicate BadEnd(b: Section) {
    End(b) < Number(b) || End(b) > Last(b) || Segment(End(b)) != Segment(Number(b))
  }

  /** Files a new section: its segment's end, its events and whether they are safe to use. */
  function Filed(bad: Bytes -> bool, schedule: bool, t: Instance, b: Section): Instance {
    var n, start := Number(b), Segment(Number(b));
    var clash := schedule && (BadEnd(b) || (start in t.ends && t.ends[start] != End(b)));
    Instance(t.tracker.(inconsistent := t.tracker.inconsistent || clash),
             t.sections[n := Read(b).events],
             if Safe(bad, b) then t.safe + {n} else t.safe - {n},
             if schedule then t.ends[start := End(b)] else t.ends)
  }

  function Ingested(bad: Bytes -> bool, schedule: bool, t: Instance, b: Section): Instance {
    if !Accepts(t.tracker.version, VersionOf(b)) then t
    else
      var r := if t.tracker.version != Some(VersionOf(b)) then Instance(t.tracker, map[], {}, map[]) else t;
      var (tracker, isNew) := Observed(r.tracker, VersionOf(b), Number(b), Last(b), b);
      if isNew then Filed(bad, schedule, r.(tracker := tracker), b) else r.(tracker := tracker)
  }

  // ---------------------------------------------------------------- what a run of sections says

  /** The sections of one table key, in order of arrival. */
  function Run(bad: Bytes -> bool, schedule: bool, run: seq<Section>): Instance {
    if run == [] then Start()
    else Ingested(bad, schedule, Run(bad, schedule, run[..|run| - 1]), run[|run| - 1])
  }

  /** The version that is being collected. */
  function Current(run: seq<Section>): Option<Version> {
    if run == [] then None
    else
      var before, v := Current(run[..|run| - 1]), VersionOf(run[|run| - 1]);
      if Accepts(before, v) then Some(v) else before
  }

  /** The sections accepted since that version began. */
  function Epoch(run: seq<Section>): set<Section> {
    if run == [] then {}
    else
      var before, b := run[..|run| - 1], run[|run| - 1];
      if !Accepts(Current(before), VersionOf(b)) then Epoch(before)
      else if Current(before) == Some(VersionOf(b)) then Epoch(before) + {b}
      else {b}
  }

  predicate SelfBad(schedule: bool, b: Section) {
    Number(b) > Last(b) || (schedule && BadEnd(b))
  }

  predicate Clash(schedule: bool, a: Section, b: Section) {
    || Last(a) != Last(b)
    || (Number(a) == Number(b) && a != b)
    || (schedule && Segment(Number(a)) == Segment(Number(b)) && End(a) != End(b))
  }

  /** Sections that cannot all belong to one version of one table. */
  ghost predicate Conflict(schedule: bool, e: set<Section>) {
    || (exists b :: b in e && SelfBad(schedule, b))
    || (exists a, b :: a in e && b in e && Clash(schedule, a, b))
  }

  /** What is kept under number `n` comes from a section of the epoch with that number. */
  ghost predicate Entry(bad: Bytes -> bool, e: set<Section>, n: byte, b: Bytes, events: seq<Event>, isSafe: bool) {
    b in e && Number(b) == n && events == Read(b).events && (isSafe <==> Safe(bad, b))
  }

  ghost predicate Kept(bad: Bytes -> bool, e: set<Section>, payloads: map<byte, Bytes>,
                       sections: map<byte, seq<Event>>, safe: set<byte>)
  {
    && sections.Keys == payloads.Keys && safe <= payloads.Keys
    && forall n :: n in payloads ==> Entry(bad, e, n, payloads[n], sections[n], n in safe)
  }

  ghost predicate EndsOk(schedule: bool, e: set<Section>, ends: map<byte, byte>) {
    && (schedule ==> forall b :: b in e ==> Segment(Number(b)) in ends && ends[Segment(Number(b))] == End(b))
    && (forall s :: s in ends ==> schedule && exists b :: b in e && Segment(Number(b)) == s)
  }

  ghost predicate Found(e: set<Section>, payloads: map<byte, Bytes>) {
    forall b :: b in e ==> Number(b) in payloads && payloads[Number(b)] == b
  }

  ghost predicate LastOk(e: set<Section>, last: Option<byte>) {
    (forall b :: b in e ==> last == Some(Last(b))) && (e == {} ==> last == None)
  }

  /** Nothing of a consistent epoch is lost. */
  ghost predicate Filled(schedule: bool, e: set<Section>, t: Instance) {
    && Found(e, t.tracker.payloads)
    && LastOk(e, t.tracker.last)
    && t.tracker.seen == t.tracker.payloads.Keys
    && EndsOk(schedule, e, t.ends)
  }

  ghost predicate Summary(bad: Bytes -> bool, schedule: bool, e: set<Section>, t: Instance) {
    && (forall b :: b in e ==> t.tracker.version == Some(VersionOf(b)))
    && Kept(bad, e, t.tracker.payloads, t.sections, t.safe)
    && (t.tracker.inconsistent <==> Conflict(schedule, e))
    && (!Conflict(schedule, e) ==> Filled(schedule, e, t))
  }

  lemma KeptGrows(bad: Bytes -> bool, e: set<Section>, b: Section, payloads: map<byte, Bytes>,
                  sections: map<byte, seq<Event>>, safe: set<byte>)
    requires Kept(bad, e, payloads, sections, safe)
    ensures Kept(bad, e + {b}, payloads, sections, safe)
  {
    forall n | n in payloads ensures Entry(bad, e + {b}, n, payloads[n], sections[n], n in safe) {
      EntryGrows(bad, e, b, n, payloads[n], sections[n], n in safe);
    }
  }

  lemma EntryGrows(bad: Bytes -> bool, e: set<Section>, b: Section, n: byte, p: Bytes, events: seq<Event>, isSafe: bool)
    requires Entry(bad, e, n, p, events, isSafe)
    ensures Entry(bad, e + {b}, n, p, events, isSafe)
  {
  }

  lemma KeptIsInEpoch(bad: Bytes -> bool, e: set<Section>, payloads: map<byte, Bytes>,
                      sections: map<byte, seq<Event>>, safe: set<byte>, n: byte)
    requires Kept(bad, e, payloads, sections, safe) && n in payloads
    ensures payloads[n] in e && Number(payloads[n]) == n
  {
    assert Entry(bad, e, n, payloads[n], sections[n], n in safe);
  }

  lemma ConflictGrows(schedule: bool, e: set<Section>, b: Section)
    requires Conflict(schedule, e)
    ensures Conflict(schedule, e + {b})
  {
  }

  lemma ConflictBySelf(schedule: bool, e: set<Section>, b: Section)
    requires SelfBad(schedule, b)
    ensures Conflict(schedule, e + {b})
  {
    assert b in e + {b};
  }

  lemma ConflictByPair(schedule: bool, e: set<Section>, a: Section, b: Section)
    requires a in e && Clash(schedule, a, b)
    ensures Conflict(schedule, e + {b})
  {
    assert a in e + {b} && b in e + {b};
  }

  lemma NoNewConflict(schedule: bool, e: set<Section>, b: Section)
    requires !Conflict(schedule, e) && !SelfBad(schedule, b)
    requires forall a :: a in e ==> !Clash(schedule, a, b)
    ensures !Conflict(schedule, e + {b})
  {
    forall a, c | a in e + {b} && c in e + {b} ensures !Clash(schedule, a, c) {
      assert a in e ==> !Clash(schedule, a, b);
      assert c in e ==> !Clash(schedule, c, b);
    }
  }

  /** A section that is not used changes at most the tracker's verdict. */
  lemma RefusedFields(bad: Bytes -> bool, schedule: bool, t: Instance, b: Section)
    requires t.tracker.version == Some(VersionOf(b))
    requires !Observed(t.tracker, VersionOf(b), Number(b), Last(b), b).1
    ensures var u, k := Ingested(bad, schedule, t, b), t.tracker;
            && u.sections == t.sections && u.safe == t.safe && u.ends == t.ends
            && u.tracker.version == k.version && u.tracker.payloads == k.payloads
            && (k.inconsistent ==> u.tracker.inconsistent)
            && (Number(b) > Last(b) || (k.last.Some? && k.last.value != Last(b)) ==> u.tracker.inconsistent)
            && (!k.inconsistent && Number(b) <= Last(b) && (k.last.Some? ==> k.last.value == Last(b)) ==>
                  && Number(b) in k.payloads && (u.tracker.inconsistent <==> k.payloads[Number(b)] != b)
                  && u.tracker.last == Some(Last(b)) && u.tracker.seen == k.seen + {Number(b)})
  {
  }

  /** A conflict stays, and nothing more is kept. */
  lemma IngestAfterConflict(bad: Bytes -> bool, schedule: bool, e: set<Section>, t: Instance, b: Section)
    requires Summary(bad, schedule, e, t) && Conflict(schedule, e) && t.tracker.version == Some(VersionOf(b))
    ensures Summary(bad, schedule, e + {b}, Ingested(bad, schedule, t, b))
  {
    RefusedFields(bad, schedule, t, b);
    ConflictGrows(schedule, e, b);
    KeptGrows(bad, e, b, t.tracker.payloads, t.sections, t.safe);
  }

  /** A section that the tracker refuses conflicts with the epoch, or is there already. */
  lemma IngestRefused(bad: Bytes -> bool, schedule: bool, e: set<Section>, t: Instance, b: Section)
    requires Summary(bad, schedule, e, t) && !Conflict(schedule, e) && t.tracker.version == Some(VersionOf(b))
    requires !Observed(t.tracker, VersionOf(b), Number(b), Last(b), b).1
    ensures Summary(bad, schedule, e + {b}, Ingested(bad, schedule, t, b))
  {
    hide Ingested, Observed, Kept, Read, Safe;
    var n := Number(b);
    RefusedFields(bad, schedule, t, b);
    KeptGrows(bad, e, b, t.tracker.payloads, t.sections, t.safe);
    if n > Last(b) {
      ConflictBySelf(schedule, e, b);
    } else if t.tracker.last.Some? && t.tracker.last.value != Last(b) {
      var a :| a in e;
      ConflictByPair(schedule, e, a, b);
    } else {
      KeptIsInEpoch(bad, e, t.tracker.payloads, t.sections, t.safe, n);
      var a := t.tracker.payloads[n];
      if a != b {
        ConflictByPair(schedule, e, a, b);
      } else {
        assert e + {b} == e && t.tracker.seen + {n} == t.tracker.seen;
      }
    }
  }

  lemma FiledKept(bad: Bytes -> bool, e: set<Section>, payloads: map<byte, Bytes>,
                  sections: map<byte, seq<Event>>, safe: set<byte>, b: Section)
    requires Kept(bad, e, payloads, sections, safe) && Number(b) !in payloads
    ensures Kept(bad, e + {b}, payloads[Number(b) := b], sections[Number(b) := Read(b).events],
                 if Safe(bad, b) then safe + {Number(b)} else safe - {Number(b)})
  {
    var k := Number(b);
    var p, r, f := payloads[k := b], sections[k := Read(b).events], if Safe(bad, b) then safe + {k} else safe - {k};
    KeptGrows(bad, e, b, payloads, sections, safe);
    forall n | n in p ensures Entry(bad, e + {b}, n, p[n], r[n], n in f) {
      if n != k {
        assert Entry(bad, e + {b}, n, payloads[n], sections[n], n in safe);
      }
    }
  }

  lemma FiledEnds(schedule: bool, e: set<Section>, ends: map<byte, byte>, b: Section)
    requires EndsOk(schedule, e, ends)
    requires schedule && Segment(Number(b)) in ends ==> ends[Segment(Number(b))] == End(b)
    ensures EndsOk(schedule, e + {b}, if schedule then ends[Segment(Number(b)) := End(b)] else ends)
  {
    var start := Segment(Number(b));
    var more := if schedule then ends[start := End(b)] else ends;
    forall s | s in more ensures exists a :: a in e + {b} && Segment(Number(a)) == s {
      if s in ends {
        var a :| a in e && Segment(Number(a)) == s;
        assert a in e + {b};
      } else {
        assert b in e + {b};
      }
    }
  }

  /** A new section number: the segment ends decide. */
  lemma FreshConflict(schedule: bool, e: set<Section>, t: Instance, b: Section)
    requires !Conflict(schedule, e) && Filled(schedule, e, t)
    requires Number(b) <= Last(b) && Number(b) !in t.tracker.payloads
    requires t.tracker.last.Some? ==> t.tracker.last.value == Last(b)
    ensures Conflict(schedule, e + {b}) <==>
            schedule && (BadEnd(b) || (Segment(Number(b)) in t.ends && t.ends[Segment(Number(b))] != End(b)))
  {
    var start := Segment(Number(b));
    if schedule && BadEnd(b) {
      ConflictBySelf(schedule, e, b);
    } else if schedule && start in t.ends && t.ends[start] != End(b) {
      var a :| a in e && Segment(Number(a)) == start;
      ConflictByPair(schedule, e, a, b);
    } else {
      forall a | a in e ensures !Clash(schedule, a, b) {
        assert Number(a) in t.tracker.payloads;
      }
      NoNewConflict(schedule, e, b);
    }
  }

  lemma FreshFields(bad: Bytes -> bool, schedule: bool, t: Instance, b: Section)
    requires t.tracker.version == Some(VersionOf(b)) && !t.tracker.inconsistent
    requires Observed(t.tracker, VersionOf(b), Number(b), Last(b), b).1
    ensures Number(b) <= Last(b) && Number(b) !in t.tracker.payloads
    ensures t.tracker.last.Some? ==> t.tracker.last.value == Last(b)
    ensures var n, start := Number(b), Segment(Number(b));
            Ingested(bad, schedule, t, b) ==
            Instance(Tracker(t.tracker.version, Some(Last(b)), t.tracker.seen + {n},
                             schedule && (BadEnd(b) || (start in t.ends && t.ends[start] != End(b))),
                             t.tracker.payloads[n := b]),
                     t.sections[n := Read(b).events],
                     if Safe(bad, b) then t.safe + {n} else t.safe - {n},
                     if schedule then t.ends[start := End(b)] else t.ends)
  {
  }

  lemma FilledGrows(e: set<Section>, payloads: map<byte, Bytes>, last: Option<byte>, b: Section)
    requires Found(e, payloads) && LastOk(e, last) && Number(b) !in payloads && (last.Some? ==> last.value == Last(b))
    ensures Found(e + {b}, payloads[Number(b) := b]) && LastOk(e + {b}, Some(Last(b)))
  {
    assert b in e + {b};
  }

  lemma IngestFresh(bad: Bytes -> bool, schedule: bool, e: set<Section>, t: Instance, b: Section)
    requires Summary(bad, schedule, e, t) && !Conflict(schedule, e) && t.tracker.version == Some(VersionOf(b))
    requires Observed(t.tracker, VersionOf(b), Number(b), Last(b), b).1
    ensures Summary(bad, schedule, e + {b}, Ingested(bad, schedule, t, b))
  {
    hide Ingested, Observed, Conflict, Kept, Found, LastOk, EndsOk, Read, Safe;
    FreshFields(bad, schedule, t, b);
    FiledKept(bad, e, t.tracker.payloads, t.sections, t.safe, b);
    FreshConflict(schedule, e, t, b);
    FilledGrows(e, t.tracker.payloads, t.tracker.last, b);
    if !Conflict(schedule, e + {b}) {
      FiledEnds(schedule, e, t.ends, b);
    }
  }

  lemma IngestSummary(bad: Bytes -> bool, schedule: bool, e: set<Section>, t: Instance, b: Section)
    requires Summary(bad, schedule, e, t) && t.tracker.version == Some(VersionOf(b))
    ensures Summary(bad, schedule, e + {b}, Ingested(bad, schedule, t, b))
    ensures Ingested(bad, schedule, t, b).tracker.version == t.tracker.version
  {
    if Conflict(schedule, e) {
      IngestAfterConflict(bad, schedule, e, t, b);
    } else if Observed(t.tracker, VersionOf(b), Number(b), Last(b), b).1 {
      IngestFresh(bad, schedule, e, t, b);
    } else {
      IngestRefused(bad, schedule, e, t, b);
    }
  }

  /** The instance of a run is what its epoch says: consistent or not, and if so complete with every section. */
  lemma {:induction false} RunSummary(bad: Bytes -> bool, schedule: bool, run: seq<Section>)
    ensures Run(bad, schedule, run).tracker.version == Current(run)
    ensures Summary(bad, schedule, Epoch(run), Run(bad, schedule, run))
    decreases |run|
  {
    if run != [] {
      var before, b := run[..|run| - 1], run[|run| - 1];
      RunSummary(bad, schedule, before);
      var t, v := Run(bad, schedule, before), VersionOf(b);
      if Current(before) == Some(v) {
        IngestSummary(bad, schedule, Epoch(before), t, b);
      } else if Accepts(Current(before), v) {
        var blank := Instance(Blank(v), map[], {}, map[]);
        assert Summary(bad, schedule, {}, blank);
        IngestSummary(bad, schedule, {}, blank, b);
        assert {} + {b} == {b};
        assert Ingested(bad, schedule, t, b) == Ingested(bad, schedule, blank, b);
      }
    }
  }

  lemma KeptAlike(bad: Bytes -> bool, e: set<Section>, p: map<byte, Bytes>, x: map<byte, seq<Event>>, f: set<byte>,
                  q: map<byte, Bytes>, y: map<byte, seq<Event>>, g: set<byte>, n: byte)
    requires Kept(bad, e, p, x, f) && Kept(bad, e, q, y, g) && Found(e, q) && n in p
    ensures n in q && p[n] == q[n] && x[n] == y[n] && (n in f <==> n in g)
  {
    hide Read, Number, Safe;
    assert Entry(bad, e, n, p[n], x[n], n in f);
    assert n in q && Entry(bad, e, n, q[n], y[n], n in g);
  }

  lemma KeptIsUnique(bad: Bytes -> bool, e: set<Section>, p: map<byte, Bytes>, x: map<byte, seq<Event>>, f: set<byte>,
                     q: map<byte, Bytes>, y: map<byte, seq<Event>>, g: set<byte>)
    requires Kept(bad, e, p, x, f) && Kept(bad, e, q, y, g) && Found(e, p) && Found(e, q)
    ensures p == q && x == y && f == g
  {
    hide Entry, Found;
    forall n | n in p ensures n in q && p[n] == q[n] && x[n] == y[n] && (n in f <==> n in g) {
      KeptAlike(bad, e, p, x, f, q, y, g, n);
    }
    forall n | n in q ensures n in p {
      KeptAlike(bad, e, q, y, g, p, x, f, n);
    }
    assert p.Keys == q.Keys;
  }

  /** A consistent epoch leaves no choice. */
  lemma SummaryIsUnique(bad: Bytes -> bool, schedule: bool, e: set<Section>, t: Instance, u: Instance)
    requires Summary(bad, schedule, e, t) && Summary(bad, schedule, e, u) && !Conflict(schedule, e)
    requires t.tracker.version == u.tracker.version
    ensures t == u
  {
    KeptIsUnique(bad, e, t.tracker.payloads, t.sections, t.safe, u.tracker.payloads, u.sections, u.safe);
    EndsAreUnique(schedule, e, t.ends, u.ends);
    EndsAreUnique(schedule, e, u.ends, t.ends);
    assert t.ends == u.ends;
    if e != {} {
      var b :| b in e;
      assert t.tracker.last == u.tracker.last;
    }
  }

  lemma EndsAreUnique(schedule: bool, e: set<Section>, x: map<byte, byte>, y: map<byte, byte>)
    requires EndsOk(schedule, e, x) && EndsOk(schedule, e, y)
    ensures forall s :: s in x ==> s in y && x[s] == y[s]
  {
  }

  /** The order of arrival does not matter, nor do repetitions, as long as nothing conflicts; and whether
      something conflicts does not depend on the order either. */
  lemma OrderDoesNotMatter(bad: Bytes -> bool, schedule: bool, run: seq<Section>, other: seq<Section>)
    requires Current(run) == Current(other) && Epoch(run) == Epoch(other)
    ensures var t, u := Run(bad, schedule, run), Run(bad, schedule, other);
            && t.tracker.inconsistent == u.tracker.inconsistent
            && (t.tracker.inconsistent <==> Conflict(schedule, Epoch(run)))
            && (!t.tracker.inconsistent ==> t == u)
  {
    RunSummary(bad, schedule, run);
    RunSummary(bad, schedule, other);
    if !Conflict(schedule, Epoch(run)) {
      SummaryIsUnique(bad, schedule, Epoch(run), Run(bad, schedule, run), Run(bad, schedule, other));
    }
  }

  // ---------------------------------------------------------------- what is still missing

  datatype State = State(version: Version, last: byte, received: set<byte>, missing: set<byte>, safe: set<byte>,
                         complete: bool, inconsistent: bool)

  function OrElse<T>(x: Option<T>, d: T): T {
    match x case None => d case Some(v) => v
  }

  function EndOr(ends: map<byte, byte>, start: byte): byte {
    if start in ends then ends[start] else start
  }

  predicate InSegment(last: byte, ends: map<byte, byte>, start: byte, n: byte) {
    start % 8 == 0 && start <= last && start <= n <= EndOr(ends, start)
  }

  predicate Needed(schedule: bool, last: byte, ends: map<byte, byte>, n: byte) {
    if schedule then exists start: byte :: InSegment(last, ends, start, n) else n <= last
  }

  function Required(schedule: bool, last: byte, ends: map<byte, byte>): set<byte> {
    set n: byte | Needed(schedule, last, ends, n)
  }

  function StateOf(schedule: bool, t: Instance): State {
    var last := OrElse(t.tracker.last, 0);
    var missing := Required(schedule, last, t.ends) - t.sections.Keys;
    State(OrElse(t.tracker.version, 0), last, t.sections.Keys, missing, t.safe,
          !t.tracker.inconsistent && missing == {}, t.tracker.inconsistent)
  }

  ghost predicate Received(e: set<Section>, n: byte) {
    exists b :: b in e && Number(b) == n
  }

  /** A number that the segment it falls into ends before. */
  ghost predicate Skipped(schedule: bool, e: set<Section>, n: byte) {
    schedule && exists b :: b in e && Segment(Number(b)) == Segment(n) && End(b) < n
  }

  ghost predicate Whole(schedule: bool, e: set<Section>) {
    && e != {} && !Conflict(schedule, e)
    && forall b, n: byte :: b in e && n <= Last(b) ==> Received(e, n) || Skipped(schedule, e, n)
  }

  lemma Segments(n: byte)
    ensures Segment(n) % 8 == 0 && Segment(n) <= n && Segment(Segment(n)) == Segment(n)
  {
  }

  lemma SegmentOf(start: byte, n: byte, end: byte)
    requires start % 8 == 0 && start <= n <= end && Segment(end) == start
    ensures Segment(n) == start
  {
  }

  ghost predicate SameLast(e: set<Section>, last: byte) {
    forall b :: b in e ==> Last(b) == last
  }

  lemma NeededEnd(schedule: bool, e: set<Section>, ends: map<byte, byte>, last: byte, start: byte, n: byte)
    requires schedule && !Conflict(schedule, e) && EndsOk(schedule, e, ends) && SameLast(e, last)
    requires InSegment(last, ends, start, n)
    ensures Segment(n) == start && n <= last
  {
    if start in ends {
      var b :| b in e && Segment(Number(b)) == start;
      assert !SelfBad(schedule, b);
      SegmentOf(start, n, End(b));
    }
  }

  lemma NeededIff(schedule: bool, e: set<Section>, ends: map<byte, byte>, last: byte, n: byte)
    requires !Conflict(schedule, e) && EndsOk(schedule, e, ends) && SameLast(e, last)
    ensures Needed(schedule, last, ends, n) <==> n <= last && (schedule ==> n <= EndOr(ends, Segment(n)))
  {
    if schedule {
      Segments(n);
      if Needed(schedule, last, ends, n) {
        var start: byte :| InSegment(last, ends, start, n);
        NeededEnd(schedule, e, ends, last, start, n);
      }
      if n <= last && n <= EndOr(ends, Segment(n)) {
        assert InSegment(last, ends, Segment(n), n);
      }
    }
  }

  /** When nothing needed is missing, every number has come or is skipped. */
  lemma NothingMissing(schedule: bool, e: set<Section>, ends: map<byte, byte>, last: byte, n: byte)
    requires !Conflict(schedule, e) && EndsOk(schedule, e, ends) && SameLast(e, last)
    requires forall m: byte :: Needed(schedule, last, ends, m) ==> Received(e, m)
    requires n <= last
    ensures Received(e, n) || Skipped(schedule, e, n)
  {
    NeededIff(schedule, e, ends, last, n);
    if !Needed(schedule, last, ends, n) {
      var start := Segment(n);
      Segments(n);
      NeededIff(schedule, e, ends, last, start);
      assert start !in ends ==> Received(e, start);
      var b :| b in e && Segment(Number(b)) == start;
      assert End(b) < n;
    }
  }

  lemma NothingNeeded(schedule: bool, e: set<Section>, ends: map<byte, byte>, last: byte, n: byte)
    requires !Conflict(schedule, e) && EndsOk(schedule, e, ends) && SameLast(e, last)
    requires Needed(schedule, last, ends, n) && (Received(e, n) || Skipped(schedule, e, n))
    ensures Received(e, n)
  {
    NeededIff(schedule, e, ends, last, n);
  }

  /** Complete means: no conflict, and every number up to the last one has come or lies behind its segment's end. */
  lemma CompleteIff(bad: Bytes -> bool, schedule: bool, run: seq<Section>)
    requires run != []
    ensures StateOf(schedule, Run(bad, schedule, run)).complete <==> Whole(schedule, Epoch(run))
  {
    RunSummary(bad, schedule, run);
    EpochIsNotEmpty(run);
    StateIff(bad, schedule, Epoch(run), Run(bad, schedule, run));
  }

  lemma ReceivedIffKept(bad: Bytes -> bool, e: set<Section>, t: Instance, n: byte)
    requires Kept(bad, e, t.tracker.payloads, t.sections, t.safe) && Found(e, t.tracker.payloads)
    ensures n in t.sections.Keys <==> Received(e, n)
  {
    if n in t.tracker.payloads {
      KeptIsInEpoch(bad, e, t.tracker.payloads, t.sections, t.safe, n);
    }
  }

  lemma StateIff(bad: Bytes -> bool, schedule: bool, e: set<Section>, t: Instance)
    requires Summary(bad, schedule, e, t) && e != {}
    ensures StateOf(schedule, t).complete <==> Whole(schedule, e)
  {
    if !Conflict(schedule, e) {
      var b :| b in e;
      var last, missing := Last(b), StateOf(schedule, t).missing;
      assert SameLast(e, last);
      forall n: byte ensures n in missing <==> Needed(schedule, last, t.ends, n) && !Received(e, n) {
        ReceivedIffKept(bad, e, t, n);
      }
      if missing == {} {
        forall n: byte | n <= last ensures Received(e, n) || Skipped(schedule, e, n) {
          NothingMissing(schedule, e, t.ends, last, n);
        }
      }
      if Whole(schedule, e) {
        forall n: byte | Needed(schedule, last, t.ends, n) ensures n !in missing {
          NeededIff(schedule, e, t.ends, last, n);
          NothingNeeded(schedule, e, t.ends, last, n);
        }
        assert missing == {};
      }
    }
  }

  /** The tracker itself is complete when every number of a consistent epoch has come, segments aside. */
  lemma TrackerCompleteIff(bad: Bytes -> bool, schedule: bool, run: seq<Section>)
    requires run != []
    ensures IsComplete(Run(bad, schedule, run).tracker) <==>
            && !Conflict(schedule, Epoch(run))
            && forall b, n: byte :: b in Epoch(run) && n <= Last(b) ==> Received(Epoch(run), n)
  {
    var e, t := Epoch(run), Run(bad, schedule, run);
    RunSummary(bad, schedule, run);
    EpochIsNotEmpty(run);
    hide Epoch, Run, Conflict;
    if !Conflict(schedule, e) {
      var b :| b in e;
      forall n: byte ensures n in t.tracker.seen <==> Received(e, n) {
        ReceivedIffKept(bad, e, t, n);
      }
    }
  }

  // ---------------------------------------------------------------- one version

  ghost predicate OneVersion(run: seq<Section>, v: Version) {
    run != [] && forall i :: 0 <= i < |run| ==> VersionOf(run[i]) == v
  }

  function Sections(run: seq<Section>): set<Section> {
    set b | b in run
  }

  /** While the version does not change, the epoch is everything that has come. */
  lemma {:induction false} EpochOfOneVersion(run: seq<Section>, v: Version)
    requires OneVersion(run, v)
    ensures Epoch(run) == Sections(run) && Current(run) == Some(v)
    decreases |run|
  {
    hide VersionOf;
    var before, b := run[..|run| - 1], run[|run| - 1];
    assert run == before + [b] && VersionOf(b) == v;
    assert Sections(run) == Sections(before) + {b};
    if before == [] {
      assert Epoch(run) == {b} && Current(run) == Some(v);
    } else {
      assert OneVersion(before, v);
      EpochOfOneVersion(before, v);
      ForwardIsOneWay(v, v);
      assert Epoch(run) == Epoch(before) + {b};
    }
  }

  /** Any two runs of the same sections of one version, whatever their order and repetitions, agree on whether they
      conflict, and on everything else if they do not. */
  lemma SameSectionsSameInstance(bad: Bytes -> bool, schedule: bool, run: seq<Section>, other: seq<Section>, v: Version)
    requires OneVersion(run, v) && OneVersion(other, v) && Sections(run) == Sections(other)
    ensures var t, u := Run(bad, schedule, run), Run(bad, schedule, other);
            && t.tracker.inconsistent == u.tracker.inconsistent
            && (t.tracker.inconsistent <==> Conflict(schedule, Sections(run)))
            && (!t.tracker.inconsistent ==> t == u)
  {
    EpochOfOneVersion(run, v);
    EpochOfOneVersion(other, v);
    hide Run, Epoch, Current, OneVersion, Sections;
    OrderDoesNotMatter(bad, schedule, run, other);
  }

  /** In a consistent epoch only numbers that are needed can come. */
  lemma ReceivedIsNeeded(schedule: bool, e: set<Section>, ends: map<byte, byte>, last: byte, n: byte)
    requires !Conflict(schedule, e) && EndsOk(schedule, e, ends) && SameLast(e, last) && Received(e, n)
    ensures Needed(schedule, last, ends, n) && !Skipped(schedule, e, n)
  {
    var b :| b in e && Number(b) == n;
    assert !SelfBad(schedule, b);
    NeededIff(schedule, e, ends, last, n);
    forall a | a in e ensures !Clash(schedule, a, b) {
    }
  }

  lemma WholeAt(schedule: bool, e: set<Section>, b: Section, n: byte)
    requires Whole(schedule, e) && b in e && n <= Last(b)
    ensures Received(e, n) || Skipped(schedule, e, n)
  {
  }

  lemma ReceivedAt(bad: Bytes -> bool, schedule: bool, e: set<Section>, t: Instance, b: Section, n: byte)
    requires Summary(bad, schedule, e, t) && Whole(schedule, e) && b in e && t.tracker.last == Some(Last(b))
    ensures n in t.sections.Keys <==> Needed(schedule, Last(b), t.ends, n)
    ensures n in t.sections.Keys <==> n <= Last(b) && !Skipped(schedule, e, n)
  {
    assert SameLast(e, Last(b));
    ReceivedIffKept(bad, e, t, n);
    if n <= Last(b) { WholeAt(schedule, e, b, n); }
    hide Conflict, Summary, Kept, EndsOk, Received, Skipped, Needed;
    if Received(e, n) {
      ReceivedIsNeeded(schedule, e, t.ends, Last(b), n);
    } else if Needed(schedule, Last(b), t.ends, n) {
      NothingNeeded(schedule, e, t.ends, Last(b), n);
    }
    NeededIff(schedule, e, t.ends, Last(b), n);
  }

  lemma RequiredIs(schedule: bool, last: byte, ends: map<byte, byte>, numbers: set<byte>)
    requires forall n: byte :: n in numbers <==> Needed(schedule, last, ends, n)
    ensures numbers == Required(schedule, last, ends)
  {
    hide Needed;
  }

  lemma CompleteHasLast(bad: Bytes -> bool, schedule: bool, e: set<Section>, t: Instance, b: Section)
    requires Summary(bad, schedule, e, t) && b in e && StateOf(schedule, t).complete
    ensures Whole(schedule, e) && t.tracker.last == Some(Last(b))
  {
    StateIff(bad, schedule, e, t);
  }

  lemma ReceivedIsRequired(bad: Bytes -> bool, schedule: bool, e: set<Section>, t: Instance)
    requires Summary(bad, schedule, e, t) && e != {} && StateOf(schedule, t).complete
    ensures var s := StateOf(schedule, t); s.received == Required(schedule, s.last, t.ends)
    ensures var s := StateOf(schedule, t);
            forall n: byte :: n in s.received <==> n <= s.last && !Skipped(schedule, e, n)
  {
    hide Summary, Needed, Required, Skipped, Whole, Last;
    var b :| b in e;
    CompleteHasLast(bad, schedule, e, t, b);
    forall n: byte
      ensures n in t.sections.Keys <==> Needed(schedule, Last(b), t.ends, n)
      ensures n in t.sections.Keys <==> n <= Last(b) && !Skipped(schedule, e, n)
    {
      ReceivedAt(bad, schedule, e, t, b, n);
    }
    RequiredIs(schedule, Last(b), t.ends, t.sections.Keys);
  }

  /** A run of one version is complete exactly when its sections do not conflict and leave no number open; then the
      numbers received are exactly the numbers required, those up to the last that no segment skips. */
  lemma OneVersionComplete(bad: Bytes -> bool, schedule: bool, run: seq<Section>, v: Version)
    requires OneVersion(run, v)
    ensures var t := Run(bad, schedule, run);
            var s := StateOf(schedule, t);
            && s.version == v && (s.complete <==> Whole(schedule, Sections(run)))
            && (s.complete ==>
                  && s.received == Required(schedule, s.last, t.ends)
                  && forall n: byte :: n in s.received <==> n <= s.last && !Skipped(schedule, Sections(run), n))
  {
    EpochOfOneVersion(run, v);
    RunSummary(bad, schedule, run);
    CompleteIff(bad, schedule, run);
    EpochIsNotEmpty(run);
    hide Run, Epoch, Current, OneVersion, Sections, Summary, Whole, Skipped, Required;
    if StateOf(schedule, Run(bad, schedule, run)).complete {
      ReceivedIsRequired(bad, schedule, Epoch(run), Run(bad, schedule, run));
    }
  }

  lemma {:induction false} EpochIsNotEmpty(run: seq<Section>)
    requires run != []
    ensures Epoch(run) != {} && Current(run).Some?
    decreases |run|
  {
    var before := run[..|run| - 1];
    if before != [] {
      EpochIsNotEmpty(before);
    }
  }

  // ---------------------------------------------------------------- all tables

  /** A whole, undamaged event information section in the long form. */
  predicate Usable(bytes: Bytes) {
    && |bytes| >= 18 && Framing.LengthField(bytes) + 3 == |bytes|
    && bytes[1] / 128 == 1 && 0x4e <= bytes[0] <= 0x6f
    && Crc.Sound(bytes)
  }

  function Get(m: map<Key, Instance>, key: Key): Instance {
    if key in m then m[key] else Start()
  }

  function StoreAfter(bad: Bytes -> bool, m: map<Key, Instance>, bytes: Bytes): map<Key, Instance> {
    if !Usable(bytes) then m
    else m[KeyOf(bytes) := Ingested(bad, Schedule(bytes[0]), Get(m, KeyOf(bytes)), bytes)]
  }

  function Store(bad: Bytes -> bool, input: seq<Bytes>): map<Key, Instance> {
    if input == [] then map[] else StoreAfter(bad, Store(bad, input[..|input| - 1]), input[|input| - 1])
  }

  /** The usable sections of one table. */
  function Only(input: seq<Bytes>, key: Key): (run: seq<Section>)
    ensures forall i :: 0 <= i < |run| ==> run[i] in input && KeyOf(run[i]) == key && Usable(run[i])
  {
    if input == [] then []
    else
      var b, before := input[|input| - 1], Only(input[..|input| - 1], key);
      if Usable(b) && KeyOf(b) == key then before + [b] else before
  }

  lemma StoreStep(bad: Bytes -> bool, m: map<Key, Instance>, b: Bytes, key: Key)
    ensures var hit := Usable(b) && KeyOf(b) == key;
            && (key in StoreAfter(bad, m, b) <==> key in m || hit)
            && Get(StoreAfter(bad, m, b), key) ==
               if hit then Ingested(bad, Schedule(key.table), Get(m, key), b) else Get(m, key)
  {
  }

  lemma RunLast(bad: Bytes -> bool, schedule: bool, run: seq<Section>, b: Section)
    ensures Run(bad, schedule, run + [b]) == Ingested(bad, schedule, Run(bad, schedule, run), b)
  {
    var more: seq<Section> := run + [b];
    assert more[..|run|] == run;
  }

  /** Whatever bytes arrive, each table is what its own sections make of it. */
  lemma {:induction false} TablesAreIndependent(bad: Bytes -> bool, input: seq<Bytes>, key: Key)
    ensures key in Store(bad, input) <==> Only(input, key) != []
    ensures Get(Store(bad, input), key) == Run(bad, Schedule(key.table), Only(input, key))
    decreases |input|
  {
    if input != [] {
      var b, before := input[|input| - 1], input[..|input| - 1];
      TablesAreIndependent(bad, before, key);
      StoreStep(bad, Store(bad, before), b, key);
      if Usable(b) && KeyOf(b) == key {
        RunLast(bad, Schedule(key.table), Only(before, key), b);
      }
    }
  }

  lemma {:induction false} EpochIsFromRun(run: seq<Section>, b: Section)
    requires b in Epoch(run)
    ensures b in run && Current(run) == Some(VersionOf(b))
    decreases |run|
  {
    var before := run[..|run| - 1];
    if b != run[|run| - 1] || b in Epoch(before) {
      EpochIsFromRun(before, b);
    }
  }

  lemma OriginOfEvents(o: Origin, rest: Bytes, i: nat)
    requires i < |ListEvents(o, rest).events|
    ensures ListEvents(o, rest).events[i].origin == o
  {
  }

  lemma EntryOrigin(bad: Bytes -> bool, e: set<Section>, n: byte, b: Bytes, events: seq<Event>, isSafe: bool, i: nat)
    requires Entry(bad, e, n, b, events, isSafe) && i < |events|
    ensures b in e && Number(b) == n && events[i].origin == OriginOf(b)
  {
    OriginOfEvents(OriginOf(b), b[14..|b| - 4], i);
  }

  /** Where an event filed under number `n` of a table may come from. */
  predicate Belongs(o: Origin, key: Key, version: Option<Version>, n: byte) {
    && o.table == key.table && o.number == n && version == Some(o.version)
    && o.service == key.service && o.stream == key.stream && o.network == key.network
  }

  lemma KeptBelongs(bad: Bytes -> bool, run: seq<Section>, key: Key, payloads: map<byte, Bytes>,
                    sections: map<byte, seq<Event>>, safe: set<byte>, n: byte, i: nat) returns (k: nat)
    requires Kept(bad, Epoch(run), payloads, sections, safe) && n in sections && i < |sections[n]|
    requires forall j :: 0 <= j < |run| ==> KeyOf(run[j]) == key
    ensures k < |run| && sections[n][i].origin == OriginOf(run[k])
    ensures Belongs(sections[n][i].origin, key, Current(run), n)
  {
    var b := payloads[n];
    EntryOrigin(bad, Epoch(run), n, b, sections[n], n in safe, i);
    EpochIsFromRun(run, b);
    k :| 0 <= k < |run| && run[k] == b;
  }

  lemma RunBelongs(bad: Bytes -> bool, schedule: bool, run: seq<Section>, key: Key, t: Instance, n: byte, i: nat)
    returns (k: nat)
    requires t == Run(bad, schedule, run) && n in t.sections && i < |t.sections[n]|
    requires forall j :: 0 <= j < |run| ==> KeyOf(run[j]) == key
    ensures k < |run| && t.sections[n][i].origin == OriginOf(run[k])
    ensures Belongs(t.sections[n][i].origin, key, t.tracker.version, n)
  {
    RunSummary(bad, schedule, run);
    k := KeptBelongs(bad, run, key, t.tracker.payloads, t.sections, t.safe, n, i);
  }

  /** No stored event is of another table, another version or another section than the one it is filed under. */
  lemma NothingIsMixed(bad: Bytes -> bool, input: seq<Bytes>, key: Key, t: Instance, n: byte, i: nat)
    requires t == Get(Store(bad, input), key) && n in t.sections && i < |t.sections[n]|
    ensures Belongs(t.sections[n][i].origin, key, t.tracker.version, n)
    ensures exists b :: b in input && Usable(b) && OriginOf(b) == t.sections[n][i].origin
  {
    var run := Only(input, key);
    TablesAreIndependent(bad, input, key);
    var k := RunBelongs(bad, Schedule(key.table), run, key, t, n, i);
    assert run[k] in input && Usable(run[k]);
  }

  class Instances {
    const bad: Bytes -> bool
    var instances: map<Key, Instance>

    constructor (bad: Bytes -> bool)
      ensures this.bad == bad && instances == Store(bad, [])
    {
      this.bad, instances := bad, map[];
    }

    /** One section, with the checks and the early exits of the collector. */
    method Ingest(section: Bytes)
      modifies this
      ensures instances == StoreAfter(bad, old(instances), section)
    {
      if |section| < 18 || Framing.LengthField(section) + 3 != |section| || !(0x4e <= section[0] <= 0x6f) { return; }
      var crc := Crc.Crc32Mpeg(section);
      if crc != Zeros(Crc.WIDTH) || section[1] / 128 != 1 { return; }
      var key := KeyOf(section);
      var instance := Collect(bad, Get(instances, key), section);
      instances := instances[key := instance];
    }
  }

  method Collect(bad: Bytes -> bool, t: Instance, section: Section) returns (r: Instance)
    ensures r == Ingested(bad, Schedule(section[0]), t, section)
  {
    if !Accepts(t.tracker.version, VersionOf(section)) { return t; }
    r := t;
    if r.tracker.version != Some(VersionOf(section)) {
      r := Instance(r.tracker, map[], {}, map[]);
    }
    var tracker := new SectionTracker(r.tracker);
    var isNew := tracker.Observe(VersionOf(section), Number(section), Last(section), section);
    r := r.(tracker := tracker.Abs());
    if isNew {
      r := FileSection(bad, r, section);
    }
  }

  method FileSection(bad: Bytes -> bool, t: Instance, section: Section) returns (r: Instance)
    ensures r == Filed(bad, Schedule(section[0]), t, section)
  {
    r := t;
    var number := Number(section);
    if section[0] >= 0x50 {
      var start, end := Segment(number), End(section);
      if end < number || end > Last(section) || Segment(end) != start || (start in r.ends && r.ends[start] != end) {
        r := r.(tracker := r.tracker.(inconsistent := true));
      }
      r := r.(ends := r.ends[start := end]);
    }
    var facts := ParseEvents(OriginOf(section), section, |section| - 4);
    r := r.(safe := r.safe - {number});
    if Clean(bad, facts) {
      r := r.(safe := r.safe + {number});
    }
    r := r.(sections := r.sections[number := facts.events]);
  }
}
