/** Streams of sections that lead the collector into the cases where a promise is not kept. */
module SectionStreams {
  import opened Basics
  import opened SectionTracking
  import opened Discovery
  import opened DiscoveryEngine
  import opened Provenance
  import opened Collector
  import Crc
  import Framing = Section

  // ---------------------------------------------------------------- building sections

  function Hi(x: uint16): byte {
    x / 256
  }

  function Lo(x: uint16): byte {
    x % 256
  }

  /** A head with its checksum. */
  function Seal(head: Bytes): Bytes {
    head + Crc.Trailer(Crc.Crc(head))
  }

  /** A head in the long form, of version 0 and current, that declares its own size. */
  predicate IsHead(head: Bytes) {
    12 <= |head| < 250 && head[1] == 0xb0 && head[2] == |head| + 1 && head[5] == 0xc1
  }

  /** The first bytes of `s` are `head`, and four more follow. */
  predicate Begins(s: Bytes, head: Bytes) {
    |s| == |head| + 4 && forall i :: 0 <= i < |head| ==> s[i] == head[i]
  }

  lemma SealBegins(head: Bytes)
    ensures Begins(Seal(head), head)
  {
    hide Crc.Crc, Crc.Trailer;
  }

  lemma SealIsSound(head: Bytes)
    ensures Crc.Sound(Seal(head))
  {
    Crc.SoundIffTrailer(head, Crc.Trailer(Crc.Crc(head)));
    hide Crc.Sound, Crc.Crc, Crc.Trailer;
  }

  lemma SealIsTracked(head: Bytes)
    requires IsHead(head)
    ensures var s := Seal(head);
            Begins(s, head) && Tracked(s) && Whole(s) && BodyEnd(s) == |head| && VersionOf(s) == 0
  {
    hide Crc.Sound, Seal;
    var s := Seal(head);
    SealBegins(head);
    SealIsSound(head);
    assert s[1] == 0xb0 && s[2] == |head| + 1 && s[5] == 0xc1;
    assert Framing.LengthField(s) == |head| + 1;
    assert s[..3 + Framing.LengthField(s)] == s;
  }

  lemma SameNumber(x: uint16)
    ensures Be16(Hi(x), Lo(x)) == x && (IsPid(x) ==> Pid(Hi(x), Lo(x)) == x)
  {
    if IsPid(x) {
      assert Hi(x) % 32 == Hi(x);
    }
  }

  const LAST_PAT: byte := 2
  const LAST_PMT: byte := 1

  /** Section `number` of an association table, with one entry. */
  function PatHead(p: Program, number: byte, pid: uint16): Bytes {
    [0x00, 0xb0, 13, Hi(p.tsid), Lo(p.tsid), 0xc1, number, LAST_PAT, Hi(p.sid), Lo(p.sid), Hi(pid), Lo(pid)]
  }

  /** Section `number` of a map table without streams. */
  function PmtHead(sid: uint16, number: byte, pcr: uint16): Bytes {
    [0x02, 0xb0, 13, Hi(sid), Lo(sid), 0xc1, number, LAST_PMT, Hi(pcr), Lo(pcr), 0xf0, 0x00]
  }

  /** A service table that names one service. */
  function SdtHead(k: ServiceKey): Bytes {
    [0x42, 0xb0, 17, Hi(k.tsid), Lo(k.tsid), 0xc1, 0, 0, Hi(k.onid), Lo(k.onid), 0xff, Hi(k.sid), Lo(k.sid), 0xfc, 0x80, 0x00]
  }

  predicate IsPid(pid: uint16) {
    pid < 0x2000
  }

  function PcrOf(pcr: uint16): Facts {
    Facts(true, if pcr == 0x1fff then None else Some(pcr), [])
  }

  /** No descriptor loop of these streams is broken. */
  const INTACT: Bytes -> bool := _ => false

  lemma OnePatEvent(p: Program, pid: uint16)
    requires p.sid != 0 && IsPid(pid)
    ensures PatEvents(p.tsid, [Hi(p.sid), Lo(p.sid), Hi(pid), Lo(pid)]) == [AddProgram(p, pid)]
  {
    var rest: Bytes := [Hi(p.sid), Lo(p.sid), Hi(pid), Lo(pid)];
    SameNumber(p.sid);
    SameNumber(pid);
    assert rest[4..] == [];
    hide Hi, Lo, Pid;
  }

  lemma PatSays(p: Program, number: byte, pid: uint16, pat: map<Program, uint16>)
    requires p.sid != 0 && IsPid(pid)
    ensures var s := Seal(PatHead(p, number, pid));
            && Tracked(s) && VersionOf(s) == 0 && s[0] == 0x00 && s[6] == number && s[7] == LAST_PAT
            && KeyOf(0, s) == TrackerKey(0, 0x00, p.tsid, GLOBAL_SCOPE)
            && Accepted(INTACT, pat, 0, s) == [AddProgram(p, pid)]
  {
    hide Seal, Tracked, Whole, DiscoveryEngine.Current, Hi, Lo, VersionOf, BodyEnd, KeyOf, Be16, PatEvents;
    var head := PatHead(p, number, pid);
    var s := Seal(head);
    HeadFields(head, 0, p.tsid);
    SealBegins(head);
    assert s[8] == head[8] && s[9] == head[9] && s[10] == head[10] && s[11] == head[11];
    assert s[8..12] == [Hi(p.sid), Lo(p.sid), Hi(pid), Lo(pid)];
    OnePatEvent(p, pid);
  }

  lemma TrackedIsCurrent(s: Bytes)
    requires Tracked(s)
    ensures DiscoveryEngine.Current(s) && |s| >= 8
  {
  }

  lemma NoLoop(hi: byte, lo: byte)
    requires hi % 16 == 0 && lo == 0
    ensures LoopLength(hi, lo) == 0
  {
  }

  lemma NoStreams()
    ensures StreamsIn([]) == []
  {
  }

  lemma OnePmtFact(s: Bytes, pcr: uint16)
    requires Whole(s) && |s| == 16 && BodyEnd(s) == 12 && s[8] == Hi(pcr) && s[9] == Lo(pcr) && s[10] == 0xf0 && s[11] == 0x00
    requires IsPid(pcr)
    ensures PmtFacts(INTACT, s) == Some(PcrOf(pcr))
  {
    hide Hi, Lo, Whole, BodyEnd, LoopLength, StreamsIn, Pid;
    SameNumber(pcr);
    NoLoop(s[10], s[11]);
    NoStreams();
    assert s[12..12] == [];
  }

  /** The numbers that are read from a sealed head. */
  lemma HeadFields(head: Bytes, pid: uint16, x: uint16)
    requires IsHead(head) && head[3] == Hi(x) && head[4] == Lo(x) && head[0] != 0x42 && head[0] != 0x46
    ensures var s := Seal(head);
            && Tracked(s) && Whole(s) && BodyEnd(s) == |head| && VersionOf(s) == 0 && DiscoveryEngine.Current(s)
            && s[0] == head[0] && s[6] == head[6] && s[7] == head[7] && Be16(s[3], s[4]) == x
            && KeyOf(pid, s) == TrackerKey(pid, head[0], x, GLOBAL_SCOPE)
  {
    hide Seal, Tracked, Whole, BodyEnd, DiscoveryEngine.Current, Hi, Lo, VersionOf, Be16;
    var s := Seal(head);
    SealIsTracked(head);
    TrackedIsCurrent(s);
    SameNumber(x);
    assert s[0] == head[0] && s[3] == head[3] && s[4] == head[4] && s[6] == head[6] && s[7] == head[7];
  }

  lemma PmtSays(sid: uint16, number: byte, pcr: uint16, pid: uint16, pat: map<Program, uint16>)
    requires IsPid(pcr)
    ensures var s := Seal(PmtHead(sid, number, pcr));
            && Tracked(s) && VersionOf(s) == 0 && s[0] == 0x02 && s[6] == number && s[7] == LAST_PMT
            && Be16(s[3], s[4]) == sid && KeyOf(pid, s) == TrackerKey(pid, 0x02, sid, GLOBAL_SCOPE)
            && (pid in pat.Values ==> Accepted(INTACT, pat, pid, s) == [AddPmt(pid, sid, PcrOf(pcr))])
  {
    hide Seal, Tracked, Whole, DiscoveryEngine.Current, Hi, Lo, VersionOf, PmtFacts, BodyEnd, KeyOf, Be16;
    var head := PmtHead(sid, number, pcr);
    var s := Seal(head);
    HeadFields(head, pid, sid);
    SealBegins(head);
    assert s[8] == head[8] && s[9] == head[9] && s[10] == head[10] && s[11] == head[11];
    OnePmtFact(s, pcr);
  }

  lemma OneSdtEvent(k: ServiceKey)
    ensures SdtEvents(k.tsid, k.onid, [Hi(k.sid), Lo(k.sid), 0xfc, 0x80, 0x00]) == [Announce(k)]
  {
    hide Hi, Lo, LoopLength, Be16;
    var rest: Bytes := [Hi(k.sid), Lo(k.sid), 0xfc, 0x80, 0x00];
    SameNumber(k.sid);
    NoLoop(rest[3], rest[4]);
    assert rest[5..] == [];
    NoServices(k.tsid, k.onid);
  }

  lemma NoServices(tsid: uint16, onid: uint16)
    ensures SdtEvents(tsid, onid, []) == []
  {
  }

  /** The numbers that are read from a sealed service table head. */
  lemma NameFields(k: ServiceKey)
    ensures var s := Seal(SdtHead(k));
            && Tracked(s) && Whole(s) && BodyEnd(s) == 16 && VersionOf(s) == 0 && DiscoveryEngine.Current(s)
            && s[0] == 0x42 && s[6] == 0 && s[7] == 0 && Be16(s[3], s[4]) == k.tsid && Be16(s[8], s[9]) == k.onid
            && s[11..16] == [Hi(k.sid), Lo(k.sid), 0xfc, 0x80, 0x00]
  {
    hide Seal, Tracked, Whole, BodyEnd, DiscoveryEngine.Current, Hi, Lo, VersionOf, Be16;
    var head := SdtHead(k);
    var s := Seal(head);
    SealIsTracked(head);
    TrackedIsCurrent(s);
    SameNumber(k.tsid);
    SameNumber(k.onid);
    assert s[0] == head[0] && s[3] == head[3] && s[4] == head[4] && s[6] == head[6] && s[7] == head[7];
    assert s[8] == head[8] && s[9] == head[9];
    assert s[11] == head[11] && s[12] == head[12] && s[13] == head[13] && s[14] == head[14] && s[15] == head[15];
  }

  lemma SdtSays(k: ServiceKey, pat: map<Program, uint16>)
    ensures var s := Seal(SdtHead(k));
            && Tracked(s) && VersionOf(s) == 0 && s[0] == 0x42 && s[6] == 0 && s[7] == 0
            && KeyOf(0x11, s) == TrackerKey(0x11, 0x42, k.tsid, k.onid)
            && Accepted(INTACT, pat, 0x11, s) == [Announce(k)]
  {
    hide Seal, SdtHead, Tracked, Whole, BodyEnd, DiscoveryEngine.Current, Hi, Lo, VersionOf, Be16, SdtEvents;
    NameFields(k);
    OneSdtEvent(k);
  }

  lemma DifferentPcr(sid: uint16, number: byte, pcr: uint16, other: uint16)
    requires pcr != other
    ensures Seal(PmtHead(sid, number, pcr)) != Seal(PmtHead(sid, number, other))
  {
    var a, b := Seal(PmtHead(sid, number, pcr)), Seal(PmtHead(sid, number, other));
    hide Crc.Crc, Crc.Trailer;
    assert a[8] == Hi(pcr) && a[9] == Lo(pcr) && b[8] == Hi(other) && b[9] == Lo(other);
  }

  // ---------------------------------------------------------------- pushing them

  /** A section that the tracker of its table has room for. */
  predicate Fits(t: Tracker, s: Bytes)
    requires Tracked(s)
  {
    && s[6] <= s[7] && s[6] !in t.payloads
    && (t == Fresh() || (t.version == Some(VersionOf(s)) && !t.inconsistent && t.last == Some(s[7])))
  }

  function Noted(t: Tracker, s: Bytes): Tracker
    requires Tracked(s)
  {
    Tracker(Some(VersionOf(s)), Some(s[7]), t.seen + {s[6]}, false, t.payloads[s[6] := s])
  }

  lemma SameVersionFits(v: Version)
    ensures Accepts(Some(v), v) && Accepts(None, v)
  {
    ForwardIsOneWay(v, v);
  }

  lemma TrackFits(t: Tracker, s: Bytes)
    requires Tracked(s) && Fits(t, s)
    ensures Accepts(t.version, VersionOf(s)) && Baseline(t, s) == t && Track(t, s) == (Noted(t, s), true)
  {
    SameVersionFits(VersionOf(s));
    hide Tracked, VersionOf, Accepts;
  }

  lemma TrackClash(t: Tracker, s: Bytes)
    requires Tracked(s) && t.version == Some(VersionOf(s)) && s[6] in t.payloads && t.payloads[s[6]] != s
    ensures Accepts(t.version, VersionOf(s)) && Baseline(t, s) == t && Track(t, s).0.inconsistent && !Track(t, s).1
  {
    SameVersionFits(VersionOf(s));
    hide Tracked, VersionOf, Accepts;
  }

  lemma PushFits(trackers: Trackers, e: Engine, pid: uint16, s: Bytes)
    requires Tracked(s) && Fits(Get(trackers, KeyOf(pid, s)), s)
    ensures var key := KeyOf(pid, s);
            Push(INTACT, trackers, e, pid, s) ==
            Pushed(trackers[key := Noted(Get(trackers, key), s)], Accepted(INTACT, e.pat, pid, s))
  {
    TrackFits(Get(trackers, KeyOf(pid, s)), s);
    hide Tracked, VersionOf, Accepts, Track, Baseline, KeyOf, Accepted, Fold, Withdrawal;
    BaselineKept(Get(trackers, KeyOf(pid, s)), s);
    FoldNothing(e);
    assert [] + Accepted(INTACT, e.pat, pid, s) == Accepted(INTACT, e.pat, pid, s);
  }

  lemma BaselineKept(t: Tracker, s: Bytes)
    requires Tracked(s) && Baseline(t, s) == t
    ensures t.version.Some? ==> t.version.value == VersionOf(s)
  {
    hide Tracked, VersionOf;
  }

  /** A map table that contradicts an earlier section is withdrawn. */
  lemma PushClash(trackers: Trackers, e: Engine, pid: uint16, s: Bytes)
    requires Tracked(s) && s[0] == 0x02
    requires var t := Get(trackers, KeyOf(pid, s));
             t.version == Some(VersionOf(s)) && s[6] in t.payloads && t.payloads[s[6]] != s
    ensures var p := Push(INTACT, trackers, e, pid, s);
            && p.events == [DropPmt(pid, Be16(s[3], s[4]))]
            && exists t: Tracker :: t.inconsistent && p.trackers == trackers[KeyOf(pid, s) := t]
  {
    TrackClash(Get(trackers, KeyOf(pid, s)), s);
    hide Tracked, VersionOf, Accepts, Track, Baseline, KeyOf, Accepted, Fold;
  }

  lemma LogOne(input: Input, pid: uint16, s: Bytes)
    ensures var p := Push(INTACT, Log(INTACT, input).0, Run(Log(INTACT, input).1), pid, s);
            Log(INTACT, input + [(pid, s)]) == (p.trackers, Log(INTACT, input).1 + p.events)
  {
    assert (input + [(pid, s)])[..|input|] == input;
    hide Push, Run;
  }

  function PatKey(tsid: uint16): TrackerKey {
    TrackerKey(0, 0x00, tsid, GLOBAL_SCOPE)
  }

  function MapKey(pid: uint16, sid: uint16): TrackerKey {
    TrackerKey(pid, 0x02, sid, GLOBAL_SCOPE)
  }

  function NameKey(k: ServiceKey): TrackerKey {
    TrackerKey(0x11, 0x42, k.tsid, k.onid)
  }

  function PatSection(p: Program, number: byte, pid: uint16): (uint16, Bytes) {
    (0, Seal(PatHead(p, number, pid)))
  }

  function PmtSection(pid: uint16, sid: uint16, number: byte, pcr: uint16): (uint16, Bytes) {
    (pid, Seal(PmtHead(sid, number, pcr)))
  }

  function SdtSection(k: ServiceKey): (uint16, Bytes) {
    (0x11, Seal(SdtHead(k)))
  }

  /** A tracker of version 0 that has seen these sections of a table. */
  predicate Holding(t: Tracker, last: byte, payloads: map<byte, Bytes>) {
    if payloads == map[] then t == Fresh()
    else t.version == Some(0) && t.last == Some(last) && !t.inconsistent && t.payloads == payloads
  }

  /** The trackers after `key` has also seen section `number`. */
  ghost predicate Grown(before: Trackers, after: Trackers, key: TrackerKey, last: byte, number: byte, s: Bytes,
                        payloads: map<byte, Bytes>)
  {
    Holding(Get(after, key), last, payloads[number := s]) && forall k :: k != key ==> Get(after, k) == Get(before, k)
  }

  lemma PushHeld(trackers: Trackers, e: Engine, pid: uint16, s: Bytes, key: TrackerKey, last: byte, payloads: map<byte, Bytes>)
    requires Tracked(s) && VersionOf(s) == 0 && s[6] <= s[7] == last && KeyOf(pid, s) == key
    requires Holding(Get(trackers, key), last, payloads) && s[6] !in payloads
    ensures var p := Push(INTACT, trackers, e, pid, s);
            p.events == Accepted(INTACT, e.pat, pid, s) && Grown(trackers, p.trackers, key, last, s[6], s, payloads)
  {
    hide Tracked, VersionOf, Push, KeyOf, Accepted;
    PushFits(trackers, e, pid, s);
  }

  lemma PatStep(input: Input, p: Program, number: byte, pid: uint16, payloads: map<byte, Bytes>)
    requires p.sid != 0 && IsPid(pid) && number <= LAST_PAT && number !in payloads
    requires Holding(Get(Log(INTACT, input).0, PatKey(p.tsid)), LAST_PAT, payloads)
    ensures var s, after := PatSection(p, number, pid), Log(INTACT, input + [PatSection(p, number, pid)]);
            && after.1 == Log(INTACT, input).1 + [AddProgram(p, pid)]
            && Grown(Log(INTACT, input).0, after.0, PatKey(p.tsid), LAST_PAT, number, s.1, payloads)
  {
    hide Log, Push, Tracked, VersionOf, KeyOf, Accepted, Seal, Holding, Grown, Run;
    var s := Seal(PatHead(p, number, pid));
    var e := Run(Log(INTACT, input).1);
    PatSays(p, number, pid, e.pat);
    LogOne(input, 0, s);
    PushHeld(Log(INTACT, input).0, e, 0, s, PatKey(p.tsid), LAST_PAT, payloads);
  }

  lemma PmtStep(input: Input, pid: uint16, sid: uint16, number: byte, pcr: uint16, payloads: map<byte, Bytes>)
    requires IsPid(pcr) && number <= LAST_PMT && number !in payloads && pid in TablesOf(Log(INTACT, input).1).pat.Values
    requires Holding(Get(Log(INTACT, input).0, MapKey(pid, sid)), LAST_PMT, payloads)
    ensures var s, after := PmtSection(pid, sid, number, pcr), Log(INTACT, input + [PmtSection(pid, sid, number, pcr)]);
            && after.1 == Log(INTACT, input).1 + [AddPmt(pid, sid, PcrOf(pcr))]
            && Grown(Log(INTACT, input).0, after.0, MapKey(pid, sid), LAST_PMT, number, s.1, payloads)
  {
    hide Log, Push, Tracked, VersionOf, KeyOf, Accepted, Seal, Holding, Grown, Run, TablesOf;
    var s := Seal(PmtHead(sid, number, pcr));
    EngineTables(Log(INTACT, input).1);
    var e := Run(Log(INTACT, input).1);
    PmtSays(sid, number, pcr, pid, e.pat);
    LogOne(input, pid, s);
    PushHeld(Log(INTACT, input).0, e, pid, s, MapKey(pid, sid), LAST_PMT, payloads);
  }

  lemma SdtStep(input: Input, k: ServiceKey)
    requires Holding(Get(Log(INTACT, input).0, NameKey(k)), 0, map[])
    ensures var s, after := SdtSection(k), Log(INTACT, input + [SdtSection(k)]);
            && after.1 == Log(INTACT, input).1 + [Announce(k)]
            && Grown(Log(INTACT, input).0, after.0, NameKey(k), 0, 0, s.1, map[])
  {
    hide Log, Push, Tracked, VersionOf, KeyOf, Accepted, Seal, Holding, Grown, Run;
    var s := Seal(SdtHead(k));
    var e := Run(Log(INTACT, input).1);
    SdtSays(k, e.pat);
    LogOne(input, 0x11, s);
    PushHeld(Log(INTACT, input).0, e, 0x11, s, NameKey(k), 0, map[]);
  }

  /** The same section number of a map table again, with other bytes. */
  lemma ClashStep(input: Input, pid: uint16, sid: uint16, number: byte, pcr: uint16, payloads: map<byte, Bytes>)
    requires IsPid(pcr) && number in payloads && payloads[number] != Seal(PmtHead(sid, number, pcr))
    requires Holding(Get(Log(INTACT, input).0, MapKey(pid, sid)), LAST_PMT, payloads)
    ensures var after := Log(INTACT, input + [PmtSection(pid, sid, number, pcr)]);
            && after.1 == Log(INTACT, input).1 + [DropPmt(pid, sid)] && Get(after.0, MapKey(pid, sid)).inconsistent
            && forall k :: k != MapKey(pid, sid) ==> Get(after.0, k) == Get(Log(INTACT, input).0, k)
  {
    hide Log, Push, Tracked, VersionOf, KeyOf, Accepted, Seal, Run;
    var s := Seal(PmtHead(sid, number, pcr));
    var e := Run(Log(INTACT, input).1);
    PmtSays(sid, number, pcr, pid, e.pat);
    LogOne(input, pid, s);
    PushClash(Log(INTACT, input).0, e, pid, s);
  }

  // ---------------------------------------------------------------- the streams

  lemma EmptyStart()
    ensures Log(INTACT, []) == (map[], [])
  {
  }

  /** Named first, a service has the PID of its program; named afterwards it has none. */
  lemma PidStreams(k: ServiceKey, pid: uint16)
    requires k.sid != 0 && IsPid(pid)
    ensures var name, entry := SdtSection(k), PatSection(k.Of(), 0, pid);
            && Run(Log(INTACT, [name, entry]).1).services == map[k := Service(Some(pid), NOTHING)]
            && Run(Log(INTACT, [entry, name]).1).services == map[k := Service(None, NOTHING)]
  {
    hide Log, Seal, Run, PatHead, SdtHead;
    var p := k.Of();
    var name, entry := SdtSection(k), PatSection(p, 0, pid);
    EmptyStart();
    assert [] + [name] == [name] && [name] + [entry] == [name, entry];
    assert [] + [entry] == [entry] && [entry] + [name] == [entry, name];
    SdtStep([], k);
    PatStep([name], p, 0, pid, map[]);
    PatStep([], p, 0, pid, map[]);
    SdtStep([entry], k);
    assert [] + [Announce(k)] + [AddProgram(p, pid)] == [Announce(k), AddProgram(p, pid)];
    assert [] + [AddProgram(p, pid)] + [Announce(k)] == [AddProgram(p, pid), Announce(k)];
    PidDependsOnOrder(k, pid);
  }

  lemma MappedLast(log: seq<Event>, p: Program, pid: uint16)
    ensures pid in TablesOf(log + [AddProgram(p, pid)]).pat.Values
  {
    RunLast(log, AddProgram(p, pid));
    assert TablesOf(log + [AddProgram(p, pid)]).pat[p] == pid;
  }

  lemma MappedStays(log: seq<Event>, v: Event, pid: uint16)
    requires pid in TablesOf(log).pat.Values && (v.Announce? || v.AddPmt?)
    ensures pid in TablesOf(log + [v]).pat.Values
  {
    RunLast(log, v);
  }

  /** The beginning of both streams: a name, an entry and a map table. */
  lemma ThreeSections(k: ServiceKey, pid: uint16, pcr: uint16)
    requires k.sid != 0 && IsPid(pid) && IsPid(pcr)
    ensures var p := k.Of();
            var input := [SdtSection(k)] + [PatSection(p, 0, pid)] + [PmtSection(pid, k.sid, 0, pcr)];
            var trackers := Log(INTACT, input).0;
            && Log(INTACT, input).1 == [Announce(k)] + [AddProgram(p, pid)] + [AddPmt(pid, k.sid, PcrOf(pcr))]
            && Holding(Get(trackers, PatKey(p.tsid)), LAST_PAT, map[0 := PatSection(p, 0, pid).1])
            && Holding(Get(trackers, MapKey(pid, k.sid)), LAST_PMT, map[0 := PmtSection(pid, k.sid, 0, pcr).1])
            && forall j: ServiceKey :: NameKey(j) != NameKey(k) ==> Get(trackers, NameKey(j)) == Fresh()
  {
    hide Log, Seal, PatHead, SdtHead, PmtHead, TablesOf;
    var p := k.Of();
    var i1 := [SdtSection(k)];
    var i2 := i1 + [PatSection(p, 0, pid)];
    EmptyStart();
    assert [] + [SdtSection(k)] == i1 && [] + [Announce(k)] == [Announce(k)];
    SdtStep([], k);
    PatStep(i1, p, 0, pid, map[]);
    MappedLast([Announce(k)], p, pid);
    PmtStep(i2, pid, k.sid, 0, pcr, map[]);
    assert map[][0 := PatSection(p, 0, pid).1] == map[0 := PatSection(p, 0, pid).1];
  }

  /** A contradictory map table is shown: it is contradicted while its program is mapped elsewhere, so nothing is
      withdrawn, and then the program is mapped back. */
  lemma ContradictoryIsShown(k: ServiceKey, pid: uint16, other: uint16, pcr: uint16, pcr': uint16)
    requires k.sid != 0 && IsPid(pid) && IsPid(other) && pid != other && IsPid(pcr) && IsPid(pcr') && pcr != pcr'
    ensures var p := k.Of();
            var input := [SdtSection(k)] + [PatSection(p, 0, pid)] + [PmtSection(pid, k.sid, 0, pcr)]
                         + [PatSection(p, 1, other)] + [PmtSection(pid, k.sid, 0, pcr')] + [PatSection(p, 2, pid)];
            var (trackers, log) := Log(INTACT, input);
            && Get(trackers, MapKey(pid, k.sid)).inconsistent
            && k in Run(log).services && Run(log).services[k].facts == PcrOf(pcr)
  {
    hide Log, Seal, PatHead, SdtHead, PmtHead, TablesOf, Run, Holding;
    var p := k.Of();
    var i3 := [SdtSection(k)] + [PatSection(p, 0, pid)] + [PmtSection(pid, k.sid, 0, pcr)];
    var i4 := i3 + [PatSection(p, 1, other)];
    var i5 := i4 + [PmtSection(pid, k.sid, 0, pcr')];
    var first, second := PatSection(p, 0, pid).1, PatSection(p, 1, other).1;
    ThreeSections(k, pid, pcr);
    PatStep(i3, p, 1, other, map[0 := first]);
    DifferentPcr(k.sid, 0, pcr, pcr');
    ClashStep(i4, pid, k.sid, 0, pcr', map[0 := PmtSection(pid, k.sid, 0, pcr).1]);
    PatStep(i5, p, 2, pid, map[0 := first][1 := second]);
    WithdrawalCanMiss(k, pid, other, PcrOf(pcr));
  }

  /** With a rival, a second section of the map table is stored and not shown. */
  lemma RivalKeepsOldFacts(k: ServiceKey, rival: ServiceKey, pid: uint16, pcr: uint16, pcr': uint16)
    requires k.Of() == rival.Of() && k != rival && k.sid != 0
    requires IsPid(pid) && IsPid(pcr) && IsPid(pcr') && PcrOf(pcr) != PcrOf(pcr')
    ensures var p := k.Of();
            var input := [SdtSection(k)] + [PatSection(p, 0, pid)] + [PmtSection(pid, k.sid, 0, pcr)]
                         + [SdtSection(rival)] + [PmtSection(pid, k.sid, 1, pcr')];
            var log := Log(INTACT, input).1;
            var t := TablesOf(log);
            k in Run(log).services && Run(log).services[k].facts != Join(t.pat, t.stored, p)
  {
    hide Log, Seal, PatHead, SdtHead, PmtHead, TablesOf, Run, Holding, PcrOf, Join;
    var p := k.Of();
    var i3 := [SdtSection(k)] + [PatSection(p, 0, pid)] + [PmtSection(pid, k.sid, 0, pcr)];
    var i4 := i3 + [SdtSection(rival)];
    var e2, v3, v4 := [Announce(k)] + [AddProgram(p, pid)], AddPmt(pid, k.sid, PcrOf(pcr)), Announce(rival);
    ThreeSections(k, pid, pcr);
    NothingHeld(0);
    SdtStep(i3, rival);
    MappedLast([Announce(k)], p, pid);
    MappedStays(e2, v3, pid);
    MappedStays(e2 + [v3], v4, pid);
    PmtStep(i4, pid, k.sid, 1, pcr', map[0 := PmtSection(pid, k.sid, 0, pcr).1]);
    assert e2 + [v3] == [Announce(k), AddProgram(p, pid), v3];
    AmbiguityKeepsOldFacts(k, rival, pid, PcrOf(pcr), PcrOf(pcr'));
  }

  lemma NothingHeld(last: byte)
    ensures Holding(Fresh(), last, map[])
  {
  }
}
