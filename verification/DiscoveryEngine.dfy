/** The discovery engine as an object that reads sections. */
module DiscoveryEngine {
  import opened Basics
  import opened Discovery
  import opened BitStrings
  import Crc
  import Framing = Section

  // ---------------------------------------------------------------- sections as events

  function Fold(e: Engine, events: seq<Event>): Engine
    decreases |events|
  {
    if events == [] then e else Fold(After(e, events[0]), events[1..])
  }

  lemma {:induction false} FoldLast(e: Engine, events: seq<Event>, v: Event)
    ensures Fold(e, events + [v]) == After(Fold(e, events), v)
    decreases |events|
  {
    hide After;
    if events == [] {
      assert events + [v] == [v] && [v][1..] == [];
    } else {
      assert (events + [v])[0] == events[0] && (events + [v])[1..] == events[1..] + [v];
      FoldLast(After(e, events[0]), events[1..], v);
    }
  }

  /** Sections one after the other are the run of all their events. */
  lemma {:induction false} FoldIsRun(before: seq<Event>, events: seq<Event>)
    ensures Fold(Run(before), events) == Run(before + events)
    decreases |events|
  {
    hide After;
    if events == [] {
      assert before + events == before;
    } else {
      RunLast(before, events[0]);
      FoldIsRun(before + [events[0]], events[1..]);
      assert before + [events[0]] + events[1..] == before + events;
    }
  }

  function Pid(hi: byte, lo: byte): uint16 {
    Be16(hi % 32, lo)
  }

  /** Program number zero is the network, not a program. */
  function PatEvents(tsid: uint16, rest: Bytes): seq<Event>
    decreases |rest|
  {
    if |rest| < 4 then []
    else
      var number, pid := Be16(rest[0], rest[1]), Pid(rest[2], rest[3]);
      (if number != 0 then [AddProgram(Program(tsid, number), pid)] else []) + PatEvents(tsid, rest[4..])
  }

  function LoopLength(hi: byte, lo: byte): nat {
    Be16(hi % 16, lo)
  }

  function SdtEvents(tsid: uint16, onid: uint16, rest: Bytes): seq<Event>
    decreases |rest|
  {
    if |rest| < 5 || 5 + LoopLength(rest[3], rest[4]) > |rest| then []
    else [Announce(ServiceKey(tsid, onid, Be16(rest[0], rest[1])))]
         + SdtEvents(tsid, onid, rest[5 + LoopLength(rest[3], rest[4])..])
  }

  function StreamsIn(rest: Bytes): seq<Stream>
    decreases |rest|
  {
    if |rest| < 5 || 5 + LoopLength(rest[3], rest[4]) > |rest| then []
    else
      var end := 5 + LoopLength(rest[3], rest[4]);
      [Stream(rest[0], Pid(rest[1], rest[2]), rest[5..end])] + StreamsIn(rest[end..])
  }

  /** The part of a section before its checksum. */
  predicate Whole(section: Bytes) {
    |section| >= 8 && 4 <= Framing.LengthField(section) && 3 + Framing.LengthField(section) <= |section|
  }

  function BodyEnd(section: Bytes): (n: nat)
    requires Whole(section)
    ensures n <= |section| - 4
  {
    Framing.LengthField(section) - 1
  }

  /** `malformed` tells which map tables have a broken descriptor loop; their facts are not used. */
  function PmtFacts(malformed: Bytes -> bool, section: Bytes): Option<Facts>
    requires Whole(section) && |section| >= 12
  {
    var start, end := 12 + LoopLength(section[10], section[11]), BodyEnd(section);
    if start > end then None
    else if malformed(section) then Some(NOTHING)
    else
      var pcr := Pid(section[8], section[9]);
      Some(Facts(true, if pcr == 0x1fff then None else Some(pcr), StreamsIn(section[start..end])))
  }

  /** A current section, long or short form, whose checksum fits. */
  predicate Current(section: Bytes) {
    && |section| >= 3 && 4 <= Framing.LengthField(section) && 3 + Framing.LengthField(section) <= |section|
    && (section[1] / 128 == 1 ==> 8 <= 3 + Framing.LengthField(section) && section[5] % 2 == 1)
    && Crc.Sound(section[..3 + Framing.LengthField(section)])
  }

  function Accepted(malformed: Bytes -> bool, pat: map<Program, uint16>, pid: uint16, section: Bytes): seq<Event> {
    if Current(section) && Whole(section) then EventsOf(malformed, pat, pid, section) else []
  }

  function EventsOf(malformed: Bytes -> bool, pat: map<Program, uint16>, pid: uint16, section: Bytes): seq<Event>
    requires Whole(section)
  {
    var end := BodyEnd(section);
    if section[0] == 0x00 && pid == 0x0000 then
      if end < 8 then [] else PatEvents(Be16(section[3], section[4]), section[8..end])
    else if section[0] == 0x02 && pid in pat.Values then
      if |section| < 12 then []
      else match PmtFacts(malformed, section)
        case None => []
        case Some(facts) => [AddPmt(pid, Be16(section[3], section[4]), facts)]
    else if (section[0] == 0x42 || section[0] == 0x46) && pid == 0x0011 then
      if end < 11 then [] else SdtEvents(Be16(section[3], section[4]), Be16(section[8], section[9]), section[11..end])
    else []
  }

  // ---------------------------------------------------------------- map tables, program by program

  lemma ShownGrows(services: map<ServiceKey, Service>, hits: set<ServiceKey>, s: Service, k: ServiceKey)
    requires k in services
    ensures Shown(services, hits + {k}, s) == Shown(services, hits, s)[k := s]
  {
  }

  lemma MatchedGrows(pending: map<FullKey, Pending>, hits: set<ServiceKey>, news: Pending, k: ServiceKey)
    ensures Matched(pending, hits + {k}, news) == Matched(pending, hits, news)[FullKey(k, news.pid) := news]
  {
    var a, b := Matched(pending, hits + {k}, news), Matched(pending, hits, news)[FullKey(k, news.pid) := news];
    forall f | f in b ensures f in a && a[f] == b[f] {
      if f == FullKey(k, news.pid) {
        assert k in hits + {k};
      } else if f.service in hits && f.pid == news.pid {
        assert f == FullKey(f.service, news.pid) && f.service in hits + {k};
      }
    }
    forall f | f in a ensures f in b {
      if f !in pending {
        assert f.service in hits + {k} && f == FullKey(f.service, news.pid);
      }
    }
    assert a.Keys == b.Keys;
  }

  lemma HandedToNone(e: Engine, pid: uint16, sid: uint16, facts: Facts)
    ensures Handed(e, pid, sid, facts, {}) == e.(unresolved := AfterPmt(e, pid, sid, facts).unresolved)
  {
    var a := Handed(e, pid, sid, facts, {});
    assert Hits(e.services.Keys, {}) == {};
    assert a.services == e.services && a.pending == e.pending;
  }

  lemma HandedSkips(e: Engine, pid: uint16, sid: uint16, facts: Facts, done: set<Program>, p: Program)
    requires Resolved(e.services.Keys, p).None?
    ensures Handed(e, pid, sid, facts, done + {p}) == Handed(e, pid, sid, facts, done)
  {
    hide Resolved, Shown, Matched;
    assert Hits(e.services.Keys, done + {p}) == Hits(e.services.Keys, done);
  }

  lemma HandedSteps(e: Engine, pid: uint16, sid: uint16, facts: Facts, done: set<Program>, k: ServiceKey)
    requires Resolved(e.services.Keys, k.Of()) == Some(k) && Carries(e.pat, k.Of(), pid, sid)
    ensures var b := Handed(e, pid, sid, facts, done);
            Handed(e, pid, sid, facts, done + {k.Of()}) ==
            Attach(b.(pending := b.pending[FullKey(k, pid) := Pending(pid, facts)]), k)
  {
    ResolvedIff(e.services.Keys, k);
    HandedKeys(e, pid, sid, facts, done);
    hide Resolved, Shown, Matched;
    var hits := Hits(e.services.Keys, done);
    assert Hits(e.services.Keys, done + {k.Of()}) == hits + {k};
    ShownGrows(e.services, hits, Service(Some(pid), facts), k);
    MatchedGrows(e.pending, hits, Pending(pid, facts), k);
  }

  lemma HandedKeys(e: Engine, pid: uint16, sid: uint16, facts: Facts, done: set<Program>)
    ensures Handed(e, pid, sid, facts, done).services.Keys == e.services.Keys
    ensures Handed(e, pid, sid, facts, done).pat == e.pat
  {
  }

  // ---------------------------------------------------------------- the object

  class ServiceDiscoveryEngine {
    const malformed: Bytes -> bool
    var pat: map<Program, uint16>
    var services: map<ServiceKey, Service>
    var unresolved: map<PmtKey, Pending>
    var pending: map<FullKey, Pending>

    function Abs(): Engine
      reads this
    {
      Engine(pat, services, unresolved, pending)
    }

    constructor (malformed: Bytes -> bool)
      ensures this.malformed == malformed && Abs() == Run([])
    {
      this.malformed := malformed;
      pat, services, unresolved, pending := map[], map[], map[], map[];
    }

    method ApplyPending(k: ServiceKey)
      modifies this`pending, this`services
      ensures Abs() == Attach(old(Abs()), k)
    {
      hide Resolved;
      if k.Of() !in pat { return; }
      if Resolved(services.Keys, k.Of()) != Some(k) { return; }
      var full := FullKey(k, pat[k.Of()]);
      if full !in pending && full.Short() in unresolved {
        pending := pending[full := unresolved[full.Short()]];
      }
      if full !in pending { return; }
      services := services[k := Service(Some(pending[full].pid), pending[full].facts)];
    }

    method AddProgramEntry(p: Program, pid: uint16)
      modifies this`pat, this`pending, this`services
      ensures Abs() == AfterProgram(old(Abs()), p, pid)
    {
      hide Attach;
      pat := pat[p := pid];
      var resolved := Resolved(services.Keys, p);
      if resolved.Some? {
        services := services[resolved.value := Service(Some(pid), NOTHING)];
        ApplyPending(resolved.value);
      }
    }

    method ParsePat(tsid: uint16, section: Bytes, bodyEnd: nat)
      requires 8 <= bodyEnd <= |section|
      modifies this`pat, this`pending, this`services
      ensures Abs() == Fold(old(Abs()), PatEvents(tsid, section[8..bodyEnd]))
    {
      hide AfterProgram;
      var cursor := 8;
      while cursor + 4 <= bodyEnd
        invariant 8 <= cursor <= bodyEnd && unresolved == old(unresolved)
        invariant Fold(Abs(), PatEvents(tsid, section[cursor..bodyEnd]))
                  == Fold(old(Abs()), PatEvents(tsid, section[8..bodyEnd]))
        decreases bodyEnd - cursor
      {
        ghost var rest := section[cursor..bodyEnd];
        assert rest[4..] == section[cursor + 4..bodyEnd];
        var number := Be16(section[cursor], section[cursor + 1]);
        var pid := Pid(section[cursor + 2], section[cursor + 3]);
        FoldOfPat(Abs(), tsid, rest);
        if number != 0 {
          AddProgramEntry(Program(tsid, number), pid);
        }
        cursor := cursor + 4;
      }
    }

    method ParseSdt(tsid: uint16, onid: uint16, section: Bytes, bodyEnd: nat)
      requires 11 <= bodyEnd <= |section|
      modifies this`pending, this`services
      ensures Abs() == Fold(old(Abs()), SdtEvents(tsid, onid, section[11..bodyEnd]))
    {
      hide AfterAnnounce;
      var cursor := 11;
      while cursor + 5 <= bodyEnd
        invariant 11 <= cursor <= bodyEnd && pat == old(pat) && unresolved == old(unresolved)
        invariant Fold(Abs(), SdtEvents(tsid, onid, section[cursor..bodyEnd]))
                  == Fold(old(Abs()), SdtEvents(tsid, onid, section[11..bodyEnd]))
        decreases bodyEnd - cursor
      {
        ghost var rest := section[cursor..bodyEnd];
        var next := cursor + 5 + LoopLength(section[cursor + 3], section[cursor + 4]);
        FoldOfSdt(Abs(), tsid, onid, rest);
        if next > bodyEnd { return; }
        assert rest[next - cursor..] == section[next..bodyEnd];
        AnnounceService(ServiceKey(tsid, onid, Be16(section[cursor], section[cursor + 1])));
        cursor := next;
      }
    }

    method AnnounceService(k: ServiceKey)
      modifies this`pending, this`services
      ensures Abs() == AfterAnnounce(old(Abs()), k)
    {
      hide Attach;
      if k !in services {
        services := services[k := Service(None, NOTHING)];
      }
      ApplyPending(k);
    }

    /** Stores the facts for every candidate program, then attaches them where the program is unambiguous. */
    method StorePmt(pid: uint16, sid: uint16, facts: Facts)
      modifies this`unresolved, this`pending, this`services
      ensures Abs() == AfterPmt(old(Abs()), pid, sid, facts)
    {
      ghost var e := Abs();
      HandedToNone(e, pid, sid, facts);
      var news, candidates := Pending(pid, facts), Candidates(pat, pid, sid);
      unresolved := unresolved + map p | p in pat && Carries(pat, p, pid, sid) :: PmtKey(p, pid) := news;
      assert Abs() == Handed(e, pid, sid, facts, {});
      AttachAll(pid, sid, facts, candidates, e);
    }

    method AttachAll(pid: uint16, sid: uint16, facts: Facts, candidates: set<Program>, ghost e: Engine)
      requires Abs() == Handed(e, pid, sid, facts, {}) && candidates == Candidates(e.pat, pid, sid)
      modifies this`pending, this`services
      ensures Abs() == Handed(e, pid, sid, facts, candidates)
    {
      HandedKeys(e, pid, sid, facts, {});
      hide Handed, Attach, Resolved;
      var left := candidates;
      ghost var done: set<Program> := {};
      while left != {}
        invariant left <= candidates && done == candidates - left
        invariant pat == e.pat && services.Keys == e.services.Keys
        invariant Abs() == Handed(e, pid, sid, facts, done)
        decreases |left|
      {
        var p :| p in left;
        left := left - {p};
        var resolved := Resolved(services.Keys, p);
        if resolved.Some? {
          HandedSteps(e, pid, sid, facts, done, resolved.value);
          pending := pending[FullKey(resolved.value, pid) := Pending(pid, facts)];
          ApplyPending(resolved.value);
        } else {
          HandedSkips(e, pid, sid, facts, done, p);
        }
        done := done + {p};
        HandedKeys(e, pid, sid, facts, done);
      }
      assert done == candidates;
    }

    method ParsePmt(pid: uint16, section: Bytes)
      requires Whole(section) && |section| >= 12
      modifies this`unresolved, this`pending, this`services
      ensures match PmtFacts(malformed, section)
              case None => Abs() == old(Abs())
              case Some(facts) => Abs() == AfterPmt(old(Abs()), pid, Be16(section[3], section[4]), facts)
    {
      var facts := ReadPmt(malformed, section);
      hide AfterPmt, PmtFacts;
      if facts.Some? {
        StorePmt(pid, Be16(section[3], section[4]), facts.value);
      }
    }

    /** A section of any table, told apart by PID and table identifier; a damaged or future one is ignored. */
    method PushSection(pid: uint16, section: Bytes)
      modifies this
      ensures Abs() == Fold(old(Abs()), Accepted(malformed, old(pat), pid, section))
    {
      hide EventsOf;
      if |section| < 3 || Framing.LengthField(section) < 4 || 3 + Framing.LengthField(section) > |section| { return; }
      var total := 3 + Framing.LengthField(section);
      if section[1] / 128 == 1 && (total < 8 || section[5] % 2 == 0) { return; }
      var crc := Crc.Crc32Mpeg(section[..total]);
      if crc != Zeros(Crc.WIDTH) || |section| < 8 { return; }
      Dispatch(pid, section);
    }

    method Dispatch(pid: uint16, section: Bytes)
      requires Whole(section)
      modifies this
      ensures Abs() == Fold(old(Abs()), EventsOf(malformed, old(pat), pid, section))
    {
      hide PatEvents, SdtEvents, Handed, StreamsIn;
      var end := BodyEnd(section);
      if section[0] == 0x00 && pid == 0x0000 {
        if end >= 8 {
          ParsePat(Be16(section[3], section[4]), section, end);
        }
      } else if section[0] == 0x02 && pid in pat.Values {
        if |section| >= 12 {
          ParsePmt(pid, section);
        }
      } else if (section[0] == 0x42 || section[0] == 0x46) && pid == 0x0011 {
        if end >= 11 {
          ParseSdt(Be16(section[3], section[4]), Be16(section[8], section[9]), section, end);
        }
      }
    }

    method InvalidatePat()
      modifies this
      ensures Abs() == AfterDropPat(old(Abs()))
    {
      pat, unresolved, pending := map[], map[], map[];
      services := map k | k in services :: Service(None, NOTHING);
    }

    method InvalidatePmt(pid: uint16, sid: uint16)
      modifies this`services, this`unresolved, this`pending
      ensures Abs() == AfterDropPmt(old(Abs()), pid, sid)
    {
      hide Cleared, Forgotten, Unmatched;
      var affected := Candidates(pat, pid, sid);
      unresolved := Forgotten(unresolved, pid, affected);
      pending := Unmatched(pending, pid, affected);
      services := Cleared(services, pid, affected);
    }
  }

  lemma StreamsStep(done: seq<Stream>, rest: Bytes)
    requires |rest| >= 5
    ensures var end := 5 + LoopLength(rest[3], rest[4]);
            done + StreamsIn(rest) ==
            if end > |rest| then done
            else (done + [Stream(rest[0], Pid(rest[1], rest[2]), rest[5..end])]) + StreamsIn(rest[end..])
  {
  }

  method ReadStreams(section: Bytes, start: nat, bodyEnd: nat) returns (streams: seq<Stream>)
    requires start <= bodyEnd <= |section|
    ensures streams == StreamsIn(section[start..bodyEnd])
  {
    hide LoopLength, Pid, StreamsIn;
    streams := [];
    assert streams + StreamsIn(section[start..bodyEnd]) == StreamsIn(section[start..bodyEnd]);
    var cursor := start;
    while cursor + 5 <= bodyEnd
      invariant start <= cursor <= bodyEnd
      invariant StreamsIn(section[start..bodyEnd]) == streams + StreamsIn(section[cursor..bodyEnd])
      decreases bodyEnd - cursor
    {
      var rest := section[cursor..bodyEnd];
      var end := 5 + LoopLength(rest[3], rest[4]);
      StreamsStep(streams, rest);
      if end > |rest| { return; }
      DropTwice(section, cursor, cursor + end, bodyEnd);
      streams := streams + [Stream(rest[0], Pid(rest[1], rest[2]), rest[5..end])];
      cursor := cursor + end;
    }
    NoStreams(streams, section[cursor..bodyEnd]);
  }

  lemma NoStreams(done: seq<Stream>, rest: Bytes)
    requires |rest| < 5
    ensures done + StreamsIn(rest) == done
  {
  }

  method ReadPmt(malformed: Bytes -> bool, section: Bytes) returns (facts: Option<Facts>)
    requires Whole(section) && |section| >= 12
    ensures facts == PmtFacts(malformed, section)
  {
    hide StreamsIn, LoopLength, Pid, BodyEnd;
    var start, end := 12 + LoopLength(section[10], section[11]), BodyEnd(section);
    if start > end { return None; }
    if malformed(section) { return Some(NOTHING); }
    var pcr := Pid(section[8], section[9]);
    var streams := ReadStreams(section, start, end);
    return Some(Facts(true, if pcr == 0x1fff then None else Some(pcr), streams));
  }

  lemma DropTwice(section: Bytes, i: nat, j: nat, k: nat)
    requires i <= j <= k <= |section|
    ensures section[i..k][j - i..] == section[j..k]
  {
  }

  lemma FoldOfPat(e: Engine, tsid: uint16, rest: Bytes)
    requires |rest| >= 4
    ensures var number, pid := Be16(rest[0], rest[1]), Pid(rest[2], rest[3]);
            Fold(e, PatEvents(tsid, rest)) ==
            Fold(if number != 0 then AfterProgram(e, Program(tsid, number), pid) else e, PatEvents(tsid, rest[4..]))
  {
    hide AfterProgram;
    var number, pid, others := Be16(rest[0], rest[1]), Pid(rest[2], rest[3]), PatEvents(tsid, rest[4..]);
    if number == 0 {
      assert [] + others == others;
    } else {
      FoldOne(e, AddProgram(Program(tsid, number), pid), others);
    }
  }

  lemma FoldOfSdt(e: Engine, tsid: uint16, onid: uint16, rest: Bytes)
    requires |rest| >= 5
    ensures var end := 5 + LoopLength(rest[3], rest[4]);
            Fold(e, SdtEvents(tsid, onid, rest)) ==
            if end > |rest| then e
            else Fold(AfterAnnounce(e, ServiceKey(tsid, onid, Be16(rest[0], rest[1]))), SdtEvents(tsid, onid, rest[end..]))
  {
    hide AfterAnnounce;
    var end := 5 + LoopLength(rest[3], rest[4]);
    if end <= |rest| {
      FoldOne(e, Announce(ServiceKey(tsid, onid, Be16(rest[0], rest[1]))), SdtEvents(tsid, onid, rest[end..]));
    }
  }

  lemma FoldOne(e: Engine, v: Event, others: seq<Event>)
    ensures Fold(e, [v] + others) == Fold(After(e, v), others)
  {
    assert ([v] + others)[1..] == others;
  }
}
