/**
 Joining the tables of a transport stream: the program association table says on which PID a program's map
 table comes, the map table brings its streams, and the service tables say which services there are. They
 arrive in any order, and the facts of a service are attached as soon as all three are known.
*/
module Discovery {
  import opened Basics

  datatype Stream = Stream(kind: byte, pid: uint16, descriptors: Bytes)

  /** What a program map table tells about a service; nothing when it could not be parsed. */
  datatype Facts = Facts(parsed: bool, pcr: Option<uint16>, streams: seq<Stream>)

  const NOTHING: Facts := Facts(false, None, [])

  datatype Program = Program(tsid: uint16, sid: uint16)

  datatype ServiceKey = ServiceKey(tsid: uint16, onid: uint16, sid: uint16) {
    function Of(): Program {
      Program(tsid, sid)
    }
  }

  datatype PmtKey = PmtKey(program: Program, pid: uint16)

  datatype FullKey = FullKey(service: ServiceKey, pid: uint16) {
    function Short(): PmtKey {
      PmtKey(service.Of(), pid)
    }
  }

  datatype Pending = Pending(pid: uint16, facts: Facts)

  datatype Service = Service(pmtPid: Option<uint16>, facts: Facts)

  datatype Engine = Engine(pat: map<Program, uint16>, services: map<ServiceKey, Service>,
                           unresolved: map<PmtKey, Pending>, pending: map<FullKey, Pending>)

  function Start(): Engine {
    Engine(map[], map[], map[], map[])
  }

  // ---------------------------------------------------------------- the steps of the engine

  predicate Sole(keys: set<ServiceKey>, k: ServiceKey) {
    k in keys && forall j :: j in keys && j.Of() == k.Of() ==> j == k
  }

  /** The one service of a program, if there is just one. */
  function Resolved(keys: set<ServiceKey>, p: Program): (r: Option<ServiceKey>)
    ensures r.Some? ==> Sole(keys, r.value) && r.value.Of() == p
    ensures r.None? ==> forall k :: k in keys && k.Of() == p ==> !Sole(keys, k)
  {
    if exists k :: k in keys && Sole(keys, k) && k.Of() == p then
      var k :| k in keys && Sole(keys, k) && k.Of() == p;
      Some(k)
    else None
  }

  /** Attaches what is stored for a service, once its program is announced and unambiguous. */
  function Attach(e: Engine, k: ServiceKey): Engine {
    if k.Of() !in e.pat || Resolved(e.services.Keys, k.Of()) != Some(k) then e
    else
      var full := FullKey(k, e.pat[k.Of()]);
      var pending := if full !in e.pending && full.Short() in e.unresolved
                     then e.pending[full := e.unresolved[full.Short()]] else e.pending;
      if full !in pending then e
      else e.(pending := pending,
              services := e.services[k := Service(Some(pending[full].pid), pending[full].facts)])
  }

  /** One entry of the program association table. */
  function AfterProgram(e: Engine, p: Program, pid: uint16): Engine {
    var named := e.(pat := e.pat[p := pid]);
    match Resolved(e.services.Keys, p)
    case None => named
    case Some(k) => Attach(named.(services := e.services[k := Service(Some(pid), NOTHING)]), k)
  }

  /** One service of a service, bouquet or network table. */
  function AfterAnnounce(e: Engine, k: ServiceKey): Engine {
    Attach(if k in e.services then e else e.(services := e.services[k := Service(None, NOTHING)]), k)
  }

  /** The program map table on `pid` belongs to every program of that number that the association table puts there. */
  predicate Carries(pat: map<Program, uint16>, p: Program, pid: uint16, sid: uint16) {
    p.sid == sid && p in pat && pat[p] == pid
  }

  function Candidates(pat: map<Program, uint16>, pid: uint16, sid: uint16): set<Program> {
    set p | p in pat && Carries(pat, p, pid, sid)
  }

  /** The unambiguous services of some programs. */
  function Hits(keys: set<ServiceKey>, programs: set<Program>): set<ServiceKey> {
    set k | k in keys && k.Of() in programs && Sole(keys, k)
  }

  function Shown(services: map<ServiceKey, Service>, hits: set<ServiceKey>, s: Service): map<ServiceKey, Service> {
    map k | k in services :: if k in hits then s else services[k]
  }

  function Matched(pending: map<FullKey, Pending>, hits: set<ServiceKey>, news: Pending): map<FullKey, Pending> {
    pending + map k | k in hits :: FullKey(k, news.pid) := news
  }

  /** A map table stored for its programs and attached to the services of those in `programs`. */
  function Handed(e: Engine, pid: uint16, sid: uint16, facts: Facts, programs: set<Program>): Engine {
    var hits := Hits(e.services.Keys, programs);
    Engine(e.pat,
           Shown(e.services, hits, Service(Some(pid), facts)),
           e.unresolved + map p | p in e.pat && Carries(e.pat, p, pid, sid) :: PmtKey(p, pid) := Pending(pid, facts),
           Matched(e.pending, hits, Pending(pid, facts)))
  }

  function AfterPmt(e: Engine, pid: uint16, sid: uint16, facts: Facts): Engine {
    Handed(e, pid, sid, facts, Candidates(e.pat, pid, sid))
  }

  /** A new version of the association table starts from nothing. */
  function AfterDropPat(e: Engine): Engine {
    Engine(map[], map k | k in e.services :: Service(None, NOTHING), map[], map[])
  }

  /** A new or contradictory version of a map table withdraws its facts. */
  function AfterDropPmt(e: Engine, pid: uint16, sid: uint16): Engine {
    var affected := Candidates(e.pat, pid, sid);
    Engine(e.pat, Cleared(e.services, pid, affected), Forgotten(e.unresolved, pid, affected),
           Unmatched(e.pending, pid, affected))
  }

  function Cleared(services: map<ServiceKey, Service>, pid: uint16, affected: set<Program>): map<ServiceKey, Service> {
    map k | k in services ::
      if services[k].pmtPid == Some(pid) && k.Of() in affected then services[k].(facts := NOTHING) else services[k]
  }

  function Forgotten(unresolved: map<PmtKey, Pending>, pid: uint16, affected: set<Program>): map<PmtKey, Pending> {
    map s | s in unresolved && !(s.pid == pid && s.program in affected) :: unresolved[s]
  }

  function Unmatched(pending: map<FullKey, Pending>, pid: uint16, affected: set<Program>): map<FullKey, Pending> {
    map f | f in pending && !(f.pid == pid && f.service.Of() in affected) :: pending[f]
  }

  datatype Event =
    | AddProgram(program: Program, pid: uint16)
    | Announce(service: ServiceKey)
    | AddPmt(pid: uint16, sid: uint16, facts: Facts)
    | DropPat
    | DropPmt(pid: uint16, sid: uint16)

  function After(e: Engine, v: Event): Engine {
    match v
    case AddProgram(p, pid) => AfterProgram(e, p, pid)
    case Announce(k) => AfterAnnounce(e, k)
    case AddPmt(pid, sid, facts) => AfterPmt(e, pid, sid, facts)
    case DropPat => AfterDropPat(e)
    case DropPmt(pid, sid) => AfterDropPmt(e, pid, sid)
  }

  function Run(events: seq<Event>): Engine {
    if events == [] then Start() else After(Run(events[..|events| - 1]), events[|events| - 1])
  }

  // ---------------------------------------------------------------- the same as tables

  /** The association table, the last map table stored for each of its entries, and the services announced. */
  datatype Tables = Tables(pat: map<Program, uint16>, stored: map<PmtKey, Facts>, announced: set<ServiceKey>)

  function TablesAfter(t: Tables, v: Event): Tables {
    match v
    case AddProgram(p, pid) => t.(pat := t.pat[p := pid])
    case Announce(k) => t.(announced := t.announced + {k})
    case AddPmt(pid, sid, facts) =>
      t.(stored := t.stored + map p | p in t.pat && Carries(t.pat, p, pid, sid) :: PmtKey(p, pid) := facts)
    case DropPat => Tables(map[], map[], t.announced)
    case DropPmt(pid, sid) =>
      t.(stored := map s | s in t.stored && !(s.pid == pid && Carries(t.pat, s.program, pid, sid)) :: t.stored[s])
  }

  function TablesOf(events: seq<Event>): Tables {
    if events == [] then Tables(map[], map[], {})
    else TablesAfter(TablesOf(events[..|events| - 1]), events[|events| - 1])
  }

  predicate Stored(pat: map<Program, uint16>, stored: map<PmtKey, Facts>, p: Program) {
    p in pat && PmtKey(p, pat[p]) in stored
  }

  /** The join: what is stored for a program under the PID it has now. */
  function Join(pat: map<Program, uint16>, stored: map<PmtKey, Facts>, p: Program): Facts {
    if Stored(pat, stored, p) then stored[PmtKey(p, pat[p])] else NOTHING
  }

  /** The services whose PID is filled in: named before their program's last entry, or given facts since. */
  function LinkedAfter(linked: set<ServiceKey>, t: Tables, v: Event): set<ServiceKey> {
    match v
    case AddProgram(p, _) =>
      (set k | k in linked && k.Of() != p) + (set k | k in t.announced && k.Of() == p)
    case Announce(k) => if Stored(t.pat, t.stored, k.Of()) then linked + {k} else linked
    case AddPmt(pid, sid, _) => linked + set k | k in t.announced && Carries(t.pat, k.Of(), pid, sid)
    case DropPat => {}
    case DropPmt(_, _) => linked
  }

  function Linked(events: seq<Event>): set<ServiceKey> {
    if events == [] then {}
    else
      var before := events[..|events| - 1];
      LinkedAfter(Linked(before), TablesOf(before), events[|events| - 1])
  }

  // ---------------------------------------------------------------- what every step keeps

  /** A service that is the only one of its program shows the join. */
  ghost predicate Shows(pat: map<Program, uint16>, stored: map<PmtKey, Facts>, linked: set<ServiceKey>,
                        k: ServiceKey, s: Service)
  {
    && s.facts == Join(pat, stored, k.Of())
    && (k in linked ==> k.Of() in pat)
    && s.pmtPid == (if k in linked then Some(pat[k.Of()]) else None)
    && (Stored(pat, stored, k.Of()) ==> k in linked)
  }

  ghost predicate UnresolvedOk(stored: map<PmtKey, Facts>, unresolved: map<PmtKey, Pending>) {
    && unresolved.Keys == stored.Keys
    && forall s :: s in stored ==> unresolved[s] == Pending(s.pid, stored[s])
  }

  ghost predicate PendingOk(keys: set<ServiceKey>, unresolved: map<PmtKey, Pending>, pending: map<FullKey, Pending>) {
    forall f :: f in pending ==>
      && f.service in keys
      && (Sole(keys, f.service) ==> f.Short() in unresolved && pending[f] == unresolved[f.Short()])
  }

  ghost predicate Inv(e: Engine, t: Tables, linked: set<ServiceKey>) {
    && e.pat == t.pat && e.services.Keys == t.announced && linked <= t.announced
    && UnresolvedOk(t.stored, e.unresolved)
    && PendingOk(e.services.Keys, e.unresolved, e.pending)
    && forall k :: k in e.services && Sole(e.services.Keys, k) ==> Shows(t.pat, t.stored, linked, k, e.services[k])
  }

  /** All parts of the invariant but the service that is about to be attached. */
  ghost predicate AllBut(e: Engine, t: Tables, linked: set<ServiceKey>, k: ServiceKey) {
    && e.pat == t.pat && e.services.Keys == t.announced && k in e.services && linked <= t.announced
    && UnresolvedOk(t.stored, e.unresolved)
    && PendingOk(e.services.Keys, e.unresolved, e.pending)
    && forall j :: j in e.services && j != k && Sole(e.services.Keys, j) ==>
         Shows(t.pat, t.stored, linked, j, e.services[j])
  }

  lemma ResolvedIff(keys: set<ServiceKey>, k: ServiceKey)
    ensures Resolved(keys, k.Of()) == Some(k) <==> Sole(keys, k)
  {
  }

  /** Attaching brings the service in line. */
  lemma AttachInv(e: Engine, t: Tables, linked: set<ServiceKey>, k: ServiceKey, s: Service)
    requires AllBut(e, t, linked, k) && e.services[k] == s
    requires Stored(t.pat, t.stored, k.Of()) ==> k in linked
    requires Sole(e.services.Keys, k) && !Stored(t.pat, t.stored, k.Of()) ==>
               Shows(t.pat, t.stored, linked, k, s)
    ensures Inv(Attach(e, k), t, linked)
  {
    ResolvedIff(e.services.Keys, k);
    if k.Of() in e.pat && Sole(e.services.Keys, k) {
      var full := FullKey(k, e.pat[k.Of()]);
      if full.Short() in e.unresolved {
        AttachStored(e, t, linked, k, full);
      } else {
        assert full !in e.pending;
      }
    }
  }

  lemma AttachStored(e: Engine, t: Tables, linked: set<ServiceKey>, k: ServiceKey, full: FullKey)
    requires AllBut(e, t, linked, k) && Sole(e.services.Keys, k)
    requires k.Of() in e.pat && full == FullKey(k, e.pat[k.Of()]) && full.Short() in e.unresolved && k in linked
    ensures Inv(Attach(e, k), t, linked)
  {
    ResolvedIff(e.services.Keys, k);
    var a := Attach(e, k);
    assert a.pending == e.pending[full := e.unresolved[full.Short()]];
    assert a.services == e.services[k := Service(Some(full.pid), t.stored[full.Short()])];
    assert a.services.Keys == e.services.Keys;
  }

  lemma ProgramInv(e: Engine, t: Tables, linked: set<ServiceKey>, p: Program, pid: uint16)
    requires Inv(e, t, linked)
    ensures Inv(AfterProgram(e, p, pid), TablesAfter(t, AddProgram(p, pid)), LinkedAfter(linked, t, AddProgram(p, pid)))
  {
    hide Attach;
    var v := AddProgram(p, pid);
    var u, more := TablesAfter(t, v), LinkedAfter(linked, t, v);
    forall j | j in e.services && Sole(e.services.Keys, j) && j.Of() != p
      ensures Shows(u.pat, u.stored, more, j, e.services[j])
    {
      assert Shows(t.pat, t.stored, linked, j, e.services[j]);
    }
    var r := Resolved(e.services.Keys, p);
    if r.Some? {
      var k, s := r.value, Service(Some(pid), NOTHING);
      var named := e.(pat := e.pat[p := pid], services := e.services[k := s]);
      assert named.services.Keys == e.services.Keys;
      AttachInv(named, u, more, k, s);
    }
  }

  lemma AnnounceInv(e: Engine, t: Tables, linked: set<ServiceKey>, k: ServiceKey)
    requires Inv(e, t, linked)
    ensures Inv(AfterAnnounce(e, k), TablesAfter(t, Announce(k)), LinkedAfter(linked, t, Announce(k)))
  {
    hide Attach;
    var u, more := TablesAfter(t, Announce(k)), LinkedAfter(linked, t, Announce(k));
    var fresh_ := k !in e.services;
    var named := if fresh_ then e.(services := e.services[k := Service(None, NOTHING)]) else e;
    assert named.services.Keys == e.services.Keys + {k} == u.announced;
    forall j | j in named.services && j != k && Sole(named.services.Keys, j)
      ensures Shows(u.pat, u.stored, more, j, named.services[j])
    {
      SoleBefore(e.services.Keys, k, j);
      assert Shows(t.pat, t.stored, linked, j, e.services[j]);
    }
    PendingGrows(e.services.Keys, k, e.unresolved, e.pending);
    if !fresh_ {
      assert named.services.Keys == e.services.Keys;
    }
    AttachInv(named, u, more, k, named.services[k]);
  }

  lemma SoleBefore(keys: set<ServiceKey>, k: ServiceKey, j: ServiceKey)
    requires Sole(keys + {k}, j) && j != k
    ensures Sole(keys, j)
  {
    forall i | i in keys && i.Of() == j.Of() ensures i == j {
      assert i in keys + {k};
    }
  }

  lemma PendingGrows(keys: set<ServiceKey>, k: ServiceKey, unresolved: map<PmtKey, Pending>, pending: map<FullKey, Pending>)
    requires PendingOk(keys, unresolved, pending)
    ensures PendingOk(keys + {k}, unresolved, pending)
  {
    forall f | f in pending && Sole(keys + {k}, f.service)
      ensures f.Short() in unresolved && pending[f] == unresolved[f.Short()]
    {
      if f.service == k {
        assert keys + {k} == keys;
      } else {
        SoleBefore(keys, k, f.service);
      }
    }
  }

  lemma PmtInv(e: Engine, t: Tables, linked: set<ServiceKey>, pid: uint16, sid: uint16, facts: Facts)
    requires Inv(e, t, linked)
    ensures Inv(AfterPmt(e, pid, sid, facts), TablesAfter(t, AddPmt(pid, sid, facts)),
                LinkedAfter(linked, t, AddPmt(pid, sid, facts)))
  {
    var v := AddPmt(pid, sid, facts);
    var a, u, more := AfterPmt(e, pid, sid, facts), TablesAfter(t, v), LinkedAfter(linked, t, v);
    assert a.services.Keys == e.services.Keys;
    PmtStored(e, t, pid, sid, facts);
    forall k | k in a.services && Sole(a.services.Keys, k) ensures Shows(u.pat, u.stored, more, k, a.services[k]) {
      assert Shows(t.pat, t.stored, linked, k, e.services[k]);
      PmtShows(e, t, linked, pid, sid, facts, k);
    }
    forall f | f in a.pending
      ensures f.service in a.services
      ensures Sole(a.services.Keys, f.service) ==> f.Short() in a.unresolved && a.pending[f] == a.unresolved[f.Short()]
    {
      PmtPending(e, pid, sid, facts, f);
    }
  }

  lemma PmtStored(e: Engine, t: Tables, pid: uint16, sid: uint16, facts: Facts)
    requires e.pat == t.pat && UnresolvedOk(t.stored, e.unresolved)
    ensures UnresolvedOk(TablesAfter(t, AddPmt(pid, sid, facts)).stored, AfterPmt(e, pid, sid, facts).unresolved)
  {
  }

  lemma PmtShows(e: Engine, t: Tables, linked: set<ServiceKey>, pid: uint16, sid: uint16, facts: Facts, k: ServiceKey)
    requires e.pat == t.pat && e.services.Keys == t.announced && k in e.services && Sole(e.services.Keys, k)
    requires Shows(t.pat, t.stored, linked, k, e.services[k])
    ensures var v := AddPmt(pid, sid, facts);
            Shows(t.pat, TablesAfter(t, v).stored, LinkedAfter(linked, t, v), k, AfterPmt(e, pid, sid, facts).services[k])
  {
    var u := TablesAfter(t, AddPmt(pid, sid, facts));
    var p := k.Of();
    if Carries(t.pat, p, pid, sid) {
      assert PmtKey(p, pid) in u.stored && u.stored[PmtKey(p, pid)] == facts;
    } else if p in t.pat {
      var s := PmtKey(p, t.pat[p]);
      assert s in u.stored <==> s in t.stored;
      assert s in t.stored ==> u.stored[s] == t.stored[s];
    }
  }

  lemma PmtPending(e: Engine, pid: uint16, sid: uint16, facts: Facts, f: FullKey)
    requires PendingOk(e.services.Keys, e.unresolved, e.pending) && f in AfterPmt(e, pid, sid, facts).pending
    ensures f.service in e.services
    ensures var a := AfterPmt(e, pid, sid, facts);
            Sole(e.services.Keys, f.service) ==> f.Short() in a.unresolved && a.pending[f] == a.unresolved[f.Short()]
  {
    var a := AfterPmt(e, pid, sid, facts);
    var k, p := f.service, f.service.Of();
    var hit := k in e.services && Carries(e.pat, p, pid, sid) && Sole(e.services.Keys, k);
    if f.pid == pid && hit {
      assert f == FullKey(k, pid) && a.pending[f] == Pending(pid, facts);
      assert a.unresolved[PmtKey(p, pid)] == Pending(pid, facts);
    } else {
      assert f in e.pending && a.pending[f] == e.pending[f];
      if Sole(e.services.Keys, k) {
        assert a.unresolved[f.Short()] == e.unresolved[f.Short()];
      }
    }
  }

  lemma DropPmtInv(e: Engine, t: Tables, linked: set<ServiceKey>, pid: uint16, sid: uint16)
    requires Inv(e, t, linked)
    ensures Inv(AfterDropPmt(e, pid, sid), TablesAfter(t, DropPmt(pid, sid)), LinkedAfter(linked, t, DropPmt(pid, sid)))
  {
    var a, u := AfterDropPmt(e, pid, sid), TablesAfter(t, DropPmt(pid, sid));
    assert a.services.Keys == e.services.Keys;
    forall k | k in a.services && Sole(a.services.Keys, k) ensures Shows(u.pat, u.stored, linked, k, a.services[k]) {
      DropPmtShows(e, t, linked, pid, sid, k);
    }
    DropPmtUnresolved(e, t, pid, sid);
    DropPmtPending(e, pid, sid);
    hide Shows, Sole, UnresolvedOk, PendingOk, Carries;
  }

  lemma DropPmtUnresolved(e: Engine, t: Tables, pid: uint16, sid: uint16)
    requires e.pat == t.pat && UnresolvedOk(t.stored, e.unresolved)
    ensures UnresolvedOk(TablesAfter(t, DropPmt(pid, sid)).stored, AfterDropPmt(e, pid, sid).unresolved)
  {
  }

  lemma DropPmtPending(e: Engine, pid: uint16, sid: uint16)
    requires PendingOk(e.services.Keys, e.unresolved, e.pending)
    ensures var a := AfterDropPmt(e, pid, sid); PendingOk(e.services.Keys, a.unresolved, a.pending)
  {
    hide Sole;
  }

  lemma DropPmtShows(e: Engine, t: Tables, linked: set<ServiceKey>, pid: uint16, sid: uint16, k: ServiceKey)
    requires e.pat == t.pat && k in e.services && Shows(t.pat, t.stored, linked, k, e.services[k])
    ensures var u := TablesAfter(t, DropPmt(pid, sid));
            Shows(u.pat, u.stored, linked, k, AfterDropPmt(e, pid, sid).services[k])
  {
    var u := TablesAfter(t, DropPmt(pid, sid));
    if k.Of() in t.pat {
      var s := PmtKey(k.Of(), t.pat[k.Of()]);
      assert s in u.stored <==> s in t.stored && !Carries(t.pat, k.Of(), pid, sid);
    }
  }

  lemma DropPatInv(e: Engine, t: Tables, linked: set<ServiceKey>)
    requires Inv(e, t, linked)
    ensures Inv(AfterDropPat(e), TablesAfter(t, DropPat), {})
  {
    var a := AfterDropPat(e);
    assert a.services.Keys == e.services.Keys;
  }

  lemma {:induction false} RunInv(events: seq<Event>)
    ensures Inv(Run(events), TablesOf(events), Linked(events))
    decreases |events|
  {
    hide Inv, After, TablesAfter, LinkedAfter;
    if events == [] {
      StartInv();
    } else {
      var before, v := events[..|events| - 1], events[|events| - 1];
      RunInv(before);
      StepInv(Run(before), TablesOf(before), Linked(before), v);
    }
  }

  lemma StartInv()
    ensures Inv(Start(), Tables(map[], map[], {}), {})
  {
  }

  lemma StepInv(e: Engine, t: Tables, linked: set<ServiceKey>, v: Event)
    requires Inv(e, t, linked)
    ensures Inv(After(e, v), TablesAfter(t, v), LinkedAfter(linked, t, v))
  {
    hide Inv, TablesAfter, AfterProgram, AfterAnnounce, AfterPmt, AfterDropPat, AfterDropPmt;
    match v
    case AddProgram(p, pid) => ProgramInv(e, t, linked, p, pid);
    case Announce(k) => AnnounceInv(e, t, linked, k);
    case AddPmt(pid, sid, facts) => PmtInv(e, t, linked, pid, sid, facts);
    case DropPat => DropPatInv(e, t, linked);
    case DropPmt(pid, sid) => DropPmtInv(e, t, linked, pid, sid);
  }

  // ---------------------------------------------------------------- results

  /** Whatever arrives in whatever order, the only service of a program shows the join of the tables. */
  lemma IncrementalIsBatch(events: seq<Event>, k: ServiceKey)
    requires Sole(TablesOf(events).announced, k)
    ensures var e, t := Run(events), TablesOf(events);
            && k in e.services
            && e.services[k].facts == Join(t.pat, t.stored, k.Of())
            && e.services[k].pmtPid == (if k in Linked(events) && k.Of() in t.pat then Some(t.pat[k.Of()]) else None)
  {
    RunInv(events);
    hide Run, TablesOf, Linked;
  }

  /** The events that are not about names. */
  function Unnamed(events: seq<Event>): seq<Event> {
    if events == [] then []
    else
      var before, v := Unnamed(events[..|events| - 1]), events[|events| - 1];
      if v.Announce? then before else before + [v]
  }

  predicate SameContents(t: Tables, u: Tables) {
    t.pat == u.pat && t.stored == u.stored
  }

  lemma ContentsStep(t: Tables, u: Tables, v: Event)
    requires SameContents(t, u)
    ensures SameContents(TablesAfter(t, v), TablesAfter(u, v))
    ensures v.Announce? ==> SameContents(t, TablesAfter(u, v))
  {
  }

  lemma {:induction false} NamesDoNotMatter(events: seq<Event>)
    ensures SameContents(TablesOf(Unnamed(events)), TablesOf(events))
    decreases |events|
  {
    hide TablesAfter;
    if events != [] {
      var before, v := events[..|events| - 1], events[|events| - 1];
      NamesDoNotMatter(before);
      RunLast(Unnamed(before), v);
      ContentsStep(TablesOf(Unnamed(before)), TablesOf(before), v);
    }
  }

  /** A service may be named before, between or after its tables: it ends up with the same facts. */
  lemma NamesMayComeAtAnyTime(events: seq<Event>, other: seq<Event>, k: ServiceKey)
    requires Unnamed(events) == Unnamed(other)
    requires Sole(TablesOf(events).announced, k) && Sole(TablesOf(other).announced, k)
    ensures k in Run(events).services && k in Run(other).services
    ensures Run(events).services[k].facts == Run(other).services[k].facts
  {
    IncrementalIsBatch(events, k);
    IncrementalIsBatch(other, k);
    NamesDoNotMatter(events);
    NamesDoNotMatter(other);
    hide Run, TablesOf, Unnamed;
  }

  /** The PID alone does depend on the order: a service named after its program's entry has none until facts come. */
  lemma PidDependsOnOrder(k: ServiceKey, pid: uint16)
    ensures Run([Announce(k), AddProgram(k.Of(), pid)]).services == map[k := Service(Some(pid), NOTHING)]
    ensures Run([AddProgram(k.Of(), pid), Announce(k)]).services == map[k := Service(None, NOTHING)]
  {
    NamedFirst(k, pid);
    NamedAfterwards(k, pid);
  }

  lemma NamedFirst(k: ServiceKey, pid: uint16)
    ensures Run([Announce(k), AddProgram(k.Of(), pid)]).services == map[k := Service(Some(pid), NOTHING)]
  {
    assert [] + [Announce(k)] == [Announce(k)];
    assert [Announce(k)] + [AddProgram(k.Of(), pid)] == [Announce(k), AddProgram(k.Of(), pid)];
    RunLast([], Announce(k));
    RunLast([Announce(k)], AddProgram(k.Of(), pid));
    assert Run([]) == Start();
    hide Run;
    assert Run([Announce(k)]) == Start().(services := map[k := Service(None, NOTHING)]);
    ResolvedIff({k}, k);
  }

  lemma NamedAfterwards(k: ServiceKey, pid: uint16)
    ensures Run([AddProgram(k.Of(), pid), Announce(k)]).services == map[k := Service(None, NOTHING)]
  {
    assert [] + [AddProgram(k.Of(), pid)] == [AddProgram(k.Of(), pid)];
    assert [AddProgram(k.Of(), pid)] + [Announce(k)] == [AddProgram(k.Of(), pid), Announce(k)];
    RunLast([], AddProgram(k.Of(), pid));
    RunLast([AddProgram(k.Of(), pid)], Announce(k));
    assert Run([]) == Start();
    hide Run;
    assert Run([AddProgram(k.Of(), pid)]) == Start().(pat := map[k.Of() := pid]);
  }

  /** While a program has two services, neither is given anything: what they show can only be withdrawn. */
  lemma AmbiguousIsFrozen(e: Engine, v: Event, k: ServiceKey)
    requires k in e.services && !Sole(e.services.Keys, k)
    ensures k in After(e, v).services && !Sole(After(e, v).services.Keys, k)
    ensures After(e, v).services[k].facts == e.services[k].facts || After(e, v).services[k].facts == NOTHING
    ensures !v.DropPat? && !v.DropPmt? ==> After(e, v).services[k] == e.services[k]
  {
    var j :| j in e.services && j.Of() == k.Of() && j != k;
    assert !Sole(e.services.Keys, j);
    var a := After(e, v);
    assert j in a.services && k in a.services;
  }

  lemma RunLast(events: seq<Event>, v: Event)
    ensures Run(events + [v]) == After(Run(events), v)
    ensures TablesOf(events + [v]) == TablesAfter(TablesOf(events), v)
  {
    assert (events + [v])[..|events|] == events;
  }

  /** So with two services the join can fail: the second map table is not shown. */
  lemma AmbiguityKeepsOldFacts(k: ServiceKey, other: ServiceKey, pid: uint16, first: Facts, second: Facts)
    requires k.Of() == other.Of() && k != other && first != second
    ensures var events := [Announce(k), AddProgram(k.Of(), pid), AddPmt(pid, k.sid, first)]
                          + [Announce(other)] + [AddPmt(pid, k.sid, second)];
            var t := TablesOf(events);
            k in Run(events).services && Run(events).services[k].facts != Join(t.pat, t.stored, k.Of())
  {
    var three, v := [Announce(k), AddProgram(k.Of(), pid), AddPmt(pid, k.sid, first)], AddPmt(pid, k.sid, second);
    hide Run, TablesOf, AfterAnnounce, AfterPmt, Inv;
    RunLast(three, Announce(other));
    RunLast(three + [Announce(other)], v);
    ThreeEvents(k, pid, first);
    IncrementalIsBatch(three, k);
    ServicesAreAnnounced(three);
    NewRival(Run(three), k, other);
    AmbiguousIsFrozen(AfterAnnounce(Run(three), other), v, k);
    assert Carries(map[k.Of() := pid], k.Of(), pid, k.sid);
  }

  lemma ServicesAreAnnounced(events: seq<Event>)
    ensures Run(events).services.Keys == TablesOf(events).announced
  {
    RunInv(events);
  }

  lemma ThreeEvents(k: ServiceKey, pid: uint16, facts: Facts)
    ensures var t := TablesOf([Announce(k), AddProgram(k.Of(), pid), AddPmt(pid, k.sid, facts)]);
            t == Tables(map[k.Of() := pid], map[PmtKey(k.Of(), pid) := facts], {k})
  {
    var x := [Announce(k), AddProgram(k.Of(), pid), AddPmt(pid, k.sid, facts)];
    assert x[..2] == [Announce(k), AddProgram(k.Of(), pid)] && x[..2][..1] == [Announce(k)] && x[..2][..1][..0] == [];
    assert TablesOf(x[..2][..1]) == Tables(map[], map[], {k});
    assert TablesOf(x[..2]) == Tables(map[k.Of() := pid], map[], {k});
    assert Carries(map[k.Of() := pid], k.Of(), pid, k.sid);
  }

  lemma NewRival(e: Engine, k: ServiceKey, other: ServiceKey)
    requires e.services.Keys == {k} && k.Of() == other.Of() && k != other
    ensures var a := AfterAnnounce(e, other);
            a.services.Keys == {k, other} && a.services[k] == e.services[k] && !Sole(a.services.Keys, k)
  {
    var named := e.(services := e.services[other := Service(None, NOTHING)]);
    assert named.services.Keys == {k, other};
    assert !Sole(named.services.Keys, other) && !Sole(named.services.Keys, k) by {
      assert k in named.services.Keys && other in named.services.Keys;
    }
    ResolvedIff(named.services.Keys, other);
  }
}
