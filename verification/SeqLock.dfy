/**
 The sequence lock, one atomic load or store at a time.

 `Apply` is one step of the writer or of any reader, so a run is an arbitrary interleaving of
 one writer (the registry's mutex serialises stores) with any number of bounded-retry readers.
*/
module SeqLock {
  import opened Basics
  import opened KeyCells

  const ATTEMPTS: nat := 4

  /** The words a reader has loaded so far. */
  type Loaded = s: seq<uint32> | |s| <= 4

  /** The answer of a snapshot: keys when the original answers `Ok`, otherwise its result code. */
  datatype Snapshot = Taken(secret: Secret) | Refused(code: Result)

  /** What the writer is about to do. */
  datatype Writer =
    | Resting
    | LoadSequence(value: Option<Secret>)
    | MarkOdd(value: Option<Secret>, before: int)
    | SetValid(value: Option<Secret>, before: int)
    | SetWord(value: Option<Secret>, before: int, i: nat)
    | MarkEven(value: Option<Secret>, before: int)
    | Exhaust
    | ClearValid
    | ClearWord(i: nat)

  /** What a reader is about to do; `Done` holds the answer of its last call. */
  datatype Reader =
    | Begin(attempt: nat)
    | LoadReady(attempt: nat, before: int)
    | LoadWords(attempt: nat, before: int, ready: uint32, words: Loaded)
    | Done(result: Snapshot)

  type ReaderId = nat

  /** `history` lists what each store has published so far, starting with the empty cell. */
  datatype System = System(cell: KeyCell, writer: Writer, readers: map<ReaderId, Reader>,
                           history: seq<Option<Secret>>)

  datatype Action =
    | StartStore(value: Option<Secret>)
    | WriterStep
    | StartSnapshot(r: ReaderId)
    | ReaderStep(r: ReaderId)

  const INITIAL: System := System(FRESH, Resting, map[], [None])

  predicate Enabled(s: System, a: Action) {
    match a
    case StartStore(_) => s.writer.Resting?
    case WriterStep => !s.writer.Resting?
    case StartSnapshot(r) => r !in s.readers || s.readers[r].Done?
    case ReaderStep(r) => r in s.readers && !s.readers[r].Done?
  }

  function Apply(s: System, a: Action): System
    requires Enabled(s, a)
  {
    match a
    case StartStore(value) => s.(writer := LoadSequence(value))
    case WriterStep => ApplyWriter(s)
    case StartSnapshot(r) => s.(readers := s.readers[r := Begin(0)])
    case ReaderStep(r) => s.(readers := s.readers[r := ReaderNext(s.cell, s.readers[r])])
  }

  function ApplyWriter(s: System): System
    requires !s.writer.Resting?
  {
    var c := s.cell;
    match s.writer
    case LoadSequence(value) =>
      if c.sequence >= SEQUENCE_MAX - 1 then s.(writer := Exhaust)
      else s.(writer := MarkOdd(value, c.sequence))
    case MarkOdd(value, before) =>
      s.(cell := c.(sequence := before + 1), writer := SetValid(value, before))
    case SetValid(value, before) =>
      s.(cell := c.(valid := if value.Some? then 1 else 0), writer := SetWord(value, before, 0))
    case SetWord(value, before, i) =>
      if i < 4 then
        s.(cell := c.(keys := c.keys[i := WordsOf(value)[i]]), writer := SetWord(value, before, i + 1))
      else s.(writer := MarkEven(value, before))
    case MarkEven(value, before) =>
      s.(cell := c.(sequence := before + 2), writer := Resting, history := s.history + [value])
    case Exhaust =>
      s.(cell := c.(sequence := SEQUENCE_MAX), writer := ClearValid, history := s.history + [None])
    case ClearValid => s.(cell := c.(valid := 0), writer := ClearWord(0))
    case ClearWord(i) =>
      if i < 4 then s.(cell := c.(keys := c.keys[i := 0]), writer := ClearWord(i + 1))
      else s.(writer := Resting)
    case Resting => s
  }

  /** The next attempt, or the answer after the last one. */
  function Retry(attempt: nat): Reader {
    if attempt + 1 < ATTEMPTS then Begin(attempt + 1) else Done(Refused(Busy))
  }

  function ReaderNext(c: KeyCell, rd: Reader): Reader
    requires !rd.Done?
  {
    match rd
    case Begin(attempt) =>
      if c.sequence == SEQUENCE_MAX then Done(Refused(SessionClosed))
      else if c.sequence % 2 == 1 then Retry(attempt)
      else LoadReady(attempt, c.sequence)
    case LoadReady(attempt, before) => LoadWords(attempt, before, c.valid, [])
    case LoadWords(attempt, before, ready, words) =>
      if |words| < 4 then LoadWords(attempt, before, ready, words + [c.keys[|words|]])
      else if c.sequence != before then Retry(attempt)
      else if ready == 0 then Done(Refused(NoLicense))
      else Done(Taken(words))
  }

  /** `trace` lists the states a run of `acts` goes through. */
  ghost predicate IsRun(trace: seq<System>, acts: seq<Action>) {
    && |trace| == |acts| + 1
    && trace[0] == INITIAL
    && forall j :: 0 <= j < |acts| ==> Enabled(trace[j], acts[j]) && trace[j + 1] == Apply(trace[j], acts[j])
  }

  // ---------------------------------------------------------------- invariant

  ghost predicate WriterOk(c: KeyCell, w: Writer, latest: Option<Secret>) {
    match w
    case Resting | LoadSequence(_) => Settled(c) && Contents(c) == latest
    case MarkOdd(_, before) => Quiescent(c) && c.sequence == before < SEQUENCE_MAX - 1 && Contents(c) == latest
    case SetValid(_, before) => Writing(c, before)
    case SetWord(value, before, i) =>
      && Writing(c, before) && i <= 4
      && c.valid == (if value.Some? then 1 else 0)
      && (forall k :: 0 <= k < i ==> c.keys[k] == WordsOf(value)[k])
    case MarkEven(value, before) =>
      && Writing(c, before)
      && c.valid == (if value.Some? then 1 else 0)
      && c.keys == WordsOf(value)
    case Exhaust => Settled(c) && c.sequence >= SEQUENCE_MAX - 1 && Contents(c) == latest
    case ClearValid => Exhausted(c) && latest == None
    case ClearWord(i) => Exhausted(c) && c.valid == 0 && latest == None && i <= 4
  }

  predicate Writing(c: KeyCell, before: int) {
    0 <= before < SEQUENCE_MAX - 1 && before % 2 == 0 && c.sequence == before + 1
  }

  /** While the sequence still equals the one first loaded, everything loaded since is current. */
  ghost predicate ReaderOk(c: KeyCell, rd: Reader) {
    match rd
    case Begin(attempt) => attempt < ATTEMPTS
    case LoadReady(attempt, before) => attempt < ATTEMPTS && Observed(c, before)
    case LoadWords(attempt, before, ready, words) =>
      && attempt < ATTEMPTS && Observed(c, before)
      && (c.sequence == before ==> ready == c.valid && words == c.keys[..|words|])
    case Done(_) => true
  }

  predicate Observed(c: KeyCell, before: int) {
    0 <= before < SEQUENCE_MAX && before % 2 == 0 && before <= c.sequence
  }

  ghost predicate Inv(s: System) {
    && 0 <= s.cell.sequence <= SEQUENCE_MAX
    && |s.history| > 0
    && WriterOk(s.cell, s.writer, s.history[|s.history| - 1])
    && forall r :: r in s.readers ==> ReaderOk(s.cell, s.readers[r])
  }

  lemma WriterKeepsInv(s: System)
    requires Inv(s) && !s.writer.Resting?
    ensures Inv(ApplyWriter(s))
    ensures s.cell.sequence <= ApplyWriter(s).cell.sequence
  {
    var t := ApplyWriter(s);
    WriterKeepsWriterOk(s);
    forall r | r in t.readers ensures ReaderOk(t.cell, t.readers[r]) {
      assert ReaderOk(s.cell, s.readers[r]);
    }
  }

  lemma WriterKeepsWriterOk(s: System)
    requires Inv(s) && !s.writer.Resting?
    ensures var t := ApplyWriter(s);
            && |t.history| > 0 && WriterOk(t.cell, t.writer, t.history[|t.history| - 1])
            && s.cell.sequence <= t.cell.sequence <= SEQUENCE_MAX
            && ((t.cell.valid == s.cell.valid && t.cell.keys == s.cell.keys)
                || (s.cell.sequence % 2 == 1 && s.cell.sequence == t.cell.sequence))
  {
    if s.writer.SetWord? && s.writer.i == 4 {
      assert s.cell.keys == WordsOf(s.writer.value);
    }
  }

  lemma StepKeepsInv(s: System, a: Action)
    requires Inv(s) && Enabled(s, a)
    ensures Inv(Apply(s, a))
    ensures s.cell.sequence <= Apply(s, a).cell.sequence
  {
    if a.WriterStep? {
      WriterKeepsInv(s);
    }
  }

  lemma {:induction false} RunKeepsInv(trace: seq<System>, acts: seq<Action>, j: nat)
    requires IsRun(trace, acts) && j < |trace|
    ensures Inv(trace[j])
  {
    if j > 0 {
      RunKeepsInv(trace, acts, j - 1);
      StepKeepsInv(trace[j - 1], acts[j - 1]);
    }
  }

  // ---------------------------------------------------------------- main results

  /** What the cell offers at an instant: the value of the last published store. */
  function Current(s: System): Option<Secret>
    requires |s.history| > 0
  {
    s.history[|s.history| - 1]
  }

  /** `r` is inside one snapshot call from its start at step `i` up to step `j`. */
  ghost predicate InCall(trace: seq<System>, acts: seq<Action>, r: ReaderId, i: nat, j: nat) {
    && i <= j < |acts| < |trace|
    && acts[i] == StartSnapshot(r)
    && forall k :: i < k <= j ==> r in trace[k].readers && !trace[k].readers[r].Done?
  }

  /** An answer is given by the last load of its call, and is what the cell offers at that instant. */
  lemma SnapshotIsLinearizable(trace: seq<System>, acts: seq<Action>, r: ReaderId, i: nat, j: nat)
    requires IsRun(trace, acts) && InCall(trace, acts, r, i, j) && i < j
    requires acts[j] == ReaderStep(r) && trace[j + 1].readers[r].Done?
    ensures |trace[j].history| > 0 && trace[j + 1].history == trace[j].history
    ensures trace[j + 1].readers[r].result.Taken? ==>
              Current(trace[j]) == Some(trace[j + 1].readers[r].result.secret)
    ensures trace[j + 1].readers[r].result == Refused(NoLicense) ==> Current(trace[j]) == None
    ensures trace[j + 1].readers[r].result == Refused(SessionClosed) ==>
              Exhausted(trace[j].cell) && Current(trace[j]) == None
  {
    RunKeepsInv(trace, acts, j);
    var s, rd := trace[j], trace[j].readers[r];
    assert ReaderOk(s.cell, rd);
    if rd.LoadWords? && |rd.words| == 4 {
      assert s.cell.keys == s.cell.keys[..4];
    }
  }

  /** The sequence never wraps or goes back, and the history of published values only grows. */
  lemma {:induction false} SequenceIsMonotone(trace: seq<System>, acts: seq<Action>, i: nat, j: nat)
    requires IsRun(trace, acts) && i <= j < |trace|
    ensures trace[i].cell.sequence <= trace[j].cell.sequence <= SEQUENCE_MAX
    ensures trace[i].history <= trace[j].history
  {
    RunKeepsInv(trace, acts, j);
    if i < j {
      SequenceIsMonotone(trace, acts, i, j - 1);
      RunKeepsInv(trace, acts, j - 1);
      StepKeepsInv(trace[j - 1], acts[j - 1]);
      StepExtendsHistory(trace[j - 1], acts[j - 1]);
    }
  }

  lemma StepExtendsHistory(s: System, a: Action)
    requires Enabled(s, a)
    ensures s.history <= Apply(s, a).history
  {
  }

  /** Every history entry after the first is the argument of a store call, or the exhausted cell's nothing. */
  lemma {:induction false} PublishedWasStored(trace: seq<System>, acts: seq<Action>, j: nat, secret: Secret)
    requires IsRun(trace, acts) && j < |trace|
    requires Some(secret) in trace[j].history || InFlight(trace[j].writer) == Some(secret)
    ensures exists k :: 0 <= k < j && acts[k] == StartStore(Some(secret))
  {
    if j > 0 {
      var s, t, a := trace[j - 1], trace[j], acts[j - 1];
      assert Enabled(s, a) && t == Apply(s, a);
      if a == StartStore(Some(secret)) {
      } else {
        PublishedWasStored(trace, acts, j - 1, secret);
      }
    }
  }

  /** The value a store call in progress has been given. */
  function InFlight(w: Writer): Option<Secret> {
    match w
    case LoadSequence(value) => value
    case MarkOdd(value, _) => value
    case SetValid(value, _) => value
    case SetWord(value, _, _) => value
    case MarkEven(value, _) => value
    case _ => None
  }

  /** The sixteen bytes of an `Ok` answer are those of one store call made earlier in the run. */
  lemma SnapshotReturnsOneStoredValue(trace: seq<System>, acts: seq<Action>, r: ReaderId, i: nat, j: nat)
    requires IsRun(trace, acts) && InCall(trace, acts, r, i, j) && i < j
    requires acts[j] == ReaderStep(r) && trace[j + 1].readers[r].Done?
    requires trace[j + 1].readers[r].result.Taken?
    ensures exists k :: 0 <= k < j && acts[k] == StartStore(Some(trace[j + 1].readers[r].result.secret))
  {
    SnapshotIsLinearizable(trace, acts, r, i, j);
    PublishedWasStored(trace, acts, j, trace[j + 1].readers[r].result.secret);
  }

  /** A whole call of reader `r`, from its start at step `i` to its answer at step `j`. */
  ghost predicate Answers(trace: seq<System>, acts: seq<Action>, r: ReaderId, i: nat, j: nat, result: Snapshot) {
    && InCall(trace, acts, r, i, j) && i < j && j + 1 < |trace| && acts[j] == ReaderStep(r)
    && r in trace[j + 1].readers && trace[j + 1].readers[r] == Done(result)
  }

  /** What an answer says about the cell; a call that gives up says nothing. */
  predicate Tells(result: Snapshot, value: Option<Secret>) {
    match result
    case Taken(secret) => value == Some(secret)
    case Refused(code) => (code == NoLicense || code == SessionClosed) && value == None
  }

  /** An answer tells an entry of the history that was published before the call ended and that no later entry
      had replaced when the call began. */
  lemma AnswerIsAnEntry(trace: seq<System>, acts: seq<Action>, r: ReaderId, i: nat, j: nat, result: Snapshot)
    requires IsRun(trace, acts) && Answers(trace, acts, r, i, j, result) && result != Refused(Busy)
    ensures var m := |trace[j].history| - 1;
            0 <= |trace[i].history| - 1 <= m && Tells(result, trace[j].history[m])
  {
    SnapshotIsLinearizable(trace, acts, r, i, j);
    SequenceIsMonotone(trace, acts, i, j);
    RunKeepsInv(trace, acts, i);
    RunKeepsInv(trace, acts, j);
    assert ReaderOk(trace[j].cell, trace[j].readers[r]);
  }

  /** Answers respect real time: of two calls, one after the other, the second tells the same entry of the
      history of published values as the first, or a later one. */
  lemma SnapshotsDoNotGoBack(trace: seq<System>, acts: seq<Action>, r: ReaderId, i: nat, j: nat, first: Snapshot,
                             r': ReaderId, i': nat, j': nat, second: Snapshot)
    requires IsRun(trace, acts) && Answers(trace, acts, r, i, j, first) && Answers(trace, acts, r', i', j', second)
    requires j < i' && first != Refused(Busy) && second != Refused(Busy)
    ensures exists m, m' :: 0 <= m <= m' < |trace[j'].history|
                            && Tells(first, trace[j'].history[m]) && Tells(second, trace[j'].history[m'])
    ensures first == Refused(SessionClosed) ==> second == Refused(SessionClosed)
  {
    AnswerIsAnEntry(trace, acts, r, i, j, first);
    AnswerIsAnEntry(trace, acts, r', i', j', second);
    SequenceIsMonotone(trace, acts, j, j');
    var m, m' := |trace[j].history| - 1, |trace[j'].history| - 1;
    assert trace[j'].history[m] == trace[j].history[m];
    if first == Refused(SessionClosed) {
      SnapshotIsLinearizable(trace, acts, r, i, j);
      ClosedForGood(trace, acts, r', i', j', second, j);
    }
  }

  /** A call that begins on an exhausted cell can only answer that the session is closed. */
  lemma ClosedForGood(trace: seq<System>, acts: seq<Action>, r: ReaderId, i: nat, j: nat, result: Snapshot, from: nat)
    requires IsRun(trace, acts) && Answers(trace, acts, r, i, j, result)
    requires from <= i && Exhausted(trace[from].cell)
    ensures result == Refused(SessionClosed)
  {
    AtBegin(trace, acts, r, i, j, from);
    SequenceIsMonotone(trace, acts, from, j);
    RunKeepsInv(trace, acts, j);
  }

  lemma StaysAtBegin(s: System, a: Action, r: ReaderId)
    requires Enabled(s, a) && Exhausted(s.cell) && r in s.readers && s.readers[r] == Begin(0)
    requires r in Apply(s, a).readers && !Apply(s, a).readers[r].Done?
    ensures Apply(s, a).readers[r] == Begin(0)
  {
  }

  lemma {:induction false} AtBegin(trace: seq<System>, acts: seq<Action>, r: ReaderId, i: nat, k: nat, from: nat)
    requires IsRun(trace, acts) && InCall(trace, acts, r, i, k) && i < k && from <= i && Exhausted(trace[from].cell)
    ensures trace[k].readers[r] == Begin(0)
    decreases k
  {
    hide Inv;
    assert Enabled(trace[k - 1], acts[k - 1]) && trace[k] == Apply(trace[k - 1], acts[k - 1]);
    if k > i + 1 {
      AtBegin(trace, acts, r, i, k - 1, from);
      SequenceIsMonotone(trace, acts, from, k - 1);
      hide IsRun, Apply, Enabled;
      StaysAtBegin(trace[k - 1], acts[k - 1], r);
    }
  }

  /** No snapshot that ends while nothing is published can answer `Ok`. */
  lemma RevokedCellIsUnreadable(trace: seq<System>, acts: seq<Action>, r: ReaderId, i: nat, j: nat)
    requires IsRun(trace, acts) && InCall(trace, acts, r, i, j) && i < j
    requires acts[j] == ReaderStep(r) && trace[j + 1].readers[r].Done?
    requires forall k :: i <= k <= j ==> |trace[k].history| > 0 && Current(trace[k]) == None
    ensures !trace[j + 1].readers[r].result.Taken?
  {
    SnapshotIsLinearizable(trace, acts, r, i, j);
  }

  /** With nothing published, no store in progress and none of a secret to come, nothing is ever published. */
  lemma {:induction false} NothingAppears(trace: seq<System>, acts: seq<Action>, i: nat, j: nat)
    requires IsRun(trace, acts) && i <= j < |trace| && trace[i].writer.Resting?
    requires |trace[i].history| > 0 && Current(trace[i]) == None
    requires forall k :: i <= k < j ==> !(acts[k].StartStore? && acts[k].value.Some?)
    ensures |trace[j].history| > 0 && Current(trace[j]) == None && InFlight(trace[j].writer) == None
    decreases j
  {
    if i < j {
      NothingAppears(trace, acts, i, j - 1);
      assert Enabled(trace[j - 1], acts[j - 1]) && trace[j] == Apply(trace[j - 1], acts[j - 1]);
    }
  }

  /** From then on no call that begins is answered with keys. */
  lemma NoKeysAfterClearing(trace: seq<System>, acts: seq<Action>, from: nat, r: ReaderId, i: nat, j: nat, result: Snapshot)
    requires IsRun(trace, acts) && Answers(trace, acts, r, i, j, result) && from <= i
    requires trace[from].writer.Resting? && |trace[from].history| > 0 && Current(trace[from]) == None
    requires forall k :: from <= k < j ==> !(acts[k].StartStore? && acts[k].value.Some?)
    ensures !result.Taken?
  {
    NothingAppears(trace, acts, from, j);
    SnapshotIsLinearizable(trace, acts, r, i, j);
  }

  /** Every call ends: at most four attempts of seven loads each. */
  function StepsLeft(rd: Reader): nat {
    match rd
    case Begin(attempt) => if attempt < ATTEMPTS then 7 * (ATTEMPTS - attempt) else 0
    case LoadReady(attempt, _) => if attempt < ATTEMPTS then 7 * (ATTEMPTS - attempt) - 1 else 0
    case LoadWords(attempt, _, _, words) =>
      if attempt < ATTEMPTS then 7 * (ATTEMPTS - attempt) - 2 - |words| else 0
    case Done(_) => 0
  }

  lemma SnapshotEnds(s: System, r: ReaderId)
    requires Inv(s) && Enabled(s, ReaderStep(r))
    ensures StepsLeft(Apply(s, ReaderStep(r)).readers[r]) < StepsLeft(s.readers[r]) <= 28
  {
    assert ReaderOk(s.cell, s.readers[r]);
  }

  // ---------------------------------------------------------------- the uncontended cell

  /** `n` writer steps in a row. */
  function WriterSteps(s: System, n: nat): System
    decreases n
  {
    if n == 0 || s.writer.Resting? then s else WriterSteps(ApplyWriter(s), n - 1)
  }

  /** Run to its end, the step-by-step store is `AfterStore`. */
  lemma StoreStepsRefineAfterStore(s: System, value: Option<Secret>)
    requires Inv(s) && s.writer.Resting?
    ensures var t := WriterSteps(Apply(s, StartStore(value)), 9);
            t.writer.Resting? && t.cell == AfterStore(s.cell, value)
  {
    var s0 := Apply(s, StartStore(value));
    var s1 := ApplyWriter(s0);
    var s2 := ApplyWriter(s1);
    var s3 := ApplyWriter(s2);
    var s4 := ApplyWriter(s3);
    var s5 := ApplyWriter(s4);
    var s6 := ApplyWriter(s5);
    var s7 := ApplyWriter(s6);
    var s8 := ApplyWriter(s7);
    if Stored(s.cell) {
      var s9 := ApplyWriter(s8);
      assert s9.cell.keys == WordsOf(value);
      assert WriterSteps(s8, 1) == s9;
    } else {
      assert s8.writer.Resting? && s8.cell.keys == ZERO;
      assert WriterSteps(s8, 1) == s8;
    }
    assert WriterSteps(s0, 9) == WriterSteps(s1, 8) == WriterSteps(s2, 7) == WriterSteps(s3, 6);
    assert WriterSteps(s3, 6) == WriterSteps(s4, 5) == WriterSteps(s5, 4) == WriterSteps(s6, 3);
    assert WriterSteps(s6, 3) == WriterSteps(s7, 2) == WriterSteps(s8, 1);
  }

  /** The stores that have begun, in order. */
  function Begun(acts: seq<Action>, j: nat): seq<Option<Secret>>
    requires j <= |acts|
  {
    if j == 0 then []
    else Begun(acts, j - 1) + if acts[j - 1].StartStore? then [acts[j - 1].value] else []
  }

  /** The cell after whole stores, one by one. */
  function CellAfter(values: seq<Option<Secret>>): KeyCell {
    if values == [] then FRESH else AfterStore(CellAfter(values[..|values| - 1]), values[|values| - 1])
  }

  lemma CellAfterLast(values: seq<Option<Secret>>, v: Option<Secret>)
    ensures CellAfter(values + [v]) == AfterStore(CellAfter(values), v)
  {
    assert (values + [v])[..|values|] == values;
  }

  /** How far a store in progress has come, given the cell it started from. */
  ghost predicate Partway(c: KeyCell, w: Writer, start: KeyCell, v: Option<Secret>) {
    match w
    case Resting => false
    case LoadSequence(value) => value == v && c == start
    case MarkOdd(value, before) => value == v && c == start && before == c.sequence && Stored(start)
    case SetValid(value, before) =>
      value == v && before == start.sequence && Stored(start) && c == start.(sequence := before + 1)
    case SetWord(value, before, i) =>
      && value == v && before == start.sequence && Stored(start) && c.sequence == before + 1 && i <= 4
      && c.valid == (if v.Some? then 1 else 0) && forall k :: 0 <= k < i ==> c.keys[k] == WordsOf(v)[k]
    case MarkEven(value, before) =>
      && value == v && before == start.sequence && Stored(start) && c.sequence == before + 1
      && c.valid == (if v.Some? then 1 else 0) && c.keys == WordsOf(v)
    case Exhaust => c == start && !Stored(start)
    case ClearValid => Exhausted(c) && !Stored(start)
    case ClearWord(i) => Exhausted(c) && c.valid == 0 && !Stored(start) && i <= 4 && forall k :: 0 <= k < i ==> c.keys[k] == 0
  }

  ghost predicate Tracks(s: System, values: seq<Option<Secret>>) {
    if s.writer.Resting? then s.cell == CellAfter(values)
    else values != [] && Partway(s.cell, s.writer, CellAfter(values[..|values| - 1]), values[|values| - 1])
  }

  lemma WriterTracks(s: System, start: KeyCell, v: Option<Secret>)
    requires !s.writer.Resting? && Partway(s.cell, s.writer, start, v)
    ensures var t := ApplyWriter(s);
            if t.writer.Resting? then t.cell == AfterStore(start, v) else Partway(t.cell, t.writer, start, v)
  {
    if s.writer.SetWord? && s.writer.i == 4 {
      assert s.cell.keys == WordsOf(v);
    }
    if s.writer.ClearWord? && s.writer.i == 4 {
      assert s.cell.keys == ZERO;
    }
  }

  lemma StepTracks(s: System, a: Action, values: seq<Option<Secret>>)
    requires Enabled(s, a) && Tracks(s, values)
    ensures Tracks(Apply(s, a), if a.StartStore? then values + [a.value] else values)
  {
    if a.StartStore? {
      assert (values + [a.value])[..|values|] == values;
    } else if a.WriterStep? {
      WriterTracks(s, CellAfter(values[..|values| - 1]), values[|values| - 1]);
    }
  }

  /** At every instant of every run the memory is what the finished stores and the one in progress make of it. */
  lemma {:induction false} RunTracks(trace: seq<System>, acts: seq<Action>, j: nat)
    requires IsRun(trace, acts) && j < |trace|
    ensures Tracks(trace[j], Begun(acts, j))
    decreases j
  {
    hide Enabled, Apply, Partway;
    if j > 0 {
      RunTracks(trace, acts, j - 1);
      StepTracks(trace[j - 1], acts[j - 1], Begun(acts, j - 1));
      assert Begun(acts, j - 1) + [] == Begun(acts, j - 1);
    }
  }

  predicate Attempting(rd: Reader) {
    match rd
    case Begin(attempt) => attempt < ATTEMPTS
    case LoadReady(attempt, _) => attempt < ATTEMPTS
    case LoadWords(attempt, _, _, _) => attempt < ATTEMPTS
    case Done(_) => true
  }

  /** The answer of a call whose `n`th and later loads find the memory as `view` says. */
  function Finish(rd: Reader, view: nat -> KeyCell, n: nat): Snapshot
    requires Attempting(rd)
    decreases StepsLeft(rd)
  {
    if rd.Done? then rd.result else Finish(ReaderNext(view(n), rd), view, n + 1)
  }

  /** The retry loop takes the reader's steps, whatever the memory holds at each of its loads. */
  method TakeSnapshot(view: nat -> KeyCell) returns (result: Snapshot)
    ensures result == Finish(Begin(0), view, 0)
  {
    var n, attempt := 0, 0;
    while attempt < ATTEMPTS
      invariant 0 <= attempt <= ATTEMPTS
      invariant attempt < ATTEMPTS ==> Finish(Begin(attempt), view, n) == Finish(Begin(0), view, 0)
      invariant attempt == ATTEMPTS ==> Finish(Begin(0), view, 0) == Refused(Busy)
    {
      var before := view(n).sequence;
      n := n + 1;
      if before == SEQUENCE_MAX { return Refused(SessionClosed); }
      if before % 2 == 1 { attempt := attempt + 1; continue; }
      var ready := view(n).valid;
      n := n + 1;
      var current: Loaded := [];
      assert Finish(LoadWords(attempt, before, ready, current), view, n) == Finish(Begin(0), view, 0);
      while |current| < 4
        invariant |current| <= 4
        invariant Finish(LoadWords(attempt, before, ready, current), view, n) == Finish(Begin(0), view, 0)
      {
        current := current + [view(n).keys[|current|]];
        n := n + 1;
      }
      var after := view(n).sequence;
      n := n + 1;
      if after != before { attempt := attempt + 1; continue; }
      if ready == 0 { return Refused(NoLicense); }
      return Taken(current);
    }
    return Refused(Busy);
  }

  /** With no store in progress the first attempt answers, with the contents of the cell. */
  lemma UncontendedSnapshot(c: KeyCell, view: nat -> KeyCell)
    requires Settled(c) && forall n :: view(n) == c
    ensures Finish(Begin(0), view, 0) ==
            if Exhausted(c) then Refused(SessionClosed)
            else if Contents(c).Some? then Taken(Contents(c).value) else Refused(NoLicense)
  {
    if Exhausted(c) {
      Load(c, Begin(0), view, 0);
    } else {
      var b, v, k := c.sequence, c.valid, c.keys;
      Load(c, Begin(0), view, 0);
      Load(c, LoadReady(0, b), view, 1);
      Load(c, LoadWords(0, b, v, []), view, 2);
      assert [] + [k[0]] == [k[0]];
      Load(c, LoadWords(0, b, v, [k[0]]), view, 3);
      assert [k[0]] + [k[1]] == [k[0], k[1]];
      Load(c, LoadWords(0, b, v, [k[0], k[1]]), view, 4);
      assert [k[0], k[1]] + [k[2]] == [k[0], k[1], k[2]];
      Load(c, LoadWords(0, b, v, [k[0], k[1], k[2]]), view, 5);
      assert [k[0], k[1], k[2]] + [k[3]] == k;
      Load(c, LoadWords(0, b, v, k), view, 6);
    }
  }

  lemma Load(c: KeyCell, rd: Reader, view: nat -> KeyCell, n: nat)
    requires Attempting(rd) && !rd.Done? && view(n) == c
    ensures Finish(rd, view, n) == Finish(ReaderNext(c, rd), view, n + 1)
  {
  }
}
