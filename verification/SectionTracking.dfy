/** Which sections of one table version have been seen. */
module SectionTracking {
  import opened Basics

  /** A 5-bit version number. */
  type Version = v: int | 0 <= v < 32

  datatype Tracker = Tracker(version: Option<Version>, last: Option<byte>, seen: set<byte>,
                             inconsistent: bool, payloads: map<byte, Bytes>)

  function Fresh(): Tracker {
    Tracker(None, None, {}, false, map[])
  }

  function Blank(v: Version): Tracker {
    Tracker(Some(v), None, {}, false, map[])
  }

  /** Less than half way round from `from`, going forward. */
  predicate Forward(from: Version, v: Version) {
    (v + 32 - from) % 32 < 16
  }

  predicate Accepts(version: Option<Version>, v: Version) {
    version.None? || Forward(version.value, v)
  }

  /** What was replaced does not come back in the next step. */
  lemma ForwardIsOneWay(from: Version, v: Version)
    ensures Forward(from, v) && Forward(v, from) <==> from == v
  {
  }

  /** A new version starts from nothing. */
  function Turned(t: Tracker, v: Version): Tracker {
    if t.version == Some(v) then t else Blank(v)
  }

  function Marked(t: Tracker, v: Version, number: byte, last: byte): Tracker {
    var r := Turned(t, v);
    if number > last || (r.last.Some? && r.last.value != last) then r.(inconsistent := true)
    else r.(last := Some(last), seen := r.seen + {number})
  }

  /** The tracker after a section, and whether the section is new and to be used. */
  function Observed(t: Tracker, v: Version, number: byte, last: byte, bytes: Bytes): (Tracker, bool) {
    var r := Marked(t, v, number, last);
    if !Accepts(t.version, v) then (t, false)
    else if number in r.payloads then
      (if r.payloads[number] != bytes then r.(inconsistent := true) else r, false)
    else if r.inconsistent then (r, false)
    else (r.(payloads := r.payloads[number := bytes]), true)
  }

  predicate IsComplete(t: Tracker) {
    !t.inconsistent && t.last.Some? && forall n: byte :: n <= t.last.value ==> n in t.seen
  }

  class SectionTracker {
    var version: Option<Version>
    var lastSectionNumber: Option<byte>
    var seenSections: set<byte>
    var inconsistent: bool
    var payloads: map<byte, Bytes>

    function Abs(): Tracker
      reads this
    {
      Tracker(version, lastSectionNumber, seenSections, inconsistent, payloads)
    }

    constructor (t: Tracker)
      ensures Abs() == t
    {
      version, lastSectionNumber, seenSections := t.version, t.last, t.seen;
      inconsistent, payloads := t.inconsistent, t.payloads;
    }

    method MarkSeen(v: Version, number: byte, last: byte)
      modifies this
      ensures Abs() == Marked(old(Abs()), v, number, last)
    {
      if version != Some(v) {
        version, lastSectionNumber := Some(v), None;
        seenSections, payloads, inconsistent := {}, map[], false;
      }
      if number > last {
        inconsistent := true;
        return;
      }
      if lastSectionNumber.Some? && lastSectionNumber.value != last {
        inconsistent := true;
        return;
      }
      if lastSectionNumber.None? {
        lastSectionNumber := Some(last);
      }
      seenSections := seenSections + {number};
    }

    method Observe(v: Version, number: byte, last: byte, bytes: Bytes) returns (isNew: bool)
      modifies this
      ensures (Abs(), isNew) == Observed(old(Abs()), v, number, last, bytes)
    {
      if !Accepts(version, v) { return false; }
      MarkSeen(v, number, last);
      if number in payloads {
        if payloads[number] != bytes {
          inconsistent := true;
        }
        return false;
      }
      if inconsistent { return false; }
      payloads := payloads[number := bytes];
      return true;
    }
  }
}
