/** The event loop of an event information section. */
module EitEvents {
  import opened Basics
  import opened Calendar

  /** Which table, version and section an event was read from. */
  datatype Origin = Origin(table: byte, version: byte, number: byte, last: byte,
                           service: uint16, stream: uint16, network: uint16)

  datatype Event = Event(origin: Origin, id: uint16, rawStart: Bytes, rawDuration: Bytes, timing: TimingState,
                         start: int, duration: int, freeCa: bool, descriptors: Bytes, truncated: bool)

  datatype Listing = Listing(events: seq<Event>, complete: bool)

  const ENTRY_HEADER: nat := 12

  function OrZero(x: Option<int>): int {
    match x case None => 0 case Some(v) => v
  }

  function DescriptorLength(rest: Bytes): nat
    requires |rest| >= ENTRY_HEADER
  {
    Be16(rest[10] % 16, rest[11])
  }

  /** The event of one entry; `bytes` ends with the entry, or earlier when the entry was cut off. */
  function ReadEvent(o: Origin, bytes: Bytes): Event
    requires |bytes| >= ENTRY_HEADER
  {
    var (timing, start, duration) := ClassifyTiming(bytes[2..7], bytes[7..10]);
    Event(o, Be16(bytes[0], bytes[1]), bytes[2..7], bytes[7..10], timing, OrZero(start), OrZero(duration),
          bytes[10] / 16 % 2 == 1, bytes[12..], ENTRY_HEADER + DescriptorLength(bytes) > |bytes|)
  }

  type EntryBytes = b: Bytes | |b| >= ENTRY_HEADER witness seq(ENTRY_HEADER, _ => 0)

  /** The entries of a loop as they lie in it, and whether they fill it. */
  datatype Cuts = Cuts(entries: seq<EntryBytes>, complete: bool)

  function Prepend(done: seq<EntryBytes>, c: Cuts): Cuts {
    c.(entries := done + c.entries)
  }

  function Cut(rest: Bytes): Cuts
    decreases |rest|
  {
    if |rest| < ENTRY_HEADER then Cuts([], rest == [])
    else
      var end := ENTRY_HEADER + DescriptorLength(rest);
      if end > |rest| then Cuts([rest], false) else Prepend([rest[..end]], Cut(rest[end..]))
  }

  function ReadAll(o: Origin, entries: seq<EntryBytes>): seq<Event> {
    seq(|entries|, i requires 0 <= i < |entries| => ReadEvent(o, entries[i]))
  }

  function ListEvents(o: Origin, rest: Bytes): Listing {
    Listing(ReadAll(o, Cut(rest).entries), Cut(rest).complete)
  }

  // ---------------------------------------------------------------- what a broadcaster writes

  datatype Entry = Entry(id: uint16, start: Bytes, duration: Bytes, status: nat, freeCa: bool, descriptors: Bytes)

  predicate IsEntry(e: Entry) {
    |e.start| == 5 && |e.duration| == 3 && e.status < 8 && |e.descriptors| < 4096
  }

  function EncodeEntry(e: Entry): (b: Bytes)
    requires IsEntry(e)
    ensures |b| == ENTRY_HEADER + |e.descriptors|
  {
    [e.id / 256, e.id % 256] + e.start + e.duration
    + [e.status * 32 + (if e.freeCa then 16 else 0) + |e.descriptors| / 256, |e.descriptors| % 256] + e.descriptors
  }

  ghost predicate AllEntries(es: seq<Entry>) {
    forall i :: 0 <= i < |es| ==> IsEntry(es[i])
  }

  function EncodeEntries(es: seq<Entry>): Bytes
    requires AllEntries(es)
  {
    if es == [] then [] else EncodeEntry(es[0]) + EncodeEntries(es[1..])
  }

  function EventOf(o: Origin, e: Entry): Event
    requires IsEntry(e)
  {
    var (timing, start, duration) := ClassifyTiming(e.start, e.duration);
    Event(o, e.id, e.start, e.duration, timing, OrZero(start), OrZero(duration), e.freeCa, e.descriptors, false)
  }

  function Encoded(es: seq<Entry>): seq<EntryBytes>
    requires AllEntries(es)
  {
    seq(|es|, i requires 0 <= i < |es| => EncodeEntry(es[i]))
  }

  function EventsOf(o: Origin, es: seq<Entry>): seq<Event>
    requires AllEntries(es)
  {
    seq(|es|, i requires 0 <= i < |es| => EventOf(o, es[i]))
  }

  lemma FlagsByte(status: nat, free: bool, length: nat)
    requires status < 8 && length < 4096
    ensures var b := status * 32 + (if free then 16 else 0) + length / 256;
            0 <= b < 256 && b % 16 == length / 256 && (b / 16 % 2 == 1 <==> free)
  {
  }

  lemma EncodedHeader(e: Entry, others: Bytes)
    requires IsEntry(e)
    ensures var rest := EncodeEntry(e) + others;
            && rest[0] == e.id / 256 && rest[1] == e.id % 256 && rest[2..7] == e.start && rest[7..10] == e.duration
            && rest[10] == e.status * 32 + (if e.freeCa then 16 else 0) + |e.descriptors| / 256
            && rest[11] == |e.descriptors| % 256
            && rest[12..12 + |e.descriptors|] == e.descriptors && rest[12 + |e.descriptors|..] == others
  {
  }

  lemma ReadEncoded(o: Origin, e: Entry)
    requires IsEntry(e)
    ensures ReadEvent(o, EncodeEntry(e)) == EventOf(o, e)
  {
    hide EncodeEntry, ClassifyTiming;
    var b := EncodeEntry(e);
    assert b + [] == b;
    EncodedHeader(e, []);
    EncodedLength(e, []);
    FlagsByte(e.status, e.freeCa, |e.descriptors|);
    assert b[12..] == e.descriptors;
  }

  lemma EncodedLength(e: Entry, others: Bytes)
    requires IsEntry(e)
    ensures DescriptorLength(EncodeEntry(e) + others) == |e.descriptors|
  {
    EncodedHeader(e, others);
    FlagsByte(e.status, e.freeCa, |e.descriptors|);
    hide EncodeEntry;
  }

  lemma {:induction false} CutEncoded(es: seq<Entry>)
    requires AllEntries(es)
    ensures Cut(EncodeEntries(es)) == Cuts(Encoded(es), true)
    decreases |es|
  {
    if es != [] {
      var first, others := EncodeEntry(es[0]), EncodeEntries(es[1..]);
      hide EncodeEntry, DescriptorLength;
      EncodedHeader(es[0], others);
      EncodedLength(es[0], others);
      CutEncoded(es[1..]);
      assert (first + others)[..|first|] == first;
      assert Encoded(es) == [first] + Encoded(es[1..]);
    }
  }

  /** Entries that were written one after the other are read back, all of them and nothing else. */
  lemma EntriesReadBack(o: Origin, es: seq<Entry>)
    requires AllEntries(es)
    ensures ListEvents(o, EncodeEntries(es)) == Listing(EventsOf(o, es), true)
  {
    CutEncoded(es);
    forall i | 0 <= i < |es| ensures ReadEvent(o, Encoded(es)[i]) == EventOf(o, es[i]) {
      ReadEncoded(o, es[i]);
    }
    assert ReadAll(o, Encoded(es)) == EventsOf(o, es);
  }

  function EntryAt(rest: Bytes): (e: Entry)
    requires |rest| >= ENTRY_HEADER && ENTRY_HEADER + DescriptorLength(rest) <= |rest|
    ensures IsEntry(e)
  {
    Entry(Be16(rest[0], rest[1]), rest[2..7], rest[7..10], rest[10] / 32, rest[10] / 16 % 2 == 1,
          rest[12..ENTRY_HEADER + DescriptorLength(rest)])
  }

  lemma EntryAtFront(rest: Bytes)
    requires |rest| >= ENTRY_HEADER && ENTRY_HEADER + DescriptorLength(rest) <= |rest|
    ensures EncodeEntry(EntryAt(rest)) == rest[..ENTRY_HEADER + DescriptorLength(rest)]
  {
    var e := EntryAt(rest);
    assert |e.descriptors| / 256 == rest[10] % 16 && |e.descriptors| % 256 == rest[11];
    assert e.status * 32 + (if e.freeCa then 16 else 0) + |e.descriptors| / 256 == rest[10];
  }

  function EntriesIn(rest: Bytes): seq<Entry>
    decreases |rest|
  {
    if |rest| < ENTRY_HEADER || ENTRY_HEADER + DescriptorLength(rest) > |rest| then []
    else [EntryAt(rest)] + EntriesIn(rest[ENTRY_HEADER + DescriptorLength(rest)..])
  }

  lemma {:induction false} CompleteIsEncoded(rest: Bytes)
    requires Cut(rest).complete
    ensures AllEntries(EntriesIn(rest)) && EncodeEntries(EntriesIn(rest)) == rest
    decreases |rest|
  {
    hide EncodeEntry, DescriptorLength, EntryAt;
    if rest != [] {
      var end := ENTRY_HEADER + DescriptorLength(rest);
      CompleteIsEncoded(rest[end..]);
      EntryAtFront(rest);
      var es := EntriesIn(rest);
      assert es[1..] == EntriesIn(rest[end..]) && rest == rest[..end] + rest[end..];
    }
  }

  /** A loop is complete exactly when it is a list of whole entries, and then its events are theirs. */
  lemma CompleteIff(o: Origin, rest: Bytes)
    ensures Cut(rest).complete <==> exists es :: AllEntries(es) && EncodeEntries(es) == rest
    ensures Cut(rest).complete ==>
              AllEntries(EntriesIn(rest)) && ListEvents(o, rest).events == EventsOf(o, EntriesIn(rest))
  {
    if Cut(rest).complete {
      CompleteIsEncoded(rest);
      EntriesReadBack(o, EntriesIn(rest));
    }
    forall es | AllEntries(es) && EncodeEntries(es) == rest ensures Cut(rest).complete {
      CutEncoded(es);
    }
  }

  lemma PrependOne(done: seq<EntryBytes>, e: EntryBytes, c: Cuts)
    ensures Prepend(done, Prepend([e], c)) == Prepend(done + [e], c)
    ensures Prepend([], c) == c && Prepend(done, c).complete == c.complete
  {
    assert done + ([e] + c.entries) == (done + [e]) + c.entries;
    assert [] + c.entries == c.entries;
  }

  lemma ReadOneMore(o: Origin, entries: seq<EntryBytes>, e: EntryBytes)
    ensures ReadAll(o, entries + [e]) == ReadAll(o, entries) + [ReadEvent(o, e)]
  {
  }

  /** The cursor loop over a section's bytes up to its checksum. */
  method ParseEvents(o: Origin, section: Bytes, bodyEnd: nat) returns (r: Listing)
    requires 14 <= bodyEnd <= |section|
    ensures r == ListEvents(o, section[14..bodyEnd])
  {
    var out: seq<Event>, cursor, open := [], 14, true;
    ghost var all := Cut(section[14..bodyEnd]);
    ghost var done: seq<EntryBytes> := [];
    while open && cursor + ENTRY_HEADER <= bodyEnd
      invariant 14 <= cursor <= bodyEnd && out == ReadAll(o, done)
      invariant open ==> all == Prepend(done, Cut(section[cursor..bodyEnd]))
      invariant !open ==> all == Cuts(done, false) && cursor < bodyEnd
      decreases bodyEnd - cursor, open
    {
      var next := cursor + ENTRY_HEADER + DescriptorLength(section[cursor..bodyEnd]);
      var entry := section[cursor..if next > bodyEnd then bodyEnd else next];
      CutStep(section, cursor, next, bodyEnd, done);
      ReadOneMore(o, done, entry);
      out, done := out + [ReadEvent(o, entry)], done + [entry];
      if next > bodyEnd {
        open := false;
      } else {
        cursor := next;
      }
    }
    if open {
      assert done + [] == done;
    }
    return Listing(out, cursor == bodyEnd);
  }

  lemma CutStep(section: Bytes, cursor: nat, next: nat, bodyEnd: nat, done: seq<EntryBytes>)
    requires cursor + ENTRY_HEADER <= bodyEnd <= |section|
    requires next == cursor + ENTRY_HEADER + DescriptorLength(section[cursor..bodyEnd])
    ensures Prepend(done, Cut(section[cursor..bodyEnd])) ==
            if next > bodyEnd then Cuts(done + [section[cursor..bodyEnd]], false)
            else Prepend(done + [section[cursor..next]], Cut(section[next..bodyEnd]))
  {
    CutOne(section[cursor..bodyEnd], done);
    if next <= bodyEnd {
      Slices(section, cursor, next, bodyEnd);
    }
  }

  lemma Slices(section: Bytes, i: nat, j: nat, k: nat)
    requires i <= j <= k <= |section|
    ensures section[i..k][j - i..] == section[j..k] && section[i..k][..j - i] == section[i..j]
  {
  }

  lemma CutOne(rest: Bytes, done: seq<EntryBytes>)
    requires |rest| >= ENTRY_HEADER
    ensures var end := ENTRY_HEADER + DescriptorLength(rest);
            Prepend(done, Cut(rest)) == if end > |rest| then Cuts(done + [rest], false)
                                        else Prepend(done + [rest[..end]], Cut(rest[end..]))
  {
    var end := ENTRY_HEADER + DescriptorLength(rest);
    if end <= |rest| {
      PrependOne(done, rest[..end], Cut(rest[end..]));
    }
  }
}
