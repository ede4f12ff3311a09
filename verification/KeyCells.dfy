/**
 The key cell that the CAS process shares with its readers: sixteen key bytes under a sequence
 lock. `AfterStore` is what one uncontended store leaves behind.
*/
module KeyCells {
  import opened Basics

  const SEQUENCE_MAX: int := 0xFFFF_FFFF_FFFF_FFFF

  /** Sixteen key bytes, held and copied as four 32-bit words. */
  type Secret = s: seq<uint32> | |s| == 4 witness [0, 0, 0, 0]

  const ZERO: Secret := [0, 0, 0, 0]

  datatype KeyCell = KeyCell(sequence: int, valid: uint32, keys: Secret)

  const FRESH: KeyCell := KeyCell(0, 0, ZERO)

  /** The sequence is even between stores, and sticks at its maximum once exhausted. */
  predicate Quiescent(c: KeyCell) {
    0 <= c.sequence < SEQUENCE_MAX && c.sequence % 2 == 0
  }

  predicate Exhausted(c: KeyCell) {
    c.sequence == SEQUENCE_MAX
  }

  predicate Settled(c: KeyCell) {
    Quiescent(c) || (Exhausted(c) && c.valid == 0)
  }

  /** What a reader may obtain from a settled cell. */
  function Contents(c: KeyCell): Option<Secret> {
    if Exhausted(c) || c.valid == 0 then None else Some(c.keys)
  }

  function WordsOf(value: Option<Secret>): Secret {
    if value.Some? then value.value else ZERO
  }

  function AfterStore(c: KeyCell, value: Option<Secret>): KeyCell {
    if c.sequence >= SEQUENCE_MAX - 1 then KeyCell(SEQUENCE_MAX, 0, ZERO)
    else KeyCell(c.sequence + 2, if value.Some? then 1 else 0, WordsOf(value))
  }

  function Stored(c: KeyCell): bool {
    c.sequence < SEQUENCE_MAX - 1
  }

  /** A store publishes exactly its argument, unless the sequence is used up: then nothing, for ever. */
  lemma StoreContents(c: KeyCell, value: Option<Secret>)
    requires Settled(c)
    ensures Settled(AfterStore(c, value))
    ensures Contents(AfterStore(c, value)) == if Stored(c) then value else None
    ensures Exhausted(AfterStore(c, value)) <==> !Stored(c)
  {
  }

  /** The shared memory as the writing process sees it. */
  class SharedKeyState {
    var sequence: int
    var valid: uint32
    var keys: seq<uint32>

    ghost predicate Valid()
      reads this
    {
      |keys| == 4 && Settled(Cell())
    }

    ghost function Cell(): KeyCell
      reads this
      requires |keys| == 4
    {
      KeyCell(sequence, valid, keys)
    }

    constructor ()
      ensures Valid() && Cell() == FRESH
    {
      sequence, valid, keys := 0, 0, ZERO;
    }

    method Store(value: Option<Secret>) returns (ok: bool)
      requires Valid()
      modifies this
      ensures Valid() && Cell() == AfterStore(old(Cell()), value)
      ensures ok == Stored(old(Cell()))
    {
      var before := sequence;
      if before >= SEQUENCE_MAX - 1 {
        sequence := SEQUENCE_MAX;
        valid := 0;
        var i := 0;
        while i < 4
          invariant 0 <= i <= 4 && |keys| == 4
          invariant sequence == SEQUENCE_MAX && valid == 0
          invariant forall k :: 0 <= k < i ==> keys[k] == 0
        {
          keys := keys[i := 0];
          i := i + 1;
        }
        assert keys == ZERO;
        return false;
      }
      sequence := before + 1;
      valid := if value.Some? then 1 else 0;
      var i := 0;
      while i < 4
        invariant 0 <= i <= 4 && |keys| == 4
        invariant sequence == before + 1 && valid == (if value.Some? then 1 else 0)
        invariant forall k :: 0 <= k < i ==> keys[k] == WordsOf(value)[k]
      {
        keys := keys[i := WordsOf(value)[i]];
        i := i + 1;
      }
      assert keys == WordsOf(value);
      sequence := before + 2;
      return true;
    }
  }
}
