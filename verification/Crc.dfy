/**
 The section checksum: CRC-32 with generator 0x04c11db7, as in Annex A of ISO/IEC 13818-1.

 A 32-bit register is the list of its bits.
*/
module Crc {
  import opened Basics
  import opened BitStrings

  const WIDTH: nat := 32

  type Register = r: Bits | |r| == WIDTH witness Zeros(WIDTH)

  function Ones(): Register {
    seq(WIDTH, _ => true)
  }

  /** 0x04c11db7. */
  function Generator(): Register {
    [false, false, false, false, false, true, false, false, true, true, false, false, false, false, false, true,
     false, false, false, true, true, true, false, true, true, false, true, true, false, true, true, true]
  }

  function Xor(a: Register, b: Register): Register {
    seq(WIDTH, i requires 0 <= i < WIDTH => a[i] != b[i])
  }

  /** One turn of the inner loop: shift left, and subtract the generator when a bit fell out. */
  function Shift1(c: Register): Register {
    if c[0] then Xor(c[1..] + [false], Generator()) else c[1..] + [false]
  }

  function Shift(c: Register, n: nat): Register
    decreases n
  {
    if n == 0 then c else Shift(Shift1(c), n - 1)
  }

  /** Bits at the top of a register. */
  function Top(bits: Bits): Register
    requires |bits| <= WIDTH
  {
    bits + Zeros(WIDTH - |bits|)
  }

  /** Add some bits at the top of the register, then shift as often. */
  function Feed(c: Register, bits: Bits): Register
    requires |bits| <= WIDTH
  {
    Shift(Xor(c, Top(bits)), |bits|)
  }

  function CrcFrom(c: Register, bytes: Bytes): Register
    decreases |bytes|
  {
    if bytes == [] then c else CrcFrom(Feed(c, OfByte(bytes[0])), bytes[1..])
  }

  function Crc(bytes: Bytes): Register {
    CrcFrom(Ones(), bytes)
  }

  /** A section whose checksum comes out as zero. */
  predicate Sound(bytes: Bytes) {
    Crc(bytes) == Zeros(WIDTH)
  }

  // ---------------------------------------------------------------- the register is linear

  lemma Shift1Linear(a: Register, b: Register)
    ensures Shift1(Xor(a, b)) == Xor(Shift1(a), Shift1(b))
  {
  }

  lemma Shift1Injective(a: Register)
    ensures Shift1(a) == Zeros(WIDTH) <==> a == Zeros(WIDTH)
  {
    var s := Shift1(a);
    if s == Zeros(WIDTH) {
      assert !s[31];
      assert !a[0];
      forall i | 0 < i < WIDTH ensures !a[i] {
        assert !s[i - 1];
      }
    }
  }

  lemma {:induction false} ShiftLinear(a: Register, b: Register, n: nat)
    ensures Shift(Xor(a, b), n) == Xor(Shift(a, n), Shift(b, n))
    decreases n
  {
    if n > 0 {
      Shift1Linear(a, b);
      ShiftLinear(Shift1(a), Shift1(b), n - 1);
    }
  }

  lemma {:induction false} ShiftInjective(a: Register, n: nat)
    ensures Shift(a, n) == Zeros(WIDTH) <==> a == Zeros(WIDTH)
    decreases n
  {
    if n > 0 {
      Shift1Injective(a);
      ShiftInjective(Shift1(a), n - 1);
    }
  }

  lemma {:induction false} ShiftAdd(a: Register, m: nat, n: nat)
    ensures Shift(Shift(a, m), n) == Shift(a, m + n)
    decreases m
  {
    if m > 0 {
      ShiftAdd(Shift1(a), m - 1, n);
    }
  }

  /** Bits below the top wait until the zeros before them are shifted out. */
  lemma {:induction false} ShiftOutZeros(n: nat, z: Bits)
    requires n + |z| == WIDTH
    ensures Shift(Zeros(n) + z, n) == z + Zeros(n)
    decreases n
  {
    if n == 0 {
      assert Zeros(0) + z == z == z + Zeros(0);
    } else {
      var c := Zeros(n) + z;
      assert Shift1(c) == Zeros(n - 1) + (z + [false]);
      ShiftOutZeros(n - 1, z + [false]);
      assert (z + [false]) + Zeros(n - 1) == z + Zeros(n);
    }
  }

  lemma XorAssociates(a: Register, b: Register, c: Register)
    ensures Xor(Xor(a, b), c) == Xor(a, Xor(b, c))
  {
  }

  /** `y` where it stands before the bits above it are shifted out. */
  function Below(x: Bits, y: Bits): Register
    requires |x| + |y| <= WIDTH
  {
    Zeros(|x|) + (y + Zeros(WIDTH - |x| - |y|))
  }

  lemma ZerosJoin(y: Bits, m: nat, n: nat)
    ensures (y + Zeros(m)) + Zeros(n) == y + Zeros(m + n)
  {
  }

  lemma Rises(n: nat, y: Bits, m: nat)
    requires n + |y| + m == WIDTH
    ensures Shift(Zeros(n) + (y + Zeros(m)), n) == y + Zeros(m + n)
  {
    ShiftOutZeros(n, y + Zeros(m));
    ZerosJoin(y, m, n);
  }

  lemma BelowRises(x: Bits, y: Bits)
    requires |x| + |y| <= WIDTH
    ensures Shift(Below(x, y), |x|) == Top(y)
  {
    hide Shift, Zeros;
    var n, m := |x|, WIDTH - |x| - |y|;
    Rises(n, y, m);
    assert m + n == WIDTH - |y|;
  }

  lemma BelowJoins(x: Bits, y: Bits)
    requires |x| + |y| <= WIDTH
    ensures Xor(Top(x), Below(x, y)) == Top(x + y)
  {
  }

  /** Two feeds in a row are one feed of the joined bits. */
  lemma FeedTwice(c: Register, x: Bits, y: Bits)
    requires |x| + |y| <= WIDTH
    ensures Feed(Feed(c, x), y) == Feed(c, x + y)
  {
    hide Xor, Shift, Top, Below;
    var r, n := Xor(c, Top(x)), |x|;
    BelowRises(x, y);
    ShiftLinear(r, Below(x, y), n);
    ShiftAdd(Xor(r, Below(x, y)), n, |y|);
    XorAssociates(c, Top(x), Below(x, y));
    BelowJoins(x, y);
  }

  // ---------------------------------------------------------------- one bit at a time

  /** The textbook form: each message bit in turn. */
  function Serial(c: Register, bits: Bits): Register
    decreases |bits|
  {
    if bits == [] then c else Serial(Feed(c, [bits[0]]), bits[1..])
  }

  lemma {:induction false} SerialIsFeed(c: Register, bits: Bits)
    requires |bits| <= WIDTH
    ensures Serial(c, bits) == Feed(c, bits)
    decreases |bits|
  {
    if bits == [] {
      assert Xor(c, Top(bits)) == c;
    } else {
      SerialIsFeed(Feed(c, [bits[0]]), bits[1..]);
      FeedTwice(c, [bits[0]], bits[1..]);
      assert [bits[0]] + bits[1..] == bits;
    }
  }

  lemma {:induction false} SerialSplits(c: Register, x: Bits, y: Bits)
    ensures Serial(c, x + y) == Serial(Serial(c, x), y)
    decreases |x|
  {
    if x == [] {
      assert x + y == y;
    } else {
      assert (x + y)[0] == x[0] && (x + y)[1..] == x[1..] + y;
      SerialSplits(Feed(c, [x[0]]), x[1..], y);
    }
  }

  /** Working byte by byte is working bit by bit. */
  lemma {:induction false} CrcIsSerial(c: Register, bytes: Bytes)
    ensures CrcFrom(c, bytes) == Serial(c, OfBytes(bytes))
    decreases |bytes|
  {
    if bytes != [] {
      var first := OfByte(bytes[0]);
      SerialSplits(c, first, OfBytes(bytes[1..]));
      SerialIsFeed(c, first);
      CrcIsSerial(Feed(c, first), bytes[1..]);
    }
  }

  // ---------------------------------------------------------------- the checksum as four bytes

  function Quarters(c: Register): Bytes {
    [ToByte(c[..8]), ToByte(c[8..16]), ToByte(c[16..24]), ToByte(c[24..])]
  }

  /** The register as four big-endian bytes. */
  function Trailer(c: Register): (t: Bytes)
    ensures |t| == 4 && OfBytes(t) == c
  {
    FourBytes(Quarters(c));
    JoinQuarters(c);
    Quarters(c)
  }

  lemma JoinQuarters(c: Bits)
    requires |c| == 32
    ensures c[..8] + c[8..16] + c[16..24] + c[24..] == c
  {
  }

  lemma FourBytes(t: Bytes)
    requires |t| == 4
    ensures OfBytes(t) == OfByte(t[0]) + OfByte(t[1]) + OfByte(t[2]) + OfByte(t[3])
  {
    var last := t[2..];
    assert last == [t[2]] + [t[3]] && t == ([t[0]] + [t[1]]) + last;
    BitsOfJoined([t[0]] + [t[1]], last);
    BitsOfJoined([t[0]], [t[1]]);
    BitsOfJoined([t[2]], [t[3]]);
    OneByte(t[0]); OneByte(t[1]); OneByte(t[2]); OneByte(t[3]);
    JoinFour(OfByte(t[0]), OfByte(t[1]), OfByte(t[2]), OfByte(t[3]));
  }

  lemma JoinFour(a: Bits, b: Bits, c: Bits, d: Bits)
    ensures (a + b) + (c + d) == a + b + c + d
  {
  }

  // ---------------------------------------------------------------- what the checksum promises

  lemma XorZero(a: Register, b: Register)
    ensures Xor(a, b) == Zeros(WIDTH) <==> a == b
  {
    if Xor(a, b) == Zeros(WIDTH) {
      forall i | 0 <= i < WIDTH ensures a[i] == b[i] {
        assert !Xor(a, b)[i];
      }
      assert a == b;
    }
  }

  /** A section checks out exactly when its last four bytes are the checksum of the rest. */
  lemma SoundIffTrailer(m: Bytes, t: Bytes)
    requires |t| == 4
    ensures Sound(m + t) <==> t == Trailer(Crc(m))
  {
    var c := Crc(m);
    BitsOfJoined(m, t);
    CrcIsSerial(Ones(), m + t);
    CrcIsSerial(Ones(), m);
    SerialSplits(Ones(), OfBytes(m), OfBytes(t));
    SerialIsFeed(c, OfBytes(t));
    assert Top(OfBytes(t)) == OfBytes(t);
    ShiftInjective(Xor(c, OfBytes(t)), WIDTH);
    XorZero(c, OfBytes(t));
    if OfBytes(t) == c {
      BytesAreTheirBits(t, Trailer(c));
    }
  }

  lemma XorCancels(c: Register, d: Register, t: Register)
    ensures Xor(Xor(c, t), Xor(d, t)) == Xor(c, d)
  {
  }

  lemma XorOfFeeds(c: Register, d: Register, bits: Bits)
    requires |bits| <= WIDTH
    ensures Xor(Feed(c, bits), Feed(d, bits)) == Shift(Xor(c, d), |bits|)
  {
    var t, n := Top(bits), |bits|;
    ShiftLinear(Xor(c, t), Xor(d, t), n);
    XorCancels(c, d, t);
  }

  /** Equal bits keep different registers different. */
  lemma {:induction false} SerialInjective(c: Register, d: Register, bits: Bits)
    ensures Serial(c, bits) == Serial(d, bits) <==> c == d
    decreases |bits|
  {
    if bits != [] {
      var c1, d1 := Feed(c, [bits[0]]), Feed(d, [bits[0]]);
      SerialInjective(c1, d1, bits[1..]);
      XorOfFeeds(c, d, [bits[0]]);
      ShiftInjective(Xor(c, d), 1);
      XorZero(c, d);
      XorZero(c1, d1);
    }
  }

  lemma FeedInjective(c: Register, x: Bits, y: Bits)
    requires |x| == |y| <= WIDTH
    ensures Feed(c, x) == Feed(c, y) <==> x == y
  {
    var a, b := Xor(c, Top(x)), Xor(c, Top(y));
    ShiftLinear(a, b, |x|);
    ShiftInjective(Xor(a, b), |x|);
    XorZero(a, b);
    XorZero(Shift(a, |x|), Shift(b, |x|));
    if a == b {
      forall i | 0 <= i < |x| ensures x[i] == y[i] {
        assert a[i] == b[i];
      }
      assert x == y;
    }
  }

  lemma JoinWindow(a: Bits, b: Bits, i: nat, j: nat)
    requires |a| == |b| && i <= j <= |a|
    requires a[..i] == b[..i] && a[i..j] == b[i..j] && a[j..] == b[j..]
    ensures a == b
  {
    assert a == a[..i] + a[i..j] + a[j..] && b == b[..i] + b[i..j] + b[j..];
  }

  lemma SerialBurst(c: Register, a: Bits, b: Bits, i: nat, j: nat)
    requires |a| == |b| && i <= j <= |a| && j - i <= WIDTH
    requires a[..i] == b[..i] && a[j..] == b[j..]
    requires Serial(c, a) == Serial(c, b)
    ensures a == b
  {
    var before, x, y := Serial(c, a[..i]), a[i..j], b[i..j];
    SplitWindow(c, a, i, j);
    SplitWindow(c, b, i, j);
    SerialInjective(Feed(before, x), Feed(before, y), a[j..]);
    FeedInjective(before, x, y);
    JoinWindow(a, b, i, j);
  }

  /** No two sound sections of one length differ only inside a window of 32 bits. */
  lemma BurstIsDetected(x: Bytes, y: Bytes, i: nat, j: nat)
    requires |x| == |y| && i <= j <= 8 * |x| && j - i <= WIDTH
    requires OfBytes(x)[..i] == OfBytes(y)[..i] && OfBytes(x)[j..] == OfBytes(y)[j..]
    requires Sound(x) && Sound(y)
    ensures x == y
  {
    CrcIsSerial(Ones(), x);
    CrcIsSerial(Ones(), y);
    SerialBurst(Ones(), OfBytes(x), OfBytes(y), i, j);
    BytesAreTheirBits(x, y);
  }

  lemma SplitWindow(c: Register, bits: Bits, i: nat, j: nat)
    requires i <= j <= |bits| && j - i <= WIDTH
    ensures Serial(c, bits) == Serial(Feed(Serial(c, bits[..i]), bits[i..j]), bits[j..])
  {
    assert bits == bits[..i] + (bits[i..j] + bits[j..]);
    SerialSplits(c, bits[..i], bits[i..j] + bits[j..]);
    SerialSplits(Serial(c, bits[..i]), bits[i..j], bits[j..]);
    SerialIsFeed(Serial(c, bits[..i]), bits[i..j]);
  }

  // ---------------------------------------------------------------- the two loops

  lemma {:induction false} ShiftLast(c: Register, n: nat)
    ensures Shift(c, n + 1) == Shift1(Shift(c, n))
    decreases n
  {
    if n > 0 {
      ShiftLast(Shift1(c), n - 1);
    }
  }

  lemma {:induction false} CrcLast(c: Register, bytes: Bytes, i: nat)
    requires i < |bytes|
    ensures CrcFrom(c, bytes[..i + 1]) == Feed(CrcFrom(c, bytes[..i]), OfByte(bytes[i]))
    decreases i
  {
    if i > 0 {
      var c1 := Feed(c, OfByte(bytes[0]));
      assert bytes[..i + 1][1..] == bytes[1..][..i] && bytes[..i][1..] == bytes[1..][..i - 1];
      CrcLast(c1, bytes[1..], i - 1);
    } else {
      assert bytes[..1] == [bytes[0]] && bytes[..0] == [];
    }
  }

  /** The parser's inner loop, with its two branches. */
  method ShiftOut(start: Register) returns (crc: Register)
    ensures crc == Shift(start, 8)
  {
    crc := start;
    for bit := 0 to 8
      invariant crc == Shift(start, bit)
    {
      ShiftLast(start, bit);
      if crc[0] {
        crc := Xor(crc[1..] + [false], Generator());
      } else {
        crc := crc[1..] + [false];
      }
    }
  }

  method Crc32Mpeg(bytes: Bytes) returns (crc: Register)
    ensures crc == Crc(bytes)
  {
    crc := Ones();
    for i := 0 to |bytes|
      invariant crc == CrcFrom(Ones(), bytes[..i])
    {
      CrcLast(Ones(), bytes, i);
      crc := Xor(crc, Top(OfByte(bytes[i])));
      crc := ShiftOut(crc);
    }
    assert bytes[..|bytes|] == bytes;
  }

  lemma XorNothing(a: Register)
    ensures Xor(a, Zeros(WIDTH)) == a
  {
  }

  /** The plugin's inner loop, which always subtracts: the generator or zero. */
  method ShiftOutMasked(start: Register) returns (crc: Register)
    ensures crc == Shift(start, 8)
  {
    crc := start;
    for bit := 0 to 8
      invariant crc == Shift(start, bit)
    {
      ShiftLast(start, bit);
      XorNothing(crc[1..] + [false]);
      crc := Xor(crc[1..] + [false], if crc[0] then Generator() else Zeros(WIDTH));
    }
  }

  method SectionCrc(bytes: Bytes) returns (crc: Register)
    ensures crc == Crc(bytes)
  {
    crc := Ones();
    for i := 0 to |bytes|
      invariant crc == CrcFrom(Ones(), bytes[..i])
    {
      CrcLast(Ones(), bytes, i);
      crc := Xor(crc, Top(OfByte(bytes[i])));
      crc := ShiftOutMasked(crc);
    }
    assert bytes[..|bytes|] == bytes;
  }
}
