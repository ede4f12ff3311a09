/** Numbers and bytes as lists of bits, most significant first. */
module BitStrings {
  import opened Basics

  type Bits = seq<bool>

  function Zeros(n: nat): (z: Bits)
    ensures |z| == n
    ensures forall i :: 0 <= i < n ==> !z[i]
  {
    seq(n, _ => false)
  }

  /** The low `n` bits of a number. */
  function BitsOf(v: nat, n: nat): (bits: Bits)
    ensures |bits| == n
    decreases n, v
  {
    if n == 0 then [] else BitsOf(v / 2, n - 1) + [v % 2 == 1]
  }

  function ValueOf(bits: Bits): nat {
    if bits == [] then 0 else 2 * ValueOf(bits[..|bits| - 1]) + (if bits[|bits| - 1] then 1 else 0)
  }

  function OfByte(b: byte): (bits: Bits)
    ensures |bits| == 8
  {
    BitsOf(b, 8)
  }

  function OfBytes(bytes: Bytes): (bits: Bits)
    ensures |bits| == 8 * |bytes|
  {
    if bytes == [] then [] else OfByte(bytes[0]) + OfBytes(bytes[1..])
  }

  lemma {:induction false} ValueOfBits(v: nat, n: nat, limit: nat)
    requires limit == Power(n) && v < limit
    ensures ValueOf(BitsOf(v, n)) == v
    decreases n
  {
    if n > 0 {
      var bits := BitsOf(v, n);
      assert bits[..n - 1] == BitsOf(v / 2, n - 1);
      ValueOfBits(v / 2, n - 1, Power(n - 1));
    }
  }

  function Power(n: nat): nat {
    if n == 0 then 1 else 2 * Power(n - 1)
  }

  lemma {:induction false} BitsOfValue(bits: Bits)
    ensures ValueOf(bits) < Power(|bits|)
    ensures BitsOf(ValueOf(bits), |bits|) == bits
    decreases |bits|
  {
    if bits != [] {
      BitsOfValue(bits[..|bits| - 1]);
    }
  }

  function ToByte(bits: Bits): (b: byte)
    requires |bits| == 8
    ensures OfByte(b) == bits
  {
    BitsOfValue(bits);
    assert Power(|bits|) == 256;
    ValueOf(bits)
  }

  lemma ByteOfBits(b: byte)
    ensures ToByte(OfByte(b)) == b
  {
    assert Power(8) == 256;
    ValueOfBits(b, 8, 256);
  }

  lemma {:induction false} BytesAreTheirBits(x: Bytes, y: Bytes)
    requires OfBytes(x) == OfBytes(y)
    ensures x == y
    decreases |x|
  {
    if x != [] {
      assert OfByte(x[0]) == OfBytes(x)[..8] == OfBytes(y)[..8] == OfByte(y[0]);
      assert OfBytes(x[1..]) == OfBytes(x)[8..] == OfBytes(y)[8..] == OfBytes(y[1..]);
      ByteOfBits(x[0]);
      ByteOfBits(y[0]);
      BytesAreTheirBits(x[1..], y[1..]);
      assert x == [x[0]] + x[1..] && y == [y[0]] + y[1..];
    }
  }

  lemma {:induction false} BitsOfJoined(x: Bytes, y: Bytes)
    ensures OfBytes(x + y) == OfBytes(x) + OfBytes(y)
    decreases |x|
  {
    if x == [] {
      assert x + y == y;
    } else {
      assert (x + y)[0] == x[0] && (x + y)[1..] == x[1..] + y;
      BitsOfJoined(x[1..], y);
    }
  }

  lemma OneByte(b: byte)
    ensures OfBytes([b]) == OfByte(b)
  {
    assert [b][1..] == [];
  }

  lemma DivTwice(v: nat, p: int)
    requires p > 0
    ensures v / 2 / p == v / (2 * p)
  {
    var q, r := v / (2 * p), v % (2 * p);
    assert v == 2 * (p * q) + r;
    assert v / 2 == p * q + r / 2;
    var d := v / 2 / p - q;
    assert p * (v / 2 / p) + v / 2 % p == p * q + r / 2;
    assert p * d == r / 2 - v / 2 % p;
    assert d >= 1 ==> p * d >= p;
    assert d <= -1 ==> p * d <= 0 - p;
  }

  /** A bit is what a shift and a mask give. */
  lemma {:induction false} BitByShift(v: nat, n: nat, p: nat)
    requires p < n
    ensures Power(n - 1 - p) > 0 && (BitsOf(v, n)[p] <==> v / Power(n - 1 - p) % 2 == 1)
    decreases n
  {
    if p < n - 1 {
      BitByShift(v / 2, n - 1, p);
      DivTwice(v, Power(n - 2 - p));
    }
  }

  lemma {:induction false} BitOfBytes(bytes: Bytes, i: nat)
    requires i < 8 * |bytes|
    ensures OfBytes(bytes)[i] == OfByte(bytes[i / 8])[i % 8]
    decreases |bytes|
  {
    if i >= 8 {
      BitOfBytes(bytes[1..], i - 8);
    }
  }

  lemma ValueSnoc(b: Bits, x: bool)
    ensures ValueOf(b + [x]) == 2 * ValueOf(b) + (if x then 1 else 0)
  {
    assert (b + [x])[..|b|] == b;
  }
}
