/** The CRC loops of the bus layer and of the browser viewer, proved equal to the
    GF(2) remainders of module Gf2Crc. Words are bit strings (see module Bits). */
module CrcLoops {
  import opened Bits
  import opened Gf2Crc

  /** ONEWIRE_CRC8_POLY (0x8C) and ONEWIRE_CRC16_POLY (0xA001), bit 0 first. */
  const POLY8: Poly := [false, false, true, true, false, false, false, true]
  const POLY16: Poly := [true, false, false, false, false, false, false, false,
                         false, false, false, false, false, true, false, true]

  /** The CRC register after a byte sequence, as onewire_crc8 / onewire_crc16 define it. */
  function Crc8Of(bytes: seq<byte>): (r: Poly)
    ensures |r| == 8
  {
    Crc(G8, BitsOf(bytes))
  }

  function Crc16Of(bytes: seq<byte>): (r: Poly)
    ensures |r| == 16
  {
    Crc(G16, BitsOf(bytes))
  }

  /** word >> 1 */
  function ShiftRight(w: Poly): (r: Poly)
    requires |w| > 0
    ensures |r| == |w|
  {
    w[1..] + [false]
  }

  lemma StepByWords(g: Poly, r: Poly, b: bool)
    requires Generator(g) && |r| == |g| - 1
    ensures Step(g, r, b) == if r[0] != b then Xor(ShiftRight(r), g[1..]) else ShiftRight(r)
  {
  }

  lemma RegStepTake(g: Poly, r: Poly, m: seq<bool>, k: nat)
    requires Generator(g) && |r| == |g| - 1 && k < |m|
    ensures Reg(g, r, m[..k + 1]) == Step(g, Reg(g, r, m[..k]), m[k])
  {
    assert m[..k + 1][..k] == m[..k];
  }

  lemma RegEmpty(g: Poly, r: Poly)
    requires Generator(g) && |r| == |g| - 1
    ensures Reg(g, r, []) == r
  {
  }

  lemma EmptyCrc(g: Poly, data: seq<byte>)
    requires Generator(g)
    ensures Crc(g, BitsOf(data[..0])) == Zeros(|g| - 1)
  {
  }

  lemma ShiftOne(w: Poly, j: nat)
    requires |w| > 0
    ensures ShiftRight(Shifted(w, j)) == Shifted(w, j + 1)
    ensures Shifted(w, 0) == w
  {
  }

  lemma RegByteTake(g: Poly, bytes: seq<byte>, i: nat)
    requires Generator(g) && i < |bytes|
    ensures Crc(g, BitsOf(bytes[..i + 1])) == Reg(g, Crc(g, BitsOf(bytes[..i])), ByteBits(bytes[i]))
  {
    assert bytes[..i + 1][..i] == bytes[..i];
    RegConcat(g, Zeros(|g| - 1), BitsOf(bytes[..i]), ByteBits(bytes[i]));
  }

  /** Adding a whole byte to the low end of the register and then shifting it eight
      times without input is the same as feeding its eight bits one by one. */
  lemma ByteEntersAtOnce(g: Poly, r: Poly, b: seq<bool>)
    requires Generator(g) && |b| == 8 <= |r| == |g| - 1
    ensures Reg(g, Xor(r, Padded(b, |r|)), Zeros(8)) == Reg(g, r, b)
  {
    hide *;
    var p := Padded(b, |r|);
    RegLinear(g, r, p, b, b);
    XorSelf(b);
    PaddedDrains(g, b, |r|);
    XorNone(Reg(g, r, b));
  }

  lemma PaddedDrains(g: Poly, b: seq<bool>, k: nat)
    requires Generator(g) && |b| <= k == |g| - 1
    ensures Reg(g, Padded(b, k), b) == Zeros(k)
  {
    hide Generator, Reg, Padded, Shifted, Zeros;
    PaddedTake(b, k);
    RegDrains(g, Padded(b, k), |b|);
    assert Shifted(Padded(b, k), |b|) == Zeros(k);
  }

  lemma PaddedTake(e: seq<bool>, k: nat)
    requires |e| <= k
    ensures Padded(e, k)[..|e|] == e
  {
  }

  lemma XorNone(a: Poly)
    ensures Xor(a, Zeros(|a|)) == a
  {
  }

  // ---- the loops ----

  /** onewire_crc8: the message bit is mixed with bit 0 of the register. */
  method OnewireCrc8(data: seq<byte>, len: nat) returns (crc: Poly)
    requires len <= |data|
    ensures crc == Crc8Of(data[..len])
  {
    hide Reg, Step, Xor, Crc, BitsOf, ByteBits, Shifted, Zeros;
    crc := Zeros(8);
    EmptyCrc(G8, data);
    for i := 0 to len
      invariant |crc| == 8 && crc == Crc(G8, BitsOf(data[..i]))
    {
      ghost var before := crc;
      var bits := ByteBits(data[i]);
      var inByte := bits;
      assert bits[..0] == [];
      RegEmpty(G8, before);
      for b := 0 to 8
        invariant |crc| == |inByte| == 8
        invariant crc == Reg(G8, before, bits[..b])
        invariant inByte == Shifted(bits, b)
      {
        var mix := crc[0] != inByte[0];
        StepByWords(G8, crc, bits[b]);
        RegStepTake(G8, before, bits, b);
        crc := ShiftRight(crc);
        if mix {
          crc := Xor(crc, POLY8);
        }
        ShiftOne(bits, b);
        inByte := ShiftRight(inByte);
      }
      assert bits[..8] == bits;
      RegByteTake(G8, data[..len], i);
      assert data[..len][..i] == data[..i] && data[..len][..i + 1] == data[..i + 1];
    }
  }

  /** The viewer's CRC-8: the whole byte is added first, then shifted out. */
  method ViewerCrc8(bytes: seq<byte>) returns (crc: Poly)
    ensures crc == Crc8Of(bytes)
  {
    crc := XorFirstCrc(G8, POLY8, bytes, |bytes|);
    assert bytes[..|bytes|] == bytes;
  }

  /** onewire_crc16. */
  method OnewireCrc16(data: seq<byte>, len: nat) returns (crc: Poly)
    requires len <= |data|
    ensures crc == Crc16Of(data[..len])
  {
    crc := XorFirstCrc(G16, POLY16, data, len);
  }

  /** The loop that onewire_crc16 and both viewer functions share. */
  method XorFirstCrc(g: Poly, poly: Poly, data: seq<byte>, len: nat) returns (crc: Poly)
    requires Generator(g) && |g| >= 9 && poly == g[1..] && len <= |data|
    ensures crc == Crc(g, BitsOf(data[..len]))
  {
    hide Reg, Step, Xor, Crc, BitsOf, ByteBits, Zeros;
    crc := Zeros(|g| - 1);
    EmptyCrc(g, data);
    for i := 0 to len
      invariant |crc| == |g| - 1 && crc == Crc(g, BitsOf(data[..i]))
    {
      ghost var before := crc;
      crc := Xor(crc, Padded(ByteBits(data[i]), |crc|));
      ghost var mixed := crc;
      RegEmpty(g, mixed);
      assert Zeros(8)[..0] == [];
      for b := 0 to 8
        invariant |crc| == |g| - 1 && crc == Reg(g, mixed, Zeros(8)[..b])
      {
        StepByWords(g, crc, false);
        RegStepTake(g, mixed, Zeros(8), b);
        crc := if crc[0] then Xor(ShiftRight(crc), poly) else ShiftRight(crc);
      }
      assert Zeros(8)[..8] == Zeros(8);
      ByteEntersAtOnce(g, before, ByteBits(data[i]));
      RegByteTake(g, data[..len], i);
      assert data[..len][..i] == data[..i] && data[..len][..i + 1] == data[..i + 1];
    }
  }

  // ---- what the check bytes are good for ----

  /** Appending the CRC-8 (below: the CRC-16, low byte first) makes the CRC zero, and
      no other check byte does. */
  lemma AppendedCrc8(bytes: seq<byte>, c: byte)
    ensures Crc8Of(bytes + [c]) == Zeros(8) <==> ByteBits(c) == Crc8Of(bytes)
  {
    hide Reg, ByteBits;
    BitsOfConcat(bytes, [c]);
    assert BitsOf([c]) == ByteBits(c);
    CheckAcceptsOnlyCrc(G8, BitsOf(bytes), ByteBits(c));
  }

  lemma AppendedCrc16(bytes: seq<byte>, lo: byte, hi: byte)
    ensures Crc16Of(bytes + [lo, hi]) == Zeros(16) <==> ByteBits(lo) + ByteBits(hi) == Crc16Of(bytes)
  {
    hide Reg, ByteBits;
    BitsOfConcat(bytes, [lo, hi]);
    assert [lo, hi][..1] == [lo];
    assert BitsOf([lo]) == ByteBits(lo);
    assert BitsOf([lo, hi]) == ByteBits(lo) + ByteBits(hi);
    CheckAcceptsOnlyCrc(G16, BitsOf(bytes), ByteBits(lo) + ByteBits(hi));
  }
}
