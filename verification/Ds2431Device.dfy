/** The DS2431 memory as seen from the bus: the device side of the protocol, with the command codes of
    its data sheet. */
module Ds2431Device {
  import opened Bits
  import opened Gf2Crc
  import opened CrcLoops
  import opened PulseCodec
  import opened Ds2431

  /** Registers TA1, TA2 and E/S, the scratchpad, the EEPROM, and the blocks that are
      write protected. */
  datatype Device = Device(rom: seq<byte>, ta1: byte, ta2: byte, es: byte,
                           scratch: seq<byte>, mem: seq<byte>, locked: set<nat>)

  predicate DeviceOk(d: Device) {
    |d.rom| == 8 && |d.scratch| == 8 && |d.mem| == 128
  }

  /** PF, bit 5 of E/S: the scratchpad was not filled to its end. */
  predicate PartialFlag(es: byte) {
    (es / 32) % 2 == 1
  }

  /** Write Scratchpad: latch the address, store the data from offset T[2:0], record the
      end offset, and flag a block that was not filled to its last byte. */
  function WriteScratch(d: Device, a1: byte, a2: byte, data: seq<byte>): (d': Device)
    requires DeviceOk(d) && |data| > 0
    ensures DeviceOk(d')
  {
    var t := a1 % 8;
    var k := Min(|data|, 8 - t);
    d.(ta1 := a1, ta2 := a2, scratch := d.scratch[..t] + data[..k] + d.scratch[t + k..],
       es := t + k - 1 + if t + k < 8 then 32 else 0)
  }

  /** Low byte, high byte of the inverted CRC. */
  function CrcBytes(bytes: seq<byte>): (b: seq<byte>)
    ensures |b| == 2
    ensures forall i | 0 <= i < 8 :: ByteBits(b[0])[i] != Crc16Of(bytes)[i]
    ensures forall i | 0 <= i < 8 :: ByteBits(b[1])[i] != Crc16Of(bytes)[8 + i]
    ensures ByteBits(b[0]) + ByteBits(b[1]) == Complement(Crc16Of(bytes))
  {
    hide ByteBits, Crc16Of, Complement;
    var r := Complement(Crc16Of(bytes));
    assert r == r[..8] + r[8..];
    [ByteOf(r[..8]), ByteOf(r[8..])]
  }

  function Window(d: Device): (w: seq<byte>)
    requires DeviceOk(d)
    ensures |w| <= 8
  {
    if d.ta1 % 8 <= d.es % 8 then d.scratch[d.ta1 % 8..d.es % 8 + 1] else []
  }

  /** Read Scratchpad: header, the window the registers describe, and its CRC. */
  function ScratchReply(d: Device): (r: seq<byte>)
    requires DeviceOk(d)
    ensures |r| == 5 + |Window(d)|
  {
    var frame := [d.ta1, d.ta2, d.es] + Window(d);
    frame + CrcBytes([0xAA] + frame)
  }

  /** Copy Scratchpad is honoured only for the exact register contents, a complete
      scratchpad, and an unprotected block of the EEPROM. */
  predicate Authorized(d: Device, a1: byte, a2: byte, e: byte) {
    && d.ta1 == a1 && d.ta2 == a2 && d.es == e
    && !PartialFlag(e) && a2 == 0 && a1 < 128 && a1 / 8 !in d.locked
  }

  function Program(d: Device): (d': Device)
    requires DeviceOk(d) && d.ta1 < 128
    ensures DeviceOk(d') && d'.rom == d.rom && d'.locked == d.locked
  {
    var at := d.ta1 / 8 * 8;
    d.(mem := d.mem[..at] + d.scratch + d.mem[at + 8..], es := d.es % 128 + 128)
  }

  /** What follows the addressing prefix, when the device is addressed. */
  function Body(d: Device, bytes: seq<byte>): Option<seq<byte>>
    requires |d.rom| == 8
  {
    if |bytes| >= 1 && bytes[0] == 0xCC then Some(bytes[1..])
    else if |bytes| >= 9 && bytes[0] == 0x55 && bytes[1..9] == d.rom then Some(bytes[9..])
    else None
  }

  /** The device after a command write, and the bytes it will transmit. */
  function Hear(d: Device, bytes: seq<byte>): (r: (Device, seq<byte>))
    requires DeviceOk(d)
    ensures DeviceOk(r.0)
  {
    match Body(d, bytes)
    case None => (d, [])
    case Some(b) =>
      if |b| >= 4 && b[0] == 0x0F then (WriteScratch(d, b[1], b[2], b[3..]), [])
      else if |b| >= 1 && b[0] == 0xAA then (d, ScratchReply(d))
      else if |b| >= 4 && b[0] == 0x55 then
        if Authorized(d, b[1], b[2], b[3]) then (Program(d), [0xAA]) else (d, [])
      else if |b| >= 3 && b[0] == 0xF0 && b[2] == 0 && b[1] < 128 then (d, d.mem[b[1]..])
      else (d, [])
  }

  /** The first n bytes read back: what the device transmits, then logic 1. */
  function Clocked(tx: seq<byte>, n: nat): (r: seq<byte>)
    ensures |r| == n
  {
    seq(n, i requires 0 <= i < n => if i < |tx| then tx[i] else 0xFF)
  }

  // ---- how the driver reads the reply ----

  /** The reply length the driver computes is the device's window, and the CRC it checks
      covers exactly what the device sent. */
  lemma ReplyIsWellFormed(d: Device)
    requires DeviceOk(d)
    ensures var f := Clocked(ScratchReply(d), FRAME_CRC); var n := DataLen(f);
            && n == |Window(d)| && (n > 0 <==> d.ta1 % 8 <= d.es % 8)
            && f[0] == d.ta1 && f[1] == d.ta2 && f[2] == d.es
            && f[3..3 + n] == Window(d) && FrameCrcOk(f, n)
  {
    hide CrcBytes, Complement, Crc16Of, ByteBits;
    var f := Clocked(ScratchReply(d), FRAME_CRC);
    var w := Window(d);
    var n := |w|;
    var frame := [d.ta1, d.ta2, d.es] + w;
    assert f[..3 + n] == frame;
    assert f[3 + n] == ScratchReply(d)[3 + n] && f[4 + n] == ScratchReply(d)[4 + n];
    assert f[3..3 + n] == w;
  }

  /** The registers hold what the driver sent: address, end offset, complete flag, and
      the payload up to the end offset. The two remaining E/S bits the driver does not
      look at are the authorisation flag and the reserved ones. */
  predicate Holds(d: Device, c: Ctx)
    requires |d.scratch| == 8 && |c.payload| == 8
  {
    && d.ta1 == c.addrLo && d.ta2 == c.addrHi && d.es % 8 == c.es && !PartialFlag(d.es)
    && d.scratch[..d.es % 8 + 1] == c.payload[..d.es % 8 + 1]
  }

  lemma VerifyExact(d: Device, c: Ctx)
    requires DeviceOk(d) && |c.payload| == 8 && c.addrLo % 8 == 0
    requires c.command == READ_SCRATCHPAD && c.flags.echo && c.flags.pending
    ensures ReadSucceeds(c, Clocked(ScratchReply(d), FRAME_CRC)) <==> Holds(d, c)
  {
    hide FrameCrcOk, ScratchReply, Clocked;
    ReplyIsWellFormed(d);
  }

  /** Nobody transmits: the all-ones reply never verifies a write. */
  lemma SilenceFails(c: Ctx)
    requires |c.payload| == 8 && c.addrLo % 8 == 0
    requires c.command == READ_SCRATCHPAD && c.flags.echo && c.flags.pending
    ensures !ReadSucceeds(c, Clocked([], FRAME_CRC))
  {
    hide FrameCrcOk;
  }

  // ---- corrupted replies ----

  /** y is x with the bits under `burst` flipped, at least one of them. */
  ghost predicate HitBy(x: seq<bool>, y: seq<bool>, before: nat, burst: seq<bool>, after: nat) {
    && |x| == before + |burst| + after
    && (exists i | 0 <= i < |burst| :: burst[i])
    && y == Xor(x, Zeros(before) + burst + Zeros(after))
  }

  /** A burst of up to 16 bit errors in the data or CRC bytes of a reply, header intact,
      is always rejected by the driver's CRC check. */
  lemma CorruptReplyRejected(d: Device, f: seq<byte>, before: nat, burst: seq<bool>, after: nat)
    requires DeviceOk(d) && |f| == FRAME_CRC && Window(d) != [] && |burst| <= 16
    requires var g, n := Clocked(ScratchReply(d), FRAME_CRC), |Window(d)|;
             f[..3] == g[..3] && HitBy(BitsOf(g[3..5 + n]), BitsOf(f[3..5 + n]), before, burst, after)
    ensures DataLen(f) == |Window(d)| && !FrameCrcOk(f, DataLen(f))
  {
    hide Reg, Crc, ByteBits, BitsOf, ScratchReply, Clocked, Xor, Zeros;
    var g := Clocked(ScratchReply(d), FRAME_CRC);
    var n := |Window(d)|;
    ReplyIsWellFormed(d);
    assert f[0] == f[..3][0] && f[2] == f[..3][2];
    assert g[0] == g[..3][0] && g[2] == g[..3][2];
    FrameCrcIsCodeword(g, n);
    FrameCrcIsCodeword(f, n);
    var h := BitsOf([READ_SCRATCHPAD] + f[..3]);
    var e := Zeros(before) + burst + Zeros(after);
    var ones := Zeros(8 * n) + Complement(Zeros(16));
    var pad := |h| + before;
    BurstDetected(G16, h + Xor(BitsOf(g[3..5 + n]), ones), pad, burst, after);
    XorUnderPrefix(h, BitsOf(g[3..5 + n]), ones, before, burst, after);
  }

  /** The check passes exactly when command, header, data and the re-inverted check
      bytes form a multiple of the generator. */
  lemma FrameCrcIsCodeword(f: seq<byte>, n: nat)
    requires |f| == FRAME_CRC && n <= 8
    ensures FrameCrcOk(f, n) <==>
            Crc(G16, BitsOf([READ_SCRATCHPAD] + f[..3])
                     + Xor(BitsOf(f[3..5 + n]), Zeros(8 * n) + Complement(Zeros(16)))) == Zeros(16)
  {
    hide Reg, Crc, ByteBits, BitsOf, Zeros, Xor, Complement;
    var m := [READ_SCRATCHPAD] + f[..3 + n];
    var check := ByteBits(f[3 + n]) + ByteBits(f[4 + n]);
    FrameSplits(f, n);
    CheckAcceptsOnlyCrc(G16, BitsOf(m), Complement(check));
    ComplementSwaps(check, Crc16Of(m));
  }

  lemma ComplementSwaps(a: Poly, b: Poly)
    requires |a| == |b|
    ensures a == Complement(b) <==> Complement(a) == b
  {
    if a == Complement(b) {
      assert Complement(a) == b;
    }
    if Complement(a) == b {
      assert a == Complement(b);
    }
  }

  lemma FrameSplits(f: seq<byte>, n: nat)
    requires |f| == FRAME_CRC && n <= 8
    ensures BitsOf([READ_SCRATCHPAD] + f[..3])
            + Xor(BitsOf(f[3..5 + n]), Zeros(8 * n) + Complement(Zeros(16)))
            == BitsOf([READ_SCRATCHPAD] + f[..3 + n]) + Complement(ByteBits(f[3 + n]) + ByteBits(f[4 + n]))
  {
    hide ByteBits, BitsOf;
    var hd := [READ_SCRATCHPAD] + f[..3];
    var data := f[3..3 + n];
    assert [READ_SCRATCHPAD] + f[..3 + n] == hd + data;
    BitsOfConcat(hd, data);
    assert f[3..5 + n] == data + [f[3 + n]] + [f[4 + n]];
    BitsOfAppend(data, f[3 + n]);
    BitsOfAppend(data + [f[3 + n]], f[4 + n]);
    var x, y := BitsOf(data), ByteBits(f[3 + n]) + ByteBits(f[4 + n]);
    assert BitsOf(f[3..5 + n]) == x + y;
    assert Xor(x + y, Zeros(8 * n) + Complement(Zeros(16))) == x + Complement(y);
  }

  lemma XorUnderPrefix(h: seq<bool>, g: seq<bool>, ones: seq<bool>, before: nat, burst: seq<bool>, after: nat)
    requires |g| == |ones| == before + |burst| + after
    ensures var e := Zeros(before) + burst + Zeros(after);
            h + Xor(Xor(g, e), ones) == Xor(h + Xor(g, ones), Zeros(|h| + before) + burst + Zeros(after))
  {
  }
}
