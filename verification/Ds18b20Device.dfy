/** DS18B20s as seen from the bus, with the command codes, registers and times of their data sheet, and
    the wired AND of what they transmit. */
module Ds18b20Device {
  import opened Bits
  import opened CrcLoops

  /** What a conversion measures (`ambient`, in sixteenths of a degree) and what the last one left
      behind, the alarm and configuration registers and their EEPROM copies, a conversion under way,
      and the supply. */
  datatype Thermo = Thermo(rom: seq<byte>, ambient: int, reading: int, th: byte, tl: byte, config: byte,
                           saved: (byte, byte, byte), converting: bool, external: bool)

  predicate ThermoOk(t: Thermo) {
    && |t.rom| == 8 && -32768 <= t.ambient < 32768 && -32768 <= t.reading < 32768
    && t.config % 32 == 31 && t.config < 128
  }

  /** Bits 5 and 6 of the configuration register select the resolution; the others are fixed. */
  function Configured(b: byte): (c: byte)
    ensures c % 32 == 31 && c < 128
  {
    b / 32 % 4 * 32 + 31
  }

  /** The conversion time in microseconds at 9, 10, 11 and 12 bit. */
  function ConversionTime(config: byte): nat {
    [93750, 187500, 375000, 750000][config / 32 % 4]
  }

  /** The eight register bytes and their CRC. */
  function Scratchpad(t: Thermo): (s: seq<byte>)
    ensures |s| == 9
    ensures s[..8] == Registers(t) && ByteBits(s[8]) == Crc8Of(s[..8])
  {
    hide Crc8Of, ByteBits;
    WithCrc(Registers(t), ByteOf(Crc8Of(Registers(t))));
    Registers(t) + [ByteOf(Crc8Of(Registers(t)))]
  }

  function Registers(t: Thermo): (r: seq<byte>)
    ensures |r| == 8
  {
    var w := (t.reading + 65536) % 65536;
    [w % 256, w / 256, t.th, t.tl, t.config, 0xFF, 0x0C, 0x10]
  }

  lemma WithCrc(r: seq<byte>, c: byte)
    requires |r| == 8
    ensures (r + [c])[..8] == r && (r + [c])[8] == c
  {
  }

  /** What follows the addressing, when the device is addressed: Skip ROM, or Match ROM with its code. */
  function Body(t: Thermo, bytes: seq<byte>): seq<byte>
    requires |t.rom| == 8
  {
    if |bytes| >= 1 && bytes[0] == 0xCC then bytes[1..]
    else if |bytes| >= 9 && bytes[0] == 0x55 && bytes[1..9] == t.rom then bytes[9..]
    else []
  }

  /** The device after a command write, and the bytes it will transmit. */
  function Hear(t: Thermo, bytes: seq<byte>): (r: (Thermo, seq<byte>))
    requires ThermoOk(t)
    ensures ThermoOk(r.0)
  {
    if bytes == [0x33] then (t, t.rom)
    else
      var b := Body(t, bytes);
      if b == [0x44] then (t.(converting := true), [])
      else if b == [0xBE] then (t, Scratchpad(t))
      else if |b| == 4 && b[0] == 0x4E then (t.(th := b[1], tl := b[2], config := Configured(b[3])), [])
      else if b == [0x48] then (t.(saved := (t.th, t.tl, t.config)), [])
      else if b == [0xB8] then (t.(th := t.saved.0, tl := t.saved.1, config := Configured(t.saved.2)), [])
      else if b == [0xB4] then (t, [if t.external then 0xFF else 0])
      else (t, [])
  }

  /** The bus is left alone for a while: a conversion that takes no longer has ended. */
  function Rest(t: Thermo, us: nat): (t': Thermo)
    requires ThermoOk(t)
    ensures ThermoOk(t')
  {
    if t.converting && ConversionTime(t.config) <= us then t.(reading := t.ambient, converting := false) else t
  }

  // ---- all devices ----

  predicate AllOk(ts: seq<Thermo>) {
    forall t | t in ts :: ThermoOk(t)
  }

  function AllHear(ts: seq<Thermo>, bytes: seq<byte>): (r: seq<Thermo>)
    requires AllOk(ts)
    ensures |r| == |ts| && AllOk(r) && forall i | 0 <= i < |ts| :: r[i] == Hear(ts[i], bytes).0
  {
    seq(|ts|, i requires 0 <= i < |ts| => Hear(ts[i], bytes).0)
  }

  function Replies(ts: seq<Thermo>, bytes: seq<byte>): (r: seq<seq<byte>>)
    requires AllOk(ts)
    ensures |r| == |ts| && forall i | 0 <= i < |ts| :: r[i] == Hear(ts[i], bytes).1
  {
    seq(|ts|, i requires 0 <= i < |ts| => Hear(ts[i], bytes).1)
  }

  function AllRest(ts: seq<Thermo>, us: nat): (r: seq<Thermo>)
    requires AllOk(ts)
    ensures |r| == |ts| && AllOk(r) && forall i | 0 <= i < |ts| :: r[i] == Rest(ts[i], us)
  {
    seq(|ts|, i requires 0 <= i < |ts| => Rest(ts[i], us))
  }

  /** Nobody transmits. */
  function Silence(n: nat): seq<seq<byte>> {
    seq(n, _ => [])
  }

  /** The level of read slot k: high unless a device sends a 0. */
  predicate WireBit(txs: seq<seq<byte>>, k: nat) {
    forall i | 0 <= i < |txs| :: k < 8 * |txs[i]| ==> BitsOf(txs[i])[k]
  }

  /** What n bytes of read slots return. */
  function Wire(txs: seq<seq<byte>>, n: nat): (b: seq<bool>)
    ensures |b| == 8 * n
  {
    seq(8 * n, k requires 0 <= k < 8 * n => WireBit(txs, k))
  }

  /** One device transmits, the others are silent: its bytes arrive. */
  lemma OneTransmits(txs: seq<seq<byte>>, i: nat)
    requires i < |txs| && forall j | 0 <= j < |txs| && j != i :: txs[j] == []
    ensures Wire(txs, |txs[i]|) == BitsOf(txs[i])
  {
    hide BitsOf;
  }

  /** Nobody transmits: ones arrive. */
  lemma NobodyTransmits(txs: seq<seq<byte>>, n: nat, k: nat)
    requires k < 8 * n && forall j | 0 <= j < |txs| :: txs[j] == []
    ensures Wire(txs, n)[k]
  {
    hide BitsOf;
  }
}
