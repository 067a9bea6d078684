/** The non-blocking DS2431 EEPROM driver: reset, command write, then a read or a timed
    wait, one hardware operation per poll. */
module Ds2431 {
  import opened Bits
  import opened Gf2Crc
  import opened CrcLoops
  import opened PulseCodec

  const READ_MEMORY: byte := 0xF0
  const WRITE_SCRATCHPAD: byte := 0x0F
  const READ_SCRATCHPAD: byte := 0xAA
  const COPY_SCRATCHPAD: byte := 0x55
  const COPY_STATUS_OK: byte := 0xAA
  const EEPROM_SIZE := 128
  const SCRATCH_SIZE := 8
  const READ_PASS := 8
  const FRAME := 11
  const FRAME_CRC := 13
  const CMD_SLOTS := 160
  const TPROG_US := 11000

  datatype Phase = PhReset | PhCmd | PhRead | PhWait | PhDone | PhIdle

  /** The hardware operation the driver armed last. */
  datatype BusOp = NoOp | ResetOp | WriteOp(slots: nat) | ReadOp(bytes: nat) | WaitOp(us: nat)

  /** The flag byte. */
  datatype Flags = Flags(addressMode: bool, parasite: bool, ok: bool, finished: bool, pending: bool, echo: bool)

  /** The driver context, the capture/command union u, and
      the state of the bus layer (armed operation, strong pull-up). */
  datatype Ctx = Ctx(
    phase: Phase, flags: Flags, command: byte, addrLo: byte, addrHi: byte, len: nat, plen: nat, es: byte,
    payload: seq<byte>, rom: seq<byte>, raw: seq<byte>, u: seq<byte>, armed: BusOp, pullup: bool)

  predicate Sized(c: Ctx) {
    && |c.payload| == SCRATCH_SIZE && |c.rom| == 8 && |c.raw| == FRAME_CRC && |c.u| == CMD_SLOTS + 1
    && c.len <= FRAME_CRC && c.plen <= SCRATCH_SIZE
  }

  // ---- frames ----

  /** ds2431_scratchpad_data_len: E[2:0] - T[2:0] + 1, or 0 for an invalid window. */
  function DataLen(frame: seq<byte>): (n: nat)
    requires |frame| >= 3
    ensures n <= 8
  {
    var last, first := frame[2] % 8 + 1, frame[0] % 8;
    if last <= first then 0 else last - first
  }

  function Complement(r: Poly): (c: Poly)
    ensures |c| == |r| && forall i | 0 <= i < |r| :: c[i] != r[i]
  {
    seq(|r|, i requires 0 <= i < |r| => !r[i])
  }

  /** ds2431_scratchpad_crc_ok: the two bytes after the data are the complement of the
      CRC-16 of command, header and data, low byte first. */
  predicate FrameCrcOk(frame: seq<byte>, n: nat)
    requires 5 + n <= |frame|
  {
    ByteBits(frame[3 + n]) + ByteBits(frame[4 + n]) == Complement(Crc16Of([READ_SCRATCHPAD] + frame[..3 + n]))
  }

  /** The read-back checks of a verify read, in the order the driver makes them. */
  predicate FrameMatches(c: Ctx, frame: seq<byte>, n: nat)
    requires |frame| == FRAME_CRC && n <= 8 == |c.payload|
  {
    && frame[0] == c.addrLo && frame[1] == c.addrHi && frame[2] % 8 == c.es
    && (frame[2] / 32) % 2 == 0
    && frame[3..3 + n] == c.payload[..n]
  }

  // ---- commands ----

  function Prefix(c: Ctx): (p: seq<byte>)
    requires |c.rom| == 8
    ensures |p| <= 9
  {
    if c.flags.addressMode then [MATCH_ROM] + c.rom else [SKIP_ROM]
  }

  /** The bytes of the command write. */
  function CommandBytes(c: Ctx): (b: seq<byte>)
    requires |c.rom| == 8 && c.plen <= |c.payload| == 8
    ensures 1 <= |b| <= 20
  {
    Prefix(c) + [c.command]
    + (if c.command != READ_SCRATCHPAD then [c.addrLo, c.addrHi] else [])
    + (if c.command == COPY_SCRATCHPAD then [c.es] else c.payload[..c.plen])
  }

  // ---- specification of the calls ----

  predicate CanStart(c: Ctx, searching: bool) {
    (c.phase == PhIdle || c.phase == PhDone) && !searching
  }

  function StartSpec(c: Ctx, command: byte, searching: bool): Ctx {
    if !CanStart(c, searching) then c
    else c.(command := command, phase := PhReset, flags := c.flags.(ok := false, finished := false, echo := false),
            pullup := false, armed := ResetOp)
  }

  function ReadMemorySpec(c: Ctx, addr: nat, len: nat, searching: bool): Ctx {
    if len < 1 || len > READ_PASS || addr >= EEPROM_SIZE || addr + len > EEPROM_SIZE then c
    else StartSpec(c.(addrLo := addr % 256, addrHi := addr / 256, len := len, plen := 0), READ_MEMORY, searching)
  }

  predicate WriteAccepted(c: Ctx, addr: nat, len: nat, searching: bool) {
    1 <= len <= SCRATCH_SIZE && addr < EEPROM_SIZE && addr + len <= EEPROM_SIZE && addr % 8 == 0
    && CanStart(c, searching)
  }

  function WriteScratchpadSpec(c: Ctx, addr: nat, data: seq<byte>, searching: bool): Ctx
    requires |c.payload| == 8
  {
    if !WriteAccepted(c, addr, |data|, searching) then c
    else
      var d := StartSpec(c, WRITE_SCRATCHPAD, searching);
      d.(addrLo := addr % 256, addrHi := addr / 256, es := (addr + |data| - 1) % 8, len := 0,
         plen := |data|, payload := data + c.payload[|data|..], flags := d.flags.(pending := true))
  }

  function ReadScratchpadSpec(c: Ctx, searching: bool): Ctx {
    var d := StartSpec(c.(len := FRAME_CRC, plen := 0), READ_SCRATCHPAD, searching);
    d.(flags := d.flags.(echo := true))
  }

  function CopyScratchpadSpec(c: Ctx, searching: bool): Ctx {
    if !c.flags.pending then c else StartSpec(c.(len := 1, plen := 0), COPY_SCRATCHPAD, searching)
  }

  function SelectSpec(c: Ctx, rom: Option<seq<byte>>, searching: bool): Ctx {
    if !CanStart(c, searching) then c
    else if rom.None? then c.(flags := c.flags.(addressMode := false, pending := false))
    else c.(rom := rom.value, flags := c.flags.(addressMode := true, pending := false))
  }

  // ---- specification of a poll ----

  predicate CapturedPresence(u: seq<byte>, captured: nat)
    requires |u| >= 4
  {
    var w: seq<int> := u;
    Present(captured, w[0] + 256 * w[1], w[2] + 256 * w[3])
  }

  function ResetDone(c: Ctx, captured: nat): (c': Ctx)
    requires Sized(c)
    ensures Sized(c')
  {
    hide CapturedPresence, Encoded, CommandBytes;
    if !CapturedPresence(c.u, captured) then c.(phase := PhDone)
    else
      var table := Encoded(CommandBytes(c)) + [RELEASE_PULSE];
      c.(u := Overwrite(c.u, table), armed := WriteOp(|table| - 1), phase := PhCmd,
         pullup := c.pullup || c.flags.parasite)
  }

  function CmdDone(c: Ctx): (c': Ctx)
    ensures Sized(c) ==> Sized(c')
  {
    if c.command == COPY_SCRATCHPAD then c.(armed := WaitOp(TPROG_US), phase := PhWait)
    else
      var d := c.(pullup := c.pullup && !c.flags.parasite);
      if c.len > 0 then d.(armed := ReadOp(c.len), phase := PhRead)
      else d.(phase := PhDone, flags := d.flags.(ok := true))
  }

  function ReadDone(c: Ctx): (c': Ctx)
    requires Sized(c)
    ensures Sized(c')
  {
    hide ReadSucceeds, Decoded;
    var raw := Overwrite(c.raw, Decoded(c.u[..8 * c.len]));
    c.(raw := raw, phase := PhDone, flags := c.flags.(ok := c.flags.ok || ReadSucceeds(c, raw)))
  }

  predicate ReadSucceeds(c: Ctx, raw: seq<byte>)
    requires |raw| == FRAME_CRC && |c.payload| == 8
  {
    if c.command == COPY_SCRATCHPAD then raw[0] == COPY_STATUS_OK
    else if c.command == READ_SCRATCHPAD then
      var n := DataLen(raw);
      n > 0 && FrameCrcOk(raw, n) && (c.flags.echo && c.flags.pending ==> FrameMatches(c, raw, n))
    else true
  }

  function WaitDone(c: Ctx): (c': Ctx)
    ensures Sized(c) ==> Sized(c')
  {
    c.(pullup := false, armed := ReadOp(c.len), phase := PhRead)
  }

  /** One poll. When the armed operation has completed, the capture DMA has stored
      `capture` at the start of the union. */
  function PollSpec(c: Ctx, done: bool, captured: nat, capture: seq<byte>): (c': Ctx)
    requires Sized(c) && |capture| <= |c.u|
    ensures Sized(c')
  {
    hide ResetDone, CmdDone, ReadDone, WaitDone;
    if c.flags.finished then c
    else if c.phase == PhDone then c.(flags := c.flags.(finished := true))
    else if !done then c
    else
      var d := c.(u := Overwrite(c.u, capture));
      match c.phase
      case PhReset => ResetDone(d, captured)
      case PhCmd => CmdDone(d)
      case PhRead => ReadDone(d)
      case PhWait => WaitDone(d)
      case _ => d
  }

  /** What ds2431_read_scratchpad_poll hands to the caller's buffer. */
  function ScratchpadResult(c: Ctx): (r: seq<byte>)
    requires Sized(c)
    ensures |r| == FRAME
  {
    var valid := 3 + DataLen(c.raw);
    seq(FRAME, i requires 0 <= i < FRAME => if i < valid then c.raw[i] else 0)
  }

  /** What ds2431_read_memory_poll hands to the caller's buffer: as many bytes as are latched. */
  function MemoryResult(c: Ctx): (r: seq<byte>)
    requires Sized(c)
    ensures |r| == c.len
  {
    c.raw[..c.len]
  }
}
