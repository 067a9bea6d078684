/** End-to-end storage integrity: the driver and the device over whole operations. */
module Ds2431Proof {
  import opened Bits
  import opened PulseCodec
  import opened Ds2431
  import opened Ds2431Device

  /** The driver, the device, the bytes the device is ready to transmit, and whether the
      reset of the current operation saw a presence pulse. */
  datatype Sys = Sys(c: Ctx, dev: Device, tx: seq<byte>, present: bool)

  /** One poll: the completion flag, the captured edges, what the capture DMA stored, and
      the device a possibly corrupted Write Scratchpad leaves behind. */
  datatype Input = Input(done: bool, captured: nat, capture: seq<byte>, after: Device)

  predicate SysOk(y: Sys) {
    Sized(y.c) && DeviceOk(y.dev)
  }

  /** A poll that finds a completed operation. */
  predicate Completes(y: Sys, i: Input) {
    i.done && !y.c.flags.finished && y.c.phase != PhDone
  }

  predicate WritesScratchpad(y: Sys) {
    y.c.armed.WriteOp? && y.c.command == WRITE_SCRATCHPAD
  }

  function Heard(y: Sys): (r: (Device, seq<byte>))
    requires SysOk(y)
    ensures DeviceOk(r.0)
  {
    if y.c.armed.WriteOp? && 8 <= y.c.armed.slots <= CMD_SLOTS && y.c.armed.slots % 8 == 0
    then Hear(y.dev, Decoded(y.c.u[..y.c.armed.slots])) else (y.dev, [])
  }

  /** The inputs the environment may supply. Replies travel faithfully: their pulses read
      as the transmitted bits. Only a Write Scratchpad may be damaged on the way: it can
      leave any registers and scratchpad behind, but it does not program the EEPROM. */
  predicate Honest(y: Sys, i: Input)
    requires SysOk(y)
  {
    Completes(y, i) ==>
      match y.c.armed
      case ResetOp => |i.capture| == 4
      case WriteOp(_) =>
        && i.capture == []
        && (WritesScratchpad(y) ==>
              && DeviceOk(i.after) && i.after.mem == y.dev.mem && i.after.locked == y.dev.locked
              && i.after.rom == y.dev.rom)
      case ReadOp(n) => n <= FRAME_CRC && |i.capture| == 8 * n && PulseBits(i.capture) == BitsOf(Clocked(y.tx, n))
      case _ => i.capture == []
  }

  /** The two edges of a presence pulse, low bytes first, in microseconds from the reset: its release
      and the end of the pulse, each in its window. */
  predicate Seen(captured: nat, capture: seq<byte>)
    requires |capture| == 4
  {
    var w: seq<int> := capture;
    captured == 2 && 480 <= w[0] + 256 * w[1] <= 540 && 555 <= w[2] + 256 * w[3] <= 840
  }

  /** Resets are answered or not, commands are heard, and a copy takes up to 10 ms to be programmed:
      who asks for its status earlier gets no answer. */
  function Next(y: Sys, i: Input): (y': Sys)
    requires SysOk(y) && Honest(y, i)
    ensures SysOk(y')
  {
    if !Completes(y, i) then y.(c := PollSpec(y.c, false, 0, []))
    else
      var c := PollSpec(y.c, true, i.captured, i.capture);
      match y.c.armed
      case ResetOp => y.(c := c, tx := [], present := Seen(i.captured, i.capture))
      case WriteOp(_) =>
        if WritesScratchpad(y) then y.(c := c, dev := i.after, tx := [])
        else y.(c := c, dev := Heard(y).0, tx := Heard(y).1)
      case WaitOp(us) => y.(c := c, tx := if us >= 10000 then y.tx else [])
      case _ => y.(c := c)
  }

  lemma SeenIs(u: seq<byte>, captured: nat, capture: seq<byte>)
    requires |capture| == 4 && |u| >= 4
    ensures CapturedPresence(Overwrite(u, capture), captured) == Seen(captured, capture)
  {
  }

  predicate HonestRun(y: Sys, inputs: seq<Input>)
    requires SysOk(y)
    decreases |inputs|
  {
    inputs == [] || (Honest(y, inputs[0]) && HonestRun(Next(y, inputs[0]), inputs[1..]))
  }

  function Run(y: Sys, inputs: seq<Input>): (y': Sys)
    requires SysOk(y) && HonestRun(y, inputs)
    ensures SysOk(y')
    decreases |inputs|
  {
    if inputs == [] then y else Run(Next(y, inputs[0]), inputs[1..])
  }

  // ---- one operation ----

  /** What an operation does not change in the driver. */
  predicate Kept(c: Ctx, d: Ctx) {
    && d.flags.addressMode == c.flags.addressMode && d.flags.pending == c.flags.pending
    && d.flags.echo == c.flags.echo && d.command == c.command
    && d.addrLo == c.addrLo && d.addrHi == c.addrHi && d.len == c.len && d.plen == c.plen && d.es == c.es
    && d.payload == c.payload && d.rom == c.rom
  }

  /** The device answers to this driver's addressing. */
  predicate Addressed(c: Ctx, d: Device) {
    !c.flags.addressMode || c.rom == d.rom
  }

  /** Selecting a ROM code addresses the device that has it, selecting none addresses any. */
  lemma SelectAddresses(c: Ctx, rom: Option<seq<byte>>, d: Device)
    requires CanStart(c, false)
    ensures var c' := SelectSpec(c, rom, false);
            (Addressed(c', d) <==> rom.None? || rom.value == d.rom) && !c'.flags.pending
  {
  }

  /** The device after the operation's command was heard, and its reply. */
  function Effect(c: Ctx, d: Device): (r: (Device, seq<byte>))
    requires Sized(c) && DeviceOk(d)
    ensures DeviceOk(r.0)
  {
    Hear(d, CommandBytes(c))
  }

  /** Success of an operation as seen from the reply. */
  predicate ReplyOk(c: Ctx, tx: seq<byte>)
    requires Sized(c)
  {
    var frame := Clocked(tx, c.len) + c.raw[c.len..];
    ReadSucceeds(c, frame)
  }

  /** Invariant of a reading operation (Read Scratchpad or Copy Scratchpad) started with
      context c0 on device d0. */
  predicate ReadInv(c0: Ctx, d0: Device, y: Sys): (holds: bool)
    requires Sized(c0) && DeviceOk(d0)
    ensures holds ==> SysOk(y)
  {
    && SysOk(y) && Kept(c0, y.c)
    && (y.c.flags.finished ==> y.c.phase == PhDone)
    && (y.c.phase != PhDone ==> !y.c.flags.ok && y.c.raw == c0.raw)
    && match y.c.phase
       case PhReset => y.c.armed == ResetOp && y.dev == d0
       case PhCmd =>
         && y.present && y.dev == d0 && y.c.armed == WriteOp(8 * |CommandBytes(c0)|)
         && y.c.u[..8 * |CommandBytes(c0)| + 1] == Encoded(CommandBytes(c0)) + [RELEASE_PULSE]
       case PhWait =>
         && y.present && y.c.armed == WaitOp(TPROG_US) && y.c.command == COPY_SCRATCHPAD
         && (y.dev, y.tx) == Effect(c0, d0)
       case PhRead => y.present && y.c.armed == ReadOp(c0.len) && (y.dev, y.tx) == Effect(c0, d0)
       case PhDone =>
         if y.present
         then
           && y.dev == Effect(c0, d0).0 && (y.c.flags.ok <==> ReplyOk(c0, Effect(c0, d0).1))
           && y.c.raw == Clocked(Effect(c0, d0).1, c0.len) + c0.raw[c0.len..]
         else y.dev == d0 && !y.c.flags.ok
       case PhIdle => false
  }

  lemma ReadPreserves(c0: Ctx, d0: Device, y: Sys, i: Input)
    requires Sized(c0) && DeviceOk(d0) && c0.len > 0 && c0.command != WRITE_SCRATCHPAD
    requires ReadInv(c0, d0, y) && Honest(y, i)
    ensures ReadInv(c0, d0, Next(y, i))
  {
    hide CapturedPresence, Effect, ReplyOk, ResetDone, CmdDone, ReadDone, WaitDone, CommandBytes, Encoded;
    if Completes(y, i) {
      match y.c.phase
      case PhReset => ReadAfterReset(c0, d0, y, i);
      case PhCmd => ReadAfterCommand(c0, d0, y, i);
      case PhRead => ReadAfterRead(c0, d0, y, i);
      case PhWait => ReadAfterWait(c0, d0, y, i);
    }
  }

  lemma ReadAfterReset(c0: Ctx, d0: Device, y: Sys, i: Input)
    requires Sized(c0) && DeviceOk(d0) && ReadInv(c0, d0, y) && Honest(y, i)
    requires Completes(y, i) && y.c.phase == PhReset
    ensures ReadInv(c0, d0, Next(y, i))
  {
    hide CapturedPresence, Seen, Effect, ReplyOk, CmdDone, ReadDone, WaitDone, CommandBytes, Encoded;
    SeenIs(y.c.u, i.captured, i.capture);
    KeptCommand(c0, y.c.(u := Overwrite(y.c.u, i.capture)));
  }

  lemma ReadAfterCommand(c0: Ctx, d0: Device, y: Sys, i: Input)
    requires Sized(c0) && DeviceOk(d0) && ReadInv(c0, d0, y) && Honest(y, i)
    requires c0.len > 0 && c0.command != WRITE_SCRATCHPAD
    requires Completes(y, i) && y.c.phase == PhCmd
    ensures ReadInv(c0, d0, Next(y, i))
  {
    hide CapturedPresence, Hear, ReplyOk, ResetDone, ReadDone, WaitDone, CommandBytes, Encoded, Decoded;
    TableHeard(c0, y.c.u);
  }

  lemma ReadAfterRead(c0: Ctx, d0: Device, y: Sys, i: Input)
    requires Sized(c0) && DeviceOk(d0) && ReadInv(c0, d0, y) && Honest(y, i)
    requires Completes(y, i) && y.c.phase == PhRead
    ensures ReadInv(c0, d0, Next(y, i))
  {
    hide CapturedPresence, Effect, ReadSucceeds, ResetDone, CmdDone, WaitDone, Decoded, PulseBits, BitsOf, Clocked;
    var sent := Clocked(y.tx, c0.len);
    RawAfterRead(y.c, i.capture, sent);
    KeptVerdict(c0, y.c.(u := Overwrite(y.c.u, i.capture)), sent + c0.raw[c0.len..]);
  }

  lemma ReadAfterWait(c0: Ctx, d0: Device, y: Sys, i: Input)
    requires Sized(c0) && DeviceOk(d0) && ReadInv(c0, d0, y) && Honest(y, i)
    requires Completes(y, i) && y.c.phase == PhWait
    ensures ReadInv(c0, d0, Next(y, i))
  {
    hide CapturedPresence, Effect, ReplyOk, ResetDone, CmdDone, ReadDone;
  }

  lemma KeptCommand(c: Ctx, d: Ctx)
    requires Sized(c) && Sized(d) && Kept(c, d)
    ensures CommandBytes(d) == CommandBytes(c)
  {
  }

  lemma KeptVerdict(c: Ctx, d: Ctx, frame: seq<byte>)
    requires Sized(c) && Sized(d) && Kept(c, d) && |frame| == FRAME_CRC
    ensures ReadSucceeds(c, frame) <==> ReadSucceeds(d, frame)
  {
    hide FrameCrcOk;
  }

  lemma TableHeard(c: Ctx, u: seq<byte>)
    requires Sized(c) && |u| == CMD_SLOTS + 1
    requires u[..8 * |CommandBytes(c)| + 1] == Encoded(CommandBytes(c)) + [RELEASE_PULSE]
    ensures Decoded(u[..8 * |CommandBytes(c)|]) == CommandBytes(c)
  {
    hide Encoded, Decoded, CommandBytes;
    var n := 8 * |CommandBytes(c)|;
    assert u[..n] == u[..n + 1][..n];
    DecodeEncoded(CommandBytes(c));
  }

  lemma RawAfterRead(c: Ctx, capture: seq<byte>, sent: seq<byte>)
    requires Sized(c) && |sent| == c.len && |capture| == 8 * c.len && PulseBits(capture) == BitsOf(sent)
    ensures Decoded(Overwrite(c.u, capture)[..8 * c.len]) == sent
    ensures Overwrite(c.raw, sent) == sent + c.raw[c.len..]
  {
    hide Decoded, PulseBits, BitsOf;
    assert Overwrite(c.u, capture)[..8 * c.len] == capture;
    DecodeFaithful(capture, sent);
  }

  lemma {:induction false} ReadRun(c0: Ctx, d0: Device, y: Sys, inputs: seq<Input>)
    requires Sized(c0) && DeviceOk(d0) && c0.len > 0 && c0.command != WRITE_SCRATCHPAD
    requires ReadInv(c0, d0, y) && HonestRun(y, inputs)
    ensures ReadInv(c0, d0, Run(y, inputs))
    decreases |inputs|
  {
    hide ReadInv, Next, Honest;
    if inputs != [] {
      ReadPreserves(c0, d0, y, inputs[0]);
      ReadRun(c0, d0, Next(y, inputs[0]), inputs[1..]);
    }
  }

  /** Invariant of a Write Scratchpad. Whatever happens on the way, the EEPROM stays. */
  predicate WriteInv(c0: Ctx, d0: Device, y: Sys): (holds: bool)
    requires Sized(c0) && DeviceOk(d0)
    ensures holds ==> SysOk(y)
  {
    && SysOk(y) && Kept(c0, y.c)
    && (y.c.flags.finished ==> y.c.phase == PhDone)
    && y.dev.mem == d0.mem && y.dev.locked == d0.locked && y.dev.rom == d0.rom
    && match y.c.phase
       case PhReset => y.c.armed == ResetOp && !y.c.flags.ok
       case PhCmd => y.present && y.c.armed == WriteOp(8 * |CommandBytes(c0)|) && !y.c.flags.ok
       case PhDone => y.c.flags.ok <==> y.present
       case _ => false
  }

  lemma WritePreserves(c0: Ctx, d0: Device, y: Sys, i: Input)
    requires Sized(c0) && DeviceOk(d0) && c0.len == 0 && c0.command == WRITE_SCRATCHPAD
    requires WriteInv(c0, d0, y) && Honest(y, i)
    ensures WriteInv(c0, d0, Next(y, i))
  {
    hide CapturedPresence, Seen, ReadSucceeds, Hear, Encoded, Decoded, Clocked, PulseBits, BitsOf;
    if Completes(y, i) && y.c.phase == PhReset {
      SeenIs(y.c.u, i.captured, i.capture);
      KeptCommand(c0, y.c);
    }
  }

  lemma {:induction false} WriteRun(c0: Ctx, d0: Device, y: Sys, inputs: seq<Input>)
    requires Sized(c0) && DeviceOk(d0) && c0.len == 0 && c0.command == WRITE_SCRATCHPAD
    requires WriteInv(c0, d0, y) && HonestRun(y, inputs)
    ensures WriteInv(c0, d0, Run(y, inputs))
    decreases |inputs|
  {
    hide WriteInv, Next, Honest;
    if inputs != [] {
      WritePreserves(c0, d0, y, inputs[0]);
      WriteRun(c0, d0, Next(y, inputs[0]), inputs[1..]);
    }
  }

  // ---- the calls ----

  /** Run a call's operation to its end on a parked driver. */
  function Perform(y: Sys, c: Ctx, inputs: seq<Input>): (y': Sys)
    requires SysOk(y) && Sized(c) && HonestRun(y.(c := c), inputs)
    ensures SysOk(y')
  {
    Run(y.(c := c), inputs)
  }

  lemma BodyOfCommand(c: Ctx, d: Device)
    requires Sized(c) && DeviceOk(d)
    ensures var b := CommandBytes(c);
            Body(d, b) == if Addressed(c, d) then Some(b[|Prefix(c)|..]) else None
  {
    var b := CommandBytes(c);
    if c.flags.addressMode {
      assert b[1..9] == c.rom;
    }
  }

  lemma VerifyEffect(c: Ctx, d: Device)
    requires Sized(c) && DeviceOk(d) && c.command == READ_SCRATCHPAD && c.plen == 0
    ensures Effect(c, d) == (d, if Addressed(c, d) then ScratchReply(d) else [])
  {
    hide ScratchReply;
    BodyOfCommand(c, d);
    var b := CommandBytes(c)[|Prefix(c)|..];
    assert b == [READ_SCRATCHPAD];
  }

  lemma CopyEffect(c: Ctx, d: Device)
    requires Sized(c) && DeviceOk(d) && c.command == COPY_SCRATCHPAD
    ensures Effect(c, d) == if Addressed(c, d) && Authorized(d, c.addrLo, c.addrHi, c.es)
                            then (Program(d), [COPY_STATUS_OK]) else (d, [])
  {
    hide Authorized, Program;
    BodyOfCommand(c, d);
    var b := CommandBytes(c)[|Prefix(c)|..];
    assert b == [COPY_SCRATCHPAD, c.addrLo, c.addrHi, c.es];
  }

  lemma MemoryEffect(c: Ctx, d: Device)
    requires Sized(c) && DeviceOk(d) && c.command == READ_MEMORY && c.plen == 0 && c.addrHi == 0 && c.addrLo < 128
    ensures Effect(c, d) == (d, if Addressed(c, d) then d.mem[c.addrLo..] else [])
  {
    BodyOfCommand(c, d);
    var b := CommandBytes(c)[|Prefix(c)|..];
    assert b == [READ_MEMORY, c.addrLo, c.addrHi];
  }

  lemma WriteEffect(c: Ctx, d: Device)
    requires Sized(c) && DeviceOk(d) && c.command == WRITE_SCRATCHPAD && c.plen > 0
    ensures Effect(c, d).0 == if Addressed(c, d) then WriteScratch(d, c.addrLo, c.addrHi, c.payload[..c.plen]) else d
  {
    hide WriteScratch;
    BodyOfCommand(c, d);
    var b := CommandBytes(c)[|Prefix(c)|..];
    assert b == [WRITE_SCRATCHPAD, c.addrLo, c.addrHi] + c.payload[..c.plen];
    assert b[3..] == c.payload[..c.plen];
  }

  // ---- main theorems ----

  /** Write Scratchpad followed, possibly much later, by nothing else: whatever was
      damaged on the way, and whatever it reports, the EEPROM is untouched. */
  lemma WriteLeavesMemory(y: Sys, addr: nat, data: seq<byte>, inputs: seq<Input>)
    requires SysOk(y) && WriteAccepted(y.c, addr, |data|, false)
    requires HonestRun(y.(c := WriteScratchpadSpec(y.c, addr, data, false)), inputs)
    ensures var c := WriteScratchpadSpec(y.c, addr, data, false);
            var y' := Perform(y, c, inputs);
            && y'.dev.mem == y.dev.mem && y'.dev.locked == y.dev.locked && y'.dev.rom == y.dev.rom
            && Kept(c, y'.c)
  {
    hide Run, HonestRun, Honest;
    var c := WriteScratchpadSpec(y.c, addr, data, false);
    WriteRun(c, y.dev, y.(c := c), inputs);
  }

  /** A memory read of a window inside the EEPROM, run to its end on a parked driver: with a presence
      pulse it reports success and hands out exactly the bytes of the window (all ones when no device
      is addressed), without one it reports failure. It changes nothing in the device. */
  lemma MemoryReadReturns(y: Sys, addr: nat, len: nat, inputs: seq<Input>)
    requires SysOk(y) && CanStart(y.c, false) && 1 <= len <= 8 && addr + len <= 128
    requires HonestRun(y.(c := ReadMemorySpec(y.c, addr, len, false)), inputs)
    requires Perform(y, ReadMemorySpec(y.c, addr, len, false), inputs).c.phase == PhDone
    ensures var y' := Perform(y, ReadMemorySpec(y.c, addr, len, false), inputs);
            && y'.dev == y.dev && (y'.c.flags.ok <==> y'.present) && |MemoryResult(y'.c)| == len
            && (y'.present ==> forall i | 0 <= i < len ::
                  MemoryResult(y'.c)[i] == if Addressed(y.c, y.dev) then y.dev.mem[addr + i] else 0xFF)
  {
    hide Run, HonestRun, Honest, Effect;
    var c := ReadMemorySpec(y.c, addr, len, false);
    ReadRun(c, y.dev, y.(c := c), inputs);
    MemoryEffect(c, y.dev);
  }

  /** Select, then read: the selected device answers with its own bytes, another one with none. */
  lemma SelectedReadReturns(y: Sys, rom: Option<seq<byte>>, addr: nat, len: nat, inputs: seq<Input>)
    requires SysOk(y) && CanStart(y.c, false) && (rom.Some? ==> |rom.value| == 8) && 1 <= len <= 8 && addr + len <= 128
    requires var c := SelectSpec(y.c, rom, false);
             && HonestRun(y.(c := ReadMemorySpec(c, addr, len, false)), inputs)
             && Perform(y, ReadMemorySpec(c, addr, len, false), inputs).c.phase == PhDone
    ensures var y' := Perform(y, ReadMemorySpec(SelectSpec(y.c, rom, false), addr, len, false), inputs);
            && y'.dev == y.dev && (y'.c.flags.ok <==> y'.present) && |MemoryResult(y'.c)| == len
            && (y'.present ==> forall i | 0 <= i < len ::
                  MemoryResult(y'.c)[i] == if rom.None? || rom.value == y.dev.rom then y.dev.mem[addr + i] else 0xFF)
  {
    hide Run, HonestRun, ReadMemorySpec, MemoryResult;
    var z := y.(c := SelectSpec(y.c, rom, false));
    SelectAddresses(y.c, rom, y.dev);
    MemoryReadReturns(z, addr, len, inputs);
  }

  /** A read of the scratchpad of an addressed device, run to its end with success, hands out the
      registers and the window they describe, zero filled; without a pending write it succeeds exactly
      when there is such a window. */
  lemma ScratchpadReadReturns(y: Sys, inputs: seq<Input>)
    requires SysOk(y) && CanStart(y.c, false) && Addressed(y.c, y.dev)
    requires HonestRun(y.(c := ReadScratchpadSpec(y.c, false)), inputs)
    requires Perform(y, ReadScratchpadSpec(y.c, false), inputs).c.phase == PhDone
    ensures var y' := Perform(y, ReadScratchpadSpec(y.c, false), inputs);
            && y'.dev == y.dev
            && (y'.c.flags.ok ==>
                  y'.present && ScratchpadResult(y'.c) ==
                    [y.dev.ta1, y.dev.ta2, y.dev.es] + Window(y.dev) + seq(8 - |Window(y.dev)|, _ => 0))
            && (!y.c.flags.pending ==> (y'.c.flags.ok <==> y'.present && y.dev.ta1 % 8 <= y.dev.es % 8))
  {
    hide Run, HonestRun, Honest, Effect, ScratchReply, FrameCrcOk, Clocked;
    var c := ReadScratchpadSpec(y.c, false);
    ReadRun(c, y.dev, y.(c := c), inputs);
    VerifyEffect(c, y.dev);
    ReplyIsWellFormed(y.dev);
    var y' := Perform(y, c, inputs);
    var f, w := Clocked(ScratchReply(y.dev), FRAME_CRC), Window(y.dev);
    assert f + c.raw[FRAME_CRC..] == f;
    if y'.c.flags.ok {
      forall i | 0 <= i < |w| ensures y'.c.raw[3 + i] == w[i] {
        assert f[3..3 + |w|][i] == f[3 + i];
      }
    }
  }

  /** The verify read of a pending write, run to its end over a faithful reply path,
      reports success exactly when a device was present, it is the addressed one, and
      its registers and scratchpad hold what was sent. It changes nothing. */
  lemma VerifyReportsTruth(y: Sys, inputs: seq<Input>)
    requires SysOk(y) && CanStart(y.c, false) && y.c.flags.pending && y.c.addrLo % 8 == 0
    requires HonestRun(y.(c := ReadScratchpadSpec(y.c, false)), inputs)
    requires Perform(y, ReadScratchpadSpec(y.c, false), inputs).c.phase == PhDone
    ensures var y' := Perform(y, ReadScratchpadSpec(y.c, false), inputs);
            && y'.dev == y.dev
            && (y'.c.flags.ok <==> y'.present && Addressed(y.c, y.dev) && Holds(y.dev, y.c))
            && Kept(ReadScratchpadSpec(y.c, false), y'.c)
  {
    hide Run, HonestRun, Honest, Effect, ReadSucceeds, Clocked, Holds, ScratchReply;
    var c := ReadScratchpadSpec(y.c, false);
    ReadRun(c, y.dev, y.(c := c), inputs);
    VerifyEffect(c, y.dev);
    VerifyExact(y.dev, c);
    SilenceFails(c);
    assert forall tx :: Clocked(tx, FRAME_CRC) + c.raw[FRAME_CRC..] == Clocked(tx, FRAME_CRC);
    assert Holds(y.dev, c) == Holds(y.dev, y.c) by { HoldsSame(y.dev, c, y.c); }
  }

  lemma HoldsSame(d: Device, c: Ctx, e: Ctx)
    requires |d.scratch| == 8 && |c.payload| == 8 && e.payload == c.payload
    requires e.addrLo == c.addrLo && e.addrHi == c.addrHi && e.es == c.es
    ensures Holds(d, c) == Holds(d, e)
  {
  }

  /** Copy Scratchpad reports success exactly when the addressed device accepted the
      authorisation; then the block is programmed, and otherwise nothing changed. */
  lemma CopyReportsTruth(y: Sys, inputs: seq<Input>)
    requires SysOk(y) && CanStart(y.c, false) && y.c.flags.pending
    requires HonestRun(y.(c := CopyScratchpadSpec(y.c, false)), inputs)
    requires Perform(y, CopyScratchpadSpec(y.c, false), inputs).c.phase == PhDone
    ensures var y' := Perform(y, CopyScratchpadSpec(y.c, false), inputs);
            && (y'.c.flags.ok <==>
                  y'.present && Addressed(y.c, y.dev) && Authorized(y.dev, y.c.addrLo, y.c.addrHi, y.c.es))
            && y'.dev == (if y'.c.flags.ok then Program(y.dev) else y.dev)
            && Kept(CopyScratchpadSpec(y.c, false), y'.c)
  {
    hide Run, HonestRun, Honest, Effect, Authorized, Program;
    var c := CopyScratchpadSpec(y.c, false);
    ReadRun(c, y.dev, y.(c := c), inputs);
    CopyEffect(c, y.dev);
  }

  /** The registers of a device that holds a full-block write are exactly what the
      driver sends as authorisation, except for E/S bits 3, 4, 6 and 7 that the verify
      read does not look at: the copy is honoured iff those are clear as well and the
      block is not protected. */
  lemma VerifiedCopyAuthorized(d: Device, c: Ctx)
    requires DeviceOk(d) && |c.payload| == 8 && Holds(d, c)
    requires c.addrHi == 0 && c.addrLo < EEPROM_SIZE
    ensures Authorized(d, c.addrLo, c.addrHi, c.es) <==> d.es == c.es && c.addrLo / 8 !in d.locked
  {
  }

  /** End-to-end storage integrity. A full block is written over a path that may damage
      anything, verified, and copied. If verify and copy both report success, the block
      holds the payload and every other byte is unchanged; if the copy does not report
      success, no byte changed. */
  lemma StorageIntegrity(y: Sys, addr: nat, data: seq<byte>, w: seq<Input>, v: seq<Input>, k: seq<Input>)
    requires SysOk(y) && |data| == 8 && WriteAccepted(y.c, addr, 8, false)
    requires HonestRun(y.(c := WriteScratchpadSpec(y.c, addr, data, false)), w)
    requires var y1 := Perform(y, WriteScratchpadSpec(y.c, addr, data, false), w);
             && y1.c.phase == PhDone
             && HonestRun(y1.(c := ReadScratchpadSpec(y1.c, false)), v)
             && var y2 := Perform(y1, ReadScratchpadSpec(y1.c, false), v);
             && y2.c.phase == PhDone
             && HonestRun(y2.(c := CopyScratchpadSpec(y2.c, false)), k)
             && Perform(y2, CopyScratchpadSpec(y2.c, false), k).c.phase == PhDone
    ensures var y1 := Perform(y, WriteScratchpadSpec(y.c, addr, data, false), w);
            var y2 := Perform(y1, ReadScratchpadSpec(y1.c, false), v);
            var y3 := Perform(y2, CopyScratchpadSpec(y2.c, false), k);
            && (y2.c.flags.ok ==>
                  && y2.dev.ta1 == addr && y2.dev.ta2 == 0 && y2.dev.es % 8 == 7
                  && !PartialFlag(y2.dev.es) && y2.dev.scratch == data)
            && (y2.c.flags.ok && y3.c.flags.ok ==> y3.dev.mem == y.dev.mem[..addr] + data + y.dev.mem[addr + 8..])
            && (!y3.c.flags.ok ==> y3.dev.mem == y.dev.mem)
  {
    hide Run, HonestRun, Honest, Perform;
    WriteLeavesMemory(y, addr, data, w);
    var y1 := Perform(y, WriteScratchpadSpec(y.c, addr, data, false), w);
    assert y1.c.payload == data && y1.c.es == 7;
    VerifyReportsTruth(y1, v);
    var y2 := Perform(y1, ReadScratchpadSpec(y1.c, false), v);
    CopyReportsTruth(y2, k);
    var y3 := Perform(y2, CopyScratchpadSpec(y2.c, false), k);
    if y2.c.flags.ok {
      assert y2.dev.scratch[..8] == y2.dev.scratch && data[..8] == data;
    }
  }

  // ---- a fully faithful cycle ----

  /** The write travels faithfully as well: the device hears the table that was fed. */
  predicate FaithfulRun(y: Sys, inputs: seq<Input>)
    requires SysOk(y)
    decreases |inputs|
  {
    inputs == [] ||
    (Honest(y, inputs[0])
     && (Completes(y, inputs[0]) && WritesScratchpad(y) ==> inputs[0].after == Heard(y).0)
     && FaithfulRun(Next(y, inputs[0]), inputs[1..]))
  }

  predicate FaithfulInv(c0: Ctx, d0: Device, y: Sys): (holds: bool)
    requires Sized(c0) && DeviceOk(d0)
    ensures holds ==> SysOk(y)
  {
    && WriteInv(c0, d0, y)
    && match y.c.phase
       case PhReset => y.dev == d0
       case PhCmd => y.dev == d0 && y.c.u[..8 * |CommandBytes(c0)| + 1] == Encoded(CommandBytes(c0)) + [RELEASE_PULSE]
       case _ => y.dev == if y.present then Effect(c0, d0).0 else d0
  }

  lemma FaithfulPreserves(c0: Ctx, d0: Device, y: Sys, i: Input)
    requires Sized(c0) && DeviceOk(d0) && c0.len == 0 && c0.command == WRITE_SCRATCHPAD
    requires FaithfulInv(c0, d0, y) && Honest(y, i)
    requires Completes(y, i) && WritesScratchpad(y) ==> i.after == Heard(y).0
    ensures FaithfulInv(c0, d0, Next(y, i))
  {
    hide CapturedPresence, Hear, ReadDone, WaitDone, CommandBytes, Encoded, Decoded;
    WritePreserves(c0, d0, y, i);
    if Completes(y, i) && y.c.phase == PhReset {
      KeptCommand(c0, y.c.(u := Overwrite(y.c.u, i.capture)));
    } else if Completes(y, i) && y.c.phase == PhCmd {
      TableHeard(c0, y.c.u);
    }
  }

  lemma {:induction false} FaithfulWriteRun(c0: Ctx, d0: Device, y: Sys, inputs: seq<Input>)
    requires Sized(c0) && DeviceOk(d0) && c0.len == 0 && c0.command == WRITE_SCRATCHPAD
    requires FaithfulInv(c0, d0, y) && FaithfulRun(y, inputs)
    ensures HonestRun(y, inputs) && FaithfulInv(c0, d0, Run(y, inputs))
    decreases |inputs|
  {
    hide FaithfulInv, Next, Honest, Heard;
    if inputs != [] {
      FaithfulPreserves(c0, d0, y, inputs[0]);
      FaithfulWriteRun(c0, d0, Next(y, inputs[0]), inputs[1..]);
    }
  }

  /** After a faithful write the registers verify, and authorise the copy, exactly when
      the whole block was written: a shorter write leaves the partial flag set. */
  lemma FaithfulRegisters(d: Device, c: Ctx, addr: nat, data: seq<byte>)
    requires DeviceOk(d) && |c.payload| == 8 && 1 <= |data| <= 8 && addr % 8 == 0 && addr < EEPROM_SIZE
    requires c.addrLo == addr && c.addrHi == 0 && c.es == |data| - 1 && c.payload[..|data|] == data
    ensures var e := WriteScratch(d, c.addrLo, 0, data);
            && (Holds(e, c) <==> |data| == 8)
            && (addr / 8 !in d.locked ==> (Authorized(e, c.addrLo, 0, c.es) <==> |data| == 8))
  {
    var e := WriteScratch(d, c.addrLo, 0, data);
    assert e.scratch[..|data|] == data;
    assert e.es % 8 == |data| - 1;
  }

  /** When every step travels faithfully to a present, addressed, unprotected device, the
      write reports success, and verify and copy do exactly for full 8-byte blocks. */
  lemma FaithfulCycle(y: Sys, addr: nat, data: seq<byte>, w: seq<Input>, v: seq<Input>, k: seq<Input>)
    requires SysOk(y) && WriteAccepted(y.c, addr, |data|, false)
    requires Addressed(y.c, y.dev) && addr / 8 !in y.dev.locked
    requires FaithfulRun(y.(c := WriteScratchpadSpec(y.c, addr, data, false)), w)
    requires HonestRun(y.(c := WriteScratchpadSpec(y.c, addr, data, false)), w)
    requires var y1 := Perform(y, WriteScratchpadSpec(y.c, addr, data, false), w);
             && y1.c.phase == PhDone && y1.present
             && HonestRun(y1.(c := ReadScratchpadSpec(y1.c, false)), v)
             && var y2 := Perform(y1, ReadScratchpadSpec(y1.c, false), v);
             && y2.c.phase == PhDone && y2.present
             && HonestRun(y2.(c := CopyScratchpadSpec(y2.c, false)), k)
             && var y3 := Perform(y2, CopyScratchpadSpec(y2.c, false), k);
             && y3.c.phase == PhDone && y3.present
    ensures var y1 := Perform(y, WriteScratchpadSpec(y.c, addr, data, false), w);
            var y2 := Perform(y1, ReadScratchpadSpec(y1.c, false), v);
            var y3 := Perform(y2, CopyScratchpadSpec(y2.c, false), k);
            y1.c.flags.ok && (y2.c.flags.ok <==> |data| == 8) && (y3.c.flags.ok <==> |data| == 8)
  {
    hide Run, HonestRun, Honest, FaithfulRun, Holds, Authorized, WriteScratch, Program, Effect;
    var c := WriteScratchpadSpec(y.c, addr, data, false);
    FaithfulWriteRun(c, y.dev, y.(c := c), w);
    WriteEffect(c, y.dev);
    var y1 := Perform(y, c, w);
    assert c.payload[..|data|] == data;
    FaithfulRegisters(y.dev, c, addr, data);
    HoldsSame(y1.dev, c, y1.c);
    VerifyReportsTruth(y1, v);
    CopyReportsTruth(Perform(y1, ReadScratchpadSpec(y1.c, false), v), k);
  }

  // ---- the fed table and the pull-up, over any events ----

  datatype Event =
    | Poll(done: bool, captured: nat, capture: seq<byte>)
    | ReadMemoryCall(addr: nat, len: nat, searching: bool)
    | WriteCall(addr: nat, data: seq<byte>, searching: bool)
    | ReadCall(searching: bool)
    | CopyCall(searching: bool)
    | SelectCall(rom: Option<seq<byte>>, searching: bool)

  function Apply(c: Ctx, e: Event): (c': Ctx)
    requires Sized(c)
    ensures Sized(c')
  {
    match e
    case Poll(done, captured, capture) => if |capture| <= |c.u| then PollSpec(c, done, captured, capture) else c
    case ReadMemoryCall(addr, len, searching) => ReadMemorySpec(c, addr, len, searching)
    case WriteCall(addr, data, searching) => WriteScratchpadSpec(c, addr, data, searching)
    case ReadCall(searching) => ReadScratchpadSpec(c, searching)
    case CopyCall(searching) => CopyScratchpadSpec(c, searching)
    case SelectCall(rom, searching) =>
      if rom.Some? && |rom.value| != 8 then c else SelectSpec(c, rom, searching)
  }

  function ApplyAll(c: Ctx, events: seq<Event>): (c': Ctx)
    requires Sized(c)
    ensures Sized(c')
  {
    if events == [] then c else Apply(ApplyAll(c, events[..|events| - 1]), events[|events| - 1])
  }

  /** Arming the command write leaves the union holding the encoded command and the
      release entry right behind it. */
  lemma ArmedTable(c: Ctx, captured: nat)
    requires Sized(c) && CapturedPresence(c.u, captured)
    ensures var d := ResetDone(c, captured); var n := 8 * |CommandBytes(c)|;
            d.phase == PhCmd && d.armed == WriteOp(n) && n <= CMD_SLOTS
            && d.u[..n + 1] == Encoded(CommandBytes(c)) + [RELEASE_PULSE]
  {
    hide Encoded, CommandBytes, CapturedPresence;
  }

  /** From arming to completion, no call and no poll touches the table being fed. */
  lemma {:induction false} FedTableStable(c: Ctx, events: seq<Event>)
    requires Sized(c) && c.phase == PhCmd && !c.flags.finished
    requires forall e | e in events :: e.Poll? ==> !e.done
    ensures var d := ApplyAll(c, events);
            d.phase == PhCmd && !d.flags.finished && d.u == c.u && d.armed == c.armed
  {
    if events != [] {
      var n := |events| - 1;
      assert forall e | e in events[..n] :: e in events;
      FedTableStable(c, events[..n]);
      assert events[n] in events;
    }
  }

  /** The strong pull-up is released for resets, reads and at rest, and engaged on a
      parasite-powered bus for the command write and the programming hold-off. */
  predicate PullUpOk(c: Ctx) {
    match c.phase
    case PhCmd => c.pullup == c.flags.parasite
    case PhWait => c.pullup == c.flags.parasite && c.armed == WaitOp(TPROG_US)
    case PhReset => !c.pullup && c.armed == ResetOp
    case PhRead => !c.pullup && c.armed.ReadOp?
    case _ => !c.pullup
  }

  lemma {:induction false} PullUpDiscipline(c: Ctx, events: seq<Event>)
    requires Sized(c) && PullUpOk(c)
    ensures PullUpOk(ApplyAll(c, events)) && ApplyAll(c, events).flags.parasite == c.flags.parasite
  {
    hide PullUpOk, Apply;
    if events != [] {
      var n := |events| - 1;
      PullUpDiscipline(c, events[..n]);
      var d, e := ApplyAll(c, events[..n]), events[n];
      if e.Poll? && |e.capture| <= |d.u| {
        PullUpPoll(d, e.done, e.captured, e.capture);
      }
      PullUpCall(d, e);
    }
  }

  lemma PullUpPoll(c: Ctx, done: bool, captured: nat, capture: seq<byte>)
    requires Sized(c) && PullUpOk(c) && |capture| <= |c.u|
    ensures var d := PollSpec(c, done, captured, capture); PullUpOk(d) && d.flags.parasite == c.flags.parasite
  {
    hide ResetDone, CmdDone, ReadDone, WaitDone;
    var d := c.(u := Overwrite(c.u, capture));
    match c.phase
    case PhReset => PullUpReset(d, captured);
    case PhCmd => PullUpCmd(d);
    case PhRead => PullUpRead(d);
    case _ =>
      assert WaitDone(d).flags.parasite == c.flags.parasite && PullUpOk(WaitDone(d)) by { PullUpWait(d); }
  }

  lemma PullUpReset(c: Ctx, captured: nat)
    requires Sized(c) && PullUpOk(c) && c.phase == PhReset
    ensures var d := ResetDone(c, captured); PullUpOk(d) && d.flags.parasite == c.flags.parasite
  {
    hide CapturedPresence, Encoded, CommandBytes;
  }

  lemma PullUpCmd(c: Ctx)
    requires PullUpOk(c) && c.phase == PhCmd
    ensures PullUpOk(CmdDone(c)) && CmdDone(c).flags.parasite == c.flags.parasite
  {
  }

  lemma PullUpRead(c: Ctx)
    requires Sized(c) && PullUpOk(c) && c.phase == PhRead
    ensures PullUpOk(ReadDone(c)) && ReadDone(c).flags.parasite == c.flags.parasite
  {
    hide ReadSucceeds, Decoded;
  }

  lemma PullUpWait(c: Ctx)
    ensures PullUpOk(WaitDone(c)) && WaitDone(c).flags.parasite == c.flags.parasite
  {
  }

  lemma PullUpCall(c: Ctx, e: Event)
    requires Sized(c) && PullUpOk(c)
    requires e.Poll? && |e.capture| <= |c.u| ==>
               var d := PollSpec(c, e.done, e.captured, e.capture); PullUpOk(d) && d.flags.parasite == c.flags.parasite
    ensures PullUpOk(Apply(c, e)) && Apply(c, e).flags.parasite == c.flags.parasite
  {
    hide PollSpec;
  }
}
