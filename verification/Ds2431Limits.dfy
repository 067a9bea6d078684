/** Where the promises of the DS2431 driver end: calls it rejects but does not ignore, and a copy
    that is refused behind an OK verify. */
module Ds2431Limits {
  import opened Bits
  import opened PulseCodec
  import opened Ds2431
  import opened Ds2431Device
  import opened Ds2431Proof

  // ---- rejected calls ----

  predicate InMemory(addr: nat, len: nat) {
    1 <= len <= READ_PASS && addr < EEPROM_SIZE && addr + len <= EEPROM_SIZE
  }

  /** A call that cannot start an operation changes nothing exactly when its request fields are
      latched already. Write Scratchpad and the selection check first and are always inert. */
  lemma RejectedCallsIff(c: Ctx, searching: bool, addr: nat, len: nat, data: seq<byte>, rom: Option<seq<byte>>)
    requires Sized(c) && !CanStart(c, searching)
    ensures ReadScratchpadSpec(c, searching) == c <==> c.len == FRAME_CRC && c.plen == 0 && c.flags.echo
    ensures CopyScratchpadSpec(c, searching) == c <==> !c.flags.pending || (c.len == 1 && c.plen == 0)
    ensures ReadMemorySpec(c, addr, len, searching) == c <==>
              (InMemory(addr, len) ==>
                 c.addrLo == addr % 256 && c.addrHi == addr / 256 && c.len == len && c.plen == 0)
    ensures WriteScratchpadSpec(c, addr, data, searching) == c && SelectSpec(c, rom, searching) == c
  {
    assert ReadScratchpadSpec(c, searching).len == FRAME_CRC && ReadScratchpadSpec(c, searching).flags.echo;
  }

  /** Made while a write is waiting for its reset, a rejected verify call clears the payload length:
      the write goes out intact exactly when it carried no payload. */
  lemma BusyReadTruncatesWrite(c: Ctx, searching: bool)
    requires Sized(c) && c.phase == PhReset && c.command == WRITE_SCRATCHPAD
    ensures var d := ReadScratchpadSpec(c, searching);
            && |CommandBytes(d)| == |CommandBytes(c)| - c.plen
            && (CommandBytes(d) == CommandBytes(c) <==> c.plen == 0)
  {
    var d := ReadScratchpadSpec(c, searching);
    assert CommandBytes(c) == CommandBytes(d) + c.payload[..c.plen];
  }

  /** Made while the write is on the wire, it makes the write end in a read of 13 bytes instead of
      at once. */
  lemma BusyReadProlongsWrite(c: Ctx, searching: bool)
    requires Sized(c) && c.phase == PhCmd && c.command == WRITE_SCRATCHPAD && c.len == 0
    ensures CmdDone(c).phase == PhDone && CmdDone(c).flags.ok
    ensures var d := CmdDone(ReadScratchpadSpec(c, searching)); d.phase == PhRead && d.armed == ReadOp(FRAME_CRC)
  {
  }

  // ---- how many bytes a memory read hands out ----

  /** No state of the run can start an operation: every call in it is rejected. */
  ghost predicate Busy(c: Ctx, events: seq<Event>)
    requires Sized(c)
  {
    && c.phase != PhIdle && c.phase != PhDone
    && (events == [] ||
        (Busy(c, events[..|events| - 1])
         && var d := ApplyAll(c, events); d.phase != PhIdle && d.phase != PhDone))
  }

  /** The length a busy driver ends up with: that of the last call that latches one. */
  function Latched(n: nat, pending: bool, events: seq<Event>): nat {
    if events == [] then n else
    var m := Latched(n, pending, events[..|events| - 1]);
    match events[|events| - 1]
    case ReadCall(_) => FRAME_CRC
    case CopyCall(_) => if pending then 1 else m
    case ReadMemoryCall(addr, len, _) => if InMemory(addr, len) then len else m
    case _ => m
  }

  lemma OneLatched(c: Ctx, e: Event)
    requires Sized(c) && c.phase != PhIdle && c.phase != PhDone
    ensures var d := Apply(c, e);
            && d.flags.pending == c.flags.pending && d.flags.finished == c.flags.finished && d.command == c.command
            && d.len == Latched(c.len, c.flags.pending, [e])
  {
    hide CapturedPresence, Encoded, CommandBytes, ReadSucceeds, Decoded, Overwrite;
    assert Latched(c.len, c.flags.pending, []) == c.len;
  }

  lemma {:induction false} LengthLatched(c: Ctx, events: seq<Event>)
    requires Sized(c) && Busy(c, events)
    ensures var d := ApplyAll(c, events);
            && d.flags.pending == c.flags.pending && d.flags.finished == c.flags.finished && d.command == c.command
            && d.len == Latched(c.len, c.flags.pending, events)
  {
    hide Apply;
    if events != [] {
      var n := |events| - 1;
      LengthLatched(c, events[..n]);
      OneLatched(ApplyAll(c, events[..n]), events[n]);
      assert Latched(ApplyAll(c, events[..n]).len, c.flags.pending, []) == ApplyAll(c, events[..n]).len;
    }
  }

  /** A running memory read of n bytes, over any calls and polls up to its last, hands out as many
      bytes as were latched last: n exactly when no rejected call has latched another length. */
  lemma MemoryReadHandsOutIff(c: Ctx, events: seq<Event>, captured: nat, capture: seq<byte>)
    requires Sized(c) && c.command == READ_MEMORY && !c.flags.finished && Busy(c, events)
    requires ApplyAll(c, events).phase == PhRead && |capture| <= |c.u|
    ensures var d := PollSpec(ApplyAll(c, events), true, captured, capture);
            && d.phase == PhDone && d.flags.ok
            && |MemoryResult(d)| == Latched(c.len, c.flags.pending, events)
            && (|MemoryResult(d)| == c.len <==> Latched(c.len, c.flags.pending, events) == c.len)
  {
    hide ApplyAll, Busy, Latched, Decoded;
    LengthLatched(c, events);
  }

  // ---- a refused copy behind an OK verify ----

  /** Captures of a reset of 480 us with a presence pulse that ends at 600 us. */
  const PRESENCE: seq<byte> := [224, 1, 88, 2]

  lemma PresenceIsPresence(c: Ctx)
    requires Sized(c)
    ensures CapturedPresence(Overwrite(c.u, PRESENCE), 2)
  {
    var u := Overwrite(c.u, PRESENCE);
    assert u[0] == 224 && u[1] == 1 && u[2] == 88 && u[3] == 2;
  }

  predicate Begun(c: Ctx) {
    Sized(c) && c.phase == PhReset && c.armed == ResetOp && !c.flags.finished
  }

  /** The first two polls: presence seen, command sent. */
  lemma Sent(y: Sys, after: Device) returns (z: Sys)
    requires SysOk(y) && Begun(y.c)
    requires y.c.command == WRITE_SCRATCHPAD ==>
               DeviceOk(after) && after.mem == y.dev.mem && after.locked == y.dev.locked && after.rom == y.dev.rom
    ensures var i, j := Input(true, 2, PRESENCE, after), Input(true, 0, [], after);
            && Honest(y, i) && Honest(Next(y, i), j) && z == Next(Next(y, i), j)
    ensures z.present && !z.c.flags.finished && z.c.command == y.c.command && z.c.len == y.c.len
    ensures y.c.command == WRITE_SCRATCHPAD ==> z.dev == after
    ensures if y.c.command == COPY_SCRATCHPAD then z.c.phase == PhWait && z.c.armed == WaitOp(TPROG_US)
            else if y.c.len > 0 then z.c.phase == PhRead && z.c.armed == ReadOp(y.c.len)
            else z.c.phase == PhDone && z.c.flags.ok
  {
    hide CapturedPresence, Encoded, CommandBytes, Decoded, Hear, Overwrite;
    PresenceIsPresence(y.c);
    var y1 := Next(y, Input(true, 2, PRESENCE, after));
    EmptyCapture(y1.c.u);
    z := Next(y1, Input(true, 0, [], after));
  }

  lemma EmptyCapture(u: seq<byte>)
    ensures Overwrite(u, []) == u
  {
  }

  predicate MayLeave(d: Device, after: Device) {
    DeviceOk(after) && after.mem == d.mem && after.locked == d.locked && after.rom == d.rom
  }

  /** A write can be run to its end and leave any registers and scratchpad behind. */
  lemma WriteFinishes(y: Sys, after: Device) returns (inputs: seq<Input>)
    requires SysOk(y) && Begun(y.c) && y.c.command == WRITE_SCRATCHPAD && y.c.len == 0 && MayLeave(y.dev, after)
    ensures HonestRun(y, inputs) && Run(y, inputs).c.phase == PhDone && Run(y, inputs).dev == after
  {
    hide Honest, Next;
    var z := Sent(y, after);
    inputs := [Input(true, 2, PRESENCE, after), Input(true, 0, [], after)];
    TwoPolls(y, inputs[0], inputs[1], []);
    assert [inputs[0], inputs[1]] + [] == inputs;
  }

  lemma OnePoll(y: Sys, i: Input, rest: seq<Input>)
    requires SysOk(y) && Honest(y, i) && HonestRun(Next(y, i), rest)
    ensures HonestRun(y, [i] + rest) && Run(y, [i] + rest) == Run(Next(y, i), rest)
  {
    hide Honest, Next;
    assert ([i] + rest)[1..] == rest;
  }

  lemma TwoPolls(y: Sys, i: Input, j: Input, rest: seq<Input>)
    requires SysOk(y) && Honest(y, i) && Honest(Next(y, i), j) && HonestRun(Next(Next(y, i), j), rest)
    ensures HonestRun(y, [i, j] + rest) && Run(y, [i, j] + rest) == Run(Next(Next(y, i), j), rest)
  {
    hide Honest, Next, HonestRun, Run;
    OnePoll(Next(y, i), j, rest);
    OnePoll(y, i, [j] + rest);
    assert [i] + ([j] + rest) == [i, j] + rest;
  }

  /** The reply of a read that is under way, transmitted faithfully. */
  function Answer(y: Sys): Input
  {
    Input(true, 0, Encoded(Clocked(y.tx, y.c.len)), y.dev)
  }

  lemma Answered(y: Sys)
    requires SysOk(y) && y.c.phase == PhRead && y.c.armed == ReadOp(y.c.len) && !y.c.flags.finished
    ensures Honest(y, Answer(y)) && Next(y, Answer(y)).c.phase == PhDone
    ensures Next(y, Answer(y)).present == y.present
  {
    hide Encoded, Clocked, ReadSucceeds, Decoded, BitsOf;
    EncodedReads(Clocked(y.tx, y.c.len));
  }

  lemma EncodedReads(bytes: seq<byte>)
    ensures PulseBits(Encoded(bytes)) == BitsOf(bytes)
  {
    hide BitsOf;
  }

  /** A verify read can be run to its end with a presence pulse. */
  lemma VerifyFinishes(y: Sys) returns (inputs: seq<Input>)
    requires SysOk(y) && Begun(y.c) && y.c.command == READ_SCRATCHPAD && y.c.len == FRAME_CRC
    ensures HonestRun(y, inputs) && Run(y, inputs).c.phase == PhDone && Run(y, inputs).present
  {
    hide Honest, Next, Answer, HonestRun, Run;
    var z := Sent(y, y.dev);
    Answered(z);
    var rest := [Answer(z)];
    LastPoll(z, rest[0]);
    TwoPolls(y, Input(true, 2, PRESENCE, y.dev), Input(true, 0, [], y.dev), rest);
    inputs := [Input(true, 2, PRESENCE, y.dev), Input(true, 0, [], y.dev)] + rest;
  }

  lemma LastPoll(y: Sys, i: Input)
    requires SysOk(y) && Honest(y, i)
    ensures HonestRun(y, [i]) && Run(y, [i]) == Next(y, i)
  {
    hide Honest, Next;
    assert [i][1..] == [];
  }

  lemma Waited(y: Sys)
    requires SysOk(y) && y.c.phase == PhWait && y.c.armed == WaitOp(TPROG_US) && !y.c.flags.finished
    ensures var i := Input(true, 0, [], y.dev);
            && Honest(y, i) && Next(y, i).c.phase == PhRead && Next(y, i).c.armed == ReadOp(y.c.len)
            && !Next(y, i).c.flags.finished && Next(y, i).c.len == y.c.len && Next(y, i).present == y.present
  {
  }

  /** So can a copy. */
  lemma CopyFinishes(y: Sys) returns (inputs: seq<Input>)
    requires SysOk(y) && Begun(y.c) && y.c.command == COPY_SCRATCHPAD
    ensures HonestRun(y, inputs) && Run(y, inputs).c.phase == PhDone && Run(y, inputs).present
  {
    hide Honest, Next, Answer, HonestRun, Run;
    var z := Sent(y, y.dev);
    Waited(z);
    var i := Input(true, 0, [], z.dev);
    var w := Next(z, i);
    Answered(w);
    var rest := [Answer(w)];
    LastPoll(w, rest[0]);
    OnePoll(z, i, rest);
    TwoPolls(y, Input(true, 2, PRESENCE, y.dev), Input(true, 0, [], y.dev), [i] + rest);
    inputs := [Input(true, 2, PRESENCE, y.dev), Input(true, 0, [], y.dev)] + ([i] + rest);
  }

  /** Write, verify and copy of a full block, each run to its end with a device present. */
  datatype Cycle = Cycle(written: Sys, verified: Sys, copied: Sys)

  /** From y the operation of the call that leaves c can end in z. */
  ghost predicate EndsIn(y: Sys, c: Ctx, z: Sys)
    requires SysOk(y) && Sized(c)
  {
    z.c.phase == PhDone && exists inputs: seq<Input> :: HonestRun(y.(c := c), inputs) && z == Perform(y, c, inputs)
  }

  ghost predicate IsCycle(y: Sys, addr: nat, data: seq<byte>, r: Cycle)
    requires SysOk(y)
  {
    hide WriteScratchpadSpec, ReadScratchpadSpec, CopyScratchpadSpec, EndsIn;
    && SysOk(r.written) && SysOk(r.verified)
    && Sized(WriteScratchpadSpec(y.c, addr, data, false))
    && EndsIn(y, WriteScratchpadSpec(y.c, addr, data, false), r.written)
    && Sized(ReadScratchpadSpec(r.written.c, false))
    && EndsIn(r.written, ReadScratchpadSpec(r.written.c, false), r.verified)
    && Sized(CopyScratchpadSpec(r.verified.c, false))
    && EndsIn(r.verified, CopyScratchpadSpec(r.verified.c, false), r.copied)
  }

  /** Parked behind a full-block write of `data`, with the device addressed. */
  predicate Pending(y: Sys, addr: nat, data: seq<byte>) {
    && SysOk(y) && y.c.phase == PhDone && y.c.flags.pending && Addressed(y.c, y.dev)
    && y.c.addrLo == addr && y.c.addrHi == 0 && y.c.es == 7 && y.c.payload == data && addr % 8 == 0
  }

  lemma WriteEnds(y: Sys, addr: nat, data: seq<byte>, after: Device) returns (z: Sys)
    requires SysOk(y) && |data| == 8 && WriteAccepted(y.c, addr, 8, false) && MayLeave(y.dev, after)
    requires Addressed(y.c, y.dev)
    ensures EndsIn(y, WriteScratchpadSpec(y.c, addr, data, false), z) && Pending(z, addr, data) && z.dev == after
  {
    hide HonestRun, Run, Honest, Next;
    var c := WriteScratchpadSpec(y.c, addr, data, false);
    var w := WriteFinishes(y.(c := c), after);
    WriteLeavesMemory(y, addr, data, w);
    z := Perform(y, c, w);
  }

  lemma VerifyEnds(y: Sys, addr: nat, data: seq<byte>) returns (z: Sys)
    requires Pending(y, addr, data)
    ensures EndsIn(y, ReadScratchpadSpec(y.c, false), z) && Pending(z, addr, data) && z.dev == y.dev
    ensures z.c.flags.ok <==> (y.dev.ta1 == addr && y.dev.ta2 == 0 && y.dev.es % 8 == 7
                               && !PartialFlag(y.dev.es) && y.dev.scratch == data)
  {
    hide HonestRun, Run, Honest, Next;
    var c := ReadScratchpadSpec(y.c, false);
    var v := VerifyFinishes(y.(c := c));
    VerifyReportsTruth(y, v);
    z := Perform(y, c, v);
    assert y.dev.scratch[..8] == y.dev.scratch && data[..8] == data;
  }

  lemma CopyEnds(y: Sys, addr: nat, data: seq<byte>) returns (z: Sys)
    requires Pending(y, addr, data)
    ensures EndsIn(y, CopyScratchpadSpec(y.c, false), z) && Pending(z, addr, data)
    ensures z.c.flags.ok <==> Authorized(y.dev, addr, 0, 7)
    ensures z.dev == if z.c.flags.ok then Program(y.dev) else y.dev
  {
    hide HonestRun, Run, Honest, Next, Authorized, Program;
    var c := CopyScratchpadSpec(y.c, false);
    var k := CopyFinishes(y.(c := c));
    CopyReportsTruth(y, k);
    z := Perform(y, c, k);
  }

  /** Any cycle can happen whose write leaves `after` behind; its verify and copy then report what
      those registers say. */
  lemma CycleOf(y: Sys, addr: nat, data: seq<byte>, after: Device) returns (r: Cycle)
    requires SysOk(y) && |data| == 8 && WriteAccepted(y.c, addr, 8, false) && MayLeave(y.dev, after)
    requires Addressed(y.c, y.dev)
    ensures IsCycle(y, addr, data, r) && r.written.dev == after && Pending(r.copied, addr, data)
    ensures r.verified.c.flags.ok <==> (after.ta1 == addr && after.ta2 == 0 && after.es % 8 == 7
                                        && !PartialFlag(after.es) && after.scratch == data)
    ensures r.copied.c.flags.ok <==> Authorized(after, addr, 0, 7)
    ensures r.copied.dev == if r.copied.c.flags.ok then Program(after) else after
  {
    hide EndsIn, Authorized, Program, PartialFlag;
    var y1 := WriteEnds(y, addr, data, after);
    var y2 := VerifyEnds(y1, addr, data);
    var y3 := CopyEnds(y2, addr, data);
    r := Cycle(y1, y2, y3);
  }

  /** From any parked driver with an addressed, unprotected device: a cycle that reports OK throughout
      leaves E/S at 0x87, and when the same block is written again and the write is lost on the way,
      the verify reports OK (it does not look at bit 7) and the copy is refused. */
  lemma RefusedAfterVerify(y: Sys, addr: nat, data: seq<byte>) returns (r: Cycle, q: Cycle)
    requires SysOk(y) && |data| == 8 && WriteAccepted(y.c, addr, 8, false)
    requires Addressed(y.c, y.dev) && addr / 8 !in y.dev.locked
    ensures IsCycle(y, addr, data, r) && r.verified.c.flags.ok && r.copied.c.flags.ok && r.copied.dev.es == 0x87
    ensures IsCycle(r.copied, addr, data, q) && q.written.dev == r.copied.dev
    ensures q.verified.c.flags.ok && !q.copied.c.flags.ok
  {
    hide IsCycle;
    var after := WriteScratch(y.dev, addr, 0, data);
    assert after.scratch == data;
    r := CycleOf(y, addr, data, after);
    q := CycleOf(r.copied, addr, data, r.copied.dev);
  }
}
