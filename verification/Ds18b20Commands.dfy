/** Command transactions and resolution changes on a bus of DS18B20s: what they do to the devices and
    what they report, over whole runs. */
module Ds18b20Commands {
  import opened Bits
  import opened PulseCodec
  import opened CrcLoops
  import opened Ds18b20
  import opened Ds18b20Proof
  import opened Ds18b20Runs
  import opened Ds18b20Device
  import opened Ds18b20World
  import S = SearchEngine

  /** How far a command has come: not heard yet, heard, answered, over. */
  datatype Stage = Unsent | Sent | Answered | Over(ok: bool)

  function StageOf(d: Drv, o: Owner): Stage {
    if o == Resolution then
      match d.res.phase
      case ResReset => Unsent
      case ResWrite => if Raised(d, o) then Sent else Unsent
      case ResDone => Over(d.res.applied)
    else
      match d.txn.phase
      case TxnReset => Unsent
      case TxnWrite => if Raised(d, o) then Sent else Unsent
      case TxnRead => if Raised(d, o) then Answered else Sent
      case TxnWait => Sent
      case TxnDone => Over(d.txn.ok)
  }

  /** A command is fixed from its start to its end: the bytes sent, how many are read back or how long
      the bus then rests, whether the caller wants them, a resolution being set; and whether its reset is answered. */
  datatype Job = Job(owner: Owner, bytes: seq<byte>, back: nat, rest: nat, out: bool, bits: nat, present: bool)

  /** The two edges of a presence pulse were captured, in microseconds from the reset: release of the
      reset and end of the pulse, each in its window. */
  predicate Seen(e: Event)
    requires e.Complete?
  {
    var u: seq<int> := e.capture;
    e.captured == 2 && |u| >= 4 && 480 <= u[0] + 256 * u[1] <= 540 && 555 <= u[2] + 256 * u[3] <= 840
  }

  /** Resets are answered, or they are not; two captures fill four bytes. */
  predicate Steady(w: World, e: Event, present: bool) {
    && Honest(w, e)
    && (e.Complete? && w.y.d.bus.armed.Some? && w.y.d.bus.armed.value.op.ResetOp? ==>
          Seen(e) == present && (e.captured == 2 ==> |e.capture| >= 4))
  }

  predicate AtReset(d: Drv, o: Owner) {
    if o == Resolution then d.res.phase == ResReset else d.txn.phase == TxnReset
  }

  predicate Fixed(j: Job, d: Drv)
    requires Sized(d)
  {
    hide CommandBytes, ResolutionBytes;
    && (j.owner == Command || j.owner == Resolution)
    && FedBytes(d, j.owner) == j.bytes
    && (if j.owner == Command
        then d.txn.readBytes == j.back && d.txn.waitUs == j.rest && d.txn.hasOut == j.out
             && (d.txn.phase != TxnDone ==> !d.txn.ok)
        else j.back == 0 && d.res.pending == j.bits && (d.res.phase != ResDone ==> !d.res.applied))
    && j.rest <= 10000 && j.back <= 9
  }

  /** What the devices hold and what has arrived from them, stage by stage; they were ts when the
      command was started. */
  predicate Claims(j: Job, ts: seq<Thermo>, w: World)
    requires AllOk(ts) && AllOk(w.ts)
  {
    hide CapturedPresence, Hear, Wire, PulseBits, BitsOf;
    var d := w.y.d;
    && |d.u| == CAPTURE_LEN && |d.txn.raw| == SCRATCH_LEN && j.back <= 9
    && match StageOf(d, j.owner)
       case Unsent =>
         && w.ts == ts
         && if AtReset(d, j.owner) then Raised(d, j.owner) ==> CapturedPresence(d) == j.present else j.present
       case Sent =>
         && j.present && w.ts == AllHear(ts, j.bytes)
         && if d.txn.phase == TxnWait then j.back == 0 else w.txs == Replies(ts, j.bytes)
       case Answered =>
         && j.present
         && w.ts == AllHear(ts, j.bytes)
         && PulseBits(d.u[..8 * j.back]) == Wire(Replies(ts, j.bytes), j.back)
       case Over(ok) =>
         && ok == j.present
         && if ok
            then w.ts == AllHear(ts, j.bytes)
                 && (j.back > 0 ==> BitsOf(d.txn.raw[..j.back]) == Wire(Replies(ts, j.bytes), j.back))
            else w.ts == ts
  }

  predicate Doing(j: Job, ts: seq<Thermo>, w: World)
    requires AllOk(ts)
  {
    hide Inv, Claims, Fixed, Sized;
    WorldOk(w) && Sized(w.y.d) && Active(w.y, j.owner) && Fixed(j, w.y.d) && Claims(j, ts, w)
  }

  // ---- every event keeps it ----

  predicate SameJob(d: Drv, e: Drv) {
    e == d.(resolution := e.resolution, flags := d.flags.(parasite := e.flags.parasite))
  }

  lemma FixedKept(j: Job, d: Drv, e: Drv)
    requires Sized(d) && Sized(e) && Fixed(j, d) && e.rom == d.rom && UseMatch(e) == UseMatch(d)
    requires e.res.pending == d.res.pending && SameCommand(d.txn, e.txn)
    requires j.owner == Command ==> e.txn.readBytes == d.txn.readBytes && e.txn.waitUs == d.txn.waitUs
                                    && e.txn.hasOut == d.txn.hasOut && (e.txn.phase != TxnDone ==> !e.txn.ok)
    requires j.owner == Resolution ==> (e.res.phase != ResDone ==> !e.res.applied)
    ensures Fixed(j, e)
  {
    hide CommandBytes, ResolutionBytes, MeasureBytes, Sized;
    BytesFrame(d, e);
  }

  lemma OtherKeeps(j: Job, ts: seq<Thermo>, w: World, e: Event)
    requires AllOk(ts) && Doing(j, ts, w) && EventOk(e) && !e.Complete? && !OwnPoll(e, j.owner)
    ensures Doing(j, ts, Next(w, e))
  {
    hide Inv, Step, Claims, Fixed, Sized;
    var z := Next(w, e);
    OwnersAre(j, w.y.d);
    OthersLeave(w.y, e, j.owner);
    RomSized(z.y);
    ClaimsStay(j, ts, w, z);
    FixedSame(j, w.y.d, z.y.d);
  }

  lemma OwnersAre(j: Job, d: Drv)
    requires Sized(d) && Fixed(j, d)
    ensures j.owner == Command || j.owner == Resolution
    ensures j.rest <= 10000
    ensures j.owner == Command ==>
              d.txn.readBytes == j.back && d.txn.waitUs == j.rest && d.txn.hasOut == j.out
    ensures j.owner == Command && d.txn.phase != TxnDone ==> !d.txn.ok
    ensures j.owner == Resolution ==>
              j.back == 0 && d.res.pending == j.bits && (d.res.phase != ResDone ==> !d.res.applied)
    ensures FedBytes(d, j.owner) == j.bytes
  {
    hide CommandBytes, ResolutionBytes, MeasureBytes, Sized;
  }

  lemma FixedSame(j: Job, d: Drv, e: Drv)
    requires Sized(d) && Sized(e) && Fixed(j, d) && SameJob(d, e)
    ensures Fixed(j, e)
  {
    hide CommandBytes, ResolutionBytes, MeasureBytes, Sized;
    FixedKept(j, d, e);
  }

  /** A command under way waits for its own operation, or has its flag up. */
  lemma JobWaits(y: Sys, o: Owner)
    requires Inv(y) && Active(y, o) && (o == Command || o == Resolution)
    requires StageOf(y.d, o).Over? == false
    ensures |y.d.u| == CAPTURE_LEN
    ensures if y.d.bus.armed.Some?
            then var a := y.d.bus.armed.value;
                 && a.owner == o && !Raised(y.d, o) && !y.d.bus.uif
                 && (if o == Resolution then
                       match y.d.res.phase
                       case ResReset => a.op == ResetOp
                       case _ => a.op.WriteOp?
                     else
                       match y.d.txn.phase
                       case TxnReset => a.op == ResetOp
                       case TxnWrite => a.op.WriteOp?
                       case TxnRead => a.op == ReadOp(y.d.txn.readBytes)
                       case _ => a.op == WaitOp(y.d.txn.waitUs))
            else y.d.bus.uif && Raised(y.d, o)
  {
    hide S.Ok, TableOk, MeasureBytes;
  }

  lemma CompleteKeeps(j: Job, ts: seq<Thermo>, w: World, e: Event)
    requires AllOk(ts) && Doing(j, ts, w) && Steady(w, e, j.present) && e.Complete?
    ensures Doing(j, ts, Next(w, e))
  {
    hide CapturedPresence, Inv, Step, Hear, Wire, PulseBits, BitsOf, Fixed, Sized, FedBytes, Decoded;
    OwnersAre(j, w.y.d);
    var z := Next(w, e);
    if w.y.d.bus.armed.None? {
      NothingCompletes(w.y, e);
    } else {
      ArmedStage(w.y, j.owner);
      JobWaits(w.y, j.owner);
      CompletionIs(w.y, e);
      RomSized(z.y);
      FixedCompleted(j, w.y.d, z.y.d);
      var op := w.y.d.bus.armed.value.op;
      if op.WriteOp? {
        FedBytesHeard(w.y, j.owner, op.slots);
      } else if op.WaitOp? {
        GapLeaves(w.ts, op.us);
      } else if op.ReadOp? {
        ReadCaptured(w.y, e);
      } else if op.ResetOp? {
        ResetCaptured(w.y, e);
      }
    }
  }

  lemma ReadCaptured(y: Sys, e: Event)
    requires Inv(y) && EventOk(e) && e.Complete? && y.d.bus.armed.Some? && y.d.bus.armed.value.op.ReadOp?
    ensures |y.d.u| == CAPTURE_LEN && |e.capture| <= |Step(y, e).d.u| && Step(y, e).d.u[..|e.capture|] == e.capture
  {
    hide S.Ok, TableOk, OpFits;
  }

  lemma ResetCaptured(y: Sys, e: Event)
    requires Inv(y) && EventOk(e) && e.Complete? && y.d.bus.armed.Some? && y.d.bus.armed.value.op == ResetOp
    requires e.captured == 2 ==> |e.capture| >= 4
    ensures |Step(y, e).d.u| == CAPTURE_LEN && CapturedPresence(Step(y, e).d) == Seen(e)
  {
    hide S.Ok, TableOk, OpFits;
  }

  /** Nothing is under way once the command is over. */
  lemma ArmedStage(y: Sys, o: Owner)
    requires Inv(y) && Active(y, o) && (o == Command || o == Resolution) && y.d.bus.armed.Some?
    ensures !StageOf(y.d, o).Over?
  {
    hide S.Ok, TableOk, MeasureBytes;
  }

  lemma FixedCompleted(j: Job, d: Drv, e: Drv)
    requires Sized(d) && Sized(e) && Fixed(j, d) && e == d.(u := e.u, bus := e.bus)
    ensures Fixed(j, e)
  {
    hide CommandBytes, ResolutionBytes, MeasureBytes, Sized;
    FixedKept(j, d, e);
  }

  // ---- the polls ----

  predicate EndsCommand(e: Event) {
    e.TxnPoll? || e.ScratchPoll? || e.DetectPoll?
  }

  /** Where the poll of a transaction whose operation has completed takes it. */
  predicate TxnGoes(d: Drv, e: Drv) {
    && |d.u| == CAPTURE_LEN && |d.txn.raw| == SCRATCH_LEN && d.txn.readBytes <= SCRATCH_LEN
    && e == d.(txn := e.txn, bus := e.bus, resolution := e.resolution,
               flags := d.flags.(parasite := e.flags.parasite))
    && e.bus.raiser.None? && |e.txn.raw| == SCRATCH_LEN
    && e.txn == d.txn.(phase := e.txn.phase, ok := e.txn.ok, raw := e.txn.raw)
    && (e.txn.phase != TxnDone ==> e.txn.ok == d.txn.ok)
    && match d.txn.phase
       case TxnReset => e.txn.ok == d.txn.ok && e.txn.phase == if CapturedPresence(d) then TxnWrite else TxnDone
       case TxnWrite =>
         if d.txn.readBytes > 0 then e.txn.phase == TxnRead
         else e.txn.phase == TxnWait || (e.txn.phase == TxnDone && e.txn.ok)
       case TxnRead =>
         && e.txn.phase == TxnDone && e.txn.ok
         && BitsOf(e.txn.raw[..d.txn.readBytes]) == PulseBits(d.u[..8 * d.txn.readBytes])
       case _ => e.txn.phase == TxnDone && e.txn.ok
  }

  lemma TxnStages(d: Drv)
    requires Sized(d) && d.bus.armed.None? && !d.bus.uif && d.bus.raiser.None? && d.txn.phase != TxnDone
    ensures TxnGoes(d, TxnSwitchSpec(d))
  {
    hide CapturedPresence, PulseBits, BitsOf, Sized, Decoded, TxnWriteDone, Overwrite, TxnGoes;
    SizedMeans(d);
    if d.txn.phase == TxnWrite {
      WriteGoes(d);
    } else if d.txn.phase == TxnRead {
      ReadGoes(d);
    } else {
      OthersGo(d);
    }
  }

  lemma WriteGoes(d: Drv)
    requires |d.u| == CAPTURE_LEN && |d.txn.raw| == SCRATCH_LEN && d.txn.readBytes <= SCRATCH_LEN
    requires d.txn.phase == TxnWrite && d.bus.armed.None? && !d.bus.uif && d.bus.raiser.None?
    ensures TxnGoes(d, TxnWriteDone(d))
  {
    hide CapturedPresence, PulseBits, BitsOf;
    if d.txn.readBytes == 0 && d.txn.waitUs == 0 {
      WriteEnds(d);
    }
  }

  lemma WriteEnds(d: Drv)
    requires d.txn.readBytes == 0 && d.txn.waitUs == 0 && d.bus.raiser.None?
    ensures TxnWriteDone(d) ==
            d.(txn := d.txn.(phase := TxnDone, ok := true),
               bus := if d.flags.parasite then PullUp(d.bus, false) else d.bus)
    ensures TxnWriteDone(d).bus.raiser.None?
  {
  }

  lemma ReadGoes(d: Drv)
    requires Sized(d) && d.txn.phase == TxnRead && d.bus.armed.None? && !d.bus.uif && d.bus.raiser.None?
    ensures TxnGoes(d, TxnSwitchSpec(d))
  {
    hide CapturedPresence, PulseBits, BitsOf, Sized, Decoded;
    SizedMeans(d);
    var s := Decoded(d.u[..8 * d.txn.readBytes]);
    assert (s + d.txn.raw[|s|..])[..|s|] == s;
  }

  lemma OthersGo(d: Drv)
    requires Sized(d) && d.bus.armed.None? && !d.bus.uif && d.bus.raiser.None?
    requires d.txn.phase == TxnReset || d.txn.phase == TxnWait
    ensures TxnGoes(d, TxnSwitchSpec(d))
  {
    hide CapturedPresence, PulseBits, BitsOf, Sized;
    SizedMeans(d);
  }

  lemma TxnGone(y: Sys, e: Event)
    requires Inv(y) && EndsCommand(e) && !y.d.txn.finished && y.d.txn.phase != TxnDone
    ensures if y.d.bus.uif then TxnGoes(y.d, Step(y, e).d) else SameJob(y.d, Step(y, e).d)
  {
    hide Inv, Step, PulseBits, BitsOf, Sized, TxnSwitchSpec, CapturedPresence, Decoded;
    RomSized(y);
    JobWaits(y, Command);
    TxnPolled(y, e);
    if y.d.bus.uif {
      var c := y.d.(bus := Consumed(y.d.bus));
      ConsumedSized(y.d);
      SamePresence(y.d, c);
      TxnStages(c);
    }
  }

  lemma TxnPolled(y: Sys, e: Event)
    requires Inv(y) && EndsCommand(e)
    ensures SameJob(TxnPollSpec(y.d), Step(y, e).d)
  {
    hide S.Ok, TableOk, BusOk, Sized, TxnPollSpec, Crc8Of, ByteBits;
  }

  lemma CommandPolled(j: Job, ts: seq<Thermo>, w: World, e: Event)
    requires AllOk(ts) && Doing(j, ts, w) && OwnPoll(e, Command) && j.owner == Command && w.y.d.txn.phase != TxnDone
    requires EventOk(e)
    ensures Doing(j, ts, Next(w, e))
  {
    hide Inv, Step, Fixed, Sized, FedBytes, Claims, TxnGoes;
    OwnersAre(j, w.y.d);
    TxnGone(w.y, e);
    var d, z := w.y.d, Next(w, e);
    RomSized(z.y);
    if d.bus.uif {
      RaisedIs(w.y, Command);
      FixedPolled(j, d, z.y.d);
      ClaimsMove(j, ts, w, z);
      StillActive(d, z.y.d);
    } else {
      FixedSame(j, d, z.y.d);
      ClaimsStay(j, ts, w, z);
    }
  }

  lemma RaisedIs(y: Sys, o: Owner)
    requires Inv(y) && Active(y, o) && (o == Command || o == Resolution) && !StageOf(y.d, o).Over? && y.d.bus.uif
    ensures Raised(y.d, o)
  {
    hide Inv;
    JobWaits(y, o);
  }

  lemma StillActive(d: Drv, e: Drv)
    requires TxnGoes(d, e)
    ensures e.txn.finished == d.txn.finished
  {
    hide BitsOf, PulseBits, CapturedPresence;
  }

  lemma ClaimsMove(j: Job, ts: seq<Thermo>, w: World, z: World)
    requires AllOk(ts) && AllOk(w.ts) && Claims(j, ts, w) && j.owner == Command && w.y.d.txn.phase != TxnDone
    requires TxnGoes(w.y.d, z.y.d) && Raised(w.y.d, Command) && z.ts == w.ts && z.txs == w.txs
    requires j.back == w.y.d.txn.readBytes && !w.y.d.txn.ok
    ensures Claims(j, ts, z)
  {
    hide AllOk, Hear, Wire, PulseBits, BitsOf, CapturedPresence;
  }

  lemma ClaimsStay(j: Job, ts: seq<Thermo>, w: World, z: World)
    requires AllOk(ts) && AllOk(w.ts) && Claims(j, ts, w) && SameJob(w.y.d, z.y.d) && z.ts == w.ts && z.txs == w.txs
    ensures Claims(j, ts, z)
  {
    hide AllOk, Hear, Wire, PulseBits, BitsOf, CapturedPresence;
    SamePresence(w.y.d, z.y.d);
  }

  lemma SamePresence(d: Drv, e: Drv)
    requires |d.u| == CAPTURE_LEN && e.u == d.u && e.bus.captured == d.bus.captured
    ensures CapturedPresence(e) == CapturedPresence(d)
  {
  }

  lemma ConsumedSized(d: Drv)
    requires Sized(d)
    ensures Sized(d.(bus := Consumed(d.bus)))
  {
  }

  lemma FixedPolled(j: Job, d: Drv, e: Drv)
    requires Sized(d) && Sized(e) && Fixed(j, d) && j.owner == Command
    requires TxnGoes(d, e) && d.txn.phase != TxnDone
    ensures Fixed(j, e)
  {
    hide BitsOf, PulseBits, CapturedPresence, CommandBytes, ResolutionBytes, MeasureBytes, Sized;
    OwnersAre(j, d);
    FixedKept(j, d, e);
  }

  lemma ResolutionPolled(j: Job, ts: seq<Thermo>, w: World)
    requires AllOk(ts) && Doing(j, ts, w) && j.owner == Resolution && w.y.d.res.phase != ResDone
    ensures Doing(j, ts, Next(w, ResolutionPoll))
  {
    hide Inv, Hear, Wire, PulseBits, BitsOf, Fixed, Sized, FedBytes, CapturedPresence;
    OwnersAre(j, w.y.d);
    JobWaits(w.y, Resolution);
    var d, z := w.y.d, Next(w, ResolutionPoll);
    RomSized(w.y);
    RomSized(z.y);
    FixedKept(j, d, z.y.d);
  }

  lemma DoingNext(j: Job, ts: seq<Thermo>, w: World, e: Event)
    requires AllOk(ts) && Doing(j, ts, w) && Steady(w, e, j.present) && Active(Next(w, e).y, j.owner)
    ensures Doing(j, ts, Next(w, e))
  {
    hide Seen, Inv, Step, Hear, Wire, PulseBits, BitsOf, Fixed, Sized, FedBytes, Honest, Next;
    HonestIs(w, e);
    OwnersAre(j, w.y.d);
    if e.Complete? {
      CompleteKeeps(j, ts, w, e);
    } else if !OwnPoll(e, j.owner) {
      OtherKeeps(j, ts, w, e);
    } else if j.owner == Command {
      if w.y.d.txn.phase == TxnDone {
        LastPoll(w, e);
      } else {
        CommandPolled(j, ts, w, e);
      }
    } else {
      if w.y.d.res.phase == ResDone {
        LastResolutionPoll(w);
      } else {
        ResolutionPolled(j, ts, w);
      }
    }
  }

  /** The poll that finds a transaction over ends it. */
  lemma LastPoll(w: World, e: Event)
    requires WorldOk(w) && EventOk(e) && OwnPoll(e, Command) && w.y.d.txn.phase == TxnDone
    ensures Next(w, e).y.d.txn == w.y.d.txn.(finished := true)
    ensures Next(w, e).ts == w.ts
  {
    hide Inv, Step;
    TxnPolled(w.y, e);
    RomSized(w.y);
  }

  lemma LastResolutionPoll(w: World)
    requires WorldOk(w) && w.y.d.res.phase == ResDone
    ensures Next(w, ResolutionPoll).y.d.res == w.y.d.res.(finished := true)
    ensures Next(w, ResolutionPoll).ts == w.ts
  {
    hide Inv;
    RomSized(w.y);
  }

  // ---- what a command asks, and what it does to a device ----

  predicate Addressed(d: Drv, t: Thermo) {
    d.flags.addressMode && !d.flags.scanMode ==> t.rom == d.rom
  }

  /** The addressing: Match ROM with the selected code, or Skip ROM. */
  function Addressing(d: Drv): (p: seq<byte>)
    requires |d.rom| == 8
    ensures p == Prefix(d, UseMatch(d))
  {
    if d.flags.addressMode && !d.flags.scanMode then [0x55] + d.rom else [0xCC]
  }

  function Asked(d: Drv, cmd: Cmd): seq<byte>
    requires Sized(d)
  {
    match cmd
    case ReadRom => [0x33]
    case Thresholds(th, tl) => Addressing(d) + [0x4E, th, tl, 32 * d.resolution - 257]
    case ReadScratchpad => Addressing(d) + [0xBE]
    case CopyScratchpad => Addressing(d) + [0x48]
    case RecallEeprom => Addressing(d) + [0xB8]
    case DetectParasite => Addressing(d) + [0xB4]
  }

  function ReadBack(cmd: Cmd): (n: nat)
    ensures n <= 9
  {
    match cmd
    case ReadRom => 8
    case ReadScratchpad => 9
    case DetectParasite => 1
    case _ => 0
  }

  function JobOf(d: Drv, cmd: Cmd, hasOut: bool, present: bool): Job
    requires Sized(d)
  {
    var rest := if cmd == CopyScratchpad || cmd == RecallEeprom then 10000 else 0;
    var out := ((cmd == ReadRom || cmd == ReadScratchpad) && hasOut) || cmd == DetectParasite;
    Job(Command, Asked(d, cmd), ReadBack(cmd), rest, out, 0, present)
  }

  lemma CommandBegins(w: World, cmd: Cmd, hasOut: bool, present: bool)
    requires WorldOk(w) && Sized(w.y.d) && CanStart(w.y.d, !w.y.s.finished)
    ensures Doing(JobOf(w.y.d, cmd, hasOut, present), w.ts, Next(w, Start(cmd, hasOut)))
  {
    hide Inv, Step, Hear, Wire, PulseBits, BitsOf, CapturedPresence, Sized, FedBytes, Fixed, Asked, ReadBack;
    var z := Next(w, Start(cmd, hasOut));
    RomSized(z.y);
    TxnStarts(w.y, cmd, hasOut);
    CommandFixed(w.y.d, cmd, hasOut, present, z.y.d);
  }

  predicate Latches(d: Drv, r: Request, e: Drv)
    requires |d.txn.payload| == 3 && |r.payload| <= 3
  {
    && e == d.(txn := e.txn, pulses := e.pulses, bus := e.bus)
    && e.txn == Latched(d, r).txn.(slots := e.txn.slots, phase := TxnReset) && e.bus.raiser.None?
  }

  lemma TxnStarts(y: Sys, cmd: Cmd, hasOut: bool)
    requires Inv(y) && CanStart(y.d, !y.s.finished)
    ensures Sized(y.d) && |Step(y, Start(cmd, hasOut)).d.u| == CAPTURE_LEN
    ensures |Step(y, Start(cmd, hasOut)).d.txn.raw| == SCRATCH_LEN
    ensures Latches(y.d, RequestOf(y.d, cmd, hasOut), Step(y, Start(cmd, hasOut)).d)
  {
    hide S.Ok, TableOk, BusOk, RequestOf;
  }

  lemma CommandFixed(d: Drv, cmd: Cmd, hasOut: bool, present: bool, e: Drv)
    requires Sized(d) && Sized(e) && Latches(d, RequestOf(d, cmd, hasOut), e)
    ensures Fixed(JobOf(d, cmd, hasOut, present), e)
    ensures var j := JobOf(d, cmd, hasOut, present); j.owner == Command && j.present == present && j.back <= 9
  {
    hide Prefix, CommandBytes, Addressing;
    CommandBytesAre(d, RequestOf(d, cmd, hasOut), e);
  }

  lemma CommandBytesAre(d: Drv, r: Request, e: Drv)
    requires Sized(d) && |r.payload| <= 3
    requires e.rom == d.rom && UseMatch(e) == UseMatch(d) && e.txn.payloadLen <= 3 == |e.txn.payload|
    requires SameCommand(Latched(d, r).txn, e.txn)
    ensures CommandBytes(e) == (if r.bare then [] else Prefix(d, UseMatch(d))) + [r.command] + r.payload
  {
    assert Latched(d, r).txn.payload[..|r.payload|] == r.payload;
  }

  /** The device after the command. */
  function Affected(d: Drv, cmd: Cmd, t: Thermo): Thermo
    requires Sized(d)
  {
    match cmd
    case Thresholds(th, tl) => t.(th := th, tl := tl, config := 32 * d.resolution - 257)
    case CopyScratchpad => t.(saved := (t.th, t.tl, t.config))
    case RecallEeprom => t.(th := t.saved.0, tl := t.saved.1, config := Configured(t.saved.2))
    case _ => t
  }

  function Reply(d: Drv, cmd: Cmd, t: Thermo): seq<byte>
    requires ThermoOk(t)
  {
    match cmd
    case ReadRom => t.rom
    case ReadScratchpad => if Addressed(d, t) then Scratchpad(t) else []
    case DetectParasite => if Addressed(d, t) then [if t.external then 0xFF else 0] else []
    case _ => []
  }

  lemma CommandHeard(d: Drv, cmd: Cmd, t: Thermo)
    requires Sized(d) && ThermoOk(t)
    ensures var r := Hear(t, Asked(d, cmd));
            r == (if Addressed(d, t) then Affected(d, cmd, t) else t, Reply(d, cmd, t))
  {
    hide Scratchpad, Addressing, Addressed, Body;
    match cmd
    case ReadRom =>
    case Thresholds(th, tl) =>
      hide Hear;
      WriteHeard(d, t, th, tl, 32 * d.resolution - 257);
    case ReadScratchpad =>
      hide Hear;
      CodeHeard(d, t, 0xBE);
    case CopyScratchpad =>
      hide Hear;
      CodeHeard(d, t, 0x48);
    case RecallEeprom =>
      hide Hear;
      CodeHeard(d, t, 0xB8);
    case DetectParasite =>
      hide Hear;
      CodeHeard(d, t, 0xB4);
  }

  lemma WriteHeard(d: Drv, t: Thermo, th: byte, tl: byte, config: byte)
    requires |d.rom| == 8 && ThermoOk(t)
    ensures Hear(t, Addressing(d) + [0x4E, th, tl, config]) ==
            (if Addressed(d, t) then t.(th := th, tl := tl, config := Configured(config)) else t, [])
  {
    hide Scratchpad, Addressing, Addressed, Body;
    BodyIs(d, t, [0x4E, th, tl, config]);
  }

  lemma CodeHeard(d: Drv, t: Thermo, code: byte)
    requires |d.rom| == 8 && ThermoOk(t)
    ensures var r := Hear(t, Addressing(d) + [code]);
            if !Addressed(d, t) then r == (t, [])
            else if code == 0xBE then r == (t, Scratchpad(t))
            else if code == 0x48 then r == (t.(saved := (t.th, t.tl, t.config)), [])
            else if code == 0xB8 then
              r == (t.(th := t.saved.0, tl := t.saved.1, config := Configured(t.saved.2)), [])
            else code == 0xB4 ==> r == (t, [if t.external then 0xFF else 0])
  {
    hide Scratchpad, Addressing, Addressed, Body;
    BodyIs(d, t, [code]);
  }

  lemma BodyIs(d: Drv, t: Thermo, rest: seq<byte>)
    requires |d.rom| == 8 && |t.rom| == 8
    ensures Body(t, Addressing(d) + rest) == (if Addressed(d, t) then rest else []) && Addressing(d) + rest != [0x33]
  {
    hide Prefix;
    BodyOf(d, UseMatch(d), t, rest);
  }

  // ---- whole runs ----

  /** The command is never over in between, and its resets are answered or not. */
  ghost predicate Throughout(w: World, events: seq<Event>, o: Owner, present: bool)
    requires WorldOk(w)
    decreases |events|
  {
    hide WorldOk, Steady, Next;
    && Active(w.y, o)
    && (events == [] ||
        (Steady(w, events[0], present) && Honest(w, events[0])
         && Throughout(Next(w, events[0]), events[1..], o, present)))
  }

  lemma {:induction false} DoingRun(j: Job, ts: seq<Thermo>, w: World, events: seq<Event>)
    requires AllOk(ts) && WorldOk(w) && Doing(j, ts, w) && HonestRun(w, events)
    requires Throughout(w, events, j.owner, j.present)
    ensures Doing(j, ts, RunAll(w, events))
    decreases |events|
  {
    hide WorldOk, Doing, Steady, Honest, Next, Active;
    if events != [] {
      var z := Next(w, events[0]);
      assert Active(z.y, j.owner);
      DoingNext(j, ts, w, events[0]);
      DoingRun(j, ts, z, events[1..]);
    }
  }

  /** What is captured for a command: the wired AND of the answers. */
  predicate Returned(w: World, d: Drv, cmd: Cmd, ts: seq<Thermo>)
    requires AllOk(ts) && Sized(d)
  {
    var n := ReadBack(cmd);
    |w.y.d.txn.raw| == SCRATCH_LEN && BitsOf(w.y.d.txn.raw[..n]) == Wire(Replies(ts, Asked(d, cmd)), n)
  }

  /** In every run over any number of DS18B20s, from the accepted start of a command to the poll that
      ends it and whatever is called and polled in between: if its reset was answered the command has
      succeeded, has done to every device it addresses what the command is for and nothing to the
      others, and has captured the wired AND of their answers; otherwise it has failed, and no device
      has changed. */
  lemma CommandDoes(w0: World, cmd: Cmd, hasOut: bool, present: bool, events: seq<Event>, e: Event)
    requires WorldOk(w0) && Sized(w0.y.d) && CanStart(w0.y.d, !w0.y.s.finished) && EndsCommand(e)
    requires var w1 := Next(w0, Start(cmd, hasOut));
             && HonestRun(w1, events) && Throughout(w1, events, Command, present)
             && RunAll(w1, events).y.d.txn.phase == TxnDone
    ensures var z := Next(RunAll(Next(w0, Start(cmd, hasOut)), events), e);
            && z.y.d.txn.finished && z.y.d.txn.ok == present && |z.ts| == |w0.ts|
            && (forall i | 0 <= i < |w0.ts| ::
                  z.ts[i] == if present && Addressed(w0.y.d, w0.ts[i])
                             then Affected(w0.y.d, cmd, w0.ts[i]) else w0.ts[i])
            && (present && ReadBack(cmd) > 0 ==> Returned(z, w0.y.d, cmd, w0.ts))
  {
    hide Inv, Step, Hear, Wire, PulseBits, BitsOf, Fixed, Sized, FedBytes, CapturedPresence, Addressed, Affected, Asked,
         RunAll, HonestRun, Throughout, Replies;
    CommandBegins(w0, cmd, hasOut, present);
    var j := JobOf(w0.y.d, cmd, hasOut, present);
    DoingRun(j, w0.ts, Next(w0, Start(cmd, hasOut)), events);
    var w := RunAll(Next(w0, Start(cmd, hasOut)), events);
    LastPoll(w, e);
    forall i | 0 <= i < |w0.ts| && present
      ensures w.ts[i] == if Addressed(w0.y.d, w0.ts[i]) then Affected(w0.y.d, cmd, w0.ts[i]) else w0.ts[i]
    {
      assert w0.ts[i] in w0.ts;
      CommandHeard(w0.y.d, cmd, w0.ts[i]);
    }
  }

  /** The bytes read back by the three reading commands. */
  lemma ReturnedMeans(z: World, d: Drv, cmd: Cmd, ts: seq<Thermo>, i: nat)
    requires AllOk(ts) && Sized(d) && Returned(z, d, cmd, ts)
    ensures cmd == ReadRom && |ts| == 1 ==> z.y.d.txn.raw[..8] == ts[0].rom
    ensures cmd == ReadScratchpad && OnlyAddressed(d, ts, i) ==> z.y.d.txn.raw == Scratchpad(ts[i])
    ensures cmd == DetectParasite ==>
              (z.y.d.txn.raw[0] % 2 == 1 <==> forall t | t in ts && Addressed(d, t) :: t.external)
  {
    hide Hear, BitsOf, Scratchpad, Sized, Addressed, Wire, Replies, Addressing;
    var raw := z.y.d.txn.raw;
    var txs := Replies(ts, Asked(d, cmd));
    forall k | 0 <= k < |ts| ensures txs[k] == Reply(d, cmd, ts[k]) {
      assert ts[k] in ts;
      CommandHeard(d, cmd, ts[k]);
    }
    match cmd
    case ReadRom =>
      if |ts| == 1 {
        assert ts[0] in ts;
        OneTransmits(txs, 0);
        BitsOfInjective(raw[..8], ts[0].rom);
      }
    case ReadScratchpad =>
      if OnlyAddressed(d, ts, i) {
        assert ts[i] in ts;
        OneTransmits(txs, i);
        BitsOfInjective(raw[..9], Scratchpad(ts[i]));
      }
    case DetectParasite =>
      PowerBit(d, ts, txs, raw[..1]);
    case _ =>
  }

  predicate OnlyAddressed(d: Drv, ts: seq<Thermo>, i: nat) {
    i < |ts| && Addressed(d, ts[i]) && forall k | 0 <= k < |ts| && k != i :: !Addressed(d, ts[k])
  }

  /** One addressed device without external power pulls the first read slot low. */
  lemma PowerBit(d: Drv, ts: seq<Thermo>, txs: seq<seq<byte>>, s: seq<byte>)
    requires |s| == 1 && BitsOf(s) == Wire(txs, 1) && |txs| == |ts|
    requires forall k | 0 <= k < |ts| ::
               txs[k] == if Addressed(d, ts[k]) then [if ts[k].external then 0xFF else 0] else []
    ensures s[0] % 2 == 1 <==> forall t | t in ts && Addressed(d, t) :: t.external
  {
    hide Addressed;
    FirstBit(s);
    FirstBit([0xFF]);
    FirstBit([0]);
    assert BitsOf(s)[0] == WireBit(txs, 0);
  }

  lemma FirstBit(s: seq<byte>)
    requires |s| == 1
    ensures BitsOf(s)[0] <==> s[0] % 2 == 1
  {
    BitsOfAt(s, 0);
    ByteBitsAt(s[0], 0);
    assert BitsOf(s)[0..8][0] == BitsOf(s)[0];
  }

  // ---- what the polls adopt ----

  lemma DetectAdopts(y: Sys)
    requires Inv(y) && y.d.txn.phase == TxnDone && !y.d.txn.finished
    ensures |y.d.txn.raw| == SCRATCH_LEN
    ensures Step(y, DetectPoll).d.flags.parasite ==
            (if y.d.txn.ok then y.d.txn.raw[0] % 2 == 0 else y.d.flags.parasite)
  {
    hide S.Ok, TableOk, BusOk;
  }

  /** The power mode detected: parasite if one of the devices asked has no external power. */
  lemma DetectReportsTruth(w0: World, hasOut: bool, present: bool, events: seq<Event>)
    requires WorldOk(w0) && Sized(w0.y.d) && CanStart(w0.y.d, !w0.y.s.finished)
    requires var w1 := Next(w0, Start(DetectParasite, hasOut));
             && HonestRun(w1, events) && Throughout(w1, events, Command, present)
             && RunAll(w1, events).y.d.txn.phase == TxnDone
    ensures var w := RunAll(Next(w0, Start(DetectParasite, hasOut)), events);
            var z := Next(w, DetectPoll);
            && z.ts == w0.ts
            && z.y.d.flags.parasite ==
               if present then exists t :: t in w0.ts && Addressed(w0.y.d, t) && !t.external
               else w.y.d.flags.parasite
  {
    hide Inv, Step, Sized, RunAll, HonestRun, Throughout, Replies, Wire, BitsOf, Addressed, Doing;
    CommandDoes(w0, DetectParasite, hasOut, present, events, DetectPoll);
    var w := RunAll(Next(w0, Start(DetectParasite, hasOut)), events);
    var z := Next(w, DetectPoll);
    StillBusy(Next(w0, Start(DetectParasite, hasOut)), events, Command, present);
    LastPoll(w, DetectPoll);
    DetectAdopts(w.y);
    if present {
      ReturnedMeans(z, w0.y.d, DetectParasite, w0.ts, 0);
    }
  }

  lemma {:induction false} StillBusy(w: World, events: seq<Event>, o: Owner, present: bool)
    requires WorldOk(w) && HonestRun(w, events) && Throughout(w, events, o, present)
    ensures Active(RunAll(w, events).y, o)
    decreases |events|
  {
    hide WorldOk, Steady, Honest, Next, Active;
    if events != [] {
      StillBusy(Next(w, events[0]), events[1..], o, present);
    }
  }

  lemma ScratchAdopts(y: Sys)
    requires Inv(y) && y.d.txn.phase == TxnDone && !y.d.txn.finished
    ensures |y.d.txn.raw| == SCRATCH_LEN
    ensures Step(y, ScratchPoll).d.resolution ==
            (if y.d.txn.ok && y.d.txn.hasOut && ByteBits(y.d.txn.raw[8]) == Crc8Of(y.d.txn.raw[..8])
             then 9 + y.d.txn.raw[4] / 32 % 4 else y.d.resolution)
  {
    hide S.Ok, TableOk, BusOk, Crc8Of, ByteBits;
  }

  /** The scratchpad read back from the only device asked is its own, and when the caller wants it,
      its resolution is the tracked one from then on. */
  lemma ScratchpadReportsTruth(w0: World, hasOut: bool, present: bool, events: seq<Event>, i: nat)
    requires WorldOk(w0) && Sized(w0.y.d) && CanStart(w0.y.d, !w0.y.s.finished)
    requires var w1 := Next(w0, Start(ReadScratchpad, hasOut));
             && HonestRun(w1, events) && Throughout(w1, events, Command, present)
             && RunAll(w1, events).y.d.txn.phase == TxnDone
    requires present ==> OnlyAddressed(w0.y.d, w0.ts, i)
    ensures var w := RunAll(Next(w0, Start(ReadScratchpad, hasOut)), events);
            var z := Next(w, ScratchPoll);
            && z.ts == w0.ts
            && (present ==> i < |w0.ts| && z.y.d.txn.raw == Scratchpad(w0.ts[i]))
            && z.y.d.resolution == if present && hasOut then 9 + w0.ts[i].config / 32 else w.y.d.resolution
  {
    hide Inv, Step, Sized, RunAll, HonestRun, Throughout, Replies, Wire, BitsOf, Addressed, Doing, Scratchpad, Crc8Of,
         ByteBits, Returned, OnlyAddressed;
    CommandDoes(w0, ReadScratchpad, hasOut, present, events, ScratchPoll);
    var w := RunAll(Next(w0, Start(ReadScratchpad, hasOut)), events);
    var z := Next(w, ScratchPoll);
    StillBusy(Next(w0, Start(ReadScratchpad, hasOut)), events, Command, present);
    OutLatched(w0, ReadScratchpad, hasOut, present, events);
    LastPoll(w, ScratchPoll);
    ScratchAdopts(w.y);
    if present {
      ReturnedMeans(z, w0.y.d, ReadScratchpad, w0.ts, i);
      OnlyIn(w0.y.d, w0.ts, i);
      ScratchpadSays(w0.ts[i]);
    }
  }

  lemma OnlyIn(d: Drv, ts: seq<Thermo>, i: nat)
    requires OnlyAddressed(d, ts, i)
    ensures i < |ts| && ts[i] in ts
  {
  }

  lemma OutLatched(w0: World, cmd: Cmd, hasOut: bool, present: bool, events: seq<Event>)
    requires WorldOk(w0) && Sized(w0.y.d) && CanStart(w0.y.d, !w0.y.s.finished)
    requires var w1 := Next(w0, Start(cmd, hasOut));
             HonestRun(w1, events) && Throughout(w1, events, Command, present)
    ensures var w := RunAll(Next(w0, Start(cmd, hasOut)), events);
            w.y.d.txn.hasOut == JobOf(w0.y.d, cmd, hasOut, present).out
  {
    hide Inv, Step, Hear, Wire, PulseBits, BitsOf, Fixed, Sized, FedBytes, CapturedPresence, Asked, RunAll, HonestRun,
         Throughout, Replies;
    CommandBegins(w0, cmd, hasOut, present);
    var j := JobOf(w0.y.d, cmd, hasOut, present);
    DoingRun(j, w0.ts, Next(w0, Start(cmd, hasOut)), events);
    OwnersAre(j, RunAll(Next(w0, Start(cmd, hasOut)), events).y.d);
  }

  /** The ROM code read from the only device on the bus is its own. */
  lemma RomReportsTruth(w0: World, hasOut: bool, present: bool, events: seq<Event>, e: Event)
    requires WorldOk(w0) && Sized(w0.y.d) && CanStart(w0.y.d, !w0.y.s.finished) && EndsCommand(e) && |w0.ts| == 1
    requires var w1 := Next(w0, Start(ReadRom, hasOut));
             && HonestRun(w1, events) && Throughout(w1, events, Command, present)
             && RunAll(w1, events).y.d.txn.phase == TxnDone
    ensures var z := Next(RunAll(Next(w0, Start(ReadRom, hasOut)), events), e);
            z.ts == w0.ts && (present ==> |z.y.d.txn.raw| == SCRATCH_LEN && z.y.d.txn.raw[..8] == w0.ts[0].rom)
  {
    hide Inv, Step, Sized, RunAll, HonestRun, Throughout, Replies, Wire, BitsOf, Addressed, Doing;
    CommandDoes(w0, ReadRom, hasOut, present, events, e);
    if present {
      ReturnedMeans(Next(RunAll(Next(w0, Start(ReadRom, hasOut)), events), e), w0.y.d, ReadRom, w0.ts, 0);
    }
  }

  // ---- the resolution change ----

  function ResolutionJob(d: Drv, bits: nat, present: bool): Job
    requires Sized(d) && 9 <= bits <= 12
  {
    Job(Resolution, Addressing(d) + [0x4E, 0, 0, 32 * bits - 257], 0, 0, false, bits, present)
  }

  lemma ResolutionBegins(w: World, bits: nat, present: bool)
    requires WorldOk(w) && Sized(w.y.d) && Parked(w.y.d, !w.y.s.finished) && 9 <= bits <= 12
    ensures Doing(ResolutionJob(w.y.d, bits, present), w.ts, Next(w, SetResolution(bits)))
  {
    hide Inv, Step, Hear, Wire, PulseBits, BitsOf, CapturedPresence, Sized, FedBytes, Fixed, Addressing;
    var z := Next(w, SetResolution(bits));
    RomSized(z.y);
    ResolutionStarts(w.y, bits);
    ResolutionFixed(w.y.d, bits, present, z.y.d);
  }

  predicate Changing(d: Drv, bits: nat, e: Drv) {
    && e == d.(res := e.res, pulses := e.pulses, bus := e.bus) && e.bus.raiser.None?
    && e.res == Res(ResReset, bits, e.res.slots, false, false)
  }

  lemma ResolutionStarts(y: Sys, bits: nat)
    requires Inv(y) && Parked(y.d, !y.s.finished) && 9 <= bits <= 12
    ensures Sized(y.d) && |Step(y, SetResolution(bits)).d.u| == CAPTURE_LEN
    ensures |Step(y, SetResolution(bits)).d.txn.raw| == SCRATCH_LEN
    ensures Changing(y.d, bits, Step(y, SetResolution(bits)).d)
  {
    hide S.Ok, TableOk, BusOk;
  }

  lemma ResolutionFixed(d: Drv, bits: nat, present: bool, e: Drv)
    requires Sized(d) && Sized(e) && 9 <= bits <= 12 && Changing(d, bits, e)
    ensures Fixed(ResolutionJob(d, bits, present), e)
  {
  }

  /** In every run over any number of DS18B20s, from an accepted resolution change to the poll that ends
      it: if its reset was answered, every device it addresses has the new resolution, with both
      thresholds 0, and it is the tracked one; otherwise no device has changed, and neither has the
      tracked resolution. */
  lemma ResolutionDoes(w0: World, bits: nat, present: bool, events: seq<Event>)
    requires WorldOk(w0) && Sized(w0.y.d) && Parked(w0.y.d, !w0.y.s.finished) && 9 <= bits <= 12
    requires var w1 := Next(w0, SetResolution(bits));
             && HonestRun(w1, events) && Throughout(w1, events, Resolution, present)
             && RunAll(w1, events).y.d.res.phase == ResDone
    ensures var w := RunAll(Next(w0, SetResolution(bits)), events);
            var z := Next(w, ResolutionPoll);
            && z.y.d.res.finished && |z.ts| == |w0.ts|
            && z.y.d.resolution == (if present then bits else w.y.d.resolution)
            && forall i | 0 <= i < |w0.ts| ::
                 z.ts[i] == if present && Addressed(w0.y.d, w0.ts[i])
                            then w0.ts[i].(th := 0, tl := 0, config := 32 * bits - 257) else w0.ts[i]
  {
    hide Inv, Step, Hear, Wire, PulseBits, BitsOf, Fixed, Sized, FedBytes, CapturedPresence, Addressed, ResolutionJob,
         RunAll, HonestRun, Throughout, Replies;
    ResolutionBegins(w0, bits, present);
    var j := ResolutionJob(w0.y.d, bits, present);
    ResolutionJobIs(w0.y.d, bits, present);
    DoingRun(j, w0.ts, Next(w0, SetResolution(bits)), events);
    var w := RunAll(Next(w0, SetResolution(bits)), events);
    LastResolutionPoll(w);
    ResolutionAdopts(w.y);
    OwnersAre(j, w.y.d);
    forall i | 0 <= i < |w0.ts| && present
      ensures w.ts[i] == if Addressed(w0.y.d, w0.ts[i])
                         then w0.ts[i].(th := 0, tl := 0, config := 32 * bits - 257) else w0.ts[i]
    {
      assert w0.ts[i] in w0.ts;
      ResolutionHeard(w0.y.d, bits, present, w0.ts[i]);
    }
  }

  lemma ResolutionJobIs(d: Drv, bits: nat, present: bool)
    requires Sized(d) && 9 <= bits <= 12
    ensures var j := ResolutionJob(d, bits, present); j.owner == Resolution && j.present == present && j.bits == bits
  {
  }

  lemma ResolutionAdopts(y: Sys)
    requires Inv(y) && y.d.res.phase == ResDone && !y.d.res.finished
    ensures Step(y, ResolutionPoll).d.resolution == (if y.d.res.applied then y.d.res.pending else y.d.resolution)
  {
    hide S.Ok, TableOk, BusOk;
  }

  lemma ResolutionHeard(d: Drv, bits: nat, present: bool, t: Thermo)
    requires Sized(d) && ThermoOk(t) && 9 <= bits <= 12
    ensures Hear(t, ResolutionJob(d, bits, present).bytes).0 ==
            if Addressed(d, t) then t.(th := 0, tl := 0, config := 32 * bits - 257) else t
  {
    hide Hear, Addressing, Addressed;
    WriteHeard(d, t, 0, 0, 32 * bits - 257);
  }
}
