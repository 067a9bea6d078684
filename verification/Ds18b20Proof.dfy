/** The DS18B20 driver over whole runs of calls, polls and completions: one owner of the
    timer, no flag consumed by a stranger, and no table rewritten while it is fed. */
module Ds18b20Proof {
  import opened Bits
  import opened PulseCodec
  import opened CrcLoops
  import opened Ds18b20
  import S = SearchEngine
  import SP = SearchProof

  /** Driver, search engine, and the reports of the current cycle. */
  datatype Sys = Sys(d: Drv, s: S.Search, log: seq<Report>)

  /** The hardware completing what was armed, the polls, and the application's calls. */
  datatype Event =
    | Complete(captured: nat, capture: seq<byte>)
    | Poll(calls: seq<Call>)
    | SearchPoll(i: S.Input)
    | ResolutionPoll
    | TxnPoll
    | ScratchPoll
    | DetectPoll
    | Select(rom: Option<seq<byte>>)
    | StartMeasure
    | ScanStart
    | SetResolution(bits: nat)
    | Start(cmd: Cmd, hasOut: bool)
    | SearchStart(alarm: bool, max: nat)
    | SetParasite(on: bool)

  predicate EventOk(e: Event) {
    && (e.Complete? ==> |e.capture| <= CAPTURE_LEN)
    && (e.Poll? ==> CallsOk(e.calls))
    && (e.Select? && e.rom.Some? ==> |e.rom.value| == 8)
    && (e.SearchStart? ==> e.max < 256)
  }

  function CompleteSpec(d: Drv, captured: nat, capture: seq<byte>): Drv {
    if d.bus.armed.None? then d
    else
      var a := d.bus.armed.value;
      d.(u := if a.op.ResetOp? || a.op.ReadOp? then Overwrite(d.u, capture) else d.u,
         bus := d.bus.(armed := None, uif := true, raiser := Some(a.owner), captured := captured))
  }

  function SearchPollSpec(y: Sys, i: S.Input): Sys
    requires S.Ok(y.s) && |y.d.devs| == MAX_DEVICES
  {
    hide S.PollSpec;
    var looks := !y.s.finished && y.s.phase != S.Done;
    var o := S.PollSpec(y.s, i.(done := y.d.bus.uif, captured := y.d.bus.captured));
    var b := if looks && y.d.bus.uif then Consumed(y.d.bus) else y.d.bus;
    var d := if o.report.Some? && y.s.command == S.SEARCH_ROM
             then StoreSpec(y.d, BytesOf(o.report.value)) else y.d;
    y.(s := o.s, d := d.(bus := if o.armed.Some? then Arm(b, Searching, SearchOp) else b))
  }

  function SearchStartSpec(y: Sys, alarm: bool, max: nat): Sys
    requires S.Ok(y.s) && max < 256
  {
    hide S.StartSpec;
    var searching := !y.s.finished;
    var d := SearchGuardSpec(y.d, alarm, searching);
    if !Parked(y.d, searching) then y
    else
      var o := S.StartSpec(y.s, true, max, if alarm then S.ALARM_SEARCH else S.SEARCH_ROM, 0x28);
      y.(s := o.s, d := if o.armed.Some? then d.(bus := Arm(d.bus, Searching, SearchOp)) else d)
  }

  function LogAfter(log: seq<Report>, d: Drv, o: Outcome): seq<Report> {
    (if d.state != StConvert && o.d.state == StConvert then [] else log)
    + if o.report.Some? then [o.report.value] else []
  }

  function Step(y: Sys, e: Event): Sys
    requires Sized(y.d) && S.Ok(y.s) && EventOk(e)
  {
    hide Ds18b20.PollSpec, ResolutionPollSpec, TxnPollSpec, SetResolutionSpec, TxnStartSpec, Ds18b20.SelectSpec,
         StartMeasureSpec, ScanStartSpec, ScratchPollSpec, DetectPollSpec;
    var searching := !y.s.finished;
    match e
    case Complete(captured, capture) => y.(d := CompleteSpec(y.d, captured, capture))
    case Poll(calls) =>
      var o := Ds18b20.PollSpec(y.d, calls, searching);
      y.(d := o.d, log := LogAfter(y.log, y.d, o))
    case SearchPoll(i) => SearchPollSpec(y, i)
    case ResolutionPoll => y.(d := ResolutionPollSpec(y.d))
    case TxnPoll => y.(d := TxnPollSpec(y.d))
    case ScratchPoll => y.(d := ScratchPollSpec(y.d))
    case DetectPoll => y.(d := DetectPollSpec(y.d))
    case Select(rom) => y.(d := SelectSpec(y.d, rom, searching))
    case StartMeasure => y.(d := StartMeasureSpec(y.d, searching))
    case ScanStart => y.(d := ScanStartSpec(y.d, searching))
    case SetResolution(bits) => y.(d := SetResolutionSpec(y.d, bits, searching))
    case Start(cmd, hasOut) => y.(d := TxnStartSpec(y.d, RequestOf(y.d, cmd, hasOut), searching))
    case SearchStart(alarm, max) => SearchStartSpec(y, alarm, max)
    case SetParasite(on) => y.(d := y.d.(flags := y.d.flags.(parasite := on)))
  }

  // ---- the invariant ----

  /** Of measurement, search (sf: finished), resolution change and transaction at most one
      is running. */
  predicate Exclusive(d: Drv, sf: bool) {
    && (d.state != StIdle ==> sf && d.res.finished && d.txn.finished)
    && (!sf ==> d.res.finished && d.txn.finished)
    && (!d.res.finished ==> d.txn.finished)
  }

  /** The machine waits for the hardware (sd: the search is in its last phase). */
  predicate Pending(d: Drv, sf: bool, sd: bool, o: Owner) {
    match o
    case Measurement => d.state != StIdle
    case Searching => !sf && !sd
    case Resolution => !d.res.finished && d.res.phase != ResDone
    case Command => !d.txn.finished && d.txn.phase != TxnDone
  }

  /** The operation under way is the one its owner's state waits for. */
  predicate OpFits(d: Drv, a: Armed)
    requires Sized(d)
  {
    hide MeasureBytes;
    match a.owner
    case Searching => a.op == SearchOp
    case Resolution =>
      (d.res.phase == ResReset && a.op == ResetOp) || (d.res.phase == ResWrite && a.op == WriteOp(d.res.slots))
    case Command =>
      (match d.txn.phase
       case TxnReset => a.op == ResetOp
       case TxnWrite => a.op == WriteOp(d.txn.slots)
       case TxnRead => a.op == ReadOp(d.txn.readBytes)
       case TxnWait => a.op == WaitOp(d.txn.waitUs)
       case TxnDone => false)
    case Measurement =>
      (match d.state
       case StConvert => a.op == ResetOp
       case StRequest => a.op == ResetOp
       case StWait => a.op == WriteOp(8 * |MeasureBytes(d, CONVERT_T)|)
       case StRead => a.op == WriteOp(8 * |MeasureBytes(d, READ_SCRATCHPAD)|)
       case StContinue => a.op.WaitOp?
       case StDecode => a.op == ReadOp(SCRATCH_LEN)
       case _ => false)
  }

  /** Nobody but a possible measurement waits for the hardware. */
  predicate OnlyMeasurement(d: Drv, sf: bool, sd: bool) {
    !Pending(d, sf, sd, Searching) && !Pending(d, sf, sd, Resolution) && !Pending(d, sf, sd, Command)
  }

  predicate BusOk(d: Drv, sf: bool, sd: bool)
    requires Sized(d)
  {
    hide OpFits;
    var b := d.bus;
    && (b.armed.Some? ==> !b.uif && Pending(d, sf, sd, b.armed.value.owner) && OpFits(d, b.armed.value))
    && (b.raiser.Some? ==> b.uif && Pending(d, sf, sd, b.raiser.value))
    && (b.uif && b.raiser.None? ==> OnlyMeasurement(d, sf, sd) && (d.state == StIdle || d.state == StStart))
    && (b.armed.None? && !b.uif ==> OnlyMeasurement(d, sf, sd) && d.state == StIdle)
  }

  predicate Starts(u: seq<byte>, part: seq<byte>) {
    part <= u
  }

  /** Whatever is being written, or is still to be written, stands in the shared table. */
  predicate TableOk(d: Drv)
    requires Sized(d)
  {
    hide Table, MeasureBytes, ResolutionBytes, CommandBytes;
    && (d.state == StWait ==> Starts(d.pulses, Table(MeasureBytes(d, CONVERT_T))))
    && (d.state == StRead ==> Starts(d.pulses, Table(MeasureBytes(d, READ_SCRATCHPAD))))
    && (!d.res.finished && d.res.phase != ResDone ==>
          d.res.slots == 8 * |ResolutionBytes(d, d.res.pending)|
          && Starts(d.pulses, Table(ResolutionBytes(d, d.res.pending))))
    && (!d.txn.finished && (d.txn.phase == TxnReset || d.txn.phase == TxnWrite) ==>
          d.txn.slots == 8 * |CommandBytes(d)| && Starts(d.pulses, Table(CommandBytes(d))))
  }

  predicate DrvOk(d: Drv, sf: bool, sd: bool) {
    Sized(d) && Exclusive(d, sf) && BusOk(d, sf, sd) && TableOk(d)
  }

  predicate Inv(y: Sys) {
    S.Ok(y.s) && DrvOk(y.d, y.s.finished, y.s.phase == S.Done)
  }

  // ---- the measurement machine keeps it ----

  /** What a callback can do: nothing while the machine is running; when it is parked,
      change the addressing and request the next cycle. */
  lemma {:induction false} CallbackFrame(d: Drv, calls: seq<Call>)
    requires CallsOk(calls) && Sized(d)
    ensures var e := CallbackSpec(d, calls, false);
            && (d.state != StIdle ==> e == d)
            && (e.state == d.state || e.state == StStart)
            && e == d.(state := e.state, flags := e.flags, rom := e.rom, bus := e.bus)
            && e.flags.parasite == d.flags.parasite && (e.flags.scanMode ==> d.flags.scanMode)
            && e.bus == (if e.state == d.state then d.bus else Kick(d.bus))
            && |e.rom| == 8
  {
    if calls != [] {
      var n := |calls| - 1;
      assert calls[n] in calls;
      assert forall c | c in calls[..n] :: c in calls;
      CallbackFrame(d, calls[..n]);
    }
  }

  lemma TableStarts(u: seq<byte>, bytes: seq<byte>)
    requires |bytes| <= 13 && |u| == TABLE_LEN
    ensures Starts(Overwrite(u, Table(bytes)), Table(bytes)) && |Overwrite(u, Table(bytes))| == TABLE_LEN
  {
    hide Encoded;
  }

  /** The flag was just consumed by the measurement machine: nothing armed, nothing else running. */
  predicate Switching(d: Drv) {
    Sized(d) && d.res.finished && d.txn.finished && d.bus.armed.None? && !d.bus.uif && d.bus.raiser.None?
  }

  lemma IssuePreserves(d: Drv, cmd: byte, next: State, calls: seq<Call>, sd: bool)
    requires Sized(d) && d.res.finished && d.txn.finished && d.bus.armed.None? && d.bus.raiser.None? && CallsOk(calls)
    requires (next == StWait && cmd == CONVERT_T) || (next == StRead && cmd == READ_SCRATCHPAD)
    requires d.flags.scanMode ==> d.scanIndex < MAX_DEVICES
    ensures var o := IssueSpec(d, cmd, next, calls, false);
            DrvOk(o.d, true, sd) && (o.d.state == next <==> o.report.None?)
  {
    hide Table, MeasureBytes, CapturedPresence, Overwrite, CallbackSpec;
    if !CapturedPresence(d) {
      CallbackFrame(d.(state := StIdle), calls);
    } else {
      var e := IssueSpec(d, cmd, next, calls, false).d;
      MeasureFrame(d, e, cmd);
      TableStarts(d.pulses, MeasureBytes(d, cmd));
    }
  }

  lemma MeasureFrame(d: Drv, e: Drv, cmd: byte)
    requires |d.rom| == 8 && e.rom == d.rom && e.flags == d.flags
    ensures MeasureBytes(e, cmd) == MeasureBytes(d, cmd)
    ensures |Table(MeasureBytes(d, cmd))| - 1 == 8 * |MeasureBytes(d, cmd)| && |MeasureBytes(d, cmd)| <= 10
  {
  }

  lemma JudgedFrame(d: Drv)
    requires Sized(d) && d.state == StDecode
    ensures var e := Judged(d);
            && e == d.(u := e.u, state := e.state, resolution := e.resolution)
            && e.state == (if d.flags.scanMode then StDecode else StIdle)
            && |e.u| == CAPTURE_LEN && RES_MIN <= e.resolution <= RES_MAX
  {
    hide Judge, Decoded;
  }

  lemma DecodePreserves(d: Drv, calls: seq<Call>, sd: bool)
    requires Switching(d) && CallsOk(calls) && d.state == StDecode
    ensures DrvOk(DecodeSpec(d, calls, false).d, true, sd)
  {
    hide Table, MeasureBytes, CallbackSpec, Judged, Judge, Decoded;
    JudgedFrame(d);
    CallbackFrame(Judged(d), calls);
  }

  lemma SwitchPreserves(d: Drv, calls: seq<Call>, sd: bool)
    requires Switching(d) && CallsOk(calls)
    ensures DrvOk(SwitchSpec(d, calls, false).d, true, sd)
  {
    hide Table, MeasureBytes, DecodeSpec, IssueSpec;
    match d.state
    case StConvert =>
      var e := Park(ForBroadcast(d));
      IssuePreserves(e, CONVERT_T, StWait, calls, sd);
    case StRequest =>
      var e := Park(ForDevice(d));
      IssuePreserves(e, READ_SCRATCHPAD, StRead, calls, sd);
    case StDecode => DecodePreserves(d, calls, sd);
    case _ =>
  }

  lemma PollPreserves(d: Drv, calls: seq<Call>, sf: bool, sd: bool)
    requires DrvOk(d, sf, sd) && CallsOk(calls)
    ensures DrvOk(Ds18b20.PollSpec(d, calls, !sf).d, sf, sd)
  {
    hide SwitchSpec, TableOk, OpFits;
    if sf && d.res.finished && d.txn.finished && d.bus.uif {
      SwitchPreserves(d.(bus := Consumed(d.bus)), calls, sd);
    }
  }

  // ---- the other machines keep it ----

  predicate SameCommand(t: Txn, r: Txn) {
    t.bare == r.bare && t.command == r.command && t.payload == r.payload && t.payloadLen == r.payloadLen
  }

  lemma BytesFrame(d: Drv, e: Drv)
    requires Sized(d) && Sized(e) && e.rom == d.rom && UseMatch(e) == UseMatch(d)
    ensures e.res.pending == d.res.pending ==> ResolutionBytes(e, e.res.pending) == ResolutionBytes(d, d.res.pending)
    ensures SameCommand(d.txn, e.txn) ==> CommandBytes(e) == CommandBytes(d)
    ensures e.flags.addressMode == d.flags.addressMode ==>
              MeasureBytes(e, CONVERT_T) == MeasureBytes(d, CONVERT_T)
              && MeasureBytes(e, READ_SCRATCHPAD) == MeasureBytes(d, READ_SCRATCHPAD)
  {
  }

  lemma ResolutionPollPreserves(d: Drv, sf: bool, sd: bool)
    requires DrvOk(d, sf, sd)
    ensures DrvOk(ResolutionPollSpec(d), sf, sd)
  {
    hide TableOk, MeasureBytes, ResolutionBytes, CommandBytes, CapturedPresence;
    ResolutionPollTable(d, sf);
  }

  lemma ResolutionPollTable(d: Drv, sf: bool)
    requires Sized(d) && Exclusive(d, sf) && TableOk(d)
    ensures Sized(ResolutionPollSpec(d)) && TableOk(ResolutionPollSpec(d))
  {
    hide Table, MeasureBytes, ResolutionBytes, CommandBytes, CapturedPresence, Starts;
    BytesFrame(d, ResolutionPollSpec(d));
  }

  /** What one transition of a transaction may change, and what it arms. */
  predicate TxnMoves(d: Drv, e: Drv) {
    && e == d.(txn := d.txn.(phase := e.txn.phase, ok := e.txn.ok, raw := e.txn.raw), bus := e.bus)
    && |e.txn.raw| == SCRATCH_LEN
    && (if e.txn.phase == TxnDone
        then e.bus.armed.None? && e.bus.uif == d.bus.uif && e.bus.raiser.None?
        else !e.bus.uif && e.bus.raiser.None? && e.bus.armed == Some(Armed(Command, match e.txn.phase
               case TxnReset => ResetOp
               case TxnWrite => WriteOp(d.txn.slots)
               case TxnRead => ReadOp(d.txn.readBytes)
               case _ => WaitOp(d.txn.waitUs))))
    && e.txn.phase != TxnReset && (e.txn.phase == TxnWrite ==> d.txn.phase == TxnReset)
  }

  lemma WriteDoneMoves(d: Drv)
    requires |d.txn.raw| == SCRATCH_LEN && d.bus.armed.None? && !d.bus.uif && d.bus.raiser.None?
    ensures TxnMoves(d, TxnWriteDone(d))
  {
  }

  lemma TxnSwitchMoves(d: Drv)
    requires Sized(d) && d.bus.armed.None? && !d.bus.uif && d.bus.raiser.None? && d.txn.phase != TxnDone
    ensures TxnMoves(d, TxnSwitchSpec(d))
  {
    hide CapturedPresence, Decoded, TxnWriteDone, Sized;
    assert |d.txn.raw| == SCRATCH_LEN && d.txn.readBytes <= SCRATCH_LEN && |d.u| == CAPTURE_LEN by { SizedMeans(d); }
    WriteDoneMoves(d);
    match d.txn.phase
    case TxnRead =>
      var e := TxnSwitchSpec(d);
      assert e == d.(txn := d.txn.(phase := TxnDone, ok := true, raw := e.txn.raw));
    case _ =>
  }

  lemma SizedMeans(d: Drv)
    requires Sized(d)
    ensures |d.txn.raw| == SCRATCH_LEN && d.txn.readBytes <= SCRATCH_LEN && |d.u| == CAPTURE_LEN
  {
  }

  lemma TxnSwitchPreserves(d: Drv, sf: bool, sd: bool)
    requires Sized(d) && Exclusive(d, sf) && TableOk(d) && Pending(d, sf, sd, Command)
    requires d.bus.armed.None? && !d.bus.uif && d.bus.raiser.None?
    ensures DrvOk(TxnSwitchSpec(d), sf, sd)
    ensures var e := TxnSwitchSpec(d); e == d.(txn := e.txn, bus := e.bus)
  {
    hide Table, MeasureBytes, ResolutionBytes, CommandBytes, TxnSwitchSpec, Starts;
    TxnSwitchMoves(d);
    var e := TxnSwitchSpec(d);
    assert Sized(e);
    BytesFrame(d, e);
  }

  lemma TxnPollPreserves(d: Drv, sf: bool, sd: bool)
    requires DrvOk(d, sf, sd)
    ensures DrvOk(TxnPollSpec(d), sf, sd)
    ensures var e := TxnPollSpec(d); e == d.(txn := e.txn, bus := e.bus)
  {
    hide Table, MeasureBytes, ResolutionBytes, CommandBytes, TxnSwitchSpec;
    var e := d.(bus := Consumed(d.bus));
    BytesFrame(d, e);
    if Pending(d, sf, sd, Command) && d.bus.uif {
      TxnSwitchPreserves(e, sf, sd);
    } else {
      BytesFrame(d, TxnPollSpec(d));
    }
  }

  lemma TellsPreserves(d: Drv, e: Drv, sf: bool, sd: bool)
    requires DrvOk(d, sf, sd) && RES_MIN <= e.resolution <= RES_MAX
    requires e == d.(resolution := e.resolution, flags := d.flags.(parasite := e.flags.parasite))
    ensures DrvOk(e, sf, sd)
  {
    hide Table, MeasureBytes, ResolutionBytes, CommandBytes;
    BytesFrame(d, e);
  }

  lemma SetResolutionPreserves(d: Drv, bits: nat, sf: bool, sd: bool)
    requires DrvOk(d, sf, sd)
    ensures DrvOk(SetResolutionSpec(d, bits, !sf), sf, sd)
  {
    hide Table, MeasureBytes, ResolutionBytes, CommandBytes, Overwrite;
    var e := SetResolutionSpec(d, bits, !sf);
    if e != d {
      TableStarts(d.pulses, ResolutionBytes(d, bits));
      BytesFrame(d.(res := d.res.(pending := bits)), e);
      assert ResolutionBytes(d.(res := d.res.(pending := bits)), bits) == ResolutionBytes(d, bits) by {
        SameResolutionBytes(d, d.(res := d.res.(pending := bits)), bits);
      }
    }
  }

  lemma SameResolutionBytes(d: Drv, e: Drv, bits: nat)
    requires |d.rom| == 8 && e.rom == d.rom && UseMatch(e) == UseMatch(d) && RES_MIN <= bits <= RES_MAX
    ensures ResolutionBytes(e, bits) == ResolutionBytes(d, bits)
  {
  }

  lemma TxnStartPreserves(d: Drv, r: Request, sf: bool, sd: bool)
    requires DrvOk(d, sf, sd) && |r.payload| <= 3 && r.readBytes <= SCRATCH_LEN
    ensures DrvOk(TxnStartSpec(d, r, !sf), sf, sd)
  {
    hide Table, MeasureBytes, ResolutionBytes, CommandBytes, Overwrite;
    if CanStart(d, !sf) {
      var e := TxnStartSpec(d, r, !sf);
      TableStarts(d.pulses, CommandBytes(Latched(d, r)));
      BytesFrame(Latched(d, r), e);
    }
  }

  lemma CallPreserves(d: Drv, e: Event, sf: bool, sd: bool)
    requires DrvOk(d, sf, sd) && EventOk(e)
    ensures e.Select? ==> DrvOk(SelectSpec(d, e.rom, !sf), sf, sd)
    ensures e.StartMeasure? ==> DrvOk(StartMeasureSpec(d, !sf), sf, sd)
    ensures e.ScanStart? ==> DrvOk(ScanStartSpec(d, !sf), sf, sd)
    ensures e.Complete? ==> DrvOk(CompleteSpec(d, e.captured, e.capture), sf, sd)
  {
    hide Table, MeasureBytes, ResolutionBytes, CommandBytes;
    if e.Complete? {
      BytesFrame(d, CompleteSpec(d, e.captured, e.capture));
    }
  }

  lemma StorePreserves(d: Drv, rom: seq<byte>, sf: bool, sd: bool)
    requires DrvOk(d, sf, sd) && |rom| == 8 && d.state == StIdle
    ensures DrvOk(StoreSpec(d, rom), sf, sd)
  {
    hide Table, MeasureBytes, ResolutionBytes, CommandBytes;
    BytesFrame(d, StoreSpec(d, rom));
  }

  // ---- the search keeps it ----

  lemma SearchPollPreserves(y: Sys, i: S.Input)
    requires Inv(y)
    ensures Inv(SearchPollSpec(y, i))
  {
    hide S.PollSpec, S.Ok, Table, MeasureBytes, ResolutionBytes, CommandBytes, StoreSpec, TableOk, OpFits, BytesOf;
    var j := i.(done := y.d.bus.uif, captured := y.d.bus.captured);
    SP.PollHasShape(y.s, j);
    var o := S.PollSpec(y.s, j);
    var d, sf, sd := y.d, y.s.finished, y.s.phase == S.Done;
    if !sf && !sd && d.bus.uif {
      if o.report.Some? {
        StorePreserves(d, BytesOf(o.report.value), sf, sd);
      }
      var e := if o.report.Some? && y.s.command == S.SEARCH_ROM
               then StoreSpec(d, BytesOf(o.report.value)) else d;
      assert e.bus == d.bus && e.state == StIdle by { StoreFrame(d); }
      NextSearchBus(e, o.s.finished, o.s.phase == S.Done);
    }
  }

  lemma StoreFrame(d: Drv)
    requires |d.devs| == MAX_DEVICES
    ensures forall rom :: StoreSpec(d, rom) == d.(devs := StoreSpec(d, rom).devs, count := StoreSpec(d, rom).count)
  {
  }

  /** The search has consumed its flag: it arms its next operation, or it is over. */
  lemma NextSearchBus(d: Drv, sf: bool, sd: bool)
    requires DrvOk(d, false, false) && d.bus.uif && !sf
    ensures DrvOk(d.(bus := if sd then Consumed(d.bus) else Arm(Consumed(d.bus), Searching, SearchOp)), sf, sd)
  {
    hide Table, MeasureBytes, ResolutionBytes, CommandBytes;
    BytesFrame(d, d.(bus := if sd then Consumed(d.bus) else Arm(Consumed(d.bus), Searching, SearchOp)));
  }

  lemma SearchStartPreserves(y: Sys, alarm: bool, max: nat)
    requires Inv(y) && max < 256
    ensures Inv(SearchStartSpec(y, alarm, max))
  {
    hide S.Ok, TableOk, MeasureBytes, ResolutionBytes, CommandBytes;
    SearchStartTable(y, alarm, max);
  }

  lemma SearchStartTable(y: Sys, alarm: bool, max: nat)
    requires S.Ok(y.s) && max < 256 && Sized(y.d) && TableOk(y.d)
    ensures var d := SearchStartSpec(y, alarm, max).d; Sized(d) && TableOk(d)
  {
    hide S.Ok, Table, MeasureBytes, ResolutionBytes, CommandBytes, Starts;
    BytesFrame(y.d, SearchStartSpec(y, alarm, max).d);
  }

  // ---- whole runs ----

  lemma ReadBackPreserves(d: Drv, sf: bool, sd: bool)
    requires DrvOk(d, sf, sd)
    ensures DrvOk(ScratchPollSpec(d), sf, sd) && DrvOk(DetectPollSpec(d), sf, sd)
  {
    hide TxnPollSpec, Exclusive, BusOk, TableOk, Crc8Of, ByteBits;
    TxnPollPreserves(d, sf, sd);
    TellsPreserves(TxnPollSpec(d), ScratchPollSpec(d), sf, sd);
    TellsPreserves(TxnPollSpec(d), DetectPollSpec(d), sf, sd);
  }

  lemma StepPreserves(y: Sys, e: Event)
    requires Inv(y) && EventOk(e)
    ensures Inv(Step(y, e))
  {
    hide Exclusive, BusOk, TableOk, Sized, S.Ok, Ds18b20.PollSpec, ResolutionPollSpec, TxnPollSpec, SetResolutionSpec,
         TxnStartSpec, Ds18b20.SelectSpec, StartMeasureSpec, ScanStartSpec, ScratchPollSpec, DetectPollSpec,
         CompleteSpec, SearchPollSpec, SearchStartSpec, LogAfter;
    var d, sf, sd := y.d, y.s.finished, y.s.phase == S.Done;
    match e
    case Poll(calls) => PollPreserves(d, calls, sf, sd);
    case SearchPoll(i) => SearchPollPreserves(y, i);
    case ResolutionPoll => ResolutionPollPreserves(d, sf, sd);
    case TxnPoll => TxnPollPreserves(d, sf, sd);
    case ScratchPoll => ReadBackPreserves(d, sf, sd);
    case DetectPoll => ReadBackPreserves(d, sf, sd);
    case SetResolution(bits) => SetResolutionPreserves(d, bits, sf, sd);
    case Start(cmd, hasOut) => StartPreserves(d, cmd, hasOut, sf, sd);
    case SearchStart(alarm, max) => SearchStartPreserves(y, alarm, max);
    case SetParasite(on) => ParasitePreserves(d, on, sf, sd);
    case _ => CallPreserves(d, e, sf, sd);
  }

  lemma StartPreserves(d: Drv, cmd: Cmd, hasOut: bool, sf: bool, sd: bool)
    requires DrvOk(d, sf, sd)
    ensures DrvOk(TxnStartSpec(d, RequestOf(d, cmd, hasOut), !sf), sf, sd)
  {
    hide TxnStartSpec, Exclusive, BusOk, TableOk;
    TxnStartPreserves(d, RequestOf(d, cmd, hasOut), sf, sd);
  }

  lemma ParasitePreserves(d: Drv, on: bool, sf: bool, sd: bool)
    requires DrvOk(d, sf, sd)
    ensures DrvOk(d.(flags := d.flags.(parasite := on)), sf, sd)
  {
    hide Exclusive, BusOk, TableOk;
    TellsPreserves(d, d.(flags := d.flags.(parasite := on)), sf, sd);
  }

  /** The system after ds18b20_init. */
  predicate Initial(y: Sys) {
    && Sized(y.d) && S.Ok(y.s) && y.s.finished && y.log == []
    && y.d.state == StIdle && y.d.flags == Flags(false, false, false) && y.d.res.finished && y.d.txn.finished
    && y.d.bus == Bus(None, false, None, false, 0)
  }

  ghost function Run(y: Sys, events: seq<Event>): (y': Sys)
    requires Inv(y) && forall e | e in events :: EventOk(e)
    ensures Inv(y')
  {
    hide Inv, Step;
    if events == [] then y else
    var n := |events| - 1;
    assert events[n] in events;
    var before := Run(y, events[..n]);
    StepDefined(before, events[n]);
    StepPreserves(before, events[n]);
    Step(before, events[n])
  }

  lemma StepDefined(y: Sys, e: Event)
    requires Inv(y)
    ensures Sized(y.d) && S.Ok(y.s)
  {
  }

  lemma InitialOk(y: Sys)
    requires Initial(y)
    ensures Inv(y)
  {
    hide S.Ok;
  }
}
