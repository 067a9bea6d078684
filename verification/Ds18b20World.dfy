/** The driver on a bus of DS18B20s: what measurements report, over whole runs. */
module Ds18b20World {
  import opened Bits
  import opened PulseCodec
  import opened CrcLoops
  import opened Ds18b20
  import opened Ds18b20Proof
  import opened Ds18b20Runs
  import opened Ds18b20Device
  import S = SearchEngine

  /** The driver, the devices, what each of them transmits at the next read slots, and how long the
      last conversion was waited for. */
  datatype World = World(y: Sys, ts: seq<Thermo>, txs: seq<seq<byte>>, waited: nat)

  predicate WorldOk(w: World) {
    hide Inv;
    Inv(w.y) && AllOk(w.ts) && |w.txs| == |w.ts|
  }

  /** Reads return the wired AND; everything else is as arbitrary as an event may be. */
  predicate Honest(w: World, e: Event) {
    EventOk(e) &&
    (e.Complete? && w.y.d.bus.armed.Some? && w.y.d.bus.armed.value.op.ReadOp? ==>
       var n := w.y.d.bus.armed.value.op.bytes;
       |e.capture| == 8 * n && PulseBits(e.capture) == Wire(w.txs, n))
  }

  /** The wait between Convert T and the first read of a cycle. */
  predicate Converting(y: Sys) {
    y.d.state == StContinue && y.log == []
  }

  /** What the completion of an operation does to the devices. */
  function Completed(w: World): (w': World)
    requires WorldOk(w) && w.y.d.bus.armed.Some?
    ensures w'.y == w.y && AllOk(w'.ts) && |w'.txs| == |w'.ts|
  {
    match w.y.d.bus.armed.value.op
    case ResetOp => w.(txs := Silence(|w.ts|))
    case WriteOp(n) =>
      if n % 8 == 0 && n <= |w.y.d.pulses|
      then w.(ts := AllHear(w.ts, Decoded(w.y.d.pulses[..n])), txs := Replies(w.ts, Decoded(w.y.d.pulses[..n])))
      else w
    case WaitOp(us) => w.(ts := AllRest(w.ts, us), waited := if Converting(w.y) then us else w.waited)
    case _ => w
  }

  function Next(w: World, e: Event): (w': World)
    requires WorldOk(w) && Honest(w, e)
    ensures WorldOk(w')
  {
    hide Inv, Step, EventOk;
    StepDefined(w.y, e);
    StepPreserves(w.y, e);
    var z := if e.Complete? && w.y.d.bus.armed.Some? then Completed(w) else w;
    z.(y := Step(w.y, e))
  }

  // ---- nobody disturbs an active machine ----

  /** The polls of a machine. */
  predicate OwnPoll(e: Event, o: Owner) {
    match o
    case Measurement => e.Poll?
    case Searching => e.SearchPoll?
    case Resolution => e.ResolutionPoll?
    case Command => e.TxnPoll? || e.ScratchPoll? || e.DetectPoll?
  }

  /** While a machine is running, no call and no other poll changes more than the tracked resolution and
      the power mode. */
  lemma OthersLeave(y: Sys, e: Event, o: Owner)
    requires Inv(y) && EventOk(e) && Active(y, o) && o != Searching && !e.Complete? && !OwnPoll(e, o)
    ensures var z := Step(y, e);
            && z.log == y.log && z.s == y.s
            && z.d == y.d.(resolution := z.d.resolution, flags := y.d.flags.(parasite := z.d.flags.parasite))
  {
    hide S.Ok, S.PollSpec, TableOk, OpFits, SwitchSpec, TxnSwitchSpec, Sized, Crc8Of, ByteBits, StoreSpec, BusOk;
    assert |y.d.devs| == MAX_DEVICES by { DevsSized(y.d); }
    assert y.log + [] == y.log;
    match e
    case SearchPoll(i) => FinishedSearchPoll(y, i);
    case _ =>
  }

  lemma FinishedSearchPoll(y: Sys, i: S.Input)
    requires S.Ok(y.s) && |y.d.devs| == MAX_DEVICES && y.s.finished
    ensures SearchPollSpec(y, i) == y
  {
    hide S.Ok;
  }

  // ---- what a captured scratchpad is reported as ----

  /** The signed word of the first two bytes, in sixteenths of a degree. */
  function RawOf(s: seq<byte>): int
    requires |s| == 9
  {
    var w: int := 256 * (s[1] as int) + s[0] as int;
    if w < 32768 then w else w - 65536
  }

  /** t tenths are the nearest to raw sixteenths, ties away from zero. */
  predicate Nearest(t: int, raw: int) {
    && -8 <= 16 * t - 10 * raw <= 8
    && (16 * t - 10 * raw == 8 ==> raw > 0) && (16 * t - 10 * raw == -8 ==> raw < 0)
  }

  predicate Valid(s: seq<byte>)
    requires |s| == 9
  {
    s[5] == 0xFF && s[7] == 0x10 && ByteBits(s[8]) == Crc8Of(s[..8])
  }

  /** The poll that judges a scratchpad, whatever was captured: all ones from an addressed device are a
      missing sensor; otherwise a scratchpad with its fixed bytes and its CRC reports its temperature,
      and its resolution is the tracked one from then on; any other is a CRC error. */
  lemma ScratchpadReported(y: Sys, calls: seq<Call>, s: seq<byte>)
    requires Inv(y) && CallsOk(calls) && y.d.state == StDecode && y.d.bus.uif
    requires |s| == 9 && PulseBits(y.d.u) == BitsOf(s)
    ensures var z := Step(y, Poll(calls));
            && |z.log| == |y.log| + 1 && z.log[..|y.log|] == y.log
            && var r := z.log[|y.log|];
            && r.index == y.d.scanIndex && r.rom == y.d.rom && r.addressed == y.d.flags.addressMode && r.present
            && if y.d.flags.addressMode && (forall i | 0 <= i < 9 :: s[i] == 0xFF)
               then r.value == NoSensor && z.d.resolution == y.d.resolution
               else if Valid(s)
               then r.value.Temp? && Nearest(r.value.tenths, RawOf(s)) && z.d.resolution == 9 + s[4] / 32 % 4
               else r.value == CrcFail && z.d.resolution == y.d.resolution
  {
    hide S.Ok, TableOk, OpFits, Decoded, PulseBits, BitsOf, CallbackSpec, Judge, Nearest, Valid, RawOf, FinishOrNext;
    var d := y.d.(bus := Consumed(y.d.bus));
    DecodeFaithful(y.d.u, s);
    CallbackFrame(Judged(d), calls);
    DecodeCycle(d, calls);
    FinishKeeps(CallbackSpec(Judged(d), calls, false));
    Verdict(y.d.flags.addressMode, s);
  }

  lemma FinishKeeps(d: Drv)
    ensures FinishOrNext(d).resolution == d.resolution
  {
  }

  lemma Verdict(addressed: bool, s: seq<byte>)
    requires |s| == 9
    ensures var v := Judge(addressed, s);
            if addressed && (forall i | 0 <= i < 9 :: s[i] == 0xFF) then v == NoSensor
            else if Valid(s) then v.Temp? && Nearest(v.tenths, RawOf(s)) && ResolutionOf(s[4]) == 9 + s[4] / 32 % 4
            else v == CrcFail
  {
    hide Crc8Of, ByteBits;
    TenthsNearest(s[0], s[1]);
  }

  // ---- what a measurement has put on the bus ----

  /** The operation a machine waited for has completed, and it has not polled yet. */
  predicate Raised(d: Drv, o: Owner) {
    d.bus.raiser == Some(o)
  }

  /** The bytes of a read command with the present addressing. */
  function ReadBytes(d: Drv): seq<byte>
    requires |d.rom| == 8
  {
    MeasureBytes(d, READ_SCRATCHPAD)
  }

  /** From the end of the read command to the poll that judges the scratchpad, the devices transmit what
      that command asks for, and then the capture holds their wired AND. */
  predicate Answering(w: World)
    requires WorldOk(w)
  {
    hide Inv, MeasureBytes, Replies, Wire;
    var d := w.y.d;
    |d.rom| == 8 &&
    ((d.state == StRead && Raised(d, Measurement)) || d.state == StDecode ==> w.txs == Replies(w.ts, ReadBytes(d)))
    && (d.state == StDecode && Raised(d, Measurement) ==> PulseBits(d.u) == Wire(w.txs, 9))
  }

  /** A device that the conversion of the cycle is for: a scan round converts by broadcast. */
  predicate Told(d: Drv, t: Thermo) {
    d.flags.scanMode || !d.flags.addressMode || t.rom == d.rom
  }

  /** The conversion of the cycle: under way in every device it is for until the wait has passed, and
      after that only in those it was too short for. */
  predicate Converts(w: World)
    requires WorldOk(w)
  {
    hide Inv;
    var d := w.y.d;
    && (d.state == StWait && d.flags.scanMode ==> !d.flags.addressMode)
    && (d.state == StContinue && w.y.log != [] && d.bus.armed.Some? ==> d.bus.armed.value.op == WaitOp(1000))
    && ((d.state == StWait && Raised(d, Measurement)) || (Converting(w.y) && !Raised(d, Measurement)) ==>
          forall t | t in w.ts && Told(d, t) :: t.converting)
    && ((Converting(w.y) && Raised(d, Measurement)) || (d.state == StContinue && w.y.log != [])
        || d.state == StRequest || d.state == StRead || d.state == StDecode ==>
          forall t | t in w.ts && Told(d, t) ::
            if ConversionTime(t.config) <= w.waited then !t.converting && t.reading == t.ambient else t.converting)
  }

  predicate MeasureOk(w: World) {
    hide Answering, Converts, WorldOk;
    WorldOk(w) && CycleOk(w.y.d, w.y.log) && Answering(w) && Converts(w)
  }

  // ---- completions ----

  lemma FedBytesHeard(y: Sys, o: Owner, n: nat)
    requires Inv(y) && y.d.bus.armed == Some(Armed(o, WriteOp(n)))
    ensures n % 8 == 0 && n <= |y.d.pulses| && Sized(y.d) && Decoded(y.d.pulses[..n]) == FedBytes(y.d, o)
  {
    hide Inv, FedBytes, Decoded;
    RomSized(y);
    FedTable(y, o, n);
    StartDecodes(y.d.pulses, FedBytes(y.d, o));
  }

  lemma FedTable(y: Sys, o: Owner, n: nat)
    requires Inv(y) && y.d.bus.armed == Some(Armed(o, WriteOp(n)))
    ensures Sized(y.d) && n == 8 * |FedBytes(y.d, o)| && Starts(y.d.pulses, Table(FedBytes(y.d, o)))
  {
    hide S.Ok, MeasureBytes, ResolutionBytes, CommandBytes, Table, Starts;
  }

  lemma StartDecodes(p: seq<byte>, bytes: seq<byte>)
    requires Starts(p, Table(bytes))
    ensures 8 * |bytes| <= |p| && Decoded(p[..8 * |bytes|]) == bytes
  {
    hide Encoded, Decoded;
    assert p[..8 * |bytes|] == p[..|Table(bytes)|][..8 * |bytes|] == Encoded(bytes);
    DecodeEncoded(bytes);
  }

  /** A Convert T reaches exactly the devices it is for. */
  lemma ConvertHeard(d: Drv, t: Thermo)
    requires |d.rom| == 8 && ThermoOk(t)
    ensures var r := Hear(t, MeasureBytes(d, CONVERT_T)).0;
            r == if !d.flags.addressMode || t.rom == d.rom then t.(converting := true) else t
  {
    BodyOf(d, d.flags.addressMode, t, [CONVERT_T]);
  }

  lemma ReadHeard(d: Drv, t: Thermo)
    requires |d.rom| == 8 && ThermoOk(t)
    ensures var r := Hear(t, ReadBytes(d));
            r == (t, if !d.flags.addressMode || t.rom == d.rom then Scratchpad(t) else [])
  {
    hide Scratchpad;
    BodyOf(d, d.flags.addressMode, t, [READ_SCRATCHPAD]);
  }

  lemma BodyOf(d: Drv, match_: bool, t: Thermo, rest: seq<byte>)
    requires |d.rom| == 8 && |t.rom| == 8
    ensures var bytes := Prefix(d, match_) + rest;
            Body(t, bytes) == (if !match_ || t.rom == d.rom then rest else []) && bytes != [0x33]
  {
    var bytes := Prefix(d, match_) + rest;
    if match_ {
      assert bytes[1..9] == d.rom && bytes[9..] == rest;
    } else {
      assert bytes[1..] == rest;
    }
  }

  // ---- the polls of a measurement ----

  predicate SameTarget(d: Drv, e: Drv) {
    d.rom == e.rom && d.flags.addressMode == e.flags.addressMode && d.flags.scanMode == e.flags.scanMode
  }

  /** Where a poll that finds its flag takes a cycle. */
  predicate Moved(y: Sys, z: Sys) {
    var d, e := y.d, z.d;
    Resting(e.state) ||
    (e.bus.raiser.None? &&
     match d.state
     case StIdle => e.state == StConvert
     case StStart => e.state == StConvert
     case StConvert => e.state == StWait && (e.flags.scanMode ==> !e.flags.addressMode)
     case StWait => e.state == StContinue && z.log == y.log && SameTarget(d, e)
     case StContinue => e.state == StRequest && SameTarget(d, e)
     case StRequest =>
       e.state == StRead && d.flags.scanMode == e.flags.scanMode && (!d.flags.scanMode ==> SameTarget(d, e))
     case StRead => e.state == StDecode && SameTarget(d, e)
     case StDecode =>
       && e.state == StContinue && d.flags.scanMode && e.flags.scanMode && z.log != []
       && e.bus.armed == Some(Armed(Measurement, WaitOp(1000))))
  }

  lemma IssueMoves(d: Drv, cmd: byte, next: State, calls: seq<Call>)
    requires Sized(d) && CallsOk(calls) && d.bus.raiser.None?
    ensures var e := IssueSpec(d, cmd, next, calls, false).d;
            Resting(e.state) || (e == d.(pulses := e.pulses, bus := e.bus, state := next) && e.bus.raiser.None?)
  {
    hide Table, MeasureBytes, CapturedPresence, Overwrite, CallbackSpec;
    CallbackFrame(d.(state := StIdle), calls);
  }

  lemma SwitchMoves(d: Drv, log: seq<Report>, calls: seq<Call>, s: S.Search)
    requires Sized(d) && CallsOk(calls) && d.bus.raiser.None?
    ensures var o := SwitchSpec(d, calls, false);
            (d.state == StIdle && o.d.state == StIdle) || Moved(Sys(d, s, log), Sys(o.d, s, LogAfter(log, d, o)))
  {
    hide IssueSpec, Sized, DecodeSpec;
    assert log + [] == log;
    match d.state
    case StConvert =>
      StillSized(d);
      IssueMoves(Park(ForBroadcast(d)), CONVERT_T, StWait, calls);
    case StRequest =>
      StillSized(d);
      IssueMoves(Park(ForDevice(d)), READ_SCRATCHPAD, StRead, calls);
    case StDecode =>
      DecodeMoves(d, calls);
    case _ =>
  }

  lemma DecodeMoves(d: Drv, calls: seq<Call>)
    requires Sized(d) && CallsOk(calls) && d.state == StDecode
    ensures var o := DecodeSpec(d, calls, false);
            && o.report.Some?
            && (Resting(o.d.state)
                || (o.d.state == StContinue && d.flags.scanMode && o.d.flags.scanMode && o.d.bus.raiser.None?
                    && o.d.bus.armed == Some(Armed(Measurement, WaitOp(1000)))))
  {
    hide CallbackSpec, Judged, Judge, Decoded;
    JudgedFrame(d);
    CallbackFrame(Judged(d), calls);
  }

  /** A poll either finds no flag and changes nothing, or moves the cycle on. */
  lemma PollMoves(y: Sys, calls: seq<Call>)
    requires Inv(y) && CallsOk(calls)
    ensures var z := Step(y, Poll(calls));
            && z.s == y.s
            && ((z.d == y.d && z.log == y.log)
                || (Moved(y, z) && (!Resting(y.d.state) ==> Raised(y.d, Measurement)))
                || (Resting(y.d.state) && Resting(z.d.state)))
  {
    hide S.Ok, TableOk, OpFits, SwitchSpec, Moved;
    assert y.log + [] == y.log;
    if y.s.finished && y.d.res.finished && y.d.txn.finished && y.d.bus.uif {
      var d := y.d.(bus := Consumed(y.d.bus));
      SwitchMoves(d, y.log, calls, y.s);
      MovedConsumed(y, d, Step(y, Poll(calls)));
    }
  }

  lemma MovedConsumed(y: Sys, d: Drv, z: Sys)
    requires d == y.d.(bus := d.bus)
    ensures Moved(y.(d := d), z) ==> Moved(y, z)
  {
  }

  // ---- every event keeps it ----

  lemma TargetBytes(d: Drv, e: Drv)
    requires |d.rom| == 8 && SameTarget(d, e)
    ensures ReadBytes(e) == ReadBytes(d)
  {
  }

  lemma RomSized(y: Sys)
    requires Inv(y)
    ensures |y.d.rom| == 8 && Sized(y.d)
  {
  }

  /** A machine between cycles claims nothing. */
  lemma RestingOk(w: World)
    requires WorldOk(w) && Resting(w.y.d.state)
    ensures Answering(w) && Converts(w)
  {
    hide Inv;
    RomSized(w.y);
  }

  lemma AnsweringMoves(w: World, z: World)
    requires WorldOk(w) && WorldOk(z) && Answering(w) && z == w.(y := z.y)
    requires Moved(w.y, z.y) && (!Resting(w.y.d.state) ==> Raised(w.y.d, Measurement)) && !Resting(z.y.d.state)
    ensures Answering(z)
  {
    hide Inv, ReadBytes, Replies, Wire, Hear;
    RomSized(w.y);
    RomSized(z.y);
    if w.y.d.state == StRead {
      TargetBytes(w.y.d, z.y.d);
    }
  }

  lemma ConvertsMoves(w: World, z: World)
    requires WorldOk(w) && WorldOk(z) && Converts(w) && CycleOk(w.y.d, w.y.log) && z == w.(y := z.y)
    requires Moved(w.y, z.y) && (!Resting(w.y.d.state) ==> Raised(w.y.d, Measurement)) && !Resting(z.y.d.state)
    ensures Converts(z)
  {
    hide Inv, ConversionTime;
    forall t | t in w.ts
      ensures !Resting(w.y.d.state) && w.y.d.state != StConvert ==> Told(z.y.d, t) == Told(w.y.d, t)
    {
    }
  }

  lemma PollOk(w: World, calls: seq<Call>)
    requires MeasureOk(w) && CallsOk(calls)
    ensures MeasureOk(Next(w, Poll(calls)))
  {
    hide Inv, Step, CycleOk, Answering, Converts, Moved;
    var z := Next(w, Poll(calls));
    StepCycle(w.y, Poll(calls));
    PollMoves(w.y, calls);
    if Resting(z.y.d.state) {
      RestingOk(z);
    } else if z.y.d == w.y.d && z.y.log == w.y.log {
      assert z == w;
    } else {
      AnsweringMoves(w, z);
      ConvertsMoves(w, z);
    }
  }

  lemma OtherOk(w: World, e: Event)
    requires MeasureOk(w) && EventOk(e) && !e.Complete? && !e.Poll?
    ensures MeasureOk(Next(w, e))
  {
    hide Inv, Step, CycleOk, Answering, Converts;
    var z := Next(w, e);
    StepCycle(w.y, e);
    if w.y.d.state == StIdle {
      OtherEvents(w.y, e);
      RestingOk(z);
    } else {
      OthersLeave(w.y, e, Measurement);
      SameClaims(w, z);
    }
  }

  lemma SameClaims(w: World, z: World)
    requires MeasureOk(w) && WorldOk(z) && z == w.(y := z.y) && z.y.log == w.y.log
    requires var d, e := w.y.d, z.y.d;
             e == d.(resolution := e.resolution, flags := d.flags.(parasite := e.flags.parasite))
    ensures Answering(z) && Converts(z)
  {
    hide Inv, Replies, Wire, Hear, ConversionTime;
    RomSized(w.y);
    TargetBytes(w.y.d, z.y.d);
  }

  /** A completion raises the flag for its owner; reads leave their capture. */
  lemma CompletionIs(y: Sys, e: Event)
    requires Inv(y) && EventOk(e) && e.Complete? && y.d.bus.armed.Some?
    ensures var a := y.d.bus.armed.value;
            var z := Step(y, e);
            && z.log == y.log && z.d == y.d.(u := z.d.u, bus := z.d.bus)
            && z.d.bus.armed.None? && z.d.bus.raiser == Some(a.owner)
            && (a.op.ReadOp? && |e.capture| == |y.d.u| ==> z.d.u == e.capture)
  {
    hide S.Ok, TableOk, OpFits, Sized;
    if |e.capture| == |y.d.u| {
      assert e.capture + y.d.u[|e.capture|..] == e.capture;
    }
  }

  /** Whose operation is under way, and which. */
  lemma ArmedIs(y: Sys)
    requires Inv(y) && y.d.bus.armed.Some?
    ensures var a := y.d.bus.armed.value;
            && |y.d.u| == 72 && !y.d.bus.uif && y.d.bus.raiser.None?
            && (a.owner != Measurement ==> y.d.state == StIdle)
            && (a.owner == Measurement ==>
                  match y.d.state
                  case StConvert => a.op == ResetOp
                  case StRequest => a.op == ResetOp
                  case StWait => a.op.WriteOp?
                  case StRead => a.op.WriteOp?
                  case StContinue => a.op.WaitOp?
                  case StDecode => a.op == ReadOp(9)
                  case _ => false)
  {
    hide S.Ok, TableOk, MeasureBytes;
  }

  lemma WriteCompleted(w: World)
    requires WorldOk(w) && w.y.d.bus.armed.Some? && w.y.d.bus.armed.value.owner == Measurement
    requires w.y.d.bus.armed.value.op.WriteOp? && (w.y.d.state == StWait || w.y.d.state == StRead)
    ensures |w.y.d.rom| == 8
    ensures var bytes := MeasureBytes(w.y.d, if w.y.d.state == StWait then CONVERT_T else READ_SCRATCHPAD);
            Completed(w).ts == AllHear(w.ts, bytes) && Completed(w).txs == Replies(w.ts, bytes)
            && Completed(w).waited == w.waited
  {
    hide Inv, Decoded, Hear, MeasureBytes;
    RomSized(w.y);
    FedBytesHeard(w.y, Measurement, w.y.d.bus.armed.value.op.slots);
  }

  /** Reading asks nothing of the devices but an answer. */
  lemma ReadsLeave(ts: seq<Thermo>, d: Drv)
    requires AllOk(ts) && |d.rom| == 8
    ensures AllHear(ts, ReadBytes(d)) == ts
  {
    hide Hear, ReadBytes;
    forall i | 0 <= i < |ts| ensures AllHear(ts, ReadBytes(d))[i] == ts[i] {
      assert ts[i] in ts;
      ReadHeard(d, ts[i]);
    }
  }

  /** A Convert T starts the conversion in every device it is for. */
  lemma ConvertsAll(ts: seq<Thermo>, d: Drv)
    requires AllOk(ts) && |d.rom| == 8 && (d.flags.scanMode ==> !d.flags.addressMode)
    ensures forall t | t in AllHear(ts, MeasureBytes(d, CONVERT_T)) && Told(d, t) :: t.converting
  {
    hide Hear, MeasureBytes;
    var r := AllHear(ts, MeasureBytes(d, CONVERT_T));
    forall t | t in r && Told(d, t) ensures t.converting {
      var i :| 0 <= i < |r| && r[i] == t;
      assert ts[i] in ts;
      ConvertHeard(d, ts[i]);
    }
  }

  /** The conversion wait ends the conversions it is long enough for. */
  lemma RestsAll(ts: seq<Thermo>, us: nat, d: Drv)
    requires AllOk(ts) && forall t | t in ts && Told(d, t) :: t.converting
    ensures forall t | t in AllRest(ts, us) && Told(d, t) ::
              if ConversionTime(t.config) <= us then !t.converting && t.reading == t.ambient else t.converting
  {
    hide ConversionTime;
    var r := AllRest(ts, us);
    forall t | t in r && Told(d, t)
      ensures if ConversionTime(t.config) <= us then !t.converting && t.reading == t.ambient else t.converting
    {
      var i :| 0 <= i < |r| && r[i] == t;
      assert ts[i] in ts;
    }
  }

  /** The gap between two devices is too short for any conversion. */
  lemma GapLeaves(ts: seq<Thermo>, us: nat)
    requires AllOk(ts) && us <= 10000
    ensures AllRest(ts, us) == ts
  {
  }

  lemma CompleteAnswering(w: World, e: Event)
    requires MeasureOk(w) && Honest(w, e) && e.Complete? && w.y.d.bus.armed.Some?
    requires w.y.d.bus.armed.value.owner == Measurement
    ensures Answering(Next(w, e))
  {
    hide Inv, Step, CycleOk, Converts, Hear, ReadBytes, Wire, PulseBits, Decoded, Replies, Rest;
    ArmedIs(w.y);
    CompletionIs(w.y, e);
    RomSized(w.y);
    var z := Next(w, e);
    TargetBytes(w.y.d, z.y.d);
    if w.y.d.state == StRead {
      WriteCompleted(w);
      ReadsLeave(w.ts, w.y.d);
      assert ReadBytes(w.y.d) == MeasureBytes(w.y.d, READ_SCRATCHPAD) by { ReadBytesAre(w.y.d); }
    }
  }

  lemma ReadBytesAre(d: Drv)
    requires |d.rom| == 8
    ensures ReadBytes(d) == MeasureBytes(d, READ_SCRATCHPAD)
  {
    hide MeasureBytes;
  }

  lemma CompleteConverts(w: World, e: Event)
    requires MeasureOk(w) && Honest(w, e) && e.Complete? && w.y.d.bus.armed.Some?
    requires w.y.d.bus.armed.value.owner == Measurement
    ensures Converts(Next(w, e))
  {
    hide Inv, Step, CycleOk, Answering, Hear, ReadBytes, MeasureBytes, Wire, PulseBits, Decoded, Replies, Rest,
         ConversionTime;
    ArmedIs(w.y);
    CompletionIs(w.y, e);
    RomSized(w.y);
    match w.y.d.state
    case StWait =>
      WriteCompleted(w);
      ConvertsAll(w.ts, w.y.d);
    case StRead =>
      WriteCompleted(w);
      ReadBytesAre(w.y.d);
      ReadsLeave(w.ts, w.y.d);
    case StContinue =>
      var us := w.y.d.bus.armed.value.op.us;
      if w.y.log == [] {
        RestsAll(w.ts, us, w.y.d);
      } else {
        GapLeaves(w.ts, us);
      }
    case _ =>
  }

  lemma CompleteOk(w: World, e: Event)
    requires MeasureOk(w) && Honest(w, e) && e.Complete?
    ensures MeasureOk(Next(w, e))
  {
    hide Inv, Step, CycleOk, Answering, Converts;
    StepCycle(w.y, e);
    if w.y.d.bus.armed.None? {
      NothingCompletes(w.y, e);
      assert Next(w, e) == w;
    } else if w.y.d.bus.armed.value.owner != Measurement {
      ArmedIs(w.y);
      CompletionIs(w.y, e);
      RestingOk(Next(w, e));
    } else {
      CompleteAnswering(w, e);
      CompleteConverts(w, e);
    }
  }

  lemma NothingCompletes(y: Sys, e: Event)
    requires Inv(y) && EventOk(e) && e.Complete? && y.d.bus.armed.None?
    ensures Step(y, e) == y
  {
    hide S.Ok, TableOk, BusOk, Sized;
  }

  lemma NextOk(w: World, e: Event)
    requires MeasureOk(w) && Honest(w, e)
    ensures MeasureOk(Next(w, e))
  {
    hide MeasureOk, Next, Honest;
    HonestIs(w, e);
    match e
    case Complete(_, _) => CompleteOk(w, e);
    case Poll(calls) => PollOk(w, calls);
    case _ => OtherOk(w, e);
  }

  lemma HonestIs(w: World, e: Event)
    requires Honest(w, e)
    ensures EventOk(e) && (e.Poll? ==> CallsOk(e.calls))
  {
  }

  // ---- whole runs ----

  ghost predicate HonestRun(w: World, events: seq<Event>)
    requires WorldOk(w)
    decreases |events|
  {
    hide WorldOk, Honest, Next;
    events == [] || (Honest(w, events[0]) && HonestRun(Next(w, events[0]), events[1..]))
  }

  ghost function RunAll(w: World, events: seq<Event>): (w': World)
    requires WorldOk(w) && HonestRun(w, events)
    ensures WorldOk(w')
    decreases |events|
  {
    hide WorldOk, Honest, Next;
    if events == [] then w else RunAll(Next(w, events[0]), events[1..])
  }

  lemma {:induction false} RunOk(w: World, events: seq<Event>)
    requires MeasureOk(w) && WorldOk(w) && HonestRun(w, events)
    ensures MeasureOk(RunAll(w, events))
    decreases |events|
  {
    hide MeasureOk, WorldOk, Honest, Next;
    if events != [] {
      NextOk(w, events[0]);
      RunOk(Next(w, events[0]), events[1..]);
    }
  }

  /** Device i is the only one the read command is for. */
  predicate Only(d: Drv, ts: seq<Thermo>, i: nat) {
    if !d.flags.addressMode then |ts| == 1 && i == 0
    else i < |ts| && ts[i].rom == d.rom && forall j | 0 <= j < |ts| && j != i :: ts[j].rom != d.rom
  }

  lemma OnlyAnswers(d: Drv, ts: seq<Thermo>, i: nat)
    requires |d.rom| == 8 && AllOk(ts) && Only(d, ts, i)
    ensures Wire(Replies(ts, ReadBytes(d)), 9) == BitsOf(Scratchpad(ts[i]))
  {
    hide Hear, ReadBytes, BitsOf, Wire, Scratchpad;
    var txs := Replies(ts, ReadBytes(d));
    forall j | 0 <= j < |ts| ensures txs[j] == if j == i then Scratchpad(ts[i]) else [] {
      assert ts[j] in ts;
      ReadHeard(d, ts[j]);
    }
    OneTransmits(txs, i);
  }

  lemma NobodyAnswers(d: Drv, ts: seq<Thermo>)
    requires |d.rom| == 8 && AllOk(ts) && d.flags.addressMode && forall t | t in ts :: t.rom != d.rom
    ensures Wire(Replies(ts, ReadBytes(d)), 9) == BitsOf(AllOnesPad())
  {
    hide Hear, ReadBytes, BitsOf, Scratchpad, Wire;
    var txs := Replies(ts, ReadBytes(d));
    forall j | 0 <= j < |ts| ensures txs[j] == [] {
      assert ts[j] in ts;
      ReadHeard(d, ts[j]);
    }
    forall k | 0 <= k < 72 ensures Wire(txs, 9)[k] && BitsOf(AllOnesPad())[k] {
      NobodyTransmits(txs, 9, k);
      OnesAt(k);
    }
  }

  function AllOnesPad(): (s: seq<byte>)
    ensures |s| == 9 && forall i | 0 <= i < 9 :: s[i] == 0xFF
  {
    seq(9, _ => 0xFF)
  }

  lemma OnesAt(k: nat)
    requires k < 72
    ensures BitsOf(AllOnesPad())[k]
  {
    hide BitsOf, ByteBits;
    var s := AllOnesPad();
    BitsOfAt(s, k / 8);
    assert BitsOf(s)[k] == BitsOf(s)[8 * (k / 8)..8 * (k / 8) + 8][k % 8];
    OnesByte(k % 8);
  }

  lemma OnesByte(k: nat)
    requires k < 8
    ensures ByteBits(255)[k]
  {
    hide ToBits, Pow2;
    AllBitsSet(8, k);
    PowEight();
  }

  lemma {:induction false} AllBitsSet(w: nat, k: nat)
    requires k < w
    ensures ToBits(Pow2(w) - 1, w)[k]
  {
    var p := Pow2(w - 1);
    assert (2 * p - 1) / 2 == p - 1 && (2 * p - 1) % 2 == 1;
    if k > 0 {
      AllBitsSet(w - 1, k - 1);
    }
  }

  lemma ScratchpadSays(t: Thermo)
    requires ThermoOk(t)
    ensures var s := Scratchpad(t);
            Valid(s) && RawOf(s) == t.reading && s[4] == t.config && s[7] != 0xFF && s[4] / 32 % 4 == t.config / 32
  {
    hide Crc8Of, ByteBits;
    var s := Scratchpad(t);
    assert forall i | 0 <= i < 8 :: s[i] == s[..8][i] == Registers(t)[i];
  }

  /** The wait of the tracked resolution is long enough for exactly the devices with no higher one. */
  lemma WaitSuffices(res: nat, config: byte)
    requires RES_MIN <= res <= RES_MAX
    ensures ConversionTime(config) <= ResolutionWaitUs(res) <==> 9 + config / 32 % 4 <= res
  {
  }

  /** A captured scratchpad is the answer to the read command. */
  lemma DecodeMeans(w: World)
    requires MeasureOk(w) && w.y.d.state == StDecode && w.y.d.bus.uif
    ensures Inv(w.y) && AllOk(w.ts) && |w.y.d.rom| == 8 && |w.y.d.u| == 72
    ensures PulseBits(w.y.d.u) == Wire(Replies(w.ts, ReadBytes(w.y.d)), 9)
  {
    hide CycleOk, Converts, S.Ok, TableOk, OpFits, MeasureBytes, Replies, Wire, PulseBits, Hear;
  }

  lemma OnlyTold(w: World, i: nat)
    requires MeasureOk(w) && w.y.d.state == StDecode && Only(w.y.d, w.ts, i)
    ensures i < |w.ts| && ThermoOk(w.ts[i])
    ensures if ConversionTime(w.ts[i].config) <= w.waited then w.ts[i].reading == w.ts[i].ambient
            else w.ts[i].converting
  {
    hide CycleOk, Answering, Inv, ConversionTime;
    assert w.ts[i] in w.ts && Told(w.y.d, w.ts[i]);
  }

  lemma PollIs(w: World, calls: seq<Call>)
    requires MeasureOk(w) && CallsOk(calls)
    ensures Next(w, Poll(calls)).y == Step(w.y, Poll(calls)) && Inv(w.y)
  {
    hide CycleOk, Answering, Converts, Inv, Step;
  }

  /** Every judged scratchpad is one report. */
  lemma CycleReports(w: World, calls: seq<Call>)
    requires MeasureOk(w) && CallsOk(calls) && w.y.d.state == StDecode && w.y.d.bus.uif
    ensures var d, log := w.y.d, Next(w, Poll(calls)).y.log;
            |log| == |w.y.log| + 1 && log[..|w.y.log|] == w.y.log
            && var r := log[|w.y.log|];
            r.present && r.index == d.scanIndex && r.rom == d.rom && r.addressed == d.flags.addressMode
  {
    hide MeasureOk, Inv, Next, Step, Wire, Replies, ReadBytes, PulseBits, Nearest, Valid, RawOf;
    DecodeMeans(w);
    PollIs(w, calls);
    ScratchpadReported(w.y, calls, BytesOf(PulseBits(w.y.d.u)));
  }

  lemma ThermoReported(y: Sys, calls: seq<Call>, t: Thermo)
    requires Inv(y) && CallsOk(calls) && y.d.state == StDecode && y.d.bus.uif
    requires ThermoOk(t) && PulseBits(y.d.u) == BitsOf(Scratchpad(t))
    ensures var z := Step(y, Poll(calls));
            && |z.log| == |y.log| + 1
            && var v := z.log[|y.log|].value;
            v.Temp? && Nearest(v.tenths, t.reading) && z.d.resolution == 9 + t.config / 32
  {
    hide Inv, Step, PulseBits, Nearest, Valid, RawOf, Scratchpad, BitsOf, ThermoOk, CallsOk;
    ScratchpadSays(t);
    ScratchpadReported(y, calls, Scratchpad(t));
  }

  lemma OnlyCaptured(w: World, i: nat)
    requires MeasureOk(w) && w.y.d.state == StDecode && w.y.d.bus.uif && Only(w.y.d, w.ts, i)
    ensures i < |w.ts| && ThermoOk(w.ts[i]) && PulseBits(w.y.d.u) == BitsOf(Scratchpad(w.ts[i]))
  {
    hide MeasureOk, Inv, Wire, Replies, ReadBytes, PulseBits, Only, Scratchpad, BitsOf;
    DecodeMeans(w);
    OnlyTold(w, i);
    OnlyAnswers(w.y.d, w.ts, i);
  }

  lemma NobodyReported(y: Sys, calls: seq<Call>)
    requires Inv(y) && CallsOk(calls) && y.d.state == StDecode && y.d.bus.uif && y.d.flags.addressMode
    requires PulseBits(y.d.u) == BitsOf(AllOnesPad())
    ensures |Step(y, Poll(calls)).log| == |y.log| + 1 && Step(y, Poll(calls)).log[|y.log|].value == NoSensor
  {
    hide Inv, Step, PulseBits, BitsOf, Valid, Nearest, RawOf;
    ScratchpadReported(y, calls, AllOnesPad());
  }

  /** What a cycle reports, in every run over any number of DS18B20s and whatever calls and polls come
      in between: a device that is the only one addressed reports the reading it holds, to the nearest
      tenth, and its resolution is tracked from then on; the reading is what the conversion of this
      cycle measured if the wait was as long as its resolution takes, and otherwise the conversion is
      still under way. When nobody has the address, the report is NO_SENSOR. */
  lemma ReportsTruth(w0: World, events: seq<Event>, calls: seq<Call>, i: nat)
    requires WorldOk(w0) && MeasureOk(w0) && HonestRun(w0, events) && CallsOk(calls)
    requires var d := RunAll(w0, events).y.d; d.state == StDecode && d.bus.uif
    ensures var w := RunAll(w0, events);
            var d, z := w.y.d, Next(w, Poll(calls)).y;
            && |z.log| == |w.y.log| + 1
            && var r := z.log[|w.y.log|];
            && r.present && r.index == d.scanIndex && r.rom == d.rom && r.addressed == d.flags.addressMode
            && (Only(d, w.ts, i) ==>
                  && r.value.Temp? && Nearest(r.value.tenths, w.ts[i].reading)
                  && z.d.resolution == 9 + w.ts[i].config / 32
                  && if ConversionTime(w.ts[i].config) <= w.waited
                     then w.ts[i].reading == w.ts[i].ambient else w.ts[i].converting)
            && (d.flags.addressMode && (forall t | t in w.ts :: t.rom != d.rom) ==> r.value == NoSensor)
  {
    hide RunAll, HonestRun, MeasureOk, Inv, Next, Step, Only, ConversionTime, Nearest, PulseBits, BitsOf, Scratchpad,
         AllOnesPad, Wire, Replies, ReadBytes;
    RunOk(w0, events);
    var w := RunAll(w0, events);
    PollIs(w, calls);
    CycleReports(w, calls);
    if Only(w.y.d, w.ts, i) {
      OnlyCaptured(w, i);
      OnlyTold(w, i);
      ThermoReported(w.y, calls, w.ts[i]);
    }
    if w.y.d.flags.addressMode && forall t | t in w.ts :: t.rom != w.y.d.rom {
      DecodeMeans(w);
      NobodyAnswers(w.y.d, w.ts);
      NobodyReported(w.y, calls);
    }
  }

  // ---- the device selected is the device measured ----

  /** A single cycle for the device with this ROM code, or for whoever is there. */
  predicate Target(d: Drv, rom: Option<seq<byte>>) {
    && !d.flags.scanMode && |d.rom| == 8 && (d.flags.addressMode <==> rom.Some?)
    && (rom.Some? ==> d.rom == rom.value)
  }

  /** A cycle is running, and makes no report in between. */
  ghost predicate Unreported(w: World, events: seq<Event>)
    requires WorldOk(w) && HonestRun(w, events)
    decreases |events|
  {
    hide WorldOk, Honest, Next;
    && Active(w.y, Measurement)
    && (events == [] ||
        var z := Next(w, events[0]);
        |z.y.log| <= |w.y.log| && Unreported(z, events[1..]))
  }

  lemma IssueTarget(d: Drv, cmd: byte, next: State, calls: seq<Call>)
    requires Sized(d) && CallsOk(calls)
    ensures var o := IssueSpec(d, cmd, next, calls, false);
            if o.report.None? then SameTarget(d, o.d) else Resting(o.d.state)
  {
    hide Table, MeasureBytes, CapturedPresence, Overwrite, CallbackSpec;
    CallbackFrame(d.(state := StIdle), calls);
  }

  lemma SwitchTarget(d: Drv, calls: seq<Call>)
    requires Sized(d) && CallsOk(calls) && d.bus.raiser.None? && !d.flags.scanMode
    ensures var o := SwitchSpec(d, calls, false);
            if o.report.None? then SameTarget(d, o.d) else Resting(o.d.state)
  {
    hide IssueSpec, Sized, DecodeSpec;
    match d.state
    case StConvert =>
      StillSized(d);
      IssueTarget(Park(ForBroadcast(d)), CONVERT_T, StWait, calls);
    case StRequest =>
      StillSized(d);
      IssueTarget(Park(ForDevice(d)), READ_SCRATCHPAD, StRead, calls);
    case StDecode =>
      DecodeMoves(d, calls);
    case _ =>
  }

  lemma PollTarget(y: Sys, calls: seq<Call>, rom: Option<seq<byte>>)
    requires Inv(y) && CallsOk(calls) && Target(y.d, rom) && |Step(y, Poll(calls)).log| <= |y.log|
    ensures Target(Step(y, Poll(calls)).d, rom)
  {
    hide S.Ok, TableOk, OpFits, SwitchSpec;
    if y.s.finished && y.d.res.finished && y.d.txn.finished && y.d.bus.uif {
      SwitchTarget(y.d.(bus := Consumed(y.d.bus)), calls);
    }
  }

  lemma StepTarget(w: World, e: Event, rom: Option<seq<byte>>)
    requires WorldOk(w) && Honest(w, e) && Active(w.y, Measurement) && Target(w.y.d, rom)
    requires |Next(w, e).y.log| <= |w.y.log|
    ensures Target(Next(w, e).y.d, rom)
  {
    hide Inv, Step;
    match e
    case Complete(_, _) =>
      if w.y.d.bus.armed.None? {
        NothingCompletes(w.y, e);
      } else {
        CompletionIs(w.y, e);
      }
    case Poll(calls) => PollTarget(w.y, calls, rom);
    case _ => OthersLeave(w.y, e, Measurement);
  }

  lemma {:induction false} RunTarget(w: World, events: seq<Event>, rom: Option<seq<byte>>)
    requires WorldOk(w) && HonestRun(w, events) && Unreported(w, events) && Target(w.y.d, rom)
    ensures Target(RunAll(w, events).y.d, rom)
    decreases |events|
  {
    hide WorldOk, Honest, Next, Target;
    if events != [] {
      StepTarget(w, events[0], rom);
      RunTarget(Next(w, events[0]), events[1..], rom);
    }
  }

  lemma SelectTargets(w: World, rom: Option<seq<byte>>)
    requires WorldOk(w) && Parked(w.y.d, !w.y.s.finished) && (rom.Some? ==> |rom.value| == 8)
    ensures var z := Next(Next(w, Event.Select(rom)), StartMeasure);
            Target(z.y.d, rom) && z.y.d.state == StStart && MeasureOk(z)
  {
    hide S.Ok, TableOk, BusOk, OpFits;
    RestingOk(Next(Next(w, Event.Select(rom)), StartMeasure));
  }

  /** Device i alone has this ROM code, or is alone on the bus. */
  predicate Sole(ts: seq<Thermo>, rom: Option<seq<byte>>, i: nat) {
    if rom.None? then |ts| == 1 && i == 0
    else i < |ts| && ts[i].rom == rom.value && forall j | 0 <= j < |ts| && j != i :: ts[j].rom != rom.value
  }

  lemma SoleIsOnly(d: Drv, ts: seq<Thermo>, rom: Option<seq<byte>>, i: nat)
    requires Target(d, rom) && Sole(ts, rom, i)
    ensures i < |ts| && Only(d, ts, i)
  {
  }

  /** Select a device, start, and let the cycle run, whatever else is called and polled: the report is
      about that device, or about the only one on the bus when none is selected, and it is the reading
      it holds. */
  lemma SelectedIsMeasured(w0: World, rom: Option<seq<byte>>, events: seq<Event>, calls: seq<Call>, i: nat)
    requires WorldOk(w0) && Parked(w0.y.d, !w0.y.s.finished) && (rom.Some? ==> |rom.value| == 8) && CallsOk(calls)
    requires var w1 := Next(Next(w0, Event.Select(rom)), StartMeasure);
             && HonestRun(w1, events) && Unreported(w1, events)
             && RunAll(w1, events).y.d.state == StDecode && RunAll(w1, events).y.d.bus.uif
    ensures var w := RunAll(Next(Next(w0, Event.Select(rom)), StartMeasure), events);
            var z := Next(w, Poll(calls)).y;
            && |z.log| == |w.y.log| + 1
            && var r := z.log[|w.y.log|];
            && r.present && (r.addressed <==> rom.Some?) && (rom.Some? ==> r.rom == rom.value)
            && (Sole(w.ts, rom, i) ==> r.value.Temp? && Nearest(r.value.tenths, w.ts[i].reading))
            && (rom.Some? && (forall t | t in w.ts :: t.rom != rom.value) ==> r.value == NoSensor)
  {
    hide RunAll, HonestRun, Unreported, MeasureOk, Next, Nearest, ConversionTime, Sole, Only, WorldOk;
    SelectTargets(w0, rom);
    var w1 := Next(Next(w0, Event.Select(rom)), StartMeasure);
    RunTarget(w1, events, rom);
    ReportsTruth(w1, events, calls, i);
    var w := RunAll(w1, events);
    if Sole(w.ts, rom, i) {
      SoleIsOnly(w.y.d, w.ts, rom, i);
    }
  }
}
