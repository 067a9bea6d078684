/** What holds of every run of the DS18B20 driver: ownership of the timer and of its flag,
    the fed table, the reports of a cycle, and the pull-up. */
module Ds18b20Runs {
  import opened Bits
  import opened PulseCodec
  import opened CrcLoops
  import opened Ds18b20
  import opened Ds18b20Proof
  import S = SearchEngine

  // ---- one owner ----

  predicate Active(y: Sys, o: Owner) {
    match o
    case Measurement => y.d.state != StIdle
    case Searching => !y.s.finished
    case Resolution => !y.d.res.finished
    case Command => !y.d.txn.finished
  }

  predicate Waits(y: Sys, o: Owner) {
    Pending(y.d, y.s.finished, y.s.phase == S.Done, o)
  }

  /** In every run at most one machine is running; the operation under way, or the flag an
      operation has raised, is that machine's; and a machine that waits for the hardware
      has its operation under way or the flag up, so that its next poll can go on. */
  lemma OneOwner(y0: Sys, events: seq<Event>, o: Owner, p: Owner)
    requires Inv(y0) && forall e | e in events :: EventOk(e)
    ensures var y := Run(y0, events);
            && (Active(y, o) && Active(y, p) ==> o == p)
            && (y.d.bus.armed.Some? && y.d.bus.armed.value.owner == o ==> Waits(y, o) && Active(y, o))
            && (y.d.bus.raiser == Some(o) ==> y.d.bus.uif && Waits(y, o) && Active(y, o))
            && (Waits(y, o) ==> y.d.bus.uif || (y.d.bus.armed.Some? && y.d.bus.armed.value.owner == o))
  {
    hide Run, TableOk, OpFits, Sized, S.Ok;
    var y := Run(y0, events);
    assert Inv(y);
  }

  // ---- the flag ----

  /** The machine whose poll would look at the update flag in this event. */
  function Looks(y: Sys, e: Event): Option<Owner> {
    match e
    case Poll(_) =>
      if y.s.finished && y.d.res.finished && y.d.txn.finished then Some(Measurement) else None
    case SearchPoll(_) => if Waits(y, Searching) then Some(Searching) else None
    case ResolutionPoll => if Waits(y, Resolution) then Some(Resolution) else None
    case TxnPoll => if Waits(y, Command) then Some(Command) else None
    case ScratchPoll => if Waits(y, Command) then Some(Command) else None
    case DetectPoll => if Waits(y, Command) then Some(Command) else None
    case _ => None
  }

  /** While a machine waits for the hardware, no event but its own poll (with the flag up) and
      the completion itself touches the timer, the pull-up or the table. */
  lemma Undisturbed(y: Sys, e: Event, o: Owner)
    requires Inv(y) && EventOk(e) && !e.Complete? && Waits(y, o) && (!y.d.bus.uif || Looks(y, e) != Some(o))
    requires y.d.bus.armed.Some? || y.d.bus.raiser.Some?
    ensures Step(y, e).d.bus == y.d.bus && Step(y, e).d.pulses == y.d.pulses
  {
    hide S.Ok, S.PollSpec, TableOk, OpFits, SwitchSpec, TxnSwitchSpec, Sized, Crc8Of, ByteBits, StoreSpec;
    assert |y.d.devs| == MAX_DEVICES by { DevsSized(y.d); }
    match e
    case SearchPoll(i) => IdleSearchPoll(y, i);
    case _ =>
  }

  lemma DevsSized(d: Drv)
    requires Sized(d)
    ensures |d.devs| == MAX_DEVICES
  {
  }

  lemma IdleSearchPoll(y: Sys, i: S.Input)
    requires S.Ok(y.s) && |y.d.devs| == MAX_DEVICES && (y.s.finished || y.s.phase == S.Done || !y.d.bus.uif)
    ensures SearchPollSpec(y, i).d == y.d
  {
    hide S.Ok;
  }

  /** A completion flag raised by an operation is seen only by the machine that armed it, and
      stays up until that machine polls. */
  lemma FlagIsItsOwners(y0: Sys, events: seq<Event>, e: Event, o: Owner)
    requires Inv(y0) && EventOk(e) && forall x | x in events :: EventOk(x)
    requires Run(y0, events).d.bus.raiser == Some(o)
    ensures var y := Run(y0, events);
            && (Looks(y, e).Some? ==> Looks(y, e) == Some(o))
            && (Looks(y, e).None? ==> Step(y, e).d.bus == y.d.bus)
  {
    hide Run, TableOk, OpFits, Sized, S.Ok, Step;
    var y := Run(y0, events);
    assert Inv(y);
    if Looks(y, e).None? {
      if e.Complete? {
        CompleteIdle(y, e);
      } else {
        Undisturbed(y, e, o);
      }
    }
  }

  lemma CompleteIdle(y: Sys, e: Event)
    requires Inv(y) && EventOk(e) && e.Complete? && y.d.bus.uif
    ensures Step(y, e).d.bus == y.d.bus
  {
    hide Sized, S.Ok, TableOk, OpFits;
  }

  // ---- the table being fed ----

  /** The bytes the owner of a write has asked for. */
  function FedBytes(d: Drv, o: Owner): seq<byte>
    requires Sized(d)
  {
    match o
    case Resolution => ResolutionBytes(d, d.res.pending)
    case Command => CommandBytes(d)
    case _ => MeasureBytes(d, if d.state == StWait then CONVERT_T else READ_SCRATCHPAD)
  }

  /** In every run, while a driver write is under way the shared table holds the encoding
      of its prefix, command and payload followed by the release entry, and no event before
      the completion changes it. */
  lemma FedTableStable(y0: Sys, events: seq<Event>, e: Event, o: Owner, n: nat)
    requires Inv(y0) && EventOk(e) && forall x | x in events :: EventOk(x)
    requires Run(y0, events).d.bus.armed == Some(Armed(o, WriteOp(n)))
    ensures var y := Run(y0, events);
            && n == 8 * |FedBytes(y.d, o)| && n + 1 <= |y.d.pulses|
            && y.d.pulses[..n + 1] == Encoded(FedBytes(y.d, o)) + [RELEASE_PULSE]
            && (!e.Complete? ==> Step(y, e).d.bus == y.d.bus && Step(y, e).d.pulses == y.d.pulses)
  {
    hide Run, S.Ok, Step, Encoded, MeasureBytes, ResolutionBytes, CommandBytes;
    var y := Run(y0, events);
    assert Inv(y);
    assert Starts(y.d.pulses, Table(FedBytes(y.d, o)));
    if !e.Complete? {
      Undisturbed(y, e, o);
    }
  }

  // ---- the reports of a cycle ----

  /** The report of table entry i. */
  predicate Entry(r: Report, i: nat, devs: seq<seq<byte>>) {
    i < |devs| && r.index == i && r.addressed && r.present && r.rom == devs[i]
  }

  function RoundLength(d: Drv): nat {
    if d.count == 0 then 1 else d.count
  }

  predicate Reading(s: State) {
    s == StContinue || s == StRequest || s == StRead || s == StDecode
  }

  /** In a round the reports so far are those of devices 0..scanIndex-1, and the device being
      read is addressed with its own table entry; in a single cycle there are none yet. */
  predicate CycleOk(d: Drv, log: seq<Report>) {
    && (d.state == StConvert || d.state == StWait ==> log == [])
    && (d.state == StWait && d.flags.scanMode ==> d.scanIndex == 0)
    && (Reading(d.state) ==>
          if d.flags.scanMode then
            && |log| == d.scanIndex < RoundLength(d)
            && (forall i: nat | i < |log| :: Entry(log[i], i, d.devs))
            && (d.state == StRead || d.state == StDecode ==>
                  d.flags.addressMode && d.scanIndex < |d.devs| && d.rom == d.devs[d.scanIndex])
          else log == [])
  }

  /** The reports of a cycle that is over. */
  predicate CycleComplete(d: Drv, log: seq<Report>) {
    log != [] &&
    var n := |log| - 1;
    if !d.flags.scanMode then n == 0
    else
      && (forall i: nat | i < n :: Entry(log[i], i, d.devs))
      && log[n].index == n < RoundLength(d)
      && (if log[n].present then Entry(log[n], n, d.devs) && n + 1 == RoundLength(d) else log[n].value == NoSensor)
  }

  predicate Resting(s: State) {
    s == StIdle || s == StStart
  }

  lemma IssueCycle(d: Drv, cmd: byte, next: State, calls: seq<Call>)
    requires Sized(d) && CallsOk(calls)
    ensures var o := IssueSpec(d, cmd, next, calls, false);
            && (if o.report.None? then o.d == d.(pulses := o.d.pulses, bus := o.d.bus, state := next)
                else Resting(o.d.state)
                     && o.report.value == Report(d.scanIndex, d.rom, d.flags.addressMode, false, NoSensor))
  {
    hide Table, MeasureBytes, CapturedPresence, Overwrite, CallbackSpec;
    CallbackFrame(d.(state := StIdle), calls);
  }

  lemma DecodeCycle(d: Drv, calls: seq<Call>)
    requires Sized(d) && CallsOk(calls) && d.state == StDecode
    ensures var o := DecodeSpec(d, calls, false);
            && o.report.Some? && o.report.value.index == d.scanIndex && o.report.value.rom == d.rom
            && o.report.value.addressed == d.flags.addressMode && o.report.value.present
            && (if d.flags.scanMode && d.scanIndex + 1 < d.count
                then o.d == d.(u := o.d.u, resolution := o.d.resolution, scanIndex := d.scanIndex + 1,
                               state := StContinue, bus := o.d.bus)
                else Resting(o.d.state))
  {
    hide CallbackSpec, Judged, Judge, Decoded;
    JudgedFrame(d);
    CallbackFrame(Judged(d), calls);
  }

  /** From d, a transition with outcome o keeps the invariant; when it ends the cycle, the
      reports are complete. */
  predicate CycleStep(d: Drv, log: seq<Report>, o: Outcome) {
    var log' := LogAfter(log, d, o);
    && CycleOk(o.d, log')
    && (if !Resting(d.state) && Resting(o.d.state)
        then o.report.Some? && CycleComplete(d, log')
        else o.report.Some? ==> d.state == StDecode && d.flags.scanMode)
  }

  lemma ConvertCycle(d: Drv, log: seq<Report>, calls: seq<Call>)
    requires Sized(d) && CallsOk(calls) && CycleOk(d, log) && d.state == StConvert
    ensures CycleStep(d, log, ConvertSpec(d, calls, false))
  {
    hide IssueSpec, Sized;
    StillSized(d);
    IssueCycle(Park(ForBroadcast(d)), CONVERT_T, StWait, calls);
  }

  lemma RequestCycle(d: Drv, log: seq<Report>, calls: seq<Call>)
    requires Sized(d) && CallsOk(calls) && CycleOk(d, log) && d.state == StRequest
    ensures CycleStep(d, log, RequestSpec(d, calls, false))
  {
    hide IssueSpec, Sized;
    StillSized(d);
    IssueCycle(Park(ForDevice(d)), READ_SCRATCHPAD, StRead, calls);
  }

  lemma SwitchCycle(d: Drv, log: seq<Report>, calls: seq<Call>)
    requires Sized(d) && CallsOk(calls) && CycleOk(d, log)
    ensures CycleStep(d, log, SwitchSpec(d, calls, false))
  {
    hide ConvertSpec, RequestSpec, DecodeSpec, Sized;
    match d.state
    case StConvert => ConvertCycle(d, log, calls);
    case StRequest => RequestCycle(d, log, calls);
    case StDecode => DecodeCycle(d, calls);
    case _ =>
  }

  lemma StillSized(d: Drv)
    requires Sized(d)
    ensures d.state == StConvert ==> Sized(Park(ForBroadcast(d)))
    ensures d.state == StRequest ==>
              && (d.flags.scanMode ==> d.scanIndex < MAX_DEVICES == |d.devs|)
              && Sized(Park(ForDevice(d)))
  {
  }

  /** Everything but a measurement poll leaves a running cycle alone. */
  lemma OtherEvents(y: Sys, e: Event)
    requires Inv(y) && EventOk(e) && !e.Poll?
    ensures var y' := Step(y, e);
            && y'.log == y.log
            && (if y.d.state == StIdle then Resting(y'.d.state) else SameCycle(y.d, y'.d))
  {
    hide S.Ok, S.PollSpec, TableOk, OpFits, TxnSwitchSpec, Sized, Crc8Of, ByteBits, StoreSpec, BusOk;
    assert |y.d.devs| == MAX_DEVICES by { DevsSized(y.d); }
    if e.TxnPoll? || e.ScratchPoll? || e.DetectPoll? {
      TxnPollPreserves(y.d, y.s.finished, y.s.phase == S.Done);
    }
    if e.SearchPoll? {
      SearchPollCycle(y, e.i);
    }
  }

  predicate SameCycle(d: Drv, e: Drv) {
    && d.state == e.state && d.flags.scanMode == e.flags.scanMode && d.flags.addressMode == e.flags.addressMode
    && d.scanIndex == e.scanIndex && d.rom == e.rom && d.devs == e.devs && d.count == e.count
  }

  lemma SearchPollCycle(y: Sys, i: S.Input)
    requires S.Ok(y.s) && |y.d.devs| == MAX_DEVICES
    ensures SearchPollSpec(y, i).log == y.log && SearchPollSpec(y, i).d.state == y.d.state
    ensures y.s.finished ==> SearchPollSpec(y, i).d == y.d
  {
    hide S.Ok, StoreSpec;
    StoreFrame(y.d);
    if y.s.finished {
      IdleSearchPoll(y, i);
    }
  }

  lemma StepCycle(y: Sys, e: Event)
    requires Inv(y) && EventOk(e) && CycleOk(y.d, y.log)
    ensures var y' := Step(y, e);
            && CycleOk(y'.d, y'.log)
            && (e.Poll? && !Resting(y.d.state) && Resting(y'.d.state) ==> CycleComplete(y.d, y'.log))
  {
    hide Inv, CycleOk, CycleComplete, Step;
    StepDefined(y, e);
    if e.Poll? {
      PollCycle(y, e.calls);
    } else {
      OtherEvents(y, e);
      if y.d.state != StIdle {
        KeptCycle(y.d, Step(y, e).d, y.log);
      } else {
        NoCycle(Step(y, e).d, y.log);
      }
    }
  }

  lemma PollCycle(y: Sys, calls: seq<Call>)
    requires Inv(y) && CallsOk(calls) && CycleOk(y.d, y.log)
    ensures var y' := Step(y, Poll(calls));
            && CycleOk(y'.d, y'.log)
            && (!Resting(y.d.state) && Resting(y'.d.state) ==> CycleComplete(y.d, y'.log))
  {
    hide S.Ok, TableOk, BusOk, SwitchSpec, CycleComplete, CycleOk;
    assert y.log + [] == y.log;
    var d := y.d.(bus := Consumed(y.d.bus));
    KeptCycle(y.d, d, y.log);
    SwitchCycle(d, y.log, calls);
    SameDevices(y.d, d.bus, Step(y, Poll(calls)).log);
  }

  lemma KeptCycle(d: Drv, e: Drv, log: seq<Report>)
    requires CycleOk(d, log) && SameCycle(d, e)
    ensures CycleOk(e, log)
  {
  }

  lemma NoCycle(d: Drv, log: seq<Report>)
    requires Resting(d.state)
    ensures CycleOk(d, log)
  {
  }

  lemma SameDevices(d: Drv, b: Ds18b20.Bus, log: seq<Report>)
    ensures CycleComplete(d.(bus := b), log) == CycleComplete(d, log)
  {
  }

  lemma {:induction false} RunCycle(y0: Sys, events: seq<Event>)
    requires Inv(y0) && CycleOk(y0.d, y0.log) && forall e | e in events :: EventOk(e)
    ensures CycleOk(Run(y0, events).d, Run(y0, events).log)
  {
    hide Inv, CycleOk, Step;
    if events != [] {
      var n := |events| - 1;
      assert events[n] in events && forall e | e in events[..n] :: e in events;
      RunCycle(y0, events[..n]);
      StepCycle(Run(y0, events[..n]), events[n]);
    }
  }

  /** In every run, whatever happens in between and whatever the callbacks do, a cycle that
      ends has reported: a single cycle once; a scan round table entries 0, 1, 2, ... in
      order, each addressed by its own ROM, all of them unless a reset saw no presence, which
      ends the round with one NO_SENSOR. (The table cannot change during a round.) */
  lemma EveryCycleComplete(y0: Sys, events: seq<Event>, calls: seq<Call>)
    requires Inv(y0) && CycleOk(y0.d, y0.log) && CallsOk(calls) && forall e | e in events :: EventOk(e)
    requires var y := Run(y0, events); !Resting(y.d.state) && Resting(Step(y, Poll(calls)).d.state)
    ensures var y := Run(y0, events); CycleComplete(y.d, Step(y, Poll(calls)).log)
  {
    hide Run, Step, Inv, CycleOk, CycleComplete;
    RunCycle(y0, events);
    StepCycle(Run(y0, events), Poll(calls));
  }

  /** A round whose resets all saw presence reports dev_count devices exactly when the table is
      not empty: with an empty table it still reads back entry 0. */
  lemma RoundCoversTable(d: Drv, log: seq<Report>)
    requires CycleComplete(d, log) && d.flags.scanMode && log[|log| - 1].present
    ensures |log| == d.count <==> d.count > 0
    ensures d.count == 0 ==> |log| == 1 && log[0].rom == d.devs[0]
  {
  }

  /** The table can be empty when a round starts: a new search empties it behind scan_start. */
  lemma EmptiedTable(y: Sys, i: S.Input)
    requires Inv(y) && Parked(y.d, !y.s.finished) && y.d.count > 0
    ensures var y1 := Step(y, ScanStart);
            && Inv(y1) && Inv(Step(y1, SearchStart(false, 0)))
            && var y2 := Step(Step(y1, SearchStart(false, 0)), SearchPoll(i));
            && Inv(y2) && var y3 := Step(y2, StartMeasure);
               y3.d.state == StStart && y3.d.flags.scanMode && y3.d.count == 0
  {
    hide Inv, Step, Sized, S.Ok;
    StepDefined(y, ScanStart);
    StepPreserves(y, ScanStart);
    var y1 := Step(y, ScanStart);
    ArmsScan(y);
    StepDefined(y1, SearchStart(false, 0));
    StepPreserves(y1, SearchStart(false, 0));
    var y2 := Step(y1, SearchStart(false, 0));
    EmptiesTable(y1, i);
    StepDefined(y2, SearchPoll(i));
    StepPreserves(y2, SearchPoll(i));
    StepDefined(Step(y2, SearchPoll(i)), StartMeasure);
    Requests(Step(y2, SearchPoll(i)));
  }

  lemma ArmsScan(y: Sys)
    requires Inv(y) && Parked(y.d, !y.s.finished) && y.d.count > 0
    ensures var y1 := Step(y, ScanStart); Parked(y1.d, !y1.s.finished) && y1.d.flags.scanMode
  {
    hide TableOk, BusOk, S.Ok;
  }

  lemma EmptiesTable(y: Sys, i: S.Input)
    requires Inv(y) && Parked(y.d, !y.s.finished) && y.d.flags.scanMode && Inv(Step(y, SearchStart(false, 0)))
    ensures var y2 := Step(Step(y, SearchStart(false, 0)), SearchPoll(i));
            Parked(y2.d, !y2.s.finished) && y2.d.flags.scanMode && y2.d.count == 0
  {
    hide TableOk, BusOk, S.Ok, Sized;
    assert |y.d.devs| == MAX_DEVICES by { DevsSized(y.d); }
  }

  lemma Requests(y: Sys)
    requires Inv(y) && Parked(y.d, !y.s.finished)
    ensures Step(y, StartMeasure).d == y.d.(state := StStart, bus := Kick(y.d.bus))
  {
    hide TableOk, BusOk, S.Ok, Sized;
  }
}
