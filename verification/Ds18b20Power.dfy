/** The strong pull-up of the DS18B20 driver, and who starts a cycle. */
module Ds18b20Power {
  import opened Bits
  import opened PulseCodec
  import opened CrcLoops
  import opened Ds18b20
  import opened Ds18b20Proof
  import opened Ds18b20Runs
  import PlanWait
  import S = SearchEngine

  /** The pull-up in every phase that matters; with external power it is never engaged, and the
      flag is never up without an operation or a requested cycle behind it. */
  predicate PowerOk(d: Drv, log: seq<Report>) {
    var b, parasite := d.bus, d.flags.parasite;
    && (!parasite ==> !b.pullup && (b.uif && b.raiser.None? ==> d.state == StStart))
    && (d.state == StConvert || d.state == StRequest || d.state == StDecode ==> !b.pullup)
    && (d.state == StContinue && log == [] && parasite ==> b.pullup)
    && (!d.txn.finished ==>
          && (d.txn.phase == TxnReset || d.txn.phase == TxnRead || d.txn.phase == TxnDone ==> !b.pullup)
          && (d.txn.phase == TxnWait && parasite ==> b.pullup))
  }

  lemma IssuePower(d: Drv, cmd: byte, next: State, calls: seq<Call>, log: seq<Report>)
    requires Sized(d) && CallsOk(calls) && d.txn.finished && (next == StWait || next == StRead)
    requires !d.flags.parasite ==> !d.bus.pullup && !d.bus.uif
    ensures var o := IssueSpec(d, cmd, next, calls, false);
            PowerOk(o.d, log) && o.d.flags.parasite == d.flags.parasite
  {
    hide Table, MeasureBytes, CapturedPresence, Overwrite, CallbackSpec;
    CallbackFrame(d.(state := StIdle), calls);
  }

  lemma DecodePower(d: Drv, calls: seq<Call>, log: seq<Report>)
    requires Sized(d) && CallsOk(calls) && d.txn.finished && d.state == StDecode && !d.bus.uif
    requires (!d.flags.parasite ==> !d.bus.pullup) && (d.flags.scanMode ==> log != [])
    ensures var o := DecodeSpec(d, calls, false);
            PowerOk(o.d, log) && o.d.flags.parasite == d.flags.parasite
    ensures var o := DecodeSpec(d, calls, false);
            Resting(o.d.state) && d.flags.parasite ==> o.d.bus.uif && o.d.bus.pullup
  {
    hide CallbackSpec, Judged, Judge, Decoded;
    JudgedFrame(d);
    CallbackFrame(Judged(d), calls);
  }

  lemma SwitchPower(d: Drv, log: seq<Report>, calls: seq<Call>)
    requires Switching(d) && CallsOk(calls) && PowerOk(d, log) && CycleOk(d, log)
    ensures var o := SwitchSpec(d, calls, false);
            PowerOk(o.d, LogAfter(log, d, o)) && o.d.flags.parasite == d.flags.parasite
  {
    hide DecodeSpec, IssueSpec, Sized;
    var log' := LogAfter(log, d, SwitchSpec(d, calls, false));
    match d.state
    case StConvert =>
      var e := ForBroadcast(d);
      StillSized(d);
      IssuePower(Park(e), CONVERT_T, StWait, calls, log');
    case StRequest =>
      StillSized(d);
      var e := ForDevice(d);
      IssuePower(Park(e), READ_SCRATCHPAD, StRead, calls, log');
    case StDecode =>
      DecodeCycle(d, calls);
      DecodePower(d, calls, log');
    case _ =>
  }

  lemma PollPower(y: Sys, calls: seq<Call>)
    requires Inv(y) && CallsOk(calls) && PowerOk(y.d, y.log) && CycleOk(y.d, y.log)
    ensures var y' := Step(y, Poll(calls));
            PowerOk(y'.d, y'.log) && y'.d.flags.parasite == y.d.flags.parasite
  {
    hide SwitchSpec, TableOk, OpFits, Sized, S.Ok, CycleOk;
    if y.s.finished && y.d.res.finished && y.d.txn.finished && y.d.bus.uif {
      var d := y.d.(bus := Consumed(y.d.bus));
      KeptCycle(y.d, d, y.log);
      NowSwitching(y);
      SwitchPower(d, y.log, calls);
    }
  }

  lemma NowSwitching(y: Sys)
    requires Inv(y) && y.s.finished && y.d.res.finished && y.d.txn.finished && y.d.bus.uif
    ensures Switching(y.d.(bus := Consumed(y.d.bus)))
  {
    hide TableOk, OpFits;
  }

  /** Neither of the two ways to change the power mode. */
  predicate KeepsPower(e: Event) {
    !e.SetParasite? && !e.DetectPoll?
  }

  lemma TxnPollPower(d: Drv, log: seq<Report>)
    requires Sized(d) && PowerOk(d, log) && (!d.txn.finished && d.txn.phase != TxnDone ==> d.state == StIdle)
    requires d.bus.uif && !d.flags.parasite ==> d.bus.raiser.Some? || d.state == StStart
    ensures var e := TxnPollSpec(d);
            PowerOk(e, log) && e.flags == d.flags
  {
    hide Sized, CapturedPresence, Decoded, Overwrite;
  }

  lemma TxnPower(y: Sys, e: Event)
    requires Inv(y) && PowerOk(y.d, y.log) && (e == TxnPoll || e == ScratchPoll)
    ensures PowerOk(Step(y, e).d, y.log) && Step(y, e).d.flags == y.d.flags && Step(y, e).log == y.log
  {
    hide Sized, TableOk, OpFits, S.Ok, TxnPollSpec, Crc8Of, ByteBits;
    TxnPollPower(y.d, y.log);
  }

  lemma OtherPower(y: Sys, e: Event)
    requires Inv(y) && EventOk(e) && PowerOk(y.d, y.log) && KeepsPower(e)
    requires !e.Poll? && !e.TxnPoll? && !e.ScratchPoll? && !e.SearchPoll?
    ensures var y' := Step(y, e);
            PowerOk(y'.d, y'.log) && y'.d.flags.parasite == y.d.flags.parasite
  {
    hide Sized, TableOk, OpFits, S.Ok, CapturedPresence, Overwrite, Table, ResolutionBytes, CommandBytes;
  }

  lemma SearchPower(y: Sys, i: S.Input)
    requires Inv(y) && PowerOk(y.d, y.log)
    ensures var y' := Step(y, SearchPoll(i));
            PowerOk(y'.d, y'.log) && y'.d.flags.parasite == y.d.flags.parasite
  {
    hide Sized, TableOk, OpFits, S.Ok, S.PollSpec, StoreSpec;
    assert |y.d.devs| == MAX_DEVICES by { DevsSized(y.d); }
    StoreFrame(y.d);
  }

  lemma StepPower(y: Sys, e: Event)
    requires Inv(y) && EventOk(e) && CycleOk(y.d, y.log) && PowerOk(y.d, y.log) && KeepsPower(e)
    ensures var y' := Step(y, e);
            PowerOk(y'.d, y'.log) && y'.d.flags.parasite == y.d.flags.parasite
  {
    hide Inv, PowerOk, Step, CycleOk;
    match e
    case Poll(calls) => PollPower(y, calls);
    case TxnPoll => TxnPower(y, e);
    case ScratchPoll => TxnPower(y, e);
    case SearchPoll(i) => SearchPower(y, i);
    case _ => OtherPower(y, e);
  }

  lemma {:induction false} RunPower(y0: Sys, events: seq<Event>)
    requires Inv(y0) && CycleOk(y0.d, y0.log) && PowerOk(y0.d, y0.log)
    requires forall e | e in events :: EventOk(e) && KeepsPower(e)
    ensures var y := Run(y0, events);
            PowerOk(y.d, y.log) && y.d.flags.parasite == y0.d.flags.parasite
  {
    hide Inv, CycleOk, Step, PowerOk;
    if events != [] {
      var n := |events| - 1;
      assert events[n] in events && forall e | e in events[..n] :: e in events;
      RunPower(y0, events[..n]);
      RunCycle(y0, events[..n]);
      StepPower(Run(y0, events[..n]), events[n]);
    }
  }

  /** A driver at rest with the line released: the state in which the power mode is fixed. */
  predicate AtRest(y: Sys) {
    Inv(y) && y.d.state == StIdle && y.d.txn.finished && !y.d.bus.pullup && !y.d.bus.uif
  }

  /** With the power mode fixed at rest, in every run: resets and reads armed by a measurement
      or a transaction happen with the line released; on a parasite bus every conversion wait
      (the wait of a cycle that has not reported yet) and every EEPROM hold-off happens with
      the pull-up engaged; and a transaction that ends leaves the line released. */
  lemma PullUpDiscipline(y0: Sys, events: seq<Event>, a: Armed)
    requires AtRest(y0) && forall e | e in events :: EventOk(e) && KeepsPower(e)
    requires a.owner == Measurement || a.owner == Command
    ensures var y := Run(y0, events);
            && (y.d.bus.armed == Some(a) && (a.op.ResetOp? || a.op.ReadOp?) ==> !y.d.bus.pullup)
            && (y.d.bus.armed == Some(a) && a.op.WaitOp? && (a.owner == Command || y.log == []) ==>
                  y0.d.flags.parasite ==> y.d.bus.pullup)
            && (!y.d.txn.finished && y.d.txn.phase == TxnDone ==> !y.d.bus.pullup)
            && (!y0.d.flags.parasite ==> !y.d.bus.pullup)
  {
    hide Run, TableOk, Sized, S.Ok, MeasureBytes;
    RunPower(y0, events);
    assert Inv(Run(y0, events));
  }

  /** A resolution change does not touch the pull-up: its reset is armed with the line as the
      caller left it. */
  lemma ResolutionKeepsPullUp(y: Sys, bits: nat)
    requires Inv(y)
    ensures var y' := Step(y, SetResolution(bits)); y'.d.bus.pullup == y.d.bus.pullup
    ensures RES_MIN <= bits <= RES_MAX && Parked(y.d, !y.s.finished) ==>
              Step(y, SetResolution(bits)).d.bus.armed == Some(Armed(Resolution, ResetOp))
  {
    hide Sized, TableOk, BusOk, S.Ok;
  }

  // ---- who starts a cycle ----

  /** With external power a parked driver stays parked until a cycle is requested: polling it
      changes nothing. */
  lemma ParkedStaysParked(y0: Sys, events: seq<Event>, calls: seq<Call>)
    requires AtRest(y0) && !y0.d.flags.parasite && CallsOk(calls)
    requires forall e | e in events :: EventOk(e) && KeepsPower(e)
    requires Run(y0, events).d.state == StIdle
    ensures Step(Run(y0, events), Poll(calls)) == Run(y0, events)
  {
    hide Run, TableOk, OpFits, Sized, S.Ok, SwitchSpec;
    RunPower(y0, events);
    assert Inv(Run(y0, events));
  }

  /** In general a poll at IDLE starts a cycle exactly when scan mode is armed, the flag is up
      and nobody else runs. */
  lemma SelfStart(y: Sys, calls: seq<Call>)
    requires Inv(y) && y.d.state == StIdle && CallsOk(calls)
    ensures Step(y, Poll(calls)).d.state != StIdle <==>
              y.d.flags.scanMode && y.d.bus.uif && y.s.finished && y.d.res.finished && y.d.txn.finished
    ensures Step(y, Poll(calls)).d.state != StIdle ==> Step(y, Poll(calls)).d.state == StConvert
  {
    hide Sized, TableOk, BusOk, S.Ok, IssueSpec, DecodeSpec;
  }

  /** The poll that ends a scan round: behind its last scratchpad, or without a presence pulse. */
  predicate EndsRound(d: Drv)
    requires Sized(d)
  {
    && d.flags.scanMode && d.bus.uif
    && ((d.state == StDecode && d.scanIndex + 1 >= d.count)
        || ((d.state == StConvert || d.state == StRequest) && !CapturedPresence(d)))
  }

  /** On a parasite bus a scan round parks with the pull-up engaged, and engaging it raises the flag:
      the next poll starts another round that nobody asked for. It does so behind every round, except
      that a callback which reports NO_SENSOR can prevent it: the driver is parked by then, and any
      call leaves scan mode or requests a cycle. */
  lemma ParkedScanRestarts(y: Sys, reply: seq<Call>, calls: seq<Call>)
    requires Inv(y) && CycleOk(y.d, y.log) && CallsOk(reply) && CallsOk(calls)
    requires y.d.flags.parasite && EndsRound(y.d)
    ensures var y1 := Step(y, Poll(reply));
            && Inv(y1)
            && (y1.d.state == StIdle && Step(y1, Poll(calls)).d.state == StConvert
                <==> y.d.state == StDecode || reply == [])
  {
    hide Sized, TableOk, S.Ok, OpFits, Inv, CycleOk, Step, EndsRound;
    StepDefined(y, Poll(reply));
    StepPreserves(y, Poll(reply));
    if y.d.state == StDecode {
      LastDecode(y, reply);
    } else {
      LastSilence(y, reply);
    }
    if Step(y, Poll(reply)).d.state == StIdle {
      SelfStart(Step(y, Poll(reply)), calls);
    }
  }

  /** Parked in scan mode with the flag up and nobody running. */
  predicate RestsInScan(y: Sys) {
    y.d.state == StIdle && y.d.flags.scanMode && y.d.bus.uif && y.s.finished && y.d.res.finished && y.d.txn.finished
  }

  lemma LastDecode(y: Sys, reply: seq<Call>)
    requires Inv(y) && y.d.flags.parasite && EndsRound(y.d) && y.d.state == StDecode && CallsOk(reply)
    ensures RestsInScan(Step(y, Poll(reply)))
  {
    hide TableOk, S.Ok, OpFits, Judge, Decoded, Overwrite, CallbackSpec;
    CallbackIgnored(Judged(y.d.(bus := Consumed(y.d.bus))), reply);
  }

  lemma LastSilence(y: Sys, reply: seq<Call>)
    requires Inv(y) && y.d.flags.parasite && EndsRound(y.d) && y.d.state != StDecode && CallsOk(reply)
    ensures RestsInScan(Step(y, Poll(reply))) <==> reply == []
  {
    hide TableOk, S.Ok, OpFits, Table, MeasureBytes, CallbackSpec, DecodeSpec, Present;
    var d := y.d.(bus := Consumed(y.d.bus));
    var e := if d.state == StConvert then ForBroadcast(d) else ForDevice(d);
    CallbackHeard(Park(e).(state := StIdle), reply);
  }

  lemma {:induction false} CallbackIgnored(d: Drv, calls: seq<Call>)
    requires !Parked(d, false)
    ensures CallbackSpec(d, calls, false) == d
  {
    if calls != [] {
      CallbackIgnored(d, calls[..|calls| - 1]);
    }
  }

  /** A parked driver hears the first call of a callback. */
  lemma {:induction false} CallbackHeard(d: Drv, calls: seq<Call>)
    requires Parked(d, false) && d.flags.scanMode
    ensures var e := CallbackSpec(d, calls, false);
            && (e.state == StIdle && e.flags.scanMode <==> calls == [])
            && e.flags.parasite == d.flags.parasite && e.res == d.res && e.txn == d.txn
            && (e.state == StIdle || e.state == StStart)
  {
    if calls != [] {
      CallbackHeard(d, calls[..|calls| - 1]);
    }
  }

  // ---- the conversion wait ----

  /** In every run the tracked resolution is 9 to 12 bit, and the wait armed once Convert T has been
      sent is exactly the conversion time of that resolution, as the timer will plan it. */
  lemma ConversionNeverShort(y0: Sys, events: seq<Event>, calls: seq<Call>)
    requires Inv(y0) && CallsOk(calls) && forall e | e in events :: EventOk(e)
    requires Run(y0, events).d.state == StWait && Run(y0, events).d.bus.uif
    ensures var y := Run(y0, events);
            && RES_MIN <= y.d.resolution <= RES_MAX
            && Step(y, Poll(calls)).d.bus.armed == Some(Armed(Measurement, WaitOp(ResolutionWaitUs(y.d.resolution))))
            && forall arr: nat, rcr: nat | PlanWait.IsPlan(ResolutionWaitUs(y.d.resolution), arr, rcr) ::
                 (rcr + 1) * arr == ResolutionWaitUs(y.d.resolution)
  {
    hide Run, TableOk, OpFits, S.Ok, PlanWait.IsPlan, StartSpec, ConvertSpec, RequestSpec, DecodeSpec;
    var y := Run(y0, events);
    assert Inv(y);
    forall arr: nat, rcr: nat | PlanWait.IsPlan(ResolutionWaitUs(y.d.resolution), arr, rcr)
      ensures (rcr + 1) * arr == ResolutionWaitUs(y.d.resolution)
    {
      PlanWait.ConversionWaitExact(y.d, arr, rcr);
    }
  }
}
