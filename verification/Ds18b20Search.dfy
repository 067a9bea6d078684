/** The device search inside the driver: its table holds the first devices the search found. */
module Ds18b20Search {
  import opened Bits
  import opened PulseCodec
  import Gf2Crc
  import opened CrcLoops
  import opened SearchTree
  import opened Ds18b20
  import opened Ds18b20Proof
  import opened Ds18b20Runs
  import S = SearchEngine
  import SP = SearchProof

  const FAMILY: byte := 0x28

  /** What the search polls of a run have seen. */
  ghost function Inputs(y0: Sys, events: seq<Event>): seq<S.Input>
    requires Inv(y0) && forall e | e in events :: EventOk(e)
  {
    if events == [] then [] else
    var n := |events| - 1;
    var y := Run(y0, events[..n]);
    Inputs(y0, events[..n])
    + if events[n].SearchPoll? then [events[n].i.(done := y.d.bus.uif, captured := y.d.bus.captured)] else []
  }

  predicate TableIs(d: Drv, found: seq<Rom>) {
    && d.count == Min(|found|, MAX_DEVICES) <= |d.devs|
    && forall k: nat | k < d.count :: BitsOf(d.devs[k]) == found[k]
  }

  lemma StoreGrows(d: Drv, found: seq<Rom>, rom: seq<byte>)
    requires TableIs(d, found) && |d.devs| == MAX_DEVICES && |BitsOf(rom)| == 64
    ensures TableIs(StoreSpec(d, rom), found + [BitsOf(rom)])
  {
    hide BitsOf;
  }

  /** Only the search writes the table. */
  lemma TableFrame(y: Sys, e: Event)
    requires Inv(y) && EventOk(e) && !e.SearchPoll? && !e.SearchStart?
    ensures var y' := Step(y, e); y'.s == y.s && y'.d.devs == y.d.devs && y'.d.count == y.d.count
  {
    hide S.Ok, TableOk, BusOk, Sized, CapturedPresence, Overwrite, SwitchSpec, TxnSwitchSpec, Crc8Of, ByteBits,
         Table, ResolutionBytes, CommandBytes;
    if e.Poll? {
      BusSized(y.d);
      SwitchTable(y.d.(bus := Consumed(y.d.bus)), e.calls, !y.s.finished);
    }
    if e.TxnPoll? || e.ScratchPoll? || e.DetectPoll? {
      TxnPollPreserves(y.d, y.s.finished, y.s.phase == S.Done);
    }
  }

  lemma BusSized(d: Drv)
    requires Sized(d)
    ensures Sized(d.(bus := Consumed(d.bus)))
  {
  }

  lemma SwitchTable(d: Drv, calls: seq<Call>, searching: bool)
    requires Sized(d) && CallsOk(calls)
    ensures var e := SwitchSpec(d, calls, searching).d; e.devs == d.devs && e.count == d.count
  {
    hide CallbackSpec, Judged, Judge, Decoded, CapturedPresence, Table, MeasureBytes, Overwrite, Sized;
    CallbackTable(d, calls, searching);
    match d.state
    case StConvert =>
      StillSized(d);
      var e := Park(ForBroadcast(d));
      CallbackTable(e.(state := StIdle), calls, searching);
    case StRequest =>
      StillSized(d);
      var e := Park(ForDevice(d));
      CallbackTable(e.(state := StIdle), calls, searching);
    case StDecode =>
      JudgedFrame(d);
      CallbackTable(Judged(d), calls, searching);
    case _ =>
  }

  lemma {:induction false} CallbackTable(d: Drv, calls: seq<Call>, searching: bool)
    ensures var e := CallbackSpec(d, calls, searching); e.devs == d.devs && e.count == d.count
  {
    if calls != [] {
      CallbackTable(d, calls[..|calls| - 1], searching);
    }
  }

  /** The command byte of a device or an alarm search. */
  function Code(alarm: bool): byte {
    if alarm then 0xEC else 0xF0
  }

  /** The driver's engine and table against a run of module SearchProof: same engine state; the table
      holds the first ROMs a device search has reported, and an alarm search leaves it as it was. */
  predicate Mirrors(y: Sys, z: SP.Sys, alarm: bool, d0: Drv) {
    && y.s == z.s && y.s.command == Code(alarm) && y.s.found == |z.reported|
    && if alarm then y.d.devs == d0.devs && y.d.count == d0.count else TableIs(y.d, z.reported)
  }

  lemma SearchStep(y: Sys, z: SP.Sys, alarm: bool, d0: Drv, i: S.Input)
    requires Inv(y) && Mirrors(y, z, alarm, d0)
    ensures var j := i.(done := y.d.bus.uif, captured := y.d.bus.captured);
            Mirrors(Step(y, SearchPoll(i)), SP.Next(z, j), alarm, d0)
  {
    hide S.Ok, TableOk, BusOk, S.PollSpec, BytesOf, StoreSpec, TableIs, BitsOf;
    var j := i.(done := y.d.bus.uif, captured := y.d.bus.captured);
    SP.PollHasShape(y.s, j);
    var o := S.PollSpec(y.s, j);
    StoreFrame(y.d);
    if !alarm {
      if o.report.Some? {
        StoreGrows(y.d, z.reported, BytesOf(o.report.value));
      }
      SameTable(if o.report.Some? then StoreSpec(y.d, BytesOf(o.report.value)) else y.d, Step(y, SearchPoll(i)).d,
                SP.Next(z, j).reported);
    }
  }

  lemma SameTable(d: Drv, e: Drv, found: seq<Rom>)
    requires TableIs(d, found) && e.devs == d.devs && e.count == d.count
    ensures TableIs(e, found)
  {
  }

  /** The system right after an accepted ds18b20_search_start or ds18b20_alarm_search_start. */
  ghost function Begun(y: Sys, alarm: bool, max: nat): (y1: Sys)
    requires Inv(y) && Parked(y.d, !y.s.finished) && max < 256
    ensures Inv(y1)
  {
    hide Inv, Step;
    StepDefined(y, SearchStart(alarm, max));
    StepPreserves(y, SearchStart(alarm, max));
    Step(y, SearchStart(alarm, max))
  }

  /** The start of the run of module SearchProof that the engine goes through from there. */
  ghost function Launched(y: Sys, alarm: bool, max: nat): SP.Sys
    requires S.Ok(y.s) && y.s.finished && max < 256
  {
    SP.Launch(y.s, true, max, Code(alarm), FAMILY)
  }

  ghost function Searched(y: Sys, alarm: bool, max: nat, events: seq<Event>): SP.Sys
    requires Inv(y) && Parked(y.d, !y.s.finished) && max < 256 && forall e | e in events :: EventOk(e)
  {
    SP.Run(Launched(y, alarm, max), Inputs(Begun(y, alarm, max), events))
  }

  lemma SearchLaunch(y: Sys, alarm: bool, max: nat)
    requires Inv(y) && Parked(y.d, !y.s.finished) && max < 256
    ensures Mirrors(Begun(y, alarm, max), Launched(y, alarm, max), alarm, y.d)
  {
    hide S.Ok, TableOk, BusOk, Sized;
    assert |y.d.devs| == MAX_DEVICES by { DevsSized(y.d); }
  }

  lemma {:induction false} SearchRun(y1: Sys, z0: SP.Sys, alarm: bool, d0: Drv, events: seq<Event>)
    requires Inv(y1) && S.Ok(z0.s) && Mirrors(y1, z0, alarm, d0)
    requires forall e | e in events :: EventOk(e) && !e.SearchStart?
    ensures Mirrors(Run(y1, events), SP.Run(z0, Inputs(y1, events)), alarm, d0)
  {
    hide Inv, Step, TableIs, SP.Next, S.Ok;
    if events != [] {
      var n := |events| - 1;
      assert events[n] in events && forall e | e in events[..n] :: e in events;
      SearchRun(y1, z0, alarm, d0, events[..n]);
      var y, seen := Run(y1, events[..n]), Inputs(y1, events[..n]);
      var e := events[n];
      if e.SearchPoll? {
        var j := e.i.(done := y.d.bus.uif, captured := y.d.bus.captured);
        assert (seen + [j])[..|seen|] == seen;
        SearchStep(y, SP.Run(z0, seen), alarm, d0, e.i);
      } else {
        assert Inputs(y1, events) == seen;
        StepDefined(y, e);
        TableFrame(y, e);
        if !alarm {
          SameTable(y.d, Step(y, e).d, SP.Run(z0, seen).reported);
        }
      }
    }
  }

  /** A DS18B20: its family code 0x28 first, and its CRC-8 valid. */
  ghost predicate Thermometer(r: Rom) {
    Gf2Crc.Crc(Gf2Crc.G8, r) == Gf2Crc.Zeros(8) && ByteBits(0x28) <= r
  }

  ghost function Thermometers(d: set<Rom>): set<Rom> {
    set r | r in d && Thermometer(r)
  }

  /** From an accepted search on, device or alarm, over any calls, polls and completions up to the next
      search, on an honest bus: the engine counts the ROMs it has reported, and they are the DS18B20s
      among the devices (the devices in alarm) in ascending order without gap or repeat.
      When the search ended by itself, nothing below the first bad CRC is missing. */
  lemma SearchReports(bus: SP.Bus, y: Sys, alarm: bool, max: nat, events: seq<Event>)
    requires Inv(y) && Parked(y.d, !y.s.finished) && max < 256
    requires forall e | e in events :: EventOk(e) && !e.SearchStart?
    requires SP.HonestRun(bus, Launched(y, alarm, max), Inputs(Begun(y, alarm, max), events))
    ensures var y', z := Run(Begun(y, alarm, max), events), Searched(y, alarm, max, events);
            var d := if alarm then bus.alarmed * bus.devices else bus.devices;
            && y'.s == z.s && y'.s.found == |z.reported| <= max
            && Enumerates(Thermometers(d), z.reported)
            && (y'.s.finished && !z.sinkAsked && y'.s.found < max ==>
                  forall r :: r in z.reported <==> r in Thermometers(d) && !SP.SpoiledBelow(d, r))
  {
    hide Inv, Step, SP.Next, S.Ok, Run, SP.Run, SP.HonestRun, SP.Launch, Enumerates, Inputs, Begun, BitsOf,
         SP.SpoiledBelow, SP.Wanted, Thermometer;
    EngineOk(y);
    SearchLaunch(y, alarm, max);
    SearchRun(Begun(y, alarm, max), Launched(y, alarm, max), alarm, y.d, events);
    SP.SearchEnumerates(bus, y.s, true, max, Code(alarm), FAMILY, Inputs(Begun(y, alarm, max), events));
    WantedAre(if alarm then bus.alarmed * bus.devices else bus.devices);
  }

  lemma WantedAre(d: set<Rom>)
    ensures SP.WantedOf(d, FAMILY) == Thermometers(d)
    ensures forall r :: SP.Wanted(FAMILY, r) <==> Thermometer(r)
  {
  }

  /** In the same runs the table holds the first min(found, 8) ROMs a device search has reported; an
      alarm search leaves it untouched. */
  lemma DeviceTable(y: Sys, alarm: bool, max: nat, events: seq<Event>)
    requires Inv(y) && Parked(y.d, !y.s.finished) && max < 256
    requires forall e | e in events :: EventOk(e) && !e.SearchStart?
    ensures var y', z := Run(Begun(y, alarm, max), events), Searched(y, alarm, max, events);
            && (!alarm ==>
                  && y'.d.count == Min(y'.s.found, MAX_DEVICES) <= |y'.d.devs| && y'.s.found == |z.reported|
                  && forall k: nat | k < y'.d.count :: BitsOf(y'.d.devs[k]) == z.reported[k])
            && (alarm ==> y'.d.devs == y.d.devs && y'.d.count == y.d.count)
  {
    hide Inv, Step, SP.Next, S.Ok, Run, SP.Run, SP.Launch, Inputs, Begun, BitsOf;
    EngineOk(y);
    SearchLaunch(y, alarm, max);
    SearchRun(Begun(y, alarm, max), Launched(y, alarm, max), alarm, y.d, events);
  }

  lemma EngineOk(y: Sys)
    requires Inv(y) && Parked(y.d, !y.s.finished)
    ensures S.Ok(y.s) && y.s.finished && Sized(y.d)
  {
  }
}
