/** The recorder with the EEPROM calls it really makes: a copy programs what the last write call sent,
    and a read-back returns what stands where the last read call pointed. */
module RecorderWire {
  import opened Bits
  import opened Recorder
  import opened RecorderProof

  /** A call of the EEPROM driver, or the end of its command. */
  datatype Entry = Asked(call: EepromCall) | Ended(good: bool)

  /** The application, the EEPROM, the device table, and all calls so far. */
  datatype Wire = Wire(a: App, mem: seq<byte>, devs: seq<Block>, trace: seq<Entry>)

  /** The write whose data the scratchpad was sent last. */
  function LastWrite(trace: seq<Entry>): Option<EepromCall> {
    if trace == [] then None
    else
      var x := trace[|trace| - 1];
      if x.Asked? && x.call.WriteBlock? then Some(x.call) else LastWrite(trace[..|trace| - 1])
  }

  function LastRead(trace: seq<Entry>): Option<EepromCall> {
    if trace == [] then None
    else
      var x := trace[|trace| - 1];
      if x.Asked? && x.call.ReadBlock? then Some(x.call) else LastRead(trace[..|trace| - 1])
  }

  /** A call that is made, and its end when the driver rejects it. */
  function Made(call: EepromCall, accepted: bool): seq<Entry> {
    if call.NoCall? then [] else if accepted then [Asked(call)] else [Asked(call), Ended(false)]
  }

  function Copied(mem: seq<byte>, write: Option<EepromCall>): seq<byte> {
    if write.Some? && write.value.WriteBlock? && write.value.addr + 8 <= |mem|
    then Program(mem, write.value.addr, write.value.image) else mem
  }

  function ReadBack(mem: seq<byte>, read: Option<EepromCall>): Option<Block> {
    if read.Some? && read.value.ReadBlock? && read.value.addr + 8 <= |mem| then Some(MemBlock(mem, read.value.addr))
    else None
  }

  predicate Possible(w: Wire, ev: Event) {
    EventOk(Abs(w), ev)
  }

  /** One event: the application's functions, the calls its methods return, and an EEPROM that knows
      only those calls. */
  function Next(w: Wire, ev: Event): Wire
    requires Sized(w.a) && |w.mem| == EEPROM_SIZE && Possible(w, ev)
  {
    match ev
    case Boot(have, ok, devs) =>
      var blocks := [MemBlock(w.mem, RecAddr(PEAK)), MemBlock(w.mem, RecAddr(LOW)),
                     MemBlock(w.mem, RomAddr(PEAK)), MemBlock(w.mem, RomAddr(LOW))];
      Wire(BootSpec(have, ok, blocks), w.mem, devs, w.trace)
    case Round(e, scheduled) =>
      w.(a := RoundSpec(w.a, e, w.devs, scheduled),
         trace := w.trace + Made(StartCall(RoundSpec(w.a, e, w.devs, true).jobs, 0), scheduled))
    case CommandEnds(good) =>
      w.(a := CommandSpec(w.a, good), trace := w.trace + [Ended(good)] + Made(CommandCall(w.a, good), true))
    case CopyEnds(programmed, good) =>
      w.(a := CommandSpec(w.a, good), trace := w.trace + [Ended(good)] + Made(CommandCall(w.a, good), true),
         mem := if programmed then Copied(w.mem, LastWrite(w.trace)) else w.mem)
    case ReadEnds(good, scheduled) =>
      var read := if good then ReadBack(w.mem, LastRead(w.trace)) else None;
      var call := if read == Some(w.a.jobs[w.a.jobI].image) then StartCall(w.a.jobs, w.a.jobI + 1) else NoCall;
      w.(a := ReadbackSpec(w.a, read, scheduled), trace := w.trace + [Ended(good)] + Made(call, scheduled))
  }

  function Abs(w: Wire): Sys {
    Sys(w.a, w.mem, w.devs)
  }

  // ---- what the calls say ----

  /** Every copy comes right behind a write and its verify, both ended well. */
  predicate CopiesVerified(trace: seq<Entry>) {
    forall i | 0 <= i < |trace| && trace[i] == Asked(CopyBlock) ::
      && i >= 4 && trace[i - 1] == Ended(true) && trace[i - 2] == Asked(VerifyRead) && trace[i - 3] == Ended(true)
      && trace[i - 4].Asked? && trace[i - 4].call.WriteBlock?
  }

  predicate EndsWith(trace: seq<Entry>, tail: seq<Entry>) {
    |tail| <= |trace| && trace[|trace| - |tail|..] == tail
  }

  /** The calls made for the job under way. */
  function JobCalls(a: App): seq<Entry>
    requires Sized(a)
  {
    if a.phase == Waiting then [] else
    var j := a.jobs[a.jobI];
    var write := [Asked(WriteBlock(j.addr, j.image))];
    var verify := write + [Ended(true), Asked(VerifyRead)];
    var copy := verify + [Ended(true), Asked(CopyBlock)];
    match a.phase
    case Scratch => write
    case Verify => verify
    case Copy => copy
    case _ => copy + [Ended(true), Asked(ReadBlock(j.addr))]
  }

  predicate WireOk(w: Wire) {
    hide Inv;
    Inv(Abs(w)) && Sized(w.a) && CopiesVerified(w.trace) && EndsWith(w.trace, JobCalls(w.a))
  }

  lemma {:induction false} LastWriteIs(trace: seq<Entry>, k: nat)
    requires k < |trace| && trace[k].Asked? && trace[k].call.WriteBlock?
    requires forall i | k < i < |trace| :: !(trace[i].Asked? && trace[i].call.WriteBlock?)
    ensures LastWrite(trace) == Some(trace[k].call)
  {
    if k < |trace| - 1 {
      LastWriteIs(trace[..|trace| - 1], k);
    }
  }

  /** The calls for a job begin with its write, and no other; those of the last phase end with its read. */
  lemma CallsOfJob(a: App)
    requires Sized(a) && a.phase != Waiting
    ensures var j, calls := a.jobs[a.jobI], JobCalls(a);
            && calls != [] && calls[0] == Asked(WriteBlock(j.addr, j.image))
            && (forall i | 0 < i < |calls| :: !(calls[i].Asked? && calls[i].call.WriteBlock?))
            && (a.phase == Readback ==> calls[|calls| - 1] == Asked(ReadBlock(j.addr)))
  {
  }

  lemma LastReadIs(trace: seq<Entry>)
    requires trace != [] && trace[|trace| - 1].Asked? && trace[|trace| - 1].call.ReadBlock?
    ensures LastRead(trace) == Some(trace[|trace| - 1].call)
  {
  }

  lemma LastOfJob(w: Wire)
    requires Sized(w.a) && EndsWith(w.trace, JobCalls(w.a)) && w.a.phase != Waiting
    ensures var j := w.a.jobs[w.a.jobI];
            && LastWrite(w.trace) == Some(WriteBlock(j.addr, j.image))
            && (w.a.phase == Readback ==> LastRead(w.trace) == Some(ReadBlock(j.addr)))
  {
    hide JobCalls, LastWrite, LastRead;
    CallsOfJob(w.a);
    var calls := JobCalls(w.a);
    var n := |w.trace| - |calls|;
    forall i | n <= i < |w.trace| ensures w.trace[i] == calls[i - n] {
      assert w.trace[n..][i - n] == calls[i - n];
    }
    LastWriteIs(w.trace, n);
    if w.a.phase == Readback {
      LastReadIs(w.trace);
    }
  }

  /** Appending entries that hold no copy, or one that follows its write and verify. */
  lemma StillVerified(trace: seq<Entry>, more: seq<Entry>)
    requires CopiesVerified(trace)
    requires forall i | 0 <= i < |more| :: more[i] != Asked(CopyBlock)
    ensures CopiesVerified(trace + more)
  {
    var t := trace + more;
    forall i | |trace| <= i < |t| ensures t[i] != Asked(CopyBlock) {
      assert t[i] == more[i - |trace|];
    }
  }

  lemma CopyInside(trace: seq<Entry>, more: seq<Entry>, i: nat)
    requires CopiesVerified(trace) && i < |trace| && trace[i] == Asked(CopyBlock)
    ensures var t := trace + more;
            && i >= 4 && t[i - 1] == Ended(true) && t[i - 2] == Asked(VerifyRead) && t[i - 3] == Ended(true)
            && t[i - 4].Asked? && t[i - 4].call.WriteBlock?
  {
  }

  lemma CopyVerified(trace: seq<Entry>, w: EepromCall)
    requires CopiesVerified(trace) && w.WriteBlock?
    requires EndsWith(trace, [Asked(w), Ended(true), Asked(VerifyRead)])
    ensures CopiesVerified(trace + [Ended(true), Asked(CopyBlock)])
  {
    var n := |trace|;
    var tail := trace[n - 3..];
    assert tail[0] == trace[n - 3] && tail[1] == trace[n - 2] && tail[2] == trace[n - 1];
    var t := trace + [Ended(true), Asked(CopyBlock)];
    assert t[n] == Ended(true) && t[n + 1] == Asked(CopyBlock);
    assert t[n - 3] == Asked(w) && t[n - 2] == Ended(true) && t[n - 1] == Asked(VerifyRead);
    forall i | 0 <= i < |t| && t[i] == Asked(CopyBlock)
      ensures && i >= 4 && t[i - 1] == Ended(true) && t[i - 2] == Asked(VerifyRead) && t[i - 3] == Ended(true)
              && t[i - 4].Asked? && t[i - 4].call.WriteBlock?
    {
      if i < n {
        CopyInside(trace, [Ended(true), Asked(CopyBlock)], i);
      }
    }
  }

  lemma EndsMore(trace: seq<Entry>, tail: seq<Entry>, more: seq<Entry>)
    requires EndsWith(trace, tail)
    ensures EndsWith(trace + more, tail + more) && EndsWith(trace + more, more)
  {
    var t := trace + more;
    assert t[|t| - |tail| - |more|..] == tail + more;
  }

  lemma BootNext(w: Wire, ev: Event)
    requires WireOk(w) && Possible(w, ev) && ev.Boot?
    ensures Abs(Next(w, ev)) == Step(Abs(w), ev) && WireOk(Next(w, ev))
  {
    hide RomAccepted, RecordAccepted, MemBlock, LoadRecord, LoadRom;
    StepPreserves(Abs(w), ev);
  }

  lemma RoundNext(w: Wire, ev: Event)
    requires WireOk(w) && Possible(w, ev) && ev.Round?
    ensures Abs(Next(w, ev)) == Step(Abs(w), ev) && WireOk(Next(w, ev))
  {
    hide RomAccepted, RecordAccepted, MemBlock, QueueSpec, CommitAll, Inv;
    StepPreserves(Abs(w), ev);
    InvMeans(Abs(w));
    InvMeans(Step(Abs(w), ev));
    var more := Made(StartCall(RoundSpec(w.a, ev.e, w.devs, true).jobs, 0), ev.scheduled);
    StillVerified(w.trace, more);
    EndsMore(w.trace, [], more);
  }

  /** The call that goes with the end of a command is the next one of the job. */
  lemma CallsGrow(a: App)
    requires Sized(a) && (a.phase == Scratch || a.phase == Verify || a.phase == Copy)
    ensures JobCalls(CommandSpec(a, true)) == JobCalls(a) + ([Ended(true)] + Made(CommandCall(a, true), true))
    ensures JobCalls(CommandSpec(a, false)) == []
  {
  }

  lemma EndsNothing(trace: seq<Entry>)
    ensures EndsWith(trace, [])
  {
  }

  lemma CommandTrace(a: App, trace: seq<Entry>, good: bool)
    requires Sized(a) && (a.phase == Scratch || a.phase == Verify || a.phase == Copy)
    requires CopiesVerified(trace) && EndsWith(trace, JobCalls(a))
    ensures var t := trace + [Ended(good)] + Made(CommandCall(a, good), true);
            CopiesVerified(t) && EndsWith(t, JobCalls(CommandSpec(a, good)))
  {
    hide CopiesVerified, EndsWith, JobCalls, CommandSpec;
    var more := [Ended(good)] + Made(CommandCall(a, good), true);
    assert trace + [Ended(good)] + Made(CommandCall(a, good), true) == trace + more;
    CallsGrow(a);
    EndsMore(trace, JobCalls(a), more);
    EndsNothing(trace + more);
    if a.phase == Verify && good {
      VerifyCalls(a);
      assert more == [Ended(true), Asked(CopyBlock)];
      CopyVerified(trace, JobCalls(a)[0].call);
    } else {
      StillVerified(trace, more);
    }
  }

  lemma VerifyCalls(a: App)
    requires Sized(a) && a.phase == Verify
    ensures var w := WriteBlock(a.jobs[a.jobI].addr, a.jobs[a.jobI].image);
            JobCalls(a) == [Asked(w), Ended(true), Asked(VerifyRead)]
  {
  }

  lemma CommandNext(w: Wire, ev: Event)
    requires WireOk(w) && Possible(w, ev) && (ev.CommandEnds? || ev.CopyEnds?)
    ensures Abs(Next(w, ev)) == Step(Abs(w), ev) && WireOk(Next(w, ev))
  {
    hide RomAccepted, RecordAccepted, MemBlock, Inv, CopiesVerified, EndsWith, JobCalls, Program, CommandSpec,
         CommandCall;
    StepPreserves(Abs(w), ev);
    InvMeans(Abs(w));
    InvMeans(Step(Abs(w), ev));
    LastOfJob(w);
    CommandTrace(w.a, w.trace, ev.good);
  }

  lemma ReadNext(w: Wire, ev: Event)
    requires WireOk(w) && Possible(w, ev) && ev.ReadEnds?
    ensures Abs(Next(w, ev)) == Step(Abs(w), ev) && WireOk(Next(w, ev))
  {
    hide RomAccepted, RecordAccepted, MemBlock, Inv, CopiesVerified, EndsWith, JobCalls, ReadbackSpec;
    StepPreserves(Abs(w), ev);
    InvMeans(Abs(w));
    InvMeans(Step(Abs(w), ev));
    LastOfJob(w);
    var read := if ev.good then Some(MemBlock(w.mem, w.a.jobs[w.a.jobI].addr)) else None;
    ReadTrace(w.a, w.trace, ev.good, read, ev.scheduled);
  }

  lemma ReadCalls(a: App, read: Option<Block>, scheduled: bool)
    requires Sized(a) && a.phase == Readback
    ensures var call := if read == Some(a.jobs[a.jobI].image) then StartCall(a.jobs, a.jobI + 1) else NoCall;
            var a' := ReadbackSpec(a, read, scheduled);
            Sized(a') && JobCalls(a') == if scheduled then Made(call, true) else []
  {
    hide DecodeTemp;
  }

  lemma ReadTrace(a: App, trace: seq<Entry>, good: bool, read: Option<Block>, scheduled: bool)
    requires Sized(a) && a.phase == Readback && CopiesVerified(trace)
    ensures var call := if read == Some(a.jobs[a.jobI].image) then StartCall(a.jobs, a.jobI + 1) else NoCall;
            var t := trace + [Ended(good)] + Made(call, scheduled);
            var a' := ReadbackSpec(a, read, scheduled);
            Sized(a') && CopiesVerified(t) && EndsWith(t, JobCalls(a'))
  {
    hide CopiesVerified, EndsWith, DecodeTemp, JobCalls, ReadbackSpec;
    ReadCalls(a, read, scheduled);
    var call := if read == Some(a.jobs[a.jobI].image) then StartCall(a.jobs, a.jobI + 1) else NoCall;
    var more := [Ended(good)] + Made(call, scheduled);
    var t := trace + [Ended(good)] + Made(call, scheduled);
    assert t == trace + more;
    StillVerified(trace, more);
    EndsNothing(t);
    EndsNothing(trace + [Ended(good)]);
    EndsMore(trace + [Ended(good)], [], Made(call, scheduled));
  }

  /** Every event does to the EEPROM what RecorderProof says, although the EEPROM knows the calls only. */
  lemma NextRefines(w: Wire, ev: Event)
    requires WireOk(w) && Possible(w, ev)
    ensures Abs(Next(w, ev)) == Step(Abs(w), ev) && WireOk(Next(w, ev))
  {
    hide WireOk, Next, Step, Possible;
    match ev
    case Boot(_, _, _) => BootNext(w, ev);
    case Round(_, _) => RoundNext(w, ev);
    case CommandEnds(_) => CommandNext(w, ev);
    case CopyEnds(_, _) => CommandNext(w, ev);
    case ReadEnds(_, _) => ReadNext(w, ev);
  }

  // ---- whole runs ----

  /** The wire after a run of events that RecorderProof allows. */
  ghost function RunWire(w: Wire, events: seq<Event>): (w': Wire)
    requires WireOk(w) && Inv(Abs(w)) && IsRun(Abs(w), events)
    ensures WireOk(w') && Abs(w') == Run(Abs(w), events)
    decreases |events|
  {
    hide WireOk, Next, Step, Inv, EventOk;
    if events == [] then w else
    NextRefines(w, events[0]);
    StepPreserves(Abs(w), events[0]);
    Shape(Abs(w));
    RunWire(Next(w, events[0]), events[1..])
  }

  /** The promises of RecorderProof, of the calls that are really made: over all readings, failures and
      power cuts every acceptable record has an acceptable ROM beside it and nothing outside the four
      blocks changes; and no copy is asked for but right behind a write of the same block and its
      verify, both ended well. */
  lemma CallsCrashSafe(w: Wire, events: seq<Event>)
    requires WireOk(w) && Inv(Abs(w)) && IsRun(Abs(w), events)
    ensures var w' := RunWire(w, events);
            && |w'.mem| == EEPROM_SIZE && SlotSafe(w'.mem, PEAK) && SlotSafe(w'.mem, LOW)
            && (forall i: nat | i < EEPROM_SIZE && !InMap(i) :: w'.mem[i] == w.mem[i])
            && CopiesVerified(w'.trace)
  {
    hide SlotSafe, RunWire, CopiesVerified, Inv, IsRun, Run;
    CrashSafe(Abs(w), events);
    VerifiedOf(RunWire(w, events));
  }

  lemma VerifiedOf(w: Wire)
    requires WireOk(w)
    ensures CopiesVerified(w.trace)
  {
  }

  lemma CallsOnlyMoveOut(w: Wire, events: seq<Event>, s: SlotId)
    requires WireOk(w) && Inv(Abs(w)) && IsRun(Abs(w), events) && OrdinaryRun(Abs(w), events) && InSync(Abs(w))
    ensures var w' := RunWire(w, events);
            |w.mem| == |w'.mem| == EEPROM_SIZE && NotWorse(s, Stored(w.mem, s), Stored(w'.mem, s))
  {
    hide RunWire, InSync, Inv, IsRun, OrdinaryRun, Run, Stored, WireOk;
    ExtremesOnlyMoveOut(Abs(w), events, s);
    Shape(Abs(w));
    Shape(Run(Abs(w), events));
  }

  /** Every EEPROM with safe records is a start, before any call. */
  lemma WireStarts(mem: seq<byte>, have: bool)
    requires |mem| == EEPROM_SIZE && SlotSafe(mem, PEAK) && SlotSafe(mem, LOW)
    ensures WireOk(Wire(App(Waiting, [NO_RECORD, NO_RECORD], [], 0, 0, false, have), mem, [], []))
  {
    hide RomAccepted, RecordAccepted, MemBlock;
  }
}
