/** Where the recorder's promises end: when a stored extreme can move inwards, and whose ROM stands
    beside a stored record. */
module RecorderLimits {
  import opened Bits
  import opened CrcLoops
  import opened Recorder
  import opened RecorderProof
  import R = RecorderRounds

  // ---- a queued job reaches the EEPROM ----

  /** The events of the write jobs of one round. */
  predicate JobEvents(events: seq<Event>) {
    forall ev | ev in events :: !ev.Boot? && !ev.Round?
  }

  lemma RunMore(y: Sys, e: Event, rest: seq<Event>)
    requires Inv(y) && Shaped(y) && EventOk(y, e) && Inv(Step(y, e)) && IsRun(Step(y, e), rest)
    ensures IsRun(y, [e] + rest) && Run(y, [e] + rest) == Run(Step(y, e), rest)
  {
    hide Inv, Step, EventOk, Shaped;
    assert ([e] + rest)[1..] == rest;
  }

  /** Write Scratchpad and verify end well. */
  lemma ToCopy(y: Sys) returns (z: Sys)
    requires Inv(y) && y.a.phase == Scratch
    ensures Inv(z) && z == y.(a := y.a.(phase := Copy))
    ensures Shaped(y) && EventOk(y, CommandEnds(true))
    ensures var y1 := Step(y, CommandEnds(true));
            Inv(y1) && Shaped(y1) && EventOk(y1, CommandEnds(true)) && z == Step(y1, CommandEnds(true))
  {
    hide QueueOk, SlotSafe, RomStored, RomAccepted, Addressed;
    StepPreserves(y, CommandEnds(true));
    var y1 := Step(y, CommandEnds(true));
    StepPreserves(y1, CommandEnds(true));
    z := Step(y1, CommandEnds(true));
  }

  /** The copy takes effect and ends well or not. */
  lemma Land(z: Sys, good: bool) returns (w: Sys)
    requires Inv(z) && z.a.phase == Copy
    ensures Inv(w) && Shaped(z) && EventOk(z, CopyEnds(true, good)) && w == Step(z, CopyEnds(true, good))
    ensures |z.mem| == |w.mem| == EEPROM_SIZE && MemBlock(w.mem, Current(z).addr) == Current(z).image
    ensures forall s: SlotId | Current(z).isRom || Current(z).slot != s ::
              MemBlock(w.mem, RecAddr(s)) == MemBlock(z.mem, RecAddr(s))
    ensures w.devs == z.devs && w.a == if good then z.a.(phase := Readback) else AbortSpec(z.a)
  {
    hide QueueOk, SlotSafe, RomStored, RomAccepted, MemBlock, Program;
    StepPreserves(z, CopyEnds(true, good));
    w := Step(z, CopyEnds(true, good));
    assert Current(z) in z.a.jobs;
    ProgramFrame(z.mem, Current(z), false, PEAK);
    ProgramFrame(z.mem, Current(z), false, LOW);
  }

  /** The read-back of a copy that took effect: the next job begins. */
  lemma NextJob(w: Sys) returns (x: Sys)
    requires Inv(w) && w.a.phase == Readback && w.a.jobI + 1 < |w.a.jobs|
    requires Shaped(w) && MemBlock(w.mem, Current(w).addr) == Current(w).image
    ensures Inv(x) && EventOk(w, ReadEnds(true, true)) && x == Step(w, ReadEnds(true, true))
    ensures x.devs == w.devs && x.mem == w.mem
    ensures x.a == CommitSpec(w.a, Current(w)).(fails := 0, jobI := w.a.jobI + 1, phase := Scratch)
  {
    hide QueueOk, SlotSafe, RomStored, RomAccepted, Addressed, MemBlock;
    StepPreserves(w, ReadEnds(true, true));
    x := Step(w, ReadEnds(true, true));
  }

  /** What a slot's RAM copy says is the same in both. */
  predicate SameRecord(a: App, b: App, s: SlotId)
    requires |a.slots| == 2 == |b.slots|
  {
    a.slots[s].valid == b.slots[s].valid && a.slots[s].temp == b.slots[s].temp
  }

  /** No record job of slot s among jobs i to k - 1. */
  predicate NoRecord(jobs: seq<Job>, i: nat, k: nat, s: SlotId)
    requires k <= |jobs|
  {
    forall l | i <= l < k :: jobs[l].isRom || jobs[l].slot != s
  }

  /** Where a run of jobs has got to when the copy of the last one, job, has taken effect. */
  predicate Arrived(y: Sys, z: Sys, job: Job, good: bool)
    requires Shaped(y) && Shaped(z) && job.addr + 8 <= EEPROM_SIZE
  {
    && MemBlock(z.mem, job.addr) == job.image && z.devs == y.devs && z.a.have == y.a.have
    && (if good then z.a.phase == Readback && z.a.off == y.a.off
        else z.a.phase == Waiting && (y.a.fails + 1 < WRITE_FAIL_LIMIT ==> z.a.off == y.a.off))
  }

  /** Any queued job can be reached, whatever stands before it in the queue. */
  lemma ReachLanded(y: Sys, k: nat, good: bool) returns (events: seq<Event>)
    requires Inv(y) && Shaped(y) && y.a.phase == Scratch && y.a.jobI <= k < |y.a.jobs|
    ensures JobEvents(events) && IsRun(y, events) && Inv(Run(y, events)) && Shaped(Run(y, events))
    ensures y.a.jobs[k].addr + 8 <= EEPROM_SIZE && Arrived(y, Run(y, events), y.a.jobs[k], good)
    ensures forall s: SlotId | NoRecord(y.a.jobs, y.a.jobI, k, s) :: SameRecord(y.a, Run(y, events).a, s)
    ensures forall s: SlotId | NoRecord(y.a.jobs, y.a.jobI, k + 1, s) ::
              MemBlock(Run(y, events).mem, RecAddr(s)) == MemBlock(y.mem, RecAddr(s))
    decreases k - y.a.jobI
  {
    hide Inv, Step, EventOk, Run, MemBlock, DecodeTemp, Addressed;
    var z := ToCopy(y);
    var y1 := Step(y, CommandEnds(true));
    if y.a.jobI == k {
      var w := Land(z, good);
      Shape(w);
      NoMore(w);
      RunMore(z, CopyEnds(true, good), []);
      RunMore(y1, CommandEnds(true), [CopyEnds(true, good)] + []);
      RunMore(y, CommandEnds(true), [CommandEnds(true)] + ([CopyEnds(true, good)] + []));
      events := [CommandEnds(true)] + ([CommandEnds(true)] + ([CopyEnds(true, good)] + []));
    } else {
      var w := Land(z, true);
      Shape(w);
      var x := NextJob(w);
      Shape(x);
      var rest := ReachLanded(x, k, good);
      forall s: SlotId | NoRecord(y.a.jobs, y.a.jobI, k, s) ensures SameRecord(y.a, Run(x, rest).a, s) {
        assert NoRecord(x.a.jobs, x.a.jobI, k, s);
      }
      forall s: SlotId | NoRecord(y.a.jobs, y.a.jobI, k + 1, s)
        ensures MemBlock(Run(x, rest).mem, RecAddr(s)) == MemBlock(y.mem, RecAddr(s))
      {
        assert NoRecord(x.a.jobs, x.a.jobI, k + 1, s);
      }
      RunMore(w, ReadEnds(true, true), rest);
      RunMore(z, CopyEnds(true, true), [ReadEnds(true, true)] + rest);
      RunMore(y1, CommandEnds(true), [CopyEnds(true, true)] + ([ReadEnds(true, true)] + rest));
      var tail := [CommandEnds(true)] + ([CopyEnds(true, true)] + ([ReadEnds(true, true)] + rest));
      RunMore(y, CommandEnds(true), tail);
      events := [CommandEnds(true)] + tail;
    }
  }

  lemma NoMore(y: Sys)
    requires Inv(y)
    ensures IsRun(y, []) && Run(y, []) == y
  {
  }

  // ---- one round ----

  /** Temperatures a record can hold, the low not above the high. */
  predicate Recordable(e: Extremes) {
    R.InRange(e) && e.lo <= e.hi
  }

  /** A round and, as far as they get, its write jobs, with any outcome. */
  ghost predicate IsRound(y: Sys, events: seq<Event>)
    requires Inv(y)
  {
    events != [] && events[0].Round? && Recordable(events[0].e) && JobEvents(events[1..]) && IsRun(y, events)
  }

  function RecordJobOf(y: Sys, e: Extremes, s: SlotId): Job
    requires |y.a.slots| == 2
  {
    R.RecordJob(y.a.slots[s], s, R.Reading(e, s), R.Sensor(e, s))
  }

  /** A new extreme is queued, behind at most the other slot's jobs and its own ROM. */
  lemma RecordQueued(y: Sys, e: Extremes, s: SlotId) returns (k: nat)
    requires Inv(y) && y.a.phase == Waiting && Writable(y.a) && e.hiI < |y.devs| && e.loI < |y.devs|
    requires |y.a.slots| == 2 && IsNew(y.a.slots[s], s, R.Reading(e, s))
    ensures Shaped(y) && EventOk(y, Round(e, true))
    ensures var y1 := Step(y, Round(e, true));
            && y1 == y.(a := y.a.(phase := Scratch, jobs := y1.a.jobs, jobI := 0))
            && k < |y1.a.jobs| && y1.a.jobs[k] == RecordJobOf(y, e, s) && NoRecord(y1.a.jobs, 0, k, s)
            && ((y.a.slots[s].romValid && y.a.slots[s].rom == y.devs[R.Sensor(e, s)])
                || (k > 0 && y1.a.jobs[k - 1] == Job(true, s, RomAddr(s), y.devs[R.Sensor(e, s)])))
  {
    hide RomAccepted, MemBlock, RecordImage, QueueSpec, CommitAll, QueueOk, SlotSafe, Addressed;
    var b := y.a.(jobs := []);
    QueueShape(b, PEAK, e.hi, e.hiI, y.devs[e.hiI]);
    QueueShape(b, LOW, e.lo, e.loI, y.devs[e.loI]);
    var q := QueueSpec(b, PEAK, e.hi, e.hiI, y.devs[e.hiI]);
    QueueShape(b.(jobs := q), LOW, e.lo, e.loI, y.devs[e.loI]);
    var jobs := Step(y, Round(e, true)).a.jobs;
    k := if s == PEAK then |q| - 1 else |jobs| - 1;
    assert s == LOW && IsNew(y.a.slots[PEAK], PEAK, e.hi) ==> forall l | 0 <= l < |q| :: jobs[l] == q[l];
  }

  /** A new extreme can reach the EEPROM, with any outcome reported for its copy. */
  lemma RecordLands(y: Sys, e: Extremes, s: SlotId, good: bool) returns (events: seq<Event>)
    requires Inv(y) && y.a.phase == Waiting && Writable(y.a) && e.hiI < |y.devs| && e.loI < |y.devs|
    requires |y.a.slots| == 2 && IsNew(y.a.slots[s], s, R.Reading(e, s)) && Recordable(e)
    ensures IsRound(y, events)
    ensures var z := Run(y, events);
            && |z.mem| == EEPROM_SIZE && Stored(z.mem, s) == Some(R.Reading(e, s))
            && Inv(z) && z.devs == y.devs && |z.a.slots| == 2 && SameRecord(y.a, z.a, s)
            && (!good ==> z.a.phase == Waiting && (y.a.fails + 1 < WRITE_FAIL_LIMIT ==> Writable(z.a)))
  {
    hide Inv, Step, EventOk, Run, MemBlock, RecordAccepted, DecodeTemp, RecordImage, IsRun;
    var k := RecordQueued(y, e, s);
    var round := Round(e, true);
    StepPreserves(y, round);
    var y1 := Step(y, round);
    Shape(y1);
    var rest := ReachLanded(y1, k, good);
    RunMore(y, round, rest);
    events := [round] + rest;
    assert events[1..] == rest;
    RecordRoundTrip(s, y.a.slots[s].counter, R.Reading(e, s), R.Sensor(e, s));
    assert SameRecord(y1.a, Run(y1, rest).a, s);
    StoredIs(Run(y, events).mem, s, RecordJobOf(y, e, s).image);
  }

  lemma StoredIs(mem: seq<byte>, s: SlotId, b: Block)
    requires |mem| == EEPROM_SIZE && MemBlock(mem, RecAddr(s)) == b && RecordAccepted(b, s)
    ensures Stored(mem, s) == Some(DecodeTemp(b))
  {
    hide RecordAccepted, DecodeTemp;
  }

  /** During the jobs of a round: what is stored for s is what was stored, or the round's reading,
      and that only when it was a new extreme and the EEPROM was in use. */
  predicate OfRound(y: Sys, e: Extremes, z: Sys, s: SlotId)
    requires |y.a.slots| == 2 && |y.mem| == |z.mem| == EEPROM_SIZE
  {
    hide Stored, RecordAccepted, DecodeTemp;
    && (Writable(z.a) ==> Writable(y.a))
    && (Stored(z.mem, s) == Stored(y.mem, s)
        || (Writable(y.a) && IsNew(y.a.slots[s], s, R.Reading(e, s)) && Stored(z.mem, s) == Some(R.Reading(e, s))))
    && (forall j | j in z.a.jobs && !j.isRom && j.slot == s ::
          && IsNew(y.a.slots[s], s, R.Reading(e, s)) && RecordAccepted(j.image, s)
          && DecodeTemp(j.image) == R.Reading(e, s))
  }

  lemma RoundStarts(y: Sys, ev: Event, s: SlotId)
    requires Inv(y) && EventOk(y, ev) && ev.Round? && Recordable(ev.e) && |y.a.slots| == 2 && |y.mem| == EEPROM_SIZE
    ensures Shaped(y) && |Step(y, ev).mem| == EEPROM_SIZE && OfRound(y, ev.e, Step(y, ev), s)
  {
    hide RomAccepted, MemBlock, RecordImage, QueueSpec, CommitAll, QueueOk, SlotSafe, Addressed, Stored, RecordAccepted,
         DecodeTemp;
    var e := ev.e;
    var b := y.a.(jobs := []);
    QueueShape(b, PEAK, e.hi, e.hiI, y.devs[e.hiI]);
    QueueShape(b, LOW, e.lo, e.loI, y.devs[e.loI]);
    QueueShape(b.(jobs := QueueSpec(b, PEAK, e.hi, e.hiI, y.devs[e.hiI])), LOW, e.lo, e.loI, y.devs[e.loI]);
    RecordRoundTrip(s, y.a.slots[s].counter, R.Reading(e, s), R.Sensor(e, s));
  }

  lemma JobKeeps(y: Sys, e: Extremes, z: Sys, ev: Event, s: SlotId)
    requires Inv(z) && EventOk(z, ev) && !ev.Boot? && !ev.Round?
    requires |y.a.slots| == 2 && |y.mem| == |z.mem| == EEPROM_SIZE && OfRound(y, e, z, s)
    ensures Shaped(z) && |Step(z, ev).mem| == EEPROM_SIZE && OfRound(y, e, Step(z, ev), s)
  {
    hide RomAccepted, MemBlock, QueueOk, SlotSafe, RecordAccepted, DecodeTemp, Program;
    if ev.CopyEnds? {
      var j := Current(z);
      assert j in z.a.jobs;
      ProgramFrame(z.mem, j, false, s);
    }
  }

  lemma {:induction false} JobsKeep(y: Sys, e: Extremes, z: Sys, events: seq<Event>, s: SlotId)
    requires Inv(z) && IsRun(z, events) && JobEvents(events)
    requires |y.a.slots| == 2 && |y.mem| == |z.mem| == EEPROM_SIZE && OfRound(y, e, z, s)
    ensures |Run(z, events).mem| == EEPROM_SIZE && OfRound(y, e, Run(z, events), s)
    decreases |events|
  {
    hide Inv, Step, EventOk, OfRound;
    if events != [] {
      JobKeeps(y, e, z, events[0], s);
      StepPreserves(z, events[0]);
      JobsKeep(y, e, Step(z, events[0]), events[1..], s);
    }
  }

  /** The RAM copy of slot s is missing or lags behind the stored extreme by more than a tenth. */
  predicate Lags(y: Sys, s: SlotId)
    requires |y.a.slots| == 2 && |y.mem| == EEPROM_SIZE
  {
    hide Stored;
    Stored(y.mem, s).Some? &&
    var p, k := Stored(y.mem, s).value, Known(y.a, s);
    if s == PEAK then p > MIN_TENTHS && (k.Some? ==> k.value + 1 < p)
    else p < MAX_TENTHS && (k.Some? ==> k.value - 1 > p)
  }

  /** The stored extreme can be made worse, or lost, by the next round and its write jobs, whatever
      their outcome, exactly when the EEPROM is in use, there is a sensor, and the RAM copy lags
      behind what is stored. */
  lemma RoundCanWorsenIff(y: Sys, s: SlotId)
    requires Inv(y) && y.a.phase == Waiting && |y.a.slots| == 2 && |y.mem| == EEPROM_SIZE
    ensures (exists events: seq<Event> ::
               IsRound(y, events) && |Run(y, events).mem| == EEPROM_SIZE
               && !NotWorse(s, Stored(y.mem, s), Stored(Run(y, events).mem, s)))
            <==> Writable(y.a) && y.devs != [] && Lags(y, s)
  {
    hide Inv, Step, EventOk, Run, IsRun, Stored;
    forall events: seq<Event> | IsRound(y, events) && |Run(y, events).mem| == EEPROM_SIZE
                                && !NotWorse(s, Stored(y.mem, s), Stored(Run(y, events).mem, s))
      ensures Writable(y.a) && y.devs != [] && Lags(y, s)
    {
      WorsenedLags(y, s, events);
    }
    if Writable(y.a) && y.devs != [] && Lags(y, s) {
      var p := Stored(y.mem, s).value;
      StoredRange(y.mem, s);
      var t := if s == PEAK then p - 1 else p + 1;
      var events := RecordLands(y, Extremes(t, 0, t, 0), s, true);
      assert IsRound(y, events) && !NotWorse(s, Stored(y.mem, s), Stored(Run(y, events).mem, s));
    }
  }

  lemma WorsenedLags(y: Sys, s: SlotId, events: seq<Event>)
    requires Inv(y) && y.a.phase == Waiting && |y.a.slots| == 2 && |y.mem| == EEPROM_SIZE
    requires IsRound(y, events) && |Run(y, events).mem| == EEPROM_SIZE
    requires !NotWorse(s, Stored(y.mem, s), Stored(Run(y, events).mem, s))
    ensures Writable(y.a) && y.devs != [] && Lags(y, s)
  {
    hide Inv, Step, Stored;
    Shape(y);
    var ev := events[0];
    StepPreserves(y, ev);
    RoundStarts(y, ev, s);
    JobsKeep(y, ev.e, Step(y, ev), events[1..], s);
  }

  lemma StoredRange(mem: seq<byte>, s: SlotId)
    requires |mem| == EEPROM_SIZE && Stored(mem, s).Some?
    ensures MIN_TENTHS <= Stored(mem, s).value <= MAX_TENTHS
  {
    hide CrcMatches, MemBlock;
  }

  /** A record job that fails after its copy took effect: the RAM copy lags behind, and a later,
      less extreme round f replaces the stored reading of e. */
  lemma FailedJobCanWorsen(y: Sys, e: Extremes, f: Extremes, s: SlotId)
    requires Inv(y) && y.a.phase == Waiting && Writable(y.a) && y.a.fails + 1 < WRITE_FAIL_LIMIT
    requires e.hiI < |y.devs| && e.loI < |y.devs| && f.hiI < |y.devs| && f.loI < |y.devs|
    requires Recordable(e) && Recordable(f) && |y.a.slots| == 2 && IsNew(y.a.slots[s], s, R.Reading(f, s))
    requires if s == PEAK then R.Reading(f, s) < R.Reading(e, s) else R.Reading(f, s) > R.Reading(e, s)
    ensures exists first: seq<Event>, second: seq<Event> ::
              && IsRound(y, first) && IsRound(Run(y, first), second)
              && |Run(y, first).mem| == EEPROM_SIZE == |Run(Run(y, first), second).mem|
              && Stored(Run(y, first).mem, s) == Some(R.Reading(e, s))
              && Stored(Run(Run(y, first), second).mem, s) == Some(R.Reading(f, s))
  {
    hide Inv, Run, IsRun, Stored;
    var first := RecordLands(y, e, s, false);
    var z := Run(y, first);
    var second := RecordLands(z, f, s, true);
    assert IsRound(y, first) && IsRound(Run(y, first), second);
  }

  /** A boot whose read of a record fails while the EEPROM stays in use: the first round replaces
      the stored extreme, even by a less extreme one. */
  lemma UnreadBootCanWorsen(y: Sys, f: Extremes, s: SlotId)
    requires Inv(y) && Recordable(f) && f.hiI < |y.devs| && f.loI < |y.devs| && |y.mem| == EEPROM_SIZE
    requires Stored(y.mem, s).Some? && !NotWorse(s, Stored(y.mem, s), Some(R.Reading(f, s)))
    ensures exists boot: Event, events: seq<Event> ::
              && boot.Boot? && Shaped(y) && EventOk(y, boot) && Inv(Step(y, boot)) && IsRound(Step(y, boot), events)
              && |Run(Step(y, boot), events).mem| == EEPROM_SIZE
              && Stored(Run(Step(y, boot), events).mem, s) == Some(R.Reading(f, s))
  {
    hide Inv, Run, IsRun, Stored, Step, EventOk, Shaped, JobEvents;
    Shape(y);
    var boot := Boot(true, [s != PEAK, s != LOW, true, true], y.devs);
    UnreadBoot(y, s);
    var z := Step(y, boot);
    var events := RecordLands(z, f, s, true);
    assert boot.Boot? && IsRound(Step(y, boot), events);
  }

  lemma UnreadBoot(y: Sys, s: SlotId)
    requires Inv(y) && Shaped(y)
    ensures var boot := Boot(true, [s != PEAK, s != LOW, true, true], y.devs);
            && EventOk(y, boot) && Inv(Step(y, boot)) && Step(y, boot).devs == y.devs
            && var a := Step(y, boot).a; a.phase == Waiting && Writable(a) && |a.slots| == 2 && !a.slots[s].valid
  {
    hide RecordAccepted, RomAccepted, DecodeTemp, MemBlock;
    StepPreserves(y, Boot(true, [s != PEAK, s != LOW, true, true], y.devs));
  }

  // ---- whose ROM stands beside a record ----

  /** Nothing out of the ordinary for the ROM blocks: no ROM job fails after its copy took effect. */
  predicate Calm(y: Sys, ev: Event)
    requires Shaped(y) && EventOk(y, ev)
  {
    hide MemBlock;
    match ev
    case CopyEnds(programmed, good) => programmed && Current(y).isRom ==> good
    case ReadEnds(good, _) => Current(y).isRom && MemBlock(y.mem, Current(y).addr) == Current(y).image ==> good
    case _ => true
  }

  /** While the EEPROM is in use the RAM copy of a ROM is the stored block, but for a ROM job whose
      read-back is still to come. */
  predicate RomSynced(y: Sys, s: SlotId)
    requires Shaped(y)
  {
    hide MemBlock;
    Writable(y.a) && y.a.slots[s].romValid ==>
      MemBlock(y.mem, RomAddr(s)) == y.a.slots[s].rom
      || (y.a.phase == Readback && Current(y).isRom && Current(y).slot == s
          && MemBlock(y.mem, RomAddr(s)) == Current(y).image)
  }

  /** The record job k finds the ROM of its sensor in its slot, or the job before it puts it there. */
  predicate FindsRom(jobs: seq<Job>, i: nat, k: nat, mem: seq<byte>, devs: seq<Block>)
    requires i <= k < |jobs| && |mem| == EEPROM_SIZE
  {
    hide MemBlock;
    jobs[k].image[6] < |devs|
    && if k > i && jobs[k - 1].isRom && jobs[k - 1].slot == jobs[k].slot
       then jobs[k - 1].image == devs[jobs[k].image[6]]
       else MemBlock(mem, RomAddr(jobs[k].slot)) == devs[jobs[k].image[6]]
  }

  predicate FindRoms(jobs: seq<Job>, i: nat, mem: seq<byte>, devs: seq<Block>)
    requires |mem| == EEPROM_SIZE
  {
    forall k | i <= k < |jobs| && !jobs[k].isRom :: FindsRom(jobs, i, k, mem, devs)
  }

  /** A ROM job belongs to the record job right behind it. */
  predicate Paired(jobs: seq<Job>, i: nat) {
    forall m, k | i <= m < |jobs| && i <= k < |jobs| && jobs[m].isRom && !jobs[k].isRom
                  && jobs[m].slot == jobs[k].slot ::
      k == m + 1
  }

  predicate QueueRoms(y: Sys)
    requires Shaped(y)
  {
    hide FindRoms, Paired;
    y.a.phase != Waiting ==> FindRoms(y.a.jobs, y.a.jobI, y.mem, y.devs) && Paired(y.a.jobs, y.a.jobI)
  }

  predicate RomsInStep(y: Sys) {
    hide Inv, RomSynced, QueueRoms, Shaped;
    Inv(y) && Shaped(y) && RomSynced(y, PEAK) && RomSynced(y, LOW) && QueueRoms(y)
  }

  lemma CopyCalm(y: Sys, ev: Event)
    requires RomsInStep(y) && EventOk(y, ev) && ev.CopyEnds? && Calm(y, ev)
    ensures RomsInStep(Step(y, ev))
  {
    hide RomAccepted, RecordAccepted, MemBlock, Inv, Program;
    StepPreserves(y, ev);
    Shape(Step(y, ev));
    var j := Current(y);
    assert j in y.a.jobs;
    ProgramFrame(y.mem, j, true, PEAK);
    ProgramFrame(y.mem, j, true, LOW);
    var z := Step(y, ev);
    if z.a.phase != Waiting {
      forall k | z.a.jobI <= k < |z.a.jobs| && !z.a.jobs[k].isRom
        ensures FindsRom(z.a.jobs, z.a.jobI, k, z.mem, z.devs)
      {
        assert FindsRom(y.a.jobs, y.a.jobI, k, y.mem, y.devs);
        assert y.a.jobs[y.a.jobI] == j && (y.a.jobs[k].slot == PEAK || y.a.jobs[k].slot == LOW);
      }
    }
  }

  lemma ReadCalm(y: Sys, ev: Event)
    requires RomsInStep(y) && EventOk(y, ev) && ev.ReadEnds? && Calm(y, ev)
    ensures RomsInStep(Step(y, ev))
  {
    hide RomAccepted, RecordAccepted, MemBlock, Inv, DecodeTemp;
    StepPreserves(y, ev);
    Shape(Step(y, ev));
    InvMeans(y);
    assert Current(y) in y.a.jobs;
  }

  lemma ImageSensor(slot: SlotId, counter: byte, temp: int, idx: byte)
    ensures RecordImage(slot, counter, temp, idx)[6] == idx
  {
    hide CrcMatches, Crc8Of;
    var b := RecordImage(slot, counter, temp, idx);
    assert b[6] == b[..7][6];
  }

  /** Jobs of other slots only. */
  predicate NoJob(jobs: seq<Job>, s: SlotId) {
    forall k | 0 <= k < |jobs| :: jobs[k].slot != s
  }

  lemma QueueFinds(a: App, mem: seq<byte>, devs: seq<Block>, slot: SlotId, temp: int, idx: byte)
    requires |a.slots| == 2 && |mem| == EEPROM_SIZE && idx < |devs| && NoJob(a.jobs, slot)
    requires FindRoms(a.jobs, 0, mem, devs) && Paired(a.jobs, 0)
    requires a.slots[slot].romValid ==> MemBlock(mem, RomAddr(slot)) == a.slots[slot].rom
    ensures var q := QueueSpec(a, slot, temp, idx, devs[idx]);
            FindRoms(q, 0, mem, devs) && Paired(q, 0) && forall s: SlotId | s != slot && NoJob(a.jobs, s) :: NoJob(q, s)
  {
    hide MemBlock, RecordImage, QueueSpec;
    QueueShape(a, slot, temp, idx, devs[idx]);
    ImageSensor(slot, a.slots[slot].counter, temp, idx);
    var q, n := QueueSpec(a, slot, temp, idx, devs[idx]), |a.jobs|;
    assert forall k | 0 <= k < n :: q[k] == a.jobs[k];
    forall k | 0 <= k < |q| && !q[k].isRom ensures FindsRom(q, 0, k, mem, devs) {
      if k < n {
        assert FindsRom(a.jobs, 0, k, mem, devs);
      }
    }
  }

  lemma RoundCalm(y: Sys, ev: Event)
    requires RomsInStep(y) && EventOk(y, ev) && ev.Round?
    ensures RomsInStep(Step(y, ev))
  {
    hide RomAccepted, RecordAccepted, MemBlock, Inv, QueueSpec, CommitAll, FindRoms, Paired, NoJob;
    StepPreserves(y, ev);
    Shape(Step(y, ev));
    InvMeans(y);
    NothingToFind(y.mem, y.devs);
    var e := ev.e;
    var b := y.a.(jobs := []);
    if Writable(y.a) {
      QueueFinds(b, y.mem, y.devs, PEAK, e.hi, e.hiI);
      QueueFinds(b, y.mem, y.devs, LOW, e.lo, e.loI);
      QueueFinds(b.(jobs := QueueSpec(b, PEAK, e.hi, e.hiI, y.devs[e.hiI])), y.mem, y.devs, LOW, e.lo, e.loI);
    }
  }

  lemma NothingToFind(mem: seq<byte>, devs: seq<Block>)
    requires |mem| == EEPROM_SIZE
    ensures FindRoms([], 0, mem, devs) && Paired([], 0) && NoJob([], PEAK) && NoJob([], LOW)
  {
  }

  lemma CommandCalm(y: Sys, ev: Event)
    requires RomsInStep(y) && EventOk(y, ev) && ev.CommandEnds?
    ensures RomsInStep(Step(y, ev))
  {
    hide RomAccepted, RecordAccepted, MemBlock, Inv, FindRoms, Paired;
    StepPreserves(y, ev);
    Shape(Step(y, ev));
    InvMeans(y);
  }

  /** Every session begins with the ROMs in step. */
  lemma BootCalm(y: Sys, ev: Event)
    requires Inv(y) && EventOk(y, ev) && ev.Boot?
    ensures Shaped(y) && RomsInStep(Step(y, ev))
  {
    hide RomAccepted, RecordAccepted, MemBlock, Inv, DecodeTemp, FindRoms, Paired;
    Shape(y);
    StepPreserves(y, ev);
    Shape(Step(y, ev));
  }

  lemma StepCalm(y: Sys, ev: Event)
    requires RomsInStep(y) && EventOk(y, ev) && Calm(y, ev)
    ensures RomsInStep(Step(y, ev))
  {
    hide Inv, Calm, Step, EventOk;
    match ev
    case Round(_, _) => RoundCalm(y, ev);
    case CopyEnds(_, _) => CopyCalm(y, ev);
    case ReadEnds(_, _) => ReadCalm(y, ev);
    case CommandEnds(_) => CommandCalm(y, ev);
    case Boot(_, _, _) => BootCalm(y, ev);
  }

  ghost predicate CalmRun(y: Sys, events: seq<Event>)
    requires Inv(y) && IsRun(y, events)
    decreases |events|
  {
    hide Inv, Step, EventOk, Calm;
    events == [] ||
    (Shape(y); StepPreserves(y, events[0]); Calm(y, events[0]) && CalmRun(Step(y, events[0]), events[1..]))
  }

  /** The ROM of the sensor that set the stored record of a slot (None: not set in this run), and
      whether a ROM block of another sensor has been programmed since. */
  datatype Beside = Beside(sensor: Option<Block>, foreign: bool)

  /** What one event does to it: only copies that take effect count. */
  function After(y: Sys, ev: Event, s: SlotId, b: Beside): Beside
    requires Shaped(y) && EventOk(y, ev)
  {
    if ev.CopyEnds? && ev.programmed && Current(y).slot == s then
      var j := Current(y);
      if j.isRom then b.(foreign := b.sensor.Some? && j.image != b.sensor.value)
      else Beside(if j.image[6] < |y.devs| then Some(y.devs[j.image[6]]) else None, false)
    else b
  }

  ghost function AfterAll(y: Sys, events: seq<Event>, s: SlotId, b: Beside): Beside
    requires Inv(y) && IsRun(y, events)
    decreases |events|
  {
    hide Inv, Step, EventOk;
    if events == [] then b else
    (Shape(y); StepPreserves(y, events[0]); AfterAll(Step(y, events[0]), events[1..], s, After(y, events[0], s, b)))
  }

  /** The ROM block is that of the record's sensor, unless another one has been programmed. */
  predicate Tells(mem: seq<byte>, s: SlotId, b: Beside)
    requires |mem| == EEPROM_SIZE
  {
    hide MemBlock;
    b.sensor.Some? ==> (MemBlock(mem, RomAddr(s)) == b.sensor.value <==> !b.foreign)
  }

  lemma StepTells(y: Sys, ev: Event, s: SlotId, b: Beside)
    requires RomsInStep(y) && EventOk(y, ev) && Shaped(y) && Tells(y.mem, s, b)
    ensures |Step(y, ev).mem| == EEPROM_SIZE && Tells(Step(y, ev).mem, s, After(y, ev, s, b))
  {
    hide RomAccepted, RecordAccepted, MemBlock, Inv, DecodeTemp, Program;
    if ev.CopyEnds? {
      var j := Current(y);
      assert j in y.a.jobs;
      ProgramFrame(y.mem, j, true, s);
      if !j.isRom {
        assert FindsRom(y.a.jobs, y.a.jobI, y.a.jobI, y.mem, y.devs);
      }
    }
  }

  /** In every run with power cuts in which no ROM job fails after its copy took effect: a record is
      programmed beside the ROM of its own sensor, and from then on the slot's ROM block is that
      sensor's exactly until the ROM block of another sensor is programmed, which is the first half
      of the slot's next pair of jobs. */
  lemma {:induction false} RomBesideRecordIff(y: Sys, events: seq<Event>, s: SlotId, b: Beside)
    requires RomsInStep(y) && Inv(y) && IsRun(y, events) && CalmRun(y, events)
    requires |y.mem| == EEPROM_SIZE && Tells(y.mem, s, b)
    ensures |Run(y, events).mem| == EEPROM_SIZE && Tells(Run(y, events).mem, s, AfterAll(y, events, s, b))
    decreases |events|
  {
    hide Inv, Step, EventOk, RomsInStep, Calm, Tells, After;
    Shape(y);
    if events != [] {
      StepPreserves(y, events[0]);
      StepCalm(y, events[0]);
      StepTells(y, events[0], s, b);
      RomBesideRecordIff(Step(y, events[0]), events[1..], s, After(y, events[0], s, b));
    }
  }

  /** The first half alone: a new extreme from a sensor whose ROM is not the known one can leave, at
      a power cut between the two copies, the old record beside the ROM of that sensor. */
  lemma CutBetweenCopies(y: Sys, e: Extremes, s: SlotId)
    requires Inv(y) && y.a.phase == Waiting && Writable(y.a) && e.hiI < |y.devs| && e.loI < |y.devs|
    requires |y.a.slots| == 2 && |y.mem| == EEPROM_SIZE && IsNew(y.a.slots[s], s, R.Reading(e, s)) && Recordable(e)
    requires !y.a.slots[s].romValid || y.a.slots[s].rom != y.devs[R.Sensor(e, s)]
    ensures exists events: seq<Event> ::
              && IsRound(y, events) && |Run(y, events).mem| == EEPROM_SIZE
              && MemBlock(Run(y, events).mem, RecAddr(s)) == MemBlock(y.mem, RecAddr(s))
              && MemBlock(Run(y, events).mem, RomAddr(s)) == y.devs[R.Sensor(e, s)]
  {
    hide Inv, Step, EventOk, Run, MemBlock, RecordImage, IsRun;
    var k := RecordQueued(y, e, s);
    var round := Round(e, true);
    StepPreserves(y, round);
    var y1 := Step(y, round);
    Shape(y1);
    assert NoRecord(y1.a.jobs, 0, k - 1 + 1, s);
    var rest := ReachLanded(y1, k - 1, true);
    RunMore(y, round, rest);
    var events := [round] + rest;
    assert events[1..] == rest;
    Shape(Run(y, events));
    assert IsRound(y, events);
  }
}
