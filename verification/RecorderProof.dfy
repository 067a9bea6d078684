/** The recorder and its EEPROM over sessions with power cuts: what the stored blocks always
    satisfy, and when the stored extremes only move outwards. */
module RecorderProof {
  import opened Bits
  import opened Recorder

  /** The application, the EEPROM and the driver's device table. */
  datatype Sys = Sys(a: App, mem: seq<byte>, devs: seq<Block>)

  /** A session start (so a power cut, at any point), a measured round, and the end of the
      EEPROM command under way. A copy programs the job's block at once or not at all,
      whatever its status says; a read that succeeds returns what is stored. */
  datatype Event =
    | Boot(have: bool, ok: seq<bool>, devs: seq<Block>)
    | Round(e: Extremes, scheduled: bool)
    | CommandEnds(good: bool)
    | CopyEnds(programmed: bool, good: bool)
    | ReadEnds(good: bool, scheduled: bool)

  function MemBlock(mem: seq<byte>, addr: nat): Block
    requires addr + 8 <= |mem|
  {
    mem[addr..addr + 8]
  }

  function Program(mem: seq<byte>, addr: nat, b: Block): (m: seq<byte>)
    requires addr + 8 <= |mem|
    ensures |m| == |mem| && MemBlock(m, addr) == b
    ensures forall i | 0 <= i < |mem| && !(addr <= i < addr + 8) :: m[i] == mem[i]
  {
    mem[..addr] + b + mem[addr + 8..]
  }

  predicate EventOk(y: Sys, ev: Event) {
    match ev
    case Boot(_, ok, devs) => |ok| == 4 && forall d | d in devs :: RomAccepted(d)
    case Round(e, _) => y.a.phase == Waiting && e.hiI < |y.devs| && e.loI < |y.devs|
    case CommandEnds(_) => y.a.phase == Scratch || y.a.phase == Verify
    case CopyEnds(_, _) => y.a.phase == Copy
    case ReadEnds(_, _) => y.a.phase == Readback
  }

  predicate Shaped(y: Sys) {
    && Sized(y.a) && |y.mem| == EEPROM_SIZE
    && Addressed(y.a.jobs)
  }

  predicate Addressed(jobs: seq<Job>) {
    forall j | j in jobs :: j.addr == if j.isRom then RomAddr(j.slot) else RecAddr(j.slot)
  }

  function Current(y: Sys): Job
    requires Shaped(y) && y.a.phase != Waiting
    ensures Current(y).addr + 8 <= |y.mem|
  {
    y.a.jobs[y.a.jobI]
  }

  function Step(y: Sys, ev: Event): Sys
    requires Shaped(y) && EventOk(y, ev)
  {
    match ev
    case Boot(have, ok, devs) =>
      var blocks := [MemBlock(y.mem, RecAddr(PEAK)), MemBlock(y.mem, RecAddr(LOW)),
                     MemBlock(y.mem, RomAddr(PEAK)), MemBlock(y.mem, RomAddr(LOW))];
      Sys(BootSpec(have, ok, blocks), y.mem, devs)
    case Round(e, scheduled) => y.(a := RoundSpec(y.a, e, y.devs, scheduled))
    case CommandEnds(good) => y.(a := CommandSpec(y.a, good))
    case CopyEnds(programmed, good) =>
      var j := Current(y);
      y.(a := CommandSpec(y.a, good), mem := if programmed then Program(y.mem, j.addr, j.image) else y.mem)
    case ReadEnds(good, scheduled) =>
      y.(a := ReadbackSpec(y.a, if good then Some(MemBlock(y.mem, Current(y).addr)) else None, scheduled))
  }

  // ---- crash safety ----

  predicate RomStored(mem: seq<byte>, s: SlotId)
    requires |mem| == EEPROM_SIZE
  {
    RomAccepted(MemBlock(mem, RomAddr(s)))
  }

  /** A record that would be accepted at boot has an acceptable ROM block beside it. */
  predicate SlotSafe(mem: seq<byte>, s: SlotId)
    requires |mem| == EEPROM_SIZE
  {
    RecordAccepted(MemBlock(mem, RecAddr(s)), s) ==> RomStored(mem, s)
  }

  predicate Writable(a: App) {
    a.have && !a.off
  }

  /** No record is written before an acceptable ROM block stands in its slot. */
  predicate QueueOk(jobs: seq<Job>, i: nat, mem: seq<byte>)
    requires |mem| == EEPROM_SIZE
  {
    && (forall j | j in jobs && j.isRom :: RomAccepted(j.image))
    && (forall k | i <= k < |jobs| && !jobs[k].isRom ::
          RomStored(mem, jobs[k].slot) || (k > i && jobs[k - 1].isRom && jobs[k - 1].slot == jobs[k].slot))
  }

  predicate Inv(y: Sys) {
    hide RomAccepted, RecordAccepted;
    && Shaped(y)
    && (forall d | d in y.devs :: RomAccepted(d))
    && SlotSafe(y.mem, PEAK) && SlotSafe(y.mem, LOW)
    && (Writable(y.a) ==> forall s: SlotId :: y.a.slots[s].romValid ==> RomStored(y.mem, s))
    && (if y.a.phase == Waiting then y.a.jobs == []
        else Writable(y.a) && QueueOk(y.a.jobs, y.a.jobI, y.mem))
  }

  /** Programming a job's block leaves every other block alone. */
  lemma ProgramFrame(mem: seq<byte>, j: Job, isRom: bool, s: SlotId)
    requires |mem| == EEPROM_SIZE && j.addr == if j.isRom then RomAddr(j.slot) else RecAddr(j.slot)
    ensures var addr := if isRom then RomAddr(s) else RecAddr(s);
            MemBlock(Program(mem, j.addr, j.image), addr)
              == if j.isRom == isRom && j.slot == s then j.image else MemBlock(mem, addr)
  {
    var addr := if isRom then RomAddr(s) else RecAddr(s);
    var m := Program(mem, j.addr, j.image);
    if !(j.isRom == isRom && j.slot == s) {
      assert forall i | 0 <= i < 8 :: MemBlock(m, addr)[i] == m[addr + i] == mem[addr + i] == MemBlock(mem, addr)[i];
    }
  }

  lemma CopyPreserves(y: Sys, ev: Event)
    requires Inv(y) && EventOk(y, ev) && ev.CopyEnds?
    ensures Inv(Step(y, ev))
  {
    hide RomAccepted, RecordAccepted, MemBlock, Program;
    var j := Current(y);
    ProgramFrame(y.mem, j, true, PEAK);
    ProgramFrame(y.mem, j, false, PEAK);
    ProgramFrame(y.mem, j, true, LOW);
    ProgramFrame(y.mem, j, false, LOW);
    assert j in y.a.jobs;
    assert |Program(y.mem, j.addr, j.image)| == EEPROM_SIZE;
  }

  /** The jobs of one slot: its ROM first when that differs, then its record. */
  lemma QueueShape(a: App, slot: SlotId, temp: int, idx: byte, rom: Block)
    requires |a.slots| == 2
    ensures var q := QueueSpec(a, slot, temp, idx, rom);
            var r := Job(false, slot, RecAddr(slot), RecordImage(slot, a.slots[slot].counter, temp, idx));
            q == a.jobs + (if !a.slots[slot].romValid || a.slots[slot].rom != rom
                           then [Job(true, slot, RomAddr(slot), rom), r] else [r])
  {
    hide RecordImage;
  }

  lemma QueueKeeps(a: App, mem: seq<byte>, slot: SlotId, temp: int, idx: byte, rom: Block)
    requires |a.slots| == 2 && |mem| == EEPROM_SIZE && RomAccepted(rom)
    requires Addressed(a.jobs) && QueueOk(a.jobs, 0, mem) && (a.slots[slot].romValid ==> RomStored(mem, slot))
    ensures var q := QueueSpec(a, slot, temp, idx, rom); Addressed(q) && QueueOk(q, 0, mem) && q != []
  {
    hide RomAccepted, MemBlock, RecordImage;
    QueueShape(a, slot, temp, idx, rom);
    var q, n := QueueSpec(a, slot, temp, idx, rom), |a.jobs|;
    forall k | 0 <= k < |q| && !q[k].isRom
      ensures RomStored(mem, q[k].slot) || (k > 0 && q[k - 1].isRom && q[k - 1].slot == q[k].slot)
    {
      if k < n {
        assert q[k] == a.jobs[k];
      }
    }
  }

  lemma RoundPreserves(y: Sys, ev: Event)
    requires Inv(y) && EventOk(y, ev) && ev.Round?
    ensures Inv(Step(y, ev))
  {
    hide RomAccepted, RecordAccepted, MemBlock, QueueSpec, CommitAll, QueueOk, Addressed, RomStored;
    var e := ev.e;
    assert y.devs[e.hiI] in y.devs && y.devs[e.loI] in y.devs;
    NoJobs(y.mem);
    if Writable(y.a) {
      var b := y.a.(jobs := []);
      QueueKeeps(b, y.mem, PEAK, e.hi, e.hiI, y.devs[e.hiI]);
      QueueKeeps(b, y.mem, LOW, e.lo, e.loI, y.devs[e.loI]);
      QueueKeeps(b.(jobs := QueueSpec(b, PEAK, e.hi, e.hiI, y.devs[e.hiI])), y.mem, LOW, e.lo, e.loI, y.devs[e.loI]);
    }
  }

  lemma NoJobs(mem: seq<byte>)
    requires |mem| == EEPROM_SIZE
    ensures Addressed([]) && QueueOk([], 0, mem)
  {
  }

  lemma ReadPreserves(y: Sys, ev: Event)
    requires Inv(y) && EventOk(y, ev) && ev.ReadEnds?
    ensures Inv(Step(y, ev))
  {
    hide RomAccepted, RecordAccepted, DecodeTemp;
    assert Current(y) in y.a.jobs;
  }

  lemma BootPreserves(y: Sys, ev: Event)
    requires Inv(y) && EventOk(y, ev) && ev.Boot?
    ensures Inv(Step(y, ev))
  {
    hide RomAccepted, RecordAccepted, DecodeTemp, MemBlock;
  }

  lemma StepPreserves(y: Sys, ev: Event)
    requires Inv(y) && EventOk(y, ev)
    ensures Inv(Step(y, ev))
  {
    hide Inv;
    match ev
    case Boot(_, _, _) => BootPreserves(y, ev);
    case Round(_, _) => RoundPreserves(y, ev);
    case CommandEnds(_) => CommandPreserves(y, ev);
    case CopyEnds(_, _) => CopyPreserves(y, ev);
    case ReadEnds(_, _) => ReadPreserves(y, ev);
  }

  lemma CommandPreserves(y: Sys, ev: Event)
    requires Inv(y) && EventOk(y, ev) && ev.CommandEnds?
    ensures Inv(Step(y, ev))
  {
    hide RomAccepted, RecordAccepted, MemBlock;
  }

  // ---- runs ----

  /** A run of events, each possible when it happens; the first element is the state before. */
  ghost predicate IsRun(y: Sys, events: seq<Event>)
    requires Inv(y)
    decreases |events|
  {
    hide Inv, Step, EventOk;
    events == [] ||
    (EventOk(y, events[0]) &&
     (Shape(y); StepPreserves(y, events[0]); IsRun(Step(y, events[0]), events[1..])))
  }

  lemma Shape(y: Sys)
    requires Inv(y)
    ensures Shaped(y)
  {
  }

  ghost function Run(y: Sys, events: seq<Event>): (y': Sys)
    requires Inv(y) && IsRun(y, events)
    ensures Inv(y')
    decreases |events|
  {
    hide Inv, Step, EventOk;
    if events == [] then y else
    (Shape(y); StepPreserves(y, events[0]); Run(Step(y, events[0]), events[1..]))
  }

  predicate InMap(i: nat) {
    16 <= i < 48
  }

  lemma StepConfined(y: Sys, ev: Event)
    requires Inv(y) && EventOk(y, ev)
    ensures var m := Step(y, ev).mem; |m| == |y.mem| && forall i: nat | i < |y.mem| && !InMap(i) :: m[i] == y.mem[i]
  {
    hide RomAccepted, RecordAccepted;
    if ev.CopyEnds? {
      var j := Current(y);
      assert j in y.a.jobs;
    }
  }

  /** Whatever the readings, the failures and the power cuts: in every state a stored record that
      would be accepted at boot has a CRC-valid DS18B20 ROM in its ROM block, and the bytes outside
      the four blocks are never touched. */
  lemma {:induction false} CrashSafe(y: Sys, events: seq<Event>)
    requires Inv(y) && IsRun(y, events)
    ensures var y' := Run(y, events);
            && |y'.mem| == EEPROM_SIZE && SlotSafe(y'.mem, PEAK) && SlotSafe(y'.mem, LOW)
            && forall i: nat | i < EEPROM_SIZE && !InMap(i) :: y'.mem[i] == y.mem[i]
    decreases |events|
  {
    hide Step, EventOk, SlotSafe;
    assert |y.mem| == EEPROM_SIZE;
    if events != [] {
      StepConfined(y, events[0]);
      StepPreserves(y, events[0]);
      CrashSafe(Step(y, events[0]), events[1..]);
    }
  }

  // ---- the extremes only move outwards ----

  /** The temperature a stored record says, if it would be accepted at boot. */
  function Stored(mem: seq<byte>, s: SlotId): Option<int>
    requires |mem| == EEPROM_SIZE
  {
    var b := MemBlock(mem, RecAddr(s));
    if RecordAccepted(b, s) then Some(DecodeTemp(b)) else None
  }

  function Known(a: App, s: SlotId): Option<int>
    requires |a.slots| == 2
  {
    if a.slots[s].valid then Some(a.slots[s].temp) else None
  }

  /** The peak has not fallen, the low has not risen, and no record is lost. */
  predicate NotWorse(s: SlotId, before: Option<int>, after: Option<int>) {
    before.Some? ==> after.Some? && if s == PEAK then after.value >= before.value else after.value <= before.value
  }

  /** The record job under way has reached the EEPROM and not yet the RAM copy. */
  predicate Landed(y: Sys, s: SlotId)
    requires Shaped(y)
  {
    && y.a.phase == Readback && !Current(y).isRom && Current(y).slot == s
    && MemBlock(y.mem, RecAddr(s)) == Current(y).image
  }

  /** While the EEPROM is in use, the RAM copy says what is stored. */
  predicate Synced(y: Sys, s: SlotId)
    requires Shaped(y)
  {
    hide Stored, MemBlock;
    Writable(y.a) ==> Stored(y.mem, s) == Known(y.a, s) || Landed(y, s)
  }

  /** Every queued record improves on the RAM copy, and no slot has two. */
  predicate QueueNew(slots: seq<Slot>, jobs: seq<Job>, i: nat)
    requires |slots| == 2
  {
    hide RecordAccepted, DecodeTemp;
    && (forall k | i <= k < |jobs| && !jobs[k].isRom ::
          RecordAccepted(jobs[k].image, jobs[k].slot)
          && IsNew(slots[jobs[k].slot], jobs[k].slot, DecodeTemp(jobs[k].image)))
    && (forall k, l | i <= k < l < |jobs| && !jobs[k].isRom && !jobs[l].isRom :: jobs[k].slot != jobs[l].slot)
  }

  predicate InSync(y: Sys) {
    hide Inv, Synced, QueueNew, Shaped;
    Inv(y) && Shaped(y) && |y.a.slots| == 2 && Synced(y, PEAK) && Synced(y, LOW)
    && (y.a.phase != Waiting ==> QueueNew(y.a.slots, y.a.jobs, y.a.jobI))
  }

  /** Nothing out of the ordinary: temperatures a record can hold, no failure of a record job whose
      copy took effect, and a session that can write has read every record there is. */
  predicate Ordinary(y: Sys, ev: Event)
    requires Shaped(y) && EventOk(y, ev)
  {
    hide Stored;
    match ev
    case Boot(have, ok, _) => have ==> forall s: SlotId :: Stored(y.mem, s).Some? ==> ok[s]
    case Round(e, _) => MIN_TENTHS <= e.lo <= MAX_TENTHS && MIN_TENTHS <= e.hi <= MAX_TENTHS
    case CommandEnds(_) => true
    case CopyEnds(programmed, good) => programmed && !Current(y).isRom ==> good
    case ReadEnds(good, _) => Landed(y, Current(y).slot) ==> good
  }

  lemma QueueIsNew(a: App, slot: SlotId, temp: int, idx: byte, rom: Block)
    requires |a.slots| == 2 && QueueNew(a.slots, a.jobs, 0) && IsNew(a.slots[slot], slot, temp)
    requires MIN_TENTHS <= temp <= MAX_TENTHS
    requires forall k | 0 <= k < |a.jobs| && !a.jobs[k].isRom :: a.jobs[k].slot != slot
    ensures var q := QueueSpec(a, slot, temp, idx, rom);
            QueueNew(a.slots, q, 0)
            && forall k | 0 <= k < |q| && !q[k].isRom ::
                 q[k].slot == slot || exists l | 0 <= l < |a.jobs| :: a.jobs[l] == q[k]
  {
    hide RecordAccepted, DecodeTemp, RecordImage, QueueSpec;
    QueueShape(a, slot, temp, idx, rom);
    RecordRoundTrip(slot, a.slots[slot].counter, temp, idx);
    var q := QueueSpec(a, slot, temp, idx, rom);
    assert forall k | 0 <= k < |a.jobs| :: q[k] == a.jobs[k];
  }

  lemma RoundSync(y: Sys, ev: Event)
    requires InSync(y) && EventOk(y, ev) && ev.Round? && Ordinary(y, ev)
    ensures InSync(Step(y, ev)) && Step(y, ev).mem == y.mem
  {
    hide RomAccepted, RecordAccepted, DecodeTemp, MemBlock, QueueSpec, CommitAll, Inv, Stored, QueueNew;
    StepPreserves(y, ev);
    InvMeans(y);
    InvMeans(Step(y, ev));
    var e := ev.e;
    var b := y.a.(jobs := []);
    NothingQueued(b.slots);
    if IsNew(b.slots[PEAK], PEAK, e.hi) {
      QueueIsNew(b, PEAK, e.hi, e.hiI, y.devs[e.hiI]);
    }
    if IsNew(b.slots[LOW], LOW, e.lo) {
      QueueIsNew(b, LOW, e.lo, e.loI, y.devs[e.loI]);
      if IsNew(b.slots[PEAK], PEAK, e.hi) {
        QueueIsNew(b.(jobs := QueueSpec(b, PEAK, e.hi, e.hiI, y.devs[e.hiI])), LOW, e.lo, e.loI, y.devs[e.loI]);
      }
    }
  }

  lemma NothingQueued(slots: seq<Slot>)
    requires |slots| == 2
    ensures QueueNew(slots, [], 0)
  {
  }

  lemma InvMeans(y: Sys)
    requires Inv(y)
    ensures Shaped(y) && Sized(y.a)
    ensures if y.a.phase == Waiting then y.a.jobs == [] else Writable(y.a)
  {
  }

  lemma CommandSync(y: Sys, ev: Event)
    requires InSync(y) && EventOk(y, ev) && ev.CommandEnds?
    ensures InSync(Step(y, ev)) && Step(y, ev).mem == y.mem
  {
    hide RomAccepted, RecordAccepted, DecodeTemp, MemBlock, Inv, Stored, QueueNew;
    StepPreserves(y, ev);
    InvMeans(y);
  }

  lemma CopySync(y: Sys, ev: Event, s: SlotId)
    requires InSync(y) && EventOk(y, ev) && ev.CopyEnds? && Ordinary(y, ev)
    ensures InSync(Step(y, ev)) && NotWorse(s, Stored(y.mem, s), Stored(Step(y, ev).mem, s))
  {
    hide RomAccepted, RecordAccepted, DecodeTemp, MemBlock, Inv, Program;
    StepPreserves(y, ev);
    InvMeans(y);
    var j := Current(y);
    assert j in y.a.jobs;
    ProgramFrame(y.mem, j, false, PEAK);
    ProgramFrame(y.mem, j, false, LOW);
  }

  lemma ReadSync(y: Sys, ev: Event)
    requires InSync(y) && EventOk(y, ev) && ev.ReadEnds? && Ordinary(y, ev)
    ensures InSync(Step(y, ev)) && Step(y, ev).mem == y.mem
  {
    hide RomAccepted, RecordAccepted, DecodeTemp, MemBlock, Inv;
    StepPreserves(y, ev);
    InvMeans(y);
    assert Current(y) in y.a.jobs;
  }

  lemma BootSync(y: Sys, ev: Event)
    requires InSync(y) && EventOk(y, ev) && ev.Boot? && Ordinary(y, ev)
    ensures InSync(Step(y, ev)) && Step(y, ev).mem == y.mem
  {
    hide RomAccepted, RecordAccepted, DecodeTemp, MemBlock, Inv;
    StepPreserves(y, ev);
    InvMeans(Step(y, ev));
  }

  lemma StepSync(y: Sys, ev: Event, s: SlotId)
    requires InSync(y) && EventOk(y, ev) && Ordinary(y, ev)
    ensures InSync(Step(y, ev)) && NotWorse(s, Stored(y.mem, s), Stored(Step(y, ev).mem, s))
  {
    hide InSync, Ordinary, Stored, Step;
    match ev
    case Boot(_, _, _) => BootSync(y, ev);
    case Round(_, _) => RoundSync(y, ev);
    case CommandEnds(_) => CommandSync(y, ev);
    case CopyEnds(_, _) => CopySync(y, ev, s);
    case ReadEnds(_, _) => ReadSync(y, ev);
  }

  ghost predicate OrdinaryRun(y: Sys, events: seq<Event>)
    requires Inv(y) && IsRun(y, events)
    decreases |events|
  {
    hide Inv, Step, EventOk, Ordinary;
    events == [] ||
    (Shape(y); StepPreserves(y, events[0]); Ordinary(y, events[0]) && OrdinaryRun(Step(y, events[0]), events[1..]))
  }

  /** Over any number of sessions and power cuts, as long as nothing out of the ordinary happens,
      the stored peak never falls and the stored low never rises. */
  lemma {:induction false} ExtremesOnlyMoveOut(y: Sys, events: seq<Event>, s: SlotId)
    requires Inv(y) && IsRun(y, events) && OrdinaryRun(y, events) && InSync(y)
    ensures InSync(Run(y, events)) && NotWorse(s, Stored(y.mem, s), Stored(Run(y, events).mem, s))
    decreases |events|
  {
    hide Inv, Step, EventOk, Ordinary, Stored, InSync;
    Shape(y);
    if events != [] {
      StepPreserves(y, events[0]);
      StepSync(y, events[0], s);
      var y1 := Step(y, events[0]);
      Shape(y1);
      ExtremesOnlyMoveOut(y1, events[1..], s);
      Shape(Run(y, events));
    }
  }

  predicate EveryRecordRead(mem: seq<byte>, ok: seq<bool>)
    requires |mem| == EEPROM_SIZE && |ok| == 4
  {
    hide Stored;
    (Stored(mem, PEAK).Some? ==> ok[PEAK]) && (Stored(mem, LOW).Some? ==> ok[LOW])
  }

  /** Any EEPROM whose records are safe is a start: after the first read-out the invariant holds,
      and the RAM copy is in step when every stored record was read or nothing can be written. */
  lemma PowerOn(mem: seq<byte>, have: bool, ok: seq<bool>, devs: seq<Block>)
    requires |mem| == EEPROM_SIZE && SlotSafe(mem, PEAK) && SlotSafe(mem, LOW) && |ok| == 4
    requires forall d | d in devs :: RomAccepted(d)
    ensures var y := Step(Sys(App(Waiting, [NO_RECORD, NO_RECORD], [], 0, 0, false, false), mem, []),
                          Boot(have, ok, devs));
            Inv(y) && ((have ==> EveryRecordRead(mem, ok)) ==> InSync(y))
  {
    hide RomAccepted, RecordAccepted, MemBlock, DecodeTemp;
    var off := Sys(App(Waiting, [NO_RECORD, NO_RECORD], [], 0, 0, false, false), mem, []);
    var ev := Boot(have, ok, devs);
    assert Inv(off);
    StepPreserves(off, ev);
    if have ==> EveryRecordRead(mem, ok) {
      assert Ordinary(off, ev);
      BootSync(off, ev);
    }
  }
}
