/** What a measured round leaves behind: in RAM, and in the EEPROM once its write jobs have ended well. */
module RecorderRounds {
  import opened Bits
  import opened CrcLoops
  import opened Recorder
  import opened RecorderProof

  /** What a round says to a slot, and which sensor says it. */
  function Reading(e: Extremes, s: SlotId): int {
    if s == PEAK then e.hi else e.lo
  }

  function Sensor(e: Extremes, s: SlotId): byte {
    if s == PEAK then e.hiI else e.loI
  }

  /** The reading is beyond what the slot holds, or the slot holds nothing. */
  predicate Beyond(was: Slot, s: SlotId, t: int) {
    !was.valid || if s == PEAK then t > was.temp else t < was.temp
  }

  /** A slot after a round: a reading beyond what it holds replaces it, with the sensor's index and ROM,
      and counts the update; any other leaves it alone. */
  function Updated(was: Slot, s: SlotId, e: Extremes, devs: seq<Block>): Slot
    requires e.hiI < |devs| && e.loI < |devs|
  {
    if Beyond(was, s, Reading(e, s))
    then Renewed(was, Reading(e, s), Sensor(e, s), devs[Sensor(e, s)])
    else was
  }

  predicate InRange(e: Extremes) {
    MIN_TENTHS <= e.lo <= MAX_TENTHS && MIN_TENTHS <= e.hi <= MAX_TENTHS
  }

  /** Two's complement. */
  function Signed(b: byte): int {
    if b < 128 then b else b - 256
  }

  /** What boot accepts: a record by its letter, layout version, valid flag, tenths and CRC; a ROM by the
      family code of a DS18B20 and its CRC. */
  lemma AcceptedBlocks(b: Block, slot: SlotId)
    ensures RecordAccepted(b, slot) <==>
              && b[0] == (if slot == 0 then 0x54 else 0x4C) && b[1] == 2 && b[2] % 2 == 1 && -9 <= Signed(b[5]) <= 9
              && ByteBits(b[7]) == Crc8Of(b[..7])
    ensures RomAccepted(b) <==> b[0] == 0x28 && ByteBits(b[7]) == Crc8Of(b[..7])
  {
    hide ByteBits, Crc8Of;
  }

  /** The bytes of a record, and the blocks, as the source's table says. */
  lemma RecordLayout(slot: SlotId, counter: byte, temp: int, idx: byte)
    requires MIN_TENTHS <= temp <= MAX_TENTHS
    ensures var b := RecordImage(slot, counter, temp, idx);
            && b[0] == (if slot == 0 then 0x54 else 0x4C) && b[1] == 2 && b[2] == 3 && b[3] == (counter + 1) % 256
            && 10 * Signed(b[4]) + Signed(b[5]) == temp && -9 <= Signed(b[5]) <= 9
            && (Signed(b[5]) > 0 ==> Signed(b[4]) >= 0) && (Signed(b[5]) < 0 ==> Signed(b[4]) <= 0)
            && b[6] == idx && ByteBits(b[7]) == Crc8Of(b[..7])
    ensures RecAddr(slot) == 16 + 8 * slot && RomAddr(slot) == 32 + 8 * slot
  {
    hide Sealed, Crc8Of, ByteBits, TenthsWhole, TenthsRest, ToInt8;
    var b := RecordImage(slot, counter, temp, idx);
    var body := [Magic(slot), VERSION, 3, (counter + 1) % 256,
                 ToInt8(TenthsWhole(temp)), ToInt8(TenthsRest(temp)), idx];
    assert forall i | 0 <= i < 7 :: b[i] == b[..7][i] == body[i];
    TenthsSigned(temp);
  }

  lemma TenthsSigned(t: int)
    requires MIN_TENTHS <= t <= MAX_TENTHS
    ensures var w, r := Signed(ToInt8(TenthsWhole(t))), Signed(ToInt8(TenthsRest(t)));
            10 * w + r == t && -9 <= r <= 9 && (r > 0 ==> w >= 0) && (r < 0 ==> w <= 0)
  {
    assert 10 * TenthsWhole(t) + TenthsRest(t) == t;
  }

  // ---- the jobs of a round, committed ----

  lemma CommitOneMore(a: App, jobs: seq<Job>, j: Job)
    requires |a.slots| == 2
    ensures CommitAll(a, jobs + [j]) == CommitSpec(CommitAll(a, jobs), j)
  {
    assert (jobs + [j])[..|jobs|] == jobs;
  }

  /** A slot with a new record. */
  function Renewed(x: Slot, temp: int, idx: byte, rom: Block): Slot {
    Slot(true, (x.counter + 1) % 256, temp, idx, true, rom)
  }

  function RecordJob(x: Slot, slot: SlotId, temp: int, idx: byte): Job {
    Job(false, slot, RecAddr(slot), RecordImage(slot, x.counter, temp, idx))
  }

  /** Committing the jobs queued for a slot, whatever jobs of the other stand before them. */
  lemma QueueCommits(d: App, a: App, slot: SlotId, temp: int, idx: byte, rom: Block)
    requires |d.slots| == |a.slots| == 2 && MIN_TENTHS <= temp <= MAX_TENTHS
    requires CommitAll(d, a.jobs).slots[slot] == a.slots[slot]
    ensures CommitAll(d, QueueSpec(a, slot, temp, idx, rom)).slots ==
              CommitAll(d, a.jobs).slots[slot := Renewed(a.slots[slot], temp, idx, rom)]
  {
    hide *;
    var x := a.slots[slot];
    QueueIs(a, slot, temp, idx, rom);
    if x.romValid && x.rom == rom {
      CommitOneMore(d, a.jobs, RecordJob(x, slot, temp, idx));
      CommitsRecord(CommitAll(d, a.jobs), slot, temp, idx, rom);
    } else {
      CommitTwoMore(d, a.jobs, Job(true, slot, RomAddr(slot), rom), RecordJob(x, slot, temp, idx));
      CommitsBoth(CommitAll(d, a.jobs), slot, temp, idx, rom);
    }
  }

  lemma QueueIs(a: App, slot: SlotId, temp: int, idx: byte, rom: Block)
    requires |a.slots| == 2
    ensures var x := a.slots[slot];
            QueueSpec(a, slot, temp, idx, rom) ==
              if x.romValid && x.rom == rom then a.jobs + [RecordJob(x, slot, temp, idx)]
              else a.jobs + [Job(true, slot, RomAddr(slot), rom), RecordJob(x, slot, temp, idx)]
  {
    hide RecordImage;
  }

  lemma RecordCommitted(y: Slot, x: Slot, slot: SlotId, temp: int, idx: byte)
    requires MIN_TENTHS <= temp <= MAX_TENTHS
    ensures RecordJob(x, slot, temp, idx).slot == slot && !RecordJob(x, slot, temp, idx).isRom
    ensures Committed(y, RecordJob(x, slot, temp, idx)) ==
              Slot(true, (x.counter + 1) % 256, temp, idx, y.romValid, y.rom)
  {
    hide RecordImage, DecodeTemp;
    RecordLayout(slot, x.counter, temp, idx);
    RecordRoundTrip(slot, x.counter, temp, idx);
  }

  lemma CommitsRecord(c: App, slot: SlotId, temp: int, idx: byte, rom: Block)
    requires |c.slots| == 2 && MIN_TENTHS <= temp <= MAX_TENTHS
    requires c.slots[slot].romValid && c.slots[slot].rom == rom
    ensures CommitSpec(c, RecordJob(c.slots[slot], slot, temp, idx)).slots ==
              c.slots[slot := Renewed(c.slots[slot], temp, idx, rom)]
  {
    hide RecordJob, Committed;
    RecordCommitted(c.slots[slot], c.slots[slot], slot, temp, idx);
  }

  lemma CommitsBoth(c: App, slot: SlotId, temp: int, idx: byte, rom: Block)
    requires |c.slots| == 2 && MIN_TENTHS <= temp <= MAX_TENTHS
    ensures var rec := RecordJob(c.slots[slot], slot, temp, idx);
            CommitSpec(CommitSpec(c, Job(true, slot, RomAddr(slot), rom)), rec).slots ==
              c.slots[slot := Renewed(c.slots[slot], temp, idx, rom)]
  {
    hide RecordJob, Committed;
    var y := c.slots[slot].(rom := rom, romValid := true);
    RomCommitted(c.slots[slot], slot, rom);
    RecordCommitted(y, c.slots[slot], slot, temp, idx);
  }

  lemma RomCommitted(x: Slot, slot: SlotId, rom: Block)
    ensures Committed(x, Job(true, slot, RomAddr(slot), rom)) == x.(rom := rom, romValid := true)
  {
  }

  lemma CommitTwoMore(a: App, jobs: seq<Job>, j: Job, k: Job)
    requires |a.slots| == 2
    ensures CommitAll(a, jobs + [j, k]) == CommitSpec(CommitSpec(CommitAll(a, jobs), j), k)
  {
    hide CommitAll, CommitSpec;
    assert jobs + [j, k] == jobs + [j] + [k];
    CommitOneMore(a, jobs, j);
    CommitOneMore(a, jobs + [j], k);
  }

  lemma CommitNone(a: App)
    requires |a.slots| == 2
    ensures CommitAll(a, []) == a
  {
  }

  /** The jobs evaluate queues. */
  function RoundJobs(a: App, e: Extremes, devs: seq<Block>): seq<Job>
    requires |a.slots| == 2 && e.hiI < |devs| && e.loI < |devs|
  {
    var b := a.(jobs := []);
    var c := if Beyond(a.slots[PEAK], PEAK, e.hi) then b.(jobs := QueueSpec(b, PEAK, e.hi, e.hiI, devs[e.hiI])) else b;
    if Beyond(a.slots[LOW], LOW, e.lo) then QueueSpec(c, LOW, e.lo, e.loI, devs[e.loI]) else c.jobs
  }

  lemma RoundCommits(a: App, d: App, e: Extremes, devs: seq<Block>)
    requires |a.slots| == 2 && d.slots == a.slots && e.hiI < |devs| && e.loI < |devs| && InRange(e)
    ensures CommitAll(d, RoundJobs(a, e, devs)).slots ==
              [Updated(a.slots[PEAK], PEAK, e, devs), Updated(a.slots[LOW], LOW, e, devs)]
  {
    hide CommitAll, QueueSpec;
    CommitNone(d);
    var b := a.(jobs := []);
    QueueCommits(d, b, PEAK, e.hi, e.hiI, devs[e.hiI]);
    QueueCommits(d, b, LOW, e.lo, e.loI, devs[e.loI]);
    if Beyond(a.slots[PEAK], PEAK, e.hi) {
      QueueCommits(d, b.(jobs := QueueSpec(b, PEAK, e.hi, e.hiI, devs[e.hiI])), LOW, e.lo, e.loI, devs[e.loI]);
    }
  }

  lemma RoundIs(a: App, e: Extremes, devs: seq<Block>, scheduled: bool)
    requires Sized(a) && a.phase == Waiting && a.jobs == [] && e.hiI < |devs| && e.loI < |devs|
    ensures var jobs, b := RoundJobs(a, e, devs), RoundSpec(a, e, devs, scheduled);
            && (jobs == [] ==> b == a)
            && (jobs != [] && Writable(a) && scheduled ==> b == a.(phase := Scratch, jobs := jobs, jobI := 0))
            && (jobs != [] && !Writable(a) ==>
                  b.phase == Waiting && b.jobs == [] && b.slots == CommitAll(a.(jobs := jobs), jobs).slots)
  {
    hide RecordImage, CommitAll;
  }

  /** A session that cannot write keeps its records in RAM: after every round each slot is updated, and
      nothing is queued. */
  lemma RamOnlyRound(a: App, e: Extremes, devs: seq<Block>, scheduled: bool)
    requires Sized(a) && a.phase == Waiting && a.jobs == [] && !Writable(a)
    requires e.hiI < |devs| && e.loI < |devs| && InRange(e)
    ensures var b := RoundSpec(a, e, devs, scheduled);
            && b.phase == Waiting && b.jobs == []
            && b.slots == [Updated(a.slots[PEAK], PEAK, e, devs), Updated(a.slots[LOW], LOW, e, devs)]
  {
    hide RoundSpec, RoundJobs, CommitAll, Updated, Beyond;
    RoundIs(a, e, devs, scheduled);
    RoundCommits(a, a.(jobs := RoundJobs(a, e, devs)), e, devs);
    CommitNone(a.(jobs := []));
    if RoundJobs(a, e, devs) == [] {
      assert a.slots == [a.slots[PEAK], a.slots[LOW]];
    }
  }

  // ---- the jobs of a round, written ----

  /** The end of a command or job of a round in which nothing fails. */
  predicate EndsWell(ev: Event) {
    ev == CommandEnds(true) || ev == CopyEnds(true, true) || ev == ReadEnds(true, true)
  }

  /** Jobs for different blocks, each with the address of its block. */
  predicate OneEach(jobs: seq<Job>) {
    && Addressed(jobs)
    && forall i, k | 0 <= i < k < |jobs| :: jobs[i].isRom != jobs[k].isRom || jobs[i].slot != jobs[k].slot
  }

  lemma RoundOneEach(a: App, e: Extremes, devs: seq<Block>)
    requires |a.slots| == 2 && e.hiI < |devs| && e.loI < |devs|
    ensures OneEach(RoundJobs(a, e, devs))
  {
    hide RecordImage, QueueSpec;
    var b := a.(jobs := []);
    QueueShape(b, PEAK, e.hi, e.hiI, devs[e.hiI]);
    QueueShape(b, LOW, e.lo, e.loI, devs[e.loI]);
    QueueShape(b.(jobs := QueueSpec(b, PEAK, e.hi, e.hiI, devs[e.hiI])), LOW, e.lo, e.loI, devs[e.loI]);
  }

  /** One of the first m jobs is for the block. */
  predicate Covers(jobs: seq<Job>, m: nat, isRom: bool, s: SlotId)
    requires m <= |jobs|
  {
    exists k :: 0 <= k < m && jobs[k].isRom == isRom && jobs[k].slot == s
  }

  function Addr(isRom: bool, s: SlotId): nat {
    if isRom then RomAddr(s) else RecAddr(s)
  }

  /** The first m jobs have landed; the other blocks are as they were. */
  predicate Written(mem: seq<byte>, was: seq<byte>, jobs: seq<Job>, m: nat)
    requires |mem| == |was| == EEPROM_SIZE && m <= |jobs|
  {
    hide MemBlock;
    && (forall k | 0 <= k < m :: MemBlock(mem, Addr(jobs[k].isRom, jobs[k].slot)) == jobs[k].image)
    && (forall isRom: bool, s: SlotId :: !Covers(jobs, m, isRom, s) ==>
          MemBlock(mem, Addr(isRom, s)) == MemBlock(was, Addr(isRom, s)))
  }

  lemma LandsOne(mem: seq<byte>, was: seq<byte>, jobs: seq<Job>, m: nat)
    requires |mem| == |was| == EEPROM_SIZE && m < |jobs| && OneEach(jobs) && Written(mem, was, jobs, m)
    ensures jobs[m].addr + 8 <= EEPROM_SIZE && Written(Program(mem, jobs[m].addr, jobs[m].image), was, jobs, m + 1)
  {
    hide MemBlock, Program;
    var j := jobs[m];
    assert j in jobs;
    var mem' := Program(mem, j.addr, j.image);
    ProgramFrame(mem, j, true, PEAK);
    ProgramFrame(mem, j, false, PEAK);
    ProgramFrame(mem, j, true, LOW);
    ProgramFrame(mem, j, false, LOW);
    forall isRom: bool, s: SlotId | !Covers(jobs, m + 1, isRom, s)
      ensures MemBlock(mem', Addr(isRom, s)) == MemBlock(was, Addr(isRom, s))
    {
      assert !Covers(jobs, m, isRom, s) && !(j.isRom == isRom && j.slot == s);
    }
  }

  /** How far the jobs of a round have come. */
  predicate Progress(y: Sys, start: Sys, d: App, jobs: seq<Job>) {
    hide Written, CommitAll;
    && Shaped(y) && |start.mem| == EEPROM_SIZE && |d.slots| == 2
    && (if y.a.phase == Waiting then y.a.slots == CommitAll(d, jobs).slots && Written(y.mem, start.mem, jobs, |jobs|)
        else
          && y.a.jobs == jobs && y.a.slots == CommitAll(d, jobs[..y.a.jobI]).slots
          && Written(y.mem, start.mem, jobs, if y.a.phase == Readback then y.a.jobI + 1 else y.a.jobI))
  }

  lemma StepProgress(y: Sys, start: Sys, d: App, jobs: seq<Job>, ev: Event)
    requires Inv(y) && Progress(y, start, d, jobs) && OneEach(jobs) && EventOk(y, ev) && EndsWell(ev)
    requires Inv(Step(y, ev))
    ensures Progress(Step(y, ev), start, d, jobs)
  {
    hide Written, CommitAll, Inv, MemBlock, Program, CommitSpec;
    Shape(Step(y, ev));
    if ev.CopyEnds? {
      LandsOne(y.mem, start.mem, jobs, y.a.jobI);
    }
    if ev.ReadEnds? {
      ReadProgress(y, start, d, jobs, ev);
    }
  }

  lemma ReadProgress(y: Sys, start: Sys, d: App, jobs: seq<Job>, ev: Event)
    requires Inv(y) && Progress(y, start, d, jobs) && OneEach(jobs) && EventOk(y, ev) && ev == ReadEnds(true, true)
    requires Inv(Step(y, ev))
    ensures Progress(Step(y, ev), start, d, jobs)
  {
    hide Written, CommitAll, Inv, MemBlock, Committed;
    Shape(Step(y, ev));
    var i := y.a.jobI;
    WrittenAt(y.mem, start.mem, jobs, i + 1, i);
    assert jobs[i] in jobs;
    CommitOneMore(d, jobs[..i], jobs[i]);
    assert jobs[..i] + [jobs[i]] == jobs[..i + 1];
    assert jobs[..|jobs|] == jobs;
  }

  lemma WrittenAt(mem: seq<byte>, was: seq<byte>, jobs: seq<Job>, m: nat, k: nat)
    requires |mem| == |was| == EEPROM_SIZE && k < m <= |jobs| && Written(mem, was, jobs, m)
    ensures MemBlock(mem, Addr(jobs[k].isRom, jobs[k].slot)) == jobs[k].image
  {
  }

  lemma {:induction false} RunProgress(y: Sys, start: Sys, d: App, jobs: seq<Job>, events: seq<Event>)
    requires Inv(y) && Progress(y, start, d, jobs) && OneEach(jobs) && IsRun(y, events)
    requires forall ev | ev in events :: EndsWell(ev)
    ensures Progress(Run(y, events), start, d, jobs)
    decreases |events|
  {
    hide Inv, Step, EventOk, Progress, OneEach, EndsWell;
    if events != [] {
      Shape(y);
      assert events[0] in events && forall ev | ev in events[1..] :: ev in events;
      StepPreserves(y, events[0]);
      StepProgress(y, start, d, jobs, events[0]);
      RunProgress(Step(y, events[0]), start, d, jobs, events[1..]);
    }
  }

  /** The blocks of a slot hold what its updated RAM copy says. */
  predicate Holds(mem: seq<byte>, s: SlotId, t: Slot)
    requires |mem| == EEPROM_SIZE
  {
    && Stored(mem, s) == Some(t.temp) && MemBlock(mem, RecAddr(s))[3] == t.counter
    && MemBlock(mem, RecAddr(s))[6] == t.idx && MemBlock(mem, RomAddr(s)) == t.rom
  }

  /** The jobs a round queues for a slot: its record when the reading is beyond, and its sensor's ROM
      unless that is known. */
  lemma RoundJobsOf(a: App, e: Extremes, devs: seq<Block>, s: SlotId)
    requires |a.slots| == 2 && e.hiI < |devs| && e.loI < |devs|
    ensures var q, t, x := RoundJobs(a, e, devs), a.slots[s], Sensor(e, s);
            if Beyond(t, s, Reading(e, s)) then
              && RecordJob(t, s, Reading(e, s), x) in q
              && (if t.romValid && t.rom == devs[x] then !Covers(q, |q|, true, s)
                  else Job(true, s, RomAddr(s), devs[x]) in q)
            else !Covers(q, |q|, true, s) && !Covers(q, |q|, false, s)
  {
    hide RecordImage, QueueSpec;
    var b := a.(jobs := []);
    QueueIs(b, PEAK, e.hi, e.hiI, devs[e.hiI]);
    QueueIs(b, LOW, e.lo, e.loI, devs[e.loI]);
    QueueIs(b.(jobs := QueueSpec(b, PEAK, e.hi, e.hiI, devs[e.hiI])), LOW, e.lo, e.loI, devs[e.loI]);
  }

  lemma WrittenHolds(a: App, e: Extremes, devs: seq<Block>, s: SlotId, mem: seq<byte>, was: seq<byte>)
    requires |a.slots| == 2 && e.hiI < |devs| && e.loI < |devs| && InRange(e) && |mem| == |was| == EEPROM_SIZE
    requires Written(mem, was, RoundJobs(a, e, devs), |RoundJobs(a, e, devs)|)
    requires a.slots[s].romValid ==> MemBlock(was, RomAddr(s)) == a.slots[s].rom
    ensures if Beyond(a.slots[s], s, Reading(e, s)) then Holds(mem, s, Updated(a.slots[s], s, e, devs))
            else MemBlock(mem, RecAddr(s)) == MemBlock(was, RecAddr(s))
                 && MemBlock(mem, RomAddr(s)) == MemBlock(was, RomAddr(s))
  {
    hide RecordImage, RoundJobs, MemBlock, Stored, Written, Covers, Reading;
    RoundJobsOf(a, e, devs, s);
    var q, t, x := RoundJobs(a, e, devs), a.slots[s], Sensor(e, s);
    if Beyond(t, s, Reading(e, s)) {
      RecordHolds(mem, s, t.counter, Reading(e, s), x) by { ReadingInRange(e, s); }
      JobWritten(mem, was, q, RecordJob(t, s, Reading(e, s), x));
      if !(t.romValid && t.rom == devs[x]) {
        JobWritten(mem, was, q, Job(true, s, RomAddr(s), devs[x]));
      } else {
        BlockKept(mem, was, q, true, s);
      }
    } else {
      BlockKept(mem, was, q, true, s);
      BlockKept(mem, was, q, false, s);
    }
  }

  lemma ReadingInRange(e: Extremes, s: SlotId)
    requires InRange(e)
    ensures MIN_TENTHS <= Reading(e, s) <= MAX_TENTHS
  {
  }

  lemma RecordHolds(mem: seq<byte>, s: SlotId, counter: byte, temp: int, idx: byte)
    requires |mem| == EEPROM_SIZE && MIN_TENTHS <= temp <= MAX_TENTHS
    ensures MemBlock(mem, RecAddr(s)) == RecordImage(s, counter, temp, idx) ==>
              && Stored(mem, s) == Some(temp) && MemBlock(mem, RecAddr(s))[3] == (counter + 1) % 256
              && MemBlock(mem, RecAddr(s))[6] == idx
  {
    hide RecordImage, MemBlock, RecordAccepted, DecodeTemp;
    RecordRoundTrip(s, counter, temp, idx);
    RecordLayout(s, counter, temp, idx);
  }

  lemma JobWritten(mem: seq<byte>, was: seq<byte>, jobs: seq<Job>, j: Job)
    requires |mem| == |was| == EEPROM_SIZE && Written(mem, was, jobs, |jobs|) && j in jobs
    ensures MemBlock(mem, Addr(j.isRom, j.slot)) == j.image
  {
    hide MemBlock;
    var k :| 0 <= k < |jobs| && jobs[k] == j;
    WrittenAt(mem, was, jobs, |jobs|, k);
  }

  lemma BlockKept(mem: seq<byte>, was: seq<byte>, jobs: seq<Job>, isRom: bool, s: SlotId)
    requires |mem| == |was| == EEPROM_SIZE && Written(mem, was, jobs, |jobs|) && !Covers(jobs, |jobs|, isRom, s)
    ensures MemBlock(mem, Addr(isRom, s)) == MemBlock(was, Addr(isRom, s))
  {
    hide MemBlock;
  }

  lemma RoundStarts(y: Sys, e: Extremes)
    requires Inv(y) && Shaped(y) && y.a.phase == Waiting && Writable(y.a) && EventOk(y, Round(e, true))
    requires Inv(Step(y, Round(e, true)))
    ensures var jobs := RoundJobs(y.a, e, y.devs);
            Progress(Step(y, Round(e, true)), y, y.a.(jobs := jobs), jobs)
  {
    hide CommitAll, Inv, Written, RoundSpec, RoundJobs;
    var jobs := RoundJobs(y.a, e, y.devs);
    InvMeans(y);
    Shape(Step(y, Round(e, true)));
    RoundIs(y.a, e, y.devs, true);
    CommitNone(y.a.(jobs := jobs));
    assert jobs[..0] == [];
    NothingWritten(y.mem, jobs);
  }

  lemma NothingWritten(mem: seq<byte>, jobs: seq<Job>)
    requires |mem| == EEPROM_SIZE
    ensures Written(mem, mem, jobs, 0)
  {
  }

  /** A session that can write stores its records: after a round whose jobs all end well, each slot is
      updated in RAM, its blocks hold the new record and the ROM of its sensor when the reading was
      beyond, and are untouched otherwise. */
  lemma StoredRound(y: Sys, e: Extremes, events: seq<Event>, s: SlotId)
    requires Inv(y) && y.a.phase == Waiting && Writable(y.a) && |y.a.slots| == 2 && |y.mem| == EEPROM_SIZE
    requires e.hiI < |y.devs| && e.loI < |y.devs| && InRange(e)
    requires y.a.slots[s].romValid ==> MemBlock(y.mem, RomAddr(s)) == y.a.slots[s].rom
    requires events != [] && events[0] == Round(e, true) && forall ev | ev in events[1..] :: EndsWell(ev)
    requires IsRun(y, events) && Run(y, events).a.phase == Waiting
    ensures var z := Run(y, events);
            && z.a.slots == [Updated(y.a.slots[PEAK], PEAK, e, y.devs), Updated(y.a.slots[LOW], LOW, e, y.devs)]
            && |z.mem| == EEPROM_SIZE
            && if Beyond(y.a.slots[s], s, Reading(e, s)) then Holds(z.mem, s, Updated(y.a.slots[s], s, e, y.devs))
               else MemBlock(z.mem, RecAddr(s)) == MemBlock(y.mem, RecAddr(s))
                    && MemBlock(z.mem, RomAddr(s)) == MemBlock(y.mem, RomAddr(s))
  {
    hide Inv, Step, EventOk, MemBlock, CommitAll, RoundJobs, Beyond, Updated, Holds, EndsWell, Written, OneEach;
    Shape(y);
    assert EventOk(y, Round(e, true)) by { RoundPossible(y, e); }
    StepPreserves(y, Round(e, true));
    RoundStarts(y, e);
    RoundOneEach(y.a, e, y.devs);
    var jobs := RoundJobs(y.a, e, y.devs);
    RunProgress(Step(y, Round(e, true)), y, y.a.(jobs := jobs), jobs, events[1..]);
    RoundCommits(y.a, y.a.(jobs := jobs), e, y.devs);
    WrittenHolds(y.a, e, y.devs, s, Run(y, events).mem, y.mem);
  }

  lemma RoundPossible(y: Sys, e: Extremes)
    requires y.a.phase == Waiting && e.hiI < |y.devs| && e.loI < |y.devs|
    ensures EventOk(y, Round(e, true))
  {
  }
}
