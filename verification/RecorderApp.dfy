/** The recorder's globals as an object, updated by the same functions as the application's;
    proved against module Recorder. */
module RecorderApp {
  import opened Bits
  import opened CrcLoops
  import opened Recorder

  /** The first sensor with the highest valid temperature, the first with the lowest. */
  predicate AreExtremes(temps: seq<int>, ok: seq<bool>, e: Extremes)
    requires |temps| == |ok|
  {
    && e.hiI < |temps| && e.loI < |temps| && ok[e.hiI] && ok[e.loI]
    && temps[e.hiI] == e.hi && temps[e.loI] == e.lo
    && (forall i | 0 <= i < |temps| && ok[i] :: e.lo <= temps[i] <= e.hi)
    && (forall i | 0 <= i < e.hiI && ok[i] :: temps[i] < e.hi)
    && (forall i | 0 <= i < e.loI && ok[i] :: e.lo < temps[i])
  }

  /** The scan of evaluate over the round's results. */
  method FindExtremes(temps: seq<int>, ok: seq<bool>) returns (have: bool, e: Extremes)
    requires |temps| == |ok| < 256
    ensures have <==> exists i | 0 <= i < |ok| :: ok[i]
    ensures have ==> AreExtremes(temps, ok, e)
  {
    var hi, lo, hiI: byte, loI: byte := 0, 0, 0, 0;
    have := false;
    for i := 0 to |temps|
      invariant have <==> exists k | 0 <= k < i :: ok[k]
      invariant have ==> AreExtremes(temps[..i], ok[..i], Extremes(hi, hiI, lo, loI))
    {
      if ok[i] {
        if !have || temps[i] > hi {
          hi, hiI := temps[i], i;
        }
        if !have || temps[i] < lo {
          lo, loI := temps[i], i;
        }
        have := true;
      }
    }
    assert temps[..|temps|] == temps && ok[..|temps|] == ok;
    e := Extremes(hi, hiI, lo, loI);
  }

  class Session {
    var phase: Phase
    var slots: seq<Slot>
    var jobs: seq<Job>
    var jobI: nat
    var fails: nat
    var off: bool
    var have: bool

    ghost predicate Valid()
      reads this
    {
      Sized(View())
    }

    function View(): App
      reads this
    {
      App(phase, slots, jobs, jobI, fails, off, have)
    }

    /** The statics at reset, and whether a DS2431 was found. */
    constructor (haveEeprom: bool)
      ensures Valid() && View() == App(Waiting, [NO_RECORD, NO_RECORD], [], 0, 0, false, haveEeprom)
    {
      phase, slots, jobs, jobI, fails, off, have := Waiting, [NO_RECORD, NO_RECORD], [], 0, 0, false, haveEeprom;
    }

    /** boot_done, right after the read-out. */
    method BootDone(ok: seq<bool>, blocks: seq<Block>)
      requires |ok| == 4 == |blocks|
      requires View() == App(Waiting, [NO_RECORD, NO_RECORD], [], 0, 0, false, have)
      modifies `slots
      ensures Valid() && View() == BootSpec(have, ok, blocks)
    {
      hide LoadRecord, LoadRom;
      for s := 0 to 2
        invariant |slots| == 2 && (s < 2 ==> slots[LOW] == NO_RECORD)
        invariant slots[PEAK] == if s == 0 then NO_RECORD
                                 else LoadRom(LoadRecord(NO_RECORD, PEAK, ok[0], blocks[0]), ok[2], blocks[2])
        invariant s == 2 ==> slots[LOW] == LoadRom(LoadRecord(NO_RECORD, LOW, ok[1], blocks[1]), ok[3], blocks[3])
      {
        BootLoadRecord(s, ok[s], blocks[s]);
        BootLoadRom(s, ok[2 + s], blocks[2 + s]);
      }
      assert slots == [slots[PEAK], slots[LOW]];
    }

    /** boot_load_record */
    method BootLoadRecord(slot: SlotId, ok: bool, b: Block)
      requires Valid()
      modifies `slots
      ensures slots == old(slots)[slot := LoadRecord(old(slots)[slot], slot, ok, b)]
    {
      hide ByteBits, Crc8Of;
      if !ok || b[0] != Magic(slot) || b[1] != VERSION {
        return;
      }
      var crc := OnewireCrc8(b, 7);
      if crc != ByteBits(b[7]) || b[2] % 2 == 0 || Int8(b[5]) < -9 || Int8(b[5]) > 9 {
        return;
      }
      slots := slots[slot := slots[slot].(valid := true, counter := b[3], temp := DecodeTemp(b), idx := b[6])];
    }

    /** boot_load_rom */
    method BootLoadRom(slot: SlotId, ok: bool, b: Block)
      requires Valid()
      modifies `slots
      ensures slots == old(slots)[slot := LoadRom(old(slots)[slot], ok, b)]
    {
      hide ByteBits, Crc8Of;
      var crc := OnewireCrc8(b, 7);
      if ok && b[0] == DS18_FAMILY && crc == ByteBits(b[7]) {
        slots := slots[slot := slots[slot].(rom := b, romValid := true)];
      }
    }

    method PushRecord(slot: SlotId, temp: int, idx: byte)
      requires Valid()
      modifies `jobs
      ensures jobs == old(jobs) + [Job(false, slot, RecAddr(slot), RecordImage(slot, slots[slot].counter, temp, idx))]
    {
      hide ByteBits, Crc8Of;
      var body := [Magic(slot), VERSION, 3, (slots[slot].counter + 1) % 256,
                   ToInt8(TenthsWhole(temp)), ToInt8(TenthsRest(temp)), idx];
      var crc := OnewireCrc8(body, 7);
      assert body[..7] == body;
      jobs := jobs + [Job(false, slot, RecAddr(slot), body + [ByteOf(crc)])];
    }

    /** queue_extreme */
    method QueueExtreme(slot: SlotId, temp: int, idx: byte, rom: Block)
      requires Valid()
      modifies `jobs
      ensures jobs == QueueSpec(old(View()), slot, temp, idx, rom) && jobs != []
    {
      hide RecordImage;
      if !slots[slot].romValid || slots[slot].rom != rom {
        jobs := jobs + [Job(true, slot, RomAddr(slot), rom)];
      }
      PushRecord(slot, temp, idx);
    }

    /** commit_job */
    method CommitJob(j: Job)
      requires |slots| == 2
      modifies `slots
      ensures View() == CommitSpec(old(View()), j)
    {
      if j.isRom {
        slots := slots[j.slot := slots[j.slot].(rom := j.image, romValid := true)];
      } else {
        slots := slots[j.slot := slots[j.slot].(valid := true, counter := j.image[3], temp := DecodeTemp(j.image),
                                                idx := j.image[6])];
      }
    }

    /** write_abort */
    method WriteAbort()
      requires |slots| == 2
      modifies `phase, `jobs, `fails, `off
      ensures Valid() && View() == AbortSpec(old(View()))
      ensures off <==> old(off) || old(fails) >= 2
    {
      jobs := [];
      fails := fails + 1;
      if fails >= WRITE_FAIL_LIMIT {
        off := true;
      }
      phase := Waiting;
    }

    /** start_job; whether the EEPROM driver accepts the write comes from outside. */
    method StartJob(scheduled: bool) returns (call: EepromCall)
      requires |slots| == 2 && jobI < |jobs|
      modifies `phase, `jobs, `fails, `off
      ensures call == StartCall(old(jobs), jobI)
      ensures Valid() && View() == StartJobSpec(old(View()), scheduled)
    {
      call := WriteBlock(jobs[jobI].addr, jobs[jobI].image);
      if !scheduled {
        WriteAbort();
        return;
      }
      phase := Scratch;
    }

    /** job_done */
    method JobDone(scheduled: bool) returns (call: EepromCall)
      requires Valid() && jobI < |jobs|
      modifies this
      ensures call == StartCall(old(jobs), old(jobI) + 1)
      ensures Valid() && View() == JobDoneSpec(old(View()), scheduled)
    {
      hide DecodeTemp;
      call := NoCall;
      CommitJob(jobs[jobI]);
      fails := 0;
      jobI := jobI + 1;
      if jobI < |jobs| {
        call := StartJob(scheduled);
      } else {
        jobs := [];
        phase := Waiting;
      }
    }

    /** evaluate */
    method Evaluate(temps: seq<int>, ok: seq<bool>, devs: seq<Block>, scheduled: bool)
      returns (ghost e: Extremes, call: EepromCall)
      requires Valid() && phase == Waiting && jobs == []
      requires |temps| == |ok| <= |devs| && |temps| < 256
      modifies this
      ensures Valid()
      ensures if exists i | 0 <= i < |ok| :: ok[i]
              then AreExtremes(temps, ok, e) && View() == RoundSpec(old(View()), e, devs, scheduled)
                   && call == StartCall(RoundSpec(old(View()), e, devs, true).jobs, 0)
              else View() == old(View()) && call == NoCall
    {
      hide AreExtremes, QueueSpec, CommitAll, AbortSpec;
      var any, x := FindExtremes(temps, ok);
      e, call := x, NoCall;
      if !any {
        return;
      }
      ExtremesInRange(temps, ok, x);
      var hiNew := IsNew(slots[PEAK], PEAK, x.hi);
      var loNew := IsNew(slots[LOW], LOW, x.lo);
      if !hiNew && !loNew {
        return;
      }
      jobs := [];
      if hiNew {
        QueueExtreme(PEAK, x.hi, x.hiI, devs[x.hiI]);
      }
      if loNew {
        QueueExtreme(LOW, x.lo, x.loI, devs[x.loI]);
      }
      if off || !have {
        CommitQueued();
        return;
      }
      jobI := 0;
      call := StartJob(scheduled);
    }

    /** Without a usable EEPROM the queued jobs go to RAM at once. */
    method CommitQueued()
      requires Valid()
      modifies `slots, `jobs, `phase
      ensures Valid() && View() == CommitAll(old(View()), old(jobs)).(jobs := [], phase := Waiting)
    {
      hide CommitAll;
      ghost var d := View();
      var i := 0;
      assert jobs[..0] == [];
      CommitNone(d);
      while i < |jobs|
        invariant 0 <= i <= |jobs| && View() == CommitAll(d, jobs[..i]) && jobs == d.jobs && |slots| == 2
      {
        assert jobs[..i + 1][..i] == jobs[..i];
        CommitOneMore(d, jobs[..i + 1]);
        CommitJob(jobs[i]);
        i := i + 1;
      }
      assert jobs[..i] == jobs;
      jobs := [];
      phase := Waiting;
    }

    /** A write state whose driver poll reported the end of its command, or whose time ran out. */
    method CommandEnds(good: bool) returns (call: EepromCall)
      requires Valid() && (phase == Scratch || phase == Verify || phase == Copy)
      modifies `phase, `jobs, `fails, `off
      ensures call == CommandCall(old(View()), good)
      ensures Valid() && View() == CommandSpec(old(View()), good)
    {
      call := NoCall;
      if !good {
        WriteAbort();
        return;
      }
      match phase
      case Scratch => call, phase := VerifyRead, Verify;
      case Verify => call, phase := CopyBlock, Copy;
      case Copy => call, phase := ReadBlock(jobs[jobI].addr), Readback;
    }

    /** ST_WRITE_READBACK */
    method ReadbackEnds(read: Option<Block>, scheduled: bool) returns (call: EepromCall)
      requires Valid() && phase == Readback
      modifies this
      ensures call == if read == Some(old(jobs[jobI].image)) then StartCall(old(jobs), old(jobI) + 1) else NoCall
      ensures Valid() && View() == ReadbackSpec(old(View()), read, scheduled)
    {
      call := NoCall;
      if read.None? || read.value != jobs[jobI].image {
        WriteAbort();
      } else {
        call := JobDone(scheduled);
      }
    }
  }

  lemma ExtremesInRange(temps: seq<int>, ok: seq<bool>, e: Extremes)
    requires |temps| == |ok| && AreExtremes(temps, ok, e)
    ensures e.hiI < |temps| && e.loI < |temps|
  {
  }

  lemma CommitNone(a: App)
    requires |a.slots| == 2
    ensures CommitAll(a, []) == a
  {
  }

  lemma CommitOneMore(a: App, jobs: seq<Job>)
    requires |a.slots| == 2 && jobs != []
    ensures CommitAll(a, jobs) == CommitSpec(CommitAll(a, jobs[..|jobs| - 1]), jobs[|jobs| - 1])
  {
  }
}
