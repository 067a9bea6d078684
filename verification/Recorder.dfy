/** The peak/low temperature recorder: self-validating records in a DS2431, written block by
    block by a job machine that a power cut may stop anywhere. */
module Recorder {
  import opened Bits
  import opened CrcLoops

  const PEAK := 0
  const LOW := 1
  const REC_BYTES := 8
  const VERSION: byte := 2
  const DS18_FAMILY: byte := 0x28
  const EEPROM_SIZE := 128
  const WRITE_FAIL_LIMIT := 3
  /** The temperatures, in tenths, that a record can hold. */
  const MIN_TENTHS := -1289
  const MAX_TENTHS := 1279

  type SlotId = s: nat | s < 2

  /** Eight bytes: a ROM, or what is programmed at once. */
  type Block = b: seq<byte> | |b| == REC_BYTES witness [0, 0, 0, 0, 0, 0, 0, 0]

  function RecAddr(slot: SlotId): nat { if slot == PEAK then 16 else 24 }

  function RomAddr(slot: SlotId): nat { if slot == PEAK then 32 else 40 }

  function Magic(slot: SlotId): byte { if slot == PEAK then 0x54 else 0x4C }

  // ---- C integers ----

  function Int8(b: byte): int { if b >= 128 then b - 256 else b }

  function ToInt8(x: int): byte { x % 256 }

  /** Quotient and remainder by 10 truncate toward zero. */
  function TenthsWhole(t: int): int { if t >= 0 then t / 10 else -(-t / 10) }

  function TenthsRest(t: int): int { if t >= 0 then t % 10 else -(-t % 10) }

  // ---- blocks ----

  predicate CrcMatches(b: Block)
  {
    ByteBits(b[7]) == Crc8Of(b[..7])
  }

  lemma Prefixed(body: seq<byte>, last: byte)
    ensures (body + [last])[..|body|] == body && (body + [last])[|body|] == last
  {
  }

  function Sealed(body: seq<byte>): (b: Block)
    requires |body| == 7
    ensures b[..7] == body && CrcMatches(b)
  {
    hide Crc8Of, ByteBits;
    Prefixed(body, ByteOf(Crc8Of(body)));
    body + [ByteOf(Crc8Of(body))]
  }

  /** The checks of boot_load_record on a block that was read. */
  predicate RecordAccepted(b: Block, slot: SlotId)
  {
    b[0] == Magic(slot) && b[1] == VERSION && CrcMatches(b) && b[2] % 2 == 1 && -9 <= Int8(b[5]) <= 9
  }

  /** The check of boot_load_rom. */
  predicate RomAccepted(b: Block)
  {
    b[0] == DS18_FAMILY && CrcMatches(b)
  }

  /** decode_temp */
  function DecodeTemp(b: Block): int
  {
    Int8(b[4]) * 10 + Int8(b[5])
  }

  /** The block push_record builds. */
  function RecordImage(slot: SlotId, counter: byte, temp: int, idx: byte): Block
  {
    Sealed([Magic(slot), VERSION, 3, (counter + 1) % 256, ToInt8(TenthsWhole(temp)), ToInt8(TenthsRest(temp)), idx])
  }

  /** Every record that is written would be accepted at boot, and it says the temperature it was
      written for exactly when that lies in the range of the two bytes. */
  lemma RecordRoundTrip(slot: SlotId, counter: byte, temp: int, idx: byte)
    requires -32768 <= temp < 32768
    ensures RecordAccepted(RecordImage(slot, counter, temp, idx), slot)
    ensures DecodeTemp(RecordImage(slot, counter, temp, idx)) == temp <==> MIN_TENTHS <= temp <= MAX_TENTHS
  {
    hide CrcMatches, TenthsWhole, TenthsRest, ToInt8, Int8, Sealed;
    var b := RecordImage(slot, counter, temp, idx);
    var body := [Magic(slot), VERSION, 3, (counter + 1) % 256,
                 ToInt8(TenthsWhole(temp)), ToInt8(TenthsRest(temp)), idx];
    assert forall i | 0 <= i < 7 :: b[i] == b[..7][i] == body[i];
    TenthsCarried(temp);
  }

  /** The rest always survives its byte; the temperature does when the whole degrees survive theirs. */
  lemma TenthsCarried(t: int)
    requires -32768 <= t < 32768
    ensures -9 <= TenthsRest(t) <= 9 && Int8(ToInt8(TenthsRest(t))) == TenthsRest(t)
    ensures Int8(ToInt8(TenthsWhole(t))) * 10 + TenthsRest(t) == t <==> MIN_TENTHS <= t <= MAX_TENTHS
  {
    assert 10 * TenthsWhole(t) + TenthsRest(t) == t;
  }

  // ---- the application's state ----

  datatype Slot = Slot(valid: bool, counter: byte, temp: int, idx: byte, romValid: bool, rom: Block)

  datatype Job = Job(isRom: bool, slot: SlotId, addr: nat, image: Block)

  datatype Phase = Waiting | Scratch | Verify | Copy | Readback

  datatype App = App(phase: Phase, slots: seq<Slot>, jobs: seq<Job>, jobI: nat, fails: nat, off: bool, have: bool)

  /** What the application asks of the EEPROM driver. */
  datatype EepromCall = NoCall | WriteBlock(addr: nat, image: Block) | VerifyRead | CopyBlock | ReadBlock(addr: nat)

  const NO_RECORD := Slot(false, 0, 0, 0, false, [0, 0, 0, 0, 0, 0, 0, 0])

  predicate Sized(a: App) {
    |a.slots| == 2 && (a.phase != Waiting ==> a.jobI < |a.jobs|)
  }

  // ---- boot ----

  /** boot_load_record */
  function LoadRecord(s: Slot, slot: SlotId, ok: bool, b: Block): Slot
  {
    if ok && RecordAccepted(b, slot) then s.(valid := true, counter := b[3], temp := DecodeTemp(b), idx := b[6]) else s
  }

  /** boot_load_rom */
  function LoadRom(s: Slot, ok: bool, b: Block): Slot
  {
    if ok && RomAccepted(b) then s.(rom := b, romValid := true) else s
  }

  /** A session begins: the four blocks were read (ok says which reads succeeded) and the
      EEPROM is usable or not. */
  function BootSpec(have: bool, ok: seq<bool>, blocks: seq<Block>): (a: App)
    requires |ok| == 4 == |blocks|
    ensures Sized(a)
  {
    hide RecordAccepted, RomAccepted;
    var peak := LoadRom(LoadRecord(NO_RECORD, PEAK, ok[0], blocks[0]), ok[2], blocks[2]);
    var low := LoadRom(LoadRecord(NO_RECORD, LOW, ok[1], blocks[1]), ok[3], blocks[3]);
    App(Waiting, [peak, low], [], 0, 0, false, have)
  }

  // ---- a measured round ----

  /** queue_extreme */
  function QueueSpec(a: App, slot: SlotId, temp: int, idx: byte, rom: Block): seq<Job>
    requires |a.slots| == 2
  {
    var s := a.slots[slot];
    a.jobs
    + (if !s.romValid || s.rom != rom then [Job(true, slot, RomAddr(slot), rom)] else [])
    + [Job(false, slot, RecAddr(slot), RecordImage(slot, s.counter, temp, idx))]
  }

  /** commit_job */
  function Committed(s: Slot, j: Job): Slot
  {
    if j.isRom then s.(rom := j.image, romValid := true)
    else s.(valid := true, counter := j.image[3], temp := DecodeTemp(j.image), idx := j.image[6])
  }

  function CommitSpec(a: App, j: Job): App
    requires |a.slots| == 2
  {
    a.(slots := a.slots[j.slot := Committed(a.slots[j.slot], j)])
  }

  function CommitAll(a: App, jobs: seq<Job>): (r: App)
    requires |a.slots| == 2
    ensures |r.slots| == 2 && r == a.(slots := r.slots)
  {
    if jobs == [] then a else
    var n := |jobs| - 1;
    CommitSpec(CommitAll(a, jobs[..n]), jobs[n])
  }

  /** write_abort */
  function AbortSpec(a: App): App {
    a.(phase := Waiting, jobs := [], fails := a.fails + 1, off := a.off || a.fails + 1 >= WRITE_FAIL_LIMIT)
  }

  /** start_job */
  function StartJobSpec(a: App, scheduled: bool): App {
    if scheduled then a.(phase := Scratch) else AbortSpec(a)
  }

  /** The extremes of a round: the first sensor with the highest and the first with the lowest
      valid temperature. */
  datatype Extremes = Extremes(hi: int, hiI: byte, lo: int, loI: byte)

  predicate IsNew(s: Slot, slot: SlotId, temp: int) {
    !s.valid || (if slot == PEAK then temp > s.temp else temp < s.temp)
  }

  /** evaluate, once the extremes are known; devs is the driver's device table. */
  function RoundSpec(a: App, e: Extremes, devs: seq<Block>, scheduled: bool): App
    requires Sized(a) && e.hiI < |devs| && e.loI < |devs|
  {
    var hiNew, loNew := IsNew(a.slots[PEAK], PEAK, e.hi), IsNew(a.slots[LOW], LOW, e.lo);
    if !hiNew && !loNew then a.(phase := Waiting)
    else
      var b := a.(jobs := []);
      var c := if hiNew then b.(jobs := QueueSpec(b, PEAK, e.hi, e.hiI, devs[e.hiI])) else b;
      var d := if loNew then c.(jobs := QueueSpec(c, LOW, e.lo, e.loI, devs[e.loI])) else c;
      if d.off || !d.have then CommitAll(d, d.jobs).(jobs := [], phase := Waiting)
      else StartJobSpec(d.(jobI := 0), scheduled)
  }

  // ---- the write jobs ----

  /** job_done */
  function JobDoneSpec(a: App, scheduled: bool): App
    requires Sized(a) && a.jobI < |a.jobs|
  {
    var b := CommitSpec(a, a.jobs[a.jobI]).(fails := 0, jobI := a.jobI + 1);
    if b.jobI < |a.jobs| then StartJobSpec(b, scheduled) else b.(jobs := [], phase := Waiting)
  }

  /** A write state whose command ended: well, or with an error, a timeout or a rejection. */
  function CommandSpec(a: App, good: bool): App {
    if !good then AbortSpec(a)
    else match a.phase
         case Scratch => a.(phase := Verify)
         case Verify => a.(phase := Copy)
         case Copy => a.(phase := Readback)
         case _ => a
  }

  /** The call that starts job i, when there is one. */
  function StartCall(jobs: seq<Job>, i: nat): EepromCall
  {
    if i < |jobs| then WriteBlock(jobs[i].addr, jobs[i].image) else NoCall
  }

  /** The call that goes with the end of a command: verify what was written, copy what was verified,
      read back from the block of the job. */
  function CommandCall(a: App, good: bool): EepromCall
    requires Sized(a)
  {
    if !good then NoCall
    else match a.phase
         case Scratch => VerifyRead
         case Verify => CopyBlock
         case Copy => ReadBlock(a.jobs[a.jobI].addr)
         case _ => NoCall
  }

  /** The read-back: what was read (None: the read failed) against the image. */
  function ReadbackSpec(a: App, read: Option<Block>, scheduled: bool): App
    requires Sized(a) && a.phase == Readback
  {
    if read.None? || read.value != a.jobs[a.jobI].image then AbortSpec(a) else JobDoneSpec(a, scheduled)
  }
}
