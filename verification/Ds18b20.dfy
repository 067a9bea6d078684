/** The DS18B20 driver: measurement, scan, resolution change and command transaction share
    one timer, one completion flag and one table of slot pulses. What every call does. */
module Ds18b20 {
  import opened Bits
  import opened CrcLoops
  import opened PulseCodec

  const CONVERT_T: byte := 0x44
  const READ_SCRATCHPAD: byte := 0xBE
  const WRITE_SCRATCHPAD: byte := 0x4E
  const COPY_SCRATCHPAD: byte := 0x48
  const RECALL_EEPROM: byte := 0xB8
  const READ_POWER_SUPPLY: byte := 0xB4
  const READ_ROM: byte := 0x33
  const SCRATCH_LEN := 9
  const CAPTURE_LEN := 72
  const TABLE_LEN := 105
  const MAX_DEVICES := 8
  const DEVICE_GAP_US := 1000
  const EEPROM_WAIT_US := 10000
  const RES_MIN := 9
  const RES_MAX := 12

  // ---- the bus layer ----

  datatype Owner = Measurement | Searching | Resolution | Command

  datatype Op = ResetOp | WriteOp(slots: nat) | ReadOp(bytes: nat) | WaitOp(us: nat) | SearchOp

  /** An operation under way, and whose it is. */
  datatype Armed = Armed(owner: Owner, op: Op)

  /** The timer: the operation under way, the update flag, the owner of the operation that
      raised the flag (None: raised by a kick or by the pull-up), the strong pull-up,
      and the number of edges captured by the last reset. */
  datatype Bus = Bus(armed: Option<Armed>, uif: bool, raiser: Option<Owner>, pullup: bool, captured: nat)

  function Arm(b: Bus, owner: Owner, op: Op): Bus {
    b.(armed := Some(Armed(owner, op)), uif := false, raiser := None)
  }

  /** ow_timer_kick */
  function Kick(b: Bus): Bus {
    b.(uif := true, raiser := None)
  }

  /** Engaging the pull-up reloads the output through an update event, which raises the
      flag; releasing it does not. */
  function PullUp(b: Bus, on: bool): Bus {
    if on then b.(pullup := true, uif := true, raiser := None) else b.(pullup := false)
  }

  /** ow_op_done: the flag is consumed by whoever looks at it. */
  function Consumed(b: Bus): Bus {
    b.(uif := false, raiser := None)
  }

  // ---- the driver ----

  datatype State = StIdle | StStart | StConvert | StWait | StContinue | StRequest | StRead | StDecode

  datatype Flags = Flags(addressMode: bool, scanMode: bool, parasite: bool)

  datatype ResPhase = ResReset | ResWrite | ResDone

  datatype Res = Res(phase: ResPhase, pending: nat, slots: nat, applied: bool, finished: bool)

  datatype TxnPhase = TxnReset | TxnWrite | TxnRead | TxnWait | TxnDone

  datatype Txn = Txn(phase: TxnPhase, command: byte, hasOut: bool, payload: seq<byte>, payloadLen: nat,
                     readBytes: nat, waitUs: nat, slots: nat, raw: seq<byte>, bare: bool, ok: bool, finished: bool)

  datatype Drv = Drv(
    state: State, flags: Flags, scanIndex: nat, rom: seq<byte>, resolution: nat, res: Res, txn: Txn,
    devs: seq<seq<byte>>, count: nat, u: seq<byte>, pulses: seq<byte>, bus: Bus)

  datatype Value = NoSensor | CrcFail | Temp(tenths: int)

  /** One call of ds18b20_complete: what was reported, and what the driver stood at. */
  datatype Report = Report(index: nat, rom: seq<byte>, addressed: bool, present: bool, value: Value)

  datatype Outcome = Outcome(d: Drv, report: Option<Report>)

  /** From the broadcast conversion of a round to its end the index stays in the table. */
  predicate IndexOk(d: Drv) {
    d.flags.scanMode && !d.state.StIdle? && !d.state.StStart? && !d.state.StConvert? ==> d.scanIndex < MAX_DEVICES
  }

  predicate Sized(d: Drv) {
    && |d.rom| == 8 && |d.devs| == MAX_DEVICES && (forall i | 0 <= i < MAX_DEVICES :: |d.devs[i]| == 8)
    && d.count <= MAX_DEVICES && IndexOk(d)
    && |d.u| == CAPTURE_LEN && |d.pulses| == TABLE_LEN
    && RES_MIN <= d.resolution <= RES_MAX && RES_MIN <= d.res.pending <= RES_MAX
    && |d.txn.payload| == 3 && d.txn.payloadLen <= 3 && d.txn.readBytes <= SCRATCH_LEN && |d.txn.raw| == SCRATCH_LEN
  }

  // ---- numbers ----

  /** Round half away from zero, as C division truncates. */
  function Tenths(lo: byte, hi: byte): int {
    var raw := SignedWord(lo, hi);
    if raw < 0 then -((-raw * 10 + 8) / 16) else (raw * 10 + 8) / 16
  }

  function SignedWord(lo: byte, hi: byte): int {
    var w := lo + 256 * hi;
    if w >= 32768 then w - 65536 else w
  }

  /** res_config_byte */
  function ConfigByte(res: nat): byte
    requires RES_MIN <= res <= RES_MAX
  {
    0x1F + 32 * (res - RES_MIN)
  }

  function ResolutionOf(config: byte): (res: nat)
    ensures RES_MIN <= res <= RES_MAX
  {
    RES_MIN + config / 32 % 4
  }

  function ResolutionWaitUs(res: nat): nat {
    if res == 9 then 93750 else if res == 10 then 187500 else if res == 11 then 375000 else 750000
  }

  // ---- command tables ----

  function Prefix(d: Drv, match_: bool): (p: seq<byte>)
    requires |d.rom| == 8
    ensures |p| <= 9
  {
    if match_ then [MATCH_ROM] + d.rom else [SKIP_ROM]
  }

  /** Convert T and the scratchpad read of a measurement. */
  function MeasureBytes(d: Drv, cmd: byte): (b: seq<byte>)
    requires |d.rom| == 8
    ensures 1 <= |b| <= 10
  {
    Prefix(d, d.flags.addressMode) + [cmd]
  }

  function UseMatch(d: Drv): bool {
    d.flags.addressMode && !d.flags.scanMode
  }

  /** Write Scratchpad with TH = TL = 0 and the configuration byte. */
  function ResolutionBytes(d: Drv, bits: nat): (b: seq<byte>)
    requires |d.rom| == 8 && RES_MIN <= bits <= RES_MAX
    ensures 1 <= |b| <= 13
  {
    Prefix(d, UseMatch(d)) + [WRITE_SCRATCHPAD, 0, 0, ConfigByte(bits)]
  }

  function CommandBytes(d: Drv): (b: seq<byte>)
    requires |d.rom| == 8 && d.txn.payloadLen <= |d.txn.payload| == 3
    ensures 1 <= |b| <= 13
  {
    (if d.txn.bare then [] else Prefix(d, UseMatch(d))) + [d.txn.command] + d.txn.payload[..d.txn.payloadLen]
  }

  /** The table a write is fed from: the encoded bytes and the release entry. */
  function Table(bytes: seq<byte>): (p: seq<byte>)
    ensures |p| == 8 * |bytes| + 1
  {
    Encoded(bytes) + [RELEASE_PULSE]
  }

  predicate CapturedPresence(d: Drv)
    requires |d.u| == CAPTURE_LEN
  {
    var w: seq<int> := d.u;
    Present(d.bus.captured, w[0] + 256 * w[1], w[2] + 256 * w[3])
  }

  // ---- calls made between cycles ----

  /** Nobody but a possible parked measurement machine. */
  predicate Parked(d: Drv, searching: bool) {
    d.state == StIdle && d.res.finished && d.txn.finished && !searching
  }

  function SelectSpec(d: Drv, rom: Option<seq<byte>>, searching: bool): Drv {
    if !Parked(d, searching) then d
    else if rom.None? then d.(flags := d.flags.(scanMode := false, addressMode := false))
    else d.(rom := rom.value, flags := d.flags.(scanMode := false, addressMode := true))
  }

  function StartMeasureSpec(d: Drv, searching: bool): Drv {
    if !Parked(d, searching) then d else d.(state := StStart, bus := Kick(d.bus))
  }

  function ScanStartSpec(d: Drv, searching: bool): Drv {
    if !Parked(d, searching) || d.count == 0 then d
    else d.(flags := d.flags.(scanMode := true), scanIndex := 0)
  }

  function SetResolutionSpec(d: Drv, bits: nat, searching: bool): Drv
    requires |d.rom| == 8
  {
    if bits < RES_MIN || bits > RES_MAX || !Parked(d, searching) then d
    else
      hide Table, ResolutionBytes;
      var table := Table(ResolutionBytes(d, bits));
      d.(res := Res(ResReset, bits, |table| - 1, false, false), pulses := Overwrite(d.pulses, table),
         bus := Arm(d.bus, Resolution, ResetOp))
  }

  /** ds18b20_search_start empties the device table; an alarm search leaves it. */
  function SearchGuardSpec(d: Drv, alarm: bool, searching: bool): Drv {
    if !Parked(d, searching) || alarm then d else d.(count := 0)
  }

  /** search_store_sink */
  function StoreSpec(d: Drv, rom: seq<byte>): (d': Drv)
    requires |d.devs| == MAX_DEVICES
  {
    if d.count < MAX_DEVICES then d.(devs := d.devs[d.count := rom], count := d.count + 1) else d
  }

  // ---- callbacks ----

  /** What a ds18b20_complete callback may call. */
  datatype Call = CallSelect(rom: Option<seq<byte>>) | CallStart

  predicate CallsOk(calls: seq<Call>) {
    forall c | c in calls :: c.CallSelect? && c.rom.Some? ==> |c.rom.value| == 8
  }

  function CallbackSpec(d: Drv, calls: seq<Call>, searching: bool): (d': Drv) {
    if calls == [] then d else
    var n := |calls| - 1;
    var e := CallbackSpec(d, calls[..n], searching);
    match calls[n]
    case CallSelect(rom) => SelectSpec(e, rom, searching)
    case CallStart => StartMeasureSpec(e, searching)
  }

  // ---- the measurement machine ----

  function Park(d: Drv): Drv {
    if d.flags.parasite then d.(bus := PullUp(d.bus, true)) else d
  }

  /** issue_command */
  function IssueSpec(d: Drv, cmd: byte, next: State, calls: seq<Call>, searching: bool): Outcome
    requires Sized(d)
  {
    hide Table, MeasureBytes;
    if !CapturedPresence(d) then
      var e := CallbackSpec(d.(state := StIdle), calls, searching);
      Outcome(Park(e), Some(Report(d.scanIndex, d.rom, d.flags.addressMode, false, NoSensor)))
    else
      var table := Table(MeasureBytes(d, cmd));
      Outcome(d.(pulses := Overwrite(d.pulses, table), bus := Arm(d.bus, Measurement, WriteOp(|table| - 1)),
                 state := next),
              None)
  }

  predicate AllOnes(s: seq<byte>) {
    forall i | 0 <= i < |s| :: s[i] == 0xFF
  }

  /** The verdict on a scratchpad. */
  function Judge(addressed: bool, s: seq<byte>): Value
    requires |s| == SCRATCH_LEN
  {
    if addressed && AllOnes(s) then NoSensor
    else if s[5] != 0xFF || s[7] != 0x10 then CrcFail
    else if ByteBits(s[8]) == Crc8Of(s[..8]) then Temp(Tenths(s[0], s[1]))
    else CrcFail
  }

  /** scan_finish_or_next */
  function FinishOrNext(d: Drv): Drv {
    if !d.flags.scanMode then Park(d)
    else
      var e := d.(scanIndex := d.scanIndex + 1);
      if e.scanIndex < d.count
      then e.(state := StContinue, bus := Arm(d.bus, Measurement, WaitOp(DEVICE_GAP_US)))
      else Park(e.(state := StIdle))
  }

  /** Decoded in place, judged, reported. */
  function Judged(d: Drv): (e: Drv)
    requires Sized(d)
  {
    hide Judge, Decoded;
    var s := Decoded(d.u);
    d.(u := Overwrite(d.u, s),
       state := if d.flags.scanMode then d.state else StIdle,
       resolution := if Judge(d.flags.addressMode, s).Temp? then ResolutionOf(s[4]) else d.resolution)
  }

  function DecodeSpec(d: Drv, calls: seq<Call>, searching: bool): Outcome
    requires Sized(d)
  {
    hide Judge, Decoded, Judged;
    var v := Judge(d.flags.addressMode, Decoded(d.u));
    var e := CallbackSpec(Judged(d), calls, searching);
    Outcome(FinishOrNext(e), Some(Report(d.scanIndex, d.rom, d.flags.addressMode, true, v)))
  }

  function StartSpec(d: Drv): Drv {
    var b := if d.flags.parasite then PullUp(d.bus, false) else d.bus;
    d.(state := StConvert, bus := Arm(b, Measurement, ResetOp))
  }

  /** A scan round begins with a broadcast conversion and device 0. */
  function ForBroadcast(d: Drv): Drv {
    if d.flags.scanMode then d.(scanIndex := 0, flags := d.flags.(addressMode := false)) else d
  }

  /** A scan round reads its devices one by one, each by its own ROM. */
  function ForDevice(d: Drv): Drv
    requires d.flags.scanMode ==> d.scanIndex < |d.devs|
  {
    if d.flags.scanMode then d.(rom := d.devs[d.scanIndex], flags := d.flags.(addressMode := true)) else d
  }

  function ConvertSpec(d: Drv, calls: seq<Call>, searching: bool): Outcome
    requires Sized(d)
  {
    hide IssueSpec;
    var e := ForBroadcast(d);
    IssueSpec(Park(e), CONVERT_T, StWait, calls, searching)
  }

  function WaitSpec(d: Drv): Drv {
    var e := Park(d);
    e.(state := StContinue, bus := Arm(e.bus, Measurement, WaitOp(ResolutionWaitUs(d.resolution))))
  }

  function ContinueSpec(d: Drv): Drv {
    d.(state := StRequest, bus := Arm(PullUp(d.bus, false), Measurement, ResetOp))
  }

  function RequestSpec(d: Drv, calls: seq<Call>, searching: bool): Outcome
    requires Sized(d) && (d.flags.scanMode ==> d.scanIndex < MAX_DEVICES)
  {
    hide IssueSpec;
    var e := ForDevice(d);
    IssueSpec(Park(e), READ_SCRATCHPAD, StRead, calls, searching)
  }

  function ReadSpec(d: Drv): Drv {
    var b := if d.flags.parasite then PullUp(d.bus, false) else d.bus;
    d.(state := StDecode, bus := Arm(b, Measurement, ReadOp(SCRATCH_LEN)))
  }

  /** One transition of the switch. */
  function SwitchSpec(d: Drv, calls: seq<Call>, searching: bool): Outcome
    requires Sized(d)
  {
    hide StartSpec, ConvertSpec, WaitSpec, ContinueSpec, RequestSpec, ReadSpec, DecodeSpec;
    match d.state
    case StIdle => Outcome(if d.flags.scanMode then StartSpec(d) else d, None)
    case StStart => Outcome(StartSpec(d), None)
    case StConvert => ConvertSpec(d, calls, searching)
    case StWait => Outcome(WaitSpec(d), None)
    case StContinue => Outcome(ContinueSpec(d), None)
    case StRequest => RequestSpec(d, calls, searching)
    case StRead => Outcome(ReadSpec(d), None)
    case StDecode => DecodeSpec(d, calls, searching)
  }

  /** ds18b20_poll */
  function PollSpec(d: Drv, calls: seq<Call>, searching: bool): Outcome
    requires Sized(d)
  {
    hide SwitchSpec;
    if searching || !d.res.finished || !d.txn.finished || !d.bus.uif then Outcome(d, None)
    else SwitchSpec(d.(bus := Consumed(d.bus)), calls, searching)
  }

  // ---- the resolution change ----

  /** ds18b20_set_resolution_poll; it returns true when the change is over. */
  function ResolutionPollSpec(d: Drv): Drv
    requires |d.u| == CAPTURE_LEN
  {
    if d.res.finished then d
    else if d.res.phase == ResDone then
      d.(resolution := if d.res.applied then d.res.pending else d.resolution, res := d.res.(finished := true))
    else if !d.bus.uif then d
    else
      var e := d.(bus := Consumed(d.bus));
      match d.res.phase
      case ResReset =>
        if !CapturedPresence(d) then e.(res := d.res.(phase := ResDone))
        else e.(res := d.res.(phase := ResWrite), bus := Arm(e.bus, Resolution, WriteOp(d.res.slots)))
      case ResWrite => e.(res := d.res.(phase := ResDone, applied := true))
      case ResDone => e
  }

  // ---- the command transactions ----

  /** The public commands, and the request each of them makes. */
  datatype Cmd =
    | ReadRom | Thresholds(th: byte, tl: byte) | ReadScratchpad | CopyScratchpad | RecallEeprom | DetectParasite

  datatype Request = Request(command: byte, hasOut: bool, payload: seq<byte>, readBytes: nat, waitUs: nat, bare: bool)

  function RequestOf(d: Drv, c: Cmd, hasOut: bool): (r: Request)
    requires RES_MIN <= d.resolution <= RES_MAX
    ensures |r.payload| <= 3 && r.readBytes <= SCRATCH_LEN
  {
    match c
    case ReadRom => Request(READ_ROM, hasOut, [], 8, 0, true)
    case Thresholds(th, tl) => Request(WRITE_SCRATCHPAD, false, [th, tl, ConfigByte(d.resolution)], 0, 0, false)
    case ReadScratchpad => Request(READ_SCRATCHPAD, hasOut, [], SCRATCH_LEN, 0, false)
    case CopyScratchpad => Request(COPY_SCRATCHPAD, false, [], 0, EEPROM_WAIT_US, false)
    case RecallEeprom => Request(RECALL_EEPROM, false, [], 0, EEPROM_WAIT_US, false)
    case DetectParasite => Request(READ_POWER_SUPPLY, true, [], 1, 0, false)
  }

  predicate CanStart(d: Drv, searching: bool) {
    Parked(d, searching) && !d.flags.scanMode
  }

  function Latched(d: Drv, r: Request): Drv
    requires |d.txn.payload| == 3 && |r.payload| <= 3
  {
    d.(txn := d.txn.(command := r.command, hasOut := r.hasOut, payload := r.payload + d.txn.payload[|r.payload|..],
                     payloadLen := |r.payload|, readBytes := r.readBytes, waitUs := r.waitUs,
                     bare := r.bare, ok := false, finished := false))
  }

  /** txn_start */
  function TxnStartSpec(d: Drv, r: Request, searching: bool): Drv
    requires Sized(d) && |r.payload| <= 3
  {
    hide Table, CommandBytes;
    if !CanStart(d, searching) then d
    else
      var e := Latched(d, r);
      var table := Table(CommandBytes(e));
      e.(txn := e.txn.(slots := |table| - 1, phase := TxnReset), pulses := Overwrite(d.pulses, table),
         bus := Arm(PullUp(d.bus, false), Command, ResetOp))
  }

  function TxnWriteDone(e: Drv): Drv {
    if e.txn.readBytes > 0 then
      var b := if e.flags.parasite then PullUp(e.bus, false) else e.bus;
      e.(txn := e.txn.(phase := TxnRead), bus := Arm(b, Command, ReadOp(e.txn.readBytes)))
    else if e.txn.waitUs > 0 then
      var f := Park(e);
      f.(txn := e.txn.(phase := TxnWait), bus := Arm(f.bus, Command, WaitOp(e.txn.waitUs)))
    else
      var b := if e.flags.parasite then PullUp(e.bus, false) else e.bus;
      e.(txn := e.txn.(phase := TxnDone, ok := true), bus := b)
  }

  /** One transition of a transaction whose operation has completed. */
  function TxnSwitchSpec(e: Drv): Drv
    requires Sized(e)
  {
    hide Decoded, TxnWriteDone;
    match e.txn.phase
    case TxnReset =>
      if !CapturedPresence(e) then e.(txn := e.txn.(phase := TxnDone))
      else
        var f := Park(e);
        f.(txn := e.txn.(phase := TxnWrite), bus := Arm(f.bus, Command, WriteOp(e.txn.slots)))
    case TxnWrite => TxnWriteDone(e)
    case TxnRead =>
      e.(txn := e.txn.(raw := Overwrite(e.txn.raw, Decoded(e.u[..8 * e.txn.readBytes])), phase := TxnDone, ok := true))
    case TxnWait => e.(txn := e.txn.(phase := TxnDone, ok := true), bus := PullUp(e.bus, false))
    case TxnDone => e
  }

  /** txn_poll */
  function TxnPollSpec(d: Drv): Drv
    requires Sized(d)
  {
    hide TxnSwitchSpec;
    if d.txn.finished then d
    else if d.txn.phase == TxnDone then d.(txn := d.txn.(finished := true))
    else if !d.bus.uif then d
    else TxnSwitchSpec(d.(bus := Consumed(d.bus)))
  }

  /** The transaction is over once its poll has returned true. */
  predicate TxnOver(d: Drv) {
    d.txn.finished || d.txn.phase == TxnDone
  }

  /** ds18b20_read_scratchpad_poll: a valid scratchpad also tells the resolution. */
  function ScratchPollSpec(d: Drv): Drv
    requires Sized(d)
  {
    hide Crc8Of;
    var e := TxnPollSpec(d);
    if TxnOver(d) && e.txn.ok && e.txn.hasOut && |e.txn.raw| == SCRATCH_LEN
       && ByteBits(e.txn.raw[8]) == Crc8Of(e.txn.raw[..8])
    then e.(resolution := ResolutionOf(e.txn.raw[4])) else e
  }

  /** ds18b20_detect_parasite_poll */
  function DetectPollSpec(d: Drv): Drv
    requires Sized(d)
  {
    var e := TxnPollSpec(d);
    if TxnOver(d) && e.txn.ok && |e.txn.raw| == SCRATCH_LEN
    then e.(flags := e.flags.(parasite := e.txn.raw[0] % 2 == 0)) else e
  }

  // ---- arithmetic facts ----

  /** The report is the raw value in tenths, to the nearest, ties away from zero. */
  lemma TenthsNearest(lo: byte, hi: byte)
    ensures var raw, t := SignedWord(lo, hi), Tenths(lo, hi);
            && -8 <= 16 * t - 10 * raw <= 8
            && (16 * t - 10 * raw == 8 ==> raw > 0) && (16 * t - 10 * raw == -8 ==> raw < 0)
            && -20480 <= t <= 20480
  {
  }

  /** The configuration byte written for a resolution is read back as that resolution,
      and each resolution waits twice as long as the one below. */
  lemma ConfigRoundTrip(res: nat)
    requires RES_MIN <= res <= RES_MAX
    ensures ResolutionOf(ConfigByte(res)) == res
    ensures res < RES_MAX ==> ResolutionWaitUs(res + 1) == 2 * ResolutionWaitUs(res)
  {
  }
}
