/** The DS18B20 driver object: the static contexts of the driver, with the capture union and
    the shared pulse table as buffers. Every method is proved against module Ds18b20. The
    parameter `searching` is the answer of onewire_search_active. */
module Ds18b20Driver {
  import opened Bits
  import opened CrcLoops
  import opened PulseCodec
  import opened Ds18b20

  class Driver {
    var state: State
    var flags: Flags
    var scanIndex: nat
    var rom: seq<byte>
    var resolution: nat
    var res: Res
    var txn: Txn
    var devs: seq<seq<byte>>
    var count: nat
    const u: array<byte>
    const pulses: array<byte>
    var bus: Bus

    ghost predicate Valid()
      reads this, u, pulses
    {
      u != pulses && Sized(View())
    }

    ghost function View(): Drv
      reads this, u, pulses
    {
      Drv(state, flags, scanIndex, rom, resolution, res, txn, devs, count, Contents(u), Contents(pulses), bus)
    }

    /** ds18b20_init: parked at IDLE, 12 bit, external power, nothing running. */
    constructor ()
      ensures Valid() && fresh(u) && fresh(pulses)
      ensures View().bus == Bus(None, false, None, false, 0)
      ensures state == StIdle && flags == Flags(false, false, false) && res.finished && txn.finished
      ensures resolution == RES_MAX && count == 0 && scanIndex == 0
    {
      var zeros: seq<byte> := [0, 0, 0, 0, 0, 0, 0, 0];
      state, flags, scanIndex, rom, resolution := StIdle, Flags(false, false, false), 0, zeros, RES_MAX;
      res := Res(ResReset, RES_MAX, 0, false, true);
      txn := Txn(TxnReset, 0, false, [0, 0, 0], 0, 0, 0, 0, zeros + [0], false, false, true);
      devs, count := [zeros, zeros, zeros, zeros, zeros, zeros, zeros, zeros], 0;
      u := new byte[CAPTURE_LEN](_ => 0);
      pulses := new byte[TABLE_LEN](_ => 0);
      bus := Bus(None, false, None, false, 0);
    }

    // ---- hardware ----

    /** ow_op_done */
    method OpDone() returns (done: bool)
      modifies `bus
      ensures done == old(bus.uif)
      ensures bus == if done then Consumed(old(bus)) else old(bus)
    {
      done := bus.uif;
      if done {
        bus := Consumed(bus);
      }
    }

    method StrongPullup(on: bool)
      modifies `bus
      ensures bus == PullUp(old(bus), on)
    {
      bus := PullUp(bus, on);
    }

    /** ow_has_presence */
    method HasPresence() returns (present: bool)
      requires Valid()
      ensures present == CapturedPresence(View())
    {
      ContentsIs(u);
      var w0: int, w1: int, w2: int, w3: int := u[0], u[1], u[2], u[3];
      present := Present(bus.captured, w0 + 256 * w1, w2 + 256 * w3);
    }

    // ---- calls between cycles ----

    /** ds18b20_select */
    method Select(r: Option<seq<byte>>, searching: bool)
      requires Valid() && (r.Some? ==> |r.value| == 8)
      modifies `rom, `flags
      ensures Valid() && View() == SelectSpec(old(View()), r, searching)
    {
      hide Contents;
      if state != StIdle || !txn.finished || !res.finished || searching {
        return;
      }
      flags := flags.(scanMode := false);
      if r.None? {
        flags := flags.(addressMode := false);
        return;
      }
      rom := r.value;
      flags := flags.(addressMode := true);
    }

    /** ds18b20_start_measure */
    method StartMeasure(searching: bool)
      requires Valid()
      modifies `state, `bus
      ensures Valid() && View() == StartMeasureSpec(old(View()), searching)
    {
      hide Contents;
      if state != StIdle {
        return;
      }
      if searching || !res.finished || !txn.finished {
        return;
      }
      state := StStart;
      bus := Kick(bus);
    }

    /** ds18b20_scan_start */
    method ScanStart(searching: bool)
      requires Valid()
      modifies `flags, `scanIndex
      ensures Valid() && View() == ScanStartSpec(old(View()), searching)
    {
      hide Contents;
      if state != StIdle {
        return;
      }
      if searching || !res.finished || !txn.finished {
        return;
      }
      if count == 0 {
        return;
      }
      flags := flags.(scanMode := true);
      scanIndex := 0;
    }

    /** The guards of ds18b20_search_start and ds18b20_alarm_search_start: whether the
        engine may be started. */
    method SearchGuard(alarm: bool, searching: bool) returns (go: bool)
      requires Valid()
      modifies `count
      ensures Valid() && View() == SearchGuardSpec(old(View()), alarm, searching)
      ensures go == old(Parked(View(), searching))
    {
      hide Contents;
      if state != StIdle || searching || !txn.finished || !res.finished {
        return false;
      }
      if !alarm {
        count := 0;
      }
      return true;
    }

    /** search_store_sink */
    method Store(r: seq<byte>)
      requires Valid() && |r| == 8
      modifies `devs, `count
      ensures Valid() && View() == StoreSpec(old(View()), r)
    {
      hide Contents;
      if count < MAX_DEVICES {
        devs := devs[count := r];
        count := count + 1;
      }
    }

    // ---- command tables ----

    /** ow_encode_skip_rom or ow_encode_match_rom into the shared table. */
    method PutPrefix(useMatch: bool, ghost was: seq<byte>) returns (cursor: nat)
      requires Valid() && was == pulses[..]
      modifies pulses
      ensures cursor == 8 * |Prefix(View(), useMatch)|
      ensures pulses[..cursor] == Encoded(Prefix(View(), useMatch)) && pulses[cursor..] == was[cursor..]
    {
      hide Encoded;
      EmptyEncoded();
      if useMatch {
        cursor := PutBytes(pulses, 0, [], [MATCH_ROM] + rom, was);
        assert [] + ([MATCH_ROM] + rom) == [MATCH_ROM] + rom;
      } else {
        cursor := PutBytes(pulses, 0, [], [SKIP_ROM], was);
        assert [] + [SKIP_ROM] == [SKIP_ROM];
      }
    }

    /** build_addr_cmd, build_skip_cmd */
    method BuildMeasure(cmd: byte) returns (slots: nat)
      requires Valid()
      modifies pulses
      ensures slots == 8 * |MeasureBytes(old(View()), cmd)|
      ensures Contents(pulses) == Overwrite(old(Contents(pulses)), Table(MeasureBytes(old(View()), cmd)))
    {
      hide Encoded, Prefix;
      ghost var d, was := View(), pulses[..];
      slots := PutPrefix(flags.addressMode, was);
      PrefixFrame(d, View(), flags.addressMode);
      slots := PutBytes(pulses, slots, Prefix(d, d.flags.addressMode), [cmd], was);
      PutRelease(pulses, slots, MeasureBytes(d, cmd), was);
    }

    /** build_res_pulses */
    method BuildResolution(bits: nat) returns (slots: nat)
      requires Valid() && RES_MIN <= bits <= RES_MAX
      modifies pulses
      ensures slots == 8 * |ResolutionBytes(old(View()), bits)|
      ensures Contents(pulses) == Overwrite(old(Contents(pulses)), Table(ResolutionBytes(old(View()), bits)))
    {
      hide Encoded, Prefix;
      ghost var d, was := View(), pulses[..];
      var useMatch := flags.addressMode && !flags.scanMode;
      slots := PutPrefix(useMatch, was);
      PrefixFrame(d, View(), useMatch);
      slots := PutBytes(pulses, slots, Prefix(d, useMatch), [WRITE_SCRATCHPAD, 0, 0, ConfigByte(bits)], was);
      PutRelease(pulses, slots, ResolutionBytes(d, bits), was);
    }

    /** txn_build_pulses */
    method BuildCommand() returns (slots: nat)
      requires Valid()
      modifies pulses
      ensures slots == 8 * |CommandBytes(old(View()))|
      ensures Contents(pulses) == Overwrite(old(Contents(pulses)), Table(CommandBytes(old(View()))))
    {
      hide Encoded, Prefix;
      ghost var d, was := View(), pulses[..];
      EmptyEncoded();
      ghost var sent: seq<byte> := [];
      slots := 0;
      if !txn.bare {
        slots := PutPrefix(flags.addressMode && !flags.scanMode, was);
        PrefixFrame(d, View(), UseMatch(d));
        sent := Prefix(d, UseMatch(d));
      }
      slots := PutBytes(pulses, slots, sent, [txn.command], was);
      slots := PutBytes(pulses, slots, sent + [txn.command], txn.payload[..txn.payloadLen], was);
      PutRelease(pulses, slots, CommandBytes(d), was);
    }

    // ---- the resolution change ----

    /** ds18b20_set_resolution */
    method SetResolution(bits: nat, searching: bool)
      requires Valid()
      modifies this, pulses
      ensures Valid() && View() == SetResolutionSpec(old(View()), bits, searching)
    {
      hide Contents, Table, ResolutionBytes, Overwrite;
      if bits < RES_MIN || bits > RES_MAX {
        return;
      }
      if !res.finished || !txn.finished || searching || state != StIdle {
        return;
      }
      var slots := BuildResolution(bits);
      res := Res(ResReset, bits, slots, false, false);
      bus := Arm(bus, Resolution, ResetOp);
    }

    /** ds18b20_set_resolution_poll */
    method ResolutionPoll() returns (ret: bool)
      requires Valid()
      modifies `res, `resolution, `bus
      ensures Valid() && View() == ResolutionPollSpec(old(View()))
      ensures ret == old(res.finished || res.phase == ResDone)
    {
      hide Contents, CapturedPresence;
      if res.finished {
        return true;
      }
      if res.phase == ResDone {
        if res.applied {
          resolution := res.pending;
        }
        res := res.(finished := true);
        return true;
      }
      var present := HasPresence();
      var done := OpDone();
      if !done {
        return false;
      }
      match res.phase
      case ResReset =>
        if !present {
          res := res.(phase := ResDone);
        } else {
          bus := Arm(bus, Resolution, WriteOp(res.slots));
          res := res.(phase := ResWrite);
        }
        return false;
      case ResWrite =>
        res := res.(applied := true, phase := ResDone);
        return false;
      case ResDone =>
        return false;
    }

    // ---- the command transactions ----

    /** txn_start */
    method TxnStart(r: Request, searching: bool)
      requires Valid() && |r.payload| <= 3 && r.readBytes <= SCRATCH_LEN
      modifies this, pulses
      ensures Valid() && View() == TxnStartSpec(old(View()), r, searching)
    {
      hide Contents, Table, CommandBytes, Overwrite;
      if !(state == StIdle && !flags.scanMode && !searching && res.finished && txn.finished) {
        return;
      }
      txn := txn.(command := r.command, hasOut := r.hasOut, payload := r.payload + txn.payload[|r.payload|..],
                  payloadLen := |r.payload|, readBytes := r.readBytes, waitUs := r.waitUs,
                  bare := r.bare, ok := false, finished := false);
      assert View() == Latched(old(View()), r);
      var slots := BuildCommand();
      StrongPullup(false);
      txn := txn.(slots := slots, phase := TxnReset);
      bus := Arm(bus, Command, ResetOp);
    }

    /** txn_poll */
    method TxnPoll() returns (ret: bool)
      requires Valid()
      modifies `txn, `bus
      ensures Valid() && View() == TxnPollSpec(old(View()))
      ensures ret == old(TxnOver(View()))
    {
      hide Contents, TxnSwitchSpec;
      if txn.finished {
        return true;
      }
      if txn.phase == TxnDone {
        txn := txn.(finished := true);
        return true;
      }
      var done := OpDone();
      if !done {
        return false;
      }
      TxnSwitch();
      return false;
    }

    method TxnSwitch()
      requires Valid()
      modifies `txn, `bus
      ensures Valid() && View() == TxnSwitchSpec(old(View()))
    {
      hide Contents, CapturedPresence, TxnWriteDone, Decoded;
      match txn.phase
      case TxnReset =>
        var present := HasPresence();
        if !present {
          txn := txn.(phase := TxnDone);
        } else {
          if flags.parasite {
            StrongPullup(true);
          }
          bus := Arm(bus, Command, WriteOp(txn.slots));
          txn := txn.(phase := TxnWrite);
        }
      case TxnWrite =>
        FinishWrite();
      case TxnRead =>
        FinishRead();
      case TxnWait =>
        StrongPullup(false);
        txn := txn.(ok := true, phase := TxnDone);
      case TxnDone =>
    }

    method FinishWrite()
      requires Valid()
      modifies `txn, `bus
      ensures Valid() && View() == TxnWriteDone(old(View()))
    {
      hide Contents;
      if txn.readBytes > 0 {
        if flags.parasite {
          StrongPullup(false);
        }
        bus := Arm(bus, Command, ReadOp(txn.readBytes));
        txn := txn.(phase := TxnRead);
      } else if txn.waitUs > 0 {
        if flags.parasite {
          StrongPullup(true);
        }
        bus := Arm(bus, Command, WaitOp(txn.waitUs));
        txn := txn.(phase := TxnWait);
      } else {
        if flags.parasite {
          StrongPullup(false);
        }
        txn := txn.(ok := true, phase := TxnDone);
      }
    }

    /** txn_decode_read */
    method FinishRead()
      requires Valid()
      modifies `txn
      ensures Valid()
      ensures var d := old(View());
              View() == d.(txn := d.txn.(raw := Overwrite(d.txn.raw, Decoded(d.u[..8 * d.txn.readBytes])),
                                         phase := TxnDone, ok := true))
    {
      hide Contents, Decoded, Overwrite;
      var raw := DecodeReply();
      txn := txn.(raw := raw, ok := true, phase := TxnDone);
    }

    method DecodeReply() returns (reply: seq<byte>)
      requires Valid()
      ensures reply == Overwrite(txn.raw, Decoded(Contents(u)[..8 * txn.readBytes]))
    {
      hide Decoded;
      var raw := new byte[SCRATCH_LEN](i requires 0 <= i < |txn.raw| reads this => txn.raw[i]);
      ghost var before := raw[..];
      assert before == txn.raw;
      DecodePulses(raw, u, txn.readBytes);
      assert raw[..] == raw[..txn.readBytes] + raw[txn.readBytes..];
      assert u[..][..8 * txn.readBytes] == u[..8 * txn.readBytes];
      reply := raw[..];
    }

    /** ds18b20_read_rom_poll: the ROM is handed out on success. */
    method ReadRomPoll() returns (ret: bool, out: Option<seq<byte>>)
      requires Valid()
      modifies `txn, `bus
      ensures Valid() && View() == TxnPollSpec(old(View())) && ret == old(TxnOver(View()))
      ensures out == if ret && txn.ok && txn.hasOut then Some(txn.raw[..8]) else None
    {
      hide TxnPollSpec, Contents;
      ret := TxnPoll();
      out := if ret && txn.ok && txn.hasOut then Some(txn.raw[..8]) else None;
    }

    /** ds18b20_read_scratchpad_poll */
    method ReadScratchpadPoll() returns (ret: bool, out: Option<seq<byte>>)
      requires Valid()
      modifies `txn, `bus, `resolution
      ensures Valid() && View() == ScratchPollSpec(old(View())) && ret == old(TxnOver(View()))
      ensures out == if ret && txn.ok && txn.hasOut then Some(txn.raw) else None
    {
      hide TxnPollSpec, Contents, Crc8Of, ByteBits;
      ret := TxnPoll();
      out := None;
      if ret && txn.ok && txn.hasOut {
        out := Some(txn.raw);
        var crc := OnewireCrc8(txn.raw, 8);
        if ByteBits(txn.raw[8]) == crc {
          resolution := ResolutionOf(txn.raw[4]);
        }
      }
    }

    /** ds18b20_detect_parasite_poll */
    method DetectParasitePoll() returns (ret: bool)
      requires Valid()
      modifies `txn, `bus, `flags
      ensures Valid() && View() == DetectPollSpec(old(View())) && ret == old(TxnOver(View()))
    {
      hide TxnPollSpec, Contents;
      ret := TxnPoll();
      if ret && txn.ok {
        flags := flags.(parasite := txn.raw[0] % 2 == 0);
      }
    }

    // ---- the measurement machine ----

    /** ds18b20_complete with an application that calls back into the driver. */
    method Complete(calls: seq<Call>, searching: bool)
      requires Valid() && CallsOk(calls)
      modifies `state, `flags, `rom, `bus
      ensures Valid() && View() == CallbackSpec(old(View()), calls, searching)
    {
      hide Contents, SelectSpec, StartMeasureSpec;
      for i := 0 to |calls|
        invariant Valid() && View() == CallbackSpec(old(View()), calls[..i], searching)
      {
        assert calls[..i + 1][..i] == calls[..i] && calls[i] in calls;
        match calls[i]
        case CallSelect(r) => Select(r, searching);
        case CallStart => StartMeasure(searching);
      }
      assert calls[..|calls|] == calls;
    }

    method ParkBus()
      modifies `bus
      ensures View() == Park(old(View()))
    {
      hide Contents;
      if flags.parasite {
        StrongPullup(true);
      }
    }

    method ReleaseIfParasite()
      modifies `bus
      ensures bus == if flags.parasite then PullUp(old(bus), false) else old(bus)
    {
      if flags.parasite {
        StrongPullup(false);
      }
    }

    /** issue_command */
    method IssueCommand(cmd: byte, next: State, calls: seq<Call>, searching: bool) returns (report: Option<Report>)
      requires Valid() && CallsOk(calls) && (flags.scanMode ==> scanIndex < MAX_DEVICES)
      modifies this, pulses
      ensures Valid() && Outcome(View(), report) == IssueSpec(old(View()), cmd, next, calls, searching)
    {
      hide Contents, CapturedPresence, Table, MeasureBytes, Overwrite, CallbackSpec;
      ghost var d := View();
      var present := HasPresence();
      if !present {
        state := StIdle;
        report := Some(Report(scanIndex, rom, flags.addressMode, false, NoSensor));
        Complete(calls, searching);
        ParkBus();
        return;
      }
      var slots := BuildMeasure(cmd);
      bus := Arm(bus, Measurement, WriteOp(slots));
      state := next;
      report := None;
    }

    /** scan_finish_or_next */
    method FinishScanOrNext()
      requires Valid() && (flags.scanMode ==> scanIndex < MAX_DEVICES)
      modifies `scanIndex, `state, `bus
      ensures Valid() && View() == FinishOrNext(old(View()))
    {
      hide Contents;
      if !flags.scanMode {
        ParkBus();
        return;
      }
      scanIndex := scanIndex + 1;
      if scanIndex < count {
        state := StContinue;
        bus := Arm(bus, Measurement, WaitOp(DEVICE_GAP_US));
      } else {
        state := StIdle;
        ParkBus();
      }
    }

    method StartCycle()
      requires Valid()
      modifies `state, `bus
      ensures Valid() && View() == StartSpec(old(View()))
    {
      hide Contents;
      ReleaseIfParasite();
      bus := Arm(bus, Measurement, ResetOp);
      state := StConvert;
    }

    method Convert(calls: seq<Call>, searching: bool) returns (report: Option<Report>)
      requires Valid() && CallsOk(calls)
      modifies this, pulses
      ensures Valid() && Outcome(View(), report) == ConvertSpec(old(View()), calls, searching)
    {
      hide Contents, IssueSpec;
      ghost var d := View();
      if flags.scanMode {
        scanIndex := 0;
        flags := flags.(addressMode := false);
        assert View() == d.(scanIndex := 0, flags := d.flags.(addressMode := false));
      }
      ParkBus();
      report := IssueCommand(CONVERT_T, StWait, calls, searching);
    }

    method WaitConversion()
      requires Valid() && state == StWait
      modifies `state, `bus
      ensures Valid() && View() == WaitSpec(old(View()))
    {
      hide Contents;
      ParkBus();
      bus := Arm(bus, Measurement, WaitOp(ResolutionWaitUs(resolution)));
      state := StContinue;
    }

    method ResetAgain()
      requires Valid() && state == StContinue
      modifies `state, `bus
      ensures Valid() && View() == ContinueSpec(old(View()))
    {
      hide Contents;
      StrongPullup(false);
      bus := Arm(bus, Measurement, ResetOp);
      state := StRequest;
    }

    method RequestScratchpad(calls: seq<Call>, searching: bool) returns (report: Option<Report>)
      requires Valid() && CallsOk(calls) && state == StRequest
      modifies this, pulses
      ensures Valid() && Outcome(View(), report) == RequestSpec(old(View()), calls, searching)
    {
      hide Contents, IssueSpec;
      ghost var d := View();
      if flags.scanMode {
        rom := devs[scanIndex];
        flags := flags.(addressMode := true);
        assert View() == d.(rom := d.devs[d.scanIndex], flags := d.flags.(addressMode := true));
      }
      ParkBus();
      report := IssueCommand(READ_SCRATCHPAD, StRead, calls, searching);
    }

    method ReadBack()
      requires Valid() && state == StRead
      modifies `state, `bus
      ensures Valid() && View() == ReadSpec(old(View()))
    {
      hide Contents;
      ReleaseIfParasite();
      bus := Arm(bus, Measurement, ReadOp(SCRATCH_LEN));
      state := StDecode;
    }

    /** The checks on the scratchpad at the start of the union, in the driver's order. */
    method JudgeScratchpad() returns (v: Value)
      requires Valid()
      ensures v == Judge(flags.addressMode, u[..SCRATCH_LEN])
    {
      hide Crc8Of, ByteBits;
      ghost var s := u[..SCRATCH_LEN];
      if flags.addressMode {
        var i := 0;
        while i < SCRATCH_LEN && u[i] == 0xFF
          invariant 0 <= i <= SCRATCH_LEN && forall k | 0 <= k < i :: s[k] == 0xFF
        {
          i := i + 1;
        }
        if i == SCRATCH_LEN {
          return NoSensor;
        }
        assert s[i] != 0xFF;
      }
      if u[5] != 0xFF || u[7] != 0x10 {
        return CrcFail;
      }
      var crc := OnewireCrc8(u[..], 8);
      assert u[..][..8] == s[..8];
      if ByteBits(u[8]) == crc {
        return Temp(Tenths(u[0], u[1]));
      }
      return CrcFail;
    }

    method Decode(calls: seq<Call>, searching: bool) returns (report: Option<Report>)
      requires Valid() && CallsOk(calls) && state == StDecode
      modifies this, u
      ensures Valid() && Outcome(View(), report) == DecodeSpec(old(View()), calls, searching)
    {
      hide Contents, Judge, Decoded, CallbackSpec, FinishOrNext, Overwrite;
      ghost var d := View();
      var v := DecodeAndJudge();
      report := Some(Report(scanIndex, rom, flags.addressMode, true, v));
      Complete(calls, searching);
      CallbackKeepsScan(Judged(d), calls, searching);
      FinishScanOrNext();
    }

    /** Everything the DECODE state does before it reports. */
    method DecodeAndJudge() returns (v: Value)
      requires Valid() && state == StDecode
      modifies `state, `resolution, u
      ensures Valid() && View() == Judged(old(View()))
      ensures v == Judge(flags.addressMode, Decoded(old(View()).u))
    {
      hide Contents, Judge, Decoded;
      ghost var d := View();
      ContentsIs(u);
      assert u[..][..CAPTURE_LEN] == u[..];
      DecodeInPlace(u, SCRATCH_LEN);
      ContentsIs(u);
      assert u[..] == u[..SCRATCH_LEN] + u[SCRATCH_LEN..];
      assert Contents(u) == Overwrite(d.u, Decoded(d.u));
      v := JudgeScratchpad();
      if !flags.scanMode {
        state := StIdle;
      }
      if v.Temp? {
        resolution := ResolutionOf(u[4]);
      }
    }

    /** ds18b20_poll */
    method Poll(calls: seq<Call>, searching: bool) returns (report: Option<Report>)
      requires Valid() && CallsOk(calls)
      modifies this, u, pulses
      ensures Valid() && Outcome(View(), report) == PollSpec(old(View()), calls, searching)
    {
      hide Contents, SwitchSpec;
      report := None;
      if searching || !res.finished || !txn.finished {
        return;
      }
      var done := OpDone();
      if !done {
        return;
      }
      report := Switch(calls, searching);
    }

    method Switch(calls: seq<Call>, searching: bool) returns (report: Option<Report>)
      requires Valid() && CallsOk(calls)
      modifies this, u, pulses
      ensures Valid() && Outcome(View(), report) == SwitchSpec(old(View()), calls, searching)
    {
      hide Contents, StartSpec, ConvertSpec, WaitSpec, ContinueSpec, RequestSpec, ReadSpec, DecodeSpec, Sized;
      report := None;
      match state
      case StIdle =>
        if flags.scanMode {
          StartCycle();
        }
      case StStart => StartCycle();
      case StConvert => report := Convert(calls, searching);
      case StWait => WaitConversion();
      case StContinue => ResetAgain();
      case StRequest => report := RequestScratchpad(calls, searching);
      case StRead => ReadBack();
      case StDecode => report := Decode(calls, searching);
    }
  }

  lemma PrefixFrame(d: Drv, e: Drv, useMatch: bool)
    requires |d.rom| == 8 && e.rom == d.rom
    ensures Prefix(e, useMatch) == Prefix(d, useMatch)
  {
  }

  /** In a scan round the driver is not IDLE while it reports, so the callback changes
      nothing; in a single cycle it can only clear the scan flag. */
  lemma {:induction false} CallbackKeepsScan(d: Drv, calls: seq<Call>, searching: bool)
    ensures var e := CallbackSpec(d, calls, searching);
            && (d.state != StIdle ==> e == d)
            && (e.flags.scanMode ==> d.flags.scanMode) && e.scanIndex == d.scanIndex
  {
    if calls != [] {
      CallbackKeepsScan(d, calls[..|calls| - 1], searching);
    }
  }
}
