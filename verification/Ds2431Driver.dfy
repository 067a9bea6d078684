/** The DS2431 driver object: the context of module Ds2431 with its buffers in place. */
module Ds2431Driver {
  import opened Bits
  import opened CrcLoops
  import opened PulseCodec
  import opened Ds2431

  /** ds2431_scratchpad_data_len */
  method ScratchpadDataLen(frame: array<byte>) returns (n: nat)
    requires frame.Length == FRAME_CRC
    ensures n == DataLen(frame[..])
  {
    var last: int, first: int := frame[2] % 8 + 1, frame[0] % 8;
    n := if last <= first then 0 else last - first;
  }

  /** ds2431_scratchpad_crc_ok */
  method ScratchpadCrcOk(frame: array<byte>, n: nat) returns (ok: bool)
    requires frame.Length == FRAME_CRC && n <= SCRATCH_SIZE
    ensures ok == FrameCrcOk(frame[..], n)
  {
    hide Crc16Of, ByteBits;
    var crcIn := [READ_SCRATCHPAD];
    for i := 0 to 3 + n
      invariant crcIn == [READ_SCRATCHPAD] + frame[..i]
    {
      crcIn := crcIn + [frame[i]];
    }
    var crc := OnewireCrc16(crcIn, |crcIn|);
    assert crcIn[..|crcIn|] == crcIn && frame[..][..3 + n] == frame[..3 + n];
    ok := ByteBits(frame[3 + n]) + ByteBits(frame[4 + n]) == Complement(crc);
  }

  class Driver {
    var phase: Phase
    var flags: Flags
    var command: byte
    var addrLo: byte
    var addrHi: byte
    var len: nat
    var plen: nat
    var es: byte
    var payload: seq<byte>
    var rom: seq<byte>
    const raw: array<byte>
    const u: array<byte>
    var armed: BusOp
    var pullup: bool

    ghost predicate Valid()
      reads this, raw, u
    {
      raw != u && Sized(View())
    }

    ghost function View(): Ctx
      reads this, raw, u
    {
      Ctx(phase, flags, command, addrLo, addrHi, len, plen, es,
          payload, rom, Contents(raw), Contents(u), armed, pullup)
    }

    /** ds2431_init: parked, nothing pending, external power. */
    constructor ()
      ensures Valid() && fresh(raw) && fresh(u)
      ensures phase == PhIdle && !pullup && flags == Flags(false, false, false, true, false, false)
    {
      phase, armed := PhIdle, NoOp;
      flags, pullup := Flags(false, false, false, true, false, false), false;
      command, addrLo, addrHi, es, len, plen := 0, 0, 0, 0, 0, 0;
      payload, rom := [0, 0, 0, 0, 0, 0, 0, 0], [0, 0, 0, 0, 0, 0, 0, 0];
      raw := new byte[FRAME_CRC](_ => 0);
      u := new byte[CMD_SLOTS + 1](_ => 0);
    }

    /** ds2431_start */
    method StartOperation(cmd: byte, searching: bool) returns (scheduled: bool)
      requires Valid()
      modifies `command, `flags, `pullup, `phase, `armed
      ensures Valid() && View() == StartSpec(old(View()), cmd, searching)
      ensures scheduled == old(CanStart(View(), searching))
    {
      hide Contents;
      if !(phase == PhIdle || phase == PhDone) || searching {
        return false;
      }
      command := cmd;
      flags := flags.(ok := false, finished := false, echo := false);
      pullup := false;
      phase := PhReset;
      armed := ResetOp;
      return true;
    }

    /** ds2431_read_memory: the request fields are latched before the start is tried. */
    method ReadMemory(addr: nat, n: nat, searching: bool)
      requires Valid()
      modifies this
      ensures Valid() && View() == ReadMemorySpec(old(View()), addr, n, searching)
    {
      hide Contents;
      if n < 1 || n > READ_PASS || addr >= EEPROM_SIZE || addr + n > EEPROM_SIZE {
        return;
      }
      addrLo, addrHi, len, plen := addr % 256, addr / 256, n, 0;
      var _ := StartOperation(READ_MEMORY, searching);
    }

    /** ds2431_write_scratchpad: scheduled first, so that a rejected call latches nothing. */
    method WriteScratchpad(addr: nat, data: seq<byte>, searching: bool) returns (scheduled: bool)
      requires Valid()
      modifies this
      ensures Valid() && View() == WriteScratchpadSpec(old(View()), addr, data, searching)
      ensures scheduled == old(WriteAccepted(View(), addr, |data|, searching))
    {
      hide Contents;
      var n := |data|;
      if n < 1 || n > SCRATCH_SIZE || addr >= EEPROM_SIZE || addr + n > EEPROM_SIZE || addr % 8 != 0 {
        return false;
      }
      scheduled := StartOperation(WRITE_SCRATCHPAD, searching);
      if !scheduled {
        return;
      }
      LatchWrite(addr, data);
    }

    /** Target address, expected end offset and payload of a scheduled write. */
    method LatchWrite(addr: nat, data: seq<byte>)
      requires Valid() && 1 <= |data| <= SCRATCH_SIZE && addr < EEPROM_SIZE
      modifies `addrLo, `addrHi, `es, `len, `plen, `payload, `flags
      ensures var d := old(View());
              View() == d.(addrLo := addr % 256, addrHi := addr / 256, es := (addr + |data| - 1) % 8, len := 0,
                           plen := |data|, payload := data + d.payload[|data|..],
                           flags := d.flags.(pending := true))
    {
      hide Contents;
      addrLo, addrHi, es, len, plen := addr % 256, addr / 256, (addr + |data| - 1) % 8, 0, |data|;
      payload := data + payload[|data|..];
      flags := flags.(pending := true);
    }

    /** ds2431_read_scratchpad */
    method ReadScratchpad(searching: bool)
      requires Valid()
      modifies this
      ensures Valid() && View() == ReadScratchpadSpec(old(View()), searching)
    {
      hide Contents;
      ghost var c := View();
      len, plen := FRAME_CRC, 0;
      assert View() == c.(len := FRAME_CRC, plen := 0);
      var _ := StartOperation(READ_SCRATCHPAD, searching);
      ghost var d := View();
      flags := flags.(echo := true);
      assert View() == d.(flags := d.flags.(echo := true));
    }

    /** ds2431_copy_scratchpad */
    method CopyScratchpad(searching: bool)
      requires Valid()
      modifies this
      ensures Valid() && View() == CopyScratchpadSpec(old(View()), searching)
    {
      hide Contents;
      if !flags.pending {
        return;
      }
      len, plen := 1, 0;
      var _ := StartOperation(COPY_SCRATCHPAD, searching);
    }

    /** ds2431_select */
    method Select(r: Option<seq<byte>>, searching: bool)
      requires Valid() && (r.Some? ==> |r.value| == 8)
      modifies `rom, `flags
      ensures Valid() && View() == SelectSpec(old(View()), r, searching)
    {
      hide Contents;
      if !(phase == PhIdle || phase == PhDone) || searching {
        return;
      }
      if r.None? {
        flags := flags.(addressMode := false, pending := false);
        return;
      }
      rom := r.value;
      flags := flags.(addressMode := true, pending := false);
    }

    // ---- the command table ----

    /** The addressing prefix at the start of the union. */
    method PutPrefix(ghost was: seq<byte>) returns (next: nat)
      requires Valid() && u[..] == was
      modifies u
      ensures next == 8 * |Prefix(old(View()))| && u[..next] == Encoded(Prefix(old(View()))) && u[next..] == was[next..]
    {
      hide Encoded;
      EmptyEncoded();
      assert [] + Prefix(View()) == Prefix(View());
      if flags.addressMode {
        next := PutBytes(u, 0, [], [MATCH_ROM] + rom, was);
      } else {
        next := PutBytes(u, 0, [], [SKIP_ROM], was);
      }
    }

    /** ds2431_build */
    method Build() returns (slots: nat)
      requires Valid()
      modifies u
      ensures slots == 8 * |CommandBytes(old(View()))|
      ensures Contents(u) == Overwrite(old(Contents(u)), Encoded(CommandBytes(old(View()))) + [RELEASE_PULSE])
    {
      hide Encoded, Prefix;
      ghost var c := View();
      ghost var was := u[..];
      var p := PutPrefix(was);
      ghost var sent := Prefix(c);
      p := PutBytes(u, p, sent, [command], was);
      sent := sent + [c.command];
      if command != READ_SCRATCHPAD {
        p := PutBytes(u, p, sent, [addrLo], was);
        p := PutBytes(u, p, sent + [c.addrLo], [addrHi], was);
        assert sent + [c.addrLo] + [c.addrHi] == sent + [c.addrLo, c.addrHi];
        sent := sent + [c.addrLo, c.addrHi];
      }
      if command == COPY_SCRATCHPAD {
        p := PutBytes(u, p, sent, [es], was);
        sent := sent + [c.es];
      } else {
        p := PutBytes(u, p, sent, payload[..plen], was);
        sent := sent + c.payload[..c.plen];
      }
      assert sent == CommandBytes(c);
      slots := p;
      PutRelease(u, slots, sent, was);
    }

    // ---- polling ----

    /** ds2431_poll */
    method Poll(done: bool, captured: nat, capture: seq<byte>) returns (ret: bool)
      requires Valid() && |capture| <= u.Length
      modifies this, raw, u
      ensures Valid() && View() == PollSpec(old(View()), done, captured, capture)
      ensures ret == old(flags.finished || phase == PhDone)
    {
      hide Contents, ResetDone, CmdDone, ReadDone, WaitDone;
      if flags.finished {
        return true;
      }
      if phase == PhDone {
        flags := flags.(finished := true);
        return true;
      }
      if !done {
        return false;
      }
      ret := false;
      StoreCapture(u, capture);
      match phase
      case PhReset => FinishReset(captured);
      case PhCmd => FinishCommand();
      case PhRead => FinishRead();
      case PhWait => FinishWait();
      case _ =>
    }

    method FinishReset(captured: nat)
      requires Valid()
      modifies `phase, `armed, `pullup, u
      ensures raw != u && View() == ResetDone(old(View()), captured)
    {
      hide Contents, Encoded, Present;
      ghost var c := View();
      assert Contents(u) == u[..] by { ContentsIs(u); }
      var w0: int, w1: int, w2: int, w3: int := u[0], u[1], u[2], u[3];
      if !Present(captured, w0 + 256 * w1, w2 + 256 * w3) {
        phase := PhDone;
        return;
      }
      if flags.parasite {
        pullup := true;
      }
      var slots := Build();
      armed := WriteOp(slots);
      phase := PhCmd;
    }

    method FinishCommand()
      requires Valid()
      modifies `phase, `armed, `pullup, `flags
      ensures View() == CmdDone(old(View()))
    {
      hide Contents;
      if command == COPY_SCRATCHPAD {
        armed := WaitOp(TPROG_US);
        phase := PhWait;
      } else if len > 0 {
        if flags.parasite {
          pullup := false;
        }
        armed := ReadOp(len);
        phase := PhRead;
      } else {
        if flags.parasite {
          pullup := false;
        }
        flags := flags.(ok := true);
        phase := PhDone;
      }
    }

    method FinishWait()
      requires Valid()
      modifies `phase, `armed, `pullup
      ensures View() == WaitDone(old(View()))
    {
      hide Contents;
      pullup := false;
      armed := ReadOp(len);
      phase := PhRead;
    }

    method FinishRead()
      requires Valid()
      modifies `phase, `flags, raw
      ensures View() == ReadDone(old(View()))
    {
      hide Contents, ReadSucceeds, Decoded, Overwrite;
      ghost var c := View();
      DecodeReply();
      var good := CheckReply(c);
      if good {
        flags := flags.(ok := true);
      }
      phase := PhDone;
    }

    method DecodeReply()
      requires Valid()
      modifies raw
      ensures Contents(raw) == Overwrite(old(Contents(raw)), Decoded(old(Contents(u))[..8 * len]))
    {
      hide Decoded;
      ghost var was := raw[..];
      DecodePulses(raw, u, len);
      assert raw[..] == raw[..len] + raw[len..] == raw[..len] + was[len..];
      assert u[..][..8 * len] == u[..8 * len];
    }

    /** The checks of the READ phase, in the order the driver makes them. */
    method CheckReply(ghost c: Ctx) returns (good: bool)
      requires Valid() && |c.payload| == 8
      requires c.command == command && c.flags == flags && c.payload == payload
      requires c.addrLo == addrLo && c.addrHi == addrHi && c.es == es
      ensures good == ReadSucceeds(c, Contents(raw))
    {
      hide FrameCrcOk;
      if command == COPY_SCRATCHPAD {
        return raw[0] == COPY_STATUS_OK;
      }
      if command == READ_SCRATCHPAD {
        var n := ScratchpadDataLen(raw);
        if n == 0 {
          return false;
        }
        var crcOk := ScratchpadCrcOk(raw, n);
        if !crcOk {
          return false;
        }
        if flags.echo && flags.pending {
          if raw[0] != addrLo || raw[1] != addrHi || raw[2] % 8 != es {
            return false;
          }
          if (raw[2] / 32) % 2 != 0 {
            return false;
          }
          var i := 0;
          while i < n && raw[3 + i] == payload[i]
            invariant 0 <= i <= n && raw[3..3 + i] == payload[..i]
          {
            i := i + 1;
          }
          if i < n {
            assert raw[..][3..3 + n][i] != payload[..n][i];
            return false;
          }
        }
      }
      return true;
    }

    /** ds2431_read_memory_poll */
    method ReadMemoryPoll(done: bool, captured: nat, capture: seq<byte>)
      returns (ret: bool, out: Option<seq<byte>>)
      requires Valid() && |capture| <= u.Length
      modifies this, raw, u
      ensures Valid() && View() == PollSpec(old(View()), done, captured, capture)
      ensures ret == old(flags.finished || phase == PhDone)
      ensures out == if ret && View().flags.ok then Some(MemoryResult(View())) else None
    {
      hide PollSpec;
      ret := Poll(done, captured, capture);
      out := None;
      if ret && flags.ok {
        var bytes := [];
        for i := 0 to len
          invariant bytes == raw[..i]
        {
          bytes := bytes + [raw[i]];
        }
        out := Some(bytes);
      }
    }

    /** ds2431_read_scratchpad_poll: on success the caller receives the valid window,
        zero-filled to the frame length. */
    method ReadScratchpadPoll(done: bool, captured: nat, capture: seq<byte>)
      returns (ret: bool, out: Option<seq<byte>>)
      requires Valid() && |capture| <= u.Length
      modifies this, raw, u
      ensures Valid() && View() == PollSpec(old(View()), done, captured, capture)
      ensures ret == old(flags.finished || phase == PhDone)
      ensures out == if ret && View().flags.ok then Some(ScratchpadResult(View())) else None
    {
      hide PollSpec;
      ret := Poll(done, captured, capture);
      out := None;
      if ret && flags.ok {
        var n := ScratchpadDataLen(raw);
        var valid := 3 + n;
        var frame := [];
        for i := 0 to FRAME
          invariant |frame| == i
          invariant forall k | 0 <= k < i :: frame[k] == if k < valid then raw[k] else 0
        {
          frame := frame + [if i < valid then raw[i] else 0];
        }
        assert frame == ScratchpadResult(View());
        out := Some(frame);
      }
    }
  }
}
