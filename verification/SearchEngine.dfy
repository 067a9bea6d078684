/** The non-blocking Search ROM engine: one hardware operation per poll. */
module SearchEngine {
  import opened Bits
  import opened Gf2Crc
  import opened CrcLoops
  import opened PulseCodec
  import opened SearchTree

  const ROM_BITS := 64
  const SEARCH_ROM: byte := 0xF0
  const ALARM_SEARCH: byte := 0xEC

  datatype Phase = Reset | Cmd | ReadPair | WriteRead | WriteDir | Done

  /** The hardware operation a poll arms. */
  datatype Op =
    | ResetOp
    | CommandOp(code: byte)
    | PairOp
    | MergedOp(direction: bool)
    | WriteOp(direction: bool)

  /** What a poll sees: the completion flag, the captured edges, both capture buffers,
      and the answer the sink would give. */
  datatype Input = Input(done: bool, captured: nat, pair: (nat, nat), pulse3: (nat, nat, nat), sinkStops: bool)

  datatype Search = Search(
    phase: Phase, command: byte, family: byte, rom: Rom, idBit: nat,
    lastDiscrepancy: nat, lastZero: nat, found: nat, max: nat,
    finished: bool, prevValid: bool, prevLeaf: Rom, hasSink: bool)

  /** The outcome of one call: new state, returned flag, armed operation, and the ROM
      handed to the sink. */
  datatype Outcome = Outcome(s: Search, ret: bool, armed: Option<Op>, report: Option<Rom>)

  predicate RomCrcOk(rom: Rom) {
    Crc(G8, rom) == Zeros(8)
  }

  function FamilyOf(rom: Rom): byte {
    ByteOf(rom[..8])
  }

  /** The search accepts a leaf: CRC valid and of the requested family, if any. */
  predicate Accepts(family: byte, rom: Rom) {
    RomCrcOk(rom) && (family == 0 || FamilyOf(rom) == family)
  }

  // ---- specification of one poll ----

  /** Positions stay inside the 64-bit ROM in every phase that uses them. */
  predicate Ok(s: Search) {
    && CommonOk(s)
    && (s.phase == ReadPair ==> s.idBit == 1)
    && (s.phase == WriteRead ==> 1 <= s.idBit < ROM_BITS)
    && (s.phase == WriteDir ==> s.idBit == ROM_BITS)
    && (s.phase != Done && !s.finished ==> s.found < s.max)
  }

  predicate CommonOk(s: Search) {
    s.lastZero <= ROM_BITS && s.lastDiscrepancy <= ROM_BITS && s.found <= s.max < 256
  }

  function Choose(s: Search, id: bool, cmp: bool): bool
    requires 1 <= s.idBit <= ROM_BITS
  {
    if id != cmp then id
    else if s.idBit < s.lastDiscrepancy then s.rom[s.idBit - 1]
    else s.idBit == s.lastDiscrepancy
  }

  function AdvanceSpec(s: Search, id: bool, cmp: bool): (o: Outcome)
    requires 1 <= s.idBit <= ROM_BITS
    ensures CommonOk(s) && s.found < s.max ==> Ok(o.s)
    ensures !o.ret && o.report == None
  {
    if id && cmp then Outcome(s.(phase := Done), false, None, None)
    else
      var dir := Choose(s, id, cmp);
      var z := if id == cmp && !dir then s.idBit else s.lastZero;
      var s' := s.(rom := s.rom[s.idBit - 1 := dir], lastZero := z);
      if s.idBit < ROM_BITS
      then Outcome(s'.(phase := WriteRead), false, Some(MergedOp(dir)), None)
      else Outcome(s'.(phase := WriteDir), false, Some(WriteOp(dir)), None)
  }

  /** The walk that just ended at s.rom is the last one. */
  predicate Stops(s: Search, sinkStops: bool) {
    || !RomCrcOk(s.rom)
    || (Accepts(s.family, s.rom) && ((s.hasSink && sinkStops) || s.found + 1 >= s.max))
    || s.lastZero == 0
    || (s.prevValid && s.prevLeaf == s.rom)
  }

  function LeafSpec(s: Search, sinkStops: bool): (o: Outcome)
    ensures CommonOk(s) && s.found < s.max ==> Ok(o.s)
  {
    hide RomCrcOk, FamilyOf;
    var accepted := Accepts(s.family, s.rom);
    var s' := s.(idBit := s.idBit + 1, lastDiscrepancy := s.lastZero,
                 found := if accepted then s.found + 1 else s.found);
    var report := if accepted then Some(s.rom) else None;
    if Stops(s, sinkStops) then Outcome(s'.(phase := Done), false, None, report)
    else Outcome(s'.(phase := Reset, prevValid := true, prevLeaf := s.rom), false, Some(ResetOp), report)
  }

  function PollSpec(s: Search, i: Input): (o: Outcome)
    requires Ok(s)
    ensures Ok(o.s)
  {
    if s.finished then Outcome(s, true, None, None)
    else if s.phase == Done then Outcome(s.(finished := true), true, None, None)
    else if !i.done then Outcome(s, false, None, None)
    else match s.phase
      case Reset =>
        if !Present(i.captured, i.pair.0, i.pair.1) then Outcome(s.(phase := Done), false, None, None)
        else Outcome(s.(phase := Cmd), false,
                     Some(CommandOp(if s.command == SEARCH_ROM then SEARCH_ROM else ALARM_SEARCH)), None)
      case Cmd => Outcome(s.(phase := ReadPair, idBit := 1, lastZero := 0), false, Some(PairOp), None)
      case ReadPair => AdvanceSpec(s, BitFromPulse(i.pair.0), BitFromPulse(i.pair.1))
      case WriteRead =>
        AdvanceSpec(s.(idBit := s.idBit + 1), BitFromPulse(i.pulse3.1), BitFromPulse(i.pulse3.2))
      case WriteDir => LeafSpec(s, i.sinkStops)
  }

  function StartSpec(s: Search, hasSink: bool, max: nat, command: byte, family: byte): (o: Outcome)
    requires Ok(s) && max < 256
    ensures Ok(o.s)
  {
    if !s.finished then Outcome(s, false, None, None)
    else
      var clean := s.(rom := Zeros(64), hasSink := hasSink, max := max, found := 0, finished := false,
                      prevValid := false, lastDiscrepancy := 0, command := command, family := family);
      if max == 0 then Outcome(clean.(phase := Done), false, None, None)
      else Outcome(clean.(phase := Reset), false, Some(ResetOp), None)
  }

  // ---- ROM bytes and bits ----

  function SetBit(b: byte, k: nat, v: bool): byte
    requires k < 8
  {
    ByteOf(ByteBits(b)[k := v])
  }

  /** Setting bit k of byte j through a mask is setting bit 8j+k of the ROM. */
  lemma {:induction false} SetBitInBits(bytes: seq<byte>, j: nat, k: nat, v: bool)
    requires j < |bytes| && k < 8
    ensures BitsOf(bytes[j := SetBit(bytes[j], k, v)]) == BitsOf(bytes)[8 * j + k := v]
    ensures BitsOf(bytes)[8 * j + k] == ByteBits(bytes[j])[k]
  {
    hide ByteBits;
    var n := |bytes| - 1;
    var front := bytes[..n];
    var changed := bytes[j := SetBit(bytes[j], k, v)];
    if j < n {
      SetBitInBits(front, j, k, v);
      assert changed[..n] == front[j := SetBit(front[j], k, v)];
    } else {
      assert changed[..n] == front;
    }
  }

  // ---- the engine ----

  ghost function BytesBits(a: array<byte>): Rom
    requires a.Length == 8
    reads a
  {
    BitsOf(a[..])
  }

  class Engine {
    var phase: Phase
    var command: byte
    var family: byte
    const rom: array<byte>
    var idBit: nat
    var lastDiscrepancy: nat
    var lastZero: nat
    var found: nat
    var max: nat
    var finished: bool
    var prevValid: bool
    const prevLeaf: array<byte>
    var hasSink: bool

    ghost predicate Valid()
      reads this, rom, prevLeaf
    {
      rom.Length == 8 && prevLeaf.Length == 8 && rom != prevLeaf && Ok(View())
    }

    ghost function View(): Search
      reads this, rom, prevLeaf
      requires rom.Length == 8 && prevLeaf.Length == 8
    {
      Search(phase, command, family, BytesBits(rom), idBit, lastDiscrepancy, lastZero,
             found, max, finished, prevValid, BytesBits(prevLeaf), hasSink)
    }

    /** onewire_init: no search is running. */
    constructor ()
      ensures Valid() && finished && fresh(rom) && fresh(prevLeaf)
    {
      phase := Done;
      command, family := SEARCH_ROM, 0;
      rom := new byte[8](_ => 0);
      prevLeaf := new byte[8](_ => 0);
      idBit, lastDiscrepancy, lastZero, found, max := 0, 0, 0, 0, 0;
      finished, prevValid, hasSink := true, false, false;
    }

    method ClearRom()
      requires rom.Length == 8 == prevLeaf.Length && rom != prevLeaf
      modifies rom
      ensures BytesBits(rom) == Zeros(64) && BytesBits(prevLeaf) == old(BytesBits(prevLeaf))
    {
      for i := 0 to 8
        invariant forall k | 0 <= k < i :: rom[k] == 0
      {
        rom[i] := 0;
      }
      ZeroRom(rom[..]);
      assert prevLeaf[..] == old(prevLeaf[..]);
    }

    /** memcpy(prev_leaf, rom) */
    method RememberLeaf()
      requires rom.Length == 8 && prevLeaf.Length == 8 && rom != prevLeaf
      modifies prevLeaf
      ensures BytesBits(prevLeaf) == BytesBits(rom)
    {
      for i := 0 to 8
        invariant prevLeaf[..i] == rom[..i]
      {
        prevLeaf[i] := rom[i];
      }
      assert prevLeaf[..] == prevLeaf[..8] == rom[..8] == rom[..];
    }

    /** onewire_search_start */
    method Start(sink: bool, maxDevices: nat, cmd: byte, fam: byte) returns (armed: Option<Op>)
      requires Valid() && maxDevices < 256
      modifies this, rom
      ensures Valid()
      ensures var o := StartSpec(old(View()), sink, maxDevices, cmd, fam);
              View() == o.s && armed == o.armed
    {
      hide BitsOf, ByteBits, Zeros, BytesBits, Ok, CommonOk;
      armed := None;
      if !finished {
        return;
      }
      ClearRom();
      SetUp(sink, maxDevices, cmd, fam);
      if maxDevices == 0 {
        phase := Done;
      } else {
        phase := Reset;
        armed := Some(ResetOp);
      }
      assert View() == StartSpec(old(View()), sink, maxDevices, cmd, fam).s;
    }

    method SetUp(sink: bool, maxDevices: nat, cmd: byte, fam: byte)
      requires rom.Length == 8 == prevLeaf.Length
      modifies this
      ensures View() == old(View()).(hasSink := sink, max := maxDevices, found := 0, finished := false,
                                     prevValid := false, lastDiscrepancy := 0, command := cmd, family := fam)
    {
      hide BytesBits;
      hasSink, max, found := sink, maxDevices, 0;
      finished, prevValid := false, false;
      lastDiscrepancy := 0;
      command, family := cmd, fam;
    }

    /** onewire_search_advance_bit */
    method AdvanceBit(id: bool, cmp: bool) returns (armed: Option<Op>)
      requires rom.Length == 8 && prevLeaf.Length == 8 && rom != prevLeaf && 1 <= idBit <= ROM_BITS
      modifies `phase, `lastZero, rom
      ensures var o := AdvanceSpec(old(View()), id, cmp); View() == o.s && armed == o.armed
    {
      hide BitsOf, ByteBits, SetBit, Ok;
      var byteIdx, bit := (idBit - 1) / 8, (idBit - 1) % 8;
      armed := None;
      if id && cmp {
        phase := Done;
        return;
      }
      var direction;
      SetBitInBits(rom[..], byteIdx, bit, false);
      if id != cmp {
        direction := id;
      } else if idBit < lastDiscrepancy {
        direction := ByteBits(rom[byteIdx])[bit];
        if !direction {
          lastZero := idBit;
        }
      } else {
        direction := idBit == lastDiscrepancy;
        if !direction {
          lastZero := idBit;
        }
      }
      SetBitInBits(rom[..], byteIdx, bit, direction);
      ghost var before := rom[..];
      rom[byteIdx] := SetBit(rom[byteIdx], bit, direction);
      assert rom[..] == before[byteIdx := SetBit(before[byteIdx], bit, direction)];
      if idBit < ROM_BITS {
        armed := Some(MergedOp(direction));
        phase := WriteRead;
      } else {
        armed := Some(WriteOp(direction));
        phase := WriteDir;
      }
    }

    /** onewire_search_poll */
    method Poll(i: Input) returns (ret: bool, armed: Option<Op>, report: Option<seq<byte>>)
      requires Valid()
      modifies this, rom, prevLeaf
      ensures Valid()
      ensures var o := PollSpec(old(View()), i);
              && View() == o.s && ret == o.ret && armed == o.armed
              && (report.Some? <==> o.report.Some?)
              && (report.Some? ==> |report.value| == 8 && BitsOf(report.value) == o.report.value)
    {
      hide ByteBits, BitsOf, BytesBits, AdvanceSpec, LeafSpec, Present, BitFromPulse;
      ret, armed, report := false, None, None;
      if finished {
        return true, None, None;
      }
      if phase == Done {
        finished := true;
        return true, None, None;
      }
      if !i.done {
        return;
      }
      match phase
      case Reset =>
        if !Present(i.captured, i.pair.0, i.pair.1) {
          phase := Done;
          return;
        }
        armed := Some(CommandOp(if command == SEARCH_ROM then SEARCH_ROM else ALARM_SEARCH));
        phase := Cmd;
      case Cmd =>
        idBit := 1;
        lastZero := 0;
        armed := Some(PairOp);
        phase := ReadPair;
      case ReadPair =>
        armed := AdvanceBit(BitFromPulse(i.pair.0), BitFromPulse(i.pair.1));
      case WriteRead =>
        idBit := idBit + 1;
        armed := AdvanceBit(BitFromPulse(i.pulse3.1), BitFromPulse(i.pulse3.2));
      case WriteDir =>
        armed, report := FinishLeaf(i.sinkStops);
    }

    /** The last direction was written: judge the leaf, then stop or walk again. */
    method FinishLeaf(sinkStops: bool) returns (armed: Option<Op>, report: Option<seq<byte>>)
      requires rom.Length == 8 && prevLeaf.Length == 8 && rom != prevLeaf
      modifies this, prevLeaf
      ensures var o := LeafSpec(old(View()), sinkStops);
              && View() == o.s && armed == o.armed && !o.ret
              && (report.Some? <==> o.report.Some?)
              && (report.Some? ==> |report.value| == 8 && BitsOf(report.value) == o.report.value)
    {
      hide ByteBits, BitsOf, BytesBits, FamilyOf, Ok, CommonOk, RomCrcOk, Accepts, Stops;
      armed := None;
      var stop;
      stop, report := JudgeLeaf(sinkStops);
      if stop {
        phase := Done;
      } else {
        RememberLeaf();
        prevValid := true;
        armed := Some(ResetOp);
        phase := Reset;
      }
    }

    method JudgeLeaf(sinkStops: bool) returns (stop: bool, report: Option<seq<byte>>)
      requires rom.Length == 8 && prevLeaf.Length == 8
      modifies `idBit, `lastDiscrepancy, `found
      ensures stop == Stops(old(View()), sinkStops)
      ensures report == if Accepts(family, BytesBits(rom)) then Some(rom[..]) else None
      ensures BitsOf(rom[..]) == BytesBits(rom)
      ensures idBit == old(idBit) + 1 && lastDiscrepancy == lastZero
      ensures found == old(found) + if Accepts(family, BytesBits(rom)) then 1 else 0
    {
      hide ByteBits, BitsOf, BytesBits, FamilyOf, RomCrcOk;
      var crc := OnewireCrc8(rom[..], 8);
      LeafFacts(rom, prevLeaf);
      report := None;
      idBit := idBit + 1;
      lastDiscrepancy := lastZero;
      if crc != Zeros(8) {
        return true, None;
      }
      if family == 0 || rom[0] == family {
        found := found + 1;
        report := Some(rom[..]);
        if hasSink && sinkStops {
          return true, report;
        }
        if found >= max {
          return true, report;
        }
      }
      if lastDiscrepancy == 0 {
        return true, report;
      }
      stop := prevValid && prevLeaf[..] == rom[..];
    }
  }

  lemma {:induction false} ZeroRom(bytes: seq<byte>)
    requires forall k | 0 <= k < |bytes| :: bytes[k] == 0
    ensures BitsOf(bytes) == Zeros(8 * |bytes|)
  {
    hide ByteBits;
    if bytes != [] {
      ZeroRom(bytes[..|bytes| - 1]);
      ZeroByte();
    }
  }

  lemma LeafFacts(rom: array<byte>, prevLeaf: array<byte>)
    requires rom.Length == 8 && prevLeaf.Length == 8
    ensures rom[..][..8] == rom[..] && BitsOf(rom[..]) == BytesBits(rom)
    ensures RomCrcOk(BytesBits(rom)) <==> Crc8Of(rom[..]) == Zeros(8)
    ensures FamilyOf(BytesBits(rom)) == rom[0]
    ensures prevLeaf[..] == rom[..] <==> BytesBits(prevLeaf) == BytesBits(rom)
  {
    hide FamilyOf, BitsOf;
    FirstByte(rom[..]);
    SameLeaf(prevLeaf[..], rom[..]);
  }

  lemma ZeroByte()
    ensures ByteBits(0) == Zeros(8)
  {
  }

  lemma FirstByte(bytes: seq<byte>)
    requires |bytes| == 8
    ensures FamilyOf(BitsOf(bytes)) == bytes[0]
  {
    BitsOfAt(bytes, 0);
    ByteBitsInjective(FamilyOf(BitsOf(bytes)), bytes[0]);
  }

  lemma SameLeaf(a: seq<byte>, b: seq<byte>)
    ensures a == b <==> BitsOf(a) == BitsOf(b)
  {
    if BitsOf(a) == BitsOf(b) {
      BitsOfInjective(a, b);
    }
  }
}
