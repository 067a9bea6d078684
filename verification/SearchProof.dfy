/** The search engine against a bus: every run over an honest wired-AND bus reports the
    accepted devices once each, in address order; every run at all stays bounded. */
module SearchProof {
  import opened Bits
  import opened Gf2Crc
  import opened PulseCodec
  import opened SearchTree
  import opened SearchEngine

  /** The devices on the bus, and those of them in alarm. */
  datatype Bus = Bus(devices: set<Rom>, alarmed: set<Rom>)

  /** Who takes part once a command byte has been heard: everybody after Search ROM, the devices in
      alarm after Alarm Search. */
  ghost function Answering(bus: Bus, code: byte): set<Rom> {
    if code == 0xF0 then bus.devices else if code == 0xEC then bus.alarmed * bus.devices else {}
  }

  /** Whom a search looks for; any command but Search ROM is sent as Alarm Search. */
  ghost function Asked(bus: Bus, command: byte): set<Rom> {
    Answering(bus, if command == 0xF0 then 0xF0 else 0xEC)
  }

  /** A ROM a search of a family (0: any) is to report: CRC-8 valid, the family code first. */
  ghost predicate Wanted(family: byte, r: Rom) {
    Crc(G8, r) == Zeros(8) && (family == 0 || ByteBits(family) <= r)
  }

  lemma AcceptsWanted(family: byte, r: Rom)
    ensures Accepts(family, r) <==> Wanted(family, r)
  {
    if ByteBits(family) <= r {
      assert r[..8] == ByteBits(family);
      ByteBitsInjective(FamilyOf(r), family);
    }
  }

  /** Engine and bus together: the operation under way, the command code and the
      directions the devices have heard since, the operations armed so far, the leaves
      walked, the ROMs handed to the sink, and whether the sink asked to stop. */
  datatype Sys = Sys(s: Search, pending: Option<Op>, code: byte, path: seq<bool>, armed: nat,
                     visited: seq<Rom>, reported: seq<Rom>, sinkAsked: bool)

  ghost function Hear(y: Sys, op: Op): Sys {
    var y' := y.(pending := Some(op), armed := y.armed + 1);
    match op
    case CommandOp(code) => y'.(code := code, path := [])
    case MergedOp(b) => y'.(path := y.path + [b])
    case WriteOp(b) => y'.(path := y.path + [b])
    case _ => y'
  }

  /** One poll of the engine. */
  ghost function Next(y: Sys, i: Input): (y': Sys)
    requires Ok(y.s)
    ensures Ok(y'.s)
  {
    var o := PollSpec(y.s, i);
    var leaf := y.s.phase == WriteDir && i.done && !y.s.finished;
    var y' := y.(s := o.s,
                 visited := if leaf then y.visited + [y.s.rom] else y.visited,
                 reported := if o.report.Some? then y.reported + [o.report.value] else y.reported,
                 sinkAsked := y.sinkAsked || (o.report.Some? && y.s.hasSink && i.sinkStops));
    if o.armed.Some? then Hear(y', o.armed.value) else y'
  }

  /** The system right after onewire_search_start on an idle engine. */
  ghost function Launch(s: Search, hasSink: bool, max: nat, command: byte, family: byte): (y: Sys)
    requires Ok(s) && s.finished && max < 256
    ensures Ok(y.s)
  {
    var o := StartSpec(s, hasSink, max, command, family);
    var y := Sys(o.s, None, 0, [], 0, [], [], false);
    if o.armed.Some? then Hear(y, o.armed.value) else y
  }

  ghost function Run(y: Sys, inputs: seq<Input>): (y': Sys)
    requires Ok(y.s)
    ensures Ok(y'.s)
  {
    if inputs == [] then y else Next(Run(y, inputs[..|inputs| - 1]), inputs[|inputs| - 1])
  }

  // ---- the honest bus ----

  /** Wired AND of the next address bit (or of its complement) over the devices that
      still take part; with nobody left the pull-up reads 1. */
  ghost predicate IdBit(d: set<Rom>, p: seq<bool>)
    requires |p| < 64
  {
    forall r | r in d && p <= r :: r[|p|]
  }

  ghost predicate CmpBit(d: set<Rom>, p: seq<bool>)
    requires |p| < 64
  {
    forall r | r in d && p <= r :: !r[|p|]
  }

  /** The captures a completed operation leaves on this bus. */
  ghost predicate Honest(bus: Bus, y: Sys, i: Input) {
    i.done && y.pending.Some? ==>
      match y.pending.value
      case ResetOp => Present(i.captured, i.pair.0, i.pair.1) <==> bus.devices != {}
      case PairOp =>
        |y.path| < 64 ==>
          && BitFromPulse(i.pair.0) == IdBit(Answering(bus, y.code), y.path)
          && BitFromPulse(i.pair.1) == CmpBit(Answering(bus, y.code), y.path)
      case MergedOp(_) =>
        |y.path| < 64 ==>
          && BitFromPulse(i.pulse3.1) == IdBit(Answering(bus, y.code), y.path)
          && BitFromPulse(i.pulse3.2) == CmpBit(Answering(bus, y.code), y.path)
      case _ => true
  }

  ghost predicate HonestRun(bus: Bus, y: Sys, inputs: seq<Input>)
    requires Ok(y.s)
  {
    inputs == [] ||
    (HonestRun(bus, y, inputs[..|inputs| - 1])
     && Honest(bus, Run(y, inputs[..|inputs| - 1]), inputs[|inputs| - 1]))
  }

  lemma BitsSayWhoFollows(d: set<Rom>, p: seq<bool>)
    requires |p| < 64
    ensures IdBit(d, p) <==> !Reaches(d, p + [false])
    ensures CmpBit(d, p) <==> !Reaches(d, p + [true])
  {
    forall r: Rom | r in d && p <= r ensures p + [r[|p|]] <= r {
      TakesBranch(p, r);
    }
  }

  // ---- the invariant ----

  ghost function Prev(y: Sys): Rom {
    if y.visited == [] then Zeros(64) else y.visited[|y.visited| - 1]
  }

  ghost function LastTurn(d: set<Rom>, y: Sys): nat {
    if y.visited == [] then 0 else LastZero(d, Prev(y))
  }

  ghost function Accepted(family: byte, v: seq<Rom>): (w: seq<Rom>)
    ensures |w| <= |v|
  {
    if v == [] then []
    else
      var n := |v| - 1;
      Accepted(family, v[..n]) + (if Accepts(family, v[n]) then [v[n]] else [])
  }

  /** n directions of the current walk are decided. */
  ghost predicate Walking(d: set<Rom>, y: Sys, n: nat) {
    && n <= 64
    && y.path == Path(d, LastTurn(d, y), Prev(y), n)
    && y.s.rom[..n] == y.path
    && (y.visited != [] ==> y.s.rom[n..] == Prev(y)[n..])
    && y.s.lastZero == LastZero(d, y.path)
  }

  /** Between and inside walks everything seen so far was accepted or skipped, and a
      discrepancy is left to turn at. */
  ghost predicate Unfinished(d: set<Rom>, y: Sys) {
    && !y.sinkAsked
    && (forall r | r in y.visited :: RomCrcOk(r))
    && y.s.lastDiscrepancy == LastTurn(d, y)
    && (y.visited == [] ==> !y.s.prevValid)
    && (y.visited != [] ==> LastTurn(d, y) > 0 && y.s.prevLeaf == Prev(y))
  }

  /** Why a search ended. The equal-leaf guard is not among the reasons. */
  ghost predicate Ended(d: set<Rom>, y: Sys) {
    || (d == {} && y.visited == [])
    || y.sinkAsked
    || |y.reported| == y.s.max
    || (y.visited != [] && !RomCrcOk(Prev(y)))
    || (y.visited != [] && LastZero(d, Prev(y)) == 0)
  }

  /** Only the last walk can have ended at a ROM with a bad CRC. */
  ghost predicate FrontValid(v: seq<Rom>) {
    forall k | 0 <= k < |v| - 1 :: RomCrcOk(v[k])
  }

  ghost predicate Inv(bus: Bus, y: Sys): (holds: bool)
    ensures holds ==> Ok(y.s)
  {
    var d := Asked(bus, y.s.command);
    var walks := 67 * |y.visited|;
    && Ok(y.s)
    && Enumerates(d, y.visited) && FrontValid(y.visited)
    && y.reported == Accepted(y.s.family, y.visited)
    && y.s.found == |y.reported|
    && (y.s.finished ==> y.s.phase == Done)
    && (y.s.phase != Done ==> Unfinished(d, y))
    && match y.s.phase
       case Reset =>
         y.pending == Some(ResetOp) && y.armed == walks + 1 && (y.visited != [] ==> y.s.rom == Prev(y))
       case Cmd =>
         && y.pending.Some? && y.pending.value.CommandOp? && y.armed == walks + 2
         && Answering(bus, y.code) == d && y.path == [] && (y.visited != [] ==> y.s.rom == Prev(y))
       case ReadPair =>
         y.pending == Some(PairOp) && y.armed == walks + 3 && Answering(bus, y.code) == d && Walking(d, y, 0)
       case WriteRead =>
         && y.pending.Some? && y.pending.value.MergedOp? && y.armed == walks + 3 + y.s.idBit
         && Answering(bus, y.code) == d && d != {} && Walking(d, y, y.s.idBit)
       case WriteDir =>
         && y.pending.Some? && y.pending.value.WriteOp? && y.armed == walks + 67
         && d != {} && Walking(d, y, 64)
       case Done => Ended(d, y) && y.armed <= if y.visited == [] then 3 else walks
  }

  lemma LaunchEstablishes(bus: Bus, s: Search, hasSink: bool, max: nat, command: byte, family: byte)
    requires Ok(s) && s.finished && max < 256
    ensures Inv(bus, Launch(s, hasSink, max, command, family))
  {
  }

  /** The direction the engine chooses is the direction of the walk. */
  lemma ChoiceIsDirection(d: set<Rom>, y: Sys, s: Search, id: bool, cmp: bool)
    requires 1 <= s.idBit <= 64 && |y.path| == s.idBit - 1
    requires s.lastDiscrepancy == LastTurn(d, y)
    requires s.idBit < LastTurn(d, y) ==> s.rom[s.idBit - 1] == Prev(y)[s.idBit - 1]
    requires id == IdBit(d, y.path) && cmp == CmpBit(d, y.path) && !(id && cmp)
    ensures Choose(s, id, cmp) == Direction(d, LastTurn(d, y), Prev(y), y.path)
    ensures id == cmp <==> Conflict(d, y.path)
  {
    BitsSayWhoFollows(d, y.path);
  }

  lemma UnfinishedKept(d: set<Rom>, y: Sys, y': Sys)
    requires Unfinished(d, y) && y'.visited == y.visited && y'.sinkAsked == y.sinkAsked
    requires y'.s.lastDiscrepancy == y.s.lastDiscrepancy && y'.s.prevValid == y.s.prevValid
    requires y'.s.prevLeaf == y.s.prevLeaf
    ensures Unfinished(d, y')
  {
    hide LastZero, RomCrcOk;
  }

  lemma LastTurnOf(d: set<Rom>, y: Sys)
    requires Unfinished(d, y)
    ensures y.s.lastDiscrepancy == LastTurn(d, y)
  {
  }

  /** One more direction is decided: the walk, the ROM and last_zero all advance. */
  lemma WalkAdvances(d: set<Rom>, y: Sys, s: Search, id: bool, cmp: bool, y': Sys)
    requires 1 <= s.idBit <= 64 && Walking(d, y, s.idBit - 1) && Unfinished(d, y)
    requires s == y.s.(idBit := s.idBit)
    requires id == IdBit(d, y.path) && cmp == CmpBit(d, y.path) && !(id && cmp)
    requires var o := AdvanceSpec(s, id, cmp);
             o.armed.Some? && y' == Hear(y.(s := o.s), o.armed.value)
    ensures Walking(d, y', s.idBit) && y'.s.idBit == s.idBit && Unfinished(d, y')
  {
    hide Path, LastZero, Direction, IdBit, CmpBit, Conflict, Ok, CommonOk, Unfinished, Walking, Choose, RomCrcOk,
         FamilyOf;
    LastTurnOf(d, y);
    UnfinishedKept(d, y, y');
    WalkingMeans(d, y, s.idBit - 1);
    ChoiceIsDirection(d, y, s, id, cmp);
    var dir := Choose(s, id, cmp);
    assert y'.path == y.path + [dir];
    WalkingStep(d, y, y', s.idBit - 1, dir);
  }

  lemma WalkingMeans(d: set<Rom>, y: Sys, n: nat)
    requires Walking(d, y, n)
    ensures n <= 64 && |y.path| == n
    ensures y.visited != [] && n < 64 ==> y.s.rom[n] == Prev(y)[n]
    ensures y.visited == [] ==> LastTurn(d, y) == 0
  {
    hide Path, LastZero;
    if y.visited != [] && n < 64 {
      assert y.s.rom[n..][0] == Prev(y)[n..][0];
    }
  }

  lemma WalkingStep(d: set<Rom>, y: Sys, y': Sys, n: nat, dir: bool)
    requires n < 64 && Walking(d, y, n) && dir == Direction(d, LastTurn(d, y), Prev(y), y.path)
    requires y'.visited == y.visited && y'.path == y.path + [dir] && y'.s.rom == y.s.rom[n := dir]
    requires y'.s.lastZero == if !dir && Conflict(d, y.path) then n + 1 else y.s.lastZero
    ensures Walking(d, y', n + 1)
  {
    hide Path, LastZero, Direction, Conflict;
    PathStep(d, LastTurn(d, y), Prev(y), n);
    LastZeroStep(d, y.path, dir);
    RomStep(y.s.rom, n, dir, y.path, Prev(y));
  }

  lemma PathStep(d: set<Rom>, ld: nat, prev: Rom, n: nat)
    requires n < 64
    ensures var p := Path(d, ld, prev, n); Path(d, ld, prev, n + 1) == p + [Direction(d, ld, prev, p)]
  {
  }

  lemma LastZeroStep(d: set<Rom>, p: seq<bool>, dir: bool)
    ensures LastZero(d, p + [dir]) == if !dir && Conflict(d, p) then |p| + 1 else LastZero(d, p)
  {
    assert (p + [dir])[..|p|] == p;
  }

  lemma RomStep(rom: Rom, n: nat, dir: bool, p: seq<bool>, prev: Rom)
    requires n < 64 && rom[..n] == p
    ensures rom[n := dir][..n + 1] == p + [dir]
    ensures rom[n..] == prev[n..] ==> rom[n := dir][n + 1..] == prev[n + 1..]
  {
  }

  /** Nobody answered: there is no device at all. */
  lemma NobodyAnswers(d: set<Rom>, y: Sys, n: nat)
    requires n < 64 && Walking(d, y, n) && IdBit(d, y.path) && CmpBit(d, y.path)
    ensures d == {}
  {
    BitsSayWhoFollows(d, y.path);
    NextReaches(d, y.path);
    if d != {} {
      PathReaches(d, LastTurn(d, y), Prev(y), n);
    }
  }

  lemma AcceptedGrows(family: byte, v: seq<Rom>, leaf: Rom)
    ensures Accepted(family, v + [leaf]) == Accepted(family, v) + (if Accepts(family, leaf) then [leaf] else [])
  {
    hide Accepts;
    assert (v + [leaf])[..|v|] == v;
  }

  lemma WalkedLeaf(d: set<Rom>, y: Sys)
    requires d != {} && Enumerates(d, y.visited) && Walking(d, y, 64) && Unfinished(d, y)
    ensures Enumerates(d, y.visited + [y.s.rom]) && y.s.rom in d
    ensures y.s.lastZero == LastZero(d, y.s.rom)
    ensures !(y.s.prevValid && y.s.prevLeaf == y.s.rom)
  {
    hide Path, LastZero;
    assert y.s.rom[..64] == y.s.rom;
    EnumerationGrows(d, y.visited, Prev(y));
    var v := y.visited + [y.s.rom];
    assert y.s.rom == v[|y.visited|] && y.s.rom in v;
    if y.visited != [] {
      assert Less(v[|y.visited| - 1], v[|y.visited|]);
      LessIrreflexive(y.s.rom);
    }
  }

  lemma LeafPreserves(bus: Bus, y: Sys, i: Input)
    requires Inv(bus, y) && y.s.phase == WriteDir && i.done
    ensures Inv(bus, Next(y, i))
  {
    hide Path, LastZero, RomCrcOk, FamilyOf, Enumerates, IdBit, CmpBit, Walking, Accepted, CommonOk;
    var d := Asked(bus, y.s.command);
    var y' := Next(y, i);
    WalkedLeaf(d, y);
    AcceptedGrows(y.s.family, y.visited, y.s.rom);
    assert Prev(y') == y.s.rom;
    assert forall r | r in y'.visited :: r in y.visited || r == y.s.rom;
  }

  /** Every poll over an honest bus keeps the invariant. */
  lemma PollPreserves(bus: Bus, y: Sys, i: Input)
    requires Inv(bus, y) && Honest(bus, y, i)
    ensures Inv(bus, Next(y, i))
  {
    hide Path, LastZero, RomCrcOk, FamilyOf, Enumerates, IdBit, CmpBit, Choose, Accepted, Walking;
    var d := Asked(bus, y.s.command);
    var y' := Next(y, i);
    if y.s.finished || y.s.phase == Done || !i.done {
    } else {
      match y.s.phase
      case Reset => ResetPreserves(bus, y, i);
      case Cmd => CmdPreserves(bus, y, i);
      case ReadPair => PairPreserves(bus, y, i);
      case WriteRead => MergedPreserves(bus, y, i);
      case WriteDir => LeafPreserves(bus, y, i);
    }
  }

  lemma ResetPreserves(bus: Bus, y: Sys, i: Input)
    requires Inv(bus, y) && Honest(bus, y, i) && i.done && y.s.phase == Reset
    ensures Inv(bus, Next(y, i))
  {
    hide Path, LastZero, RomCrcOk, FamilyOf, Enumerates, IdBit, CmpBit, Accepted, Walking;
    if bus.devices == {} {
      assert Asked(bus, y.s.command) == {};
      NothingWalked(y.visited);
    }
  }

  lemma CmdPreserves(bus: Bus, y: Sys, i: Input)
    requires Inv(bus, y) && i.done && y.s.phase == Cmd
    ensures Inv(bus, Next(y, i))
  {
    hide RomCrcOk, FamilyOf, Enumerates, IdBit, CmpBit, Accepted;
    var y' := Next(y, i);
    assert y'.s.rom[..0] == [] && (y.visited != [] ==> y'.s.rom[0..] == Prev(y)[0..]);
  }

  lemma PairPreserves(bus: Bus, y: Sys, i: Input)
    requires Inv(bus, y) && Honest(bus, y, i) && i.done && y.s.phase == ReadPair
    ensures Inv(bus, Next(y, i))
  {
    hide Path, LastZero, RomCrcOk, FamilyOf, IdBit, CmpBit, Accepted, Choose, BitFromPulse, Enumerates;
    var d := Asked(bus, y.s.command);
    var id, cmp := BitFromPulse(i.pair.0), BitFromPulse(i.pair.1);
    if id && cmp {
      NobodyAnswers(d, y, 0);
      NothingWalked(y.visited);
    } else {
      WalkAdvances(d, y, y.s, id, cmp, Next(y, i));
      SomebodyAnswers(d, y.path);
    }
  }

  lemma MergedPreserves(bus: Bus, y: Sys, i: Input)
    requires Inv(bus, y) && Honest(bus, y, i) && i.done && y.s.phase == WriteRead
    ensures Inv(bus, Next(y, i))
  {
    hide Inv, Honest, Next, BitFromPulse;
    SomebodyStays(bus, y, i);
    AnsweredMerged(bus, y, i);
  }

  /** Nobody can fall silent in the middle of a walk. */
  lemma SomebodyStays(bus: Bus, y: Sys, i: Input)
    requires Inv(bus, y) && Honest(bus, y, i) && i.done && y.s.phase == WriteRead
    ensures !(BitFromPulse(i.pulse3.1) && BitFromPulse(i.pulse3.2))
  {
    hide Path, LastZero, RomCrcOk, FamilyOf, IdBit, CmpBit, Accepted, Choose, BitFromPulse, Enumerates, Unfinished;
    if BitFromPulse(i.pulse3.1) && BitFromPulse(i.pulse3.2) {
      NobodyAnswers(Asked(bus, y.s.command), y, y.s.idBit);
    }
  }

  /** What the system looks like behind an answered merged pass. */
  lemma MergedStep(y: Sys, i: Input)
    requires Ok(y.s) && i.done && y.s.phase == WriteRead && !y.s.finished
    requires !(BitFromPulse(i.pulse3.1) && BitFromPulse(i.pulse3.2))
    ensures var n := y.s.idBit + 1;
            var o := AdvanceSpec(y.s.(idBit := n), BitFromPulse(i.pulse3.1), BitFromPulse(i.pulse3.2));
            var y' := Next(y, i);
            && o.armed.Some? && y' == Hear(y.(s := o.s), o.armed.value)
            && y'.pending == o.armed && y'.armed == y.armed + 1 && y'.code == y.code && y'.visited == y.visited
            && y'.reported == y.reported && y'.s.found == y.s.found && !y'.s.finished
            && y'.s.command == y.s.command && y'.s.family == y.s.family
            && (if n < 64 then y'.s.phase == WriteRead && o.armed.value.MergedOp?
                else y'.s.phase == WriteDir && o.armed.value.WriteOp?)
  {
    hide Choose, BitFromPulse;
  }

  lemma AnsweredMerged(bus: Bus, y: Sys, i: Input)
    requires Inv(bus, y) && Honest(bus, y, i) && i.done && y.s.phase == WriteRead
    requires !(BitFromPulse(i.pulse3.1) && BitFromPulse(i.pulse3.2))
    ensures Inv(bus, Next(y, i))
  {
    hide RomCrcOk, FamilyOf, IdBit, CmpBit, Accepted, BitFromPulse, Enumerates, Unfinished, Walking, AdvanceSpec, Next,
         Hear;
    var id, cmp := BitFromPulse(i.pulse3.1), BitFromPulse(i.pulse3.2);
    MergedStep(y, i);
    WalkingMeans(Asked(bus, y.s.command), y, y.s.idBit);
    WalkAdvances(Asked(bus, y.s.command), y, y.s.(idBit := y.s.idBit + 1), id, cmp, Next(y, i));
  }

  lemma NothingWalked(v: seq<Rom>)
    ensures Enumerates({}, v) ==> v == []
  {
    if v != [] {
      assert v[0] in v;
    }
  }

  lemma SomebodyAnswers(d: set<Rom>, p: seq<bool>)
    requires |p| < 64 && !(IdBit(d, p) && CmpBit(d, p))
    ensures d != {}
  {
  }

  lemma {:induction false} RunPreserves(bus: Bus, y: Sys, inputs: seq<Input>)
    requires Inv(bus, y) && HonestRun(bus, y, inputs)
    ensures Inv(bus, Run(y, inputs))
    ensures SameRequest(y.s, Run(y, inputs).s)
  {
    hide Inv, Honest, Next;
    if inputs != [] {
      var n := |inputs| - 1;
      RunPreserves(bus, y, inputs[..n]);
      PollPreserves(bus, Run(y, inputs[..n]), inputs[n]);
      PollKeepsRequest(Run(y, inputs[..n]), inputs[n]);
    }
  }

  /** The parameters a search was started with. */
  predicate SameRequest(s: Search, t: Search) {
    s.family == t.family && s.max == t.max && s.command == t.command && s.hasSink == t.hasSink
  }

  /** What a poll can do, case by case: which phase follows, and that it arms an
      operation exactly when a completed one leads on. */
  ghost predicate PollShape(s: Search, i: Input, o: Outcome) {
    && SameRequest(s, o.s)
    && (o.armed.Some? <==> i.done && !s.finished && s.phase != Done && o.s.phase != Done)
    && (o.report.Some? ==> i.done && !s.finished && s.phase == WriteDir)
    && o.s.found == s.found + (if o.report.Some? then 1 else 0)
    && (if s.finished then o.s == s
        else if s.phase == Done then o.s == s.(finished := true)
        else if !i.done then o.s == s
        else
          && !o.s.finished
          && (o.s.phase == Done ||
              match s.phase
              case Reset => o.s.phase == Cmd
              case Cmd => o.s.phase == ReadPair
              case ReadPair => o.s.phase == WriteRead && o.s.idBit == s.idBit
              case WriteRead =>
                o.s.idBit == s.idBit + 1 && o.s.phase == if s.idBit + 1 < 64 then WriteRead else WriteDir
              case WriteDir =>
                && o.s.phase == Reset && o.s.found < s.max
                && (s.family == 0 ==> o.report.Some?)))
  }

  lemma AdvanceShape(s: Search, id: bool, cmp: bool)
    requires 1 <= s.idBit <= 64
    ensures var o := AdvanceSpec(s, id, cmp);
            && SameRequest(s, o.s) && o.s.found == s.found && o.s.finished == s.finished && o.s.idBit == s.idBit
            && (o.armed.Some? <==> o.s.phase != Done)
            && (o.s.phase == Done || o.s.phase == if s.idBit < 64 then WriteRead else WriteDir)
  {
    hide Choose;
  }

  lemma LeafShape(s: Search, sinkStops: bool)
    requires s.found < s.max && s.phase == WriteDir
    ensures var o := LeafSpec(s, sinkStops);
            && SameRequest(s, o.s) && o.s.found == s.found + (if o.report.Some? then 1 else 0)
            && o.s.finished == s.finished && (o.armed.Some? <==> o.s.phase != Done)
            && (o.s.phase == Done ||
                (o.s.phase == Reset && o.s.found < s.max && (s.family == 0 ==> o.report.Some?)))
  {
    hide RomCrcOk, FamilyOf;
  }

  lemma PollHasShape(s: Search, i: Input)
    requires Ok(s)
    ensures PollShape(s, i, PollSpec(s, i))
  {
    hide AdvanceSpec, LeafSpec, Present, BitFromPulse;
    if !s.finished && i.done {
      match s.phase
      case ReadPair => AdvanceShape(s, BitFromPulse(i.pair.0), BitFromPulse(i.pair.1));
      case WriteRead => AdvanceShape(s.(idBit := s.idBit + 1), BitFromPulse(i.pulse3.1), BitFromPulse(i.pulse3.2));
      case WriteDir => LeafShape(s, i.sinkStops);
      case _ =>
    }
  }

  lemma PollKeepsRequest(y: Sys, i: Input)
    requires Ok(y.s)
    ensures SameRequest(y.s, Next(y, i).s)
  {
    hide PollSpec;
    PollHasShape(y.s, i);
  }

  // ---- main theorems ----

  lemma {:induction false} AcceptedMembers(family: byte, v: seq<Rom>)
    ensures forall r :: r in Accepted(family, v) <==> r in v && Accepts(family, r)
  {
    hide Accepts;
    if v != [] {
      var n := |v| - 1;
      AcceptedMembers(family, v[..n]);
      assert v == v[..n] + [v[n]];
    }
  }

  lemma {:induction false} AcceptedAscending(family: byte, v: seq<Rom>)
    requires Ascending(v)
    ensures Ascending(Accepted(family, v))
    ensures Accepted(family, v) != [] ==>
              var w := Accepted(family, v);
              w[|w| - 1] == v[|v| - 1] || Less(w[|w| - 1], v[|v| - 1])
  {
    hide Accepts, Less;
    if v != [] {
      var n := |v| - 1;
      var front := v[..n];
      AcceptedAscending(family, front);
      AcceptedMembers(family, front);
      var w := Accepted(family, front);
      forall i | 0 <= i < |w| ensures Less(w[i], v[n]) {
        assert w[i] in w;
        var j :| 0 <= j < n && front[j] == w[i];
        assert Less(v[j], v[n]);
      }
    }
  }

  ghost function WantedOf(d: set<Rom>, family: byte): set<Rom> {
    set r | r in d && Wanted(family, r)
  }

  lemma AcceptedEnumerates(d: set<Rom>, family: byte, v: seq<Rom>)
    requires Enumerates(d, v)
    ensures Enumerates(WantedOf(d, family), Accepted(family, v))
  {
    hide Accepts, Less, Ascending, Wanted;
    var w := Accepted(family, v);
    AcceptedMembers(family, v);
    AcceptedAscending(family, v);
    forall r ensures Accepts(family, r) <==> Wanted(family, r) {
      AcceptsWanted(family, r);
    }
    forall r | r in WantedOf(d, family)
      ensures r in w || w == [] || Less(w[|w| - 1], r)
    {
      if r !in v && w != [] && w[|w| - 1] != v[|v| - 1] {
        LessTransitive(w[|w| - 1], v[|v| - 1], r);
      }
    }
  }

  /** A device with a bad CRC below r. */
  ghost predicate SpoiledBelow(d: set<Rom>, r: Rom) {
    exists b :: b in d && Crc(G8, b) != Zeros(8) && Less(b, r)
  }

  /** The search of any bus reports the smallest wanted devices, each once and in order, and at most
      max. When it has finished and neither the limit nor the sink cut it short, it has reported
      exactly those below which no device has a bad CRC (a walk that ends at one ends the search):
      on a bus of valid ROMs, all of them. */
  lemma SearchEnumerates(bus: Bus, s: Search, hasSink: bool, max: nat, command: byte, family: byte,
                         inputs: seq<Input>)
    requires Ok(s) && s.finished && max < 256
    requires HonestRun(bus, Launch(s, hasSink, max, command, family), inputs)
    ensures var d := Asked(bus, command);
            var y := Run(Launch(s, hasSink, max, command, family), inputs);
            && Enumerates(WantedOf(d, family), y.reported)
            && |y.reported| <= max
            && (y.s.finished && !y.sinkAsked && |y.reported| < max ==>
                  forall r :: r in y.reported <==> r in d && Wanted(family, r) && !SpoiledBelow(d, r))
  {
    hide Path, LastZero, Accepts, Less, RomCrcOk, FamilyOf, Launch, HonestRun, Run, Ascending, Wanted, SpoiledBelow;
    var y0 := Launch(s, hasSink, max, command, family);
    LaunchEstablishes(bus, s, hasSink, max, command, family);
    LaunchRequest(s, hasSink, max, command, family);
    RunPreserves(bus, y0, inputs);
    var d, y := Asked(bus, command), Run(y0, inputs);
    AcceptedEnumerates(d, family, y.visited);
    AcceptedMembers(family, y.visited);
    if y.s.finished && !y.sinkAsked && |y.reported| < max {
      assert Ended(d, y);
      forall r ensures r in y.reported <==> r in d && Wanted(family, r) && !SpoiledBelow(d, r) {
        AcceptsWanted(family, r);
        WalkedUnspoiled(d, y, r);
        WalkedAll(d, y, r);
      }
    }
  }

  /** What was walked has no bad ROM below it. */
  lemma WalkedUnspoiled(d: set<Rom>, y: Sys, r: Rom)
    requires Enumerates(d, y.visited) && FrontValid(y.visited)
    ensures r in y.visited ==> r in d && !SpoiledBelow(d, r)
  {
    hide Less, Crc, FrontValid, Ascending;
    var v := y.visited;
    if r in v {
      var n :| 0 <= n < |v| && v[n] == r;
      AscendingLast(v, n);
      forall b | b in d && Crc(G8, b) != Zeros(8) ensures !Less(b, r) {
        BadIsLast(v, b);
        if b !in v {
          LessTransitiveOrSame(r, v[|v| - 1], b);
          LessAntisymmetric(r, b);
        } else if r != b {
          LessAntisymmetric(r, b);
        } else {
          LessIrreflexive(r);
        }
      }
    }
  }

  lemma BadIsLast(v: seq<Rom>, b: Rom)
    requires FrontValid(v) && Crc(G8, b) != Zeros(8)
    ensures b in v ==> b == v[|v| - 1]
  {
    hide Crc;
  }

  lemma AscendingLast(v: seq<Rom>, n: nat)
    requires Ascending(v) && n < |v|
    ensures v[n] == v[|v| - 1] || Less(v[n], v[|v| - 1])
  {
    hide Less;
  }

  lemma LessTransitiveOrSame(a: Rom, b: Rom, c: Rom)
    requires (a == b || Less(a, b)) && Less(b, c)
    ensures Less(a, c)
  {
    hide Less;
    if a != b {
      LessTransitive(a, b, c);
    }
  }

  lemma LessAntisymmetric(a: Rom, b: Rom)
    requires Less(a, b)
    ensures !Less(b, a)
  {
    hide Less;
    if Less(b, a) {
      LessTransitive(a, b, a);
      LessIrreflexive(a);
    }
  }

  /** A search that ended by itself has walked everything up to the first bad ROM. */
  lemma WalkedAll(d: set<Rom>, y: Sys, r: Rom)
    requires Enumerates(d, y.visited) && Ended(d, y) && !y.sinkAsked && |y.reported| < y.s.max
    ensures r in d && !SpoiledBelow(d, r) ==> r in y.visited
  {
    hide Less, LastZero, Ascending;
    var v := y.visited;
    if r in d && r !in v && !SpoiledBelow(d, r) {
      if v != [] {
        var last := v[|v| - 1];
        assert last in v;
        if LastZero(d, last) == 0 {
          EnumerationComplete(d, v);
        }
      }
    }
  }

  // ---- the sink ----

  /** The sink of a run was handed a ROM by this poll and asked to stop. */
  ghost predicate SinkStopped(y: Sys, i: Input)
    requires Ok(y.s)
  {
    Next(y, i).reported != y.reported && y.s.hasSink && i.sinkStops
  }

  lemma StopEnds(y: Sys, i: Input)
    requires Ok(y.s)
    ensures SinkStopped(y, i) ==> Next(y, i).s.phase == Done && Next(y, i).sinkAsked
    ensures Next(y, i).sinkAsked ==> y.sinkAsked || SinkStopped(y, i)
    ensures y.s.phase == Done ==> Next(y, i).s.phase == Done && Next(y, i).reported == y.reported
  {
    hide RomCrcOk, FamilyOf, AdvanceSpec, CommonOk, Present, BitFromPulse;
  }

  lemma {:induction false} DoneStays(y: Sys, inputs: seq<Input>)
    requires Ok(y.s) && y.s.phase == Done
    ensures Run(y, inputs).s.phase == Done && Run(y, inputs).reported == y.reported
  {
    hide Next;
    if inputs != [] {
      var n := |inputs| - 1;
      DoneStays(y, inputs[..n]);
      StopEnds(Run(y, inputs[..n]), inputs[n]);
    }
  }

  lemma {:induction false} RunSplits(y: Sys, inputs: seq<Input>, k: nat)
    requires Ok(y.s) && k <= |inputs|
    ensures Run(y, inputs) == Run(Run(y, inputs[..k]), inputs[k..])
  {
    hide Next;
    if k < |inputs| {
      var n := |inputs| - 1;
      RunSplits(y, inputs[..n], k);
      assert inputs[..n][..k] == inputs[..k] && inputs[..n][k..] == inputs[k..][..n - k];
      assert inputs[k..][n - k] == inputs[n];
    } else {
      assert inputs[..k] == inputs && inputs[k..] == [];
    }
  }

  /** On any bus: a poll whose sink asks to stop ends the search, and the ROM it was handed stays the
      last one reported. */
  lemma SinkStops(s: Search, hasSink: bool, max: nat, command: byte, family: byte, inputs: seq<Input>, k: nat)
    requires Ok(s) && s.finished && max < 256 && k < |inputs|
    requires SinkStopped(Run(Launch(s, hasSink, max, command, family), inputs[..k]), inputs[k])
    ensures var y0 := Launch(s, hasSink, max, command, family);
            var y, z := Run(y0, inputs[..k + 1]), Run(y0, inputs);
            && |y.reported| == |Run(y0, inputs[..k]).reported| + 1
            && z.s.phase == Done && z.reported == y.reported
  {
    hide Next, Run, Launch;
    var y0 := Launch(s, hasSink, max, command, family);
    OneMorePoll(y0, inputs, k);
    StopEnds(Run(y0, inputs[..k]), inputs[k]);
    OneReport(Run(y0, inputs[..k]), inputs[k]);
    RunSplits(y0, inputs, k + 1);
    DoneStays(Run(y0, inputs[..k + 1]), inputs[k + 1..]);
  }

  lemma OneMorePoll(y: Sys, inputs: seq<Input>, k: nat)
    requires Ok(y.s) && k < |inputs|
    ensures Run(y, inputs[..k + 1]) == Next(Run(y, inputs[..k]), inputs[k])
  {
    hide Next;
    assert inputs[..k + 1][..k] == inputs[..k];
  }

  lemma OneReport(y: Sys, i: Input)
    requires Ok(y.s) && Next(y, i).reported != y.reported
    ensures |Next(y, i).reported| == |y.reported| + 1
  {
    hide PollSpec;
  }

  /** The poll that returns true is the one that leaves the search finished. */
  lemma PollReturns(s: Search, i: Input)
    requires Ok(s)
    ensures PollSpec(s, i).ret <==> PollSpec(s, i).s.finished
  {
    hide RomCrcOk, FamilyOf, Choose, CommonOk, Present, BitFromPulse, Stops, Accepts;
  }

  lemma LaunchRequest(s: Search, hasSink: bool, max: nat, command: byte, family: byte)
    requires Ok(s) && s.finished && max < 256
    ensures var y := Launch(s, hasSink, max, command, family);
            y.s.family == family && y.s.max == max && y.s.command == command
  {
  }

  /** The equal-leaf guard of the engine never stops a search of an honest bus. */
  lemma GuardNeverFires(bus: Bus, s: Search, hasSink: bool, max: nat, command: byte, family: byte,
                        inputs: seq<Input>)
    requires Ok(s) && s.finished && max < 256
    requires HonestRun(bus, Launch(s, hasSink, max, command, family), inputs)
    ensures var t := Run(Launch(s, hasSink, max, command, family), inputs).s;
            t.phase == WriteDir ==> !(t.prevValid && t.prevLeaf == t.rom)
  {
    hide Path, LastZero, RomCrcOk, Launch, HonestRun, Run, Enumerates;
    var y0 := Launch(s, hasSink, max, command, family);
    LaunchEstablishes(bus, s, hasSink, max, command, family);
    RunPreserves(bus, y0, inputs);
    var y := Run(y0, inputs);
    if y.s.phase == WriteDir {
      WalkedLeaf(Asked(bus, y.s.command), y);
    }
  }

  /** Completed polls never outnumber the armed operations of an unfinished search. */
  lemma {:induction false} PollsAreArmed(y: Sys, inputs: seq<Input>)
    requires Ok(y.s) && !y.s.finished && y.s.phase != Done && y.armed >= 1
    requires forall i | i in inputs :: i.done
    ensures var y' := Run(y, inputs);
            && (y'.s.phase != Done ==> !y'.s.finished && |inputs| + 1 <= y'.armed)
            && (y'.s.phase == Done && !y'.s.finished ==> |inputs| <= y'.armed)
  {
    hide PollSpec, CommonOk;
    if inputs != [] {
      var n := |inputs| - 1;
      assert forall i | i in inputs[..n] :: i in inputs;
      PollsAreArmed(y, inputs[..n]);
      PollHasShape(Run(y, inputs[..n]).s, inputs[n]);
      assert inputs[n] in inputs;
    }
  }

  /** A search costs at most 67 operations per answering device (3 when nobody answers),
      and one further poll reports that it is done. */
  lemma SearchFinishes(bus: Bus, s: Search, hasSink: bool, max: nat, command: byte, family: byte,
                       inputs: seq<Input>)
    requires Ok(s) && s.finished && 0 < max < 256
    requires HonestRun(bus, Launch(s, hasSink, max, command, family), inputs)
    requires forall i | i in inputs :: i.done
    requires var d := Asked(bus, command);
             |inputs| >= 67 * |d| + 4
    ensures Run(Launch(s, hasSink, max, command, family), inputs).s.finished
  {
    hide Path, LastZero, RomCrcOk, Launch, HonestRun, Run, Walking, Accepted, Unfinished, Ended, Enumerates;
    var y0 := Launch(s, hasSink, max, command, family);
    LaunchEstablishes(bus, s, hasSink, max, command, family);
    LaunchRequest(s, hasSink, max, command, family);
    RunPreserves(bus, y0, inputs);
    var d, y := Asked(bus, command), Run(y0, inputs);
    EnumeratesBounded(d, y.visited);
    LaunchArms(s, hasSink, max, command, family);
    PollsAreArmed(y0, inputs);
    if y.s.phase != Done && d != {} {
      OpenWalkLeavesOne(d, y);
    }
    if d == {} {
      NothingWalked(y.visited);
    }
  }

  lemma LaunchArms(s: Search, hasSink: bool, max: nat, command: byte, family: byte)
    requires Ok(s) && s.finished && 0 < max < 256
    ensures var y := Launch(s, hasSink, max, command, family);
            y.s.phase == Reset && !y.s.finished && y.armed == 1
  {
  }

  lemma OpenWalkLeavesOne(d: set<Rom>, y: Sys)
    requires d != {} && Enumerates(d, y.visited) && Unfinished(d, y)
    ensures |y.visited| + 1 <= |d|
  {
    hide Path, LastZero, Enumerates;
    EnumerationGrows(d, y.visited, Prev(y));
    var w := y.visited + [Path(d, LastTurn(d, y), Prev(y), 64)];
    EnumeratesBounded(d, w);
  }

  lemma EnumeratesBounded(d: set<Rom>, v: seq<Rom>)
    requires Enumerates(d, v)
    ensures |v| <= |d|
  {
    EnumerationBounded(d, v);
  }

  // ---- any bus at all ----

  /** Without a family filter every walk that does not end the search reports a ROM. */
  ghost predicate AnyInv(y: Sys) {
    var walks := 67 * |y.visited|;
    && Ok(y.s)
    && y.s.found == |y.reported|
    && (y.s.finished ==> y.s.phase == Done)
    && (y.s.phase != Done ==> |y.visited| == y.s.found)
    && |y.visited| <= y.s.max
    && y.armed <= 67 * y.s.max
    && match y.s.phase
       case Reset => y.armed == walks + 1
       case Cmd => y.armed == walks + 2
       case ReadPair => y.armed == walks + 3
       case WriteRead => y.armed == walks + 3 + y.s.idBit
       case WriteDir => y.armed == walks + 67
       case Done => true
  }

  lemma AnyPollPreserves(y: Sys, i: Input)
    requires AnyInv(y) && y.s.family == 0
    ensures AnyInv(Next(y, i))
  {
    hide PollSpec;
    PollHasShape(y.s, i);
  }

  /** Family 0, arbitrary captures: however inconsistently the bus answers, a search
      for at most max devices arms at most 67 * max operations, reports at most max
      ROMs, and is finished once more polls than that have completed. That no ROM bit
      outside 0..63 is touched is the precondition AdvanceSpec always meets. */
  lemma {:induction false} AnyBusBounded(s: Search, hasSink: bool, max: nat, command: byte, inputs: seq<Input>)
    requires Ok(s) && s.finished && max < 256
    ensures var y := Run(Launch(s, hasSink, max, command, 0), inputs);
            && AnyInv(y) && y.s.max == max && y.s.family == 0
            && y.armed <= 67 * max && |y.reported| <= max
            && ((forall i | i in inputs :: i.done) && |inputs| > 67 * max ==> y.s.finished)
  {
    hide RomCrcOk, FamilyOf, Launch, Run;
    var y0 := Launch(s, hasSink, max, command, 0);
    AnyLaunch(s, hasSink, max, command);
    AnyRun(y0, inputs);
    if (forall i | i in inputs :: i.done) && |inputs| > 67 * max {
      if max > 0 {
        LaunchArms(s, hasSink, max, command, 0);
        PollsAreArmed(y0, inputs);
      } else {
        DoneFinishes(y0, inputs);
      }
    }
  }

  lemma AnyLaunch(s: Search, hasSink: bool, max: nat, command: byte)
    requires Ok(s) && s.finished && max < 256
    ensures var y := Launch(s, hasSink, max, command, 0);
            AnyInv(y) && y.s.max == max && y.s.family == 0 && (max == 0 ==> y.s.phase == Done)
  {
  }

  lemma {:induction false} AnyRun(y: Sys, inputs: seq<Input>)
    requires AnyInv(y) && y.s.family == 0
    ensures AnyInv(Run(y, inputs)) && SameRequest(y.s, Run(y, inputs).s)
  {
    hide Next;
    if inputs != [] {
      var n := |inputs| - 1;
      AnyRun(y, inputs[..n]);
      AnyPollPreserves(Run(y, inputs[..n]), inputs[n]);
      PollKeepsRequest(Run(y, inputs[..n]), inputs[n]);
    }
  }

  lemma {:induction false} DoneFinishes(y: Sys, inputs: seq<Input>)
    requires Ok(y.s) && y.s.phase == Done
    ensures Run(y, inputs).s.phase == Done && (inputs != [] ==> Run(y, inputs).s.finished)
  {
    hide RomCrcOk, FamilyOf, Accepts, Choose, CommonOk, Stops;
    if inputs != [] {
      DoneFinishes(y, inputs[..|inputs| - 1]);
    }
  }
}
