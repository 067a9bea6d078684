/** The one-pulse timer with its repetition counter, the compare-triggered feed of CCR3 and the
    capture of rising edges, one microsecond tick at a time. */
module SlotTimer {

  /** Registers and DMA queues. `active` is the compare value the output uses; without the preload
      a write to CCR3 (by the program or the feed) sets both, with it (`shadowed`) only `preload`,
      which `active` takes over at an update event. `line` is the bus level of
      the last tick and `drive` what the master has driven so far (false: low). */
  datatype Timer = Timer(
    arr: nat, rcr: nat, rep: nat, active: nat, preload: nat, shadowed: bool, ccr2: nat,
    feedOn: bool, feed: seq<nat>, captureOn: bool, room: nat, captured: seq<nat>,
    cnt: nat, running: bool, uif: bool, line: bool, drive: seq<bool>)

  /** PWM mode 2: low while the counter is below the compare value. */
  predicate DrivesHigh(t: Timer) {
    t.cnt >= t.active
  }

  /** The period is over: the next one begins, or the pulse ends with an update event. */
  function Overflow(t: Timer): Timer {
    if t.rep > 0 then t.(cnt := 0, rep := t.rep - 1)
    else t.(cnt := 0, running := false, uif := true, active := if t.shadowed then t.preload else t.active)
  }

  /** One tick; the slaves may pull the line low. */
  function Tick(t: Timer, pulled: bool): Timer {
    if !t.running then t else
    var line := DrivesHigh(t) && !pulled;
    var edge := line && !t.line && t.captureOn && t.room > 0;
    var fed := t.feedOn && t.feed != [] && t.cnt == t.ccr2;
    var s := t.(line := line, drive := t.drive + [DrivesHigh(t)],
                captured := if edge then t.captured + [t.cnt] else t.captured,
                room := if edge then t.room - 1 else t.room,
                active := if fed then t.feed[0] else t.active,
                preload := if fed then t.feed[0] else t.preload,
                feed := if fed then t.feed[1..] else t.feed,
                cnt := t.cnt + 1);
    if s.cnt < t.arr then s else Overflow(s)
  }

  function Run(t: Timer, pulled: seq<bool>): Timer {
    if pulled == [] then t else Tick(Run(t, pulled[..|pulled| - 1]), pulled[|pulled| - 1])
  }

  lemma {:induction false} RunConcat(t: Timer, a: seq<bool>, b: seq<bool>)
    ensures Run(t, a + b) == Run(Run(t, a), b)
  {
    hide Tick;
    if b == [] {
      assert a + b == a;
    } else {
      RunConcat(t, a, b[..|b| - 1]);
      assert (a + b)[..|a + b| - 1] == a + b[..|b| - 1];
    }
  }

  // ---- one slot ----

  function Max(a: nat, b: nat): nat { if a >= b then a else b }

  /** n ticks of a slot that is driven low for the first c. */
  function SlotWave(c: nat, n: nat): (w: seq<bool>)
    ensures |w| == n
  {
    seq(n, i => i >= c)
  }

  /** The slaves hold the line low for the first h ticks of a period. */
  function Hold(h: nat, n: nat): (w: seq<bool>)
    ensures |w| == n
  {
    seq(n, i => i < h)
  }

  /** At the start of a period of low time c, in which the slaves hold the line for h ticks. */
  predicate AtStart(t: Timer, h: nat) {
    && t.running && t.cnt == 0 && 1 <= t.active < t.arr && h < t.arr
    && (t.feedOn && t.feed != [] ==> t.active <= t.ccr2 < t.arr && t.feed[0] <= t.ccr2 && !t.shadowed)
  }

  /** i ticks into the slot. */
  function InSlot(t: Timer, h: nat, i: nat): Timer {
    var c, m := t.active, Max(t.active, h);
    var fed := t.feedOn && t.feed != [] && i > t.ccr2;
    var edge := t.captureOn && t.room > 0 && i > m;
    t.(cnt := i, line := if i == 0 then t.line else i > m, drive := t.drive + SlotWave(c, i),
       captured := if edge then t.captured + [m] else t.captured, room := if edge then t.room - 1 else t.room,
       active := if fed then t.feed[0] else c, preload := if fed then t.feed[0] else t.preload,
       feed := if fed then t.feed[1..] else t.feed)
  }

  lemma WaveGrows(before: seq<bool>, c: nat, i: nat)
    ensures before + SlotWave(c, i + 1) == (before + SlotWave(c, i)) + [i >= c]
  {
    assert SlotWave(c, i + 1) == SlotWave(c, i) + [i >= c];
  }

  lemma TickInSlot(t: Timer, h: nat, i: nat)
    requires AtStart(t, h) && i < t.arr
    ensures Tick(InSlot(t, h, i), i < h) ==
              if i + 1 < t.arr then InSlot(t, h, i + 1) else Overflow(InSlot(t, h, i + 1))
  {
    hide SlotWave;
    WaveGrows(t.drive, t.active, i);
  }

  lemma {:induction false} SlotTicks(t: Timer, h: nat, i: nat)
    requires AtStart(t, h) && i < t.arr
    ensures Run(t, Hold(h, i)) == InSlot(t, h, i)
  {
    hide Tick, InSlot;
    if i == 0 {
      NothingTicked(t, h);
    } else {
      SlotTicks(t, h, i - 1);
      TickInSlot(t, h, i - 1);
      assert Hold(h, i)[..i - 1] == Hold(h, i - 1);
    }
  }

  lemma NothingTicked(t: Timer, h: nat)
    requires t.cnt == 0 && t.active >= 1
    ensures InSlot(t, h, 0) == t
  {
    assert t.drive + SlotWave(t.active, 0) == t.drive;
  }

  /** One whole slot: exactly the low time drives, one edge is captured at the longer of the two
      low times, and one entry is fed for the next slot. */
  lemma WholeSlot(t: Timer, h: nat)
    requires AtStart(t, h)
    ensures Run(t, Hold(h, t.arr)) == Overflow(InSlot(t, h, t.arr))
  {
    hide Tick, InSlot, Overflow;
    SlotTicks(t, h, t.arr - 1);
    TickInSlot(t, h, t.arr - 1);
    assert Hold(h, t.arr)[..t.arr - 1] == Hold(h, t.arr - 1);
  }

  // ---- a train of slots ----

  function Wave(cs: seq<nat>, arr: nat): seq<bool> {
    if cs == [] then [] else SlotWave(cs[0], arr) + Wave(cs[1..], arr)
  }

  function Holds(hs: seq<nat>, arr: nat): seq<bool> {
    if hs == [] then [] else Hold(hs[0], arr) + Holds(hs[1..], arr)
  }

  function Widths(cs: seq<nat>, hs: seq<nat>): (w: seq<nat>)
    requires |cs| == |hs|
    ensures |w| == |cs|
  {
    seq(|cs|, i requires 0 <= i < |cs| => Max(cs[i], hs[i]))
  }

  /** Armed for the slots cs, fed entry by entry with the release behind the last. */
  predicate Fed(t: Timer, cs: seq<nat>) {
    && cs != [] && t.feedOn && !t.shadowed && t.feed == cs[1..] + [0] && t.ccr2 < t.arr
    && forall k | 0 <= k < |cs| :: cs[k] <= t.ccr2
  }

  /** Armed for slots of the same low time, with the release in the preload register. */
  predicate Held(t: Timer, cs: seq<nat>) {
    !t.feedOn && t.shadowed && t.preload == 0 && forall k | 0 <= k < |cs| :: cs[k] == t.active
  }

  /** Armed for the low times cs against slave hold times hs. */
  predicate Ready(t: Timer, cs: seq<nat>, hs: seq<nat>) {
    && t.running && t.cnt == 0 && cs != [] && |cs| == |hs| == t.rep + 1 && t.active == cs[0]
    && (forall k | 0 <= k < |cs| :: 1 <= cs[k] < t.arr && hs[k] < t.arr)
    && (Fed(t, cs) || Held(t, cs))
    && (t.captureOn ==> t.room == |cs|)
  }

  /** How a train from t ends: the master has driven exactly the low times, every slot has captured
      the longer of master and slave low time, the feed is drained, and the pulse has ended with
      the line released and the flag up. */
  predicate Ends(t: Timer, e: Timer, cs: seq<nat>, hs: seq<nat>)
    requires |cs| == |hs|
  {
    && !e.running && e.uif && e.active == e.preload == 0 && e.cnt == 0 && (t.feedOn ==> e.feed == [])
    && e.drive == t.drive + Wave(cs, t.arr)
    && e.captured == (if t.captureOn then t.captured + Widths(cs, hs) else t.captured)
    && (t.captureOn ==> e.room == 0)
  }

  lemma {:induction false} Train(t: Timer, cs: seq<nat>, hs: seq<nat>)
    requires Ready(t, cs, hs)
    ensures Ends(t, Run(t, Holds(hs, t.arr)), cs, hs)
    decreases |cs|
  {
    hide Run, InSlot, Overflow, Ready, Ends;
    StartsSlot(t, cs, hs);
    WholeSlot(t, hs[0]);
    var t1 := Overflow(InSlot(t, hs[0], t.arr));
    RunConcat(t, Hold(hs[0], t.arr), Holds(hs[1..], t.arr));
    if |cs| == 1 {
      LastSlot(t, cs, hs);
    } else {
      NextSlot(t, cs, hs);
      Train(t1, cs[1..], hs[1..]);
      EndsLater(t, t1, Run(t1, Holds(hs[1..], t.arr)), cs, hs);
    }
  }

  lemma StartsSlot(t: Timer, cs: seq<nat>, hs: seq<nat>)
    requires Ready(t, cs, hs)
    ensures |cs| == |hs| > 0 && AtStart(t, hs[0])
  {
    assert t.feedOn ==> t.feed != [];
  }

  lemma EndsLater(t: Timer, t1: Timer, e: Timer, cs: seq<nat>, hs: seq<nat>)
    requires |cs| == |hs| > 0 && Ends(t1, e, cs[1..], hs[1..])
    requires t1.arr == t.arr && t1.captureOn == t.captureOn && t1.feedOn == t.feedOn
    requires t1.drive == t.drive + SlotWave(cs[0], t.arr)
    requires t1.captured == if t.captureOn then t.captured + [Max(cs[0], hs[0])] else t.captured
    ensures Ends(t, e, cs, hs)
  {
    hide SlotWave;
    assert t.drive + (SlotWave(cs[0], t.arr) + Wave(cs[1..], t.arr))
        == (t.drive + SlotWave(cs[0], t.arr)) + Wave(cs[1..], t.arr);
    assert Widths(cs, hs) == [Max(cs[0], hs[0])] + Widths(cs[1..], hs[1..]);
    assert t.captured + Widths(cs, hs) == (t.captured + [Max(cs[0], hs[0])]) + Widths(cs[1..], hs[1..]);
  }

  lemma LastSlot(t: Timer, cs: seq<nat>, hs: seq<nat>)
    requires Ready(t, cs, hs) && |cs| == 1
    ensures var e := Overflow(InSlot(t, hs[0], t.arr)); Run(e, Holds(hs[1..], t.arr)) == e && Ends(t, e, cs, hs)
  {
    hide SlotWave;
    assert Wave(cs[1..], t.arr) == [];
    assert SlotWave(cs[0], t.arr) + [] == SlotWave(cs[0], t.arr);
    assert Widths(cs, hs) == [Max(cs[0], hs[0])];
    assert Holds(hs[1..], t.arr) == [];
  }

  lemma NextSlot(t: Timer, cs: seq<nat>, hs: seq<nat>)
    requires Ready(t, cs, hs) && |cs| > 1
    ensures var t1 := Overflow(InSlot(t, hs[0], t.arr));
            && Ready(t1, cs[1..], hs[1..]) && t1.arr == t.arr && t1.captureOn == t.captureOn && t1.feedOn == t.feedOn
            && t1.drive == t.drive + SlotWave(cs[0], t.arr)
            && t1.captured == (if t.captureOn then t.captured + [Max(cs[0], hs[0])] else t.captured)
  {
    hide SlotWave;
    if t.feedOn {
      assert t.feed[0] == cs[1];
      assert t.feed[1..] == cs[1..][1..] + [0];
    }
  }
}
