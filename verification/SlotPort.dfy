/** Arming the timer: every bus operation as the ordered register writes of the port layer, and
    what each of them then does on the wire. */
module SlotPort {
  import opened Bits
  import opened PulseCodec
  import opened SlotTimer
  import PlanWait

  const SLOT := 70
  const RELOAD := 65
  const MAX_SLOTS := 256
  const MAX_READ_BYTES := 32
  const RESET_TIMEOUT := 960
  const RESET_PULSE := 480

  /** A byte table as compare values. */
  function Lows(p: seq<byte>): (c: seq<nat>)
    ensures |c| == |p|
  {
    seq(|p|, i requires 0 <= i < |p| => p[i])
  }

  /** The pulses of a write fit a slot. */
  predicate Fits(p: seq<byte>) {
    forall k | 0 <= k < |p| :: 1 <= p[k] <= RELOAD
  }

  predicate HoldsOk(hs: seq<nat>, n: nat) {
    |hs| == n && forall k | 0 <= k < n :: hs[k] < SLOT
  }

  function Ones(n: nat): (c: seq<nat>)
    ensures |c| == n
  {
    seq(n, _ => ONE_PULSE)
  }

  class Port {
    var t: Timer
    var pushPull: bool

    // ---- registers ----

    method SetPeriods(arr: nat, rcr: nat)
      modifies `t
      ensures t == old(t).(arr := arr, rcr := rcr)
    {
      t := t.(arr := arr, rcr := rcr);
    }

    /** With the preload enabled the value waits for an update event. */
    method WriteCcr3(v: nat)
      modifies `t
      ensures t == old(t).(preload := v, active := if old(t).shadowed then old(t).active else v)
    {
      t := if t.shadowed then t.(preload := v) else t.(preload := v, active := v);
    }

    method SetMode(shadowed: bool)
      modifies `t
      ensures t == old(t).(shadowed := shadowed)
    {
      t := t.(shadowed := shadowed);
    }

    method SetRequests(feedOn: bool, captureOn: bool)
      modifies `t
      ensures t == old(t).(feedOn := feedOn, captureOn := captureOn)
    {
      t := t.(feedOn := feedOn, captureOn := captureOn);
    }

    /** ow_port_update_event: reload counter, repetitions and preloads, then clear the flag. */
    method UpdateEvent()
      modifies `t
      ensures t == old(t).(cnt := 0, rep := old(t).rcr, active := old(t).preload, uif := false)
    {
      t := t.(cnt := 0, rep := t.rcr, active := t.preload, uif := false);
    }

    method StartTimer()
      modifies `t
      ensures t == old(t).(running := true)
    {
      t := t.(running := true);
    }

    // ---- operations ----

    /** ow_port_feed */
    method Feed(cmd: seq<byte>, slots: nat) returns (ok: bool)
      requires |cmd| > slots
      modifies `t
      ensures ok == (1 <= slots <= MAX_SLOTS)
      ensures !ok ==> t == old(t)
      ensures ok ==> t.drive == old(t).drive && !t.uif
      ensures ok && Fits(cmd[..slots]) && cmd[slots] == RELEASE_PULSE ==>
                t.arr == SLOT && !t.captureOn
                && forall hs | HoldsOk(hs, slots) :: Ready(t, Lows(cmd[..slots]), hs)
    {
      if slots == 0 || slots > MAX_SLOTS {
        return false;
      }
      SetPeriods(ONE_PULSE + ZERO_PULSE + 5, slots - 1);
      WriteCcr3(cmd[0]);
      t := t.(ccr2 := ONE_PULSE + ZERO_PULSE);
      SetMode(false);
      SetRequests(true, false);
      UpdateEvent();
      t := t.(feed := Lows(cmd[1..slots + 1]));
      StartTimer();
      assert cmd[slots] == RELEASE_PULSE ==> Lows(cmd[1..slots + 1]) == Lows(cmd[..slots])[1..] + [0];
      return true;
    }

    /** ow_port_write_slots: a single slot needs no feed, the preload releases the line. */
    method WriteSlots(pulses: seq<byte>, slots: nat) returns (ok: bool)
      requires |pulses| >= slots && (slots > 1 ==> |pulses| > slots)
      modifies `t
      ensures ok == (1 <= slots <= MAX_SLOTS)
      ensures !ok ==> t == old(t)
      ensures ok ==> t.drive == old(t).drive && !t.uif
      ensures ok && Fits(pulses[..slots]) && (slots > 1 ==> pulses[slots] == RELEASE_PULSE) ==>
                t.arr == SLOT && !t.captureOn
                && forall hs | HoldsOk(hs, slots) :: Ready(t, Lows(pulses[..slots]), hs)
    {
      if slots == 0 || slots > MAX_SLOTS {
        return false;
      }
      if slots == 1 {
        SetPeriods(ONE_PULSE + ZERO_PULSE + 5, 0);
        WriteCcr3(pulses[0]);
        SetMode(true);
        SetRequests(false, false);
        UpdateEvent();
        WriteCcr3(RELEASE_PULSE);
        StartTimer();
        return true;
      }
      ok := Feed(pulses, slots);
    }

    /** ow_port_capture */
    method Capture(count: nat)
      modifies `t
      ensures t == old(t).(shadowed := true, feedOn := false, captureOn := true, cnt := 0, rep := old(t).rcr,
                           uif := false, active := old(t).preload, preload := RELEASE_PULSE, room := count,
                           captured := [], running := true)
    {
      SetMode(true);
      SetRequests(false, true);
      UpdateEvent();
      WriteCcr3(RELEASE_PULSE);
      t := t.(room := count, captured := []);
      StartTimer();
    }

    /** ow_port_read_data */
    method ReadData(bytes: nat) returns (ok: bool)
      modifies `t
      ensures ok == (1 <= bytes <= MAX_READ_BYTES)
      ensures !ok ==> t == old(t)
      ensures ok ==> t.drive == old(t).drive && !t.uif && t.captured == [] && t.captureOn && t.arr == SLOT
      ensures ok ==> forall hs | HoldsOk(hs, 8 * bytes) :: Ready(t, Ones(8 * bytes), hs)
    {
      if bytes == 0 || bytes > MAX_READ_BYTES {
        return false;
      }
      var bits := bytes * 8;
      SetPeriods(ONE_PULSE + ZERO_PULSE + 5, bits - 1);
      WriteCcr3(ONE_PULSE);
      Capture(bits);
      return true;
    }

    /** ow_port_read_pair */
    method ReadPair()
      modifies `t
      ensures t.drive == old(t).drive && !t.uif && t.captured == [] && t.captureOn && t.arr == SLOT
      ensures forall hs | HoldsOk(hs, 2) :: Ready(t, Ones(2), hs)
    {
      SetPeriods(ONE_PULSE + ZERO_PULSE + 5, 1);
      WriteCcr3(ONE_PULSE);
      Capture(2);
    }

    /** ow_port_write_then_read with the read pulses of the search. */
    method WriteThenRead(bit: bool)
      modifies `t
      ensures t.drive == old(t).drive && !t.uif && t.captured == [] && t.captureOn && t.arr == SLOT
      ensures forall hs | HoldsOk(hs, 3) ::
                Ready(t, [if bit then ONE_PULSE else ZERO_PULSE, ONE_PULSE, ONE_PULSE], hs)
    {
      var pulse := if bit then ONE_PULSE else ZERO_PULSE;
      SetPeriods(ONE_PULSE + ZERO_PULSE + 5, 2);
      WriteCcr3(pulse);
      t := t.(ccr2 := ONE_PULSE + ZERO_PULSE);
      SetMode(false);
      SetRequests(false, false);
      UpdateEvent();
      t := t.(room := 3, captured := []);
      t := t.(feed := [ONE_PULSE, ONE_PULSE, RELEASE_PULSE]);
      SetRequests(true, true);
      WriteCcr3(pulse);
      StartTimer();
      ghost var cs: seq<nat> := [pulse, ONE_PULSE, ONE_PULSE];
      assert t.feed == cs[1..] + [0];
    }

    /** ow_port_reset */
    method Reset()
      modifies `t
      ensures t.drive == old(t).drive && !t.uif && ArmedReset(t)
    {
      SetPeriods(RESET_TIMEOUT, 0);
      WriteCcr3(RESET_PULSE);
      Capture(CAPTURE_BUF_SIZE);
    }

    /** ow_port_start_wait on a released line. */
    method StartWait(us: nat)
      requires t.active == t.preload == 0
      modifies `t
      ensures t.drive == old(t).drive && !t.uif && t.running && t.active == 0 && t.cnt == 0
      ensures PlanWait.IsPlan(us, t.arr, t.rep) && !t.feedOn && (t.shadowed ==> t.preload == 0)
    {
      var arr, rcr := PlanWait.Plan(us);
      SetPeriods(arr, rcr);
      SetRequests(false, false);
      UpdateEvent();
      StartTimer();
    }

    /** ow_port_strong_pullup: engaging it zeroes the compare value through an update event, which
        leaves the flag up. */
    method StrongPullup(on: bool)
      requires !t.running
      modifies `t, `pushPull
      ensures pushPull == on
      ensures on ==> t.active == 0 && t.uif && t.cnt == 0 && DrivesHigh(t)
      ensures !on ==> t == old(t)
    {
      if on {
        WriteCcr3(0);
        t := t.(cnt := 0, rep := t.rcr, active := t.preload, uif := true);
      }
      pushPull := on;
    }
  }

  // ---- what the armed operations do ----

  /** A write of n slots drives exactly pulses[0..n), whatever the slaves do, and ends with the
      line released and nothing left to feed. */
  lemma WriteEmits(t: Timer, pulses: seq<byte>, hs: seq<nat>)
    requires pulses != [] && HoldsOk(hs, |pulses|) && Ready(t, Lows(pulses), hs) && t.arr == SLOT
    ensures var e := Run(t, Holds(hs, SLOT));
            && e.drive == t.drive + Wave(Lows(pulses), SLOT)
            && !e.running && e.uif && e.active == e.preload == 0 && DrivesHigh(e) && (t.feedOn ==> e.feed == [])
  {
    hide Run, Ready;
    Train(t, Lows(pulses), hs);
  }

  lemma OneMoreSlot(arr: nat, n: nat)
    ensures arr * (n + 1) == arr * n + arr
  {
  }

  lemma {:induction false} WaveAt(cs: seq<nat>, arr: nat, k: nat, i: nat)
    requires k < |cs| && i < arr
    ensures arr * k + i < |Wave(cs, arr)| == arr * |cs| && (Wave(cs, arr)[arr * k + i] <==> i >= cs[k])
    decreases |cs|
  {
    OneMoreSlot(arr, |cs| - 1);
    if k > 0 {
      OneMoreSlot(arr, k - 1);
      WaveAt(cs[1..], arr, k - 1, i);
    } else if |cs| > 1 {
      WaveAt(cs[1..], arr, 0, i);
    } else {
      assert Wave(cs[1..], arr) == [];
    }
  }

  /** On the wire: a device that samples a slot anywhere between the longest 1 and the end of the
      shortest 0 receives the bytes that were encoded, in order. */
  lemma DeviceSamples(bytes: seq<byte>, k: nat, i: nat)
    requires k < 8 * |bytes| && ONE_PULSE <= i < ZERO_PULSE
    ensures var w := Wave(Lows(Encoded(bytes)), SLOT);
            SLOT * k + i < |w| && w[SLOT * k + i] == BitsOf(bytes)[k]
  {
    hide BitsOf;
    WaveAt(Lows(Encoded(bytes)), SLOT, k, i);
  }

  /** What the slaves' hold times say: at most 10 us is a 1, more a 0. */
  predicate Sends(hs: seq<nat>, bits: seq<bool>) {
    |hs| == |bits| && forall k | 0 <= k < |hs| :: bits[k] <==> hs[k] <= SHORT_PULSE_MAX
  }

  /** A read of n slots drives n short pulses, captures n widths, and the widths read as the bits
      the slaves send. */
  lemma ReadCaptures(t: Timer, hs: seq<nat>, bits: seq<bool>)
    requires bits != [] && HoldsOk(hs, |bits|) && Sends(hs, bits) && Ready(t, Ones(|bits|), hs)
    requires t.arr == SLOT && t.captureOn && t.captured == []
    ensures var e := Run(t, Holds(hs, SLOT));
            && e.drive == t.drive + Wave(Ones(|bits|), SLOT)
            && |e.captured| == |bits| && (forall k | 0 <= k < |bits| :: BitFromPulse(e.captured[k]) == bits[k])
            && !e.running && e.uif && e.active == e.preload == 0
  {
    hide Run, Ready;
    Train(t, Ones(|bits|), hs);
    assert [] + Widths(Ones(|bits|), hs) == Widths(Ones(|bits|), hs);
  }

  /** A merged pass drives [direction, 1, 1]; of its three captures the last two read as the
      address bit and its complement that the slaves send. */
  lemma MergedPass(t: Timer, bit: bool, hs: seq<nat>, id: bool, cmp: bool)
    requires var cs := [if bit then ONE_PULSE else ZERO_PULSE, ONE_PULSE, ONE_PULSE];
             HoldsOk(hs, 3) && Ready(t, cs, hs)
    requires t.arr == SLOT && t.captureOn && t.captured == []
    requires (id <==> hs[1] <= SHORT_PULSE_MAX) && (cmp <==> hs[2] <= SHORT_PULSE_MAX)
    ensures var e := Run(t, Holds(hs, SLOT));
            && e.drive == t.drive + Wave([if bit then ONE_PULSE else ZERO_PULSE, ONE_PULSE, ONE_PULSE], SLOT)
            && |e.captured| == 3 && BitFromPulse(e.captured[1]) == id && BitFromPulse(e.captured[2]) == cmp
            && !e.running && e.uif && e.active == e.preload == 0
  {
    hide Run, Ready;
    var cs := [if bit then ONE_PULSE else ZERO_PULSE, ONE_PULSE, ONE_PULSE];
    Train(t, cs, hs);
    assert [] + Widths(cs, hs) == Widths(cs, hs);
  }

  // ---- the reset ----

  predicate ArmedReset(t: Timer) {
    && t.running && t.cnt == 0 && t.arr == RESET_TIMEOUT && t.rep == 0 && t.active == RESET_PULSE
    && t.shadowed && t.preload == 0 && !t.feedOn && t.captureOn && t.room == CAPTURE_BUF_SIZE && t.captured == []
  }

  /** A presence pulse from p to q (none if p == q), after the master has released the line. */
  function Presence(p: nat, q: nat, n: nat): (w: seq<bool>)
    ensures |w| == n
  {
    seq(n, i => p <= i < q)
  }

  function InReset(t: Timer, p: nat, q: nat, i: nat): Timer {
    var edges := (if i > RESET_PULSE then [RESET_PULSE] else []) + (if p < q < i then [q] else []);
    t.(cnt := i, line := if i == 0 then t.line else i > RESET_PULSE && !(p <= i - 1 < q),
       drive := t.drive + SlotWave(RESET_PULSE, i), captured := edges, room := CAPTURE_BUF_SIZE - |edges|)
  }

  lemma ResetTick(t: Timer, p: nat, q: nat, i: nat)
    requires ArmedReset(t) && RESET_PULSE < p <= q < RESET_TIMEOUT && i < RESET_TIMEOUT
    ensures Tick(InReset(t, p, q, i), p <= i < q) ==
              if i + 1 < RESET_TIMEOUT then InReset(t, p, q, i + 1) else Overflow(InReset(t, p, q, i + 1))
  {
    hide SlotWave;
    WaveGrows(t.drive, RESET_PULSE, i);
  }

  lemma ResetBegins(t: Timer, p: nat, q: nat)
    requires ArmedReset(t)
    ensures InReset(t, p, q, 0) == t
  {
    assert t.drive + SlotWave(RESET_PULSE, 0) == t.drive;
  }

  lemma {:induction false} ResetTicks(t: Timer, p: nat, q: nat, i: nat)
    requires ArmedReset(t) && RESET_PULSE < p <= q < RESET_TIMEOUT && i < RESET_TIMEOUT
    ensures Run(t, Presence(p, q, i)) == InReset(t, p, q, i)
  {
    hide Tick, InReset, ArmedReset;
    if i == 0 {
      ResetBegins(t, p, q);
    } else {
      ResetTicks(t, p, q, i - 1);
      ResetTick(t, p, q, i - 1);
      assert Presence(p, q, i)[..i - 1] == Presence(p, q, i - 1);
    }
  }

  /** A reset drives the line low for 480 us of 960 us. The captures are the master's release and,
      if a device answers, the end of its presence pulse; the presence check accepts exactly an
      answer that ends in its window. */
  lemma ResetCaptures(t: Timer, p: nat, q: nat)
    requires ArmedReset(t) && RESET_PULSE < p <= q < RESET_TIMEOUT
    ensures var e := Run(t, Presence(p, q, RESET_TIMEOUT));
            && e.drive == t.drive + SlotWave(RESET_PULSE, RESET_TIMEOUT)
            && e.captured == (if p < q then [RESET_PULSE, q] else [RESET_PULSE])
            && !e.running && e.uif && e.active == e.preload == 0
            && (|e.captured| == 2 ==> (Present(|e.captured|, e.captured[0], e.captured[1]) <==> 555 <= q <= 840))
  {
    hide SlotWave, Tick;
    var n := RESET_TIMEOUT - 1;
    ResetTicks(t, p, q, n);
    ResetTick(t, p, q, n);
    assert Presence(p, q, RESET_TIMEOUT)[..n] == Presence(p, q, n);
  }

  // ---- durations ----

  function Remaining(t: Timer): int {
    if t.running then t.rep * t.arr + t.arr - t.cnt else 0
  }

  lemma OnePeriodLess(rep: nat, arr: nat)
    requires rep > 0
    ensures (rep - 1) * arr + arr == rep * arr
  {
  }

  /** Every operation completes after exactly its repetitions times its period, never earlier. */
  lemma {:induction false} CompletesOnTime(t: Timer, pulled: seq<bool>)
    requires t.running && t.cnt < t.arr && !t.uif && |pulled| <= Remaining(t)
    ensures var e := Run(t, pulled);
            && (|pulled| < Remaining(t) ==>
                  e.running && !e.uif && e.cnt < e.arr == t.arr && Remaining(e) == Remaining(t) - |pulled|)
            && (|pulled| == Remaining(t) ==> !e.running && e.uif)
    decreases |pulled|
  {
    if pulled != [] {
      var n := |pulled| - 1;
      CompletesOnTime(t, pulled[..n]);
      var e := Run(t, pulled[..n]);
      if e.rep > 0 {
        OnePeriodLess(e.rep, e.arr);
      }
      AtLeastOnePeriod(e.rep, e.arr);
    }
  }

  lemma AtLeastOnePeriod(rep: nat, arr: nat)
    ensures rep > 0 ==> rep * arr >= arr
  {
  }

  /** Nothing will pull the line low. */
  predicate Released(t: Timer) {
    t.active == 0 && !t.feedOn && (t.shadowed ==> t.preload == 0)
  }

  lemma TickReleased(t: Timer, pulled: bool)
    requires Released(t)
    ensures Released(Tick(t, pulled)) && (Tick(t, pulled).drive == t.drive || Tick(t, pulled).drive == t.drive + [true])
  {
  }

  lemma {:induction false} WaitIsHigh(t: Timer, pulled: seq<bool>)
    requires Released(t)
    ensures var e := Run(t, pulled);
            && Released(e) && |t.drive| <= |e.drive|
            && forall i | |t.drive| <= i < |e.drive| :: e.drive[i]
  {
    hide Tick, Released;
    if pulled != [] {
      var n := |pulled| - 1;
      WaitIsHigh(t, pulled[..n]);
      TickReleased(Run(t, pulled[..n]), pulled[n]);
    }
  }

  /** A wait of us microseconds ends after at least us and less than one period per repetition
      more, and the line is never driven low in it. */
  lemma WaitLasts(t: Timer, us: nat, pulled: seq<bool>)
    requires t.running && t.active == 0 && t.cnt == 0 && !t.uif && !t.feedOn && (t.shadowed ==> t.preload == 0)
    requires PlanWait.IsPlan(us, t.arr, t.rep) && 1 <= us <= PlanWait.REACH
    ensures us <= Remaining(t) < us + t.rep + 1
    ensures |pulled| < us ==> !Run(t, pulled).uif
    ensures |pulled| == Remaining(t) ==> Run(t, pulled).uif
    ensures |pulled| <= Remaining(t) ==> forall i | |t.drive| <= i < |Run(t, pulled).drive| :: Run(t, pulled).drive[i]
  {
    hide Run;
    assert Remaining(t) == (t.rep + 1) * t.arr;
    if |pulled| <= Remaining(t) {
      CompletesOnTime(t, pulled);
      WaitIsHigh(t, pulled);
    }
  }
}
