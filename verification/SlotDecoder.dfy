/** The slot decoder of the viewer, on one channel of a capture at any sample rate. */
module SlotDecoder {
  import opened Bits

  /** The thresholds of a bus speed, in samples. */
  datatype Profile = Profile(resetLow: nat, sampleAt: nat, advance: nat, presWin: nat, presLow: nat, skip: nat,
                             overdrive: bool)

  /** What decodeSlots is asked for. */
  datatype Speed = Auto | Standard | Overdrive

  /** Math.round of a duration in samples, and the least it may be. */
  function Samples(least: nat, us: nat, perUs: real): (n: nat)
    requires perUs >= 0.0
    ensures n >= least
  {
    var n := (us as real * perUs + 0.5).Floor;
    if n < least then least else n
  }

  /** The thresholds of decodeSlotsProfile at `perUs` samples per microsecond. */
  function ProfileOf(perUs: real, overdrive: bool): (p: Profile)
    requires perUs >= 0.0
    ensures p.advance > 0
  {
    if overdrive then
      Profile(Samples(2, 24, perUs), Samples(1, 3, perUs), Samples(2, 5, perUs), Samples(0, 40, perUs),
              Samples(1, 4, perUs), Samples(0, 400, perUs), true)
    else
      Profile(Samples(2, 300, perUs), Samples(1, 20, perUs), Samples(2, 55, perUs), Samples(0, 200, perUs),
              Samples(1, 30, perUs), Samples(0, 400, perUs), false)
  }

  datatype Ev =
    | ResetEv(t: nat, presence: bool, presT: nat, presLen: nat, lowLen: nat)
    | BitEv(t: nat, bit: bool, lowLen: nat)

  // ---- specification ----

  /** First sample from k on that is high, or the end. */
  function EndLow(l: seq<bool>, k: nat): (j: nat)
    requires k <= |l|
    ensures k <= j <= |l| && (forall i | k <= i < j :: !l[i]) && (j < |l| ==> l[j])
    decreases |l| - k
  {
    if k < |l| && !l[k] then EndLow(l, k + 1) else k
  }

  predicate Falls(l: seq<bool>, i: nat) {
    i + 1 < |l| && l[i] && !l[i + 1]
  }

  /** The first low pulse of at least presLow samples from e on that starts before end: its start
      and length. */
  function FindPresence(l: seq<bool>, e: nat, end: nat, presLow: nat): (r: Option<(nat, nat)>)
    requires end <= |l|
    ensures r.Some? ==> r.value.0 > e
    decreases end - e
  {
    if e + 1 >= end then None
    else if Falls(l, e) then
      var f := EndLow(l, e + 1);
      if f - (e + 1) >= presLow then Some((e + 1, f - (e + 1))) else FindPresence(l, f, end, presLow)
    else FindPresence(l, e + 1, end, presLow)
  }

  /** The event of the falling edge behind i, and where the scan goes on. */
  function EventAt(l: seq<bool>, p: Profile, i: nat): (r: (Ev, nat))
    requires Falls(l, i) && p.advance > 0
    ensures r.1 > i
  {
    var j := EndLow(l, i + 1);
    var low := j - (i + 1);
    if low >= p.resetLow then
      var pres := FindPresence(l, j, Min(|l|, j + p.presWin), p.presLow);
      (ResetEv(i + 1, pres.Some?, if pres.Some? then pres.value.0 else 0, if pres.Some? then pres.value.1 else 0, low),
       if !p.overdrive then j + p.skip else if pres.Some? then pres.value.0 + pres.value.1 else j)
    else
      var t := i + 1 + p.sampleAt;
      (BitEv(i + 1, if t < |l| then l[t] else true, low), i + 1 + p.advance)
  }

  function DecodeFrom(l: seq<bool>, p: Profile, i: nat): seq<Ev>
    requires p.advance > 0
    decreases |l| - i
  {
    if i + 1 >= |l| then []
    else if Falls(l, i) then
      var (ev, next) := EventAt(l, p, i);
      [ev] + DecodeFrom(l, p, next)
    else DecodeFrom(l, p, i + 1)
  }

  /** detectSpeed looks at the low pulses: standard at the first that is a standard reset, overdrive
      if only overdrive resets were seen. */
  predicate OverdriveFrom(l: seq<bool>, perUs: real, i: nat, sawOd: bool)
    requires perUs >= 0.0
    decreases |l| - i
  {
    if i + 1 >= |l| then sawOd
    else if Falls(l, i) then
      var j := EndLow(l, i + 1);
      j - (i + 1) < Samples(2, 300, perUs)
      && OverdriveFrom(l, perUs, j, sawOd || j - (i + 1) >= Samples(2, 30, perUs))
    else OverdriveFrom(l, perUs, i + 1, sawOd)
  }

  /** decodeSlots */
  function Decoding(l: seq<bool>, perUs: real, speed: Speed): seq<Ev>
    requires perUs >= 0.0
  {
    DecodeFrom(l, ProfileOf(perUs, speed == Overdrive || (speed == Auto && OverdriveFrom(l, perUs, 0, false))), 0)
  }

  // ---- the loops ----

  method ScanLow(l: seq<bool>, k: nat) returns (j: nat)
    requires k <= |l|
    ensures j == EndLow(l, k)
  {
    j := k;
    while j < |l| && !l[j]
      invariant k <= j <= |l| && EndLow(l, j) == EndLow(l, k)
    {
      j := j + 1;
    }
  }

  method ScanPresence(l: seq<bool>, j: nat, end: nat, presLow: nat) returns (r: Option<(nat, nat)>)
    requires end <= |l|
    ensures r == FindPresence(l, j, end, presLow)
  {
    var e := j;
    while e + 1 < end
      invariant FindPresence(l, e, end, presLow) == FindPresence(l, j, end, presLow)
      decreases end - e
    {
      if l[e] && !l[e + 1] {
        var f := ScanLow(l, e + 1);
        if f - (e + 1) >= presLow {
          return Some((e + 1, f - (e + 1)));
        }
        e := f;
      } else {
        e := e + 1;
      }
    }
    return None;
  }

  /** decodeSlotsProfile */
  method DecodeSlotsProfile(l: seq<bool>, perUs: real, overdrive: bool) returns (ev: seq<Ev>)
    requires perUs >= 0.0
    ensures ev == DecodeFrom(l, ProfileOf(perUs, overdrive), 0)
  {
    hide FindPresence, EndLow, ProfileOf;
    var p := ProfileOf(perUs, overdrive);
    ev := [];
    var i := 0;
    while i + 1 < |l|
      invariant ev + DecodeFrom(l, p, i) == DecodeFrom(l, p, 0)
      decreases |l| - i
    {
      if l[i] && !l[i + 1] {
        var j := ScanLow(l, i + 1);
        var low := j - (i + 1);
        ghost var rest := DecodeFrom(l, p, EventAt(l, p, i).1);
        ghost var sofar := ev;
        ghost var at := EventAt(l, p, i);
        if low >= p.resetLow {
          var pres := ScanPresence(l, j, Min(|l|, j + p.presWin), p.presLow);
          var presT, presLen := 0, 0;
          if pres.Some? {
            presT, presLen := pres.value.0, pres.value.1;
          }
          ev := ev + [ResetEv(i + 1, pres.Some?, presT, presLen, low)];
          if !p.overdrive {
            i := j + p.skip;
          } else if pres.Some? {
            i := presT + presLen;
          } else {
            i := j;
          }
        } else {
          var t := i + 1 + p.sampleAt;
          ev := ev + [BitEv(i + 1, if t < |l| then l[t] else true, low)];
          i := i + 1 + p.advance;
        }
        assert sofar + ([at.0] + rest) == (sofar + [at.0]) + rest;
      } else {
        i := i + 1;
      }
    }
  }

  /** detectSpeed */
  method DetectSpeed(l: seq<bool>, perUs: real) returns (speed: Speed)
    requires perUs >= 0.0
    ensures speed == if OverdriveFrom(l, perUs, 0, false) then Overdrive else Standard
  {
    hide Samples;
    var stdReset, odReset := Samples(2, 300, perUs), Samples(2, 30, perUs);
    var sawOd := false;
    var i := 0;
    while i + 1 < |l|
      invariant OverdriveFrom(l, perUs, i, sawOd) == OverdriveFrom(l, perUs, 0, false)
      decreases |l| - i
    {
      if l[i] && !l[i + 1] {
        var j := ScanLow(l, i + 1);
        var low := j - (i + 1);
        if low >= stdReset {
          return Standard;
        }
        if low >= odReset {
          sawOd := true;
        }
        i := j - 1;
      }
      i := i + 1;
    }
    return if sawOd then Overdrive else Standard;
  }

  /** decodeSlots */
  method DecodeSlots(l: seq<bool>, perUs: real, speed: Speed) returns (ev: seq<Ev>)
    requires perUs >= 0.0
    ensures ev == Decoding(l, perUs, speed)
  {
    hide DecodeFrom, ProfileOf, OverdriveFrom;
    var mode := speed;
    if mode == Auto {
      mode := DetectSpeed(l, perUs);
    }
    ev := DecodeSlotsProfile(l, perUs, mode == Overdrive);
  }
}
