/** What the viewer decodes of rendered waveforms, at standard speed as its demo generator renders them
    and at overdrive speed, sampled at any whole number of samples per microsecond. */
module SlotRoundTrip {
  import opened Bits
  import opened SlotDecoder

  /** A reset with or without a presence pulse, one slot, or idle samples. */
  datatype Item = Reset(presence: bool) | Slot(bit: bool) | Idle(samples: nat)

  /** Samples per microsecond, and the speed of the bus. */
  datatype Wave = Wave(n: nat, od: bool)

  type Rate = w: Wave | w.n >= 1 witness Wave(1, false)

  function High(n: nat): (w: seq<bool>)
    ensures |w| == n
  {
    seq(n, _ => true)
  }

  function Low(n: nat): (w: seq<bool>)
    ensures |w| == n
  {
    seq(n, _ => false)
  }

  function LowTime(bit: bool, w: Rate): nat {
    if w.od then (if bit then w.n else 8 * w.n) else (if bit then 6 * w.n else 60 * w.n)
  }

  /** The waveform of one item. */
  function Shape(x: Item, w: Rate): seq<bool> {
    match x
    case Reset(presence) =>
      if w.od then
        if presence then Low(60 * w.n) + High(4 * w.n) + Low(10 * w.n) + High(6 * w.n)
        else Low(60 * w.n) + High(40 * w.n)
      else if presence then Low(480 * w.n) + High(30 * w.n) + Low(100 * w.n) + High(400 * w.n)
      else Low(480 * w.n) + High(530 * w.n)
    case Slot(bit) =>
      if w.od then (if bit then Low(w.n) + High(9 * w.n) else Low(8 * w.n) + High(2 * w.n))
      else if bit then Low(6 * w.n) + High(64 * w.n) else Low(60 * w.n) + High(10 * w.n)
    case Idle(samples) => High(samples)
  }

  /** How many samples an item takes. */
  function Length(x: Item, w: Rate): nat {
    match x
    case Reset(presence) => if w.od then (if presence then 80 * w.n else 100 * w.n) else 1010 * w.n
    case Slot(_) => if w.od then 10 * w.n else 70 * w.n
    case Idle(samples) => samples
  }

  function Render(items: seq<Item>, w: Rate): seq<bool> {
    if items == [] then [] else Shape(items[0], w) + Render(items[1..], w)
  }

  /** The events of one item, and of items, that begin at sample `at`. */
  function ItemEvents(x: Item, w: Rate, at: nat): seq<Ev> {
    match x
    case Reset(presence) =>
      if !presence then [ResetEv(at, false, 0, 0, if w.od then 60 * w.n else 480 * w.n)]
      else if w.od then [ResetEv(at, true, at + 64 * w.n, 10 * w.n, 60 * w.n)]
      else [ResetEv(at, true, at + 510 * w.n, 100 * w.n, 480 * w.n)]
    case Slot(bit) => [BitEv(at, bit, LowTime(bit, w))]
    case Idle(_) => []
  }

  function Events(items: seq<Item>, w: Rate, at: nat): seq<Ev> {
    if items == [] then []
    else ItemEvents(items[0], w, at) + Events(items[1..], w, at + |Shape(items[0], w)|)
  }

  /** Standard speed at one sample per microsecond. */
  const DEMO := Wave(1, false)

  /** The generator: closures that push samples. */
  class Generator {
    var out: seq<bool>

    constructor ()
      ensures out == []
    {
      out := [];
    }

    /** hi and low */
    method Push(level: bool, us: nat)
      modifies this
      ensures out == old(out) + if level then High(us) else Low(us)
    {
      for k := 0 to us
        invariant out == old(out) + if level then High(k) else Low(k)
      {
        out := out + [level];
      }
    }

    method PushItem(x: Item)
      modifies this
      ensures out == old(out) + Shape(x, DEMO)
    {
      match x
      case Slot(bit) =>
        Push(false, if bit then 6 else 60);
        Push(true, if bit then 64 else 10);
      case Reset(presence) =>
        Push(false, 480);
        if presence {
          Push(true, 30);
          Push(false, 100);
          Push(true, 400);
        } else {
          Push(true, 530);
        }
      case Idle(samples) =>
        Push(true, samples);
    }

    /** byte: least significant bit first. */
    method PushByte(v: byte)
      modifies this
      ensures out == old(out) + Render(Slots(ByteBits(v)), DEMO)
    {
      hide ByteBits, Shape;
      assert Slots(ByteBits(v)[..0]) == [];
      for b := 0 to 8
        invariant out == old(out) + Render(Slots(ByteBits(v)[..b]), DEMO)
      {
        PushItem(Slot(ByteBits(v)[b]));
        assert Slots(ByteBits(v)[..b + 1]) == Slots(ByteBits(v)[..b]) + [Slot(ByteBits(v)[b])];
        RenderAppend(Slots(ByteBits(v)[..b]), Slot(ByteBits(v)[b]), DEMO);
      }
      assert ByteBits(v)[..8] == ByteBits(v);
    }
  }

  lemma {:induction false} RenderAppend(items: seq<Item>, x: Item, w: Rate)
    ensures Render(items + [x], w) == Render(items, w) + Shape(x, w)
  {
    hide Shape;
    if items == [] {
      assert [x][1..] == [];
    } else {
      RenderAppend(items[1..], x, w);
      assert (items + [x])[1..] == items[1..] + [x];
    }
  }

  // ---- scanning ----

  /** No falling edge in [i, j). */
  predicate Quiet(l: seq<bool>, i: nat, j: nat) {
    forall k | i <= k < j :: !Falls(l, k)
  }

  lemma {:induction false} SkipQuiet(l: seq<bool>, p: Profile, i: nat, j: nat)
    requires p.advance > 0 && i <= j < |l| && Quiet(l, i, j)
    ensures DecodeFrom(l, p, i) == DecodeFrom(l, p, j)
    decreases j - i
  {
    if i < j {
      SkipQuiet(l, p, i + 1, j);
    }
  }

  lemma {:induction false} EndLowIs(l: seq<bool>, k: nat, j: nat)
    requires k <= j <= |l| && (forall i | k <= i < j :: !l[i]) && (j < |l| ==> l[j])
    ensures EndLow(l, k) == j
    decreases j - k
  {
    if k < j {
      EndLowIs(l, k + 1, j);
    }
  }

  /** A waveform that has been high at its last sample, followed by items. */
  predicate Placed(l: seq<bool>, w: Rate, at: nat, items: seq<Item>): (holds: bool)
    ensures holds ==> 1 <= at <= |l|
  {
    1 <= at <= |l| && l[at - 1] && l[at..] == Render(items, w)
  }

  lemma ShapeFacts(x: Item, w: Rate)
    ensures |Shape(x, w)| == Length(x, w)
    ensures Shape(x, w) != [] ==> Shape(x, w)[|Shape(x, w)| - 1]
  {
  }

  lemma FirstItem(l: seq<bool>, w: Rate, at: nat, items: seq<Item>)
    requires Placed(l, w, at, items) && items != []
    ensures at + Length(items[0], w) <= |l| && |Shape(items[0], w)| == Length(items[0], w)
    ensures Placed(l, w, at + Length(items[0], w), items[1..])
  {
    hide Shape, Length;
    var s := Shape(items[0], w);
    ShapeFacts(items[0], w);
    assert l[at..][..|s|] == s && l[at..][|s|..] == Render(items[1..], w);
    if s != [] {
      assert l[at + |s| - 1] == l[at..][|s| - 1];
    }
  }

  lemma ItemAt(l: seq<bool>, w: Rate, at: nat, items: seq<Item>, k: nat)
    requires Placed(l, w, at, items) && items != [] && k < Length(items[0], w)
    ensures |Shape(items[0], w)| == Length(items[0], w)
    ensures at + k < |l| && l[at + k] == Shape(items[0], w)[k]
  {
    hide Shape, Length;
    ShapeFacts(items[0], w);
    assert l[at + k] == l[at..][k];
  }

  lemma Within(l: seq<bool>, w: Rate, at: nat, items: seq<Item>)
    requires Placed(l, w, at, items) && items != []
    ensures |Shape(items[0], w)| == Length(items[0], w) && at + Length(items[0], w) <= |l|
    ensures forall k | 0 <= k < Length(items[0], w) :: l[at + k] == Shape(items[0], w)[k]
  {
    hide Shape, Render, Placed, Length;
    FirstItem(l, w, at, items);
    forall k | 0 <= k < Length(items[0], w) ensures l[at + k] == Shape(items[0], w)[k] {
      ItemAt(l, w, at, items, k);
    }
  }

  lemma {:induction false} SkipPresence(l: seq<bool>, e: nat, f: nat, end: nat, presLow: nat)
    requires e <= f < end <= |l| && Quiet(l, e, f)
    ensures FindPresence(l, e, end, presLow) == FindPresence(l, f, end, presLow)
    decreases f - e
  {
    if e < f {
      SkipPresence(l, e + 1, f, end, presLow);
    }
  }

  /** The thresholds that go with a waveform. */
  function Thresholds(w: Rate): (p: Profile)
    ensures p.advance > 0
  {
    ProfileOf(w.n as real, w.od)
  }

  /** Rounding does nothing at a whole number of samples per microsecond. */
  lemma WholeSamples(least: nat, us: nat, n: nat)
    requires least <= us && n >= 1
    ensures Samples(least, us, n as real) == us * n
  {
    assert (us * n) as real == us as real * n as real;
    assert us * n >= us;
  }

  lemma WholeRate(w: Rate)
    ensures !w.od ==> Thresholds(w) == Profile(300 * w.n, 20 * w.n, 55 * w.n, 200 * w.n, 30 * w.n, 400 * w.n, false)
    ensures w.od ==> Thresholds(w) == Profile(24 * w.n, 3 * w.n, 5 * w.n, 40 * w.n, 4 * w.n, 400 * w.n, true)
  {
    hide Samples;
    WholeSamples(2, 300, w.n);
    WholeSamples(1, 20, w.n);
    WholeSamples(2, 55, w.n);
    WholeSamples(0, 200, w.n);
    WholeSamples(1, 30, w.n);
    WholeSamples(0, 400, w.n);
    WholeSamples(2, 24, w.n);
    WholeSamples(1, 3, w.n);
    WholeSamples(2, 5, w.n);
    WholeSamples(0, 40, w.n);
    WholeSamples(1, 4, w.n);
  }

  // ---- slots ----

  /** Where the decoder goes on behind a slot's falling edge. */
  function SlotNext(w: Rate, at: nat): nat {
    if w.od then at + 5 * w.n else at + 55 * w.n
  }

  lemma SlotLow(l: seq<bool>, w: Rate, at: nat, items: seq<Item>)
    requires Placed(l, w, at, items) && items != [] && items[0].Slot?
    ensures Falls(l, at - 1) && at + Length(items[0], w) <= |l|
    ensures EndLow(l, at) == at + LowTime(items[0].bit, w)
    ensures Quiet(l, at + LowTime(items[0].bit, w), at + Length(items[0], w) - 1)
    ensures SlotNext(w, at) < at + Length(items[0], w)
    ensures Quiet(l, SlotNext(w, at), at + Length(items[0], w) - 1)
  {
    Within(l, w, at, items);
    EndLowIs(l, at, at + LowTime(items[0].bit, w));
  }

  /** What is sampled in a slot. */
  lemma SlotSample(l: seq<bool>, w: Rate, at: nat, items: seq<Item>)
    requires Placed(l, w, at, items) && items != [] && items[0].Slot?
    ensures at + Length(items[0], w) <= |l|
    ensures if w.od then l[at + 3 * w.n] == items[0].bit else !l[at + 3 * w.n] && l[at + 20 * w.n] == items[0].bit
  {
    Within(l, w, at, items);
  }

  lemma SlotEvent(l: seq<bool>, w: Rate, at: nat, items: seq<Item>)
    requires Placed(l, w, at, items) && items != [] && items[0].Slot?
    ensures var bit := items[0].bit;
            && Falls(l, at - 1)
            && EventAt(l, Thresholds(w), at - 1) == (BitEv(at, bit, LowTime(bit, w)), SlotNext(w, at))
  {
    hide Thresholds, Placed, EndLow, Falls, Quiet;
    WholeRate(w);
    SlotLow(l, w, at, items);
    SlotSample(l, w, at, items);
  }

  // ---- resets ----

  function ResetTime(w: Rate): nat {
    if w.od then 60 * w.n else 480 * w.n
  }

  /** Where the decoder goes on behind a reset. */
  function ResetNext(presence: bool, w: Rate, at: nat): nat {
    if w.od then (if presence then at + 74 * w.n else at + 60 * w.n) else at + 880 * w.n
  }

  lemma ResetLow(l: seq<bool>, w: Rate, at: nat, items: seq<Item>)
    requires Placed(l, w, at, items) && items != [] && items[0].Reset?
    ensures Falls(l, at - 1) && EndLow(l, at) == at + ResetTime(w) && at + Length(items[0], w) <= |l|
    ensures ResetNext(items[0].presence, w, at) < at + Length(items[0], w)
    ensures Quiet(l, ResetNext(items[0].presence, w, at), at + Length(items[0], w) - 1)
  {
    Within(l, w, at, items);
    EndLowIs(l, at, at + ResetTime(w));
  }

  /** The level of every sample of a reset. */
  lemma ResetLevels(l: seq<bool>, w: Rate, at: nat, items: seq<Item>, k: nat)
    requires Placed(l, w, at, items) && items != [] && items[0].Reset? && k < Length(items[0], w)
    ensures at + k < |l|
    ensures var n := w.n;
            l[at + k] <==>
              if !items[0].presence then k >= ResetTime(w)
              else if w.od then 60 * n <= k < 64 * n || 74 * n <= k
              else 480 * n <= k < 510 * n || 610 * n <= k
  {
    hide Placed, Render;
    ItemAt(l, w, at, items, k);
  }

  lemma PresenceFound(l: seq<bool>, w: Rate, at: nat, items: seq<Item>)
    requires Placed(l, w, at, items) && items != [] && items[0] == Reset(true) && at + Length(items[0], w) <= |l|
    requires !w.od
    ensures FindPresence(l, at + 480 * w.n, at + 680 * w.n, 30 * w.n) == Some((at + 510 * w.n, 100 * w.n))
  {
    hide EndLow, Placed;
    var n := w.n;
    forall i | at + 480 * n <= i <= at + 610 * n ensures l[i] <==> i < at + 510 * n || i == at + 610 * n {
      ResetLevels(l, w, at, items, i - at);
    }
    SkipPresence(l, at + 480 * n, at + 510 * n - 1, at + 680 * n, 30 * n);
    EndLowIs(l, at + 510 * n, at + 610 * n);
  }

  lemma FastPresenceFound(l: seq<bool>, w: Rate, at: nat, items: seq<Item>, end: nat)
    requires Placed(l, w, at, items) && items != [] && items[0] == Reset(true) && w.od
    requires at + 80 * w.n <= end <= |l|
    ensures FindPresence(l, at + 60 * w.n, end, 4 * w.n) == Some((at + 64 * w.n, 10 * w.n))
  {
    hide EndLow, Placed;
    var n := w.n;
    forall i | at + 60 * n <= i <= at + 74 * n ensures l[i] <==> i < at + 64 * n || i == at + 74 * n {
      ResetLevels(l, w, at, items, i - at);
    }
    SkipPresence(l, at + 60 * n, at + 64 * n - 1, end, 4 * n);
    EndLowIs(l, at + 64 * n, at + 74 * n);
  }

  /** Nothing falls in the window behind a reset that nobody answers. */
  lemma NoPresence(l: seq<bool>, w: Rate, at: nat, items: seq<Item>, end: nat, presLow: nat)
    requires Placed(l, w, at, items) && items != [] && items[0] == Reset(false)
    requires at + ResetTime(w) < end <= at + Length(items[0], w) <= |l|
    ensures FindPresence(l, at + ResetTime(w), end, presLow) == None
  {
    hide EndLow, Placed, Length;
    forall i | at + ResetTime(w) <= i < end ensures l[i] {
      ResetLevels(l, w, at, items, i - at);
    }
    SkipPresence(l, at + ResetTime(w), end - 1, end, presLow);
  }

  lemma ResetEvent(l: seq<bool>, w: Rate, at: nat, items: seq<Item>)
    requires Placed(l, w, at, items) && items != [] && items[0].Reset?
    ensures Falls(l, at - 1)
    ensures EventAt(l, Thresholds(w), at - 1) ==
              (ItemEvents(items[0], w, at)[0], ResetNext(items[0].presence, w, at))
  {
    hide Thresholds, Placed, EndLow, Falls, Quiet, FindPresence;
    WholeRate(w);
    ResetLow(l, w, at, items);
    var n := w.n;
    var end := Min(|l|, at + ResetTime(w) + if w.od then 40 * n else 200 * n);
    if !items[0].presence {
      NoPresence(l, w, at, items, end, if w.od then 4 * n else 30 * n);
    } else if w.od {
      FastPresenceFound(l, w, at, items, end);
    } else {
      PresenceFound(l, w, at, items);
    }
  }

  lemma IdleQuiet(l: seq<bool>, w: Rate, at: nat, items: seq<Item>)
    requires Placed(l, w, at, items) && items != [] && items[0].Idle?
    ensures Quiet(l, at - 1, at + items[0].samples - 1)
  {
    Within(l, w, at, items);
  }

  // ---- the round trip ----

  lemma OneEvent(l: seq<bool>, p: Profile, i: nat, j: nat)
    requires p.advance > 0 && Falls(l, i) && EventAt(l, p, i).1 <= j < |l| && Quiet(l, EventAt(l, p, i).1, j)
    ensures DecodeFrom(l, p, i) == [EventAt(l, p, i).0] + DecodeFrom(l, p, j)
  {
    hide EventAt, Quiet;
    SkipQuiet(l, p, EventAt(l, p, i).1, j);
  }

  /** Decoding one item brings the scan to the last sample of its waveform. */
  lemma DecodesItem(l: seq<bool>, w: Rate, at: nat, items: seq<Item>)
    requires Placed(l, w, at, items) && items != []
    ensures at + Length(items[0], w) <= |l|
    ensures DecodeFrom(l, Thresholds(w), at - 1) ==
              ItemEvents(items[0], w, at) + DecodeFrom(l, Thresholds(w), at + Length(items[0], w) - 1)
  {
    hide Shape, Falls, EventAt, Quiet, Thresholds, Placed, DecodeFrom, Length, SlotNext, ResetNext, EndLow;
    var p, next := Thresholds(w), at + Length(items[0], w) - 1;
    FirstItem(l, w, at, items);
    match items[0]
    case Slot(bit) =>
      SlotEvent(l, w, at, items);
      SlotLow(l, w, at, items);
      OneEvent(l, p, at - 1, next);
    case Reset(_) =>
      ResetEvent(l, w, at, items);
      ResetLow(l, w, at, items);
      OneEvent(l, p, at - 1, next);
    case Idle(samples) =>
      IdleQuiet(l, w, at, items);
      IdleLength(items[0], w);
      SkipQuiet(l, p, at - 1, next);
  }

  lemma IdleLength(x: Item, w: Rate)
    requires x.Idle?
    ensures Length(x, w) == x.samples
  {
  }

  lemma NothingLeft(l: seq<bool>, w: Rate, at: nat)
    requires Placed(l, w, at, [])
    ensures at == |l|
  {
    assert |l[at..]| == 0;
  }

  /** Whatever is rendered behind a high sample is decoded again: every reset with its presence
      pulse, every bit, and every falling edge at its place. */
  lemma {:induction false} DecodesRendered(l: seq<bool>, w: Rate, at: nat, items: seq<Item>)
    requires Placed(l, w, at, items)
    ensures DecodeFrom(l, Thresholds(w), at - 1) == Events(items, w, at)
    decreases |items|
  {
    hide Shape, ItemEvents, Thresholds, Placed, EventAt, Length;
    if items == [] {
      NothingLeft(l, w, at);
    } else {
      FirstItem(l, w, at, items);
      DecodesItem(l, w, at, items);
      DecodesRendered(l, w, at + Length(items[0], w), items[1..]);
    }
  }

  function SpeedOf(w: Rate): Speed {
    if w.od then Overdrive else Standard
  }

  /** Idle samples and then any items, rendered at either speed, come back when they are decoded at
      that speed. */
  lemma RoundTrip(lead: nat, items: seq<Item>, w: Rate)
    requires lead >= 1
    ensures Decoding(High(lead) + Render(items, w), w.n as real, SpeedOf(w)) == Events(items, w, lead)
  {
    hide Render, Events;
    var l := High(lead) + Render(items, w);
    assert l[lead..] == Render(items, w);
    assert Quiet(l, 0, lead - 1);
    SkipQuiet(l, Thresholds(w), 0, lead - 1);
    DecodesRendered(l, w, lead, items);
  }

  /** A bit string as slots. */
  function Slots(bits: seq<bool>): seq<Item> {
    seq(|bits|, i requires 0 <= i < |bits| => Slot(bits[i]))
  }

  lemma {:induction false} SlotEvents(bits: seq<bool>, at: nat, k: nat)
    requires k < |bits|
    ensures |Events(Slots(bits), DEMO, at)| == |bits|
    ensures Events(Slots(bits), DEMO, at)[k] == BitEv(at + 70 * k, bits[k], if bits[k] then 6 else 60)
    decreases |bits|
  {
    hide Shape;
    ShapeFacts(Slot(bits[0]), DEMO);
    assert Slots(bits)[1..] == Slots(bits[1..]);
    if |bits| > 1 {
      SlotEvents(bits[1..], at + 70, if k == 0 then 0 else k - 1);
    }
  }

  /** Bytes sent slot by slot, least significant bit first, are decoded bit by bit: one event every
      70 us. */
  lemma BytesRoundTrip(lead: nat, bytes: seq<byte>, k: nat)
    requires lead >= 1 && k < 8 * |bytes|
    ensures var ev := Decoding(High(lead) + Render(Slots(BitsOf(bytes)), DEMO), 1.0, Standard);
            |ev| == 8 * |bytes| && ev[k].BitEv? && ev[k].bit == BitsOf(bytes)[k] && ev[k].t == lead + 70 * k
  {
    hide BitsOf, Render, Events, Decoding;
    RoundTrip(lead, Slots(BitsOf(bytes)), DEMO);
    SlotEvents(BitsOf(bytes), lead, k);
  }

  // ---- automatic speed ----

  predicate HasReset(items: seq<Item>) {
    exists i | 0 <= i < |items| :: items[i].Reset?
  }

  predicate HasZero(items: seq<Item>) {
    exists i | 0 <= i < |items| :: items[i] == Slot(false)
  }

  lemma HeadOrTail(items: seq<Item>)
    requires items != []
    ensures HasReset(items) <==> items[0].Reset? || HasReset(items[1..])
    ensures HasZero(items) <==> items[0] == Slot(false) || HasZero(items[1..])
  {
    assert forall i | 1 <= i < |items| :: items[i] == items[1..][i - 1];
  }

  lemma NoItems()
    ensures !HasReset([]) && !HasZero([])
  {
  }

  lemma {:induction false} SkipSpeed(l: seq<bool>, perUs: real, i: nat, j: nat, sawOd: bool)
    requires perUs >= 0.0 && i <= j < |l| && Quiet(l, i, j)
    ensures OverdriveFrom(l, perUs, i, sawOd) == OverdriveFrom(l, perUs, j, sawOd)
    decreases j - i
  {
    if i < j {
      SkipSpeed(l, perUs, i + 1, j, sawOd);
    }
  }

  /** One low pulse of a waveform that is no standard reset. */
  lemma SpeedBehindLow(l: seq<bool>, n: nat, i: nat, low: nat, next: nat, sawOd: bool)
    requires n >= 1 && Falls(l, i) && EndLow(l, i + 1) == i + 1 + low && low < 300 * n
    requires i + 1 + low <= next < |l| && Quiet(l, i + 1 + low, next)
    ensures OverdriveFrom(l, n as real, i, sawOd) == OverdriveFrom(l, n as real, next, sawOd || low >= 30 * n)
  {
    hide Samples, Falls, Quiet, EndLow;
    WholeSamples(2, 300, n);
    WholeSamples(2, 30, n);
    SkipSpeed(l, n as real, i + 1 + low, next, sawOd || low >= 30 * n);
  }

  /** A standard 0 is long enough for an overdrive reset; no other slot is. */
  lemma SpeedBehindSlot(l: seq<bool>, w: Rate, at: nat, items: seq<Item>, sawOd: bool)
    requires Placed(l, w, at, items) && items != [] && items[0].Slot?
    ensures at + Length(items[0], w) <= |l|
    ensures OverdriveFrom(l, w.n as real, at - 1, sawOd) ==
              OverdriveFrom(l, w.n as real, at + Length(items[0], w) - 1, sawOd || (!w.od && !items[0].bit))
  {
    hide Placed, Falls, Quiet, EndLow, OverdriveFrom;
    SlotLow(l, w, at, items);
    SpeedBehindLow(l, w.n, at - 1, LowTime(items[0].bit, w), at + Length(items[0], w) - 1, sawOd);
  }

  lemma StandardReset(l: seq<bool>, w: Rate, at: nat, items: seq<Item>, sawOd: bool)
    requires Placed(l, w, at, items) && items != [] && items[0].Reset? && !w.od
    ensures !OverdriveFrom(l, w.n as real, at - 1, sawOd)
  {
    hide Samples, Placed, EndLow, Falls, Quiet;
    ResetLow(l, w, at, items);
    WholeSamples(2, 300, w.n);
  }

  /** An overdrive reset, with or without its presence pulse, is seen and passed. */
  lemma OverdriveReset(l: seq<bool>, w: Rate, at: nat, items: seq<Item>, sawOd: bool)
    requires Placed(l, w, at, items) && items != [] && items[0].Reset? && w.od
    ensures at + Length(items[0], w) <= |l|
    ensures OverdriveFrom(l, w.n as real, at - 1, sawOd) ==
              OverdriveFrom(l, w.n as real, at + Length(items[0], w) - 1, true)
  {
    hide Placed, EndLow, Falls, Quiet, OverdriveFrom;
    ResetLow(l, w, at, items);
    var n := w.n;
    if items[0].presence {
      PresenceLow(l, w, at, items);
      SpeedBehindLow(l, n, at - 1, 60 * n, at + 64 * n - 1, sawOd);
      SpeedBehindLow(l, n, at + 64 * n - 1, 10 * n, at + 80 * n - 1, true);
    } else {
      SpeedBehindLow(l, n, at - 1, 60 * n, at + 100 * n - 1, sawOd);
    }
  }

  lemma PresenceLow(l: seq<bool>, w: Rate, at: nat, items: seq<Item>)
    requires Placed(l, w, at, items) && items != [] && items[0] == Reset(true) && w.od
    ensures at + 80 * w.n <= |l|
    ensures Quiet(l, at + 60 * w.n, at + 64 * w.n - 1) && Falls(l, at + 64 * w.n - 1)
    ensures EndLow(l, at + 64 * w.n) == at + 74 * w.n && Quiet(l, at + 74 * w.n, at + 80 * w.n - 1)
  {
    hide Placed;
    var n := w.n;
    ResetLow(l, w, at, items);
    forall i | at + 60 * n <= i < at + 80 * n ensures l[i] <==> i < at + 64 * n || i >= at + 74 * n {
      ResetLevels(l, w, at, items, i - at);
    }
    EndLowIs(l, at + 64 * n, at + 74 * n);
  }

  lemma {:induction false} SpeedOfRendered(l: seq<bool>, w: Rate, at: nat, items: seq<Item>, sawOd: bool)
    requires Placed(l, w, at, items)
    ensures OverdriveFrom(l, w.n as real, at - 1, sawOd) <==>
              if w.od then sawOd || HasReset(items) else !HasReset(items) && (sawOd || HasZero(items))
    decreases |items|
  {
    hide Shape, Falls, EventAt, Quiet, EndLow, HasReset, HasZero, Samples, Placed, Length;
    if items == [] {
      NothingLeft(l, w, at);
      NoItems();
    } else {
      FirstItem(l, w, at, items);
      HeadOrTail(items);
      var next := at + Length(items[0], w);
      match items[0]
      case Slot(bit) =>
        SpeedBehindSlot(l, w, at, items, sawOd);
        SpeedOfRendered(l, w, next, items[1..], sawOd || (!w.od && !bit));
      case Reset(_) =>
        if w.od {
          OverdriveReset(l, w, at, items, sawOd);
          SpeedOfRendered(l, w, next, items[1..], true);
        } else {
          StandardReset(l, w, at, items, sawOd);
        }
      case Idle(samples) =>
        IdleQuiet(l, w, at, items);
        IdleLength(items[0], w);
        SkipSpeed(l, w.n as real, at - 1, next - 1, sawOd);
        SpeedOfRendered(l, w, next, items[1..], sawOd);
    }
  }

  lemma DecodeHead(l: seq<bool>, p: Profile, i: nat)
    requires p.advance > 0 && Falls(l, i)
    ensures DecodeFrom(l, p, i) != [] && DecodeFrom(l, p, i)[0] == EventAt(l, p, i).0
  {
    hide EventAt;
  }

  lemma EventsHead(items: seq<Item>, w: Rate, at: nat)
    requires items != [] && items[0].Slot?
    ensures Events(items, w, at) != [] && Events(items, w, at)[0] == BitEv(at, items[0].bit, LowTime(items[0].bit, w))
  {
    hide Shape;
  }

  lemma SlotDiffers(l: seq<bool>, w: Rate, at: nat, items: seq<Item>)
    requires Placed(l, w, at, items) && items != [] && items[0].Slot? && !w.od
    ensures DecodeFrom(l, Thresholds(w.(od := true)), at - 1) != Events(items, w, at)
  {
    hide Quiet, EndLow, FindPresence, Thresholds, Placed, Falls, DecodeFrom, Events;
    WholeRate(w.(od := true));
    SlotLow(l, w, at, items);
    SlotSample(l, w, at, items);
    EventsHead(items, w, at);
    DecodeHead(l, Thresholds(w.(od := true)), at - 1);
  }

  /** Read with the overdrive thresholds, the first slot already comes out wrong. */
  lemma {:induction false} OverdriveDiffers(l: seq<bool>, w: Rate, at: nat, items: seq<Item>)
    requires Placed(l, w, at, items) && !HasReset(items) && HasZero(items) && !w.od
    ensures DecodeFrom(l, Thresholds(w.(od := true)), at - 1) != Events(items, w, at)
    decreases |items|
  {
    hide Shape, Quiet, HasReset, HasZero, Thresholds, DecodeFrom, Placed, Length;
    if items == [] {
      NoItems();
    } else {
      FirstItem(l, w, at, items);
      HeadOrTail(items);
      match items[0]
      case Slot(bit) =>
        SlotDiffers(l, w, at, items);
      case Reset(_) =>
      case Idle(samples) =>
        IdleQuiet(l, w, at, items);
        IdleLength(items[0], w);
        SkipQuiet(l, Thresholds(w.(od := true)), at - 1, at + samples - 1);
        OverdriveDiffers(l, w, at + samples, items[1..]);
    }
  }

  /** With automatic speed items at standard speed come back exactly when they contain a reset, or no
      0: without a reset the 60 us of a 0 are taken for overdrive resets. */
  lemma AutoRoundTripIff(lead: nat, items: seq<Item>, w: Rate)
    requires lead >= 1 && !w.od
    ensures Decoding(High(lead) + Render(items, w), w.n as real, Auto) == Events(items, w, lead)
            <==> HasReset(items) || !HasZero(items)
  {
    hide Render, Events, DecodeFrom, OverdriveFrom, HasReset, HasZero, ProfileOf;
    var l := High(lead) + Render(items, w);
    assert l[lead..] == Render(items, w);
    assert Quiet(l, 0, lead - 1);
    SkipSpeed(l, w.n as real, 0, lead - 1, false);
    SpeedOfRendered(l, w, lead, items, false);
    if HasReset(items) || !HasZero(items) {
      RoundTrip(lead, items, w);
    } else {
      SkipQuiet(l, Thresholds(w.(od := true)), 0, lead - 1);
      OverdriveDiffers(l, w, lead, items);
    }
  }

  // ---- overdrive without a reset ----

  /** No slot begins within 55 us of the one before: `wait` samples are left of the 55 us. */
  predicate Apart(items: seq<Item>, w: Rate, wait: nat)
    decreases |items|
  {
    items == [] ||
    match items[0]
    case Slot(_) => wait == 0 && Apart(items[1..], w, 45 * w.n + 1)
    case Idle(samples) => Apart(items[1..], w, if wait <= samples then 0 else wait - samples)
    case Reset(_) => Apart(items[1..], w, 0)
  }

  lemma {:induction false} HighMeanwhile(l: seq<bool>, w: Rate, at: nat, items: seq<Item>, wait: nat, k: nat)
    requires Placed(l, w, at, items) && !HasReset(items) && Apart(items, w, wait) && k < wait && at + k < |l|
    ensures l[at + k]
    decreases |items|
  {
    hide Shape, Placed, HasReset, Length;
    if items == [] {
      NothingLeft(l, w, at);
    } else {
      FirstItem(l, w, at, items);
      HeadOrTail(items);
      match items[0]
      case Idle(samples) =>
        IdleLength(items[0], w);
        if k < samples {
          IdleHigh(l, w, at, items, k);
        } else {
          HighMeanwhile(l, w, at + samples, items[1..], wait - samples, k - samples);
        }
      case _ =>
    }
  }

  lemma IdleHigh(l: seq<bool>, w: Rate, at: nat, items: seq<Item>, k: nat)
    requires Placed(l, w, at, items) && items != [] && items[0].Idle? && k < items[0].samples
    ensures at + k < |l| && l[at + k]
  {
    hide Placed;
    ItemAt(l, w, at, items, k);
  }

  lemma {:induction false} EventsBehind(l: seq<bool>, p: Profile, i: nat)
    requires p.advance > 0 && DecodeFrom(l, p, i) != []
    ensures DecodeFrom(l, p, i)[0].t > i
    decreases |l| - i
  {
    if i + 1 < |l| && !Falls(l, i) {
      EventsBehind(l, p, i + 1);
    }
  }

  /** An overdrive slot read with the standard thresholds: the level 20 us behind its edge. */
  lemma SlowEvent(l: seq<bool>, w: Rate, at: nat, items: seq<Item>)
    requires Placed(l, w, at, items) && items != [] && items[0].Slot? && w.od
    ensures Falls(l, at - 1)
    ensures var level := if at + 20 * w.n < |l| then l[at + 20 * w.n] else true;
            EventAt(l, Thresholds(w.(od := false)), at - 1) ==
              (BitEv(at, level, LowTime(items[0].bit, w)), at + 55 * w.n)
  {
    hide Thresholds, Placed, EndLow, Falls, Quiet;
    WholeRate(w.(od := false));
    SlotLow(l, w, at, items);
  }

  lemma SlowSlot(l: seq<bool>, w: Rate, at: nat, items: seq<Item>)
    requires Placed(l, w, at, items) && items != [] && items[0].Slot? && w.od
    ensures var level := if at + 20 * w.n < |l| then l[at + 20 * w.n] else true;
            var p := Thresholds(w.(od := false));
            DecodeFrom(l, p, at - 1) ==
              [BitEv(at, level, LowTime(items[0].bit, w))] + DecodeFrom(l, p, at + 55 * w.n)
  {
    hide EventAt, Thresholds, Placed;
    SlowEvent(l, w, at, items);
  }

  lemma SameHead(a: Ev, r: seq<Ev>, b: Ev, s: seq<Ev>)
    ensures [a] + r == [b] + s <==> a == b && r == s
  {
    if [a] + r == [b] + s {
      assert r == ([a] + r)[1..] && s == ([b] + s)[1..];
      assert a == ([a] + r)[0];
    }
  }

  lemma SlotFirst(items: seq<Item>, w: Rate, at: nat)
    requires items != [] && items[0].Slot? && w.od
    ensures Events(items, w, at) ==
              [BitEv(at, items[0].bit, LowTime(items[0].bit, w))] + Events(items[1..], w, at + 10 * w.n)
  {
    hide Shape;
    ShapeFacts(items[0], w);
  }

  /** It comes out right, and so does what follows. */
  lemma SlowSlotIff(l: seq<bool>, w: Rate, at: nat, items: seq<Item>)
    requires Placed(l, w, at, items) && items != [] && items[0].Slot? && w.od
    ensures var level := if at + 20 * w.n < |l| then l[at + 20 * w.n] else true;
            var p := Thresholds(w.(od := false));
            DecodeFrom(l, p, at - 1) == Events(items, w, at) <==>
              level == items[0].bit && DecodeFrom(l, p, at + 55 * w.n) == Events(items[1..], w, at + 10 * w.n)
  {
    hide Placed, DecodeFrom, Thresholds, Events, LowTime;
    SlowSlot(l, w, at, items);
    SlotFirst(items, w, at);
    var level := if at + 20 * w.n < |l| then l[at + 20 * w.n] else true;
    var low := LowTime(items[0].bit, w);
    SameHead(BitEv(at, level, low), DecodeFrom(l, Thresholds(w.(od := false)), at + 55 * w.n),
             BitEv(at, items[0].bit, low), Events(items[1..], w, at + 10 * w.n));
  }

  /** Slots and idle time at overdrive speed, read with the standard thresholds from `wait` samples on. */
  lemma {:induction false} SlowIff(l: seq<bool>, w: Rate, at: nat, items: seq<Item>, wait: nat)
    requires Placed(l, w, at, items) && !HasReset(items) && w.od
    ensures DecodeFrom(l, Thresholds(w.(od := false)), at - 1 + wait) == Events(items, w, at)
            <==> !HasZero(items) && Apart(items, w, wait)
    decreases |items|
  {
    hide Shape, Quiet, HasReset, HasZero, Thresholds, DecodeFrom, Placed, Length, EndLow, Falls;
    var p := Thresholds(w.(od := false));
    if items == [] {
      NothingLeft(l, w, at);
      NoItems();
      PastEnd(l, p, at - 1 + wait);
    } else {
      FirstItem(l, w, at, items);
      HeadOrTail(items);
      match items[0]
      case Idle(samples) =>
        IdleLength(items[0], w);
        IdleQuiet(l, w, at, items);
        if wait <= samples {
          QuietPart(l, at - 1, at - 1 + wait, at + samples - 1);
          SkipQuiet(l, p, at - 1 + wait, at + samples - 1);
          SlowIff(l, w, at + samples, items[1..], 0);
        } else {
          SlowIff(l, w, at + samples, items[1..], wait - samples);
        }
      case Slot(bit) =>
        EventsHead(items, w, at);
        if wait > 0 {
          if DecodeFrom(l, p, at - 1 + wait) != [] {
            EventsBehind(l, p, at - 1 + wait);
          }
        } else {
          SlotLength(items[0], w);
          SlowSlotIff(l, w, at, items);
          SlowIff(l, w, at + 10 * w.n, items[1..], 45 * w.n + 1);
          if Apart(items[1..], w, 45 * w.n + 1) && at + 20 * w.n < |l| {
            HighMeanwhile(l, w, at + 10 * w.n, items[1..], 45 * w.n + 1, 10 * w.n);
          }
        }
      case _ =>
    }
  }

  lemma PastEnd(l: seq<bool>, p: Profile, i: nat)
    requires p.advance > 0 && i + 1 >= |l|
    ensures DecodeFrom(l, p, i) == []
  {
  }

  lemma QuietPart(l: seq<bool>, i: nat, j: nat, k: nat)
    requires i <= j && Quiet(l, i, k)
    ensures Quiet(l, j, k)
  {
  }

  lemma SlotLength(x: Item, w: Rate)
    requires x.Slot? && w.od
    ensures Length(x, w) == 10 * w.n
  {
  }

  /** At overdrive speed items come back with automatic speed exactly when they contain a reset, or no 0
      and no two slots that begin within 55 us of each other: without a reset they are read at standard
      speed. */
  lemma AutoOverdriveIff(lead: nat, items: seq<Item>, w: Rate)
    requires lead >= 1 && w.od
    ensures Decoding(High(lead) + Render(items, w), w.n as real, Auto) == Events(items, w, lead)
            <==> HasReset(items) || (!HasZero(items) && Apart(items, w, 0))
  {
    hide Render, Events, DecodeFrom, OverdriveFrom, HasReset, HasZero, ProfileOf, Apart;
    var l := High(lead) + Render(items, w);
    assert l[lead..] == Render(items, w);
    assert Quiet(l, 0, lead - 1);
    SkipSpeed(l, w.n as real, 0, lead - 1, false);
    SpeedOfRendered(l, w, lead, items, false);
    if HasReset(items) {
      RoundTrip(lead, items, w);
    } else {
      SkipQuiet(l, Thresholds(w.(od := false)), 0, lead - 1);
      SlowIff(l, w, lead, items, 0);
    }
  }
}
