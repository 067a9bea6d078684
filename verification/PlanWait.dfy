/** The timer plan of a hardware wait: repetitions of one 16-bit period. */
module PlanWait {
  import opened Bits
  import opened Ds18b20

  const MAX_PERIOD := 65535
  const MAX_PERIODS := 256
  const REACH := 16776960

  /** Periods and period length: they fit their registers, cover the request, and no plan has
      fewer periods, nor with as many periods a shorter one. A zero wait is one tick and a
      wait out of reach is cut to the reach. */
  ghost predicate IsPlan(us: nat, arr: nat, rcr: nat) {
    && 1 <= arr <= MAX_PERIOD && rcr + 1 <= MAX_PERIODS
    && (us == 0 ==> arr == 1 && rcr == 0)
    && (us > REACH ==> arr == MAX_PERIOD && rcr + 1 == MAX_PERIODS)
    && (1 <= us <= REACH ==>
          && us <= (rcr + 1) * arr < us + rcr + 1
          && forall m: nat, a: nat {:trigger m * a} | 1 <= m && a <= MAX_PERIOD && us <= m * a ::
               rcr + 1 <= m && (m == rcr + 1 ==> arr <= a))
  }

  /** Round a quotient up, as the C code does without overflow. */
  function CeilDiv(x: nat, y: nat): (q: nat)
    requires y > 0
    ensures x <= q * y && (q > 0 ==> (q - 1) * y < x)
  {
    DivMod(x, y);
    x / y + if x % y > 0 then 1 else 0
  }

  lemma DivMod(x: nat, y: nat)
    requires y > 0
    ensures x == (x / y) * y + x % y && (x / y + 1) * y == (x / y) * y + y && (x / y - 1) * y == (x / y) * y - y
  {
  }

  /** ow_port_plan_wait */
  method Plan(us: nat) returns (arr: nat, rcr: nat)
    ensures IsPlan(us, arr, rcr)
  {
    hide CeilDiv;
    var n := us / MAX_PERIOD + if us % MAX_PERIOD > 0 then 1 else 0;
    assert n == CeilDiv(us, MAX_PERIOD) by { CeilDivIs(us, MAX_PERIOD); }
    if n == 0 {
      n := 1;
    } else if n > MAX_PERIODS {
      n := MAX_PERIODS;
    }
    var period := us / n + if us % n > 0 then 1 else 0;
    assert period == CeilDiv(us, n) by { CeilDivIs(us, n); }
    if us > REACH {
      TooLong(us, period);
    } else if us > 0 {
      PlanFits(us, n, period);
      forall m: nat, a: nat | 1 <= m && a <= MAX_PERIOD && us <= m * a
        ensures n <= m && (m == n ==> period <= a)
      {
        Minimal(us, n, period, m, a);
      }
    }
    if period > MAX_PERIOD {
      period := MAX_PERIOD;
    } else if period == 0 {
      period := 1;
    }
    arr, rcr := period, n - 1;
  }

  lemma CeilDivIs(x: nat, y: nat)
    requires y > 0
    ensures CeilDiv(x, y) == x / y + if x % y > 0 then 1 else 0
  {
  }

  lemma TooLong(us: nat, period: nat)
    requires us > REACH && us <= period * MAX_PERIODS
    ensures period > MAX_PERIOD
  {
  }

  lemma PlanFits(us: nat, n: nat, period: nat)
    requires 0 < us <= n * MAX_PERIOD && n > 0
    requires us <= period * n && (period > 0 ==> (period - 1) * n < us)
    ensures 1 <= period <= MAX_PERIOD && us <= n * period < us + n
  {
    MulOrder(MAX_PERIOD, period - 1, n);
    assert period * n == (period - 1) * n + n;
  }

  lemma MulOrder(a: int, b: int, n: nat)
    ensures a <= b ==> a * n <= b * n
  {
  }

  lemma Minimal(us: nat, n: nat, period: nat, m: nat, a: nat)
    requires n > 0 && (n - 1) * MAX_PERIOD < us && (period > 0 ==> (period - 1) * n < us)
    requires 1 <= m && a <= MAX_PERIOD && us <= m * a
    ensures n <= m && (m == n ==> period <= a)
  {
    assert m * a <= m * MAX_PERIOD by { MulOrder(a, MAX_PERIOD, m); }
    MulOrder(m, n - 1, MAX_PERIOD);
    MulOrder(a, period - 1, n);
  }

  /** A plan is determined by its request. */
  lemma PlanUnique(us: nat, arr: nat, rcr: nat, arr': nat, rcr': nat)
    requires IsPlan(us, arr, rcr) && IsPlan(us, arr', rcr')
    ensures arr == arr' && rcr == rcr'
  {
    if 1 <= us <= REACH {
      assert us <= (rcr + 1) * arr && us <= (rcr' + 1) * arr';
    }
  }

  /** The conversion wait of every resolution the driver can track is planned exactly: 93.75 ms
      doubled for every bit above 9, without rounding. */
  lemma ConversionWaitExact(d: Drv, arr: nat, rcr: nat)
    requires Sized(d) && IsPlan(ResolutionWaitUs(d.resolution), arr, rcr)
    ensures var e := WaitSpec(d);
            && e.bus.armed == Some(Armed(Measurement, WaitOp(ResolutionWaitUs(d.resolution))))
            && (rcr + 1) * arr == ResolutionWaitUs(d.resolution)
    ensures (d.resolution == 9 ==> (arr, rcr) == (46875, 1)) && (d.resolution == 12 ==> (arr, rcr) == (62500, 11))
  {
    var us := ResolutionWaitUs(d.resolution);
    var n := if d.resolution == 9 then 2 else if d.resolution == 10 then 3 else if d.resolution == 11 then 6 else 12;
    var a := if d.resolution == 9 then 46875 else 62500;
    assert n * a == us;
    MulOrder(arr, MAX_PERIOD, rcr + 1);
    MulOrder(rcr + 1, n - 1, MAX_PERIOD);
    assert arr <= a;
    MulOrder(arr, a, n);
  }
}
