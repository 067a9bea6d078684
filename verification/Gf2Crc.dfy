/** The Dallas/Maxim CRC-8 and CRC-16 and their meaning over GF(2).

    A polynomial is a bit string, highest coefficient first. A CRC register of a
    generator g of degree k is a bit string of length k; register bit 0 (the least
    significant bit of the machine word, which is shifted out first) is the
    coefficient of x^(k-1). The theorems hold for every generator whose leading
    and constant coefficients are 1; the two 1-Wire generators are instances. */
module Gf2Crc {

  type Poly = seq<bool>

  function Zeros(n: nat): (z: Poly)
    ensures |z| == n && forall i | 0 <= i < n :: !z[i]
  {
    seq(n, _ => false)
  }

  function Xor(a: Poly, b: Poly): (c: Poly)
    requires |a| == |b|
    ensures |c| == |a| && forall i | 0 <= i < |a| :: c[i] == (a[i] != b[i])
  {
    seq(|a|, i requires 0 <= i < |a| => a[i] != b[i])
  }

  predicate Generator(g: Poly) {
    |g| >= 2 && g[0] && g[|g| - 1]
  }

  /** x^8 + x^5 + x^4 + 1 */
  const G8: Poly := [true, false, false, true, true, false, false, false, true]
  /** x^16 + x^15 + x^2 + 1 */
  const G16: Poly := [true, true, false, false, false, false, false, false, false,
                      false, false, false, false, false, true, false, true]

  /** The coefficient of x^e in a polynomial. */
  predicate HasTerm(g: Poly, e: nat) {
    e < |g| && g[|g| - 1 - e]
  }

  /** The powers the two generators are made of. */
  lemma GeneratorTerms(e: nat)
    ensures HasTerm(G8, e) <==> e == 8 || e == 5 || e == 4 || e == 0
    ensures HasTerm(G16, e) <==> e == 16 || e == 15 || e == 2 || e == 0
  {
  }

  /** Product q * g; the quotient grows by one coefficient at a time. */
  ghost function Mul(q: Poly, g: Poly): (p: Poly)
    requires |g| >= 1
    ensures |p| == |q| + |g| - 1
  {
    if q == [] then Zeros(|g| - 1)
    else
      var n := |q| - 1;
      Xor(Mul(q[..n], g) + [false], Zeros(n) + (if q[n] then g else Zeros(|g|)))
  }

  /** One shift of the register with message bit b. */
  function Step(g: Poly, r: Poly, b: bool): (r': Poly)
    requires Generator(g) && |r| == |g| - 1
    ensures |r'| == |r|
    ensures forall i | 0 <= i < |r| :: r'[i] == ((i + 1 < |r| && r[i + 1]) != (r[0] != b && g[i + 1]))
  {
    Xor(r[1..] + [false], if r[0] != b then g[1..] else Zeros(|r|))
  }

  /** The register after a whole message. */
  function Reg(g: Poly, r: Poly, m: seq<bool>): (r': Poly)
    requires Generator(g) && |r| == |g| - 1
    ensures |r'| == |r|
    decreases |m|
  {
    if m == [] then r else Step(g, Reg(g, r, m[..|m| - 1]), m[|m| - 1])
  }

  function Crc(g: Poly, m: seq<bool>): (r: Poly)
    requires Generator(g)
    ensures |r| == |g| - 1
  {
    Reg(g, Zeros(|g| - 1), m)
  }

  lemma {:induction false} RegConcat(g: Poly, r: Poly, a: seq<bool>, b: seq<bool>)
    requires Generator(g) && |r| == |g| - 1
    ensures Reg(g, r, a + b) == Reg(g, Reg(g, r, a), b)
  {
    hide Step;
    if b == [] {
      assert a + b == a;
    } else {
      var n := |b| - 1;
      assert (a + b)[..|a + b| - 1] == a + b[..n];
      RegConcat(g, r, a, b[..n]);
    }
  }

  // ---- the register is the remainder ----

  /** Dividing m * x^k by g leaves exactly the CRC: some quotient q satisfies
      m * x^k + crc == q * g, and the CRC has degree below k by its length. */
  lemma {:induction false} CrcIsRemainder(g: Poly, m: seq<bool>) returns (q: Poly)
    requires Generator(g)
    ensures |q| == |m| && m + Crc(g, m) == Mul(q, g)
  {
    if m == [] {
      q := [];
      assert [] + Zeros(|g| - 1) == Zeros(|g| - 1);
    } else {
      hide Step, Mul;
      var n := |m| - 1;
      var q0 := CrcIsRemainder(g, m[..n]);
      var r := Crc(g, m[..n]);
      q := q0 + [r[0] != m[n]];
      OneMoreBit(g, m, q0, r);
    }
  }

  /** One step of the register is one step of the division: its new bit is the next coefficient of
      the quotient. */
  lemma OneMoreBit(g: Poly, m: seq<bool>, q: Poly, r: Poly)
    requires Generator(g) && |r| == |g| - 1 && |m| == |q| + 1 && m[..|q|] + r == Mul(q, g)
    ensures m + Step(g, r, m[|q|]) == Mul(q + [r[0] != m[|q|]], g)
  {
    hide Step, Mul;
    var n, mix := |q|, r[0] != m[|q|];
    var p, whole := Mul(q + [mix], g), m[..n] + r;
    assert (q + [mix])[..n] == q;
    MulLastAt(q + [mix], g);
    forall i | 0 <= i <= n ensures p[i] == m[i] {
      assert whole[i] == if i < n then m[i] else r[0];
    }
    forall i | 0 <= i < |r| ensures p[n + 1 + i] == Step(g, r, m[n])[i] {
      assert i + 1 < |r| ==> whole[n + 1 + i] == r[i + 1];
    }
    SplitAt(m, p);
    assert p[n + 1..] == Step(g, r, m[n]);
  }

  /** Any other check bits that complete m to a product of g are the same ones. */
  lemma {:induction false} RemainderUnique(g: Poly, m: seq<bool>, r: Poly, q: Poly)
    requires Generator(g) && |r| == |g| - 1 && |q| == |m|
    requires m + r == Mul(q, g)
    ensures r == Crc(g, m)
  {
    if m == [] {
      assert r == m + r;
    } else {
      var n := |m| - 1;
      var r0 := UnmulLast(g, m, r, q);
      RemainderUnique(g, m[..n], r0, q[..n]);
    }
  }

  /** Taking the last quotient coefficient away undoes one register step. */
  lemma UnmulLast(g: Poly, m: seq<bool>, r: Poly, q: Poly) returns (r0: Poly)
    requires Generator(g) && |r| == |g| - 1 && |q| == |m| > 0
    requires m + r == Mul(q, g)
    ensures |r0| == |r| && m[..|m| - 1] + r0 == Mul(q[..|m| - 1], g)
    ensures r == Step(g, r0, m[|m| - 1])
  {
    hide Mul, Step;
    var n := |m| - 1;
    var p, w := Mul(q[..n], g), m + r;
    r0 := p[n..];
    MulLastAt(q, g);
    assert forall i | 0 <= i < n :: w[i] == p[i];
    assert forall i | 0 <= i < n :: m[..n][i] == p[i];
    SplitAt(m[..n], p);
    assert w[n] == (p[n] != q[n]);
    forall i | 0 <= i < |r| ensures r[i] == ((i + 1 < |r| && r0[i + 1]) != (q[n] && g[i + 1])) {
      assert w[n + 1 + i] == r[i];
    }
    StepFrom(g, r0, m[n], r);
  }

  lemma SplitAt(a: Poly, p: Poly)
    requires |a| <= |p| && forall i | 0 <= i < |a| :: p[i] == a[i]
    ensures a + p[|a|..] == p
  {
  }

  lemma StepFrom(g: Poly, r: Poly, b: bool, r': Poly)
    requires Generator(g) && |r'| == |r| == |g| - 1
    requires forall i | 0 <= i < |r| :: r'[i] == ((i + 1 < |r| && r[i + 1]) != (r[0] != b && g[i + 1]))
    ensures r' == Step(g, r, b)
  {
  }

  lemma MulLastAt(q: Poly, g: Poly)
    requires |g| >= 1 && |q| >= 1
    ensures var n := |q| - 1; var p := Mul(q[..n], g);
            forall i | 0 <= i < |q| + |g| - 1 ::
              Mul(q, g)[i] == ((i < |p| && p[i]) != (n <= i && q[n] && g[i - n]))
  {
  }

  // ---- linearity ----

  lemma {:induction false} StepLinear(g: Poly, r: Poly, s: Poly, a: bool, b: bool)
    requires Generator(g) && |r| == |s| == |g| - 1
    ensures Step(g, Xor(r, s), a != b) == Xor(Step(g, r, a), Step(g, s, b))
  {
  }

  lemma {:induction false} RegLinear(g: Poly, r: Poly, s: Poly, a: seq<bool>, b: seq<bool>)
    requires Generator(g) && |r| == |s| == |g| - 1 && |a| == |b|
    ensures Reg(g, Xor(r, s), Xor(a, b)) == Xor(Reg(g, r, a), Reg(g, s, b))
    decreases |a|
  {
    if a == [] {
      assert Xor(a, b) == [];
    } else {
      var n := |a| - 1;
      assert Xor(a, b)[..n] == Xor(a[..n], b[..n]);
      RegLinear(g, r, s, a[..n], b[..n]);
      StepLinear(g, Reg(g, r, a[..n]), Reg(g, s, b[..n]), a[n], b[n]);
    }
  }

  lemma CrcLinear(g: Poly, a: seq<bool>, b: seq<bool>)
    requires Generator(g) && |a| == |b|
    ensures Crc(g, Xor(a, b)) == Xor(Crc(g, a), Crc(g, b))
  {
    var z := Zeros(|g| - 1);
    assert Xor(z, z) == z;
    RegLinear(g, z, z, a, b);
  }

  // ---- the appended check ----

  function Shifted(r: Poly, j: nat): (s: Poly)
    ensures |s| == |r| && forall i | 0 <= i < |r| :: s[i] == (i + j < |r| && r[i + j])
  {
    seq(|r|, i requires 0 <= i < |r| => i + j < |r| && r[i + j])
  }

  /** Feeding a register its own bits shifts it out, without feedback. */
  lemma {:induction false} RegDrains(g: Poly, r: Poly, j: nat)
    requires Generator(g) && |r| == |g| - 1 && j <= |r|
    ensures Reg(g, r, r[..j]) == Shifted(r, j)
  {
    if j == 0 {
      assert r[..0] == [];
    } else {
      RegDrains(g, r, j - 1);
      assert r[..j][..j - 1] == r[..j - 1];
      StepShifts(g, r, j);
    }
  }

  lemma StepShifts(g: Poly, r: Poly, j: nat)
    requires Generator(g) && |r| == |g| - 1 && 1 <= j <= |r|
    ensures Step(g, Shifted(r, j - 1), r[j - 1]) == Shifted(r, j)
  {
    hide *;
    StepFrom(g, Shifted(r, j - 1), r[j - 1], Shifted(r, j));
  }

  /** No nonzero register shifts to zero: x is invertible modulo g. */
  lemma ZeroStepKernel(g: Poly, r: Poly)
    requires Generator(g) && |r| == |g| - 1
    requires Step(g, r, false) == Zeros(|r|)
    ensures r == Zeros(|r|)
  {
    var s := Step(g, r, false);
    assert !s[|r| - 1];
    forall i | 0 <= i < |r| ensures !r[i] {
      if i > 0 {
        assert !s[i - 1];
      }
    }
  }

  lemma {:induction false} ZeroRunKernel(g: Poly, r: Poly, n: nat)
    requires Generator(g) && |r| == |g| - 1
    requires Reg(g, r, Zeros(n)) == Zeros(|r|)
    ensures r == Zeros(|r|)
  {
    if n > 0 {
      assert Zeros(n)[..n - 1] == Zeros(n - 1);
      ZeroStepKernel(g, Reg(g, r, Zeros(n - 1)));
      ZeroRunKernel(g, r, n - 1);
    }
  }

  lemma {:induction false} ZeroRunStays(g: Poly, n: nat)
    requires Generator(g)
    ensures Crc(g, Zeros(n)) == Zeros(|g| - 1)
  {
    if n > 0 {
      assert Zeros(n)[..n - 1] == Zeros(n - 1);
      ZeroRunStays(g, n - 1);
      assert Step(g, Zeros(|g| - 1), false) == Zeros(|g| - 1);
    }
  }

  /** A receiver that runs the register over message and check bits ends at zero
      exactly when the check bits are the message's CRC. */
  lemma CheckAcceptsOnlyCrc(g: Poly, m: seq<bool>, c: Poly)
    requires Generator(g) && |c| == |g| - 1
    ensures Crc(g, m + c) == Zeros(|g| - 1) <==> c == Crc(g, m)
  {
    var r := Crc(g, m);
    var k := |r|;
    RegConcat(g, Zeros(k), m, c);
    RegDrains(g, c, k);
    assert c[..k] == c;
    assert Shifted(c, k) == Zeros(k);
    if Crc(g, m + c) == Zeros(k) {
      RegLinear(g, r, c, c, c);
      XorSelf(c);
      XorSelf(Zeros(k));
      ZeroRunKernel(g, Xor(r, c), k);
      XorZeroEqual(r, c);
    }
  }

  lemma XorSelf(a: Poly)
    ensures Xor(a, a) == Zeros(|a|)
  {
  }

  lemma XorZeroEqual(a: Poly, b: Poly)
    requires |a| == |b| && Xor(a, b) == Zeros(|a|)
    ensures a == b
  {
    forall i | 0 <= i < |a| ensures a[i] == b[i] {
      assert !Xor(a, b)[i];
    }
  }

  // ---- burst errors ----

  function Padded(e: seq<bool>, k: nat): (s: Poly)
    requires |e| <= k
    ensures |s| == k && forall i | 0 <= i < k :: s[i] == (i < |e| && e[i])
  {
    e + Zeros(k - |e|)
  }

  /** A burst of at most k bits entering an empty register is not lost: it equals
      the burst loaded into the register and shifted on. */
  lemma {:induction false} BurstLoads(g: Poly, e: seq<bool>)
    requires Generator(g) && |e| <= |g| - 1
    ensures Crc(g, e) == Reg(g, Padded(e, |g| - 1), Zeros(|e|))
  {
    hide Padded, Step, Shifted;
    var k := |g| - 1;
    if e == [] {
      assert Padded(e, k) == Zeros(k);
    } else {
      var n := |e| - 1;
      var e0 := e[..n];
      BurstLoads(g, e0);
      var last := LastOnly(e, k);
      XorSelf(Zeros(n));
      RegLinear(g, Padded(e0, k), last, Zeros(n), Zeros(n));
      RegDrains(g, last, n);
      StepEntersAtTop(g, Crc(g, e0), Shifted(last, n), e[n]);
      assert Zeros(n + 1)[..n] == Zeros(n);
    }
  }

  predicate TopOnly(p: Poly, b: bool) {
    |p| > 0 && p[0] == b && forall i | 1 <= i < |p| :: !p[i]
  }

  function LastOnly(e: seq<bool>, k: nat): (last: Poly)
    requires 1 <= |e| <= k
    ensures |last| == k && last[..|e| - 1] == Zeros(|e| - 1)
    ensures Padded(e, k) == Xor(Padded(e[..|e| - 1], k), last)
    ensures TopOnly(Shifted(last, |e| - 1), e[|e| - 1])
  {
    Padded(Zeros(|e| - 1) + [e[|e| - 1]], k)
  }

  /** Feeding a bit is the same as adding it to the top coefficient and shifting. */
  lemma StepEntersAtTop(g: Poly, r: Poly, top: Poly, b: bool)
    requires Generator(g) && |r| == |top| == |g| - 1
    requires TopOnly(top, b)
    ensures Step(g, Xor(r, top), false) == Step(g, r, b)
  {
  }

  lemma BurstNotZero(g: Poly, before: nat, burst: seq<bool>, after: nat)
    requires Generator(g) && |burst| <= |g| - 1
    requires exists i | 0 <= i < |burst| :: burst[i]
    ensures Crc(g, Zeros(before) + burst + Zeros(after)) != Zeros(|g| - 1)
  {
    hide Reg, Padded;
    var k := |g| - 1;
    RegConcat(g, Zeros(k), Zeros(before) + burst, Zeros(after));
    RegConcat(g, Zeros(k), Zeros(before), burst);
    ZeroRunStays(g, before);
    BurstLoads(g, burst);
    var i :| 0 <= i < |burst| && burst[i];
    assert Padded(burst, k)[i];
    if Crc(g, Zeros(before) + burst + Zeros(after)) == Zeros(k) {
      ZeroRunKernel(g, Crc(g, burst), after);
      ZeroRunKernel(g, Padded(burst, k), |burst|);
    }
  }

  /** An error that flips bits only inside a window of k consecutive bits, and
      flips at least one, changes the CRC of every message. */
  lemma BurstDetected(g: Poly, m: seq<bool>, before: nat, burst: seq<bool>, after: nat)
    requires Generator(g) && |burst| <= |g| - 1
    requires |m| == before + |burst| + after
    requires exists i | 0 <= i < |burst| :: burst[i]
    ensures Crc(g, Xor(m, Zeros(before) + burst + Zeros(after))) != Crc(g, m)
  {
    var e := Zeros(before) + burst + Zeros(after);
    CrcLinear(g, m, e);
    BurstNotZero(g, before, burst, after);
    XorChanges(Crc(g, m), Crc(g, e));
  }

  lemma XorChanges(a: Poly, e: Poly)
    requires |a| == |e|
    ensures Xor(a, e) == a ==> e == Zeros(|e|)
  {
    if Xor(a, e) == a {
      forall i | 0 <= i < |e| ensures !e[i] {
        assert Xor(a, e)[i] == a[i];
      }
    }
  }
}
