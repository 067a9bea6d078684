/** Machine words as bit strings, least significant bit first, which is also the
    order in which a 1-Wire byte travels: word & 1 is s[0], word >> 1 drops s[0]. */
module Bits {
  datatype Option<+T> = None | Some(value: T)

  type byte = x: int | 0 <= x < 256

  function Min(a: nat, b: nat): nat { if a <= b then a else b }

  /** The low w bits of n. */
  function ToBits(n: nat, w: nat): (s: seq<bool>)
    ensures |s| == w
    decreases w
  {
    if w == 0 then [] else [n % 2 == 1] + ToBits(n / 2, w - 1)
  }

  /** Bit k is the coefficient of 2^k. */
  lemma {:induction false} ToBitsAt(n: nat, w: nat, k: nat)
    requires k < w
    ensures ToBits(n, w)[k] <==> n / Pow2(k) % 2 == 1
    decreases w
  {
    if k > 0 {
      ToBitsAt(n / 2, w - 1, k - 1);
      HalveTwice(n, Pow2(k - 1));
    }
  }

  lemma HalveTwice(n: nat, p: nat)
    requires p >= 1
    ensures n / (2 * p) == n / 2 / p
  {
    var q, r := n / 2 / p, n / 2 % p;
    var rest := 2 * r + n % 2;
    assert n / 2 == q * p + r && n == q * (2 * p) + rest && 0 <= rest < 2 * p;
    QuotientIs(n, 2 * p, q, rest);
  }

  lemma QuotientIs(n: nat, d: nat, q: nat, r: nat)
    requires d >= 1 && n == q * d + r && r < d
    ensures n / d == q
  {
    var e := n / d;
    assert e * d <= n < e * d + d;
    if e > q {
      MulMonotone(q + 1, e, d);
    } else if e < q {
      MulMonotone(e + 1, q, d);
    }
  }

  lemma MulMonotone(a: nat, b: nat, p: nat)
    requires a <= b
    ensures a * p <= b * p
  {
  }

  /** A byte travels least significant bit first. */
  lemma ByteBitsAt(b: byte, k: nat)
    requires k < 8
    ensures ByteBits(b)[k] <==> b / Pow2(k) % 2 == 1
  {
    ToBitsAt(b, 8, k);
  }

  function Value(s: seq<bool>): nat {
    if s == [] then 0 else (if s[0] then 1 else 0) + 2 * Value(s[1..])
  }

  function Pow2(k: nat): (p: nat)
    ensures p >= 1
  {
    if k == 0 then 1 else 2 * Pow2(k - 1)
  }

  lemma {:induction false} ValueToBits(n: nat, w: nat)
    requires n < Pow2(w)
    ensures Value(ToBits(n, w)) == n
    decreases w
  {
    if w > 0 {
      ValueToBits(n / 2, w - 1);
      assert ToBits(n, w)[1..] == ToBits(n / 2, w - 1);
    }
  }

  lemma {:induction false} ToBitsValue(s: seq<bool>)
    ensures Value(s) < Pow2(|s|) && ToBits(Value(s), |s|) == s
  {
    if s != [] {
      ToBitsValue(s[1..]);
      assert Value(s) / 2 == Value(s[1..]);
    }
  }

  function ByteBits(b: byte): (s: seq<bool>)
    ensures |s| == 8
  {
    ToBits(b, 8)
  }

  lemma PowEight()
    ensures Pow2(8) == 256
  {
    assert Pow2(4) == 16;
    assert Pow2(5) == 32;
    assert Pow2(6) == 64;
    assert Pow2(7) == 128;
  }

  function ByteOf(s: seq<bool>): (b: byte)
    requires |s| == 8
    ensures ByteBits(b) == s
  {
    PowEight();
    ToBitsValue(s);
    Value(s)
  }

  /** A byte is determined by its bits. */
  lemma ByteBitsInjective(a: byte, b: byte)
    requires ByteBits(a) == ByteBits(b)
    ensures a == b
  {
    PowEight();
    ValueToBits(a, 8);
    ValueToBits(b, 8);
  }

  /** The transmitted bits of a byte sequence. */
  function BitsOf(bytes: seq<byte>): (s: seq<bool>)
    ensures |s| == 8 * |bytes|
  {
    if bytes == [] then [] else BitsOf(bytes[..|bytes| - 1]) + ByteBits(bytes[|bytes| - 1])
  }

  lemma BitsOfAppend(bytes: seq<byte>, b: byte)
    ensures BitsOf(bytes + [b]) == BitsOf(bytes) + ByteBits(b)
  {
    hide ByteBits;
    assert (bytes + [b])[..|bytes|] == bytes;
  }

  lemma {:induction false} BitsOfConcat(a: seq<byte>, b: seq<byte>)
    ensures BitsOf(a + b) == BitsOf(a) + BitsOf(b)
  {
    hide ByteBits;
    if b == [] {
      assert a + b == a;
    } else {
      var n := |b| - 1;
      assert (a + b)[..|a + b| - 1] == a + b[..n];
      BitsOfConcat(a, b[..n]);
    }
  }

  lemma SliceOfLeft<T>(a: seq<T>, b: seq<T>, i: nat, j: nat)
    requires i <= j <= |a|
    ensures (a + b)[i..j] == a[i..j]
  {
  }

  lemma SliceOfRight<T>(a: seq<T>, b: seq<T>)
    ensures (a + b)[|a|..|a| + |b|] == b
  {
  }

  lemma {:induction false} BitsOfAt(bytes: seq<byte>, i: nat)
    requires i < |bytes|
    ensures BitsOf(bytes)[8 * i..8 * i + 8] == ByteBits(bytes[i])
  {
    hide ByteBits;
    var n := |bytes| - 1;
    var front := bytes[..n];
    var f := BitsOf(front);
    assert BitsOf(bytes) == f + ByteBits(bytes[n]);
    if i < n {
      BitsOfAt(front, i);
      SliceOfLeft(f, ByteBits(bytes[n]), 8 * i, 8 * i + 8);
      assert front[i] == bytes[i];
    } else {
      SliceOfRight(f, ByteBits(bytes[n]));
    }
  }

  lemma BitsOfInjective(a: seq<byte>, b: seq<byte>)
    requires BitsOf(a) == BitsOf(b)
    ensures a == b
  {
    forall i | 0 <= i < |a| ensures a[i] == b[i] {
      BitsOfAt(a, i);
      BitsOfAt(b, i);
      ByteBitsInjective(a[i], b[i]);
    }
  }
}
