/** Canonical Huffman codes (section 3.2.2 of RFC 1951) and the viewer's decoder. */
module Huffman {
  import opened Bits

  datatype Error =
    | UnexpectedEnd | BadCode | BadDistance | DistanceTooFar | BadLiteral | BadStoredLength
    | StoredPastInput | NothingToRepeat | ReservedBlock | SizeMismatch

  /** An exception of the source, or a value. */
  datatype Result<+T> = Ok(value: T) | Err(error: Error) {
    predicate IsFailure() { Err? }
    function PropagateFailure<U>(): Result<U> requires Err? { Err(error) }
    function Extract(): T requires Ok? { value }
  }

  /** Value of a codeword, most significant bit first. */
  function MsbValue(w: seq<bool>): (v: nat)
    ensures v < Pow2(|w|)
  {
    if w == [] then 0 else 2 * MsbValue(w[..|w| - 1]) + if w[|w| - 1] then 1 else 0
  }

  function MsbBits(v: nat, n: nat): (w: seq<bool>)
    ensures |w| == n && (v < Pow2(n) ==> MsbValue(w) == v)
  {
    if n == 0 then [] else
      var front := MsbBits(v / 2, n - 1);
      assert (front + [v % 2 == 1])[..n - 1] == front;
      front + [v % 2 == 1]
  }

  /** Number of symbols with code length l. */
  function Count(lengths: seq<nat>, l: nat): (c: nat)
    ensures c <= |lengths|
  {
    if lengths == [] then 0
    else Count(lengths[..|lengths| - 1], l) + if lengths[|lengths| - 1] == l then 1 else 0
  }

  /** First codeword of length l. */
  function First(lengths: seq<nat>, l: nat): nat
    requires l >= 1
  {
    if l == 1 then 0 else 2 * (First(lengths, l - 1) + Count(lengths, l - 1))
  }

  /** w is the canonical codeword of symbol s. */
  ghost predicate IsCode(lengths: seq<nat>, s: nat, w: seq<bool>) {
    && s < |lengths| && lengths[s] > 0 && |w| == lengths[s]
    && MsbValue(w) == First(lengths, lengths[s]) + Count(lengths[..s], lengths[s])
  }

  function Code(lengths: seq<nat>, s: nat): (w: seq<bool>)
    requires s < |lengths| && lengths[s] > 0
    ensures |w| == lengths[s]
  {
    MsbBits(First(lengths, lengths[s]) + Count(lengths[..s], lengths[s]), lengths[s])
  }

  // ---- Kraft's inequality ----

  /** Sum over the symbols of length 1..l of 2^(max - length). */
  ghost function Weight(lengths: seq<nat>, l: nat, max: nat): nat
    requires l <= max
  {
    if lengths == [] then 0
    else
      var x := lengths[|lengths| - 1];
      Weight(lengths[..|lengths| - 1], l, max) + if 1 <= x <= l then Pow2(max - x) else 0
  }

  /** The lengths fit a prefix code of at most max bits. */
  ghost predicate Kraft(lengths: seq<nat>, max: nat) {
    (forall l | l in lengths :: l <= max) && Weight(lengths, max, max) <= Pow2(max)
  }

  lemma OneMore(c: nat, p: nat)
    ensures (c + 1) * p == c * p + p
  {
  }

  lemma {:induction false} WeightSplits(lengths: seq<nat>, l: nat, max: nat)
    requires 1 <= l <= max
    ensures Weight(lengths, l, max) == Weight(lengths, l - 1, max) + Count(lengths, l) * Pow2(max - l)
  {
    hide Pow2;
    if lengths != [] {
      var front := lengths[..|lengths| - 1];
      WeightSplits(front, l, max);
      OneMore(Count(front, l), Pow2(max - l));
    }
  }

  lemma {:induction false} WeightZero(lengths: seq<nat>, max: nat)
    ensures Weight(lengths, 0, max) == 0
  {
    if lengths != [] {
      WeightZero(lengths[..|lengths| - 1], max);
    }
  }

  lemma {:induction false} WeightMonotone(lengths: seq<nat>, l: nat, max: nat)
    requires l <= max
    ensures Weight(lengths, l, max) <= Weight(lengths, max, max)
  {
    if lengths != [] {
      WeightMonotone(lengths[..|lengths| - 1], l, max);
    }
  }

  /** The codewords of length up to l occupy exactly their share of the code space. */
  lemma {:induction false} LastIsWeight(lengths: seq<nat>, l: nat, max: nat)
    requires 1 <= l <= max
    ensures (First(lengths, l) + Count(lengths, l)) * Pow2(max - l) == Weight(lengths, l, max)
  {
    hide Weight, Count, Pow2;
    WeightSplits(lengths, l, max);
    var p := Pow2(max - l);
    if l == 1 {
      WeightZero(lengths, max);
    } else {
      LastIsWeight(lengths, l - 1, max);
      PowDoubles(max - l);
      DoubleAndAdd(First(lengths, l - 1) + Count(lengths, l - 1), Count(lengths, l), p);
    }
  }

  lemma PowZero()
    ensures Pow2(0) == 1 && Pow2(1) == 2
  {
  }

  lemma PowDoubles(k: nat)
    ensures Pow2(k + 1) == 2 * Pow2(k)
  {
  }

  lemma DoubleAndAdd(k: nat, c: nat, p: nat)
    ensures (2 * k + c) * p == k * (2 * p) + c * p
    ensures 2 * (k * p) == k * (2 * p)
  {
  }

  lemma {:induction false} PowSplits(a: nat, b: nat)
    ensures Pow2(a + b) == Pow2(a) * Pow2(b)
  {
    if a > 0 {
      PowSplits(a - 1, b);
      assert Pow2(a) * Pow2(b) == 2 * (Pow2(a - 1) * Pow2(b));
    }
  }

  lemma MulCancel(a: nat, b: nat, p: nat)
    requires p > 0 && a * p <= b * p
    ensures a <= b
  {
    if a > b {
      MulMonotone(b + 1, a, p);
    }
  }

  lemma KraftLeavesRoom(lengths: seq<nat>, l: nat, max: nat)
    requires 1 <= l <= max && Kraft(lengths, max)
    ensures First(lengths, l) + Count(lengths, l) <= Pow2(l)
  {
    hide First, Count, Weight, Pow2;
    LastIsWeight(lengths, l, max);
    WeightMonotone(lengths, l, max);
    PowSplits(l, max - l);
    MulCancel(First(lengths, l) + Count(lengths, l), Pow2(l), Pow2(max - l));
  }

  lemma {:induction false} CountPrefix(lengths: seq<nat>, n: nat, l: nat)
    requires n <= |lengths|
    ensures Count(lengths[..n], l) <= Count(lengths, l)
    ensures n < |lengths| && lengths[n] == l ==> Count(lengths[..n], l) < Count(lengths, l)
  {
    if n < |lengths| {
      var m := |lengths| - 1;
      CountPrefix(lengths[..m], n, l);
      assert lengths[..m][..n] == lengths[..n];
    } else {
      assert lengths[..n] == lengths;
    }
  }

  /** Under Kraft's inequality every symbol in use has its canonical codeword. */
  lemma CodeIsCode(lengths: seq<nat>, s: nat, max: nat)
    requires Kraft(lengths, max) && s < |lengths| && lengths[s] > 0
    ensures IsCode(lengths, s, Code(lengths, s))
  {
    assert lengths[s] in lengths;
    KraftLeavesRoom(lengths, lengths[s], max);
    CountPrefix(lengths, s, lengths[s]);
  }

  // ---- the code is prefix free ----

  lemma {:induction false} ValueSplits(w: seq<bool>, l: nat)
    requires l <= |w|
    ensures MsbValue(w) == MsbValue(w[..l]) * Pow2(|w| - l) + MsbValue(w[l..])
  {
    hide Pow2;
    if l == |w| {
      assert w[..l] == w;
      assert Pow2(0) == 1 by { PowZero(); }
    } else {
      var n := |w| - 1;
      ValueSplits(w[..n], l);
      assert w[..n][..l] == w[..l];
      assert w[l..][..n - l] == w[..n][l..];
      PowDoubles(n - l);
      DoubleAndAdd(MsbValue(w[..l]), 0, Pow2(n - l));
    }
  }

  lemma {:induction false} FirstGrows(lengths: seq<nat>, l: nat, m: nat)
    requires 1 <= l < m
    ensures First(lengths, m) >= (First(lengths, l) + Count(lengths, l)) * Pow2(m - l)
  {
    hide Pow2, Count;
    var k := First(lengths, l) + Count(lengths, l);
    if m == l + 1 {
      PowZero();
    } else {
      FirstGrows(lengths, l, m - 1);
      PowDoubles(m - 1 - l);
      DoubleAndAdd(k, 0, Pow2(m - 1 - l));
    }
  }

  /** Every proper prefix of a codeword lies above all codewords of its own length. */
  lemma PrefixAbove(lengths: seq<nat>, s: nat, w: seq<bool>, l: nat)
    requires IsCode(lengths, s, w) && 1 <= l < |w|
    ensures MsbValue(w[..l]) >= First(lengths, l) + Count(lengths, l)
  {
    hide Pow2, First, Count, MsbValue;
    ValueSplits(w, l);
    FirstGrows(lengths, l, |w|);
    TopBound(MsbValue(w[..l]), MsbValue(w[l..]), First(lengths, l) + Count(lengths, l), Pow2(|w| - l));
  }

  lemma TopBound(a: nat, r: nat, k: nat, p: nat)
    requires a * p + r >= k * p && r < p
    ensures a >= k
  {
    if a + 1 <= k {
      MulMonotone(a + 1, k, p);
    }
  }

  lemma {:induction false} RankInjective(lengths: seq<nat>, s: nat, t: nat)
    requires s < t < |lengths| && lengths[s] == lengths[t]
    ensures Count(lengths[..s], lengths[s]) < Count(lengths[..t], lengths[t])
  {
    CountPrefix(lengths[..t], s, lengths[s]);
    assert lengths[..t][..s] == lengths[..s];
  }

  /** At most one codeword starts a given bit string. */
  lemma PrefixFree(lengths: seq<nat>, s: nat, t: nat, bits: seq<bool>)
    requires s < |lengths| && t < |lengths| && lengths[s] <= |bits| && lengths[t] <= |bits|
    requires IsCode(lengths, s, bits[..lengths[s]]) && IsCode(lengths, t, bits[..lengths[t]])
    ensures s == t
  {
    if lengths[s] < lengths[t] {
      NotPrefix(lengths, s, t, bits);
    } else if lengths[t] < lengths[s] {
      NotPrefix(lengths, t, s, bits);
    } else if s < t {
      RankInjective(lengths, s, t);
    } else if t < s {
      RankInjective(lengths, t, s);
    }
  }

  lemma NotPrefix(lengths: seq<nat>, s: nat, t: nat, bits: seq<bool>)
    requires s < |lengths| && t < |lengths| && lengths[s] < lengths[t] <= |bits|
    requires IsCode(lengths, s, bits[..lengths[s]])
    ensures !IsCode(lengths, t, bits[..lengths[t]])
  {
    if IsCode(lengths, t, bits[..lengths[t]]) {
      PrefixAbove(lengths, t, bits[..lengths[t]], lengths[s]);
      assert bits[..lengths[t]][..lengths[s]] == bits[..lengths[s]];
      CountPrefix(lengths, s, lengths[s]);
    }
  }

  // ---- the decoder's tables ----

  datatype Table = Table(counts: seq<nat>, symbols: seq<nat>, maxBits: nat)

  /** Number of symbols with code length 1..l-1. */
  function Offset(lengths: seq<nat>, l: nat): nat
    requires l >= 1
  {
    if l == 1 then 0 else Offset(lengths, l - 1) + Count(lengths, l - 1)
  }

  ghost predicate IsTable(h: Table, lengths: seq<nat>) {
    && |h.counts| == h.maxBits + 1
    && (forall l | 1 <= l <= h.maxBits :: h.counts[l] == Count(lengths, l))
    && (forall s | 0 <= s < |lengths| && lengths[s] > 0 ::
          && lengths[s] <= h.maxBits
          && Position(lengths, s) < |h.symbols| && h.symbols[Position(lengths, s)] == s)
  }

  /** Where symbol s stands when symbols are sorted by code length, then by value. */
  function Position(lengths: seq<nat>, s: nat): nat
    requires s < |lengths| && lengths[s] > 0
  {
    Offset(lengths, lengths[s]) + Count(lengths[..s], lengths[s])
  }

  lemma {:induction false} SymbolOfRank(lengths: seq<nat>, l: nat, r: nat) returns (s: nat)
    requires r < Count(lengths, l)
    ensures s < |lengths| && lengths[s] == l && Count(lengths[..s], l) == r
  {
    var n := |lengths| - 1;
    if r < Count(lengths[..n], l) {
      s := SymbolOfRank(lengths[..n], l, r);
      assert lengths[..n][..s] == lengths[..s];
    } else {
      s := n;
    }
  }
}
