/** What the constants and the canonical code of the inflater are: section 3.2 of RFC 1951 as rules,
    against the tables that encoder and decoder share. */
module InflateTables {
  import opened Bits
  import opened Huffman
  import opened InflateSpec

  // ---- lengths, distances, transmission order ----

  /** Length codes: they start at 3, each takes up where the one below ends, four codes share a number
      of extra bits from the eighth on, and the last is 258 alone. */
  lemma LengthTable(li: nat)
    requires li < 29
    ensures LenBase(0) == 3 && LenBase(28) == 258
    ensures li < 27 ==> LenBase(li + 1) == LenBase(li) + Pow2(LenExtra(li))
    ensures LenExtra(li) == if li < 8 || li == 28 then 0 else (li - 4) / 4
  {
    hide Pow2;
    LengthExtra(li);
    var x := LenExtra(li);
    LowPower(x);
    if li < 27 {
      LengthSpan(li);
    }
  }

  lemma LengthExtra(li: nat)
    requires li < 29
    ensures LenExtra(li) == if li < 8 || li == 28 then 0 else (li - 4) / 4
  {
  }

  lemma LengthSpan(li: nat)
    requires li < 27
    ensures LenBase(li + 1) - LenBase(li) == [1, 2, 4, 8, 16, 32][if li < 8 then 0 else (li - 4) / 4]
  {
  }

  lemma LowPower(k: nat)
    requires k < 14
    ensures Pow2(k) == [1, 2, 4, 8, 16, 32, 64, 128, 256, 512, 1024, 2048, 4096, 8192][k]
  {
    LowPowers();
  }

  /** Distance codes: they start at 1, each takes up where the one below ends, and two codes share a
      number of extra bits from the fourth on. */
  lemma DistanceTable(di: nat)
    requires di < 30
    ensures DistBase(0) == 1
    ensures di < 29 ==> DistBase(di + 1) == DistBase(di) + Pow2(DistExtra(di))
    ensures DistExtra(di) == if di < 4 then 0 else (di - 2) / 2
  {
    hide Pow2;
    DistanceExtra(di);
    LowPower(DistExtra(di));
    if di < 29 {
      DistanceSpan(di);
    }
  }

  lemma DistanceExtra(di: nat)
    requires di < 30
    ensures DistExtra(di) == if di < 4 then 0 else (di - 2) / 2
  {
  }

  lemma DistanceSpan(di: nat)
    requires di < 29
    ensures DistBase(di + 1) - DistBase(di) ==
              [1, 2, 4, 8, 16, 32, 64, 128, 256, 512, 1024, 2048, 4096, 8192][if di < 4 then 0 else (di - 2) / 2]
  {
  }

  lemma LowPowers()
    ensures Pow2(0) == 1 && Pow2(1) == 2 && Pow2(2) == 4 && Pow2(3) == 8 && Pow2(4) == 16 && Pow2(5) == 32
    ensures Pow2(6) == 64 && Pow2(7) == 128 && Pow2(8) == 256 && Pow2(9) == 512 && Pow2(10) == 1024
    ensures Pow2(11) == 2048 && Pow2(12) == 4096 && Pow2(13) == 8192
  {
    PowEight();
    PowSplits(8, 2);
    PowSplits(8, 4);
  }

  /** The order of the code-length codes: the three run codes, 0, then outwards from 8. */
  lemma OrderTable(j: nat)
    ensures ClOrder(0) == 16 && ClOrder(1) == 17 && ClOrder(2) == 18 && ClOrder(3) == 0
    ensures j < 8 ==> ClOrder(4 + 2 * j) == 8 + j
    ensures j < 7 ==> ClOrder(5 + 2 * j) == 7 - j
  {
  }

  /** The fixed codes. */
  lemma FixedTable(s: nat)
    ensures s < 288 ==> FixedLit()[s] == (if s < 144 then 8 else if s < 256 then 9 else if s < 280 then 7 else 8)
    ensures s < 32 ==> FixedDist()[s] == 5
  {
  }

  // ---- copies ----

  /** Every byte a match produces is the one `dist` before it, the output before it stays. */
  lemma {:induction false} CopyAt(out: seq<byte>, dist: nat, n: nat, i: nat)
    requires 1 <= dist <= |out| && i < |out| + n
    ensures var r := Copy(out, dist, n);
            |r| == |out| + n && r[i] == if i < |out| then out[i] else r[i - dist]
    decreases n
  {
    if n > 0 {
      var next := out + [out[|out| - dist]];
      CopyAt(next, dist, n - 1, i);
      if i == |out| {
        CopyAt(next, dist, n - 1, i - dist);
      }
    }
  }

  // ---- the canonical code ----

  /** Symbol s comes before t: by code length, then by value. */
  predicate Earlier(lengths: seq<nat>, s: nat, t: nat)
    requires s < |lengths| && t < |lengths|
  {
    lengths[s] < lengths[t] || (lengths[s] == lengths[t] && s < t)
  }

  /** Nobody in use before s. */
  predicate IsFirst(lengths: seq<nat>, s: nat)
    requires s < |lengths|
  {
    Used(lengths, s) && forall u | 0 <= u < |lengths| && Used(lengths, u) && u != s :: Earlier(lengths, s, u)
  }

  /** Nobody in use between s and t. */
  predicate IsNext(lengths: seq<nat>, s: nat, t: nat)
    requires s < |lengths| && t < |lengths|
  {
    && Used(lengths, s) && Used(lengths, t) && Earlier(lengths, s, t)
    && forall u | 0 <= u < |lengths| && Used(lengths, u) && u != s && u != t ::
         Earlier(lengths, u, s) || Earlier(lengths, t, u)
  }

  /** No symbol has a length below that of the first one. */
  lemma NoneShorter(lengths: seq<nat>, s: nat, m: nat)
    requires s < |lengths| && IsFirst(lengths, s) && 1 <= m < lengths[s]
    ensures forall u | 0 <= u < |lengths| :: lengths[u] != m
  {
    forall u | 0 <= u < |lengths| ensures lengths[u] != m {
      assert lengths[u] == m ==> Used(lengths, u) && Earlier(lengths, s, u);
    }
  }

  lemma NoneBelow(lengths: seq<nat>, s: nat)
    requires s < |lengths| && IsFirst(lengths, s)
    ensures forall u | 0 <= u < s :: lengths[u] != lengths[s]
  {
    forall u | 0 <= u < s ensures lengths[u] != lengths[s] {
      assert lengths[u] == lengths[s] ==> Used(lengths, u) && Earlier(lengths, s, u);
    }
  }

  /** Between neighbours of the same length no other symbol has that length. */
  lemma SameLengthGap(lengths: seq<nat>, s: nat, t: nat)
    requires s < |lengths| && t < |lengths| && IsNext(lengths, s, t) && lengths[s] == lengths[t]
    ensures s < t && forall u | s < u < t :: lengths[u] != lengths[s]
  {
    forall u | s < u < t ensures lengths[u] != lengths[s] {
      assert lengths[u] == lengths[s] ==> Used(lengths, u);
    }
  }

  /** Neighbours of different lengths: no length between, s the last of its own, t the first. */
  lemma LengthGap(lengths: seq<nat>, s: nat, t: nat)
    requires s < |lengths| && t < |lengths| && IsNext(lengths, s, t) && lengths[s] < lengths[t]
    ensures forall u | 0 <= u < |lengths| :: !(lengths[s] < lengths[u] < lengths[t])
    ensures forall u | s < u < |lengths| :: lengths[u] != lengths[s]
    ensures forall u | 0 <= u < t :: lengths[u] != lengths[t]
  {
    forall u | 0 <= u < |lengths| && u != s && u != t
      ensures lengths[u] < lengths[s] || lengths[u] > lengths[t]
              || (lengths[u] == lengths[s] && u < s) || (lengths[u] == lengths[t] && u > t)
    {
      assert lengths[u] > 0 ==> Used(lengths, u);
    }
  }

  lemma {:induction false} CountsNobody(lengths: seq<nat>, l: nat)
    requires forall u | 0 <= u < |lengths| :: lengths[u] != l
    ensures Count(lengths, l) == 0
  {
    if lengths != [] {
      CountsNobody(lengths[..|lengths| - 1], l);
    }
  }

  /** The symbols of length l below n that are not below m. */
  lemma {:induction false} CountBetween(lengths: seq<nat>, m: nat, n: nat, l: nat)
    requires m <= n <= |lengths| && forall u | m <= u < n :: lengths[u] != l
    ensures Count(lengths[..n], l) == Count(lengths[..m], l)
  {
    if m < n {
      assert lengths[..n][..n - 1] == lengths[..n - 1];
      CountBetween(lengths, m, n - 1, l);
    }
  }

  lemma CountStep(lengths: seq<nat>, s: nat, l: nat)
    requires s < |lengths| && lengths[s] == l
    ensures Count(lengths[..s + 1], l) == Count(lengths[..s], l) + 1
  {
    assert lengths[..s + 1][..s] == lengths[..s];
  }

  lemma {:induction false} FirstFromZero(lengths: seq<nat>, l: nat)
    requires l >= 1 && forall m | 1 <= m < l :: Count(lengths, m) == 0
    ensures First(lengths, l) == 0
  {
    hide Count;
    if l > 1 {
      FirstFromZero(lengths, l - 1);
    }
  }

  /** Without symbols of lengths l + 1 to m - 1 the first code of length m follows the last of length l. */
  lemma {:induction false} FirstFollows(lengths: seq<nat>, l: nat, m: nat)
    requires 1 <= l < m && forall k | l < k < m :: Count(lengths, k) == 0
    ensures First(lengths, m) == (First(lengths, l) + Count(lengths, l)) * Pow2(m - l)
  {
    hide Count, Pow2;
    if m == l + 1 {
      PowZero();
    } else {
      FirstFollows(lengths, l, m - 1);
      PowDoubles(m - 1 - l);
      DoubleAndAdd(First(lengths, l) + Count(lengths, l), 0, Pow2(m - 1 - l));
    }
  }

  /** The first symbol's codeword is all zeros. */
  lemma CanonicalFirst(lengths: seq<nat>, s: nat, w: seq<bool>)
    requires s < |lengths| && IsFirst(lengths, s) && IsCode(lengths, s, w)
    ensures |w| == lengths[s] && MsbValue(w) == 0
  {
    hide Count, First, MsbValue;
    var l := lengths[s];
    hide IsFirst;
    forall m | 1 <= m < l ensures Count(lengths, m) == 0 {
      NoneShorter(lengths, s, m);
      CountsNobody(lengths, m);
    }
    FirstFromZero(lengths, l);
    assert lengths[..0] == [];
    CountsNobody([], l);
    NoneBelow(lengths, s);
    CountBetween(lengths, 0, s, l);
  }

  /** Every other codeword is its predecessor's plus one, lengthened by zeros. */
  lemma CanonicalNext(lengths: seq<nat>, s: nat, t: nat, v: seq<bool>, w: seq<bool>)
    requires s < |lengths| && t < |lengths| && IsNext(lengths, s, t)
    requires IsCode(lengths, s, v) && IsCode(lengths, t, w)
    ensures |w| == lengths[t] >= |v| && MsbValue(w) == (MsbValue(v) + 1) * Pow2(|w| - |v|)
  {
    hide Count, First, MsbValue, Pow2, IsNext;
    var l, m := lengths[s], lengths[t];
    CountStep(lengths, s, l);
    if l == m {
      SameLengthGap(lengths, s, t);
      CountBetween(lengths, s + 1, t, l);
      PowZero();
    } else {
      assert l < m by { NextIsLater(lengths, s, t); }
      NextLength(lengths, s, t);
    }
  }

  lemma NextIsLater(lengths: seq<nat>, s: nat, t: nat)
    requires s < |lengths| && t < |lengths| && IsNext(lengths, s, t)
    ensures lengths[s] <= lengths[t]
  {
  }

  lemma NextLength(lengths: seq<nat>, s: nat, t: nat)
    requires s < |lengths| && t < |lengths| && IsNext(lengths, s, t) && 0 < lengths[s] < lengths[t]
    ensures Count(lengths[..t], lengths[t]) == 0
    ensures First(lengths, lengths[t]) ==
              (First(lengths, lengths[s]) + Count(lengths[..s], lengths[s]) + 1) * Pow2(lengths[t] - lengths[s])
  {
    hide Count, First, Pow2, IsNext;
    var l, m := lengths[s], lengths[t];
    LengthGap(lengths, s, t);
    forall k | l < k < m ensures Count(lengths, k) == 0 {
      CountsNobody(lengths, k);
    }
    FirstFollows(lengths, l, m);
    CountStep(lengths, s, l);
    CountBetween(lengths, s + 1, |lengths|, l);
    assert lengths[..|lengths|] == lengths && lengths[..0] == [];
    CountsNobody([], m);
    CountBetween(lengths, 0, t, m);
  }

  /** Codewords are read most significant bit first: equally long bit strings are ordered by value as
      they are ordered bit by bit. */
  lemma {:induction false} MsbFirst(a: seq<bool>, b: seq<bool>, i: nat)
    requires |a| == |b| && i < |a| && a[..i] == b[..i] && !a[i] && b[i]
    ensures MsbValue(a) < MsbValue(b)
  {
    hide Pow2;
    ValueSplits(a, i + 1);
    ValueSplits(b, i + 1);
    assert a[..i + 1][..i] == a[..i] == b[..i] == b[..i + 1][..i];
    assert MsbValue(b[..i + 1]) == MsbValue(a[..i + 1]) + 1;
    OneMore(MsbValue(a[..i + 1]), Pow2(|a| - i - 1));
  }
}
