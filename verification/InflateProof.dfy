/** Decoding what any encoder wrote returns what it meant. */
module InflateProof {
  import opened Bits
  import opened Huffman
  import opened InflateSpec

  lemma ReadBitsHas(bits: seq<bool>, p: nat, v: nat, n: nat)
    requires v < Pow2(n) && Has(bits, p, ToBits(v, n))
    ensures ReadBits(bits, p, n) == Ok((v, p + n))
  {
    ValueToBits(v, n);
  }

  /** Canonical Huffman, encoder's side: under Kraft's inequality the codeword of a
      symbol in use, wherever it stands, is decoded to that symbol, and exactly its
      bits are consumed. */
  lemma CodeDecodes(lengths: seq<nat>, max: nat, bits: seq<bool>, p: nat, s: nat)
    requires Kraft(lengths, max) && Used(lengths, s) && Has(bits, p, Code(lengths, s))
    ensures SymbolAt(lengths, max, bits, p) == Ok((s, p + lengths[s]))
  {
    hide Kraft, Code, SymbolAt;
    CodeIsCode(lengths, s, max);
    SymbolAtIs(lengths, max, bits, p, s);
  }

  // ---- one block ----

  lemma TokenDecodes(bits: seq<bool>, p: nat, lit: seq<nat>, dist: seq<nat>, out: seq<byte>, t: Token)
    requires Kraft(lit, 15) && Kraft(dist, 15)
    requires TokenUses(lit, dist, t) && TokenOk(t, |out|) && Has(bits, p, EncodeToken(lit, dist, t))
    ensures var q := p + |EncodeToken(lit, dist, t)|;
            BlockSpec(bits, p, lit, dist, out) == BlockSpec(bits, q, lit, dist, Expand(out, t))
  {
    hide Kraft, SymbolAt, ReadBits, Has, Code, Copy, ToBits, Pow2, LenBase, LenExtra, DistBase, DistExtra;
    match t
    case Literal(b) =>
      CodeDecodes(lit, 15, bits, p, b);
    case Match(li, lx, di, dx) =>
      var c1, x1 := Code(lit, 257 + li), ToBits(lx, LenExtra(li));
      var c2, x2 := Code(dist, di), ToBits(dx, DistExtra(di));
      HasConcat(bits, p, c1, x1 + (c2 + x2));
      HasConcat(bits, p + |c1|, x1, c2 + x2);
      HasConcat(bits, p + |c1| + |x1|, c2, x2);
      CodeDecodes(lit, 15, bits, p, 257 + li);
      ReadBitsHas(bits, p + |c1|, lx, LenExtra(li));
      CodeDecodes(dist, 15, bits, p + |c1| + |x1|, di);
      ReadBitsHas(bits, p + |c1| + |x1| + |c2|, dx, DistExtra(di));
  }

  lemma {:induction false} TokensDecode(bits: seq<bool>, p: nat, lit: seq<nat>, dist: seq<nat>, out: seq<byte>,
                                        ts: seq<Token>)
    requires Kraft(lit, 15) && Kraft(dist, 15) && Encodable(lit, dist, ts) && TokensOk(out, ts)
    requires Has(bits, p, EncodeTokens(lit, dist, ts))
    ensures BlockSpec(bits, p, lit, dist, out)
            == Ok((p + |EncodeTokens(lit, dist, ts)|, ExpandAll(out, ts)))
    decreases |ts|
  {
    hide Kraft, SymbolAt, ReadBits, Has, Code, Copy, TokenOk, Expand, EncodeToken, TokenUses;
    if ts == [] {
      CodeDecodes(lit, 15, bits, p, 256);
    } else {
      assert ts[0] in ts && forall t | t in ts[1..] :: t in ts;
      var e := EncodeToken(lit, dist, ts[0]);
      HasConcat(bits, p, e, EncodeTokens(lit, dist, ts[1..]));
      TokenDecodes(bits, p, lit, dist, out, ts[0]);
      TokensDecode(bits, p + |e|, lit, dist, Expand(out, ts[0]), ts[1..]);
    }
  }

  // ---- the header of a dynamic block ----

  /** Entries of the run-length code for code lengths. */
  datatype ClSym = ClLen(l: nat) | ClRepeat(x: nat) | ClZeros(x: nat) | ClManyZeros(x: nat)

  predicate ClOk(acc: seq<nat>, c: ClSym) {
    match c
    case ClLen(l) => l < 16
    case ClRepeat(x) => x < 4 && acc != []
    case ClZeros(x) => x < 8
    case ClManyZeros(x) => x < 128
  }

  function ClExpand(acc: seq<nat>, c: ClSym): (r: seq<nat>)
    requires ClOk(acc, c)
    ensures |r| > |acc|
  {
    match c
    case ClLen(l) => acc + [l]
    case ClRepeat(x) => acc + Repeat(acc[|acc| - 1], 3 + x)
    case ClZeros(x) => acc + Repeat(0, 3 + x)
    case ClManyZeros(x) => acc + Repeat(0, 11 + x)
  }

  function ClSymbol(c: ClSym): nat {
    match c
    case ClLen(l) => l
    case ClRepeat(_) => 16
    case ClZeros(_) => 17
    case ClManyZeros(_) => 18
  }

  function ClExtra(c: ClSym): seq<bool> {
    match c
    case ClLen(_) => []
    case ClRepeat(x) => ToBits(x, 2)
    case ClZeros(x) => ToBits(x, 3)
    case ClManyZeros(x) => ToBits(x, 7)
  }

  predicate ClAllOk(acc: seq<nat>, cs: seq<ClSym>)
    decreases |cs|
  {
    cs == [] || (ClOk(acc, cs[0]) && ClAllOk(ClExpand(acc, cs[0]), cs[1..]))
  }

  function ClExpandAll(acc: seq<nat>, cs: seq<ClSym>): (r: seq<nat>)
    requires ClAllOk(acc, cs)
    ensures |r| >= |acc| && (cs != [] ==> |r| > |acc|)
    decreases |cs|
  {
    if cs == [] then acc else ClExpandAll(ClExpand(acc, cs[0]), cs[1..])
  }

  function EncodeClSym(cl: seq<nat>, c: ClSym): seq<bool>
    requires Used(cl, ClSymbol(c))
  {
    Code(cl, ClSymbol(c)) + ClExtra(c)
  }

  function EncodeLengths(cl: seq<nat>, cs: seq<ClSym>): seq<bool>
    requires forall c | c in cs :: Used(cl, ClSymbol(c))
  {
    if cs == [] then [] else EncodeClSym(cl, cs[0]) + EncodeLengths(cl, cs[1..])
  }

  lemma SmallPowers()
    ensures Pow2(1) == 2 && Pow2(2) == 4 && Pow2(3) == 8 && Pow2(4) == 16 && Pow2(5) == 32 && Pow2(7) == 128
    ensures Pow2(16) == 65536
  {
    PowSplits(4, 3);
    PowSplits(8, 8);
    PowEight();
    assert Pow2(2) == 4 && Pow2(3) == 8;
    assert Pow2(4) == 16 && Pow2(5) == 32;
  }

  lemma ClSymDecodes(bits: seq<bool>, p: nat, cl: seq<nat>, acc: seq<nat>, c: ClSym, total: nat)
    requires Kraft(cl, 7) && ClOk(acc, c) && Used(cl, ClSymbol(c)) && |ClExpand(acc, c)| <= total
    requires p <= |bits| && Has(bits, p, EncodeClSym(cl, c))
    ensures var q := p + |EncodeClSym(cl, c)|;
            q <= |bits| && LengthsSpec(bits, p, cl, acc, total) == LengthsSpec(bits, q, cl, ClExpand(acc, c), total)
  {
    hide Kraft, SymbolAt, ReadBits, Code, ToBits, Pow2;
    SmallPowers();
    var s := ClSymbol(c);
    HasConcat(bits, p, Code(cl, s), ClExtra(c));
    CodeDecodes(cl, 7, bits, p, s);
    var p1 := p + cl[s];
    match c
    case ClLen(_) =>
    case ClRepeat(x) => ReadBitsHas(bits, p1, x, 2);
    case ClZeros(x) => ReadBitsHas(bits, p1, x, 3);
    case ClManyZeros(x) => ReadBitsHas(bits, p1, x, 7);
  }

  lemma {:induction false} ClGrows(acc: seq<nat>, cs: seq<ClSym>)
    requires cs != [] && ClAllOk(acc, cs)
    ensures |ClExpand(acc, cs[0])| <= |ClExpandAll(acc, cs)|
  {
  }

  lemma {:induction false} LengthsDecode(bits: seq<bool>, p: nat, cl: seq<nat>, acc: seq<nat>, cs: seq<ClSym>,
                                         total: nat)
    requires Kraft(cl, 7) && (forall c | c in cs :: Used(cl, ClSymbol(c))) && ClAllOk(acc, cs)
    requires p <= |bits| && |ClExpandAll(acc, cs)| == total && Has(bits, p, EncodeLengths(cl, cs))
    ensures LengthsSpec(bits, p, cl, acc, total)
            == Ok((ClExpandAll(acc, cs), p + |EncodeLengths(cl, cs)|))
    decreases |cs|
  {
    hide Kraft, SymbolAt, ReadBits, Has, EncodeClSym, ClExpand, ClOk, ClSymbol;
    if cs != [] {
      assert cs[0] in cs && forall c | c in cs[1..] :: c in cs;
      var e := EncodeClSym(cl, cs[0]);
      HasConcat(bits, p, e, EncodeLengths(cl, cs[1..]));
      ClGrows(acc, cs);
      ClSymDecodes(bits, p, cl, acc, cs[0], total);
      LengthsDecode(bits, p + |e|, cl, ClExpand(acc, cs[0]), cs[1..], total);
    }
  }

  function EncodeCl(cl: seq<nat>, n: nat): (e: seq<bool>)
    requires |cl| == 19 && n <= 19
    ensures |e| == 3 * n
  {
    if n == 0 then [] else EncodeCl(cl, n - 1) + ToBits(cl[ClOrder(n - 1)], 3)
  }

  /** Lengths below 8; those beyond the first n of the order are zero. */
  predicate ClHeaderOk(cl: seq<nat>, n: nat) {
    && |cl| == 19 && n <= 19
    && (forall i | 0 <= i < 19 :: cl[i] < 8)
    && (forall k | n <= k < 19 :: cl[ClOrder(k)] == 0)
  }

  /** The transmission order is a permutation of the 19 symbols. */
  lemma OrderInjective(j: nat, k: nat)
    requires j < k < 19
    ensures ClOrder(j) != ClOrder(k)
  {
  }

  lemma OrderOf(i: nat) returns (k: nat)
    requires i < 19
    ensures k < 19 && ClOrder(k) == i
  {
    var place := [3, 17, 15, 13, 11, 9, 7, 5, 4, 6, 8, 10, 12, 14, 16, 18, 0, 1, 2];
    k := place[i];
  }

  lemma EncodeClStep(cl: seq<nat>, n: nat)
    requires |cl| == 19 && 1 <= n <= 19
    ensures EncodeCl(cl, n) == EncodeCl(cl, n - 1) + ToBits(cl[ClOrder(n - 1)], 3)
  {
  }

  lemma {:induction false} ClHeaderPart(bits: seq<bool>, p: nat, cl: seq<nat>, n: nat)
    requires |cl| == 19 && n <= 19 && (forall i | 0 <= i < 19 :: cl[i] < 8)
    requires p <= |bits| && Has(bits, p, EncodeCl(cl, n))
    ensures var r := ClLengths(bits, p, n);
            && r.Ok? && r.value.1 == p + 3 * n
            && (forall k | 0 <= k < n :: r.value.0[ClOrder(k)] == cl[ClOrder(k)])
            && (forall k | n <= k < 19 :: r.value.0[ClOrder(k)] == 0)
  {
    hide ReadBits, ToBits, ClOrder, Has, EncodeCl, Pow2;
    if n > 0 {
      forall k | 0 <= k < 19 && k != n - 1 ensures ClOrder(k) != ClOrder(n - 1) {
        if k < n - 1 { OrderInjective(k, n - 1); } else { OrderInjective(n - 1, k); }
      }
      assert EncodeCl(cl, n) == EncodeCl(cl, n - 1) + ToBits(cl[ClOrder(n - 1)], 3) by { EncodeClStep(cl, n); }
      HasConcat(bits, p, EncodeCl(cl, n - 1), ToBits(cl[ClOrder(n - 1)], 3));
      ClHeaderPart(bits, p, cl, n - 1);
      SmallPowers();
      ReadBitsHas(bits, p + 3 * (n - 1), cl[ClOrder(n - 1)], 3);
    }
  }

  lemma ClHeaderDecodes(bits: seq<bool>, p: nat, cl: seq<nat>, n: nat)
    requires ClHeaderOk(cl, n) && p <= |bits| && Has(bits, p, EncodeCl(cl, n))
    ensures ClLengths(bits, p, n) == Ok((cl, p + 3 * n))
  {
    hide EncodeCl, Has, ClOrder, ClLengths;
    ClHeaderPart(bits, p, cl, n);
    var r := ClLengths(bits, p, n).value.0;
    forall i | 0 <= i < 19 ensures r[i] == cl[i] {
      var k := OrderOf(i);
      assert r[ClOrder(k)] == cl[ClOrder(k)];
    }
    assert r == cl;
  }

  // ---- blocks and streams ----

  /** A block as an encoder may choose to write it. */
  datatype Block =
    | Stored(pad: seq<bool>, data: seq<byte>)
    | Fixed(ts: seq<Token>)
    | Dynamic(hlit: nat, hdist: nat, hclen: nat, cl: seq<nat>, cs: seq<ClSym>, ts: seq<Token>)

  function LitOf(b: Block): seq<nat>
    requires b.Dynamic? ==> ClAllOk([], b.cs) && |ClExpandAll([], b.cs)| == b.hlit + b.hdist
  {
    match b
    case Dynamic(hlit, _, _, _, cs, _) => ClExpandAll([], cs)[..hlit]
    case _ => FixedLit()
  }

  function DistOf(b: Block): seq<nat>
    requires b.Dynamic? ==> ClAllOk([], b.cs) && |ClExpandAll([], b.cs)| == b.hlit + b.hdist
  {
    match b
    case Dynamic(hlit, _, _, _, cs, _) => ClExpandAll([], cs)[hlit..]
    case _ => FixedDist()
  }

  /** The block obeys RFC 1951 at bit position p (behind its three header bits), after
      `out` was produced. */
  ghost predicate BlockOk(p: nat, out: seq<byte>, b: Block) {
    match b
    case Stored(pad, data) => p + |pad| == Align(p) && |data| < 65536
    case Fixed(ts) => Encodable(FixedLit(), FixedDist(), ts) && TokensOk(out, ts)
    case Dynamic(hlit, hdist, hclen, cl, cs, ts) =>
      && 257 <= hlit <= 288 && 1 <= hdist <= 32 && 4 <= hclen <= 19
      && ClHeaderOk(cl, hclen) && Kraft(cl, 7)
      && (forall c | c in cs :: Used(cl, ClSymbol(c)))
      && ClAllOk([], cs) && |ClExpandAll([], cs)| == hlit + hdist
      && Kraft(LitOf(b), 15) && Kraft(DistOf(b), 15)
      && Encodable(LitOf(b), DistOf(b), ts) && TokensOk(out, ts)
  }

  ghost function EncodeBlock(p: nat, out: seq<byte>, b: Block): seq<bool>
    requires BlockOk(p, out, b)
  {
    match b
    case Stored(pad, data) => pad + (ToBits(|data|, 16) + (ToBits(65535 - |data|, 16) + BitsOf(data)))
    case Fixed(ts) => EncodeTokens(FixedLit(), FixedDist(), ts)
    case Dynamic(hlit, hdist, hclen, cl, cs, ts) =>
      ToBits(hlit - 257, 5) + (ToBits(hdist - 1, 5) + (ToBits(hclen - 4, 4)
      + (EncodeCl(cl, hclen) + (EncodeLengths(cl, cs) + EncodeTokens(LitOf(b), DistOf(b), ts)))))
  }

  ghost function BlockOutput(p: nat, out: seq<byte>, b: Block): seq<byte>
    requires BlockOk(p, out, b)
  {
    match b
    case Stored(_, data) => out + data
    case Fixed(ts) => ExpandAll(out, ts)
    case Dynamic(_, _, _, _, _, ts) => ExpandAll(out, ts)
  }

  function Kind(b: Block): nat {
    match b
    case Stored(_, _) => 0
    case Fixed(_) => 1
    case Dynamic(_, _, _, _, _, _) => 2
  }

  lemma {:induction false} WeightConcat(a: seq<nat>, b: seq<nat>, l: nat, max: nat)
    requires l <= max
    ensures Weight(a + b, l, max) == Weight(a, l, max) + Weight(b, l, max)
  {
    if b == [] {
      assert a + b == a;
    } else {
      var n := |b| - 1;
      assert (a + b)[..|a + b| - 1] == a + b[..n];
      WeightConcat(a, b[..n], l, max);
    }
  }

  lemma {:induction false} WeightRepeat(x: nat, n: nat)
    requires 1 <= x <= 15
    ensures Weight(Repeat(x, n), 15, 15) == n * Pow2(15 - x)
  {
    hide Pow2;
    if n > 0 {
      assert Repeat(x, n)[..n - 1] == Repeat(x, n - 1);
      WeightRepeat(x, n - 1);
      OneMore(n - 1, Pow2(15 - x));
    }
  }

  /** The fixed codes fill the code space exactly. */
  lemma FixedKraft()
    ensures Kraft(FixedLit(), 15) && Kraft(FixedDist(), 15)
  {
    hide Weight, Repeat, Pow2;
    var a, b, c, d := Repeat(8, 144), Repeat(9, 112), Repeat(7, 24), Repeat(8, 8);
    FixedLitRuns();
    WeightConcat(a, b + (c + d), 15, 15);
    WeightConcat(b, c + d, 15, 15);
    WeightConcat(c, d, 15, 15);
    WeightRepeat(8, 144);
    WeightRepeat(9, 112);
    WeightRepeat(7, 24);
    WeightRepeat(8, 8);
    WeightRepeat(5, 32);
    FixedPowers();
    FixedBounded();
  }

  lemma FixedPowers()
    ensures Pow2(6) == 64 && Pow2(7) == 128 && Pow2(8) == 256 && Pow2(10) == 1024 && Pow2(15) == 32768
  {
    SmallPowers();
    PowEight();
    PowSplits(5, 1);
    PowSplits(5, 5);
    PowSplits(8, 7);
  }

  lemma FixedLitRuns()
    ensures FixedLit() == Repeat(8, 144) + (Repeat(9, 112) + (Repeat(7, 24) + Repeat(8, 8)))
  {
  }

  lemma FixedBounded()
    ensures forall l | l in FixedLit() :: l <= 15
    ensures forall l | l in FixedDist() :: l <= 15
  {
  }

  /** The bits of a slice stand where the slice stands. */
  lemma Part(src: seq<byte>, i: nat, j: nat) returns (m: seq<byte>)
    requires i <= j <= |src|
    ensures m == src[i..j] && |m| == j - i && Has(BitsOf(src), 8 * i, BitsOf(m))
  {
    hide BitsOf, Has;
    var a, z := src[..i], src[j..];
    m := src[i..j];
    assert src == a + (m + z);
    BitsOfConcat(a, m + z);
    BitsOfConcat(m, z);
    var w := BitsOf(src);
    HasItself(w);
    HasConcat(w, 0, BitsOf(a), BitsOf(m) + BitsOf(z));
    HasConcat(w, 8 * i, BitsOf(m), BitsOf(z));
  }

  lemma HasItself(w: seq<bool>)
    ensures Has(w, 0, w)
  {
  }

  lemma HasSame(bits: seq<bool>, p: nat, a: seq<bool>, b: seq<bool>)
    requires Has(bits, p, a) && Has(bits, p, b) && |a| == |b|
    ensures a == b
  {
  }

  lemma BytesBetween(src: seq<byte>, i: nat, j: nat, data: seq<byte>)
    requires i <= j <= |src| && j - i == |data| && Has(BitsOf(src), 8 * i, BitsOf(data))
    ensures src[i..j] == data
  {
    hide BitsOf, Has;
    var m := Part(src, i, j);
    HasSame(BitsOf(src), 8 * i, BitsOf(m), BitsOf(data));
    BitsOfInjective(m, data);
  }

  lemma StoredDecodes(src: seq<byte>, p: nat, out: seq<byte>, b: Block)
    requires b.Stored? && BlockOk(p, out, b) && Has(BitsOf(src), p, EncodeBlock(p, out, b))
    ensures StoredSpec(src, p, out) == Ok((p + |EncodeBlock(p, out, b)|, BlockOutput(p, out, b)))
  {
    hide BitsOf, ToBits, Pow2, ReadBits, Has;
    var bits, n := BitsOf(src), |b.data|;
    var x, y, z := ToBits(n, 16), ToBits(65535 - n, 16), BitsOf(b.data);
    SmallPowers();
    HasConcat(bits, p, b.pad, x + (y + z));
    HasConcat(bits, Align(p), x, y + z);
    HasConcat(bits, Align(p) + 16, y, z);
    ReadBitsHas(bits, Align(p), n, 16);
    ReadBitsHas(bits, Align(p) + 16, 65535 - n, 16);
    var off := Align(p) / 8 + 4;
    InRange(bits, 8 * off, z);
    BytesBetween(src, off, off + n, b.data);
  }

  lemma DynamicDecodes(bits: seq<bool>, p: nat, out: seq<byte>, b: Block)
    requires b.Dynamic? && BlockOk(p, out, b) && p <= |bits| && Has(bits, p, EncodeBlock(p, out, b))
    ensures DynamicSpec(bits, p, out) == Ok((p + |EncodeBlock(p, out, b)|, BlockOutput(p, out, b)))
  {
    hide ToBits, Pow2, ReadBits, Has, Kraft, EncodeCl, EncodeLengths, EncodeTokens, Encodable,
         ClAllOk, ClExpandAll, TokensOk, ExpandAll, LengthsSpec, ClLengths, BlockSpec, Used;
    var x, y, z := ToBits(b.hlit - 257, 5), ToBits(b.hdist - 1, 5), ToBits(b.hclen - 4, 4);
    var c, l, t := EncodeCl(b.cl, b.hclen), EncodeLengths(b.cl, b.cs), EncodeTokens(LitOf(b), DistOf(b), b.ts);
    SmallPowers();
    HasConcat(bits, p, x, y + (z + (c + (l + t))));
    HasConcat(bits, p + 5, y, z + (c + (l + t)));
    HasConcat(bits, p + 10, z, c + (l + t));
    HasConcat(bits, p + 14, c, l + t);
    var p4 := p + 14 + |c|;
    HasConcat(bits, p4, l, t);
    ReadBitsHas(bits, p, b.hlit - 257, 5);
    ReadBitsHas(bits, p + 5, b.hdist - 1, 5);
    ReadBitsHas(bits, p + 10, b.hclen - 4, 4);
    InRange(bits, p + 14, c);
    ClHeaderDecodes(bits, p + 14, b.cl, b.hclen);
    InRange(bits, p4, l);
    LengthsDecode(bits, p4, b.cl, [], b.cs, b.hlit + b.hdist);
    InRange(bits, p4 + |l|, t);
    TokensDecode(bits, p4 + |l|, LitOf(b), DistOf(b), out, b.ts);
  }

  lemma InRange(bits: seq<bool>, p: nat, e: seq<bool>)
    requires Has(bits, p, e)
    ensures p + |e| <= |bits|
  {
  }

  /** A stream: every block behind its final flag and kind; only the last is final. */
  ghost predicate StreamOk(p: nat, out: seq<byte>, bs: seq<Block>)
    decreases |bs|
  {
    && bs != [] && BlockOk(p + 3, out, bs[0])
    && (|bs| > 1 ==>
          StreamOk(p + 3 + |EncodeBlock(p + 3, out, bs[0])|, BlockOutput(p + 3, out, bs[0]), bs[1..]))
  }

  ghost function EncodeStream(p: nat, out: seq<byte>, bs: seq<Block>): seq<bool>
    requires StreamOk(p, out, bs)
    decreases |bs|
  {
    hide BlockOk, EncodeBlock, BlockOutput, ToBits;
    var e := EncodeBlock(p + 3, out, bs[0]);
    ToBits(if |bs| == 1 then 1 else 0, 1) + (ToBits(Kind(bs[0]), 2) + (e +
    (if |bs| == 1 then [] else EncodeStream(p + 3 + |e|, BlockOutput(p + 3, out, bs[0]), bs[1..]))))
  }

  ghost function StreamOutput(p: nat, out: seq<byte>, bs: seq<Block>): seq<byte>
    requires StreamOk(p, out, bs)
    decreases |bs|
  {
    hide BlockOk, EncodeBlock, BlockOutput;
    var e, o := EncodeBlock(p + 3, out, bs[0]), BlockOutput(p + 3, out, bs[0]);
    if |bs| == 1 then o else StreamOutput(p + 3 + |e|, o, bs[1..])
  }

  ghost function BlockAt(src: seq<byte>, p: nat, kind: nat, out: seq<byte>): (r: Result<(nat, seq<byte>)>)
    requires p <= 8 * |src|
    ensures r.Ok? ==> p <= r.value.0 <= 8 * |src|
  {
    hide BitsOf, StoredSpec, BlockSpec, DynamicSpec;
    if kind == 0 then StoredSpec(src, p, out)
    else if kind == 1 then BlockSpec(BitsOf(src), p, FixedLit(), FixedDist(), out)
    else if kind == 2 then DynamicSpec(BitsOf(src), p, out)
    else Err(ReservedBlock)
  }

  lemma BlockDecodes(src: seq<byte>, p: nat, out: seq<byte>, b: Block)
    requires BlockOk(p, out, b) && Has(BitsOf(src), p, EncodeBlock(p, out, b)) && p <= 8 * |src|
    ensures BlockAt(src, p, Kind(b), out) == Ok((p + |EncodeBlock(p, out, b)|, BlockOutput(p, out, b)))
  {
    hide BitsOf, StoredSpec, BlockSpec, DynamicSpec, Has, BlockOk, EncodeBlock, BlockOutput, FixedLit, FixedDist,
         Kraft, Used, Encodable, TokensOk, ExpandAll, ClAllOk, ClExpandAll;
    match b
    case Stored(_, _) => StoredDecodes(src, p, out, b);
    case Fixed(_) => FixedDecodes(BitsOf(src), p, out, b);
    case Dynamic(_, _, _, _, _, _) => DynamicDecodes(BitsOf(src), p, out, b);
  }

  lemma FixedDecodes(bits: seq<bool>, p: nat, out: seq<byte>, b: Block)
    requires b.Fixed? && BlockOk(p, out, b) && Has(bits, p, EncodeBlock(p, out, b)) && p <= |bits|
    ensures BlockSpec(bits, p, FixedLit(), FixedDist(), out)
            == Ok((p + |EncodeBlock(p, out, b)|, BlockOutput(p, out, b)))
  {
    hide BlockSpec, Has, Kraft, Encodable, EncodeTokens, TokensOk, ExpandAll, FixedLit, FixedDist;
    FixedKraft();
    TokensDecode(bits, p, FixedLit(), FixedDist(), out, b.ts);
  }

  lemma StreamStep(src: seq<byte>, p: nat, out: seq<byte>, final: nat, kind: nat)
    requires final <= 1 && kind <= 2 && p <= 8 * |src|
    requires Has(BitsOf(src), p, ToBits(final, 1)) && Has(BitsOf(src), p + 1, ToBits(kind, 2))
    ensures p + 3 <= 8 * |src|
    ensures StreamSpec(src, p, out) ==
            match BlockAt(src, p + 3, kind, out)
            case Err(e) => Err(e)
            case Ok((q, o)) => if final == 1 then Ok((q, o)) else StreamSpec(src, q, o)
  {
    hide BitsOf, StoredSpec, BlockSpec, DynamicSpec, ReadBits, ToBits, Pow2;
    SmallPowers();
    ReadBitsHas(BitsOf(src), p, final, 1);
    ReadBitsHas(BitsOf(src), p + 1, kind, 2);
  }

  lemma {:induction false} StreamDecodes(src: seq<byte>, p: nat, out: seq<byte>, bs: seq<Block>)
    requires StreamOk(p, out, bs) && p <= 8 * |src| && Has(BitsOf(src), p, EncodeStream(p, out, bs))
    ensures StreamSpec(src, p, out) == Ok((p + |EncodeStream(p, out, bs)|, StreamOutput(p, out, bs)))
    decreases |bs|
  {
    hide BitsOf, Has, BlockOk, EncodeBlock, BlockOutput, BlockAt, StreamSpec, ToBits;
    var final, kind := if |bs| == 1 then 1 else 0, Kind(bs[0]);
    var e, o := EncodeBlock(p + 3, out, bs[0]), BlockOutput(p + 3, out, bs[0]);
    var rest := if |bs| == 1 then [] else EncodeStream(p + 3 + |e|, o, bs[1..]);
    HasConcat(BitsOf(src), p, ToBits(final, 1), ToBits(kind, 2) + (e + rest));
    HasConcat(BitsOf(src), p + 1, ToBits(kind, 2), e + rest);
    HasConcat(BitsOf(src), p + 3, e, rest);
    StreamStep(src, p, out, final, kind);
    BlockDecodes(src, p + 3, out, bs[0]);
    if |bs| > 1 {
      InRange(BitsOf(src), p + 3, e);
      StreamDecodes(src, p + 3 + |e|, o, bs[1..]);
    }
  }

  /** inflateRaw on the bytes of any valid stream, padded to whole bytes or followed by
      anything, yields exactly the LZ77 expansion of its blocks, and the announced size
      decides only whether a mismatch is reported. */
  lemma InflateCorrect(src: seq<byte>, expected: nat, bs: seq<Block>)
    requires StreamOk(0, [], bs) && Has(BitsOf(src), 0, EncodeStream(0, [], bs))
    ensures var out := StreamOutput(0, [], bs);
            InflateResult(src, expected) ==
              if expected > 0 && |out| != expected then Err(SizeMismatch) else Ok(out)
  {
    hide StreamOk, EncodeStream, StreamOutput, StreamSpec;
    StreamDecodes(src, 0, [], bs);
  }

  // ---- the token representation is complete ----

  /** Every match length from 3 to 258 has a code and extra bits. */
  lemma EveryLengthHasACode(len: nat) returns (li: nat, lx: nat)
    requires 3 <= len <= 258
    ensures li < 29 && lx < Pow2(LenExtra(li)) && LenBase(li) + lx == len
  {
    SmallPowers();
    li := if len == 258 then 28 else 0;
    while li + 1 < 28 && len != 258 && LEN_BASE[li + 1] <= len
      invariant li < 29 && (len == 258 ==> li == 28) && (len < 258 ==> li < 28 && LEN_BASE[li] <= len)
      decreases 29 - li
    {
      li := li + 1;
    }
    lx := len - LenBase(li);
  }

  /** Every distance from 1 to 32768 has a code, too. */
  lemma EveryDistanceHasACode(dist: nat) returns (di: nat, dx: nat)
    requires 1 <= dist <= 32768
    ensures di < 30 && dx < Pow2(DistExtra(di)) && DistBase(di) + dx == dist
  {
    di := 0;
    while di + 1 < 30 && DIST_BASE[di + 1] <= dist
      invariant di < 30 && DIST_BASE[di] <= dist
      decreases 30 - di
    {
      di := di + 1;
    }
    dx := dist - DistBase(di);
    DistanceGap(di);
  }

  lemma DistanceGap(di: nat)
    requires di < 30
    ensures DistBase(di) + Pow2(DistExtra(di)) == if di < 29 then DistBase(di + 1) else 32769
  {
    hide Pow2;
    PowZero();
    SmallPowers();
    PowDoubles(5);
    PowDoubles(6);
    PowDoubles(7);
    PowDoubles(8);
    PowDoubles(9);
    PowDoubles(10);
    PowDoubles(11);
    PowDoubles(12);
  }

  function Literals(data: seq<byte>): (ts: seq<Token>)
    ensures |ts| == |data|
  {
    seq(|data|, i requires 0 <= i < |data| => Literal(data[i]))
  }

  lemma {:induction false} LiteralsExpand(out: seq<byte>, data: seq<byte>)
    ensures TokensOk(out, Literals(data)) && ExpandAll(out, Literals(data)) == out + data
    decreases |data|
  {
    if data == [] {
      assert out + data == out;
    } else {
      LiteralsExpand(out + [data[0]], data[1..]);
      assert Literals(data)[1..] == Literals(data[1..]);
      assert out + data == (out + [data[0]]) + data[1..];
    }
  }

  /** Every byte string is the output of some valid stream. */
  lemma EveryOutputHasAStream(data: seq<byte>) returns (bs: seq<Block>)
    ensures StreamOk(0, [], bs) && StreamOutput(0, [], bs) == data
  {
    hide EncodeBlock, EncodeTokens, TokensOk, ExpandAll;
    LiteralsExpand([], data);
    assert [] + data == data;
    bs := [Fixed(Literals(data))];
    assert FixedLit()[256] > 0;
    assert BlockOk(3, [], bs[0]);
  }
}
