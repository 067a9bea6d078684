/** RFC 1951 block by block: what an encoder may write, what it means, and what the
    decoder is specified to do with any bit string. */
module InflateSpec {
  import opened Bits
  import opened Huffman

  const LEN_BASE: seq<nat> := [3, 4, 5, 6, 7, 8, 9, 10, 11, 13, 15, 17, 19, 23, 27, 31,
                               35, 43, 51, 59, 67, 83, 99, 115, 131, 163, 195, 227, 258]
  const LEN_EXTRA: seq<nat> := [0, 0, 0, 0, 0, 0, 0, 0, 1, 1, 1, 1, 2, 2, 2, 2,
                                3, 3, 3, 3, 4, 4, 4, 4, 5, 5, 5, 5, 0]
  const DIST_BASE: seq<nat> := [1, 2, 3, 4, 5, 7, 9, 13, 17, 25, 33, 49, 65, 97, 129,
                                193, 257, 385, 513, 769, 1025, 1537, 2049, 3073, 4097, 6145, 8193,
                                12289, 16385, 24577]
  const DIST_EXTRA: seq<nat> := [0, 0, 0, 0, 1, 1, 2, 2, 3, 3, 4, 4, 5, 5, 6, 6,
                                 7, 7, 8, 8, 9, 9, 10, 10, 11, 11, 12, 12, 13, 13]
  const CL_ORDER: seq<nat> := [16, 17, 18, 0, 8, 7, 9, 6, 10, 5, 11, 4, 12, 3, 13, 2, 14, 1, 15]

  function LenBase(li: nat): nat requires li < 29 { LEN_BASE[li] }
  function LenExtra(li: nat): nat requires li < 29 { LEN_EXTRA[li] }
  function DistBase(di: nat): (b: nat) requires di < 30 ensures b >= 1 { DIST_BASE[di] }
  function DistExtra(di: nat): nat requires di < 30 { DIST_EXTRA[di] }
  function ClOrder(k: nat): (i: nat) requires k < 19 ensures i < 19 { CL_ORDER[k] }

  // ---- meaning ----

  /** A literal, or a match given by its length and distance codes with extra bits. */
  datatype Token = Literal(b: byte) | Match(li: nat, lx: nat, di: nat, dx: nat)

  function Repeat(x: nat, n: nat): (s: seq<nat>)
    ensures |s| == n
  {
    seq(n, _ => x)
  }

  /** Copy n bytes from dist back, byte by byte: source and target may overlap. */
  function Copy(out: seq<byte>, dist: nat, n: nat): (r: seq<byte>)
    requires 1 <= dist <= |out|
    ensures |r| == |out| + n && out <= r
    decreases n
  {
    if n == 0 then out else Copy(out + [out[|out| - dist]], dist, n - 1)
  }

  predicate TokenOk(t: Token, produced: nat) {
    t.Match? ==>
      && t.li < 29 && t.lx < Pow2(LenExtra(t.li))
      && t.di < 30 && t.dx < Pow2(DistExtra(t.di))
      && DistBase(t.di) + t.dx <= produced
  }

  function Expand(out: seq<byte>, t: Token): seq<byte>
    requires TokenOk(t, |out|)
  {
    match t
    case Literal(b) => out + [b]
    case Match(li, lx, di, dx) => Copy(out, DistBase(di) + dx, LenBase(li) + lx)
  }

  predicate TokensOk(out: seq<byte>, ts: seq<Token>)
    decreases |ts|
  {
    ts == [] || (TokenOk(ts[0], |out|) && TokensOk(Expand(out, ts[0]), ts[1..]))
  }

  function ExpandAll(out: seq<byte>, ts: seq<Token>): seq<byte>
    requires TokensOk(out, ts)
    decreases |ts|
  {
    if ts == [] then out else ExpandAll(Expand(out, ts[0]), ts[1..])
  }

  // ---- encoding ----

  predicate Used(lengths: seq<nat>, s: nat) {
    s < |lengths| && lengths[s] > 0
  }

  predicate TokenUses(lit: seq<nat>, dist: seq<nat>, t: Token) {
    match t
    case Literal(b) => Used(lit, b)
    case Match(li, _, di, _) => Used(lit, 257 + li) && Used(dist, di)
  }

  function EncodeToken(lit: seq<nat>, dist: seq<nat>, t: Token): seq<bool>
    requires TokenUses(lit, dist, t) && (t.Match? ==> t.li < 29 && t.di < 30)
  {
    match t
    case Literal(b) => Code(lit, b)
    case Match(li, lx, di, dx) =>
      Code(lit, 257 + li) + (ToBits(lx, LenExtra(li)) + (Code(dist, di) + ToBits(dx, DistExtra(di))))
  }

  predicate Encodable(lit: seq<nat>, dist: seq<nat>, ts: seq<Token>) {
    && Used(lit, 256)
    && forall t | t in ts :: TokenUses(lit, dist, t) && (t.Match? ==> t.li < 29 && t.di < 30)
  }

  /** The tokens' codes followed by the end-of-block code. */
  function EncodeTokens(lit: seq<nat>, dist: seq<nat>, ts: seq<Token>): seq<bool>
    requires Encodable(lit, dist, ts)
  {
    if ts == [] then Code(lit, 256)
    else EncodeToken(lit, dist, ts[0]) + EncodeTokens(lit, dist, ts[1..])
  }

  // ---- decoding, on any bit string ----

  /** The bits e stand at position p. */
  predicate Has(bits: seq<bool>, p: nat, e: seq<bool>) {
    p + |e| <= |bits| && bits[p..p + |e|] == e
  }

  lemma HasConcat(bits: seq<bool>, p: nat, a: seq<bool>, b: seq<bool>)
    ensures Has(bits, p, a + b) <==> Has(bits, p, a) && Has(bits, p + |a|, b)
  {
    if Has(bits, p, a + b) {
      var w := bits[p..p + |a| + |b|];
      assert bits[p..p + |a|] == w[..|a|] && bits[p + |a|..p + |a| + |b|] == w[|a|..];
    }
    if Has(bits, p, a) && Has(bits, p + |a|, b) {
      assert bits[p..p + |a| + |b|] == bits[p..p + |a|] + bits[p + |a|..p + |a| + |b|];
    }
  }

  function ReadBits(bits: seq<bool>, p: nat, n: nat): (r: Result<(nat, nat)>)
    ensures r.Ok? ==> r.value.1 == p + n <= |bits|
  {
    if p + n <= |bits| then Ok((Value(bits[p..p + n]), p + n)) else Err(UnexpectedEnd)
  }

  ghost predicate Starts(lengths: seq<nat>, s: nat, bits: seq<bool>, p: nat) {
    s < |lengths| && p + lengths[s] <= |bits| && IsCode(lengths, s, bits[p..p + lengths[s]])
  }

  /** The symbol whose codeword stands at p, and the position behind it. */
  ghost function SymbolAt(lengths: seq<nat>, max: nat, bits: seq<bool>, p: nat): (r: Result<(nat, nat)>)
    ensures r.Ok? ==> r.value.0 < |lengths| && p < r.value.1 <= |bits|
  {
    if exists s: nat :: Starts(lengths, s, bits, p) then
      var s: nat :| Starts(lengths, s, bits, p);
      Ok((s, p + lengths[s]))
    else if p + max <= |bits| then Err(BadCode)
    else Err(UnexpectedEnd)
  }

  lemma SymbolAtIs(lengths: seq<nat>, max: nat, bits: seq<bool>, p: nat, s: nat)
    requires Starts(lengths, s, bits, p)
    ensures SymbolAt(lengths, max, bits, p) == Ok((s, p + lengths[s]))
  {
    hide IsCode;
    forall t: nat | Starts(lengths, t, bits, p) ensures t == s {
      var rest := bits[p..];
      assert bits[p..p + lengths[s]] == rest[..lengths[s]];
      assert bits[p..p + lengths[t]] == rest[..lengths[t]];
      PrefixFree(lengths, s, t, rest);
    }
  }

  /** One block of compressed data: literal/length codes lit, distance codes dist. */
  ghost function BlockSpec(bits: seq<bool>, p: nat, lit: seq<nat>, dist: seq<nat>, out: seq<byte>)
    : (r: Result<(nat, seq<byte>)>)
    requires p <= |bits|
    ensures r.Ok? ==> p < r.value.0 <= |bits|
    decreases |bits| - p
  {
    hide SymbolAt, Copy, LenBase, LenExtra, DistBase, DistExtra;
    var (s, p1) :- SymbolAt(lit, 15, bits, p);
    if s < 256 then BlockSpec(bits, p1, lit, dist, out + [s])
    else if s == 256 then Ok((p1, out))
    else if s <= 285 then
      var li := s - 257;
      var (lx, p2) :- ReadBits(bits, p1, LenExtra(li));
      var (di, p3) :- SymbolAt(dist, 15, bits, p2);
      if di >= 30 then Err(BadDistance) else
      var (dx, p4) :- ReadBits(bits, p3, DistExtra(di));
      if DistBase(di) + dx > |out| then Err(DistanceTooFar) else
      BlockSpec(bits, p4, lit, dist, Copy(out, DistBase(di) + dx, LenBase(li) + lx))
    else Err(BadLiteral)
  }

  // ---- the header of a dynamic block ----

  /** The code-length code lengths, transmitted in CL_ORDER. */
  function ClLengths(bits: seq<bool>, p: nat, n: nat): (r: Result<(seq<nat>, nat)>)
    requires n <= 19
    ensures r.Ok? ==> |r.value.0| == 19 && r.value.1 == p + 3 * n <= |bits|
  {
    if n == 0 then (if p <= |bits| then Ok((Repeat(0, 19), p)) else Err(UnexpectedEnd)) else
    var (cl, p1) :- ClLengths(bits, p, n - 1);
    var (v, p2) :- ReadBits(bits, p1, 3);
    Ok((cl[ClOrder(n - 1) := v], p2))
  }

  /** The run-length coded list of code lengths, up to total entries. */
  ghost function LengthsSpec(bits: seq<bool>, p: nat, cl: seq<nat>, acc: seq<nat>, total: nat)
    : (r: Result<(seq<nat>, nat)>)
    requires p <= |bits| && |acc| <= total
    ensures r.Ok? ==> |r.value.0| == total && p <= r.value.1 <= |bits|
    decreases total - |acc|
  {
    if |acc| == total then Ok((acc, p)) else
    var (s, p1) :- SymbolAt(cl, 7, bits, p);
    if s < 16 then LengthsSpec(bits, p1, cl, acc + [s], total)
    else if s == 16 then
      if acc == [] then Err(NothingToRepeat) else
      var (x, p2) :- ReadBits(bits, p1, 2);
      LengthsSpec(bits, p2, cl, acc + Repeat(acc[|acc| - 1], Min(3 + x, total - |acc|)), total)
    else if s == 17 then
      var (x, p2) :- ReadBits(bits, p1, 3);
      LengthsSpec(bits, p2, cl, acc + Repeat(0, Min(3 + x, total - |acc|)), total)
    else if s == 18 then
      var (x, p2) :- ReadBits(bits, p1, 7);
      LengthsSpec(bits, p2, cl, acc + Repeat(0, Min(11 + x, total - |acc|)), total)
    else Err(BadCode)
  }

  // ---- blocks and the stream ----

  function FixedLit(): (l: seq<nat>)
    ensures |l| == 288
  {
    seq(288, i => if i <= 143 then 8 else if i <= 255 then 9 else if i <= 279 then 7 else 8)
  }

  function FixedDist(): (l: seq<nat>)
    ensures |l| == 32
  {
    Repeat(5, 32)
  }

  function Align(p: nat): (q: nat)
    ensures p <= q <= p + 7 && q % 8 == 0
  {
    (p + 7) / 8 * 8
  }

  /** Stored block: aligned, length and its complement, then the bytes. */
  function StoredSpec(src: seq<byte>, p: nat, out: seq<byte>): (r: Result<(nat, seq<byte>)>)
    ensures r.Ok? ==> p <= r.value.0 <= 8 * |src|
  {
    hide BitsOf, ReadBits, Align;
    var bits := BitsOf(src);
    var (len, p1) :- ReadBits(bits, Align(p), 16);
    var (nlen, p2) :- ReadBits(bits, p1, 16);
    if len + nlen != 65535 then Err(BadStoredLength)
    else if p2 / 8 + len > |src| then Err(StoredPastInput)
    else Ok((p2 + 8 * len, out + src[p2 / 8..p2 / 8 + len]))
  }

  ghost function DynamicSpec(bits: seq<bool>, p: nat, out: seq<byte>): (r: Result<(nat, seq<byte>)>)
    ensures r.Ok? ==> p <= r.value.0 <= |bits|
  {
    hide BlockSpec, LengthsSpec, ClLengths;
    var (hlit, p1) :- ReadBits(bits, p, 5);
    var (hdist, p2) :- ReadBits(bits, p1, 5);
    var (hclen, p3) :- ReadBits(bits, p2, 4);
    ReadBitsBound(bits, p2, 4);
    var (cl, p4) :- ClLengths(bits, p3, hclen + 4);
    var (lens, p5) :- LengthsSpec(bits, p4, cl, [], hlit + 257 + hdist + 1);
    BlockSpec(bits, p5, lens[..hlit + 257], lens[hlit + 257..], out)
  }

  lemma ReadBitsBound(bits: seq<bool>, p: nat, n: nat)
    ensures ReadBits(bits, p, n).Ok? ==> ReadBits(bits, p, n).value.0 < Pow2(n)
    ensures n == 3 ==> Pow2(n) == 8
    ensures n == 4 ==> Pow2(n) == 16
  {
    if p + n <= |bits| {
      ToBitsValue(bits[p..p + n]);
    }
    assert Pow2(3) == 8 && Pow2(4) == 16 by { assert Pow2(2) == 4; }
  }

  ghost function StreamSpec(src: seq<byte>, p: nat, out: seq<byte>): Result<(nat, seq<byte>)>
    requires p <= 8 * |src|
    decreases 8 * |src| - p
  {
    var bits := BitsOf(src);
    var (final, p1) :- ReadBits(bits, p, 1);
    var (kind, p2) :- ReadBits(bits, p1, 2);
    var (q, out') :- (if kind == 0 then StoredSpec(src, p2, out)
                      else if kind == 1 then BlockSpec(bits, p2, FixedLit(), FixedDist(), out)
                      else if kind == 2 then DynamicSpec(bits, p2, out)
                      else Err(ReservedBlock));
    if final == 1 then Ok((q, out')) else StreamSpec(src, q, out')
  }

  /** inflateRaw: the stream's output, checked against the announced size if there is one. */
  ghost function InflateResult(src: seq<byte>, expected: nat): Result<seq<byte>> {
    var (_, out) :- StreamSpec(src, 0, []);
    if expected > 0 && |out| != expected then Err(SizeMismatch) else Ok(out)
  }
}
