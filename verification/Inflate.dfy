/** inflateRaw of the browser viewer: the reader, the Huffman decoder and the block
    loops, proved against module InflateSpec. */
module Inflate {
  import opened Bits
  import opened Huffman
  import opened HuffmanBuild
  import opened InflateSpec

  /** A method's answer and the new position agree with a specified pair. */
  ghost predicate Agrees<T(!new)>(r: Result<T>, pos: nat, spec: Result<(T, nat)>) {
    match spec
    case Ok((v, p)) => r == Ok(v) && pos == p
    case Err(e) => r == Err(e)
  }

  /** Bit p of the input, by byte index and shift. */
  lemma InputBit(src: seq<byte>, p: nat)
    requires p < 8 * |src|
    ensures BitsOf(src)[p] == ByteBits(src[p / 8])[p % 8]
  {
    hide ByteBits, BitsOf;
    BitsOfAt(src, p / 8);
    var i := p / 8;
    assert BitsOf(src)[8 * i..8 * i + 8][p % 8] == BitsOf(src)[8 * i + p % 8];
  }

  lemma ReadOneMore(bits: seq<bool>, p: nat, k: nat)
    requires p + k < |bits|
    ensures Value(bits[p..p + k + 1]) == Value(bits[p..p + k]) + if bits[p + k] then Pow2(k) else 0
  {
    assert bits[p..p + k + 1] == bits[p..p + k] + [bits[p + k]];
    ValueAppend(bits[p..p + k], bits[p + k]);
  }

  lemma {:induction false} ValueAppend(w: seq<bool>, b: bool)
    ensures Value(w + [b]) == Value(w) + if b then Pow2(|w|) else 0
  {
    if w != [] {
      ValueAppend(w[1..], b);
      assert (w + [b])[1..] == w[1..] + [b];
    }
  }

  // ---- facts about the walk down a canonical code ----

  /** At depth len, with code below first + count, the table entry is the symbol. */
  lemma HitIsSymbol(lengths: seq<nat>, h: Table, bits: seq<bool>, p: nat, len: nat)
    requires IsTable(h, lengths) && 1 <= len <= h.maxBits && p + len <= |bits|
    requires var v, f := MsbValue(bits[p..p + len]), First(lengths, len);
             f <= v < f + Count(lengths, len)
    ensures var i := Offset(lengths, len) + MsbValue(bits[p..p + len]) - First(lengths, len);
            && i < |h.symbols|
            && SymbolAt(lengths, h.maxBits, bits, p) == Ok((h.symbols[i], p + len))
  {
    hide Count, Offset, MsbValue, First, SymbolAt;
    var r := MsbValue(bits[p..p + len]) - First(lengths, len);
    var s := SymbolOfRank(lengths, len, r);
    assert Position(lengths, s) == Offset(lengths, len) + r;
    SymbolAtIs(lengths, h.maxBits, bits, p, s);
  }

  /** Nothing of length len starts here once the code is past all codewords of len. */
  lemma MissIsNone(lengths: seq<nat>, bits: seq<bool>, p: nat, len: nat, s: nat)
    requires 1 <= len && p + len <= |bits|
    requires MsbValue(bits[p..p + len]) >= First(lengths, len) + Count(lengths, len)
    requires s < |lengths| && lengths[s] == len
    ensures !Starts(lengths, s, bits, p)
  {
    hide Count, MsbValue, First;
    CountPrefix(lengths, s, len);
  }

  lemma NoneStarts(lengths: seq<nat>, max: nat, bits: seq<bool>, p: nat)
    requires forall s: nat :: !Starts(lengths, s, bits, p)
    ensures SymbolAt(lengths, max, bits, p) == if p + max <= |bits| then Err(BadCode) else Err(UnexpectedEnd)
  {
  }

  lemma OneBitDeeper(bits: seq<bool>, p: nat, len: nat)
    requires p + len < |bits|
    ensures MsbValue(bits[p..p + len + 1]) == 2 * MsbValue(bits[p..p + len]) + if bits[p + len] then 1 else 0
  {
    var w := bits[p..p + len + 1];
    assert w[..len] == bits[p..p + len];
  }

  class Inflater {
    const src: seq<byte>
    var bitPos: nat
    var out: array<byte>
    var outLen: nat

    ghost predicate Valid()
      reads this
    {
      bitPos <= 8 * |src| && outLen <= out.Length
    }

    ghost function Output(): seq<byte>
      reads this, out
      requires Valid()
    {
      out[..outLen]
    }

    ghost function Bits(): seq<bool> {
      BitsOf(src)
    }

    constructor (input: seq<byte>, expected: nat)
      ensures Valid() && src == input && bitPos == 0 && Output() == [] && fresh(out)
    {
      src, bitPos, outLen := input, 0, 0;
      out := new byte[if expected > 0 then expected else if 4 * |input| < 1024 then 1024 else 4 * |input|](_ => 0);
    }

    // ---- the bit reader ----

    method ReadBit() returns (r: Result<bool>)
      requires Valid()
      modifies `bitPos
      ensures Valid()
      ensures if old(bitPos) < |Bits()| then r == Ok(Bits()[old(bitPos)]) && bitPos == old(bitPos) + 1
              else r == Err(UnexpectedEnd) && bitPos == old(bitPos)
    {
      hide ByteBits, BitsOf;
      if bitPos >= 8 * |src| {
        return Err(UnexpectedEnd);
      }
      InputBit(src, bitPos);
      var v := ByteBits(src[bitPos / 8])[bitPos % 8];
      bitPos := bitPos + 1;
      return Ok(v);
    }

    method ReadNumber(n: nat) returns (r: Result<nat>)
      requires Valid()
      modifies `bitPos
      ensures Valid() && Agrees(r, bitPos, ReadBits(Bits(), old(bitPos), n))
    {
      hide BitsOf, Value, Pow2;
      var v, weight := 0, 1;
      assert Pow2(0) == 1 && Value([]) == 0 by { ReadNothing(); }
      assert Bits()[bitPos..bitPos + 0] == [];
      for k := 0 to n
        invariant Valid() && bitPos == old(bitPos) + k && weight == Pow2(k)
        invariant v == Value(Bits()[old(bitPos)..bitPos])
      {
        var b :- ReadBit();
        ReadOneMore(Bits(), old(bitPos), k);
        if b {
          v := v + weight;
        }
        PowDoubles(k);
        weight := 2 * weight;
      }
      return Ok(v);
    }

    // ---- the output buffer ----

    /** ensure: grow the buffer by doubling. */
    method Ensure(extra: nat)
      requires Valid()
      modifies `out
      ensures Valid() && outLen + extra <= out.Length
      ensures out == old(out) || fresh(out)
      ensures Output() == old(Output())
    {
      if outLen + extra <= out.Length {
        return;
      }
      var next := if out.Length == 0 then 1024 else out.Length;
      while next < outLen + extra
        invariant next >= 1 && next >= outLen
        decreases outLen + extra - next
      {
        next := 2 * next;
      }
      var grown := new byte[next](i requires 0 <= i && outLen <= out.Length reads this, out =>
        if i < outLen then out[i] else 0);
      assert grown[..outLen] == out[..outLen];
      out := grown;
    }

    method Push(b: byte)
      requires Valid() && outLen < out.Length
      modifies `outLen, out
      ensures Valid() && Output() == old(Output()) + [b]
    {
      out[outLen] := b;
      outLen := outLen + 1;
    }

    /** The match copy: one byte at a time, so that source and target may overlap. */
    method CopyMatch(dist: nat, len: nat)
      requires Valid() && 1 <= dist <= outLen
      modifies this`out, this`outLen, out
      ensures Valid() && (out == old(out) || fresh(out))
      ensures Output() == Copy(old(Output()), dist, len)
    {
      hide Copy;
      Ensure(len);
      ghost var start := Output();
      for k := 0 to len
        invariant Valid() && outLen + (len - k) <= out.Length && dist <= outLen
        invariant out == old(out) || fresh(out)
        invariant Copy(Output(), dist, len - k) == Copy(start, dist, len)
      {
        ghost var o := Output();
        CopyStep(o, dist, len - k);
        assert o[|o| - dist] == out[outLen - dist];
        Push(out[outLen - dist]);
      }
      CopyStep(Output(), dist, 0);
    }

    // ---- symbols ----

    /** decode: walk down the canonical code one bit at a time. */
    method Decode(h: Table, ghost lengths: seq<nat>) returns (r: Result<nat>)
      requires Valid() && IsTable(h, lengths)
      modifies `bitPos
      ensures Valid() && Agrees(r, bitPos, SymbolAt(lengths, h.maxBits, Bits(), old(bitPos)))
    {
      hide BitsOf, Count, Offset, MsbValue, First, SymbolAt, Starts, IsTable;
      ghost var p, bits := bitPos, Bits();
      var code, first, index := 0, 0, 0;
      DepthZero(lengths, bits, p);
      for len := 1 to h.maxBits + 1
        invariant Valid() && bitPos == p + len - 1
        invariant code == 2 * MsbValue(bits[p..bitPos]) && first == First(lengths, len)
        invariant index == Offset(lengths, len) && code >= first
        invariant forall s: nat | s < |lengths| && lengths[s] < len :: !Starts(lengths, s, bits, p)
      {
        if bitPos == |bits| {
          TooShort(lengths, h, bits, p, len);
        }
        var b :- ReadBit();
        OneBitDeeper(bits, p, len - 1);
        code := code + if b then 1 else 0;
        TableCount(h, lengths, len);
        var count := h.counts[len];
        if code - first < count {
          HitIsSymbol(lengths, h, bits, p, len);
          return Ok(h.symbols[index + (code - first)]);
        }
        forall s: nat | s < |lengths| && lengths[s] == len ensures !Starts(lengths, s, bits, p) {
          MissIsNone(lengths, bits, p, len, s);
        }
        NextDepth(lengths, len);
        index := index + count;
        first := 2 * (first + count);
        code := 2 * code;
      }
      AllTried(lengths, h, bits, p);
      return Err(BadCode);
    }

    /** inflateBlock */
    method InflateBlock(litHuff: Table, distHuff: Table, ghost lit: seq<nat>, ghost dist: seq<nat>)
      returns (r: Result<()>)
      requires Valid() && IsTable(litHuff, lit) && IsTable(distHuff, dist)
      requires litHuff.maxBits == 15 && distHuff.maxBits == 15
      modifies this, out
      ensures Valid() && (out == old(out) || fresh(out))
      ensures match BlockSpec(Bits(), old(bitPos), lit, dist, old(Output()))
              case Ok((p, o)) => r == Ok(()) && bitPos == p && Output() == o
              case Err(e) => r == Err(e)
    {
      hide BitsOf, IsTable, SymbolAt, ReadBits, Copy, LenBase, LenExtra, DistBase, DistExtra;
      ghost var spec := BlockSpec(Bits(), bitPos, lit, dist, Output());
      while true
        invariant Valid() && (out == old(out) || fresh(out))
        invariant BlockSpec(Bits(), bitPos, lit, dist, Output()) == spec
        decreases 8 * |src| - bitPos
      {
        ghost var p, o := bitPos, Output();
        var sym :- Decode(litHuff, lit);
        assert sym < |lit|;
        if sym < 256 {
          Ensure(1);
          Push(sym);
        } else if sym == 256 {
          return Ok(());
        } else if sym <= 285 {
          var li := sym - 257;
          var lx :- ReadNumber(LenExtra(li));
          var dsym :- Decode(distHuff, dist);
          if dsym >= 30 {
            return Err(BadDistance);
          }
          var dx :- ReadNumber(DistExtra(dsym));
          var d := DistBase(dsym) + dx;
          if d > outLen {
            return Err(DistanceTooFar);
          }
          CopyMatch(d, LenBase(li) + lx);
        } else {
          return Err(BadLiteral);
        }
      }
    }

    // ---- block kinds ----

    method AlignByte()
      requires Valid()
      modifies `bitPos
      ensures Valid() && bitPos == Align(old(bitPos))
    {
      bitPos := (bitPos + 7) / 8 * 8;
    }

    method StoredBlock() returns (r: Result<()>)
      requires Valid()
      modifies this, out
      ensures Valid() && (out == old(out) || fresh(out))
      ensures match StoredSpec(src, old(bitPos), old(Output()))
              case Ok((p, o)) => r == Ok(()) && bitPos == p && Output() == o
              case Err(e) => r == Err(e)
    {
      hide BitsOf, ReadBits;
      AlignByte();
      var len :- ReadNumber(16);
      var nlen :- ReadNumber(16);
      if len + nlen != 65535 {
        return Err(BadStoredLength);
      }
      var off := bitPos / 8;
      if off + len > |src| {
        return Err(StoredPastInput);
      }
      AppendInput(off, len);
      bitPos := bitPos + 8 * len;
      return Ok(());
    }

    /** out.set(src.subarray(off, off + len), outLen) */
    method AppendInput(off: nat, len: nat)
      requires Valid() && off + len <= |src|
      modifies this`out, this`outLen, out
      ensures Valid() && (out == old(out) || fresh(out))
      ensures Output() == old(Output()) + src[off..off + len]
    {
      Ensure(len);
      ghost var start := Output();
      for k := 0 to len
        invariant Valid() && outLen + (len - k) <= out.Length
        invariant out == old(out) || fresh(out)
        invariant Output() == start + src[off..off + k]
      {
        Push(src[off + k]);
        assert src[off..off + k + 1] == src[off..off + k] + [src[off + k]];
      }
    }

    /** The code lengths of the code-length code. */
    method ReadClLengths(n: nat) returns (r: Result<seq<nat>>)
      requires Valid() && n <= 19
      modifies `bitPos
      ensures Valid() && Agrees(r, bitPos, ClLengths(Bits(), old(bitPos), n))
      ensures r.Ok? ==> AtMost(r.value, 7)
    {
      hide BitsOf, ReadBits, ClOrder, ClLengths;
      var cl := Repeat(0, 19);
      ghost var p := bitPos;
      ClNone(Bits(), p);
      for k := 0 to n
        invariant Valid() && |cl| == 19 && ClLengths(Bits(), p, k) == Ok((cl, bitPos))
        invariant AtMost(cl, 7)
      {
        ClNext(Bits(), p, k);
        if ClLengths(Bits(), p, k + 1).Err? {
          ClFails(Bits(), p, k + 1, n);
        }
        ReadBitsBound(Bits(), bitPos, 3);
        var v :- ReadNumber(3);
        cl := cl[ClOrder(k) := v];
      }
      return Ok(cl);
    }

    /** A run of x: its length is base plus a number of n extra bits. */
    method ReadRun(lens: array<nat>, n: nat, x: nat, base: nat, extra: nat) returns (r: Result<nat>)
      requires Valid() && n < lens.Length && base > 0
      requires AtMost(lens[..n], 15) && x <= 15
      modifies `bitPos, lens
      ensures Valid()
      ensures match ReadBits(Bits(), old(bitPos), extra)
              case Ok((more, p)) =>
                && r.Ok? && bitPos == p && n < r.value <= lens.Length && AtMost(lens[..r.value], 15)
                && lens[..r.value] == old(lens[..n]) + Repeat(x, Min(base + more, lens.Length - n))
              case Err(e) => r == Err(e)
    {
      hide BitsOf, ReadBits, Repeat, AtMost;
      var more :- ReadNumber(extra);
      var m := Fill(lens, n, x, base + more);
      AppendRun(old(lens[..n]), x, m - n, 15);
      return Ok(m);
    }

    /** The run-length coded code lengths; a run past the end is cut short. */
    method ReadLengths(clHuff: Table, ghost cl: seq<nat>, total: nat) returns (r: Result<seq<nat>>)
      requires Valid() && IsTable(clHuff, cl) && clHuff.maxBits == 7
      modifies `bitPos
      ensures Valid() && Agrees(r, bitPos, LengthsSpec(Bits(), old(bitPos), cl, [], total))
      ensures r.Ok? ==> |r.value| == total && AtMost(r.value, 15)
    {
      hide BitsOf, IsTable, SymbolAt, ReadBits, Repeat, AtMost, Min;

      var lens := new nat[total](_ => 0);
      var n := 0;
      ghost var spec := LengthsSpec(Bits(), bitPos, cl, [], total);
      assert lens[..0] == [];
      EmptyAtMost(15);
      while n < total
        invariant Valid() && n <= total && AtMost(lens[..n], 15)
        invariant LengthsSpec(Bits(), bitPos, cl, lens[..n], total) == spec
      {
        ghost var acc := lens[..n];
        var s :- Decode(clHuff, cl);
        if s < 16 {
          lens[n] := s;
          n := n + 1;
          assert lens[..n] == acc + [s];
          AppendOne(acc, s, 15);
        } else if s == 16 {
          if n == 0 {
            return Err(NothingToRepeat);
          }
          var prev := lens[n - 1];
          AtMostAt(acc, n - 1, 15);
          n :- ReadRun(lens, n, prev, 3, 2);
        } else if s == 17 {
          n :- ReadRun(lens, n, 0, 3, 3);
        } else if s == 18 {
          n :- ReadRun(lens, n, 0, 11, 7);
        } else {
          return Err(BadCode);
        }
      }
      return Ok(lens[..n]);
    }

    /** A block with its own code lengths in front. */
    method DynamicBlock() returns (r: Result<()>)
      requires Valid()
      modifies this, out
      ensures Valid() && (out == old(out) || fresh(out))
      ensures match DynamicSpec(Bits(), old(bitPos), old(Output()))
              case Ok((p, o)) => r == Ok(()) && bitPos == p && Output() == o
              case Err(e) => r == Err(e)
    {
      hide BitsOf, ReadBits, BlockSpec, LengthsSpec, ClLengths, IsTable, AtMost;
      var hlit :- ReadNumber(5);
      var hdist :- ReadNumber(5);
      ReadBitsBound(Bits(), bitPos, 4);
      var hclen :- ReadNumber(4);
      var cl :- ReadClLengths(hclen + 4);
      AtMostIn(cl, 0, 19, 7);
      assert cl[0..19] == cl;
      var clHuff := Build(cl, 7);
      var lens :- ReadLengths(clHuff, cl, hlit + 257 + (hdist + 1));
      var lit, dist := lens[..hlit + 257], lens[hlit + 257..];
      AtMostIn(lens, 0, hlit + 257, 15);
      AtMostIn(lens, hlit + 257, |lens|, 15);
      assert lit == lens[0..hlit + 257] && dist == lens[hlit + 257..|lens|];
      var litHuff := Build(lit, 15);
      var distHuff := Build(dist, 15);
      r := InflateBlock(litHuff, distHuff, lit, dist);
    }

    /** The block loop of inflateRaw. */
    method Blocks() returns (r: Result<()>)
      requires Valid()
      modifies this, out
      ensures Valid() && (out == old(out) || fresh(out))
      ensures match StreamSpec(src, old(bitPos), old(Output()))
              case Ok((p, o)) => r == Ok(()) && bitPos == p && Output() == o
              case Err(e) => r == Err(e)
    {
      hide BitsOf, ReadBits, BlockSpec, DynamicSpec, StoredSpec, IsTable, FixedLit, FixedDist;
      ghost var spec := StreamSpec(src, bitPos, Output());
      var fixedLit, fixedDist := FixedLit(), FixedDist();
      FixedShort();
      var final := 0;
      while final != 1
        invariant Valid() && (out == old(out) || fresh(out))
        invariant if final != 1 then StreamSpec(src, bitPos, Output()) == spec
                  else spec == Ok((bitPos, Output()))
        decreases final != 1, 8 * |src| - bitPos
      {
        final :- ReadNumber(1);
        var kind :- ReadNumber(2);
        if kind == 0 {
          var _ :- StoredBlock();
        } else if kind == 1 {
          var fixedLitHuff := Build(fixedLit, 15);
          var fixedDistHuff := Build(fixedDist, 15);
          var _ :- InflateBlock(fixedLitHuff, fixedDistHuff, fixedLit, fixedDist);
        } else if kind == 2 {
          var _ :- DynamicBlock();
        } else {
          return Err(ReservedBlock);
        }
      }
      return Ok(());
    }
  }

  /** inflateRaw: an announced size of 0 means that the size is unknown. */
  method InflateRaw(src: seq<byte>, expected: nat) returns (r: Result<seq<byte>>)
    ensures r == InflateResult(src, expected)
  {
    hide StreamSpec;
    var inflater := new Inflater(src, expected);
    var _ :- inflater.Blocks();
    if expected > 0 && inflater.outLen != expected {
      return Err(SizeMismatch);
    }
    return Ok(inflater.out[..inflater.outLen]);
  }

  /** One run: rep copies of x from index n on, cut short at the end of the array. */
  method Fill(lens: array<nat>, n: nat, x: nat, rep: nat) returns (m: nat)
    requires n <= lens.Length
    modifies lens
    ensures m == n + Min(rep, lens.Length - n)
    ensures lens[..m] == old(lens[..n]) + Repeat(x, Min(rep, lens.Length - n))
  {
    m := n;
    while m < n + rep && m < lens.Length
      invariant n <= m <= lens.Length && m <= n + rep
      invariant lens[..n] == old(lens[..n]) && forall i | n <= i < m :: lens[i] == x
    {
      lens[m] := x;
      m := m + 1;
    }
  }

  ghost predicate AtMost(s: seq<nat>, b: nat) {
    forall i | 0 <= i < |s| :: s[i] <= b
  }

  lemma EmptyAtMost(b: nat)
    ensures AtMost([], b)
  {
  }

  lemma AtMostAt(s: seq<nat>, i: nat, b: nat)
    requires AtMost(s, b) && i < |s|
    ensures s[i] <= b
  {
  }

  lemma AppendOne(s: seq<nat>, x: nat, b: nat)
    requires AtMost(s, b) && x <= b
    ensures AtMost(s + [x], b)
  {
  }

  lemma AppendRun(s: seq<nat>, x: nat, n: nat, b: nat)
    requires AtMost(s, b) && x <= b
    ensures AtMost(s + Repeat(x, n), b)
  {
  }

  lemma AtMostIn(s: seq<nat>, i: nat, j: nat, b: nat)
    requires AtMost(s, b) && i <= j <= |s|
    ensures forall l | l in s[i..j] :: l <= b
  {
  }

  lemma FixedShort()
    ensures forall l | l in FixedLit() :: l <= 15
    ensures forall l | l in FixedDist() :: l <= 15
  {
  }

  lemma ClNone(bits: seq<bool>, p: nat)
    requires p <= |bits|
    ensures ClLengths(bits, p, 0) == Ok((Repeat(0, 19), p))
  {
  }

  lemma ClNext(bits: seq<bool>, p: nat, k: nat)
    requires k < 19 && ClLengths(bits, p, k).Ok?
    ensures var (cl, q) := ClLengths(bits, p, k).value;
            ClLengths(bits, p, k + 1) ==
              match ReadBits(bits, q, 3)
              case Ok((v, q')) => Ok((cl[ClOrder(k) := v], q'))
              case Err(e) => Err(e)
  {
  }

  lemma {:induction false} ClFails(bits: seq<bool>, p: nat, k: nat, n: nat)
    requires k <= n <= 19 && ClLengths(bits, p, k).Err?
    ensures ClLengths(bits, p, n) == ClLengths(bits, p, k)
    decreases n - k
  {
    if k < n {
      ClFails(bits, p, k + 1, n);
    }
  }

  lemma CopyStep(o: seq<byte>, dist: nat, n: nat)
    requires 1 <= dist <= |o|
    ensures n > 0 ==> Copy(o, dist, n) == Copy(o + [o[|o| - dist]], dist, n - 1)
    ensures Copy(o, dist, 0) == o
  {
  }

  lemma ReadNothing()
    ensures Pow2(0) == 1 && Value([]) == 0
  {
  }

  lemma DepthZero(lengths: seq<nat>, bits: seq<bool>, p: nat)
    requires p <= |bits|
    ensures MsbValue(bits[p..p]) == 0 && First(lengths, 1) == 0 && Offset(lengths, 1) == 0
    ensures forall s: nat | s < |lengths| && lengths[s] < 1 :: !Starts(lengths, s, bits, p)
  {
  }

  lemma NextDepth(lengths: seq<nat>, len: nat)
    requires len >= 1
    ensures First(lengths, len + 1) == 2 * (First(lengths, len) + Count(lengths, len))
    ensures Offset(lengths, len + 1) == Offset(lengths, len) + Count(lengths, len)
  {
  }

  lemma TableCount(h: Table, lengths: seq<nat>, len: nat)
    requires IsTable(h, lengths) && 1 <= len <= h.maxBits
    ensures len < |h.counts| && h.counts[len] == Count(lengths, len)
  {
  }

  lemma TooShort(lengths: seq<nat>, h: Table, bits: seq<bool>, p: nat, len: nat)
    requires IsTable(h, lengths) && 1 <= len <= h.maxBits && p + len - 1 == |bits|
    requires forall s: nat | s < |lengths| && lengths[s] < len :: !Starts(lengths, s, bits, p)
    ensures SymbolAt(lengths, h.maxBits, bits, p) == Err(UnexpectedEnd)
  {
    hide IsCode;
    NoneStarts(lengths, h.maxBits, bits, p);
  }

  lemma AllTried(lengths: seq<nat>, h: Table, bits: seq<bool>, p: nat)
    requires IsTable(h, lengths) && p + h.maxBits <= |bits|
    requires forall s: nat | s < |lengths| && lengths[s] < h.maxBits + 1 :: !Starts(lengths, s, bits, p)
    ensures SymbolAt(lengths, h.maxBits, bits, p) == Err(BadCode)
  {
    forall s: nat ensures !Starts(lengths, s, bits, p) {
      if s < |lengths| && lengths[s] > 0 {
        assert lengths[s] <= h.maxBits;
      }
    }
    NoneStarts(lengths, h.maxBits, bits, p);
  }
}
