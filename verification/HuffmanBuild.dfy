/** Building the decoder's tables, with the counting loops of the viewer. */
module HuffmanBuild {
  import opened Huffman

  lemma {:induction false} OffsetStep(lengths: seq<nat>, n: nat, l: nat)
    requires n < |lengths| && l >= 1
    ensures Offset(lengths[..n + 1], l) == Offset(lengths[..n], l) + if 1 <= lengths[n] < l then 1 else 0
  {
    assert lengths[..n + 1][..n] == lengths[..n];
    if l > 1 {
      OffsetStep(lengths, n, l - 1);
    }
  }

  lemma {:induction false} OffsetBounded(lengths: seq<nat>, l: nat)
    requires l >= 1
    ensures Offset(lengths, l) <= |lengths|
  {
    hide Offset;
    if lengths == [] {
      EmptyOffset(l);
    } else {
      var n := |lengths| - 1;
      OffsetBounded(lengths[..n], l);
      assert lengths[..n + 1] == lengths;
      OffsetStep(lengths, n, l);
    }
  }

  lemma {:induction false} EmptyOffset(l: nat)
    requires l >= 1
    ensures Offset([], l) == 0
  {
    if l > 1 {
      EmptyOffset(l - 1);
    }
  }

  lemma {:induction false} OffsetMonotone(lengths: seq<nat>, l: nat, m: nat)
    requires 1 <= l < m
    ensures Offset(lengths, l) + Count(lengths, l) <= Offset(lengths, m)
  {
    hide Count;
    if m > l + 1 {
      OffsetMonotone(lengths, l, m - 1);
    }
  }

  lemma PositionInRange(lengths: seq<nat>, s: nat)
    requires s < |lengths| && lengths[s] > 0
    ensures Position(lengths, s) < Offset(lengths, lengths[s] + 1) <= |lengths|
  {
    hide Count;
    CountPrefix(lengths, s, lengths[s]);
    OffsetBounded(lengths, lengths[s] + 1);
  }

  /** Different symbols stand in different places. */
  lemma PositionInjective(lengths: seq<nat>, s: nat, t: nat)
    requires s < |lengths| && t < |lengths| && s != t && lengths[s] > 0 && lengths[t] > 0
    ensures Position(lengths, s) != Position(lengths, t)
  {
    hide Count, Offset;
    if lengths[s] == lengths[t] {
      RankInjective(lengths, if s < t then s else t, if s < t then t else s);
    } else {
      CountPrefix(lengths, s, lengths[s]);
      CountPrefix(lengths, t, lengths[t]);
      var l, m := if lengths[s] < lengths[t] then lengths[s] else lengths[t],
                  if lengths[s] < lengths[t] then lengths[t] else lengths[s];
      OffsetMonotone(lengths, l, m);
    }
  }

  lemma CountStep(lengths: seq<nat>, n: nat, l: nat)
    requires n < |lengths|
    ensures Count(lengths[..n + 1], l) == Count(lengths[..n], l) + if lengths[n] == l then 1 else 0
  {
    assert lengths[..n + 1][..n] == lengths[..n];
  }

  /** build: count the lengths, accumulate the offsets, and sort the symbols. */
  method Build(lengths: seq<nat>, maxBits: nat) returns (h: Table)
    requires forall l | l in lengths :: l <= maxBits
    ensures IsTable(h, lengths) && h.maxBits == maxBits
  {
    hide Count, Offset, Position;
    var counts := CountLengths(lengths, maxBits);
    var offs := new nat[maxBits + 2](_ => 0);
    OffsetOne(lengths);
    for len := 1 to maxBits + 1
      invariant forall l | 1 <= l <= len :: offs[l] == Offset(lengths, l)
    {
      offs[len + 1] := offs[len] + counts[len];
      OffsetNext(lengths, len);
    }
    var symbols := SortSymbols(lengths, offs[..], maxBits);
    h := Table(counts, symbols, maxBits);
  }

  lemma OffsetOne(lengths: seq<nat>)
    ensures Offset(lengths, 1) == 0
  {
  }

  lemma OffsetNext(lengths: seq<nat>, l: nat)
    requires l >= 1
    ensures Offset(lengths, l + 1) == Offset(lengths, l) + Count(lengths, l)
  {
  }

  method CountLengths(lengths: seq<nat>, maxBits: nat) returns (counts: seq<nat>)
    requires forall l | l in lengths :: l <= maxBits
    ensures |counts| == maxBits + 1
    ensures forall l | 1 <= l <= maxBits :: counts[l] == Count(lengths, l)
  {
    hide Count;
    var c := new nat[maxBits + 1](_ => 0);
    assert forall l :: Count(lengths[..0], l) == 0 by {
      forall l ensures Count(lengths[..0], l) == 0 { EmptyCount(l); assert lengths[..0] == []; }
    }
    for i := 0 to |lengths|
      invariant forall l | 1 <= l <= maxBits :: c[l] == Count(lengths[..i], l)
    {
      assert lengths[i] in lengths;
      forall l | 1 <= l <= maxBits
        ensures Count(lengths[..i + 1], l) == Count(lengths[..i], l) + if lengths[i] == l then 1 else 0
      {
        CountStep(lengths, i, l);
      }
      if lengths[i] != 0 {
        c[lengths[i]] := c[lengths[i]] + 1;
      }
    }
    assert lengths[..|lengths|] == lengths;
    counts := c[..];
  }

  lemma EmptyCount(l: nat)
    ensures Count([], l) == 0
  {
  }

  method SortSymbols(lengths: seq<nat>, offs: seq<nat>, maxBits: nat) returns (r: seq<nat>)
    requires |offs| == maxBits + 2 && (forall l | l in lengths :: l <= maxBits)
    requires forall l | 1 <= l <= maxBits + 1 :: offs[l] == Offset(lengths, l)
    ensures |r| == |lengths|
    ensures forall s | 0 <= s < |lengths| && lengths[s] > 0 ::
              lengths[s] <= maxBits && Position(lengths, s) < |r| && r[Position(lengths, s)] == s
  {
    hide Count, Offset;
    var symbols := new nat[|lengths|](_ => 0);
    var cursor := new nat[maxBits + 2](i requires 0 <= i < |offs| => offs[i]);
    assert forall l :: Count(lengths[..0], l) == 0 by {
      forall l ensures Count(lengths[..0], l) == 0 { EmptyCount(l); assert lengths[..0] == []; }
    }
    for sym := 0 to |lengths|
      invariant forall l | 1 <= l <= maxBits :: cursor[l] == Offset(lengths, l) + Count(lengths[..sym], l)
      invariant forall s | 0 <= s < sym && lengths[s] > 0 ::
                  Position(lengths, s) < |lengths| && symbols[Position(lengths, s)] == s
    {
      var len := lengths[sym];
      assert len in lengths;
      forall l | 1 <= l <= maxBits
        ensures Count(lengths[..sym + 1], l) == Count(lengths[..sym], l) + if len == l then 1 else 0
      {
        CountStep(lengths, sym, l);
      }
      if len != 0 {
        PositionInRange(lengths, sym);
        assert cursor[len] == Position(lengths, sym);
        forall s | 0 <= s < sym && lengths[s] > 0 ensures Position(lengths, s) != Position(lengths, sym) {
          PositionInjective(lengths, s, sym);
        }
        symbols[cursor[len]] := sym;
        cursor[len] := cursor[len] + 1;
      }
    }
    r := symbols[..];
    assert forall s | 0 <= s < |lengths| && lengths[s] > 0 :: lengths[s] in lengths;
  }
}
