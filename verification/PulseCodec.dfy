/** Bits as pulse durations in microseconds: the encoders that fill the write
    tables and the decoders that read the captures. */
module PulseCodec {
  import opened Bits

  const ONE_PULSE: byte := 5
  const ZERO_PULSE: byte := 60
  const SHORT_PULSE_MAX: byte := 10
  const RELEASE_PULSE: byte := 0
  const CAPTURE_BUF_SIZE := 2

  const SKIP_ROM: byte := 0xCC
  const MATCH_ROM: byte := 0x55

  /** onewire_bit_from_pulse */
  predicate BitFromPulse(dur: nat) {
    dur <= SHORT_PULSE_MAX
  }

  /** onewire_present: the presence edge must have been captured by this reset, and
      both widths must lie in their windows. */
  predicate Present(captured: nat, reset: nat, presence: nat) {
    captured == CAPTURE_BUF_SIZE && 480 <= reset <= 540 && 555 <= presence <= 840
  }

  /** How captured widths read when widths up to `short` are ones. */
  function BitsUpTo(short: byte, p: seq<byte>): (b: seq<bool>)
    ensures |b| == |p|
  {
    seq(|p|, i requires 0 <= i < |p| => p[i] <= short)
  }

  function PulseBits(p: seq<byte>): (b: seq<bool>)
    ensures |b| == |p|
  {
    BitsUpTo(SHORT_PULSE_MAX, p)
  }

  /** The widths of bits when ones last `one` and zeros `zero`. */
  function PulsesFor(one: byte, zero: byte, b: seq<bool>): (p: seq<byte>)
    ensures |p| == |b|
  {
    seq(|b|, i requires 0 <= i < |b| => if b[i] then one else zero)
  }

  function EncodedBits(b: seq<bool>): (p: seq<byte>)
    ensures |p| == |b|
  {
    PulsesFor(ONE_PULSE, ZERO_PULSE, b)
  }

  /** The write table of a byte sequence, without the release entry. */
  function Encoded(bytes: seq<byte>): (p: seq<byte>)
    ensures |p| == 8 * |bytes|
  {
    EncodedBits(BitsOf(bytes))
  }

  /** The bytes whose transmitted bits are b. */
  function BytesOf(b: seq<bool>): (bytes: seq<byte>)
    requires |b| % 8 == 0
    ensures BitsOf(bytes) == b
    decreases |b|
  {
    if b == [] then [] else
      var n := |b| - 8;
      var front := BytesOf(b[..n]);
      BitsOfAppend(front, ByteOf(b[n..]));
      front + [ByteOf(b[n..])]
  }

  /** What the decoder makes of a capture. */
  function Decoded(p: seq<byte>): (bytes: seq<byte>)
    requires |p| % 8 == 0
    ensures 8 * |bytes| == |p| && BitsOf(bytes) == PulseBits(p)
  {
    BytesOf(PulseBits(p))
  }

  lemma BytesOfBits(bytes: seq<byte>)
    ensures BytesOf(BitsOf(bytes)) == bytes
  {
    hide BitsOf, ByteBits, BytesOf;
    BitsOfInjective(BytesOf(BitsOf(bytes)), bytes);
  }

  /** For any pulse widths and threshold a build may configure: decoding what was encoded returns the
      bytes, whatever they are, exactly when ones are not longer than the threshold and zeros are. */
  lemma DecodeEncodedIff(one: byte, zero: byte, short: byte)
    ensures (forall bytes :: BytesOf(BitsUpTo(short, PulsesFor(one, zero, BitsOf(bytes)))) == bytes)
            <==> one <= short < zero
  {
    hide BitsOf, ByteBits, BytesOf;
    if one <= short < zero {
      forall bytes ensures BytesOf(BitsUpTo(short, PulsesFor(one, zero, BitsOf(bytes)))) == bytes {
        assert BitsUpTo(short, PulsesFor(one, zero, BitsOf(bytes))) == BitsOf(bytes);
        BytesOfBits(bytes);
      }
    } else {
      EncodingNeedsWidths(one, zero, short);
    }
  }

  /** Otherwise 0x01, which has bits of both kinds, is a byte that does not come back. */
  lemma EncodingNeedsWidths(one: byte, zero: byte, short: byte)
    requires !(one <= short < zero)
    ensures BytesOf(BitsUpTo(short, PulsesFor(one, zero, BitsOf([1])))) != [1]
  {
    hide BytesOf;
    var read := BitsUpTo(short, PulsesFor(one, zero, BitsOf([1])));
    assert BitsOf([1]) == ByteBits(1);
    assert ByteBits(1)[0] && !ByteBits(1)[1];
    assert read[0] <==> one <= short;
    assert read[1] <==> zero <= short;
    assert BitsOf(BytesOf(read)) == read;
  }

  /** So it does with the widths of the default configuration. */
  lemma DecodeEncoded(bytes: seq<byte>)
    ensures Decoded(Encoded(bytes)) == bytes
  {
    hide BitsOf, BytesOf;
    assert PulseBits(Encoded(bytes)) == BitsOf(bytes);
    BytesOfBits(bytes);
  }

  /** The same holds of any capture whose pulses read as the transmitted bits. */
  lemma DecodeFaithful(p: seq<byte>, bytes: seq<byte>)
    requires |p| == 8 * |bytes| && PulseBits(p) == BitsOf(bytes)
    ensures Decoded(p) == bytes
  {
    BytesOfBits(bytes);
  }

  lemma EncodedConcat(a: seq<byte>, b: seq<byte>)
    ensures Encoded(a + b) == Encoded(a) + Encoded(b)
  {
    hide BitsOf;
    BitsOfConcat(a, b);
    var x, y := BitsOf(a), BitsOf(b);
    assert EncodedBits(x + y) == EncodedBits(x) + EncodedBits(y);
  }

  /** onewire_encode_byte */
  method EncodeByte(out: array<byte>, at: nat, b: byte)
    requires at + 8 <= out.Length
    modifies out
    ensures out[..] == old(out[..at]) + Encoded([b]) + old(out[at + 8..])
  {
    hide Encoded, EncodedBits, ByteBits;
    var bits := ByteBits(b);
    for i := 0 to 8
      invariant forall k | 0 <= k < out.Length && !(at <= k < at + i) :: out[k] == old(out[k])
      invariant forall k | 0 <= k < i :: out[at + k] == if bits[k] then ONE_PULSE else ZERO_PULSE
    {
      out[at + i] := if bits[i] then ONE_PULSE else ZERO_PULSE;
    }
    EncodedOne(b);
    assert out[at..at + 8] == Encoded([b]);
    assert out[..] == out[..at] + out[at..at + 8] + out[at + 8..];
  }

  lemma EncodedOne(b: byte)
    ensures |Encoded([b])| == 8
    ensures forall k | 0 <= k < 8 :: Encoded([b])[k] == if ByteBits(b)[k] then ONE_PULSE else ZERO_PULSE
  {
    assert BitsOf([b]) == ByteBits(b);
  }

  /** ow_encode_bytes: encode raw bytes at the cursor and advance it. */
  method EncodeBytes(out: array<byte>, at: nat, src: seq<byte>) returns (cursor: nat)
    requires at + 8 * |src| <= out.Length
    modifies out
    ensures cursor == at + 8 * |src|
    ensures out[..] == old(out[..at]) + Encoded(src) + old(out[cursor..])
  {
    hide Encoded, EncodedBits;
    cursor := at;
    assert src[..0] == [] && Encoded([]) == [];
    for i := 0 to |src|
      invariant cursor == at + 8 * i
      invariant out[..] == old(out[..at]) + Encoded(src[..i]) + old(out[cursor..])
    {
      ghost var before := out[..];
      EncodeByte(out, cursor, src[i]);
      EncodedConcat(src[..i], [src[i]]);
      assert src[..i] + [src[i]] == src[..i + 1];
      assert before[..cursor] == old(out[..at]) + Encoded(src[..i]);
      assert before[cursor + 8..] == old(out[cursor + 8..]);
      cursor := cursor + 8;
    }
    assert src[..|src|] == src;
  }

  /** One more byte of a capture. */
  lemma DecodedOneMore(front: seq<byte>, q: seq<byte>, w: seq<byte>, value: seq<bool>)
    requires |w| == 8 && |value| == 8 && BitsOf(front) == PulseBits(q)
    requires forall j | 0 <= j < 8 :: value[j] == BitFromPulse(w[j])
    ensures BitsOf(front + [ByteOf(value)]) == PulseBits(q + w)
  {
    hide BitsOf, ByteBits;
    BitsOfAppend(front, ByteOf(value));
    assert PulseBits(q + w) == PulseBits(q) + value;
  }

  lemma NothingDecoded()
    ensures BitsOf([]) == PulseBits([]) == []
  {
  }

  /** onewire_decode_pulses into a separate buffer. */
  method DecodePulses(dst: array<byte>, pulse: array<byte>, nbytes: nat)
    requires nbytes <= dst.Length && 8 * nbytes <= pulse.Length && dst != pulse
    modifies dst
    ensures dst[..nbytes] == Decoded(pulse[..8 * nbytes])
    ensures dst[nbytes..] == old(dst[nbytes..])
  {
    hide ByteBits, BitFromPulse, BitsOf, PulseBits;
    NothingDecoded();
    for i := 0 to nbytes
      invariant BitsOf(dst[..i]) == PulseBits(pulse[..8 * i])
      invariant dst[nbytes..] == old(dst[nbytes..])
    {
      ghost var front := dst[..i];
      var value := [false, false, false, false, false, false, false, false];
      for k := 0 to 8
        invariant |value| == 8
        invariant forall j | 0 <= j < k :: value[j] == BitFromPulse(pulse[8 * i + j])
      {
        value := value[k := BitFromPulse(pulse[8 * i + k])];
      }
      ghost var next := pulse[8 * i..8 * i + 8];
      assert pulse[..8 * i] + next == pulse[..8 * (i + 1)];
      DecodedOneMore(front, pulse[..8 * i], next, value);
      dst[i] := ByteOf(value);
      assert dst[..i + 1] == front + [ByteOf(value)];
    }
    BytesOfBits(dst[..nbytes]);
  }

  /** The same loop run on one buffer, as the measurement driver does: output byte i
      overwrites pulse i. The result is the one a separate buffer would receive. */
  method DecodeInPlace(buf: array<byte>, nbytes: nat)
    requires 8 * nbytes <= buf.Length
    modifies buf
    ensures buf[..nbytes] == Decoded(old(buf[..8 * nbytes]))
    ensures buf[nbytes..] == old(buf[nbytes..])
  {
    hide ByteBits, BitFromPulse, BitsOf, PulseBits;
    NothingDecoded();
    ghost var pulse := buf[..];
    for i := 0 to nbytes
      invariant BitsOf(buf[..i]) == PulseBits(pulse[..8 * i])
      invariant forall k | i <= k < buf.Length :: buf[k] == pulse[k]
    {
      ghost var front := buf[..i];
      var value := [false, false, false, false, false, false, false, false];
      for k := 0 to 8
        invariant |value| == 8
        invariant forall j | 0 <= j < k :: value[j] == BitFromPulse(pulse[8 * i + j])
      {
        value := value[k := BitFromPulse(buf[8 * i + k])];
      }
      ghost var next := pulse[8 * i..8 * i + 8];
      assert pulse[..8 * i] + next == pulse[..8 * (i + 1)];
      DecodedOneMore(front, pulse[..8 * i], next, value);
      buf[i] := ByteOf(value);
      assert buf[..i + 1] == front + [ByteOf(value)];
    }
    assert old(buf[..8 * nbytes]) == pulse[..8 * nbytes];
    BytesOfBits(buf[..nbytes]);
  }

  // ---- tables and captures in a buffer ----

  /** A buffer whose start is overwritten. */
  function Overwrite(u: seq<byte>, part: seq<byte>): (v: seq<byte>)
    ensures |part| <= |u| ==> |v| == |u|
  {
    if |part| <= |u| then part + u[|part|..] else u
  }

  ghost function Contents(a: array<byte>): seq<byte>
    reads a
  {
    a[..]
  }

  /** Append encoded bytes at the cursor; `sent` is what the table holds so far. */
  method PutBytes(out: array<byte>, cursor: nat, ghost sent: seq<byte>, src: seq<byte>, ghost was: seq<byte>)
    returns (next: nat)
    requires out.Length == |was| && cursor == 8 * |sent| && cursor + 8 * |src| <= out.Length
    requires out[..cursor] == Encoded(sent) && out[cursor..] == was[cursor..]
    modifies out
    ensures next == 8 * |sent + src| && out[..next] == Encoded(sent + src) && out[next..] == was[next..]
  {
    hide Encoded;
    assert forall k | 8 * |sent + src| <= k < out.Length :: out[k] == out[cursor..][k - cursor] == was[k];
    next := EncodeBytes(out, cursor, src);
    EncodedConcat(sent, src);
    assert old(out[..cursor]) == Encoded(sent);
    assert out[..next] == Encoded(sent) + Encoded(src);
  }

  /** The release entry right behind the table. */
  method PutRelease(out: array<byte>, slots: nat, ghost sent: seq<byte>, ghost was: seq<byte>)
    requires out.Length == |was| && slots == 8 * |sent| < out.Length
    requires out[..slots] == Encoded(sent) && out[slots..] == was[slots..]
    modifies out
    ensures Contents(out) == Overwrite(was, Encoded(sent) + [RELEASE_PULSE])
  {
    hide Encoded;
    assert forall k | slots < k < out.Length :: out[k] == out[slots..][k - slots] == was[k];
    out[slots] := RELEASE_PULSE;
    assert out[..] == out[..slots] + [RELEASE_PULSE] + out[slots + 1..];
    assert out[slots + 1..] == was[slots + 1..];
  }

  /** The capture DMA has filled the start of a buffer. */
  method StoreCapture(buf: array<byte>, capture: seq<byte>)
    requires |capture| <= buf.Length
    modifies buf
    ensures Contents(buf) == Overwrite(old(Contents(buf)), capture)
  {
    ghost var before := buf[..];
    for i := 0 to |capture|
      invariant buf[..i] == capture[..i] && buf[i..] == before[i..]
    {
      buf[i] := capture[i];
    }
    assert buf[..] == buf[..|capture|] + buf[|capture|..] == capture + before[|capture|..];
  }

  lemma ContentsIs(a: array<byte>)
    ensures Contents(a) == a[..]
  {
  }

  lemma EmptyEncoded()
    ensures Encoded([]) == []
  {
  }
}
