/** Sample decoding for the PCM envelope of `WaveformComponent`: bytes,
    Java `long` wrap-around, big- and little-endian word assembly and the
    signed narrowing casts `(byte)`, `(short)`, `(int)`. */
module Pcm {
  import opened JavaArith

  /** The bit pattern of a Java `byte`, read unsigned (`b & 0xFF`). */
  type Byte = x: int | 0 <= x < 256

  function Pow256(n: nat): (p: nat)
    ensures p >= 1
  {
    if n == 0 then 1 else 256 * Pow256(n - 1)
  }

  /** The unsigned word of `bs`, first byte most significant. */
  function WordBE(bs: seq<Byte>): nat
  {
    if bs == [] then 0 else WordBE(bs[..|bs| - 1]) * 256 + bs[|bs| - 1]
  }

  /** The unsigned word of `bs`, first byte least significant. */
  function WordLE(bs: seq<Byte>): nat
  {
    if bs == [] then 0 else bs[0] + 256 * WordLE(bs[1..])
  }

  function Reverse(bs: seq<Byte>): (r: seq<Byte>)
    ensures |r| == |bs|
  {
    if bs == [] then [] else Reverse(bs[1..]) + [bs[0]]
  }

  /** Little-endian assembly is big-endian assembly of the reversed bytes. */
  lemma {:induction false} WordLEIsReversedBE(bs: seq<Byte>)
    ensures WordLE(bs) == WordBE(Reverse(bs))
  {
    if bs != [] {
      var rv := Reverse(bs);
      assert rv[..|rv| - 1] == Reverse(bs[1..]);
      WordLEIsReversedBE(bs[1..]);
    }
  }

  /** An assembled word fits in `|bs|` bytes. */
  lemma {:induction false} WordBEBound(bs: seq<Byte>)
    ensures WordBE(bs) < Pow256(|bs|)
  {
    if bs != [] {
      WordBEBound(bs[..|bs| - 1]);
    }
  }

  lemma WordLEBound(bs: seq<Byte>)
    ensures WordLE(bs) < Pow256(|bs|)
  {
    WordLEIsReversedBE(bs);
    WordBEBound(Reverse(bs));
  }

  /** A narrowing cast to a `modulus`-sized signed type: keep the low bits
      (Euclidean `%` is the two's-complement low part) and read them signed. */
  function Narrow(v: int, modulus: nat): (r: int)
    requires modulus >= 2 && modulus % 2 == 0
    ensures -(modulus / 2) <= r < modulus / 2
  {
    var m := v % modulus;
    if m >= modulus / 2 then m - modulus else m
  }

  /** The word a sample's bytes assemble to, before any cast. */
  function RawSample(bs: seq<Byte>, bigEndian: bool): int
  {
    JavaLong(if bigEndian then WordBE(bs) else WordLE(bs))
  }

  /** `channelSample` after the signed cast and the normalisation by
      2^(8w-1); widths other than 1, 2 and 4 keep the raw `long`. */
  function NormalizedSample(bs: seq<Byte>, bigEndian: bool): real
  {
    var v := RawSample(bs, bigEndian);
    if |bs| == 1 then Narrow(v, 0x100) as real / 128.0
    else if |bs| == 2 then Narrow(v, 0x1_0000) as real / 32768.0
    else if |bs| == 4 then Narrow(v, 0x1_0000_0000) as real / 2147483648.0
    else v as real
  }

  /** A 16-bit little-endian sample is its word read signed, over 32768. */
  lemma NormalizedSample16LE(bs: seq<Byte>)
    requires |bs| == 2
    ensures NormalizedSample(bs, false) == Narrow(bs[0] as int + 256 * bs[1] as int, 0x1_0000) as real / 32768.0
  {
    assert bs[1..][1..] == [];
    assert WordLE(bs[1..]) == bs[1] as int + 256 * WordLE([]);
    assert WordLE(bs) == bs[0] as int + 256 * WordLE(bs[1..]);
  }

  /** The same for the pair of bytes at `i` of a longer sequence. */
  lemma NormalizedPair(p: seq<Byte>, i: nat)
    requires i + 2 <= |p|
    ensures NormalizedSample(p[i..i + 2], false) == Narrow(p[i] as int + 256 * p[i + 1] as int, 0x1_0000) as real / 32768.0
  {
    var bs := p[i..i + 2];
    assert bs[0] == p[i] && bs[1] == p[i + 1];
    NormalizedSample16LE(bs);
  }

  predicate NormalizedWidth(w: nat) { w == 1 || w == 2 || w == 4 }

  /** The value of an unsigned `full`-sized word read as two's complement. */
  function TwosComplement(word: nat, full: nat): int
  {
    if word >= full / 2 then word - full else word
  }

  /** For 1, 2 and 4 bytes the cast yields the w-byte two's-complement value
      of the assembled word, and the normalised sample lies in [-1, 1). */
  lemma SampleIsTwosComplement(bs: seq<Byte>, bigEndian: bool)
    requires NormalizedWidth(|bs|)
    ensures var word := if bigEndian then WordBE(bs) else WordLE(bs);
      var v := TwosComplement(word, Pow256(|bs|));
      -(Pow256(|bs|) / 2) <= v < Pow256(|bs|) / 2 &&
      NormalizedSample(bs, bigEndian) == v as real / Scale(|bs|)
    ensures -1.0 <= NormalizedSample(bs, bigEndian) < 1.0
  {
    var word := if bigEndian then WordBE(bs) else WordLE(bs);
    WordBEBound(bs);
    WordLEBound(bs);
    PowTable();
    assert RawSample(bs, bigEndian) == word;
    if |bs| == 1 {
      NarrowFits8(word);
    } else if |bs| == 2 {
      NarrowFits16(word);
    } else {
      NarrowFits32(word);
    }
  }

  /** The divisor that maps a w-byte signed value into [-1, 1). */
  function Scale(w: nat): real
  {
    if w == 1 then 128.0 else if w == 2 then 32768.0 else 2147483648.0
  }

  lemma NarrowFits8(word: nat)
    requires word < 0x100
    ensures Narrow(word, 0x100) == TwosComplement(word, 0x100)
    ensures -1.0 <= Narrow(word, 0x100) as real / 128.0 < 1.0
  {
    assert word % 0x100 == word;
  }

  lemma NarrowFits16(word: nat)
    requires word < 0x1_0000
    ensures Narrow(word, 0x1_0000) == TwosComplement(word, 0x1_0000)
    ensures -1.0 <= Narrow(word, 0x1_0000) as real / 32768.0 < 1.0
  {
    assert word % 0x1_0000 == word;
  }

  lemma NarrowFits32(word: nat)
    requires word < 0x1_0000_0000
    ensures Narrow(word, 0x1_0000_0000) == TwosComplement(word, 0x1_0000_0000)
    ensures -1.0 <= Narrow(word, 0x1_0000_0000) as real / 2147483648.0 < 1.0
  {
    assert word % 0x1_0000_0000 == word;
  }

  lemma PowTable()
    ensures Pow256(1) == 0x100 && Pow256(2) == 0x1_0000 && Pow256(4) == 0x1_0000_0000
  {
    assert Pow256(3) == 0x100_0000;
  }
}

/** `WaveformComponent.extractWaveformData` and the component's progress
    and duration fields. */
module Waveform {
  import opened Pcm
  import opened Options
  import opened JavaArith
  import opened Arith

  /** The parts of `javax.sound.sampled.AudioFormat` the component reads. */
  datatype Format = Format(channels: nat, sampleSizeInBits: nat, bigEndian: bool, frameRate: real)

  /** `AudioSystem.NOT_SPECIFIED`, the frame length of a stream that does
      not know its length. */
  const NotSpecified: int := -1

  /** `(long) ((frameLength * 1_000_000.0) / frameRate)`: the stream's
      length in microseconds, with the IEEE results of a zero frame rate
      (an infinity for a non-zero length, NaN and so 0 for none). */
  function StreamDurationMicros(frameLength: int, frameRate: real): int
  {
    var scaled := frameLength as real * 1_000_000.0;
    if frameRate == 0.0 then
      (if scaled > 0.0 then LongMax else if scaled < 0.0 then -LongHalf else 0)
    else LongOfReal(scaled / frameRate)
  }

  /** For a whole frame rate and a length below 10^12 frames, the duration
      is the exact number of microseconds rounded down. */
  lemma PcmDuration(frameLength: nat, rate: nat)
    requires 0 < rate && frameLength < 1_000_000_000_000
    ensures StreamDurationMicros(frameLength, rate as real) == frameLength * 1_000_000 / rate
  {
    var n := frameLength * 1_000_000;
    assert frameLength as real * 1_000_000.0 == n as real;
    RealQuotientFloor(n, rate);
    DivBound(n, rate);
  }

  /** The real quotient of two naturals lies between their integer quotient
      and the next integer. */
  lemma RealQuotientFloor(n: nat, rate: nat)
    requires 0 < rate
    ensures (n / rate) as real <= n as real / rate as real < (n / rate) as real + 1.0
  {
    var q := n / rate;
    var m := n % rate;
    assert n == q * rate + m;
    assert n as real == q as real * rate as real + m as real;
    QuotientOfReals(q as real, rate as real, m as real);
  }

  /** Real division of `q * r + m` by `r`, for `0 <= m < r`, lies in `[q, q + 1)`. */
  lemma QuotientOfReals(q: real, r: real, m: real)
    requires r > 0.0 && 0.0 <= m < r
    ensures q <= (q * r + m) / r < q + 1.0
  {
    assert (q * r + m) / r == q + m / r;
    var d := m / r;
    assert d * r == m;
    if d >= 1.0 {
      assert false;
    }
  }

  const TargetPoints: int := 1000

  function SampleBytes(fmt: Format): nat { fmt.sampleSizeInBits / 8 }

  function FrameBytes(fmt: Format): nat { SampleBytes(fmt) * fmt.channels }

  /** `(int)(totalFrames / targetPoints)`, raised to at least 1
      (`totalFrames` is -1 when the stream does not know its length). The
      cast to `int` wraps from 1000·2^31 frames on. */
  function FramesPerPoint(totalFrames: int): (r: int)
    ensures 1 <= r < IntHalf
    ensures TargetPoints <= totalFrames < TargetPoints * IntHalf ==> r == totalFrames / TargetPoints
    ensures totalFrames >= TargetPoints ==> r <= totalFrames / TargetPoints
    ensures -(TargetPoints * IntHalf) <= totalFrames < 2 * TargetPoints ==> r == 1
  {
    var q := JavaInt(JavaDiv(totalFrames, TargetPoints));
    if q < 1 then 1 else q
  }

  /** Past 1000·2^31 frames the `(int)` cast wraps: exactly 1000·2^31
      frames give a negative quotient, raised to 1, and 1000·2^32 + 5000
      frames give only 5 frames per point. */
  lemma FramesPerPointWraps()
    ensures FramesPerPoint(TargetPoints * IntHalf) == 1
    ensures FramesPerPoint(TargetPoints * IntModulus + 5 * TargetPoints) == 5
  {
    assert JavaDiv(TargetPoints * IntHalf, TargetPoints) == IntHalf;
    assert JavaInt(IntHalf) == -IntHalf;
    assert JavaDiv(TargetPoints * IntModulus + 5 * TargetPoints, TargetPoints) == IntModulus + 5;
    assert JavaInt(IntModulus + 5) == 5;
  }

  /** The size of the one read buffer, in bytes: whole frames, exactly one
      envelope point's worth, and empty only when a frame has no bytes. */
  function BufferSize(fmt: Format, totalFrames: int): (r: nat)
    ensures FrameBytes(fmt) > 0 ==>
      r > 0 && r % FrameBytes(fmt) == 0 && r / FrameBytes(fmt) == FramesPerPoint(totalFrames)
    ensures FrameBytes(fmt) == 0 ==> r == 0
  {
    var p := FramesPerPoint(totalFrames);
    var f := FrameBytes(fmt);
    MulAssoc(p, fmt.channels, SampleBytes(fmt));
    MulCommute(fmt.channels, SampleBytes(fmt));
    if f > 0 then
      ModMultiple(p, f);
      DivUnique(p * f, f, p, 0);
      PositiveProduct(p, f);
      p * fmt.channels * SampleBytes(fmt)
    else
      ProductZero(p, fmt.channels, SampleBytes(fmt));
      p * fmt.channels * SampleBytes(fmt)
  }

  /** The normalised first-channel samples of the frames that start at byte
      `i`, `i + FrameBytes`, ... of one read, keeping only those whose first
      sample is complete. */
  function FirstChannelSamples(fmt: Format, chunk: seq<Byte>, i: nat): seq<real>
    requires FrameBytes(fmt) > 0
    decreases |chunk| - i
  {
    if i >= |chunk| then []
    else
      var w := SampleBytes(fmt);
      (if i + w <= |chunk| then [NormalizedSample(chunk[i..i + w], fmt.bigEndian)] else [])
      + FirstChannelSamples(fmt, chunk, i + FrameBytes(fmt))
  }

  function Abs(x: real): real { if x < 0.0 then -x else x }

  function SumAbs(xs: seq<real>): real
  {
    if xs == [] then 0.0 else SumAbs(xs[..|xs| - 1]) + Abs(xs[|xs| - 1])
  }

  /** The point one read contributes: the mean magnitude of its complete
      first-channel samples, or nothing when it has none. */
  function ChunkPoint(fmt: Format, chunk: seq<Byte>): Option<real>
    requires FrameBytes(fmt) > 0
  {
    var xs := FirstChannelSamples(fmt, chunk, 0);
    if |xs| == 0 then None else Some(SumAbs(xs) / |xs| as real)
  }

  /** Every read fits the buffer it is read into. */
  predicate ReadsFit(fmt: Format, totalFrames: int, chunks: seq<seq<Byte>>)
  {
    forall k :: 0 <= k < |chunks| ==> |chunks[k]| <= BufferSize(fmt, totalFrames)
  }

  lemma FrameBytesPositive(fmt: Format, totalFrames: int, n: nat)
    requires 0 < n <= BufferSize(fmt, totalFrames)
    ensures FrameBytes(fmt) > 0
  {
    ProductZero(FramesPerPoint(totalFrames), fmt.channels, SampleBytes(fmt));
    if fmt.channels > 0 && SampleBytes(fmt) > 0 {
      PositiveProduct(SampleBytes(fmt), fmt.channels);
    }
  }

  /** The envelope: one point per read, until a read returns no bytes or
      the stream ends. */
  function Envelope(fmt: Format, totalFrames: int, chunks: seq<seq<Byte>>): seq<real>
    requires ReadsFit(fmt, totalFrames, chunks)
  {
    if chunks == [] || |chunks[0]| == 0 then []
    else
      FrameBytesPositive(fmt, totalFrames, |chunks[0]|);
      var p := ChunkPoint(fmt, chunks[0]);
      (if p.Some? then [p.value] else []) + Envelope(fmt, totalFrames, chunks[1..])
  }

  /** The envelope from read `r` on: that read's point, if any, then the
      envelope of the reads after it. */
  lemma EnvelopeStep(fmt: Format, totalFrames: int, chunks: seq<seq<Byte>>, r: nat)
    requires ReadsFit(fmt, totalFrames, chunks) && r < |chunks| && |chunks[r]| > 0
    ensures FrameBytes(fmt) > 0
    ensures var p := ChunkPoint(fmt, chunks[r]);
      Envelope(fmt, totalFrames, chunks[r..]) ==
        (if p.Some? then [p.value] else []) + Envelope(fmt, totalFrames, chunks[r + 1..])
  {
    FrameBytesPositive(fmt, totalFrames, |chunks[r]|);
    var tail := chunks[r..];
    assert tail[0] == chunks[r] && tail[1..] == chunks[r + 1..];
  }

  /** The loop's invariant carried past read `r`. */
  lemma EnvelopeAdvance(fmt: Format, totalFrames: int, chunks: seq<seq<Byte>>, r: nat,
                        data: seq<real>, point: seq<real>)
    requires ReadsFit(fmt, totalFrames, chunks) && r < |chunks| && |chunks[r]| > 0
    requires FrameBytes(fmt) > 0
    requires data + Envelope(fmt, totalFrames, chunks[r..]) == Envelope(fmt, totalFrames, chunks)
    requires point == (var p := ChunkPoint(fmt, chunks[r]); if p.Some? then [p.value] else [])
    ensures (data + point) + Envelope(fmt, totalFrames, chunks[r + 1..]) == Envelope(fmt, totalFrames, chunks)
  {
    EnvelopeStep(fmt, totalFrames, chunks, r);
    var rest := Envelope(fmt, totalFrames, chunks[r + 1..]);
    assert data + (point + rest) == (data + point) + rest;
  }

  /** Copies one read into the front of the reused buffer, as
      `InputStream.read(byte[])` does; the rest keeps its old bytes. */
  method ReadInto(buffer: array<Byte>, chunk: seq<Byte>)
    requires |chunk| <= buffer.Length
    modifies buffer
    ensures buffer[..|chunk|] == chunk
  {
    forall k | 0 <= k < |chunk| {
      buffer[k] := chunk[k];
    }
  }

  /** The inner byte loops: assemble `w` bytes at `i` into a `long`. */
  method AssembleSample(buffer: array<Byte>, i: nat, w: nat, bigEndian: bool) returns (sampleValue: int)
    requires i + w <= buffer.Length
    ensures sampleValue == RawSample(buffer[i..i + w], bigEndian)
  {
    sampleValue := 0;
    if bigEndian {
      var j := 0;
      while j < w
        invariant 0 <= j <= w
        invariant sampleValue == JavaLong(WordBE(buffer[i..i + j]))
      {
        // (sampleValue << 8) | b: the shifted low byte is zero, so OR adds b
        JavaLongShift(WordBE(buffer[i..i + j]), buffer[i + j]);
        assert buffer[i..i + j + 1][..j] == buffer[i..i + j];
        sampleValue := JavaLong(sampleValue * 256 + buffer[i + j]);
        j := j + 1;
      }
    } else {
      var j := w;
      while j > 0
        invariant 0 <= j <= w
        invariant sampleValue == JavaLong(WordLE(buffer[i + j..i + w]))
      {
        j := j - 1;
        JavaLongShift(WordLE(buffer[i + j + 1..i + w]), buffer[i + j]);
        assert buffer[i + j..i + w][1..] == buffer[i + j + 1..i + w];
        sampleValue := JavaLong(sampleValue * 256 + buffer[i + j]);
      }
    }
  }

  /** The signed casts and the normalisation of one assembled sample. */
  method ConvertSample(sampleValue: int, w: nat) returns (channelSample: real)
    ensures channelSample ==
      if w == 1 then Narrow(sampleValue, 0x100) as real / 128.0
      else if w == 2 then Narrow(sampleValue, 0x1_0000) as real / 32768.0
      else if w == 4 then Narrow(sampleValue, 0x1_0000_0000) as real / 2147483648.0
      else sampleValue as real
  {
    if w == 1 {
      channelSample := Narrow(sampleValue, 0x100) as real;
    } else if w == 2 {
      channelSample := Narrow(sampleValue, 0x1_0000) as real;
    } else if w == 4 {
      channelSample := Narrow(sampleValue, 0x1_0000_0000) as real;
    } else {
      channelSample := sampleValue as real;
    }
    if w == 1 {
      channelSample := channelSample / 128.0;
    } else if w == 2 {
      channelSample := channelSample / 32768.0;
    } else if w == 4 {
      channelSample := channelSample / 2147483648.0;
    }
  }

  /** The frame loop over one read: the sum of the magnitudes of the
      complete first-channel samples and how many there were. */
  method SumFirstChannel(fmt: Format, buffer: array<Byte>, bytesRead: nat) returns (sample: real, samplesProcessed: nat)
    requires FrameBytes(fmt) > 0 && bytesRead <= buffer.Length
    ensures var xs := FirstChannelSamples(fmt, buffer[..bytesRead], 0);
      sample == SumAbs(xs) && samplesProcessed == |xs|
  {
    ghost var chunk := buffer[..bytesRead];
    var sampleSizeInBytes := SampleBytes(fmt);
    var step := sampleSizeInBytes * fmt.channels;
    assert step == FrameBytes(fmt);
    sample := 0.0;
    samplesProcessed := 0;
    ghost var all := FirstChannelSamples(fmt, chunk, 0);
    var i := 0;
    while i < bytesRead
      invariant sample + SumAbs(FirstChannelSamples(fmt, chunk, i)) == SumAbs(all)
      invariant samplesProcessed + |FirstChannelSamples(fmt, chunk, i)| == |all|
      decreases bytesRead - i
    {
      if i + sampleSizeInBytes <= bytesRead {
        var channelSample := ReadSample(buffer, i, sampleSizeInBytes, fmt.bigEndian);
        assert buffer[i..i + sampleSizeInBytes] == chunk[i..i + sampleSizeInBytes];
        FirstChannelTaken(fmt, chunk, i, channelSample);
        sample := sample + Abs(channelSample);
        samplesProcessed := samplesProcessed + 1;
      } else {
        FirstChannelSkipped(fmt, chunk, i);
      }
      i := i + step;
    }
  }

  /** The `w`-byte sample at `i`, assembled and normalised. */
  method ReadSample(buffer: array<Byte>, i: nat, w: nat, bigEndian: bool) returns (channelSample: real)
    requires i + w <= buffer.Length
    ensures channelSample == NormalizedSample(buffer[i..i + w], bigEndian)
  {
    var sampleValue := AssembleSample(buffer, i, w, bigEndian);
    channelSample := ConvertSample(sampleValue, w);
  }

  /** One frame of the loop with a complete first-channel sample `x` at
      `i`: its magnitude joins the sum and the count grows by one. */
  lemma FirstChannelTaken(fmt: Format, chunk: seq<Byte>, i: nat, x: real)
    requires FrameBytes(fmt) > 0 && i + SampleBytes(fmt) <= |chunk|
    requires x == NormalizedSample(chunk[i..i + SampleBytes(fmt)], fmt.bigEndian)
    ensures var xs := FirstChannelSamples(fmt, chunk, i);
      var rest := FirstChannelSamples(fmt, chunk, i + FrameBytes(fmt));
      SumAbs(xs) == Abs(x) + SumAbs(rest) && |xs| == 1 + |rest|
  {
    SumAbsCons(x, FirstChannelSamples(fmt, chunk, i + FrameBytes(fmt)));
  }

  /** One frame of the loop whose first-channel sample is cut off by the
      end of the read adds nothing. */
  lemma FirstChannelSkipped(fmt: Format, chunk: seq<Byte>, i: nat)
    requires FrameBytes(fmt) > 0 && i < |chunk| < i + SampleBytes(fmt)
    ensures FirstChannelSamples(fmt, chunk, i) == FirstChannelSamples(fmt, chunk, i + FrameBytes(fmt))
  {
    assert [] + FirstChannelSamples(fmt, chunk, i + FrameBytes(fmt)) == FirstChannelSamples(fmt, chunk, i + FrameBytes(fmt));
  }

  /** `extractWaveformData`: read the stream into one buffer of
      `BufferSize` bytes, and for each positive read average the magnitude
      of the first-channel sample of each complete frame. */
  method ExtractWaveformData(fmt: Format, totalFrames: int, chunks: seq<seq<Byte>>) returns (data: seq<real>)
    requires ReadsFit(fmt, totalFrames, chunks)
    ensures data == Envelope(fmt, totalFrames, chunks)
  {
    data := [];
    var buffer := new Byte[BufferSize(fmt, totalFrames)];
    var r := 0;
    while r < |chunks| && |chunks[r]| > 0
      invariant 0 <= r <= |chunks|
      invariant data + Envelope(fmt, totalFrames, chunks[r..]) == Envelope(fmt, totalFrames, chunks)
    {
      FrameBytesPositive(fmt, totalFrames, |chunks[r]|);
      var point := ReadPoint(fmt, buffer, chunks[r]);
      EnvelopeAdvance(fmt, totalFrames, chunks, r, data, point);
      data := data + point;
      r := r + 1;
    }
    if r < |chunks| {
      assert Envelope(fmt, totalFrames, chunks[r..]) == [];
    }
  }

  /** One read of the loop: copy it into the buffer and average the
      magnitudes of its complete first-channel samples, if it has any. */
  method ReadPoint(fmt: Format, buffer: array<Byte>, chunk: seq<Byte>) returns (point: seq<real>)
    requires FrameBytes(fmt) > 0 && |chunk| <= buffer.Length
    modifies buffer
    ensures point == (var p := ChunkPoint(fmt, chunk); if p.Some? then [p.value] else [])
  {
    ReadInto(buffer, chunk);
    var sample, samplesProcessed := SumFirstChannel(fmt, buffer, |chunk|);
    if samplesProcessed > 0 {
      point := [sample / samplesProcessed as real];
    } else {
      point := [];
    }
  }

  lemma {:induction false} SumAbsCons(x: real, xs: seq<real>)
    ensures SumAbs([x] + xs) == Abs(x) + SumAbs(xs)
    decreases |xs|
  {
    if xs != [] {
      var ys := [x] + xs;
      assert ys[..|ys| - 1] == [x] + xs[..|xs| - 1];
      SumAbsCons(x, xs[..|xs| - 1]);
    }
  }

  lemma {:induction false} SumAbsBound(xs: seq<real>)
    requires forall k :: 0 <= k < |xs| ==> -1.0 <= xs[k] <= 1.0
    ensures 0.0 <= SumAbs(xs) <= |xs| as real
  {
    if xs != [] {
      SumAbsBound(xs[..|xs| - 1]);
    }
  }

  lemma {:induction false} SamplesNormalized(fmt: Format, chunk: seq<Byte>, i: nat)
    requires FrameBytes(fmt) > 0 && NormalizedWidth(SampleBytes(fmt))
    ensures forall k :: 0 <= k < |FirstChannelSamples(fmt, chunk, i)| ==>
      -1.0 <= FirstChannelSamples(fmt, chunk, i)[k] <= 1.0
    decreases |chunk| - i
  {
    if i < |chunk| {
      var w := SampleBytes(fmt);
      if i + w <= |chunk| {
        SampleIsTwosComplement(chunk[i..i + w], fmt.bigEndian);
      }
      SamplesNormalized(fmt, chunk, i + FrameBytes(fmt));
    }
  }

  /** For 8-, 16- and 32-bit samples every envelope point lies in [0, 1],
      and there is never more than one point per read. */
  lemma {:induction false} EnvelopeInUnitRange(fmt: Format, totalFrames: int, chunks: seq<seq<Byte>>)
    requires ReadsFit(fmt, totalFrames, chunks)
    requires NormalizedWidth(SampleBytes(fmt))
    ensures |Envelope(fmt, totalFrames, chunks)| <= |chunks|
    ensures forall k :: 0 <= k < |Envelope(fmt, totalFrames, chunks)| ==>
      0.0 <= Envelope(fmt, totalFrames, chunks)[k] <= 1.0
  {
    if chunks != [] && |chunks[0]| > 0 {
      FrameBytesPositive(fmt, totalFrames, |chunks[0]|);
      var p := ChunkPoint(fmt, chunks[0]);
      var head: seq<real> := if p.Some? then [p.value] else [];
      var rest := Envelope(fmt, totalFrames, chunks[1..]);
      assert Envelope(fmt, totalFrames, chunks) == head + rest;
      if p.Some? {
        ChunkPointInUnitRange(fmt, chunks[0]);
      }
      EnvelopeInUnitRange(fmt, totalFrames, chunks[1..]);
    }
  }

  lemma ChunkPointInUnitRange(fmt: Format, chunk: seq<Byte>)
    requires FrameBytes(fmt) > 0 && NormalizedWidth(SampleBytes(fmt))
    ensures ChunkPoint(fmt, chunk).Some? ==> 0.0 <= ChunkPoint(fmt, chunk).value <= 1.0
  {
    var xs := FirstChannelSamples(fmt, chunk, 0);
    SamplesNormalized(fmt, chunk, 0);
    SumAbsBound(xs);
    if |xs| > 0 {
      MeanInUnitRange(SumAbs(xs), |xs|);
    }
  }

  lemma MeanInUnitRange(total: real, n: nat)
    requires n > 0 && 0.0 <= total <= n as real
    ensures 0.0 <= total / n as real <= 1.0
  {}

  /** A read of no bytes ends extraction: nothing after it contributes. */
  lemma {:induction false} EmptyReadEndsExtraction(fmt: Format, totalFrames: int, chunks: seq<seq<Byte>>, k: nat)
    requires ReadsFit(fmt, totalFrames, chunks)
    requires k < |chunks| && chunks[k] == []
    ensures Envelope(fmt, totalFrames, chunks) == Envelope(fmt, totalFrames, chunks[..k])
  {
    if k > 0 && |chunks[0]| > 0 {
      assert chunks[..k][1..] == chunks[1..][..k - 1];
      EmptyReadEndsExtraction(fmt, totalFrames, chunks[1..], k - 1);
    }
  }

  /** The successive chunks an in-memory stream of whole frames returns:
      full buffers, then the remainder. */
  function FullReads(data: seq<Byte>, size: nat): (rs: seq<seq<Byte>>)
    requires size > 0
    ensures forall k :: 0 <= k < |rs| ==> 0 < |rs[k]| <= size
    decreases |data|
  {
    if data == [] then []
    else if |data| <= size then [data]
    else [data[..size]] + FullReads(data[size..], size)
  }

  /** The first channel sample of every frame of a frame-aligned read is
      complete, so such a read always yields a point. */
  lemma AlignedChunkHasPoint(fmt: Format, chunk: seq<Byte>)
    requires FrameBytes(fmt) > 0 && 0 < |chunk| && |chunk| % FrameBytes(fmt) == 0
    ensures ChunkPoint(fmt, chunk).Some?
  {
    var w := SampleBytes(fmt);
    assert FrameBytes(fmt) <= |chunk|;
    assert w <= FrameBytes(fmt) by {
      assert fmt.channels >= 1;
      assert w * fmt.channels >= w * 1;
    }
  }

  lemma {:induction false} FullReadsAligned(data: seq<Byte>, size: nat, f: nat)
    requires size > 0 && f > 0 && size % f == 0 && |data| % f == 0
    ensures forall k :: 0 <= k < |FullReads(data, size)| ==> |FullReads(data, size)[k]| % f == 0
    ensures |FullReads(data, size)| * size >= |data| > (|FullReads(data, size)| - 1) * size
    decreases |data|
  {
    if |data| > size {
      var rest := data[size..];
      ModDifference(|data|, size, f);
      FullReadsAligned(rest, size, f);
      var n := |FullReads(rest, size)|;
      assert |FullReads(data, size)| == n + 1;
      assert (n + 1) * size == n * size + size;
      assert (n + 1 - 1) * size == (n - 1) * size + size;
    }
  }

  /** With full chunks of a frame-aligned stream, the envelope has exactly
      one point per read: the number of buffer-sized pieces of the data. */
  lemma {:induction false} FullReadsPointCount(fmt: Format, totalFrames: int, data: seq<Byte>)
    requires BufferSize(fmt, totalFrames) > 0
    requires |data| % FrameBytes(fmt) == 0
    ensures ReadsFit(fmt, totalFrames, FullReads(data, BufferSize(fmt, totalFrames)))
    ensures var n := |Envelope(fmt, totalFrames, FullReads(data, BufferSize(fmt, totalFrames)))|;
      n * BufferSize(fmt, totalFrames) >= |data| > (n - 1) * BufferSize(fmt, totalFrames)
    decreases |data|
  {
    var size := BufferSize(fmt, totalFrames);
    FrameBytesPositive(fmt, totalFrames, size);
    var f := FrameBytes(fmt);
    assert size == FramesPerPoint(totalFrames) * f;
    assert size % f == 0 by { ModMultiple(FramesPerPoint(totalFrames), f); }
    FullReadsAligned(data, size, f);
    var rs := FullReads(data, size);
    AlignedReadsOnePointEach(fmt, totalFrames, rs);
  }

  lemma {:induction false} AlignedReadsOnePointEach(fmt: Format, totalFrames: int, rs: seq<seq<Byte>>)
    requires FrameBytes(fmt) > 0
    requires ReadsFit(fmt, totalFrames, rs)
    requires forall k :: 0 <= k < |rs| ==> 0 < |rs[k]| && |rs[k]| % FrameBytes(fmt) == 0
    ensures |Envelope(fmt, totalFrames, rs)| == |rs|
  {
    if rs != [] {
      AlignedChunkHasPoint(fmt, rs[0]);
      AlignedReadsOnePointEach(fmt, totalFrames, rs[1..]);
    }
  }

  /** The point count that "about 1000 points" actually gives for a stream
      of `frames` whole frames read in full buffers: exactly `frames` below
      2000 frames, at least 1000 from 1000 frames on, and below 2000 until
      the `(int)` cast of frames per point wraps at 1000·2^31 frames. */
  lemma PointCountForFrames(fmt: Format, frames: nat, data: seq<Byte>)
    requires FrameBytes(fmt) > 0 && |data| == frames * FrameBytes(fmt)
    ensures BufferSize(fmt, frames) > 0
    ensures ReadsFit(fmt, frames, FullReads(data, BufferSize(fmt, frames)))
    ensures var n := |Envelope(fmt, frames, FullReads(data, BufferSize(fmt, frames)))|;
      (frames < 2 * TargetPoints ==> n == frames) &&
      (frames >= TargetPoints ==> TargetPoints <= n) &&
      (TargetPoints <= frames < TargetPoints * IntHalf ==> n < 2 * TargetPoints)
  {
    var f := FrameBytes(fmt);
    var p := FramesPerPoint(frames);
    var size := BufferSize(fmt, frames);
    MulAssoc(p, fmt.channels, SampleBytes(fmt));
    MulCommute(fmt.channels, SampleBytes(fmt));
    PositiveProduct(p, f);
    ModMultiple(frames, f);
    FullReadsPointCount(fmt, frames, data);
    var n := |Envelope(fmt, frames, FullReads(data, size))|;
    MulAssoc(n, p, f);
    MulAssoc(n - 1, p, f);
    CancelFactor(n * p, frames, f);
    CancelFactorStrict(frames, (n - 1) * p, f);
    BlocksForFrames(frames, n);
  }

  /** `n` blocks of `FramesPerPoint(frames)` frames are just enough for
      `frames` frames exactly when `n` is the count stated above. */
  lemma BlocksForFrames(frames: nat, n: int)
    requires var p := FramesPerPoint(frames); n * p >= frames > (n - 1) * p
    ensures frames < 2 * TargetPoints ==> n == frames
    ensures frames >= TargetPoints ==> TargetPoints <= n
    ensures TargetPoints <= frames < TargetPoints * IntHalf ==> n < 2 * TargetPoints
  {
    var p := FramesPerPoint(frames);
    if frames >= TargetPoints {
      if n < TargetPoints {
        MulMonotone(n, TargetPoints - 1, p);
        MulMonotone(p, frames / TargetPoints, TargetPoints - 1);
        LastMultiple(frames, TargetPoints);
        assert false;
      }
      if frames < TargetPoints * IntHalf {
        assert frames < TargetPoints * p + TargetPoints;
        if n >= 2 * TargetPoints {
          MulMonotone(2 * TargetPoints - 1, n - 1, p);
        }
      }
    }
  }

  function Clamp(p: real): (r: real)
    ensures 0.0 <= r <= 1.0
    ensures 0.0 <= p <= 1.0 ==> r == p
    ensures p < 0.0 ==> r == 0.0
    ensures p > 1.0 ==> r == 1.0
  {
    if p < 0.0 then 0.0 else if p > 1.0 then 1.0 else p
  }

  /** The component's state: envelope, playback progress and the duration
      the timeline is drawn for. */
  class WaveformComponent {
    var waveformData: seq<real>
    var progress: real
    var audioDurationMicros: int

    constructor ()
      ensures waveformData == [] && progress == 0.0 && audioDurationMicros == 0
    {
      waveformData := [];
      progress := 0.0;
      audioDurationMicros := 0;
    }

    /** `setWaveformData`: the envelope is rebuilt wholesale from the
        stream, and a stream that knows its length sets the duration. */
    method SetWaveformData(fmt: Format, totalFrames: int, chunks: seq<seq<Byte>>)
      requires ReadsFit(fmt, totalFrames, chunks)
      modifies this
      ensures waveformData == Envelope(fmt, totalFrames, chunks)
      ensures audioDurationMicros ==
        if totalFrames != NotSpecified then StreamDurationMicros(totalFrames, fmt.frameRate)
        else old(audioDurationMicros)
      ensures progress == old(progress)
    {
      waveformData := ExtractWaveformData(fmt, totalFrames, chunks);
      if totalFrames != NotSpecified {
        audioDurationMicros := StreamDurationMicros(totalFrames, fmt.frameRate);
      }
    }

    method SetAudioDuration(durationMicros: int)
      modifies this
      ensures audioDurationMicros == durationMicros
      ensures waveformData == old(waveformData) && progress == old(progress)
    {
      audioDurationMicros := durationMicros;
    }

    /** `setProgress` clamps to [0, 1]. */
    method SetProgress(p: real)
      modifies this
      ensures progress == Clamp(p)
      ensures waveformData == old(waveformData) && audioDurationMicros == old(audioDurationMicros)
    {
      progress := Clamp(p);
    }

    /** A press at `x` on a component `width` pixels wide moves the progress
      and yields the seek fraction, but only once there is an envelope. */
    method MousePressed(x: int, width: int) returns (seek: Option<real>)
      requires width > 0
      modifies this
      ensures old(waveformData) == [] ==> seek == None && progress == old(progress)
      ensures old(waveformData) != [] ==>
        seek == Some(Clamp(x as real / width as real)) && progress == seek.value
      ensures seek.Some? ==> 0.0 <= seek.value <= 1.0
      ensures waveformData == old(waveformData) && audioDurationMicros == old(audioDurationMicros)
    {
      if waveformData != [] {
        var newProgress := Clamp(x as real / width as real);
        progress := Clamp(newProgress);
        seek := Some(newProgress);
      } else {
        seek := None;
      }
    }
  }
}

/** The timeline of `WaveformComponent`: interval choice, label format and
    the marker loop of `drawTimeline`. */
module Timeline {
  import opened Decimal
  import opened Options
  import opened JavaArith
  import opened Arith

  /** Clips up to this many seconds (about 95,000 years) keep every
      intermediate of the marker arithmetic inside Java's `int` and `long`. */
  const MaxTotalSeconds: int := 3_000_000_000_000

  /** The "nice" interval for `totalSeconds / 10` before the width check. */
  function BaseInterval(baseIntervalSeconds: int): int
  {
    if baseIntervalSeconds <= 1 then 1
    else if baseIntervalSeconds <= 5 then
      (if baseIntervalSeconds <= 2 then 1 else if baseIntervalSeconds <= 3 then 2 else 5)
    else if baseIntervalSeconds <= 30 then
      (if baseIntervalSeconds <= 7 then 5 else if baseIntervalSeconds <= 12 then 10
       else if baseIntervalSeconds <= 20 then 15 else 30)
    else if baseIntervalSeconds <= 300 then
      (if baseIntervalSeconds <= 60 then 30 else if baseIntervalSeconds <= 90 then 60
       else if baseIntervalSeconds <= 180 then 120 else 300)
    else
      var baseIntervalMinutes := baseIntervalSeconds / 60;
      if baseIntervalMinutes <= 7 then 300 else if baseIntervalMinutes <= 12 then 600
      else if baseIntervalMinutes <= 20 then 900 else 1800
  }

  predicate InSnapTable(s: int) {
    s in {1, 2, 5, 10, 15, 30, 60, 120, 300, 600, 900, 1800}
  }

  /** An interval either stage can produce: a table value, or a whole
      number of five-minute steps beyond ten minutes. */
  predicate NiceInterval(s: int) {
    InSnapTable(s) || (s > 600 && s % 300 == 0)
  }

  /** The first-stage interval only takes table values and never shrinks
      as the clip grows. */
  lemma BaseIntervalMonotone(a: int, b: int)
    requires a <= b
    ensures InSnapTable(BaseInterval(a)) && InSnapTable(BaseInterval(b))
    ensures BaseInterval(a) <= BaseInterval(b)
  {
    if a > 300 {
      assert a / 60 <= b / 60;
    }
  }

  /** The re-snap of an interval that would overcrowd the axis; the last
      step is `long` arithmetic and wraps for values near `Long.MAX_VALUE`. */
  function CrowdedInterval(intervalSeconds: int): (r: int)
    ensures intervalSeconds <= LongMax - 300 ==> r >= intervalSeconds && r > 0 && NiceInterval(r)
    ensures intervalSeconds <= LongMax - 300 ==> r <= 600 || r <= intervalSeconds + 300
  {
    if intervalSeconds <= 5 then 5
    else if intervalSeconds <= 10 then 10
    else if intervalSeconds <= 30 then 30
    else if intervalSeconds <= 60 then 60
    else if intervalSeconds <= 300 then 300
    else if intervalSeconds <= 600 then 600
    else JavaLong(((intervalSeconds / 300) + 1) * 300)
  }

  /** Ceiling division, `Math.ceil((double) a / b)` for exact operands. */
  function CeilDiv(a: nat, b: nat): (r: nat)
    requires b > 0
    ensures r * b >= a && (r == 0 || (r - 1) * b < a)
  {
    (a + b - 1) / b
  }

  /** The interval `calculateOptimalInterval` settles on, in seconds. With
      fewer than 50 pixels `maxMarkers` is 0, the `double` division gives
      infinity and its cast to `long` gives `Long.MAX_VALUE`. */
  function IntervalSeconds(totalSeconds: int, width: int): int
    requires 0 <= totalSeconds <= LongMax && width >= 0
  {
    var intervalSeconds := BaseInterval(totalSeconds / 10);
    var estimatedMarkers := JavaInt(totalSeconds / intervalSeconds);
    var maxMarkers := width / 50;
    if estimatedMarkers > maxMarkers then
      CrowdedInterval(if maxMarkers == 0 then LongMax else CeilDiv(totalSeconds, maxMarkers))
    else intervalSeconds
  }

  /** `calculateOptimalInterval`: the interval in microseconds, as a `long`. */
  function CalculateOptimalInterval(totalSeconds: int, width: int): int
    requires 0 <= totalSeconds <= LongMax && width >= 0
  {
    JavaLong(IntervalSeconds(totalSeconds, width) * 1_000_000)
  }

  /** The first-stage marker estimate never leaves the `int` range. */
  lemma EstimateFitsInt(totalSeconds: int)
    requires 0 <= totalSeconds <= MaxTotalSeconds
    ensures 0 <= totalSeconds / BaseInterval(totalSeconds / 10) < IntHalf
  {
    var b := BaseInterval(totalSeconds / 10);
    BaseIntervalMonotone(0, totalSeconds / 10);
    if b != 1800 {
      assert totalSeconds < 12_600;
      DivBound(totalSeconds, b);
    }
  }

  /** With room for at least one marker the interval is a nice one in whole
      seconds, leaves at most `width / 50` gaps, is the table value when
      that already fits, and otherwise at least `ceil(totalSeconds /
      (width / 50))`. */
  lemma WideIntervalChoice(totalSeconds: int, width: int)
    requires 0 <= totalSeconds <= MaxTotalSeconds && width >= 50
    ensures var s := IntervalSeconds(totalSeconds, width);
      CalculateOptimalInterval(totalSeconds, width) == s * 1_000_000 &&
      s > 0 && NiceInterval(s) && totalSeconds / s <= width / 50
    ensures var base := BaseInterval(totalSeconds / 10);
      var s := IntervalSeconds(totalSeconds, width);
      (totalSeconds / base <= width / 50 ==> s == base) &&
      (totalSeconds / base > width / 50 ==> s >= CeilDiv(totalSeconds, width / 50))
  {
    var base := BaseInterval(totalSeconds / 10);
    BaseIntervalMonotone(0, totalSeconds / 10);
    EstimateFitsInt(totalSeconds);
    var maxMarkers := width / 50;
    var s := IntervalSeconds(totalSeconds, width);
    if totalSeconds / base > maxMarkers {
      CrowdedChoice(totalSeconds, maxMarkers);
    }
    assert 0 < s <= MaxTotalSeconds + 1_800;
  }

  /** The width check's re-snap covers `ceil(totalSeconds / maxMarkers)`
      with a nice interval no more than one step above it. */
  lemma CrowdedChoice(totalSeconds: int, maxMarkers: int)
    requires 0 <= totalSeconds <= MaxTotalSeconds && maxMarkers >= 1
    ensures var s := CrowdedInterval(CeilDiv(totalSeconds, maxMarkers));
      s >= CeilDiv(totalSeconds, maxMarkers) && NiceInterval(s) &&
      0 < s <= MaxTotalSeconds + 600 && totalSeconds / s <= maxMarkers
  {
    var c := CeilDiv(totalSeconds, maxMarkers);
    if c > 0 {
      MulMonotone(1, maxMarkers, c - 1);
    }
    assert c <= totalSeconds;
    var s := CrowdedInterval(c);
    CrowdedFits(totalSeconds, maxMarkers, s);
  }

  lemma CrowdedFits(totalSeconds: nat, maxMarkers: nat, chosen: int)
    requires chosen > 0 && maxMarkers > 0 && chosen >= CeilDiv(totalSeconds, maxMarkers)
    ensures totalSeconds / chosen <= maxMarkers
  {
    var c := CeilDiv(totalSeconds, maxMarkers);
    MulMonotone(c, chosen, maxMarkers);
    var q := totalSeconds / chosen;
    LastMultiple(totalSeconds, chosen);
    MulSucc(maxMarkers, chosen);
    MulCommute(chosen, maxMarkers);
    if q > maxMarkers {
      MulMonotone(maxMarkers + 1, q, chosen);
    }
  }

  /** Below 50 pixels a clip long enough for one first-stage marker gets
      the wrapped-around interval: the round-up of `Long.MAX_VALUE`
      overflows, and so does its conversion to microseconds, which lands
      on 292 seconds whatever the clip's length. */
  lemma NarrowIntervalChoice(totalSeconds: int, width: int)
    requires 0 <= totalSeconds <= MaxTotalSeconds && 0 <= width < 50
    ensures totalSeconds / BaseInterval(totalSeconds / 10) == 0 ==>
      CalculateOptimalInterval(totalSeconds, width) == BaseInterval(totalSeconds / 10) * 1_000_000
    ensures totalSeconds / BaseInterval(totalSeconds / 10) > 0 ==>
      IntervalSeconds(totalSeconds, width) < 0 &&
      CalculateOptimalInterval(totalSeconds, width) == 292_000_000
  {
    BaseIntervalMonotone(0, totalSeconds / 10);
    EstimateFitsInt(totalSeconds);
    assert CrowdedInterval(LongMax) == -9_223_372_036_854_775_516;
    assert JavaLong(-9_223_372_036_854_775_516 * 1_000_000) == 292_000_000;
  }

  /** Whatever the width, the timeline step is a positive whole number of
      seconds, so the marker loop advances. */
  lemma IntervalPositive(totalSeconds: int, width: int)
    requires 0 <= totalSeconds <= MaxTotalSeconds && width >= 0
    ensures CalculateOptimalInterval(totalSeconds, width) > 0
    ensures CalculateOptimalInterval(totalSeconds, width) % 1_000_000 == 0
  {
    if width >= 50 {
      WideIntervalChoice(totalSeconds, width);
      ModMultiple(IntervalSeconds(totalSeconds, width), 1_000_000);
    } else {
      NarrowIntervalChoice(totalSeconds, width);
      var base := BaseInterval(totalSeconds / 10);
      BaseIntervalMonotone(0, totalSeconds / 10);
      if totalSeconds / base == 0 {
        ModMultiple(base, 1_000_000);
      }
    }
  }

  /** `formatTime` of the waveform timeline: `m:ss.mmm`. */
  function FormatTime(micros: nat): string
  {
    var totalSeconds := micros / 1_000_000;
    var minutes := totalSeconds / 60;
    var seconds := totalSeconds % 60;
    var milliseconds := (micros % 1_000_000) / 1_000;
    NatToString(minutes) + ":" + ZeroPad(seconds, 2) + "." + ZeroPad(milliseconds, 3)
  }

  datatype TimeFields = TimeFields(minutes: nat, seconds: nat, millis: nat)

  /** Reads a `m:ss.mmm` label back into its three fields. */
  function ParseTime(s: string): Option<TimeFields>
  {
    if |s| >= 8 && s[|s| - 7] == ':' && s[|s| - 4] == '.' &&
       AllDigits(s[..|s| - 7]) && AllDigits(s[|s| - 6..|s| - 4]) && AllDigits(s[|s| - 3..])
    then Some(TimeFields(ParseNat(s[..|s| - 7]), ParseNat(s[|s| - 6..|s| - 4]), ParseNat(s[|s| - 3..])))
    else None
  }

  lemma FormatTimeParses(micros: nat)
    ensures var totalSeconds := micros / 1_000_000;
      ParseTime(FormatTime(micros)) ==
      Some(TimeFields(totalSeconds / 60, totalSeconds % 60, (micros % 1_000_000) / 1_000))
  {
    var totalSeconds := micros / 1_000_000;
    var minutes := totalSeconds / 60;
    var seconds := totalSeconds % 60;
    var milliseconds := (micros % 1_000_000) / 1_000;
    var m := NatToString(minutes);
    var ss := ZeroPad(seconds, 2);
    var ms := ZeroPad(milliseconds, 3);
    ZeroPadRoundTrip(seconds, 2);
    ZeroPadRoundTrip(milliseconds, 3);
    ParseNatToString(minutes);
    var s := m + ":" + ss + "." + ms;
    assert s == FormatTime(micros);
    assert s[..|s| - 7] == m;
    assert s[|s| - 6..|s| - 4] == ss;
    assert s[|s| - 3..] == ms;
  }

  lemma TimeFieldsSum(micros: nat)
    ensures var totalSeconds := micros / 1_000_000;
      (totalSeconds / 60) * 60_000_000 + (totalSeconds % 60) * 1_000_000 +
      ((micros % 1_000_000) / 1_000) * 1_000 == micros - micros % 1_000
  {
    var t := micros / 1_000_000;
    var a := micros % 1_000_000;
    var ms := a / 1_000;
    var b := a % 1_000;
    assert micros == 1_000 * (1_000 * t + ms) + b;
    DivUnique(micros, 1_000, 1_000 * t + ms, b);
  }

  /** A label reads back as minutes, seconds below 60 and milliseconds
      below 1000 that add up to the time truncated to the millisecond. */
  lemma FormatTimeRoundTrip(micros: nat)
    ensures ParseTime(FormatTime(micros)).Some?
    ensures var f := ParseTime(FormatTime(micros)).value;
      f.seconds < 60 && f.millis < 1000 &&
      f.minutes * 60_000_000 + f.seconds * 1_000_000 + f.millis * 1_000 == micros - micros % 1_000
  {
    FormatTimeParses(micros);
    TimeFieldsSum(micros);
  }

  /** A timeline marker: a tick at `timeMicros` with its time drawn beside it. */
  datatype Tick = Tick(timeMicros: int)
  {
    function Label(): string
      requires timeMicros >= 0
    {
      FormatTime(timeMicros)
    }
  }

  /** The markers from `time` on: one at each step up to and including the
      last one within `durationMicros`. */
  function Markers(time: nat, step: nat, durationMicros: int): seq<Tick>
    requires step > 0
    decreases durationMicros - time
  {
    if time > durationMicros then []
    else [Tick(time)] + Markers(time + step, step, durationMicros)
  }

  /** There are `(d - time) / step + 1` markers from `time` on, or none
      once `time` is past the duration. */
  lemma {:induction false} MarkersCount(time: nat, step: nat, d: int)
    requires step > 0
    ensures |Markers(time, step, d)| == if time > d then 0 else (d - time) / step + 1
    decreases d - time
  {
    if time <= d {
      MarkersCount(time + step, step, d);
      CountStep(time, step, d);
    }
  }

  /** The count formula gains one for each step back towards 0. */
  lemma CountStep(time: nat, step: nat, d: int)
    requires step > 0 && time <= d
    ensures (if time + step > d then 0 else (d - time - step) / step + 1) + 1 == (d - time) / step + 1
  {
    if time + step > d {
      DivUnique(d - time, step, 0, d - time);
    } else {
      DivSub(d - time, step);
    }
  }

  /** The k-th marker from `time` on sits at `time + k * step`. */
  lemma {:induction false} MarkersAt(time: nat, step: nat, d: int, k: nat)
    requires step > 0 && k < |Markers(time, step, d)|
    ensures Markers(time, step, d)[k].timeMicros == time + k * step
    decreases k
  {
    if k > 0 {
      MarkersTail(time, step, d, k);
      MarkersAt(time + step, step, d, k - 1);
      MulSucc(k - 1, step);
    }
  }

  /** Past the first, the k-th marker from `time` is the (k-1)-th from the next step. */
  lemma MarkersTail(time: nat, step: nat, d: int, k: nat)
    requires step > 0 && 0 < k < |Markers(time, step, d)|
    ensures k - 1 < |Markers(time + step, step, d)|
    ensures Markers(time, step, d)[k] == Markers(time + step, step, d)[k - 1]
  {
  }

  lemma MarkersIncreasing(step: nat, m: seq<Tick>)
    requires step > 0 && forall k :: 0 <= k < |m| ==> m[k].timeMicros == k * step
    ensures forall k, l :: 0 <= k < l < |m| ==> m[k].timeMicros < m[l].timeMicros
  {
    forall k, l | 0 <= k < l < |m|
      ensures m[k].timeMicros < m[l].timeMicros
    {
      MulSucc(k, step);
      MulMonotone(k + 1, l, step);
    }
  }

  /** From 0, the markers are the `d / step + 1` multiples of `step` not
      above `d`, each labelled with its own time, in increasing order. */
  lemma TimelineShape(step: nat, d: nat)
    requires step > 0
    ensures var m := Markers(0, step, d);
      |m| == d / step + 1 &&
      (forall k :: 0 <= k < |m| ==> m[k].timeMicros == k * step) &&
      m[|m| - 1].timeMicros <= d < m[|m| - 1].timeMicros + step &&
      (forall k, l :: 0 <= k < l < |m| ==> m[k].timeMicros < m[l].timeMicros)
  {
    var m := Markers(0, step, d);
    MarkersCount(0, step, d);
    forall k | 0 <= k < |m|
      ensures m[k].timeMicros == k * step
    {
      MarkersAt(0, step, d, k);
    }
    MarkersIncreasing(step, m);
    LastMultiple(d, step);
  }

  /** The `for` loop of `drawTimeline`: a marker at every step from 0
      while the time stays within the duration. */
  method MarkerLoop(durationMicros: int, intervalMicros: nat) returns (ticks: seq<Tick>)
    requires intervalMicros > 0
    ensures ticks == Markers(0, intervalMicros, durationMicros)
  {
    ticks := [];
    var time := 0;
    while time <= durationMicros
      invariant time >= 0
      invariant ticks + Markers(time, intervalMicros, durationMicros) == Markers(0, intervalMicros, durationMicros)
      decreases durationMicros - time
    {
      ticks := ticks + [Tick(time)];
      time := time + intervalMicros;
    }
  }

  /** The marker loop of `drawTimeline`: nothing for a non-positive
      duration, otherwise a marker at 0, interval, 2 * interval, ... up to
      and including the last multiple of the interval within the duration. */
  method DrawTimeline(durationMicros: int, width: int) returns (ticks: seq<Tick>)
    requires width >= 0 && durationMicros <= MaxTotalSeconds * 1_000_000
    ensures durationMicros <= 0 ==> ticks == []
    ensures durationMicros > 0 ==>
      var step := CalculateOptimalInterval(durationMicros / 1_000_000, width);
      step > 0 && step % 1_000_000 == 0 && ticks == Markers(0, step, durationMicros) &&
      |ticks| == durationMicros / step + 1 &&
      (forall k :: 0 <= k < |ticks| ==> ticks[k].timeMicros == k * step) &&
      ticks[|ticks| - 1].timeMicros <= durationMicros < ticks[|ticks| - 1].timeMicros + step
  {
    ticks := [];
    if durationMicros <= 0 {
      return;
    }
    var totalSeconds := durationMicros / 1_000_000;
    IntervalPositive(totalSeconds, width);
    var intervalMicros := CalculateOptimalInterval(totalSeconds, width);
    ticks := MarkerLoop(durationMicros, intervalMicros);
    TimelineShape(intervalMicros, durationMicros);
  }
}
