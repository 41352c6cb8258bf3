/** `MP3WaveformExtractor.extractWaveform`: the loop over decoded MP3
    frames that gathers at most 2000 amplitude points and packs every
    decoded sample as 16-bit little-endian bytes. The decoder itself is
    replaced by the sequence of outcomes its frame calls produce. */
module Mp3Extract {
  import opened Pcm

  /** A Java `short`. */
  type Short = x: int | -0x8000 <= x < 0x8000

  /** A decoder's channel count, which is at least one. */
  type ChannelCount = c: int | c >= 1 witness 1

  const MaxSamples: int := 2000
  const ShortMax: int := 32767

  /** What one pass of the frame loop meets. */
  datatype FrameEvent =
    | EndOfStream   // `readFrame` returned no header
    | NoOutput      // `decodeFrame` returned no buffer
    | FrameFailure  // an exception inside the loop body
    | OtherOutput   // an output buffer that is not a `SampleBuffer`
    | Decoded(samples: seq<Short>, channels: ChannelCount)

  predicate Stops(e: FrameEvent) {
    e.EndOfStream? || e.NoOutput? || e.FrameFailure?
  }

  /** `Math.abs` on a `short` widened to `int`. */
  function Abs(s: Short): nat { if s < 0 then -(s as int) else s as int }

  /** The sum of `|samples[i + ch]|` over the first `n` channels of the
      interleaved frame at `i`, skipping those past the end. */
  function ChannelSum(samples: seq<Short>, i: nat, n: nat): nat
  {
    if n == 0 then 0
    else ChannelSum(samples, i, n - 1) + (if i + n - 1 < |samples| then Abs(samples[i + n - 1]) else 0)
  }

  /** The point of the interleaved frame at `i`: the channel sum divided by
      the channel count (present or not) and by `Short.MAX_VALUE`. */
  function Amplitude(samples: seq<Short>, channels: ChannelCount, i: nat): real
  {
    ChannelSum(samples, i, channels) as real / channels as real / ShortMax as real
  }

  /** One point per interleaved frame from `i` on, with no cap. */
  function FrameAmplitudes(samples: seq<Short>, channels: ChannelCount, i: nat): (r: seq<real>)
    ensures i >= |samples| ==> r == []
    decreases |samples| - i
  {
    if i >= |samples| then [] else [Amplitude(samples, channels, i)] + FrameAmplitudes(samples, channels, i + channels)
  }

  /** The first `n` elements, or all when there are fewer. */
  function Take<T>(xs: seq<T>, n: int): (r: seq<T>)
    ensures |r| <= |xs| && (n >= 0 ==> |r| <= n) && r == xs[..|r|]
    ensures |r| == if n <= 0 then 0 else if n >= |xs| then |xs| else n
  {
    if n <= 0 then [] else if n >= |xs| then xs else xs[..n]
  }

  /** `(byte) (s & 0xFF)`, read unsigned. */
  function LowByte(s: Short): Byte { s % 256 }

  /** `(byte) ((s >> 8) & 0xFF)`, read unsigned: `>>` is an arithmetic
      shift, which is floor division by 256. */
  function HighByte(s: Short): Byte { (s / 256) % 256 }

  /** The 16-bit little-endian bytes of `samples`, low byte first. */
  function Pack(samples: seq<Short>): (r: seq<Byte>)
    ensures |r| == 2 * |samples|
  {
    if samples == [] then []
    else Pack(samples[..|samples| - 1]) + [LowByte(samples[|samples| - 1]), HighByte(samples[|samples| - 1])]
  }

  /** What the loop has gathered: the point list and the bytes written to
      the output buffer. */
  datatype Extraction = Extraction(points: seq<real>, bytes: seq<Byte>)

  /** The loop from a given state: stop at the first stop event (or when
      the events run out), skip non-sample buffers, and otherwise add the
      frame's points while there is room and all of its bytes. */
  function Run(frames: seq<FrameEvent>, acc: Extraction): Extraction
  {
    if frames == [] || Stops(frames[0]) then acc
    else if frames[0].OtherOutput? then Run(frames[1..], acc)
    else
      var f := frames[0];
      Run(frames[1..], Extraction(
        acc.points + Take(FrameAmplitudes(f.samples, f.channels, 0), MaxSamples - |acc.points|),
        acc.bytes + Pack(f.samples)))
  }

  /** The extractor's result; a failure outside the frame loop (opening
      or closing the stream) leaves both results empty. */
  function Extract(frames: seq<FrameEvent>, outerFailure: bool): Extraction
  {
    if outerFailure then Extraction([], []) else Run(frames, Extraction([], []))
  }

  // ---------------------------------------------------------------------
  // Reference definition: the sample frames before the first stop, their
  // points concatenated and capped once, their samples concatenated.

  function DecodedFrames(frames: seq<FrameEvent>): (r: seq<FrameEvent>)
    ensures forall k :: 0 <= k < |r| ==> r[k].Decoded?
  {
    if frames == [] || Stops(frames[0]) then []
    else if frames[0].OtherOutput? then DecodedFrames(frames[1..])
    else [frames[0]] + DecodedFrames(frames[1..])
  }

  function AllAmplitudes(ds: seq<FrameEvent>): seq<real>
    requires forall k :: 0 <= k < |ds| ==> ds[k].Decoded?
  {
    if ds == [] then [] else FrameAmplitudes(ds[0].samples, ds[0].channels, 0) + AllAmplitudes(ds[1..])
  }

  function AllSamples(ds: seq<FrameEvent>): seq<Short>
    requires forall k :: 0 <= k < |ds| ==> ds[k].Decoded?
  {
    if ds == [] then [] else ds[0].samples + AllSamples(ds[1..])
  }

  /** The totals over a leading decoded frame split into that frame and the rest. */
  lemma AllCons(f: FrameEvent, rest: seq<FrameEvent>)
    requires f.Decoded?
    requires forall k :: 0 <= k < |rest| ==> rest[k].Decoded?
    ensures AllAmplitudes([f] + rest) == FrameAmplitudes(f.samples, f.channels, 0) + AllAmplitudes(rest)
    ensures AllSamples([f] + rest) == f.samples + AllSamples(rest)
  {
    assert ([f] + rest)[1..] == rest;
  }

  lemma {:induction false} PackAppend(xs: seq<Short>, ys: seq<Short>)
    ensures Pack(xs + ys) == Pack(xs) + Pack(ys)
    decreases |ys|
  {
    if ys == [] {
      assert xs + ys == xs;
    } else {
      var zs := xs + ys;
      assert zs[..|zs| - 1] == xs + ys[..|ys| - 1];
      assert zs[|zs| - 1] == ys[|ys| - 1];
      PackAppend(xs, ys[..|ys| - 1]);
    }
  }

  /** Capping twice, first the old points and then the new ones to the
      room left, is capping the concatenation once. */
  lemma TakeAppend<T>(xs: seq<T>, ys: seq<T>, n: nat)
    ensures Take(xs, n) + Take(ys, n - |Take(xs, n)|) == Take(xs + ys, n)
  {
    if |xs| >= n {
      assert (xs + ys)[..n] == xs[..n];
    } else if |xs| + |ys| > n {
      assert (xs + ys)[..n] == xs + ys[..n - |xs|];
    }
  }

  /** The loop's result, described without the loop: the capped
      concatenation of the points of the sample frames before the first
      stop, and the packing of all their samples. */
  lemma {:induction false} RunMatchesReference(frames: seq<FrameEvent>, xs: seq<real>, ys: seq<Short>)
    ensures var ds := DecodedFrames(frames);
      Run(frames, Extraction(Take(xs, MaxSamples), Pack(ys))) ==
      Extraction(Take(xs + AllAmplitudes(ds), MaxSamples), Pack(ys + AllSamples(ds)))
  {
    var ds := DecodedFrames(frames);
    if frames == [] || Stops(frames[0]) {
      assert xs + AllAmplitudes(ds) == xs;
      assert ys + AllSamples(ds) == ys;
    } else if frames[0].OtherOutput? {
      RunMatchesReference(frames[1..], xs, ys);
    } else {
      var f := frames[0];
      RunMatchesReference(frames[1..], xs + FrameAmplitudes(f.samples, f.channels, 0), ys + f.samples);
      RunSampleFrame(frames, xs, ys);
    }
  }

  /** The inductive step for a sample frame, with the claim for the
      frames after it as hypothesis. */
  lemma RunSampleFrame(frames: seq<FrameEvent>, xs: seq<real>, ys: seq<Short>)
    requires frames != [] && !Stops(frames[0]) && frames[0].Decoded?
    requires var f := frames[0];
      var fa := FrameAmplitudes(f.samples, f.channels, 0);
      var ds := DecodedFrames(frames[1..]);
      Run(frames[1..], Extraction(Take(xs + fa, MaxSamples), Pack(ys + f.samples))) ==
      Extraction(Take(xs + fa + AllAmplitudes(ds), MaxSamples), Pack(ys + f.samples + AllSamples(ds)))
    ensures var ds := DecodedFrames(frames);
      Run(frames, Extraction(Take(xs, MaxSamples), Pack(ys))) ==
      Extraction(Take(xs + AllAmplitudes(ds), MaxSamples), Pack(ys + AllSamples(ds)))
  {
    RunStep(frames, xs, ys);
    TotalsStep(frames, xs, ys);
  }

  /** One sample frame moves its amplitudes and bytes into the accumulators. */
  lemma RunStep(frames: seq<FrameEvent>, xs: seq<real>, ys: seq<Short>)
    requires frames != [] && !Stops(frames[0]) && frames[0].Decoded?
    ensures var f := frames[0];
      Run(frames, Extraction(Take(xs, MaxSamples), Pack(ys))) ==
      Run(frames[1..], Extraction(Take(xs + FrameAmplitudes(f.samples, f.channels, 0), MaxSamples), Pack(ys + f.samples)))
  {
    var f := frames[0];
    var fa := FrameAmplitudes(f.samples, f.channels, 0);
    var acc := Extraction(Take(xs, MaxSamples), Pack(ys));
    RunUnfold(frames, acc);
    TakeAppend(xs, fa, MaxSamples);
    PackAppend(ys, f.samples);
    assert Extraction(acc.points + Take(fa, MaxSamples - |acc.points|), acc.bytes + Pack(f.samples)) ==
      Extraction(Take(xs + fa, MaxSamples), Pack(ys + f.samples));
  }

  /** The frame loop past one sample frame. */
  lemma RunUnfold(frames: seq<FrameEvent>, acc: Extraction)
    requires frames != [] && !Stops(frames[0]) && frames[0].Decoded?
    ensures var f := frames[0];
      Run(frames, acc) == Run(frames[1..], Extraction(
        acc.points + Take(FrameAmplitudes(f.samples, f.channels, 0), MaxSamples - |acc.points|),
        acc.bytes + Pack(f.samples)))
  {
  }

  /** The totals over the decoded frames start with the first sample frame. */
  lemma TotalsStep(frames: seq<FrameEvent>, xs: seq<real>, ys: seq<Short>)
    requires frames != [] && !Stops(frames[0]) && frames[0].Decoded?
    ensures var f := frames[0];
      var rest := DecodedFrames(frames[1..]);
      var ds := DecodedFrames(frames);
      xs + FrameAmplitudes(f.samples, f.channels, 0) + AllAmplitudes(rest) == xs + AllAmplitudes(ds)
    ensures var f := frames[0];
      ys + f.samples + AllSamples(DecodedFrames(frames[1..])) == ys + AllSamples(DecodedFrames(frames))
  {
    var f := frames[0];
    var rest := DecodedFrames(frames[1..]);
    DecodedCons(frames);
    AllCons(f, rest);
    AppendAssoc(xs, FrameAmplitudes(f.samples, f.channels, 0), AllAmplitudes(rest), AllAmplitudes(DecodedFrames(frames)));
    AppendAssoc(ys, f.samples, AllSamples(rest), AllSamples(DecodedFrames(frames)));
  }

  lemma AppendAssoc<T>(xs: seq<T>, a: seq<T>, b: seq<T>, c: seq<T>)
    requires c == a + b
    ensures xs + a + b == xs + c
  {
  }

  /** A leading sample frame heads the decoded frames. */
  lemma DecodedCons(frames: seq<FrameEvent>)
    requires frames != [] && !Stops(frames[0]) && frames[0].Decoded?
    ensures DecodedFrames(frames) == [frames[0]] + DecodedFrames(frames[1..])
  {
  }

  /** Without an outer failure the extractor keeps the first 2000 points of
      the sample frames before the first stop and the bytes of all of
      their samples; with one it keeps nothing. */
  lemma ExtractReference(frames: seq<FrameEvent>, outerFailure: bool)
    ensures var ds := DecodedFrames(frames);
      Extract(frames, outerFailure) ==
      if outerFailure then Extraction([], [])
      else Extraction(Take(AllAmplitudes(ds), MaxSamples), Pack(AllSamples(ds)))
  {
    RunMatchesReference(frames, [], []);
    var ds := DecodedFrames(frames);
    assert [] + AllAmplitudes(ds) == AllAmplitudes(ds);
    assert [] + AllSamples(ds) == AllSamples(ds);
  }

  /** Nothing after the first stop event counts, and non-sample buffers
      count for nothing. */
  lemma {:induction false} StopEndsExtraction(pre: seq<FrameEvent>, stop: FrameEvent, post: seq<FrameEvent>)
    requires Stops(stop)
    ensures DecodedFrames(pre + [stop] + post) == DecodedFrames(pre + [stop])
    ensures DecodedFrames([OtherOutput] + post) == DecodedFrames(post)
  {
    if pre != [] {
      assert (pre + [stop] + post)[1..] == pre[1..] + [stop] + post;
      assert (pre + [stop])[1..] == pre[1..] + [stop];
      StopEndsExtraction(pre[1..], stop, post);
    } else {
      assert (pre + [stop] + post)[0] == stop;
    }
    assert ([OtherOutput] + post)[1..] == post;
  }

  /** Never more than `MaxSamples` points. */
  lemma ExtractCapped(frames: seq<FrameEvent>, outerFailure: bool)
    ensures |Extract(frames, outerFailure).points| <= MaxSamples
  {
    ExtractReference(frames, outerFailure);
  }

  // ---------------------------------------------------------------------
  // Point values

  lemma {:induction false} ChannelSumBound(samples: seq<Short>, i: nat, n: nat)
    ensures ChannelSum(samples, i, n) <= n * 32768
  {
    if n > 0 {
      ChannelSumBound(samples, i, n - 1);
    }
  }

  /** A point lies in [0, 32768/32767]: it may exceed 1, because
      `Math.abs(Short.MIN_VALUE)` is 32768. */
  lemma AmplitudeRange(samples: seq<Short>, channels: ChannelCount, i: nat)
    ensures 0.0 <= Amplitude(samples, channels, i) <= 32768.0 / 32767.0
  {
    ChannelSumBound(samples, i, channels);
    MeanBound(ChannelSum(samples, i, channels), channels);
  }

  /** A sum of `n` absolute values, each at most 32768, averages at most 32768. */
  lemma MeanBound(sum: nat, n: ChannelCount)
    requires sum <= n * 32768
    ensures 0.0 <= sum as real / n as real <= 32768.0
  {
    var m := sum as real / n as real;
    assert m * n as real == sum as real;
    assert sum as real <= n as real * 32768.0;
  }

  /** A mono frame at `Short.MIN_VALUE` gives the point 32768/32767. */
  lemma AmplitudeAboveOne()
    ensures Amplitude([-32768], 1, 0) == 32768.0 / 32767.0
  {
    assert ChannelSum([-32768], 0, 1) == 32768;
  }

  // ---------------------------------------------------------------------
  // Byte packing

  /** The bytes of sample `k` sit at `2k` and `2k + 1`, low byte first. */
  lemma {:induction false} PackAt(samples: seq<Short>, k: nat)
    requires k < |samples|
    ensures Pack(samples)[2 * k] == LowByte(samples[k])
    ensures Pack(samples)[2 * k + 1] == HighByte(samples[k])
    decreases |samples|
  {
    if k < |samples| - 1 {
      PackAt(samples[..|samples| - 1], k);
    }
  }

  /** The two bytes of a sample form its 16-bit two's-complement word,
      which reads back as the sample. */
  lemma ShortBytesRoundTrip(s: Short)
    ensures LowByte(s) as int + 256 * HighByte(s) as int == s % 0x1_0000
    ensures Narrow(LowByte(s) as int + 256 * HighByte(s) as int, 0x1_0000) == s
  {
    var q := s / 256;
    var r := s % 256;
    assert s == 256 * q + r;
    if s < 0 {
      assert HighByte(s) == q + 256;
      assert s % 0x1_0000 == s + 0x1_0000;
    } else {
      assert HighByte(s) == q;
      assert s % 0x1_0000 == s;
    }
  }

  /** Reading a byte pair back as a signed little-endian `short`
      recovers the sample. */
  lemma PackRoundTrip(samples: seq<Short>, k: nat)
    requires k < |samples|
    ensures Narrow(Word16(Pack(samples)[2 * k], Pack(samples)[2 * k + 1]), 0x1_0000) == samples[k]
  {
    PackAt(samples, k);
    BytesReadBack(Pack(samples)[2 * k], Pack(samples)[2 * k + 1], samples[k]);
  }

  /** A sample's low and high byte, wherever they are found, read back as
      the sample. */
  lemma BytesReadBack(lo: Byte, hi: Byte, s: Short)
    requires lo == LowByte(s) && hi == HighByte(s)
    ensures Narrow(Word16(lo, hi), 0x1_0000) == s
  {
    ShortBytesRoundTrip(s);
  }

  /** The unsigned little-endian word of two bytes. */
  function Word16(lo: Byte, hi: Byte): int { lo as int + 256 * hi as int }

  /** The waveform reader, given these bytes as 16-bit little-endian
      audio, normalises each sample to `s / 32768`. */
  lemma PackNormalizes(samples: seq<Short>)
    ensures |Pack(samples)| == 2 * |samples|
    ensures forall k :: 0 <= k < |samples| ==>
      NormalizedSample(Pack(samples)[2 * k..2 * k + 2], false) == samples[k] as real / 32768.0
  {
    forall k | 0 <= k < |samples|
      ensures NormalizedSample(Pack(samples)[2 * k..2 * k + 2], false) == samples[k] as real / 32768.0
    {
      PackedSampleNormalizes(samples, k);
    }
  }

  lemma PackedSampleNormalizes(samples: seq<Short>, k: nat)
    requires k < |samples|
    ensures 2 * k + 2 <= |Pack(samples)|
    ensures NormalizedSample(Pack(samples)[2 * k..2 * k + 2], false) == samples[k] as real / 32768.0
  {
    PackAt(samples, k);
    SampleBytesNormalize(Pack(samples), 2 * k, samples[k]);
  }

  /** Any byte sequence holding a sample's two bytes at `i` reads back, as
      16-bit little-endian audio, as that sample over 32768. */
  lemma SampleBytesNormalize(p: seq<Byte>, i: nat, s: Short)
    requires i + 2 <= |p| && p[i] == LowByte(s) && p[i + 1] == HighByte(s)
    ensures NormalizedSample(p[i..i + 2], false) == s as real / 32768.0
  {
    ShortBytesRoundTrip(s);
    NormalizedPair(p, i);
  }

  // ---------------------------------------------------------------------
  // The extractor object and its loops

  class Mp3WaveformExtractor {
    var waveformData: seq<real>
    var audioData: seq<Byte>

    constructor ()
      ensures waveformData == [] && audioData == []
    {
      waveformData := [];
      audioData := [];
    }

    /** `extractWaveform`: run the frame loop and keep its results, or
        nothing when the stream fails outside the loop. */
    method ExtractWaveform(frames: seq<FrameEvent>, outerFailure: bool)
      modifies this
      ensures waveformData == Extract(frames, outerFailure).points
      ensures audioData == Extract(frames, outerFailure).bytes
    {
      if outerFailure {
        waveformData := [];
        audioData := [];
        return;
      }
      var points: seq<real> := [];
      var audioBuffer: seq<Byte> := [];
      var sampleCount := 0;
      var k := 0;
      while k < |frames| && !Stops(frames[k])
        invariant 0 <= k <= |frames|
        invariant sampleCount == |points|
        invariant Run(frames[k..], Extraction(points, audioBuffer)) == Run(frames, Extraction([], []))
        decreases |frames| - k
      {
        RunAdvance(frames, k, points, audioBuffer);
        match frames[k] {
          case OtherOutput =>
          case Decoded(samples, channels) =>
            points, sampleCount := AppendFramePoints(points, sampleCount, samples, channels);
            var frameData := PackFrame(samples);
            audioBuffer := audioBuffer + frameData[..];
        }
        k := k + 1;
      }
      waveformData := points;
      audioData := audioBuffer;
    }
  }

  /** The frame loop past the frame at `k`, which does not stop it. */
  lemma RunAdvance(frames: seq<FrameEvent>, k: nat, points: seq<real>, bytes: seq<Byte>)
    requires k < |frames| && !Stops(frames[k])
    ensures frames[k].OtherOutput? ==>
      Run(frames[k..], Extraction(points, bytes)) == Run(frames[k + 1..], Extraction(points, bytes))
    ensures frames[k].Decoded? ==>
      var f := frames[k];
      Run(frames[k..], Extraction(points, bytes)) == Run(frames[k + 1..], Extraction(
        points + Take(FrameAmplitudes(f.samples, f.channels, 0), MaxSamples - |points|),
        bytes + Pack(f.samples)))
  {
    assert frames[k..][1..] == frames[k + 1..];
  }

  /** The point loop over one frame: one point per interleaved frame while
      fewer than `MaxSamples` points have been gathered. */
  method AppendFramePoints(points: seq<real>, sampleCount: int, samples: seq<Short>, channels: ChannelCount)
    returns (points': seq<real>, sampleCount': int)
    requires sampleCount == |points|
    ensures points' == points + Take(FrameAmplitudes(samples, channels, 0), MaxSamples - |points|)
    ensures sampleCount' == |points'|
  {
    ghost var all := FrameAmplitudes(samples, channels, 0);
    ghost var j := 0;
    points' := points;
    sampleCount' := sampleCount;
    var i := 0;
    while i < |samples| && sampleCount' < MaxSamples
      invariant 0 <= j <= |all|
      invariant points' == points + all[..j] && sampleCount' == |points| + j
      invariant FrameAmplitudes(samples, channels, i) == all[j..]
      invariant j == 0 || sampleCount' <= MaxSamples
      decreases |samples| - i
    {
      var amplitude := FrameAmplitude(samples, channels, i);
      assert all[j..] == [amplitude] + FrameAmplitudes(samples, channels, i + channels);
      assert all[..j + 1] == all[..j] + [all[j]];
      points' := points' + [amplitude];
      sampleCount' := sampleCount' + 1;
      i := i + channels;
      j := j + 1;
    }
    assert all[..|all|] == all;
  }

  /** The channel loop: sum `|samples[i + ch]|` over the channels present,
      then divide by the channel count and by `Short.MAX_VALUE`. */
  method FrameAmplitude(samples: seq<Short>, channels: ChannelCount, i: nat) returns (amplitude: real)
    ensures amplitude == Amplitude(samples, channels, i)
  {
    amplitude := 0.0;
    var ch := 0;
    while ch < channels && i + ch < |samples|
      invariant 0 <= ch <= channels
      invariant amplitude == ChannelSum(samples, i, ch) as real
    {
      amplitude := amplitude + Abs(samples[i + ch]) as real;
      ch := ch + 1;
    }
    ChannelSumPastEnd(samples, i, ch, channels);
    amplitude := amplitude / channels as real;
    amplitude := amplitude / ShortMax as real;
  }

  /** Channels past the end of the buffer add nothing. */
  lemma {:induction false} ChannelSumPastEnd(samples: seq<Short>, i: nat, m: nat, n: nat)
    requires m <= n && (m == n || i + m >= |samples|)
    ensures ChannelSum(samples, i, n) == ChannelSum(samples, i, m)
    decreases n - m
  {
    if m < n {
      ChannelSumPastEnd(samples, i, m, n - 1);
    }
  }

  /** The byte loop over one frame: each sample's low byte, then its high
      byte. */
  method PackFrame(samples: seq<Short>) returns (frameData: array<Byte>)
    ensures fresh(frameData)
    ensures frameData[..] == Pack(samples)
  {
    frameData := new Byte[|samples| * 2];
    for i := 0 to |samples|
      invariant frameData[..2 * i] == Pack(samples[..i])
    {
      frameData[i * 2] := LowByte(samples[i]);
      frameData[i * 2 + 1] := HighByte(samples[i]);
      assert samples[..i + 1][..i] == samples[..i];
    }
    assert samples[..|samples|] == samples;
    assert frameData[..] == frameData[..2 * |samples|];
  }
}
