/** `AudioEditorComponent`: the extension gate of the loader, the MP3
    duration and bitrate estimates, the `mm:ss` clock, the envelope built
    from decoded MP3 data, and the play/pause, stop, progress-timer and
    seek handlers over the Java Sound clip or the JLayer player. */
module AudioEditor {
  import opened Options
  import opened Decimal
  import opened Strings
  import opened Arith
  import opened JavaArith
  import opened Pcm
  import opened Waveform
  import Mp3Extract

  // ---------------------------------------------------------------------
  // The extension gate of `loadAudioFile`.

  datatype Route = Unsupported | Mp3Route | ClipRoute

  const SupportedExtensions: seq<string> := [".wav", ".au", ".aiff", ".mp3"]

  /** Which loader a file name leads to: the name is lower-cased, anything
      without one of the four extensions is refused, `.mp3` goes to the MP3
      loader and the rest to Java Sound. */
  function LoadRoute(fileName: string): Route
  {
    var name := ToLower(fileName);
    if !EndsWith(name, ".wav") && !EndsWith(name, ".au")
       && !EndsWith(name, ".aiff") && !EndsWith(name, ".mp3") then Unsupported
    else if EndsWith(name, ".mp3") then Mp3Route
    else ClipRoute
  }

  /** A file is accepted exactly when its lower-cased name ends with one of
      the supported extensions, and goes to the MP3 loader exactly when
      that extension is `.mp3`. */
  lemma LoadRouteSupported(fileName: string)
    ensures LoadRoute(fileName) != Unsupported <==>
      exists k :: 0 <= k < |SupportedExtensions| && EndsWith(ToLower(fileName), SupportedExtensions[k])
    ensures LoadRoute(fileName) == Mp3Route <==> EndsWith(ToLower(fileName), ".mp3")
    ensures LoadRoute(fileName) == ClipRoute ==> !EndsWith(ToLower(fileName), ".mp3")
  {
    var name := ToLower(fileName);
    if exists k :: 0 <= k < |SupportedExtensions| && EndsWith(name, SupportedExtensions[k]) {
      var k :| 0 <= k < |SupportedExtensions| && EndsWith(name, SupportedExtensions[k]);
      assert SupportedExtensions[k] in {".wav", ".au", ".aiff", ".mp3"};
    }
    if LoadRoute(fileName) != Unsupported {
      if EndsWith(name, ".wav") {
        assert EndsWith(name, SupportedExtensions[0]);
      } else if EndsWith(name, ".au") {
        assert EndsWith(name, SupportedExtensions[1]);
      } else if EndsWith(name, ".aiff") {
        assert EndsWith(name, SupportedExtensions[2]);
      } else {
        assert EndsWith(name, SupportedExtensions[3]);
      }
    }
  }

  lemma LowerCharIdempotent(c: char)
    ensures LowerChar(LowerChar(c)) == LowerChar(c)
  {}

  /** The gate does not depend on letter case: a name and its lower-case
      form are routed alike. */
  lemma {:induction false} LoadRouteIgnoresCase(fileName: string)
    ensures LoadRoute(ToLower(fileName)) == LoadRoute(fileName)
  {
    var once := ToLower(fileName);
    var twice := ToLower(once);
    forall k | 0 <= k < |fileName|
      ensures twice[k] == once[k]
    {
      LowerCharIdempotent(fileName[k]);
    }
    assert twice == once;
  }

  // ---------------------------------------------------------------------
  // The MP3 duration estimate and the metadata derived from it.

  const MiB: nat := 1048576

  function AtLeastOne(n: nat): nat { if n < 1 then 1 else n }

  /** The byte rate `getMP3DurationWithJLayer` assumes for a file of this
      size: 8000 B/s below 1 MiB, 16000 below 5 MiB, 20000 below 10 MiB,
      24000 above. */
  function BandByteRate(fileSize: nat): (r: nat)
    ensures r > 0
  {
    if fileSize < MiB then 8000
    else if fileSize < 5 * MiB then 16000
    else if fileSize < 10 * MiB then 20000
    else 24000
  }

  /** `estimateMP3Duration`, the estimate used when the probe player cannot
      be opened: the size at 16000 B/s, at least one second. */
  function FallbackSeconds(fileSize: nat): nat
  {
    AtLeastOne(fileSize / 16000)
  }

  /** `getMP3DurationWithJLayer`: the banded estimate when the probe player
      opens, otherwise the fallback. */
  function Mp3DurationSeconds(fileSize: nat, probeOpens: bool): (r: nat)
  {
    if probeOpens then AtLeastOne(fileSize / BandByteRate(fileSize)) else FallbackSeconds(fileSize)
  }

  /** The byte rate the estimate was made with. */
  function AssumedByteRate(fileSize: nat, probeOpens: bool): (r: nat)
    ensures r > 0
  {
    if probeOpens then BandByteRate(fileSize) else 16000
  }

  /** The estimate is the file size over the assumed byte rate, rounded
      down, but never below one second; so the estimated bitrate is never
      computed with a zero divisor. */
  lemma DurationEstimate(fileSize: nat, probeOpens: bool)
    ensures var d := Mp3DurationSeconds(fileSize, probeOpens);
      var rate := AssumedByteRate(fileSize, probeOpens);
      d >= 1 &&
      (fileSize >= rate ==> d * rate <= fileSize < d * rate + rate) &&
      (fileSize < rate ==> d == 1)
  {
    var rate := AssumedByteRate(fileSize, probeOpens);
    LastMultiple(fileSize, rate);
    if fileSize >= rate {
      assert fileSize / rate >= 1 by {
        if fileSize / rate < 1 {
          MulMonotone(fileSize / rate, 0, rate);
        }
      }
    }
  }

  /** The banded estimate is not monotone in the file size: one byte more
      at the 1 MiB boundary halves the estimated duration. */
  lemma DurationDropsAtBandEdge()
    ensures Mp3DurationSeconds(MiB - 1, true) == 131
    ensures Mp3DurationSeconds(MiB, true) == 65
  {}

  function EstimatedBitrate(fileSize: nat, seconds: nat): nat
    requires seconds >= 1
  {
    fileSize * 8 / seconds
  }

  const Rate22: string := "22.05 kHz (est.)"
  const Rate44: string := "44.1 kHz (est.)"
  const Rate48: string := "48 kHz (est.)"
  const Mono: string := "1 (Mono, est.)"
  const Stereo: string := "2 (Stereo, est.)"
  const Depth16: string := "16 bit (est.)"

  datatype Mp3Labels = Mp3Labels(sampleRate: string, channels: string, bitDepth: string)

  /** The labels `updateMP3Metadata` shows for an estimated bitrate. */
  function BitrateLabels(bitrate: int): Mp3Labels
  {
    if bitrate < 64000 then Mp3Labels(Rate22, Mono, Depth16)
    else if bitrate < 128000 then Mp3Labels(Rate44, Mono, Depth16)
    else if bitrate < 192000 then Mp3Labels(Rate44, Stereo, Depth16)
    else if bitrate < 320000 then Mp3Labels(Rate44, Stereo, Depth16)
    else Mp3Labels(Rate48, Stereo, Depth16)
  }

  /** The metadata panel of an MP3 loaded through JLayer. */
  datatype Mp3Metadata = Mp3Metadata(duration: string, labels: Mp3Labels)

  function Mp3MetadataOf(fileSize: nat, probeOpens: bool): Mp3Metadata
  {
    var seconds := Mp3DurationSeconds(fileSize, probeOpens);
    Mp3Metadata(FormatClock(seconds * 1_000_000), BitrateLabels(Mp3Bitrate(fileSize, probeOpens)))
  }

  /** `lo <= x / q < hi` follows from `lo * q <= x < hi * q`. */
  lemma DivBetween(x: nat, q: nat, lo: int, hi: int)
    requires q >= 1 && lo * q <= x < hi * q
    ensures lo <= x / q < hi
  {
    LastMultiple(x, q);
    MulSucc(x / q, q);
    CancelFactorStrict(x / q + 1, lo, q);
    CancelFactorStrict(hi, x / q, q);
  }

  /** With an estimate of `size / rate` whole seconds (at least one), the
      estimated bitrate is at least `8 * rate` and below `limit` whenever
      `limit` seconds' worth covers the rounding. */
  lemma BitrateWithin(size: nat, rate: nat, limit: int)
    requires rate > 0 && size >= rate
    requires 8 * rate * (size / rate + 1) <= limit * (size / rate)
    ensures size / rate >= 1
    ensures 8 * rate <= EstimatedBitrate(size, size / rate) < limit
  {
    var q := size / rate;
    LastMultiple(size, rate);
    if q < 1 {
      MulMonotone(q, 0, rate);
    }
    assert 8 * rate * q <= size * 8 by {
      MulAssoc(8, rate, q);
      MulCommute(rate, q);
    }
    assert size * 8 < 8 * rate * (q + 1) by {
      MulSucc(q, rate);
      MulAssoc(8, rate, q + 1);
      MulCommute(rate, q + 1);
    }
    DivBetween(size * 8, q, 8 * rate, limit);
  }

  /** The bitrate `updateMP3Metadata` derives from the size and the
      estimated duration. */
  function Mp3Bitrate(fileSize: nat, probeOpens: bool): nat
  {
    EstimatedBitrate(fileSize, AtLeastOne(Mp3DurationSeconds(fileSize, probeOpens)))
  }

  /** Where the derived bitrate falls: always below 320000; below 64000
      exactly for files under 8000 bytes; below 128000 exactly below 1 MiB
      when the probe opens and below 16000 bytes when it does not. */
  lemma Mp3BitrateBounds(fileSize: nat, probeOpens: bool)
    ensures var b := Mp3Bitrate(fileSize, probeOpens);
      b < 320000 &&
      (b < 64000 <==> fileSize < 8000) &&
      (b < 128000 <==> fileSize < (if probeOpens then MiB else 16000))
  {
    var rate := AssumedByteRate(fileSize, probeOpens);
    if fileSize < rate {
      assert Mp3DurationSeconds(fileSize, probeOpens) == 1;
    } else {
      var q := fileSize / rate;
      LastMultiple(fileSize, rate);
      if rate == 8000 {
        BitrateWithin(fileSize, 8000, 128000);
      } else if rate == 16000 && probeOpens {
        assert q >= 65;
        BitrateWithin(fileSize, 16000, 192000);
      } else if rate == 16000 {
        BitrateWithin(fileSize, 16000, 320000);
      } else if rate == 20000 {
        assert q >= 262;
        BitrateWithin(fileSize, 20000, 192000);
      } else {
        assert q >= 436;
        BitrateWithin(fileSize, 24000, 320000);
      }
    }
  }

  /** What the estimate makes of the labels: the 48 kHz branch is never
      taken, the 22.05 kHz label appears exactly for files under 8000
      bytes, and a file counts as mono exactly below 1 MiB when the probe
      opens and below 16000 bytes when it does not. */
  lemma Mp3LabelsBySize(fileSize: nat, probeOpens: bool)
    ensures var l := Mp3MetadataOf(fileSize, probeOpens).labels;
      l.sampleRate != Rate48 &&
      l.bitDepth == Depth16 &&
      (l.sampleRate == Rate22 <==> fileSize < 8000) &&
      (l.channels == Mono <==> fileSize < (if probeOpens then MiB else 16000))
  {
    Mp3BitrateBounds(fileSize, probeOpens);
    assert |Rate22| != |Rate44| && |Rate22| != |Rate48| && |Rate44| != |Rate48| && |Mono| != |Stereo|;
  }

  // ---------------------------------------------------------------------
  // The `mm:ss` clock of the time label and the metadata panel.

  /** `formatTime`: whole minutes and the remaining seconds, each as
      `%02d` (minutes may take more than two digits). */
  function FormatClock(micros: nat): string
  {
    var seconds := micros / 1_000_000;
    ZeroPad(seconds / 60, 2) + ":" + ZeroPad(seconds % 60, 2)
  }

  /** The clock reads back as the whole seconds it was made from: the text
      after the colon is a two-digit count of seconds below 60, the text
      before it the minutes. */
  lemma FormatClockRoundTrip(micros: nat)
    ensures var s := FormatClock(micros); var n := |s|;
      n >= 5 && s[n - 3] == ':' && AllDigits(s[..n - 3]) && AllDigits(s[n - 2..]) &&
      ParseNat(s[n - 2..]) < 60 &&
      ParseNat(s[..n - 3]) * 60 + ParseNat(s[n - 2..]) == micros / 1_000_000
  {
    var seconds := micros / 1_000_000;
    var mm := ZeroPad(seconds / 60, 2);
    var ss := ZeroPad(seconds % 60, 2);
    ZeroPadParses(seconds / 60, 2);
    ZeroPadRoundTrip(seconds % 60, 2);
    var s := mm + ":" + ss;
    assert s[..|s| - 3] == mm;
    assert s[|s| - 2..] == ss;
  }

  lemma ClockAtStart()
    ensures FormatClock(0) == "00:00"
  {
    assert NatToString(0) == "0";
    assert Zeros(1) == "0";
  }

  // ---------------------------------------------------------------------
  // The envelope of decoded MP3 data.

  /** The fixed format the decoded bytes are read back with: 16-bit signed
      little-endian stereo, four bytes a frame, 44100 frames a second. */
  const Mp3Format: Format := Format(2, 16, false, 44100.0)

  /** The stream over decoded bytes: `length / 4` frames, read in full
      buffers. */
  function Mp3Reads(audioData: seq<Byte>): (rs: seq<seq<Byte>>)
    ensures ReadsFit(Mp3Format, |audioData| / 4, rs)
  {
    var frames := |audioData| / 4;
    FullReads(audioData[..frames * 4], BufferSize(Mp3Format, frames))
  }

  function Mp3Envelope(audioData: seq<Byte>): seq<real>
  {
    Envelope(Mp3Format, |audioData| / 4, Mp3Reads(audioData))
  }

  /** The envelope of decoded MP3 data lies in [0, 1] and has one point per
      frame below 2000 frames, at least 1000 points from 1000 frames on,
      and fewer than 2000 below 1000·2^31 frames. */
  lemma Mp3EnvelopeShape(audioData: seq<Byte>)
    ensures var e := Mp3Envelope(audioData); var frames := |audioData| / 4;
      (forall k :: 0 <= k < |e| ==> 0.0 <= e[k] <= 1.0) &&
      (frames < 2 * TargetPoints ==> |e| == frames) &&
      (frames >= TargetPoints ==> TargetPoints <= |e|) &&
      (TargetPoints <= frames < TargetPoints * IntHalf ==> |e| < 2 * TargetPoints)
  {
    var frames := |audioData| / 4;
    assert FrameBytes(Mp3Format) == 4;
    PointCountForFrames(Mp3Format, frames, audioData[..frames * 4]);
    EnvelopeInUnitRange(Mp3Format, frames, Mp3Reads(audioData));
  }

  /** Which bytes the editor hands to the waveform: the extractor's audio
      data when it found points, otherwise the fallback pattern's bytes. */
  function Mp3WaveformBytes(extraction: Option<Mp3Extract.Extraction>, fallbackPcm: seq<Byte>): seq<Byte>
  {
    if extraction.Some? && extraction.value.points != [] then extraction.value.bytes else fallbackPcm
  }

  /** The timeline duration the waveform takes from a stream over decoded
      bytes: `length / 4` frames at 44100 frames a second. */
  function Mp3TimelineMicros(audioData: seq<Byte>): int
  {
    StreamDurationMicros(|audioData| / 4, Mp3Format.frameRate)
  }

  /** The decoded bytes give a whole number of microseconds, rounded down;
      the 1000-frame fallback gives a timeline of 22.675 milliseconds. */
  lemma Mp3TimelineLength(audioData: seq<Byte>)
    requires |audioData| < 4_000_000_000_000
    ensures Mp3TimelineMicros(audioData) == (|audioData| / 4) * 1_000_000 / 44100
    ensures |audioData| == 4 * TargetPoints ==> Mp3TimelineMicros(audioData) == 22675
  {
    PcmDuration(|audioData| / 4, 44100);
  }

  /** The fallback pattern's 1000 frames give exactly 1000 points. */
  lemma FallbackEnvelopeSize(fallbackPcm: seq<Byte>)
    requires |fallbackPcm| == 4 * TargetPoints
    ensures |Mp3Envelope(fallbackPcm)| == TargetPoints
  {
    Mp3EnvelopeShape(fallbackPcm);
  }

  // ---------------------------------------------------------------------
  // The playback devices, as far as the handlers observe them.

  type FrameRate = r: nat | r > 0 witness 1

  /** A Java Sound clip: open or not, running or not, its frame position
      and length, and its frame rate. */
  datatype Clip = Clip(open: bool, running: bool, framePosition: nat, frameLength: nat, frameRate: FrameRate)

  function FramesToMicros(frames: nat, rate: FrameRate): nat { frames * 1_000_000 / rate }

  function PositionMicros(c: Clip): nat { FramesToMicros(c.framePosition, c.frameRate) }

  function LengthMicros(c: Clip): nat { FramesToMicros(c.frameLength, c.frameRate) }

  /** The time label for a clip: position and length as clocks. */
  function TimeText(c: Clip): string
  {
    FormatClock(PositionMicros(c)) + " / " + FormatClock(LengthMicros(c))
  }

  /** A JLayer player: only whether it has been closed is observed. */
  datatype Mp3Player = Mp3Player(closed: bool)

  /** A decoded stream handed to `setWaveformData`. */
  datatype PcmStream = PcmStream(format: Format, totalFrames: int, chunks: seq<seq<Byte>>)

  predicate Fits(s: PcmStream) { ReadsFit(s.format, s.totalFrames, s.chunks) }

  /** How loading through Java Sound ends: the file is not recognised, it
      cannot be read before the waveform stream is, no line can be opened
      or the clip fails to read its data (both after the waveform stream
      was read), or the clip opens. */
  datatype JavaSoundLoad =
    | Unrecognised
    | ReadError
    | LineUnavailable(stream: PcmStream)
    | ReadErrorAfterWaveform(stream: PcmStream)
    | Opened(stream: PcmStream, clip: Clip)

  /** The load failed after `setWaveformData` had read `stream`. */
  predicate FailedAfterWaveform(j: JavaSoundLoad) {
    j.LineUnavailable? || j.ReadErrorAfterWaveform?
  }

  /** The duration `setWaveformData` leaves for a stream: its own length
      when it knows it, otherwise the duration set `before`. */
  function StreamDuration(s: PcmStream, before: int): int
  {
    if s.totalFrames != NotSpecified then StreamDurationMicros(s.totalFrames, s.format.frameRate) else before
  }

  predicate LoadFits(j: JavaSoundLoad) {
    (FailedAfterWaveform(j) || j.Opened?) ==> Fits(j.stream)
  }

  const PlayText: string := "▶ Play"
  const PauseText: string := "⏸ Pause"
  const TimeAtStart: string := "00:00 / 00:00"

  /** The microseconds one finishing clip may fall short of its length. */
  const FinishTolerance: int := 1_000_000

  /** A fraction of a non-negative amount lies between zero and it. */
  lemma ScaleWithin(a: real, f: real)
    requires 0.0 <= a && 0.0 <= f <= 1.0
    ensures 0.0 <= a * f <= a
  {
    assert a - a * f == a * (1.0 - f);
  }

  /** The frame a seek to `fraction` of a clip lands on: the fraction of
      its frames, rounded down, so never past its end. */
  function SeekTarget(frameLength: nat, fraction: real): (t: nat)
    requires 0.0 <= fraction <= 1.0
    ensures t <= frameLength
    ensures t as real <= frameLength as real * fraction < t as real + 1.0
    ensures fraction == 0.0 ==> t == 0
    ensures fraction == 1.0 ==> t == frameLength
  {
    var exact := frameLength as real * fraction;
    ScaleWithin(frameLength as real, fraction);
    exact.Floor
  }

  /** A rewound clip's label is the clock at zero over its length. */
  lemma RewoundTimeText(c: Clip)
    ensures TimeText(c.(running := false, framePosition := 0)) == "00:00 / " + FormatClock(LengthMicros(c))
  {
    ClockAtStart();
    assert PositionMicros(c.(running := false, framePosition := 0)) == 0;
  }

  /** What loading a file leaves behind: whether it is taken for an MP3,
      whether play is enabled, the clip or JLayer player obtained, the MP3
      metadata, and the waveform's envelope and duration. */
  datatype Loaded = Loaded(isMp3File: bool, playEnabled: bool, clip: Option<Clip>,
                           mp3Player: Option<Mp3Player>, mp3Metadata: Option<Mp3Metadata>,
                           waveformData: seq<real>, durationMicros: int)

  /** Nothing obtained: play disabled, no envelope, no duration. */
  function Unplayable(isMp3File: bool, waveformData: seq<real>): Loaded
  {
    Loaded(isMp3File, false, None, None, None, waveformData, 0)
  }

  /** Play disabled, but the waveform already shows `stream`. */
  function WaveformOnly(isMp3File: bool, stream: PcmStream): Loaded
    requires Fits(stream)
  {
    Unplayable(isMp3File, Envelope(stream.format, stream.totalFrames, stream.chunks))
      .(durationMicros := StreamDuration(stream, 0))
  }

  /** `loadAudioFile` and `handleMP3File`: the extension gate, then Java
      Sound, then (for an MP3 Java Sound does not recognise) JLayer. */
  function Load(fileName: string, fileSize: nat, javaSound: JavaSoundLoad,
                playerOpens: bool, probeOpens: bool,
                extraction: Option<Mp3Extract.Extraction>, fallbackPcm: seq<Byte>): Loaded
    requires LoadFits(javaSound)
  {
    var route := LoadRoute(fileName);
    if route == Unsupported then Unplayable(false, [])
    else
      var mp3 := route == Mp3Route;
      match javaSound
      case Opened(stream, c) =>
        Loaded(mp3, true, Some(c), None, None,
               Envelope(stream.format, stream.totalFrames, stream.chunks),
               if c.open then LengthMicros(c) else StreamDuration(stream, 0))
      case LineUnavailable(stream) => WaveformOnly(mp3, stream)
      case ReadErrorAfterWaveform(stream) => WaveformOnly(mp3, stream)
      case ReadError => Unplayable(mp3, [])
      case Unrecognised =>
        if route == ClipRoute || !playerOpens then Unplayable(mp3, [])
        else
          Loaded(true, true, None, Some(Mp3Player(false)), Some(Mp3MetadataOf(fileSize, probeOpens)),
                 Mp3Envelope(Mp3WaveformBytes(extraction, fallbackPcm)),
                 Mp3TimelineMicros(Mp3WaveformBytes(extraction, fallbackPcm)))
  }

  /** Play is enabled exactly when a clip or a JLayer player was obtained,
      never both; the gate refuses every file whose name does not end in a
      supported extension. */
  lemma LoadPlayable(fileName: string, fileSize: nat, javaSound: JavaSoundLoad,
                     playerOpens: bool, probeOpens: bool,
                     extraction: Option<Mp3Extract.Extraction>, fallbackPcm: seq<Byte>)
    requires LoadFits(javaSound)
    ensures var l := Load(fileName, fileSize, javaSound, playerOpens, probeOpens, extraction, fallbackPcm);
      (l.playEnabled <==> l.clip.Some? || l.mp3Player.Some?) &&
      !(l.clip.Some? && l.mp3Player.Some?) &&
      (l.playEnabled <==>
        LoadRoute(fileName) != Unsupported &&
        (javaSound.Opened? || (javaSound.Unrecognised? && LoadRoute(fileName) == Mp3Route && playerOpens))) &&
      (LoadRoute(fileName) == Unsupported ==> l == Unplayable(false, []))
  {
  }

  /** Through Java Sound the clip is the one opened and the envelope is
      that of the stream read, whatever the extension; only the JLayer path
      produces MP3 metadata, and on that path the timeline's duration is the
      length of the decoded PCM at 44100 frames a second, which replaces the
      estimate made from the file size. */
  lemma LoadSources(fileName: string, fileSize: nat, javaSound: JavaSoundLoad,
                    playerOpens: bool, probeOpens: bool,
                    extraction: Option<Mp3Extract.Extraction>, fallbackPcm: seq<Byte>)
    requires LoadFits(javaSound)
    ensures var l := Load(fileName, fileSize, javaSound, playerOpens, probeOpens, extraction, fallbackPcm);
      (l.isMp3File <==> LoadRoute(fileName) == Mp3Route) &&
      (LoadRoute(fileName) != Unsupported && (javaSound.Opened? || FailedAfterWaveform(javaSound)) ==>
        l.waveformData == Envelope(javaSound.stream.format, javaSound.stream.totalFrames, javaSound.stream.chunks)) &&
      (LoadRoute(fileName) != Unsupported && FailedAfterWaveform(javaSound) ==>
        !l.playEnabled && l.durationMicros == StreamDuration(javaSound.stream, 0)) &&
      (LoadRoute(fileName) != Unsupported && (javaSound.ReadError? || (javaSound.Unrecognised? && !l.playEnabled)) ==>
        l.waveformData == [] && l.durationMicros == 0) &&
      (l.clip.Some? ==> javaSound.Opened? && l.clip == Some(javaSound.clip)) &&
      (l.mp3Metadata.Some? <==> l.mp3Player.Some?) &&
      (l.mp3Player.Some? ==>
        l.mp3Metadata == Some(Mp3MetadataOf(fileSize, probeOpens)) &&
        l.durationMicros == Mp3TimelineMicros(Mp3WaveformBytes(extraction, fallbackPcm)) &&
        l.waveformData == Mp3Envelope(Mp3WaveformBytes(extraction, fallbackPcm)))
  {
  }

  class AudioEditorComponent {
    const waveform: WaveformComponent
    var isMp3File: bool
    var clip: Option<Clip>
    var mp3Player: Option<Mp3Player>
    var mp3Metadata: Option<Mp3Metadata>
    var isPlaying: bool
    var isPaused: bool
    var playText: string
    var playEnabled: bool
    var stopEnabled: bool
    var timeText: string
    var timerRunning: bool

    /** The play state and the controls agree: never playing and paused at
        once, the stop button enabled exactly while playing or paused, the
        play button reading "Pause" exactly while playing, and the progress
        timer running while playing. */
    predicate Valid()
      reads this
    {
      !(isPlaying && isPaused) &&
      (stopEnabled <==> isPlaying || isPaused) &&
      (playText == PauseText <==> isPlaying) &&
      (playText == PlayText || playText == PauseText) &&
      (isPlaying ==> timerRunning)
    }

    /** What loading left behind, read off the editor and its waveform. */
    function LoadedState(): Loaded
      reads this, waveform
    {
      Loaded(isMp3File, playEnabled, clip, mp3Player, mp3Metadata,
             waveform.waveformData, waveform.audioDurationMicros)
    }

    /** Building the UI and `loadAudioFile`. */
    constructor (fileName: string, fileSize: nat, javaSound: JavaSoundLoad,
                 playerOpens: bool, probeOpens: bool,
                 extraction: Option<Mp3Extract.Extraction>, fallbackPcm: seq<Byte>)
      requires LoadFits(javaSound)
      ensures Valid() && fresh(waveform)
      ensures !isPlaying && !isPaused && !timerRunning && timeText == TimeAtStart
      ensures waveform.progress == 0.0
      ensures LoadedState() == Load(fileName, fileSize, javaSound, playerOpens, probeOpens, extraction, fallbackPcm)
    {
      waveform := new WaveformComponent();
      isMp3File := false;
      clip := None;
      mp3Player := None;
      mp3Metadata := None;
      isPlaying := false;
      isPaused := false;
      playText := PlayText;
      playEnabled := true;
      stopEnabled := false;
      timeText := TimeAtStart;
      timerRunning := false;
      new;
      LoadAudioFile(fileName, fileSize, javaSound, playerOpens, probeOpens, extraction, fallbackPcm);
    }

    /** The play-state controls, which loading does not touch. */
    function Controls(): (bool, bool, string, bool, string, bool)
      reads this
    {
      (isPlaying, isPaused, playText, stopEnabled, timeText, timerRunning)
    }

    /** `loadAudioFile` on a freshly built editor. */
    method LoadAudioFile(fileName: string, fileSize: nat, javaSound: JavaSoundLoad,
                         playerOpens: bool, probeOpens: bool,
                         extraction: Option<Mp3Extract.Extraction>, fallbackPcm: seq<Byte>)
      requires LoadFits(javaSound)
      requires LoadedState() == Loaded(false, true, None, None, None, [], 0)
      modifies this, waveform
      ensures LoadedState() == Load(fileName, fileSize, javaSound, playerOpens, probeOpens, extraction, fallbackPcm)
      ensures Controls() == old(Controls()) && waveform.progress == old(waveform.progress)
    {
      var route := LoadRoute(fileName);
      if route == Unsupported {
        playEnabled := false;
        assert LoadedState() == Unplayable(false, []);
        return;
      }
      isMp3File := route == Mp3Route;
      match javaSound {
        case Opened(stream, c) =>
          OpenWithJavaSound(stream, c);
        case LineUnavailable(stream) =>
          waveform.SetWaveformData(stream.format, stream.totalFrames, stream.chunks);
          playEnabled := false;
          assert LoadedState() == WaveformOnly(isMp3File, stream);
        case ReadErrorAfterWaveform(stream) =>
          waveform.SetWaveformData(stream.format, stream.totalFrames, stream.chunks);
          playEnabled := false;
          assert LoadedState() == WaveformOnly(isMp3File, stream);
        case ReadError =>
          playEnabled := false;
          assert LoadedState() == Unplayable(isMp3File, []);
        case Unrecognised =>
          if route == ClipRoute || !playerOpens {
            playEnabled := false;
            assert LoadedState() == Unplayable(isMp3File, []);
          } else {
            OpenWithJLayer(fileSize, probeOpens, extraction, fallbackPcm);
          }
      }
    }

    /** `loadAudioFile` for a stream Java Sound opened: the waveform from
        its frames, the clip, and the duration when the clip is open. */
    method OpenWithJavaSound(stream: PcmStream, c: Clip)
      requires Fits(stream)
      modifies this, waveform
      ensures LoadedState() ==
        Loaded(old(isMp3File), true, Some(c), old(mp3Player), old(mp3Metadata),
               Envelope(stream.format, stream.totalFrames, stream.chunks),
               if c.open then LengthMicros(c) else StreamDuration(stream, old(waveform.audioDurationMicros)))
      ensures waveform.progress == old(waveform.progress)
      ensures isPlaying == old(isPlaying) && isPaused == old(isPaused) && playText == old(playText)
      ensures stopEnabled == old(stopEnabled) && timeText == old(timeText) && timerRunning == old(timerRunning)
    {
      waveform.SetWaveformData(stream.format, stream.totalFrames, stream.chunks);
      clip := Some(c);
      if c.open {
        waveform.SetAudioDuration(LengthMicros(c));
      }
      playEnabled := true;
    }

    /** `handleMP3File` with a JLayer player that opens: the estimated
        duration, the waveform from the extracted (or fallback) samples,
        and the metadata labels. */
    method OpenWithJLayer(fileSize: nat, probeOpens: bool,
                          extraction: Option<Mp3Extract.Extraction>, fallbackPcm: seq<Byte>)
      modifies this, waveform
      ensures LoadedState() ==
        Loaded(old(isMp3File), true, old(clip), Some(Mp3Player(false)), Some(Mp3MetadataOf(fileSize, probeOpens)),
               Mp3Envelope(Mp3WaveformBytes(extraction, fallbackPcm)),
               Mp3TimelineMicros(Mp3WaveformBytes(extraction, fallbackPcm)))
      ensures waveform.progress == old(waveform.progress)
      ensures isPlaying == old(isPlaying) && isPaused == old(isPaused) && playText == old(playText)
      ensures stopEnabled == old(stopEnabled) && timeText == old(timeText) && timerRunning == old(timerRunning)
    {
      mp3Player := Some(Mp3Player(false));
      var seconds := Mp3DurationSeconds(fileSize, probeOpens);
      waveform.SetAudioDuration(seconds * 1_000_000);
      var bytes := Mp3WaveformBytes(extraction, fallbackPcm);
      waveform.SetWaveformData(Mp3Format, |bytes| / 4, Mp3Reads(bytes));
      playEnabled := true;
      mp3Metadata := Some(Mp3MetadataOf(fileSize, probeOpens));
    }

    /** The play/pause button. An MP3 without a JLayer player (one Java
        Sound opened) does nothing; otherwise playing pauses and anything
        else starts. A JLayer pause closes the player and a later start
        opens a fresh one, from the beginning; a clip pauses and resumes at
        its frame position. `startOk` says whether a fresh player could be
        opened. */
    method TogglePlayPause(startOk: bool)
      requires Valid()
      modifies this
      ensures Valid()
      ensures isMp3File == old(isMp3File) && playEnabled == old(playEnabled)
      ensures timeText == old(timeText) && mp3Metadata == old(mp3Metadata)
      ensures isMp3File ==> clip == old(clip)
      ensures !isMp3File ==> mp3Player == old(mp3Player)
      // nothing to play
      ensures (if isMp3File then old(mp3Player) == None else old(clip) == None) ==>
        isPlaying == old(isPlaying) && isPaused == old(isPaused) && playText == old(playText) &&
        stopEnabled == old(stopEnabled) && timerRunning == old(timerRunning) &&
        mp3Player == old(mp3Player) && clip == old(clip)
      // pause
      ensures (if isMp3File then old(mp3Player) != None else old(clip) != None) && old(isPlaying) ==>
        !isPlaying && isPaused && playText == PlayText && stopEnabled && !timerRunning &&
        (isMp3File ==> mp3Player == Some(Mp3Player(true))) &&
        (!isMp3File ==> clip == Some(old(clip).value.(running := false)))
      // start or resume
      ensures (if isMp3File then old(mp3Player) != None && startOk else old(clip) != None) && !old(isPlaying) ==>
        isPlaying && !isPaused && playText == PauseText && stopEnabled && timerRunning &&
        (isMp3File ==> mp3Player == Some(Mp3Player(false))) &&
        (!isMp3File ==> clip == Some(old(clip).value.(running := true)))
      // a fresh JLayer player could not be opened
      ensures isMp3File && old(mp3Player) != None && !startOk && !old(isPlaying) ==>
        !isPlaying && !isPaused && playText == PlayText && !stopEnabled &&
        timerRunning == old(timerRunning) && mp3Player == old(mp3Player)
    {
      if isMp3File {
        if mp3Player == None {
          return;
        }
        if isPlaying {
          mp3Player := Some(Mp3Player(true));
          isPlaying := false;
          isPaused := true;
          playText := PlayText;
          stopEnabled := true;
          timerRunning := false;
        } else if startOk {
          mp3Player := Some(Mp3Player(false));
          isPaused := false;
          isPlaying := true;
          playText := PauseText;
          stopEnabled := true;
          timerRunning := true;
        } else {
          isPlaying := false;
          isPaused := false;
          playText := PlayText;
          stopEnabled := false;
        }
      } else {
        if clip == None {
          return;
        }
        if isPlaying {
          clip := Some(clip.value.(running := false));
          isPlaying := false;
          isPaused := true;
          playText := PlayText;
          stopEnabled := true;
          timerRunning := false;
        } else {
          clip := Some(clip.value.(running := true));
          isPaused := false;
          isPlaying := true;
          playText := PauseText;
          stopEnabled := true;
          timerRunning := true;
        }
      }
    }

    /** The stop button: the MP3 side closes the player (if any); the clip
        side, which needs a clip, rewinds it to frame 0, zeroes the
        progress and shows the clock at the start. Both leave the editor
        stopped, not paused, with play enabled. */
    method Stop()
      requires Valid()
      modifies this, waveform
      ensures Valid()
      ensures isMp3File == old(isMp3File) && mp3Metadata == old(mp3Metadata)
      ensures waveform.waveformData == old(waveform.waveformData)
      ensures waveform.audioDurationMicros == old(waveform.audioDurationMicros)
      ensures !isMp3File && old(clip) == None ==>
        isPlaying == old(isPlaying) && isPaused == old(isPaused) && playText == old(playText) &&
        playEnabled == old(playEnabled) && stopEnabled == old(stopEnabled) &&
        timerRunning == old(timerRunning) && timeText == old(timeText) &&
        clip == old(clip) && mp3Player == old(mp3Player) && waveform.progress == old(waveform.progress)
      ensures isMp3File || old(clip) != None ==>
        !isPlaying && !isPaused && playText == PlayText && playEnabled && !stopEnabled && !timerRunning
      ensures isMp3File ==>
        clip == old(clip) && timeText == old(timeText) && waveform.progress == old(waveform.progress) &&
        mp3Player == (if old(mp3Player) == None then None else Some(Mp3Player(true)))
      ensures !isMp3File && old(clip) != None ==>
        clip == Some(old(clip).value.(running := false, framePosition := 0)) &&
        mp3Player == old(mp3Player) && waveform.progress == 0.0 &&
        timeText == TimeText(clip.value)
    {
      if isMp3File {
        if mp3Player != None {
          mp3Player := Some(Mp3Player(true));
        }
        ShowStopped();
      } else {
        if clip == None {
          return;
        }
        RewindClip(clip.value);
      }
    }

    /** The controls of the stopped state: play enabled and reading
        "Play", stop disabled, the progress timer stopped. */
    method ShowStopped()
      modifies this
      ensures !isPlaying && !isPaused && playText == PlayText && playEnabled && !stopEnabled && !timerRunning
      ensures isMp3File == old(isMp3File) && clip == old(clip) && mp3Player == old(mp3Player)
      ensures mp3Metadata == old(mp3Metadata) && timeText == old(timeText)
    {
      isPlaying := false;
      isPaused := false;
      playText := PlayText;
      playEnabled := true;
      stopEnabled := false;
      timerRunning := false;
    }

    /** Rewinds the clip `c` to frame 0, zeroes the progress, shows the
        clock at the start and the stopped controls. */
    method RewindClip(c: Clip)
      modifies this, waveform
      ensures clip == Some(c.(running := false, framePosition := 0)) && waveform.progress == 0.0
      ensures timeText == TimeText(clip.value)
      ensures !isPlaying && !isPaused && playText == PlayText && playEnabled && !stopEnabled && !timerRunning
      ensures isMp3File == old(isMp3File) && mp3Player == old(mp3Player) && mp3Metadata == old(mp3Metadata)
      ensures waveform.waveformData == old(waveform.waveformData)
      ensures waveform.audioDurationMicros == old(waveform.audioDurationMicros)
    {
      clip := Some(c.(running := false, framePosition := 0));
      waveform.SetProgress(0.0);
      timeText := "00:00 / " + FormatClock(LengthMicros(c));
      RewoundTimeText(c);
      ShowStopped();
    }

    /** One firing of the progress timer (`updateProgress`). With an open
        clip of positive length, the progress becomes position over length
        and the label shows both clocks; if the editor believes it is
        playing but the clip has stopped within a second of its end, the
        clip is rewound and the editor returns to the stopped state. */
    method TimerTick()
      requires Valid()
      modifies this, waveform
      ensures Valid()
      ensures isMp3File == old(isMp3File) && mp3Player == old(mp3Player) && mp3Metadata == old(mp3Metadata)
      ensures waveform.waveformData == old(waveform.waveformData)
      ensures waveform.audioDurationMicros == old(waveform.audioDurationMicros)
      ensures !(old(clip) != None && old(clip).value.open && LengthMicros(old(clip).value) > 0) ==>
        clip == old(clip) && timeText == old(timeText) && waveform.progress == old(waveform.progress) &&
        isPlaying == old(isPlaying) && isPaused == old(isPaused) && playText == old(playText) &&
        playEnabled == old(playEnabled) && stopEnabled == old(stopEnabled) && timerRunning == old(timerRunning)
      ensures old(clip) != None && old(clip).value.open && LengthMicros(old(clip).value) > 0 ==>
        var c := old(clip).value;
        var finished := old(isPlaying) && !c.running && PositionMicros(c) >= LengthMicros(c) - FinishTolerance;
        clip != None && timeText == TimeText(clip.value) &&
        (!finished ==>
          clip == old(clip) &&
          waveform.progress == Clamp(PositionMicros(c) as real / LengthMicros(c) as real) &&
          isPlaying == old(isPlaying) && isPaused == old(isPaused) && playText == old(playText) &&
          playEnabled == old(playEnabled) && stopEnabled == old(stopEnabled) && timerRunning == old(timerRunning)) &&
        (finished ==>
          clip == Some(c.(running := false, framePosition := 0)) && waveform.progress == 0.0 &&
          !isPlaying && !isPaused && playText == PlayText && playEnabled && !stopEnabled && !timerRunning)
    {
      if clip != None && clip.value.open {
        var c := clip.value;
        var position := PositionMicros(c);
        var length := LengthMicros(c);
        if length > 0 {
          waveform.SetProgress(position as real / length as real);
          timeText := FormatClock(position) + " / " + FormatClock(length);
          assert timeText == TimeText(c);
          if isPlaying && !c.running && position >= length - FinishTolerance {
            RewindClip(c);
          }
        }
      }
    }

    /** `onSeek` with a fraction in [0, 1] (the waveform only ever passes a
        clamped one): an open clip moves to that fraction of its frames,
        rounded down, and the label follows; the play state is untouched. */
    method Seek(fraction: real)
      requires Valid()
      requires 0.0 <= fraction <= 1.0
      modifies this
      ensures Valid()
      ensures isMp3File == old(isMp3File) && mp3Player == old(mp3Player) && mp3Metadata == old(mp3Metadata)
      ensures isPlaying == old(isPlaying) && isPaused == old(isPaused) && playText == old(playText)
      ensures playEnabled == old(playEnabled) && stopEnabled == old(stopEnabled) && timerRunning == old(timerRunning)
      ensures !(old(clip) != None && old(clip).value.open) ==> clip == old(clip) && timeText == old(timeText)
      ensures old(clip) != None && old(clip).value.open ==>
        var c := old(clip).value;
        clip == Some(c.(framePosition := SeekTarget(c.frameLength, fraction))) &&
        timeText == (if LengthMicros(c) > 0 then TimeText(clip.value) else old(timeText))
    {
      if clip != None && clip.value.open {
        var c := clip.value;
        var target := (c.frameLength as real * fraction).Floor;
        assert target == SeekTarget(c.frameLength, fraction);
        var moved := c.(framePosition := target);
        clip := Some(moved);
        if LengthMicros(c) > 0 {
          timeText := TimeText(moved);
        }
      }
    }

    /** A press on the waveform: the waveform moves its progress marker and,
        once it has an envelope, the clip seeks to the pressed fraction. */
    method WaveformPressed(x: int, width: int)
      requires Valid()
      requires width > 0
      modifies this, waveform
      ensures Valid()
      ensures isPlaying == old(isPlaying) && isPaused == old(isPaused) && timerRunning == old(timerRunning)
      ensures waveform.waveformData == old(waveform.waveformData)
      ensures old(waveform.waveformData) == [] ==> clip == old(clip) && waveform.progress == old(waveform.progress)
      ensures old(waveform.waveformData) != [] ==>
        waveform.progress == Clamp(x as real / width as real) &&
        (old(clip) != None && old(clip).value.open ==>
          clip == Some(old(clip).value.(framePosition := SeekTarget(old(clip).value.frameLength, waveform.progress))))
    {
      var fraction := waveform.MousePressed(x, width);
      if fraction != None {
        Seek(fraction.value);
        assert fraction.value == waveform.progress;
      }
    }

    /** The JLayer playback thread returned (the track ended or the player
        was closed): the editor shows the stopped state. */
    method Mp3PlaybackEnded()
      requires Valid()
      modifies this
      ensures Valid()
      ensures !isPlaying && !isPaused && playText == PlayText && !stopEnabled && !timerRunning
      ensures isMp3File == old(isMp3File) && clip == old(clip) && mp3Player == old(mp3Player)
      ensures playEnabled == old(playEnabled) && timeText == old(timeText) && mp3Metadata == old(mp3Metadata)
    {
      isPlaying := false;
      isPaused := false;
      playText := PlayText;
      stopEnabled := false;
      timerRunning := false;
    }

    /** The JLayer playback thread failed: the editor shows the stopped
        state but leaves the progress timer as it was. */
    method Mp3PlaybackFailed()
      requires Valid()
      modifies this
      ensures Valid()
      ensures !isPlaying && !isPaused && playText == PlayText && !stopEnabled
      ensures timerRunning == old(timerRunning)
      ensures isMp3File == old(isMp3File) && clip == old(clip) && mp3Player == old(mp3Player)
      ensures playEnabled == old(playEnabled) && timeText == old(timeText) && mp3Metadata == old(mp3Metadata)
    {
      isPlaying := false;
      isPaused := false;
      playText := PlayText;
      stopEnabled := false;
    }

    /** A running clip plays `frames` more frames on its own, stopping at
        its end. */
    method ClipPlays(frames: nat)
      requires Valid()
      modifies this
      ensures Valid()
      ensures isMp3File == old(isMp3File) && mp3Player == old(mp3Player) && mp3Metadata == old(mp3Metadata)
      ensures isPlaying == old(isPlaying) && isPaused == old(isPaused) && playText == old(playText)
      ensures playEnabled == old(playEnabled) && stopEnabled == old(stopEnabled)
      ensures timerRunning == old(timerRunning) && timeText == old(timeText)
      ensures !(old(clip) != None && old(clip).value.running) ==> clip == old(clip)
      ensures old(clip) != None && old(clip).value.running ==>
        var c := old(clip).value;
        var end := c.framePosition + frames >= c.frameLength;
        clip == Some(c.(framePosition := if end then c.frameLength else c.framePosition + frames,
                        running := !end))
    {
      if clip != None && clip.value.running {
        var c := clip.value;
        if c.framePosition + frames >= c.frameLength {
          clip := Some(c.(framePosition := c.frameLength, running := false));
        } else {
          clip := Some(c.(framePosition := c.framePosition + frames));
        }
      }
    }
  }
}
