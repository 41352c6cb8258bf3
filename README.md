# intellij-omni-viewer core, modelled in Dafny

This project models the host-independent logic of the omni-viewer IntelliJ
plugin: its audio viewer and its JSON Lines viewer.

Audio viewer:

- **Waveform** (`waveform_component.dfy`, modules `Pcm`, `Waveform`,
  `Timeline`).
  - The PCM envelope extractor reads a stream in buffers of
    `framesPerPoint` frames. It assembles the first channel's sample of
    every frame from 1, 2 or 4 bytes in either byte order, narrows it to a
    signed value, normalises it, and emits the mean magnitude per read.
  - The component's own state: data, progress and timeline duration.
  - The timeline: its interval choice, the marker sequence and the
    `m:ss.mmm` labels.
- **MP3 frame fold** (`mp3_waveform_extractor.dfy`, module `Mp3Extract`).
  It folds the decoder's frames into at most 2000 amplitude points and a
  16-bit little-endian byte buffer.
- **Audio editor controller** (`audio_editor_component.dfy`, module
  `AudioEditor`).
  - The extension gate and the Java Sound and JLayer load paths.
  - The file-size estimates of MP3 duration and bitrate, and their labels.
  - The play/pause, stop, progress-tick and seek handlers over the play
    state and the buttons.

JSON Lines viewer:

- **JSON popup** (`json_popup_component.dfy`, modules `HtmlEscape`,
  `JsonFormat`, `JsonHighlight`): the pretty-printer, the HTML escaper and
  the span-tagging syntax highlighter.
- **JSON Lines editor** (`jsonl_editor_component.dfy`, module `Jsonl`): the
  shallow JSON validity test, and the hover state machine that mouse events
  and the delayed show drive.

`common.dfy` holds shared pieces: `Option`, decimal rendering and parsing,
Java's integer wrap-around and `(long)` cast, arithmetic lemmas, and
`toLowerCase`/`trim`.

## Modelling choices

- **Foreign libraries become inputs.**
  - Java Sound, MP3SPI and JLayer are replaced by what the code observes
    from them.
  - A PCM stream is its format, its frame length and the successive byte
    chunks `read` returns.
  - An MP3 decode is a sequence of frame events: a decoded `short[]` with
    its channel count, a non-sample output, or a stop (null header, null
    output, or an exception).
  - A clip is a record: open, running, frame position, frame length and
    frame rate.
  - How a Java Sound load ends is a datatype with five cases:
    - not recognised;
    - a read error before the waveform stream is read;
    - no line, after the waveform stream was read;
    - a read error from the clip, after the waveform stream was read;
    - opened.
- **Numbers.**
  - Bytes are their unsigned view `b & 0xFF`, and shorts are integers in
    [-32768, 32767].
  - Java integer wrap-around is written out where it matters:
    - the `long` sample assembly;
    - the `(int)` cast of frames per point;
    - the timeline's `long` 5-minute round-up and its final product.
  - Floats are exact reals.
- **Events and callbacks.** Threads, timers and `invokeLater` callbacks are
  events the caller applies one at a time. Examples:
  - `TimerTick`;
  - `HoverDelayElapsed`;
  - `Mp3PlaybackEnded` and `Mp3PlaybackFailed`;
  - `ClipPlays`, the clip advancing while it runs.
- **Timeline duration on the JLayer path.**
  - `generateMP3WaveformData` first sets the file-size estimate as the
    timeline duration.
  - It then hands a stream over the decoded bytes (44100 frames a second,
    length known) to `setWaveformData`. That call replaces the duration
    with the decoded length.
  - So the timeline of a JLayer-loaded MP3 is `bytes/4 * 10^6 / 44100` µs.
    For the 1000-frame fallback pattern that is 22675 µs.
  - The model keeps this behaviour as written (`OpenWithJLayer`,
    `Mp3TimelineLength`).
- **Lines of a document.** The document's lines are a parameter of the JSON
  Lines editor, standing in for `getText().split("\n")`.

## Model

| member | source | states |
|---|---|---|
| Decimal.ZeroPadRoundTrip | src/main/java/com/omniviewer/audio/WaveformComponent.java:349 | a number below 10^width rendered with `%0<width>d` has exactly `width` digits and parses back to the number |
| JavaArith.JavaLong | src/main/java/com/omniviewer/audio/WaveformComponent.java:129 | the result lies in the `long` range and equals the input whenever the input already does |
| JavaArith.JavaLongShift | src/main/java/com/omniviewer/audio/WaveformComponent.java:129-138 | wrapping after every shift-and-or step of the sample assembly gives the same `long` as wrapping once at the end |
| JavaArith.LongOfReal | src/main/java/com/omniviewer/audio/WaveformComponent.java:77 | the `(long)` cast rounds toward zero inside the `long` range and saturates at `Long.MAX_VALUE`/`Long.MIN_VALUE` outside it |
| Strings.ToLower | src/main/java/com/omniviewer/audio/AudioEditorComponent.java:190 | lower-casing keeps the length and lower-cases every character |
| Strings.TrimStart | src/main/java/com/omniviewer/jsonl/JsonlEditorComponent.java:194 | the result is a suffix that starts with a character above `' '`, and every dropped character is at most `' '` |
| Strings.TrimEnd | src/main/java/com/omniviewer/jsonl/JsonlEditorComponent.java:194 | the result is a prefix that ends with a character above `' '`, and every dropped character is at most `' '` |
| Strings.TrimEmptyIff | src/main/java/com/omniviewer/jsonl/JsonlEditorComponent.java:194-197 | `trim()` is empty exactly when every character is at most `' '`; otherwise it starts and ends with a character above `' '` |
| Pcm.WordLEIsReversedBE | src/main/java/com/omniviewer/audio/WaveformComponent.java:129-138 | little-endian assembly of w bytes equals big-endian assembly of the same bytes reversed |
| Pcm.WordBEBound | src/main/java/com/omniviewer/audio/WaveformComponent.java:130-133 | the big-endian word of w bytes is an unsigned value below 256^w |
| Pcm.WordLEBound | src/main/java/com/omniviewer/audio/WaveformComponent.java:134-137 | the little-endian word of w bytes is an unsigned value below 256^w |
| Pcm.Narrow | src/main/java/com/omniviewer/audio/WaveformComponent.java:140-146 | the `(byte)`, `(short)` and `(int)` casts give a value in [-m/2, m/2) |
| Pcm.SampleIsTwosComplement | src/main/java/com/omniviewer/audio/WaveformComponent.java:140-158 | for w in {1, 2, 4} the normalised sample is the w-byte two's-complement value of the assembled word over 2^(8w-1), so it lies in [-1, 1) |
| Pcm.NarrowFits8 | src/main/java/com/omniviewer/audio/WaveformComponent.java:141-153 | narrowing a 1-byte word gives its two's-complement value, and that value over 128 lies in [-1, 1) |
| Pcm.NarrowFits16 | src/main/java/com/omniviewer/audio/WaveformComponent.java:143-155 | narrowing a 2-byte word gives its two's-complement value, and that value over 32768 lies in [-1, 1) |
| Pcm.NarrowFits32 | src/main/java/com/omniviewer/audio/WaveformComponent.java:145-157 | narrowing a 4-byte word gives its two's-complement value, and that value over 2^31 lies in [-1, 1) |
| Pcm.NormalizedSample16LE | src/main/java/com/omniviewer/audio/WaveformComponent.java:134-155 | a 16-bit little-endian sample normalises to `(short)(lo + 256·hi) / 32768` |
| Pcm.NormalizedPair | src/main/java/com/omniviewer/audio/WaveformComponent.java:134-155 | the same, for the byte pair at any position of a buffer |
| Waveform.PcmDuration | src/main/java/com/omniviewer/audio/WaveformComponent.java:73-78 | for a whole frame rate and fewer than 10^12 frames, the stream's duration is `frames·10^6/rate` µs rounded down |
| Waveform.FramesPerPoint | src/main/java/com/omniviewer/audio/WaveformComponent.java:111-115 | frames per point are at least 1 and fit an `int`; they never exceed `totalFrames/1000` from 1000 frames on, and equal it below 1000·2^31 frames, where the `(int)` cast starts to wrap; they are 1 below 2000 frames and for an unknown length |
| Waveform.FramesPerPointWraps | src/main/java/com/omniviewer/audio/WaveformComponent.java:112-114 | past the `int` range the cast wraps: 1000·2^31 frames give 1 frame per point, and 1000·2^32 + 5000 frames give 5 |
| Waveform.BufferSize | src/main/java/com/omniviewer/audio/WaveformComponent.java:117 | the buffer holds whole frames, exactly framesPerPoint of them (one envelope point's worth), and is empty only when a frame has no bytes |
| Waveform.EnvelopeStep | src/main/java/com/omniviewer/audio/WaveformComponent.java:120-167 | a non-empty read contributes exactly its own point (if any) ahead of what the later reads give |
| Waveform.EnvelopeAdvance | src/main/java/com/omniviewer/audio/WaveformComponent.java:120-167 | appending one read's point to the data gathered so far keeps that data a prefix of the whole envelope |
| Waveform.ReadInto | src/main/java/com/omniviewer/audio/WaveformComponent.java:120 | a read fills the front of the buffer with the chunk |
| Waveform.AssembleSample | src/main/java/com/omniviewer/audio/WaveformComponent.java:129-138 | the assembly loops give the `long` of the w bytes at `i` in the stream's byte order |
| Waveform.ConvertSample | src/main/java/com/omniviewer/audio/WaveformComponent.java:140-158 | widths 1, 2 and 4 are narrowed and divided by 128, 32768 and 2^31; any other width keeps the raw value |
| Waveform.ReadSample | src/main/java/com/omniviewer/audio/WaveformComponent.java:129-158 | the sample read at `i` is the normalised sample of its bytes |
| Waveform.SumFirstChannel | src/main/java/com/omniviewer/audio/WaveformComponent.java:121-163 | the frame loop's sum and count are the sum of magnitudes and the number of first-channel samples complete in the read |
| Waveform.FirstChannelTaken | src/main/java/com/omniviewer/audio/WaveformComponent.java:126-161 | a frame whose first sample is complete adds its magnitude and one to the count |
| Waveform.FirstChannelSkipped | src/main/java/com/omniviewer/audio/WaveformComponent.java:126 | a frame whose first sample is cut off by the end of the read adds nothing |
| Waveform.ReadPoint | src/main/java/com/omniviewer/audio/WaveformComponent.java:120-167 | a read yields its mean as one point when some sample was processed, and nothing otherwise |
| Waveform.ExtractWaveformData | src/main/java/com/omniviewer/audio/WaveformComponent.java:101-171 | the extracted data is exactly the envelope of the reads |
| Waveform.SumAbsBound | src/main/java/com/omniviewer/audio/WaveformComponent.java:160 | the sum of magnitudes of samples in [-1, 1] lies between 0 and their count |
| Waveform.SamplesNormalized | src/main/java/com/omniviewer/audio/WaveformComponent.java:141-158 | for widths 1, 2 and 4 every first-channel sample lies in [-1, 1] |
| Waveform.ChunkPointInUnitRange | src/main/java/com/omniviewer/audio/WaveformComponent.java:165-167 | a read's point, when there is one, lies in [0, 1] |
| Waveform.EnvelopeInUnitRange | src/main/java/com/omniviewer/audio/WaveformComponent.java:120-167 | there is at most one point per read, and for 1-, 2- and 4-byte samples every point lies in [0, 1] |
| Waveform.EmptyReadEndsExtraction | src/main/java/com/omniviewer/audio/WaveformComponent.java:120 | a read of no bytes ends extraction: nothing after it contributes |
| Waveform.FullReads | src/main/java/com/omniviewer/audio/WaveformComponent.java:120 | reading data in full buffers gives non-empty reads of at most the buffer size |
| Waveform.AlignedChunkHasPoint | src/main/java/com/omniviewer/audio/WaveformComponent.java:125-167 | a non-empty read of whole frames always yields a point |
| Waveform.FullReadsAligned | src/main/java/com/omniviewer/audio/WaveformComponent.java:120 | full reads of frame-aligned data are frame-aligned, and there are ceil(bytes / buffer size) of them |
| Waveform.FullReadsPointCount | src/main/java/com/omniviewer/audio/WaveformComponent.java:117-167 | for frame-aligned data the point count is ceil(bytes / buffer size) |
| Waveform.AlignedReadsOnePointEach | src/main/java/com/omniviewer/audio/WaveformComponent.java:125-167 | every whole-frame read yields exactly one point |
| Waveform.PointCountForFrames | src/main/java/com/omniviewer/audio/WaveformComponent.java:111-167 | a stream of fewer than 2000 frames gives one point per frame; from 1000 frames on it gives at least 1000 points, and fewer than 2000 below 1000·2^31 frames |
| Waveform.BlocksForFrames | src/main/java/com/omniviewer/audio/WaveformComponent.java:111-115 | the number of framesPerPoint blocks that cover the frames is that count below 2000 frames, at least 1000 from 1000 frames on, and below 2000 under 1000·2^31 frames |
| Waveform.Clamp | src/main/java/com/omniviewer/audio/WaveformComponent.java:93 | the result lies in [0, 1]; it is the input inside [0, 1], 0 below and 1 above |
| Waveform.WaveformComponent.constructor | src/main/java/com/omniviewer/audio/WaveformComponent.java:17-21 | a new waveform has no data, progress 0 and duration 0 |
| Waveform.WaveformComponent.SetWaveformData | src/main/java/com/omniviewer/audio/WaveformComponent.java:69-85 | the data becomes the stream's envelope; a stream of known length sets the duration to its length, otherwise the duration is kept; progress is kept |
| Waveform.WaveformComponent.SetAudioDuration | src/main/java/com/omniviewer/audio/WaveformComponent.java:87-90 | only the duration changes |
| Waveform.WaveformComponent.SetProgress | src/main/java/com/omniviewer/audio/WaveformComponent.java:92-95 | progress becomes the clamped value; nothing else changes |
| Waveform.WaveformComponent.MousePressed | src/main/java/com/omniviewer/audio/WaveformComponent.java:40-46 | with no data nothing happens; otherwise progress and the seek event's fraction are `x/width` clamped to [0, 1] |
| Timeline.BaseIntervalMonotone | src/main/java/com/omniviewer/audio/WaveformComponent.java:251-311 | the first-stage interval only takes values from {1, 2, 5, 10, 15, 30, 60, 120, 300, 600, 900, 1800} and never decreases as the clip grows |
| Timeline.CrowdedInterval | src/main/java/com/omniviewer/audio/WaveformComponent.java:321-336 | for inputs up to `Long.MAX_VALUE − 300` the re-snapped interval is positive, at least its input, a table value or a multiple of 300 above 600, and at most 600 or input + 300 |
| Timeline.CeilDiv | src/main/java/com/omniviewer/audio/WaveformComponent.java:320 | the result is the ceiling of a / b |
| Timeline.EstimateFitsInt | src/main/java/com/omniviewer/audio/WaveformComponent.java:314 | the `(int)` cast of the marker estimate never wraps for the durations modelled |
| Timeline.WideIntervalChoice | src/main/java/com/omniviewer/audio/WaveformComponent.java:249-340 | for widths of at least 50 px the result is s·10^6 for a positive nice s with totalSeconds/s ≤ width/50; s is the first-stage interval when that already fits and otherwise at least ceil(totalSeconds / (width/50)) |
| Timeline.CrowdedChoice | src/main/java/com/omniviewer/audio/WaveformComponent.java:318-337 | re-snapping ceil(totalSeconds/maxMarkers) gives a nice interval that leaves at most maxMarkers markers |
| Timeline.CrowdedFits | src/main/java/com/omniviewer/audio/WaveformComponent.java:318-337 | any interval of at least ceil(totalSeconds/maxMarkers) leaves at most maxMarkers markers |
| Timeline.NarrowIntervalChoice | src/main/java/com/omniviewer/audio/WaveformComponent.java:313-339 | below 50 px the first-stage interval is kept when it leaves no marker; otherwise the division by zero saturates, the 5-minute round-up wraps negative and the result wraps to 292,000,000 µs |
| Timeline.IntervalPositive | src/main/java/com/omniviewer/audio/WaveformComponent.java:249-340 | the interval is always a positive whole number of seconds, in µs |
| Timeline.FormatTimeParses | src/main/java/com/omniviewer/audio/WaveformComponent.java:342-350 | the label parses back to minutes, seconds and milliseconds computed from the µs |
| Timeline.TimeFieldsSum | src/main/java/com/omniviewer/audio/WaveformComponent.java:343-346 | minutes, seconds and milliseconds add back up to the µs truncated to whole milliseconds |
| Timeline.FormatTimeRoundTrip | src/main/java/com/omniviewer/audio/WaveformComponent.java:342-350 | the label is `m:ss.mmm` with ss < 60 and mmm < 1000, and m·60,000,000 + ss·1,000,000 + mmm·1000 = µs − µs mod 1000 |
| Timeline.MarkersCount | src/main/java/com/omniviewer/audio/WaveformComponent.java:232 | the loop visits (d − t)/step + 1 times when t ≤ d, and none otherwise |
| Timeline.MarkersAt | src/main/java/com/omniviewer/audio/WaveformComponent.java:232 | the k-th marker is at t + k·step |
| Timeline.MarkersIncreasing | src/main/java/com/omniviewer/audio/WaveformComponent.java:232 | markers at multiples of a positive step are strictly increasing |
| Timeline.TimelineShape | src/main/java/com/omniviewer/audio/WaveformComponent.java:232-246 | from 0 the markers are 0, i, 2i, … up to the last multiple of i not past the duration, strictly increasing |
| Timeline.MarkerLoop | src/main/java/com/omniviewer/audio/WaveformComponent.java:232-246 | the marker loop produces exactly the marker sequence from 0 |
| Timeline.DrawTimeline | src/main/java/com/omniviewer/audio/WaveformComponent.java:216-247 | no markers for a duration ≤ 0; otherwise the interval is a positive whole number of seconds and the markers are 0, i, 2i, … with the last at most the duration and less than one interval before it |
| Mp3Extract.FrameAmplitudes | src/main/java/com/omniviewer/audio/MP3WaveformExtractor.java:66 | no points come from a position past the end of the samples |
| Mp3Extract.Pack | src/main/java/com/omniviewer/audio/MP3WaveformExtractor.java:83 | packing gives two bytes per sample |
| Mp3Extract.DecodedFrames | src/main/java/com/omniviewer/audio/MP3WaveformExtractor.java:39-57 | the frames that contribute are sample buffers only |
| Mp3Extract.PackAppend | src/main/java/com/omniviewer/audio/MP3WaveformExtractor.java:88 | packing frame after frame is packing their samples together |
| Mp3Extract.TakeAppend | src/main/java/com/omniviewer/audio/MP3WaveformExtractor.java:66 | capping frame by frame is capping the whole amplitude sequence |
| Mp3Extract.RunMatchesReference | src/main/java/com/omniviewer/audio/MP3WaveformExtractor.java:39-96 | the frame loop's points are the first 2000 amplitudes of the sample frames before the first stop, and its bytes are all their samples packed |
| Mp3Extract.ExtractReference | src/main/java/com/omniviewer/audio/MP3WaveformExtractor.java:22-113 | the same from an empty start, and a failure outside the loop leaves both results empty |
| Mp3Extract.StopEndsExtraction | src/main/java/com/omniviewer/audio/MP3WaveformExtractor.java:41-57 | nothing after the first stop contributes, and a non-sample output contributes nothing |
| Mp3Extract.ExtractCapped | src/main/java/com/omniviewer/audio/MP3WaveformExtractor.java:35-79 | there are never more than 2000 points |
| Mp3Extract.ChannelSumBound | src/main/java/com/omniviewer/audio/MP3WaveformExtractor.java:70-72 | the summed magnitudes of n channels are at most n·32768 |
| Mp3Extract.AmplitudeRange | src/main/java/com/omniviewer/audio/MP3WaveformExtractor.java:66-77 | every point lies in [0, 32768/32767] |
| Mp3Extract.AmplitudeAboveOne | src/main/java/com/omniviewer/audio/MP3WaveformExtractor.java:71-76 | a lone −32768 sample gives the point 32768/32767, above 1 |
| Mp3Extract.PackAt | src/main/java/com/omniviewer/audio/MP3WaveformExtractor.java:84-87 | byte 2k is sample k's low byte and byte 2k+1 its high byte |
| Mp3Extract.ShortBytesRoundTrip | src/main/java/com/omniviewer/audio/MP3WaveformExtractor.java:85-86 | the two bytes of a short make its 16-bit word, and narrowing that word gives the short back |
| Mp3Extract.PackRoundTrip | src/main/java/com/omniviewer/audio/MP3WaveformExtractor.java:83-88 | reading each packed byte pair back as a signed little-endian short recovers the sample |
| Mp3Extract.PackNormalizes | src/main/java/com/omniviewer/audio/AudioEditorComponent.java:460-475 | the waveform's 16-bit little-endian reading of the packed bytes gives each sample over 32768 |
| Mp3Extract.SampleBytesNormalize | src/main/java/com/omniviewer/audio/AudioEditorComponent.java:460-475 | a sample's low and high byte, read as a 16-bit little-endian sample, normalise to the sample over 32768 |
| Mp3Extract.Mp3WaveformExtractor.constructor | src/main/java/com/omniviewer/audio/MP3WaveformExtractor.java:19-20 | a new extractor holds no points and no bytes |
| Mp3Extract.Mp3WaveformExtractor.ExtractWaveform | src/main/java/com/omniviewer/audio/MP3WaveformExtractor.java:22-113 | the extractor's points and bytes become those of the reference extraction |
| Mp3Extract.AppendFramePoints | src/main/java/com/omniviewer/audio/MP3WaveformExtractor.java:66-80 | one frame appends its amplitudes while fewer than 2000 points exist, and the count follows the list |
| Mp3Extract.FrameAmplitude | src/main/java/com/omniviewer/audio/MP3WaveformExtractor.java:67-76 | a point is the magnitudes of the channels present, summed, over the channel count and over 32767 |
| Mp3Extract.PackFrame | src/main/java/com/omniviewer/audio/MP3WaveformExtractor.java:83-87 | the frame's byte array is its samples packed low byte first |
| AudioEditor.LoadRouteSupported | src/main/java/com/omniviewer/audio/AudioEditorComponent.java:190-212 | a file is accepted exactly when its lower-cased name ends in .wav, .au, .aiff or .mp3; exactly the .mp3 names go to the MP3 path |
| AudioEditor.LoadRouteIgnoresCase | src/main/java/com/omniviewer/audio/AudioEditorComponent.java:190 | names differing only in case are routed alike |
| AudioEditor.DurationEstimate | src/main/java/com/omniviewer/audio/AudioEditorComponent.java:536-571 | the estimate is at least 1 s and is size/rate rounded down for the band's byte rate (8000, 16000, 20000 or 24000, or 16000 when the probe fails), and 1 below one second of data |
| AudioEditor.DurationDropsAtBandEdge | src/main/java/com/omniviewer/audio/AudioEditorComponent.java:549-554 | 1,048,575 bytes estimate 131 s and 1,048,576 bytes only 65 s |
| AudioEditor.BitrateWithin | src/main/java/com/omniviewer/audio/AudioEditorComponent.java:373 | size·8/(size/rate) lies between 8·rate and the limit the band allows |
| AudioEditor.Mp3BitrateBounds | src/main/java/com/omniviewer/audio/AudioEditorComponent.java:369-373 | the estimated bitrate is always below 320000; it is below 64000 exactly for files under 8000 bytes, and below 128000 exactly under 1 MiB (under 16000 bytes when the probe fails) |
| AudioEditor.Mp3LabelsBySize | src/main/java/com/omniviewer/audio/AudioEditorComponent.java:376-396 | the 48 kHz label never shows and the depth is always 16 bit; 22.05 kHz shows exactly under 8000 bytes, mono exactly under 1 MiB (16000 bytes when the probe fails) |
| AudioEditor.FormatClockRoundTrip | src/main/java/com/omniviewer/audio/AudioEditorComponent.java:666-671 | the clock is `mm:ss` with ss < 60, and minutes·60 + seconds are the whole seconds of the µs |
| AudioEditor.ClockAtStart | src/main/java/com/omniviewer/audio/AudioEditorComponent.java:666-671 | zero µs reads `00:00` |
| AudioEditor.Mp3Reads | src/main/java/com/omniviewer/audio/AudioEditorComponent.java:471-475 | the stream over the decoded bytes is read in full buffers that fit the fixed 16-bit stereo format |
| AudioEditor.Mp3EnvelopeShape | src/main/java/com/omniviewer/audio/AudioEditorComponent.java:460-475 | the envelope of decoded MP3 bytes lies in [0, 1]; it has one point per frame under 2000 frames, at least 1000 points from 1000 frames on, and fewer than 2000 below 1000·2^31 frames |
| AudioEditor.Mp3TimelineLength | src/main/java/com/omniviewer/audio/AudioEditorComponent.java:471-475 | the timeline of decoded bytes is bytes/4 frames at 44100 frames a second, rounded down to µs; the 1000-frame fallback gives 22675 µs |
| AudioEditor.FallbackEnvelopeSize | src/main/java/com/omniviewer/audio/AudioEditorComponent.java:494-527 | the fallback pattern's 1000 frames give exactly 1000 points |
| AudioEditor.SeekTarget | src/main/java/com/omniviewer/audio/AudioEditorComponent.java:853-855 | the target frame is frameLength × fraction rounded down, so between 0 and frameLength, 0 at 0 and frameLength at 1 |
| AudioEditor.RewoundTimeText | src/main/java/com/omniviewer/audio/AudioEditorComponent.java:839 | a rewound clip's label is `00:00 / ` followed by its length |
| AudioEditor.LoadPlayable | src/main/java/com/omniviewer/audio/AudioEditorComponent.java:187-354 | play is enabled exactly when a clip or a JLayer player was obtained, never both, which happens for a supported name when Java Sound opens a clip or an unrecognised MP3 opens in JLayer; an unsupported name loads nothing |
| AudioEditor.LoadSources | src/main/java/com/omniviewer/audio/AudioEditorComponent.java:187-354 | the MP3 flag follows the extension; once Java Sound has read the waveform stream the envelope is that stream's, even when no line or a read error stops the clip, and then play stays disabled with the stream's own duration; an earlier failure leaves no envelope and no duration; a clip is the one opened; MP3 metadata exists exactly with a JLayer player, whose envelope and duration come from the decoded bytes or the fallback |
| AudioEditor.AudioEditorComponent.constructor | src/main/java/com/omniviewer/audio/AudioEditorComponent.java:47-51 | a new editor is idle (`▶ Play`, stop disabled, `00:00 / 00:00`, progress 0) and holds what loading the file gives |
| AudioEditor.AudioEditorComponent.LoadAudioFile | src/main/java/com/omniviewer/audio/AudioEditorComponent.java:187-264 | from the initial state, loading leaves exactly what `Load` describes and leaves the play state and the buttons alone |
| AudioEditor.AudioEditorComponent.OpenWithJavaSound | src/main/java/com/omniviewer/audio/AudioEditorComponent.java:216-237 | the waveform gets the stream's envelope and its duration (the clip's length if it opened), the clip is kept and play is enabled |
| AudioEditor.AudioEditorComponent.OpenWithJLayer | src/main/java/com/omniviewer/audio/AudioEditorComponent.java:307-327 | a player and the size-based metadata are set, and the waveform's envelope and duration are those of the decoded bytes or the fallback pattern |
| AudioEditor.AudioEditorComponent.TogglePlayPause | src/main/java/com/omniviewer/audio/AudioEditorComponent.java:673-800 | with nothing to play nothing changes; playing pauses (clip stopped, paused, `▶ Play`, stop enabled, timer off); otherwise play starts with the clip's position untouched or a fresh MP3 player; a player that cannot open leaves the state stopped; the controls stay consistent |
| AudioEditor.AudioEditorComponent.Stop | src/main/java/com/omniviewer/audio/AudioEditorComponent.java:802-842 | MP3 stop closes the player and clears both flags; clip stop also rewinds to frame 0, resets progress and the time label; with no clip nothing changes |
| AudioEditor.AudioEditorComponent.ShowStopped | src/main/java/com/omniviewer/audio/AudioEditorComponent.java:816-823 | the controls read stopped: not playing, not paused, `▶ Play` enabled, stop disabled, timer off |
| AudioEditor.AudioEditorComponent.RewindClip | src/main/java/com/omniviewer/audio/AudioEditorComponent.java:826-841 | the clip stops at frame 0, progress is 0, the label shows the rewound clip and the controls read stopped |
| AudioEditor.AudioEditorComponent.TimerTick | src/main/java/com/omniviewer/audio/AudioEditorComponent.java:632-664 | with an open clip of positive length the progress and label follow the clip; once playing and stopped within one second of the end it rewinds and shows stopped; otherwise nothing changes |
| AudioEditor.AudioEditorComponent.Seek | src/main/java/com/omniviewer/audio/AudioEditorComponent.java:851-866 | an open clip moves to the target frame and, if its length is positive, the label is refreshed; no play flag changes |
| AudioEditor.AudioEditorComponent.WaveformPressed | src/main/java/com/omniviewer/audio/WaveformComponent.java:40-46 | with data, progress becomes the clamped click fraction and an open clip seeks to it; with none nothing moves |
| AudioEditor.AudioEditorComponent.Mp3PlaybackEnded | src/main/java/com/omniviewer/audio/AudioEditorComponent.java:725-733 | the finished worker leaves the controls stopped with the timer off |
| AudioEditor.AudioEditorComponent.Mp3PlaybackFailed | src/main/java/com/omniviewer/audio/AudioEditorComponent.java:738-744 | the failed worker clears both flags, shows `▶ Play` and disables stop, and leaves the timer as it was |
| AudioEditor.AudioEditorComponent.ClipPlays | src/main/java/com/omniviewer/audio/AudioEditorComponent.java:785-790 | a running clip advances by the frames played and stops at its end; nothing else changes |
| HtmlEscape.EscapeChar | src/main/java/com/omniviewer/jsonl/JsonPopupComponent.java:348-357 | a special character becomes an entity `&…;`, any other stays itself, and the output never holds `<`, `>`, `"` or `'` |
| HtmlEscape.EscapeAll | src/main/java/com/omniviewer/jsonl/JsonPopupComponent.java:348-357 | escaping character by character leaves no `<` or `>` |
| HtmlEscape.EscapeHtmlAppend | src/main/java/com/omniviewer/jsonl/JsonPopupComponent.java:340-346 | the replace chain distributes over concatenation |
| HtmlEscape.ReplaceChainKeeps | src/main/java/com/omniviewer/jsonl/JsonPopupComponent.java:342-345 | the replacements after `&` leave text without `<`, `>`, `"` and `'` alone, so nothing is escaped twice |
| HtmlEscape.EscapeHtmlOne | src/main/java/com/omniviewer/jsonl/JsonPopupComponent.java:340-357 | on one character the replace chain equals `escapeHtmlChar` |
| HtmlEscape.EscapeHtmlPerChar | src/main/java/com/omniviewer/jsonl/JsonPopupComponent.java:340-357 | `escapeHtml` equals `escapeHtmlChar` applied to every character |
| HtmlEscape.EscapeAllAppend | src/main/java/com/omniviewer/jsonl/JsonPopupComponent.java:348-357 | per-character escaping distributes over concatenation |
| HtmlEscape.UnescapeEscapeAll | src/main/java/com/omniviewer/jsonl/JsonPopupComponent.java:348-357 | decoding the five entities undoes per-character escaping |
| HtmlEscape.EscapeHtmlRoundTrip | src/main/java/com/omniviewer/jsonl/JsonPopupComponent.java:340-346 | decoding the five entities of `escapeHtml(s)` gives `s` back |
| JsonFormat.Indent | src/main/java/com/omniviewer/jsonl/JsonPopupComponent.java:165-168 | the indent is 2·level spaces, and nothing for a level ≤ 0 |
| JsonFormat.AppendIndent | src/main/java/com/omniviewer/jsonl/JsonPopupComponent.java:165-168 | the loop appends exactly that indent |
| JsonFormat.LayoutIsWhitespace | src/main/java/com/omniviewer/jsonl/JsonPopupComponent.java:128-153 | everything the formatter inserts is spaces and line breaks |
| JsonFormat.EmbedsAppend | src/main/java/com/omniviewer/jsonl/JsonPopupComponent.java:109-157 | emitting a character between layout keeps every input character at a recorded position, in order, with only layout between |
| JsonFormat.FormatEmbedsInput | src/main/java/com/omniviewer/jsonl/JsonPopupComponent.java:109-157 | the output contains every input character exactly once, in order, and every other output character is a space or a line break |
| JsonFormat.StringTextCopied | src/main/java/com/omniviewer/jsonl/JsonPopupComponent.java:154-155 | text inside a string without quotes or backslashes is copied as is and leaves the state unchanged |
| JsonFormat.FormatRunSnoc | src/main/java/com/omniviewer/jsonl/JsonPopupComponent.java:109-157 | one more input character appends its layout before, itself, and its layout after, and steps the state |
| JsonFormat.CopiedVerbatim | src/main/java/com/omniviewer/jsonl/JsonPopupComponent.java:110-126 | an escaped character, a backslash, a quote or any character in a string is copied alone; a backslash sets escapeNext, an unescaped quote toggles inString, the level never changes |
| JsonFormat.OpenBracketRewrite | src/main/java/com/omniviewer/jsonl/JsonPopupComponent.java:130-135 | outside strings `{` or `[` becomes itself, a line break and the indent of level + 1, and the level rises by one |
| JsonFormat.CloseBracketRewrite | src/main/java/com/omniviewer/jsonl/JsonPopupComponent.java:136-142 | outside strings `}` or `]` becomes a line break, the indent of level − 1 and itself, and the level falls by one |
| JsonFormat.CommaRewrite | src/main/java/com/omniviewer/jsonl/JsonPopupComponent.java:143-146 | outside strings `,` becomes itself, a line break and the current indent |
| JsonFormat.ColonRewrite | src/main/java/com/omniviewer/jsonl/JsonPopupComponent.java:147-149 | outside strings `:` becomes `: ` and the state is kept |
| JsonFormat.ScalarUnchanged | src/main/java/com/omniviewer/jsonl/JsonPopupComponent.java:150-152 | text with no structural character comes out unchanged at level 0 |
| JsonFormat.FormatChar | src/main/java/com/omniviewer/jsonl/JsonPopupComponent.java:110-156 | one loop iteration appends the character's layout and itself and steps the three flags as the state machine does |
| JsonFormat.FormatJson | src/main/java/com/omniviewer/jsonl/JsonPopupComponent.java:101-163 | the formatter's output is the state machine's text over the whole input |
| JsonHighlight.KeyStartMeaning | src/main/java/com/omniviewer/jsonl/JsonPopupComponent.java:315-325 | a quote starts a key exactly when the nearest earlier character other than space, `\n` or `\t` is `{` or `,` |
| JsonHighlight.IsKeyStart | src/main/java/com/omniviewer/jsonl/JsonPopupComponent.java:315-325 | the backward scan computes exactly that |
| JsonHighlight.WordEnd | src/main/java/com/omniviewer/jsonl/JsonPopupComponent.java:327-338 | the word ends at the first non-letter after a run of letters |
| JsonHighlight.ExtractWord | src/main/java/com/omniviewer/jsonl/JsonPopupComponent.java:327-338 | the scan returns the maximal run of letters from `start` |
| JsonHighlight.NumberEnd | src/main/java/com/omniviewer/jsonl/JsonPopupComponent.java:279-283 | a number runs over digits, `.`, `e`, `E`, `+` and `-` up to the first other character |
| JsonHighlight.Step | src/main/java/com/omniviewer/jsonl/JsonPopupComponent.java:214-310 | every iteration consumes at least one character and stays inside the input |
| JsonHighlight.QuoteStep | src/main/java/com/omniviewer/jsonl/JsonPopupComponent.java:229-244 | a quote consumes exactly itself |
| JsonHighlight.SwitchStep | src/main/java/com/omniviewer/jsonl/JsonPopupComponent.java:252-309 | a character outside strings consumes at least itself and stays inside the input |
| JsonHighlight.NumberStep | src/main/java/com/omniviewer/jsonl/JsonPopupComponent.java:274-288 | a number consumes at least one character and leaves the flags alone |
| JsonHighlight.WordStep | src/main/java/com/omniviewer/jsonl/JsonPopupComponent.java:289-304 | a keyword candidate consumes at least one character and leaves the flags alone |
| JsonHighlight.StepMarkup | src/main/java/com/omniviewer/jsonl/JsonPopupComponent.java:214-310 | with its tags removed, one iteration's output is the escaped text it consumed, and its tag balance is the change of inString |
| JsonHighlight.HighlightMarkup | src/main/java/com/omniviewer/jsonl/JsonPopupComponent.java:207-313 | with its tags removed the output is the escaped input, and the open spans are those of an unterminated string |
| JsonHighlight.HighlightRoundTrip | src/main/java/com/omniviewer/jsonl/JsonPopupComponent.java:207-313 | deleting the span tags and decoding the five entities gives back the input exactly |
| JsonHighlight.SpansBalanced | src/main/java/com/omniviewer/jsonl/JsonPopupComponent.java:229-297 | every span is closed, except one when the input ends inside a string |
| JsonHighlight.HighlightAt | src/main/java/com/omniviewer/jsonl/JsonPopupComponent.java:214-309 | one iteration of the loop emits, consumes and updates the four flags as the step function says |
| JsonHighlight.SwitchAt | src/main/java/com/omniviewer/jsonl/JsonPopupComponent.java:252-309 | the switch emits and consumes as the step function says, changing only afterColon |
| JsonHighlight.NumberAt | src/main/java/com/omniviewer/jsonl/JsonPopupComponent.java:274-288 | the number branch emits and consumes as the step function says |
| JsonHighlight.NumberRest | src/main/java/com/omniviewer/jsonl/JsonPopupComponent.java:279-283 | the inner loop stops at the end of the number and has emitted its characters escaped |
| JsonHighlight.WordAt | src/main/java/com/omniviewer/jsonl/JsonPopupComponent.java:289-304 | the keyword branch emits and consumes as the step function says |
| JsonHighlight.HighlightJsonSyntax | src/main/java/com/omniviewer/jsonl/JsonPopupComponent.java:207-313 | the highlighter's output is the step function run over the whole input |
| Jsonl.DigitRunEnd | src/main/java/com/omniviewer/jsonl/JsonlEditorComponent.java:207 | a run of `\d+` ends at the first non-digit |
| Jsonl.NumberComplete | src/main/java/com/omniviewer/jsonl/JsonlEditorComponent.java:207 | every sign, digits, fraction and exponent of the pattern's shape is matched |
| Jsonl.NumberSound | src/main/java/com/omniviewer/jsonl/JsonlEditorComponent.java:207 | every matched text splits into such parts |
| Jsonl.NumberGrammar | src/main/java/com/omniviewer/jsonl/JsonlEditorComponent.java:207 | the matcher accepts exactly `-?\d+(\.\d+)?([eE][+-]?\d+)?` |
| Jsonl.BlankRejected | src/main/java/com/omniviewer/jsonl/JsonlEditorComponent.java:194-197 | empty or whitespace-only input is not valid |
| Jsonl.DelimitedAccepted | src/main/java/com/omniviewer/jsonl/JsonlEditorComponent.java:200-203 | anything that trims to `{…}` or `[…]` is valid, whatever lies inside |
| Jsonl.AcceptedExactly | src/main/java/com/omniviewer/jsonl/JsonlEditorComponent.java:191-216 | after trimming, valid means non-empty and one of: `{…}`, `[…]`, `true`, `false`, `null`, the number pattern, or text starting and ending with `"` (a lone `"` included) |
| Jsonl.Hidden | src/main/java/com/omniviewer/jsonl/JsonlEditorComponent.java:183-189 | hiding removes the popup and resets the line to −1, leaving a pending show in place |
| Jsonl.MoveEffect | src/main/java/com/omniviewer/jsonl/JsonlEditorComponent.java:112-143 | a move to the current line does nothing; a move elsewhere hides the popup, records the line and schedules exactly one show for it |
| Jsonl.StaleDelayIgnored | src/main/java/com/omniviewer/jsonl/JsonlEditorComponent.java:135-140 | a delayed show for a line that is no longer the hovered one only retires itself: popup and hovered line stay as they are |
| Jsonl.DelayShowsValidLine | src/main/java/com/omniviewer/jsonl/JsonlEditorComponent.java:135-168 | a popup appears only for the still-hovered line when its trimmed text is non-empty and valid, and then it shows that text and resets the line |
| Jsonl.EventsKeepInvariant | src/main/java/com/omniviewer/jsonl/JsonlEditorComponent.java:101-189 | every event keeps "a shown popup implies the hovered line is −1" |
| Jsonl.MoveAfterPopupHides | src/main/java/com/omniviewer/jsonl/JsonlEditorComponent.java:112-125 | while a popup shows, any move hides it and schedules a show for the new line |
| Jsonl.HoverThenWait | src/main/java/com/omniviewer/jsonl/JsonlEditorComponent.java:101-181 | moving to a new line and waiting shows the popup exactly for a valid non-blank line and leaves nothing pending |
| Jsonl.JsonlEditorComponent.constructor | src/main/java/com/omniviewer/jsonl/JsonlEditorComponent.java:25-27 | a new editor has no popup, no pending show and line −1 |
| Jsonl.JsonlEditorComponent.HideCurrentPopup | src/main/java/com/omniviewer/jsonl/JsonlEditorComponent.java:183-189 | the state becomes the hidden state |
| Jsonl.JsonlEditorComponent.MousePressed | src/main/java/com/omniviewer/jsonl/JsonlEditorComponent.java:70-72 | a press hides the popup |
| Jsonl.JsonlEditorComponent.MouseClicked | src/main/java/com/omniviewer/jsonl/JsonlEditorComponent.java:75-77 | a click hides the popup |
| Jsonl.JsonlEditorComponent.MouseExited | src/main/java/com/omniviewer/jsonl/JsonlEditorComponent.java:90-92 | leaving the editor hides the popup |
| Jsonl.JsonlEditorComponent.HandleMouseMove | src/main/java/com/omniviewer/jsonl/JsonlEditorComponent.java:101-144 | the state moves as `OnMove` describes |
| Jsonl.JsonlEditorComponent.ShowJsonPopup | src/main/java/com/omniviewer/jsonl/JsonlEditorComponent.java:146-181 | the state moves as `OnShow` describes: only a non-empty valid trimmed line is shown, after hiding |
| Jsonl.JsonlEditorComponent.HoverDelayElapsed | src/main/java/com/omniviewer/jsonl/JsonlEditorComponent.java:130-143 | the delayed task shows the popup only if its line is still the hovered one |

## Left out

- Foreign libraries. Java Sound, MP3SPI and JLayer are not modelled; the
  MP3SPI registration block is not modelled either. Their results are
  inputs: PCM chunks, decoded frame events, clip records and load outcomes.
- Swing and the editor are not modelled:
  - layout, painting (`paintComponent`, `drawWaveform`, the progress
    overlay, the hover indicator);
  - popup windows and their position;
  - the colour scheme and the HTML header of `createHighlightedJson`;
  - status texts and debug logging.
- The timeline's tick x-positions and label widths are not modelled. A
  tick's label is `Tick.Label`, which is `formatTime` of its time.
- Threads and timers are sequential events. The race is not modelled in
  which the MP3 worker's "finished" callback lands after a pause or stop.
- Floating point is exact real arithmetic. The `float` rounding of
  progress, samples and amplitudes is not modelled.
- `formatFileSize` is not modelled: it is floating-point text formatting.
  `updateMetadata` (the Java Sound metadata labels) and
  `updateMetadataWithError` are not modelled: they only set label texts.
- The public `stop()` and `dispose()` are not modelled: they release
  devices and stop the timer, and no model state depends on them.
- The sine fallback waveform is not modelled: it computes its bytes with
  `Math.sin`. Its bytes are the parameter `fallbackPcm`.
- The catch paths inside `extractWaveformData`'s reads, `formatJson` and
  `showJsonPopup` are not modelled: their exceptions cannot arise from the
  modelled inputs. A line number past the document's end is modelled: it
  shows nothing.
- `toLowerCase`, `Character.isLetter` and `Character.isDigit` are taken
  over ASCII only. `trim` uses Java's rule (characters up to `' '`).
- Document edits after the JSON Lines editor opens are not modelled; the
  lines are fixed.
- Timeline.DrawTimeline: requires a duration of at most 3·10^18 µs. Below
  that bound no intermediate of the marker arithmetic wraps. The same bound
  is on `Timeline.WideIntervalChoice`, `Timeline.CrowdedChoice`,
  `Timeline.NarrowIntervalChoice`, `Timeline.IntervalPositive` and
  `Timeline.EstimateFitsInt`.
- Waveform.PcmDuration: stated only for whole frame rates and fewer than
  10^12 frames. Every rate this plugin produces is whole, and the general
  case is `StreamDurationMicros` itself.
- AudioEditor.Mp3TimelineLength: stated only below 4·10^12 bytes of decoded
  audio.
- AudioEditor.AudioEditorComponent.Seek: requires a fraction in [0, 1]. The
  only caller, the waveform's mouse handler, clamps it first.
- Waveform.WaveformComponent.SetWaveformData: the `IOException` path, which
  empties the data, is not modelled; a read never fails here.
- Java `long` overflow of the clip position and length in µs is not
  modelled; both are unbounded.
- Waveform.BufferSize: the `int` product framesPerPoint × channels ×
  sample bytes is not wrapped; the model keeps the exact product.
  - From 2^31 bytes on, the source allocates a buffer of the wrapped size,
    or throws on a negative size.
  - 16-bit stereo reaches 2^31 bytes past about 5.4·10^8 frames per point,
    which is about 5.4·10^11 frames.
- AudioEditor.Load: after `getClip` succeeds, a failure to open the clip
  leaves the source holding an unopened clip, while the model holds none.
  Play and stop are then disabled, and every other handler checks
  `isOpen`, so no later event can tell the two apart.
- Mp3Extract.FrameAmplitudes: the channel count is taken to be at least 1,
  as JLayer reports it.
  - With 0 channels the source's frame loop would not advance.
  - It would then add NaN points until the 2000-point cap.
