# Timecode previews: a verified model of the decision logic

The program reads a video's frame rate from probe metadata, collects the
timecodes stored in `artwork_time` elements of an editorial XML document,
converts them to runtime strings under the timebase that matches the frame
rate, and writes one preview image per timecode. This project models the pure
decision logic of that pipeline in Dafny and proves its properties:

- `FrameRate` (`frame_rate.dfy`): `extract_frame_rate`. The rate string of
  stream 0 is used unless it is exactly `"0/0"`, in which case stream 1's is
  used. A string containing `/` becomes the floor of its first piece over its
  second piece; any other string is parsed as an `i32`. Every missing field
  and every parse failure, each a panic in the program, is a `Failure`.
- `Timecodes` (`timecodes.dfy`): `format_timecodes`. The table maps
  23, 24, 25, 29 and 30 to timebases, with 25 sharing 24's timebase; any other
  rate fails. The batch conversion keeps length and order, and it fails as a
  whole at the first timecode the library rejects.
- `Scanner` (`scanner.dfy`): the event loop of `xml_parser`, as a fold of a
  `Step` function over an abstract sequence of reader events. The state is the
  accumulated character data and the found list. The found list only grows,
  and only at an `artwork_time` end tag whose untrimmed text has exactly 11
  characters. The loop is proved equal to a reference description: the
  accumulator is all character data since the last `artwork_time` start tag.
- `Preview` (`preview.dfy`): the image path `folder/timecode.jpg` built in
  `generate_preview_image`, and the fact that distinct timecodes get
  distinct paths.
- Support modules: `Wrappers` (`Option`, `Result`), `Numbers` (Rust's
  `i32` parse and decimal naturals, with rendering round trips) and `Text`
  (`split` on a character with its `Join` inverse, and `trim` over the
  Unicode White_Space characters that Rust's `char::is_whitespace` uses).

Inputs that the program gets from libraries or processes become parameters:
- The probe's JSON becomes `Streams`, a sequence of optional rate strings.
  Entry k is `Some` when stream k has a string `r_frame_rate`. An absent
  `streams` key, stream or field, or a non-string field, all panic in the
  program alike, so all of them are `None` or out of range here.
- The XML reader becomes a sequence of `XmlEvent`s.
- The timecode library's `Timecode::with_frames` followed by `runtime(3)`
  becomes a `Converter` function parameter, which returns `Option<string>`.

Behaviour of the code that a reader may not expect, modelled as written:
- The length filter in `xml_parser` counts the characters of the untrimmed
  text (src/main.rs:63), while the value pushed is trimmed. An 11-character timecode with surrounding newlines is dropped
  (`Scanner.PaddedElementExample`). Ten characters behind a space pass and
  are emitted with 10 characters (`Scanner.LeadingSpaceExample`).
- Reader errors match the catch-all arm of the loop (src/main.rs:69), so
  they are ignored rather than fatal. The scan goes on with whatever events
  the reader still delivers. Error events are `Other` in the model.
- A zero denominator does not fail. The float quotient is NaN or +infinity,
  and Rust's saturating cast turns these into 0 and `i32::MAX`
  (`FrameRate.FloorRatio`). So two `"0/0"` streams resolve to rate 0
  (`FrameRate.BothUnknown`), which the rate table then rejects.
- The 25 → 24 timebase mapping is kept as written (`Timecodes.Rate25AsRate24`).

## Model

| member | source | states |
|---|---|---|
| `FrameRate.ExtractFrameRate` | src/main.rs:28-47 | a resolved rate is a 32-bit signed integer; probe metadata without streams fails on stream 0 |
| `FrameRate.RateSource` | src/main.rs:29-34 | stream 1's rate string is used exactly when stream 0's is `"0/0"`; a missing stream-0 rate fails as `MissingRate(0)` and a missing fallback as `MissingRate(1)` |
| `FrameRate.LaterStreamsIgnored` | src/main.rs:29-34 | when stream 0 has a usable rate string, two probes that agree on stream 0 resolve to the same result whatever follows |
| `FrameRate.FallbackDropsFirst` | src/main.rs:32-34 | falling back is resolving the stream list without its first entry, when stream 1 is present and not `"0/0"` |
| `FrameRate.BothUnknown` | src/main.rs:32-41 | two `"0/0"` streams give 0/0, which the NaN-to-integer cast turns into rate 0 |
| `FrameRate.ChooseRateText` | src/main.rs:29-34 | (with `RateSource`) the text used is stream 0's unless it is `"0/0"`, then stream 1's; a missing string fails with the stream's index |
| `FrameRate.FloorRatio` | src/main.rs:41 | for a positive denominator the result q satisfies q·d ≤ n < (q+1)·d unless ⌊n/d⌋ exceeds `i32::MAX`, when it is `i32::MAX`; a zero denominator gives 0 for 0/0 (NaN) and `i32::MAX` for n/0 (+infinity); always within 0..`i32::MAX` |
| `FrameRate.ParseRate` | src/main.rs:36-45 | with a `/` it succeeds exactly when the first two `/`-pieces are decimal naturals; without one exactly when the text is an `i32`, and then the rate is that `i32` (so `"025"` and `"+25"` give 25, by `ParseI32Digits`); results are 32-bit |
| `FrameRate.SplitFraction` | src/main.rs:37-39 | in `"A/B"` followed by nothing or by `/`-led pieces, the pieces read are A and B; later pieces are ignored |
| `FrameRate.FractionRate` | src/main.rs:36-41 | every rate `"N/D"` whose pieces are runs of decimal digits (leading zeros included, as in `"030/01"`), with or without further `/`-pieces, resolves to `FloorRatio(N, D)`: ⌊N/D⌋ saturated at `i32::MAX`, and 0 or `i32::MAX` when D is 0 |
| `FrameRate.CanonicalFractionRate` | src/main.rs:36-41 | the same for N and D written in shortest decimal form |
| `FrameRate.IntegerRate` | src/main.rs:43-44 | every 32-bit integer written in decimal resolves to itself |
| `FrameRate.FallbackExample` | src/main.rs:28-47 | streams `"0/0"`, `"24000/1001"` resolve to 23 |
| `Numbers.ParseNat` | src/main.rs:38-39 | accepts exactly the non-empty strings of decimal digits |
| `Numbers.ParseNatToString` | src/main.rs:38-39 | every natural number's decimal rendering parses back to it |
| `Numbers.ParseI32` | src/main.rs:44 | the empty string is rejected and accepted values lie in the 32-bit signed range |
| `Numbers.ParseI32ToString` | src/main.rs:44 | every 32-bit integer's decimal rendering parses back to it |
| `Numbers.ParseI32Digits` | src/main.rs:44 | every non-empty digit string in range is accepted with its value, leading zeros included, bare, behind `+`, or behind `-` down to `i32::MIN` (`"007"`, `"+007"`, `"-0"`) |
| `Numbers.ParseI32PlusSign` | src/main.rs:44 | a leading `+` is accepted as a positive sign |
| `Numbers.ParseI32Accepts` | src/main.rs:44 | whatever parses is an optional sign followed by one or more digits, valued in the sign's direction |
| `Text.Split` | src/main.rs:37 | `split('/')` gives one more piece than there are separators, and no piece contains the separator |
| `Text.JoinSplit` | src/main.rs:37 | joining the pieces with the separator gives back the string |
| `Text.SplitJoin` | src/main.rs:37 | splitting a join of separator-free pieces gives back the pieces |
| `Text.SplitAtFirst` | src/main.rs:37 | the first piece is the text before the first separator; the rest splits independently |
| `Text.Trim` | src/main.rs:64 | (with `TrimIsCore`) `str::trim`: never longer than the input, no Unicode White_Space at either end, and a slice of the input that cuts off only whitespace |
| `Text.TrimIsCore` | src/main.rs:64 | `trim` keeps a contiguous slice and cuts off only whitespace on either side |
| `Text.TrimOfTrimmed` | src/main.rs:64 | text without whitespace at its ends is unchanged by `trim` |
| `Text.TrimIdempotent` | src/main.rs:64 | trimming twice is trimming once |
| `Text.TrimPadded` | src/main.rs:64 | whitespace padding on either side does not change the trimmed text |
| `Timecodes.TimebaseFor` | src/main.rs:77-85 | a timebase exists exactly for rates 23, 24, 25, 29 and 30 |
| `Timecodes.TimebaseForInjective` | src/main.rs:77-85 | two supported rates share a timebase only if they are equal or are 24 and 25 |
| `Timecodes.EveryTimebaseSelected` | src/main.rs:77-85 | each of the four timebases is selected by some supported rate |
| `Timecodes.ConvertAll` | src/main.rs:89-98 | succeeds exactly when every timecode converts; then entry i is timecode i's conversion and lengths agree; otherwise the error names the first rejected timecode |
| `Timecodes.FormatTimecodes` | src/main.rs:76-99 | an unsupported rate fails with `UnsupportedRate` for any list, even an empty one; otherwise as `ConvertAll` under the rate's timebase, with the first failing position reported |
| `Timecodes.Rate25AsRate24` | src/main.rs:79-80 | rate 25 converts every list exactly as rate 24 does |
| `Timecodes.FormatConcat` | src/main.rs:89-98 | converting a concatenation succeeds exactly when both halves do, and then yields the halves' results concatenated in order |
| `Timecodes.UnsupportedRateExample` | src/main.rs:84 | rate 31 fails with `UnsupportedRate(31)` whatever the timecodes |
| `Scanner.Step` | src/main.rs:58-70 | one event appends at most one timecode, only on an `artwork_time` end tag, and keeps the found list as a prefix; events other than the start tag and character data leave the text alone |
| `Scanner.Scan` | src/main.rs:57-71 | from any state the found list stays a prefix and grows by at most one item per `artwork_time` end tag; with `ScanAccumulates` and `ScanEmits`, the loop's text is all character data since the last `artwork_time` start tag, and its found list gains exactly the trimmed 11-character accumulators at `artwork_time` end tags, in event order |
| `Scanner.ScanDocument` | src/main.rs:51-73 | the caller's list is a prefix of the result and at most one timecode is appended per `artwork_time` end tag |
| `Scanner.AccumulatedStep` | src/main.rs:59-68 | the reference accumulator is emptied by an `artwork_time` start tag, extended by character data, and otherwise unchanged |
| `Scanner.ScanAccumulates` | src/main.rs:55-68 | the loop's text is all character data since the last `artwork_time` start tag, or the initial text plus all character data when there is none |
| `Scanner.ScanEmits` | src/main.rs:57-71 | the loop appends exactly the trimmed accumulator at each `artwork_time` end tag whose untrimmed accumulator has 11 characters, in event order |
| `Scanner.EmittedShape` | src/main.rs:62-64 | every emitted timecode has at most 11 characters and no whitespace at either end |
| `Scanner.ScanConcat` | src/main.rs:57-71 | scanning a concatenation is scanning the second part from the state the first part leaves |
| `Scanner.SingleElement` | src/main.rs:59-68 | a lone element with text t yields trimmed t when t has 11 characters and nothing otherwise |
| `Scanner.WellFormedElementExample` | src/main.rs:62-64 | `01:02:03:04` in an element is emitted unchanged |
| `Scanner.ShortElementExample` | src/main.rs:62-64 | the 7-character text `1:2:3:4` is dropped |
| `Scanner.PaddedElementExample` | src/main.rs:63 | a timecode between newlines has 13 untrimmed characters and is dropped, although its trimmed text has 11 |
| `Scanner.LeadingSpaceExample` | src/main.rs:63-64 | a space followed by 10 characters passes the length test and is emitted with 10 characters |
| `Preview.PreviewPath` | src/main.rs:105 | the path is the folder, then `/`, then the timecode, then `.jpg`, with lengths adding up |
| `Preview.TimecodeOfPreviewPath` | src/main.rs:105 | the timecode can be read back from its path given the folder |
| `Preview.PreviewPathInjective` | src/main.rs:105 | within one folder, distinct timecodes have distinct image paths |

## Left out

- FrameRate.ParseRate: the pieces of a fractional rate are read with Rust's
  `f32` parser. Here they are decimal naturals only. Signs, decimal points,
  exponents, `inf` and `nan` are modelled as `Unparsable`, because the probe
  writes rates as natural-number fractions.
- FrameRate.FloorRatio: the division is exact, with no `f32` rounding. For
  numbers above 2^24 the program's result can differ in either direction:
  parsing rounds `16777217` down to 16777216, and a quotient can round up to
  the next integer. Numerals beyond `f32`'s range parse to infinity, so
  `1e39/1e39` gives NaN and then 0. The model follows none of this.
- JSON decoding (`serde_json`, src/main.rs:22-23) is library code. The
  metadata enters as the `Streams` sequence.
- XML tokenisation (`xml-rs`, src/main.rs:54) is library code. Whitespace-only,
  CDATA and error events are folded into `Other`. Opening the XML file
  (src/main.rs:52-53) is I/O, and its panic is not modelled.
- Timecode parsing and rendering (`Timecode::with_frames`, `runtime(3)`,
  src/main.rs:92-94) is library code. It is the uninterpreted `Converter`
  parameter, and no drop-frame arithmetic is modelled.
- Running `ffprobe` and `ffmpeg` (src/main.rs:11-25, 107-126) is foreign
  process I/O. Only the output path at line 105 is modelled.
- Thread spawning, the shared `Arc<Mutex<String>>` folder and the join barrier
  (src/main.rs:175-194) exist only for concurrency.
- The stdin prompts, directory creation and printing (src/main.rs:122-125,
  139-171) are side effects with no decision logic.
