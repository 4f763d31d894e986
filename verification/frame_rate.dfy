/** The frame-rate resolver (`extract_frame_rate`): picks the rate string of
    the first stream, or of the second when the first reads "0/0", and turns
    it into a whole number of frames per second. */
module FrameRate {
  import opened Wrappers
  import opened Text
  import opened Numbers

  /** Why no rate could be resolved; in the program each is an `unwrap()` panic. */
  datatype RateError =
    | MissingRate(stream: nat)   // the stream, or its `r_frame_rate` string, is absent
    | Unparsable(text: string)   // a number in the rate string does not parse

  /** The probe's streams, in order: entry k is `Some` of stream k's
      `r_frame_rate` when that field is a string, `None` otherwise. Streams
      past the end of the sequence are absent. */
  type Streams = seq<Option<string>>

  /** The rate string by which the probe marks a stream without a frame rate. */
  const UnknownRate: string := "0/0"

  const Separator: char := '/'

  function RateField(streams: Streams, k: nat): Result<string, RateError>
  {
    if k < |streams| && streams[k].Some? then Success(streams[k].value) else Failure(MissingRate(k))
  }

  /** The rate string the resolver works on. */
  function ChooseRateText(streams: Streams): (r: Result<string, RateError>)
    ensures r.Success? <==>
      |streams| > 0 && streams[0].Some? && (streams[0].value != UnknownRate || (|streams| > 1 && streams[1].Some?))
    ensures r.Success? ==>
      r.value == if streams[0].value == UnknownRate then streams[1].value else streams[0].value
    ensures r.Failure? ==>
      r.error == MissingRate(if |streams| > 0 && streams[0] == Some(UnknownRate) then 1 else 0)
  {
    match RateField(streams, 0)
    case Failure(e) => Failure(e)
    case Success(t) => if t == UnknownRate then RateField(streams, 1) else Success(t)
  }

  /** `(n / d).floor() as i32`: the quotient rounded down, saturated at the
      largest 32-bit value as Rust's float-to-integer cast does; a zero
      denominator gives NaN (cast to 0) when the numerator is 0 and +infinity
      (cast to the maximum) otherwise. */
  function FloorRatio(n: nat, d: nat): (fps: int)
    ensures 0 <= fps <= I32Max
    ensures 0 < d && n / d <= I32Max ==> fps * d <= n < (fps + 1) * d
    ensures 0 < d && n / d > I32Max ==> fps == I32Max
    ensures d == 0 ==> fps == (if n == 0 then 0 else I32Max)
  {
    if d == 0 then (if n == 0 then 0 else I32Max)
    else if n / d <= I32Max then n / d
    else I32Max
  }

  /** Converts one rate string: with a `/`, the floor of its first piece over
      its second piece (later pieces are ignored); without, its `i32` value. */
  function ParseRate(text: string): (r: Result<int, RateError>)
    ensures r.Success? ==> InI32(r.value)
    ensures Separator !in text ==> (r.Success? <==> ParseI32(text).Some?)
    ensures Separator !in text && r.Success? ==> r.value == ParseI32(text).value
    ensures Separator in text ==>
      |Split(text, Separator)| >= 2 &&
      (r.Success? <==> ParseNat(Split(text, Separator)[0]).Some? && ParseNat(Split(text, Separator)[1]).Some?)
  {
    if Separator in text then
      OccurrencesPositive(text, Separator);
      var parts := Split(text, Separator);
      match ParseNat(parts[0])
      case None => Failure(Unparsable(parts[0]))
      case Some(n) =>
        match ParseNat(parts[1])
        case None => Failure(Unparsable(parts[1]))
        case Some(d) => Success(FloorRatio(n, d))
    else
      match ParseI32(text)
      case None => Failure(Unparsable(text))
      case Some(x) => Success(x)
  }

  /** `extract_frame_rate`. */
  function ExtractFrameRate(streams: Streams): (r: Result<int, RateError>)
    ensures r.Success? ==> InI32(r.value)
    ensures |streams| == 0 ==> r == Failure(MissingRate(0))
  {
    match ChooseRateText(streams)
    case Failure(e) => Failure(e)
    case Success(t) => ParseRate(t)
  }

  /** The second stream is consulted exactly when the first stream's rate
      string is "0/0"; a missing first rate fails, whatever follows it. */
  lemma RateSource(streams: Streams)
    ensures |streams| == 0 || streams[0].None? ==> ExtractFrameRate(streams) == Failure(MissingRate(0))
    ensures |streams| > 0 && streams[0].Some? && streams[0].value != UnknownRate ==>
      ExtractFrameRate(streams) == ParseRate(streams[0].value)
    ensures |streams| > 0 && streams[0] == Some(UnknownRate) ==>
      ExtractFrameRate(streams) ==
        if |streams| > 1 && streams[1].Some? then ParseRate(streams[1].value) else Failure(MissingRate(1))
  {
  }

  /** When the first stream has a usable rate string, no later stream can
      change the result. */
  lemma LaterStreamsIgnored(s1: Streams, s2: Streams)
    requires |s1| > 0 && |s2| > 0 && s1[0] == s2[0]
    requires s1[0].Some? && s1[0].value != UnknownRate
    ensures ExtractFrameRate(s1) == ExtractFrameRate(s2)
  {
  }

  /** Falling back to the second stream is the same as resolving the list
      without the first stream, unless the second stream reads "0/0" too. */
  lemma FallbackDropsFirst(streams: Streams)
    requires |streams| > 1 && streams[0] == Some(UnknownRate)
    requires streams[1].Some? && streams[1].value != UnknownRate
    ensures ExtractFrameRate(streams) == ExtractFrameRate(streams[1..])
  {
    assert streams[1..][0] == streams[1];
  }

  /** Both streams reading "0/0" divides zero by zero, which the cast turns into 0. */
  lemma BothUnknown(streams: Streams)
    requires |streams| > 1 && streams[0] == Some(UnknownRate) && streams[1] == Some(UnknownRate)
    ensures ExtractFrameRate(streams) == Success(0)
  {
    assert UnknownRate == "0" + [Separator] + "0";
    SplitAtFirst("0", Separator, "0");
    SplitNoSeparator("0", Separator);
    assert ParseNat("0") == Some(0) by {
      ParseNatToString(0);
    }
  }

  lemma NoSeparatorInDigits(s: string)
    requires AllDigits(s)
    ensures Separator !in s
  {
  }

  /** The first two pieces of "A/B" followed by nothing or by further
      `/`-separated pieces are A and B. */
  lemma {:induction false} SplitFraction(a: string, b: string, tail: string)
    requires Separator !in a && Separator !in b
    requires tail == [] || tail[0] == Separator
    ensures var parts := Split(a + [Separator] + b + tail, Separator);
      |parts| >= 2 && parts[0] == a && parts[1] == b
  {
    assert a + [Separator] + b + tail == a + [Separator] + (b + tail);
    SplitAtFirst(a, Separator, b + tail);
    if tail == [] {
      assert b + tail == b;
      SplitNoSeparator(b, Separator);
    } else {
      assert b + tail == b + [Separator] + tail[1..];
      SplitAtFirst(b, Separator, tail[1..]);
    }
  }

  /** A rate "N/D", where N and D are any runs of decimal digits (leading
      zeros included), optionally followed by further `/`-separated pieces,
      resolves to the floor of N over D as the cast delivers it: saturated at
      the 32-bit maximum, and 0 or the maximum for a zero denominator. */
  lemma FractionRate(a: string, b: string, tail: string)
    requires |a| > 0 && AllDigits(a) && |b| > 0 && AllDigits(b)
    requires tail == [] || tail[0] == Separator
    ensures ParseRate(a + [Separator] + b + tail) == Success(FloorRatio(DigitsValue(a), DigitsValue(b)))
  {
    NoSeparatorInDigits(a);
    NoSeparatorInDigits(b);
    SplitFraction(a, b, tail);
    assert (a + [Separator] + b + tail)[|a|] == Separator;
  }

  /** The same for numbers written in their shortest decimal form. */
  lemma CanonicalFractionRate(n: nat, d: nat, tail: string)
    requires tail == [] || tail[0] == Separator
    ensures ParseRate(NatToString(n) + [Separator] + NatToString(d) + tail) == Success(FloorRatio(n, d))
  {
    ParseNatToString(n);
    ParseNatToString(d);
    FractionRate(NatToString(n), NatToString(d), tail);
  }

  /** A rate without `/` is read as a 32-bit integer. */
  lemma IntegerRate(x: int)
    requires InI32(x)
    ensures ParseRate(IntToString(x)) == Success(x)
  {
    ParseI32ToString(x);
    if x < 0 {
      NoSeparatorInDigits(NatToString(-x));
      assert IntToString(x) == "-" + NatToString(-x);
    } else {
      NoSeparatorInDigits(NatToString(x));
    }
  }

  /** A probe whose first stream is "0/0" and whose second is "24000/1001"
      (23.976 frames per second) resolves to 23. */
  lemma FallbackExample()
    ensures ExtractFrameRate([Some(UnknownRate), Some("24000/1001")]) == Success(23)
  {
    var streams := [Some(UnknownRate), Some("24000/1001")];
    RateSource(streams);
    assert ExtractFrameRate(streams) == ParseRate("24000/1001");
    DecimalRendering();
    CanonicalFractionRate(24000, 1001, "");
  }

  lemma DecimalRendering()
    ensures "24000/1001" == NatToString(24000) + [Separator] + NatToString(1001) + ""
  {
    assert NatToString(2) == "2";
    assert NatToString(24) == "24";
    assert NatToString(240) == "240";
    assert NatToString(2400) == "2400";
    assert NatToString(1) == "1";
    assert NatToString(10) == "10";
    assert NatToString(100) == "100";
  }
}
