/** The timecode converter (`format_timecodes`): selects the timebase for a
    resolved frame rate and converts every raw timecode under it. */
module Timecodes {
  import opened Wrappers

  /** The timebases the program uses, named after the timecode library's
      rate constants. */
  datatype Timebase = F23_98 | F24 | F29_97_NDF | F30

  /** Why a batch could not be converted; in the program each is a panic. */
  datatype FormatError =
    | UnsupportedRate(fps: int)   // the rate has no timebase
    | BadTimecode(index: nat)     // the timecode at this position does not parse

  /** The timecode library's parse-then-render step (`Timecode::with_frames`
      followed by `runtime(3)`), left uninterpreted: it either rejects the raw
      timecode or yields its runtime string. */
  type Converter = (string, Timebase) -> Option<string>

  /** The rates the program supports. */
  const SupportedRates: set<int> := {23, 24, 25, 29, 30}

  /** The rate-to-timebase table; 25 shares the 24 timebase. */
  function TimebaseFor(fps: int): (r: Option<Timebase>)
    ensures r.Some? <==> fps in SupportedRates
  {
    match fps
    case 23 => Some(F23_98)
    case 24 => Some(F24)
    case 25 => Some(F24)
    case 29 => Some(F29_97_NDF)
    case 30 => Some(F30)
    case _ => None
  }

  /** Distinct supported rates select distinct timebases, except 24 and 25,
      which select the same one. */
  lemma TimebaseForInjective(a: int, b: int)
    requires TimebaseFor(a).Some? && TimebaseFor(a) == TimebaseFor(b)
    ensures a == b || (a in {24, 25} && b in {24, 25})
  {
  }

  /** Every timebase is selected by some supported rate. */
  lemma EveryTimebaseSelected(tb: Timebase)
    ensures exists fps :: fps in SupportedRates && TimebaseFor(fps) == Some(tb)
  {
    match tb
    case F23_98 => assert TimebaseFor(23) == Some(tb);
    case F24 => assert TimebaseFor(24) == Some(tb);
    case F29_97_NDF => assert TimebaseFor(29) == Some(tb);
    case F30 => assert TimebaseFor(30) == Some(tb);
  }

  /** Converts each timecode in order under `tb`. On failure, the error is the
      position of the first timecode the converter rejects. */
  function ConvertAll(tcs: seq<string>, tb: Timebase, convert: Converter): (r: Result<seq<string>, nat>)
    ensures r.Success? <==> forall i :: 0 <= i < |tcs| ==> convert(tcs[i], tb).Some?
    ensures r.Success? ==>
      |r.value| == |tcs| && forall i :: 0 <= i < |tcs| ==> convert(tcs[i], tb) == Some(r.value[i])
    ensures r.Failure? ==>
      && r.error < |tcs|
      && convert(tcs[r.error], tb).None?
      && forall j :: 0 <= j < r.error ==> convert(tcs[j], tb).Some?
  {
    if |tcs| == 0 then Success([])
    else
      match convert(tcs[0], tb)
      case None => Failure(0)
      case Some(first) =>
        match ConvertAll(tcs[1..], tb, convert)
        case Failure(i) => Failure(i + 1)
        case Success(rest) => Success([first] + rest)
  }

  /** `format_timecodes`: an unsupported rate fails whatever the timecodes;
      otherwise the result has one entry per timecode, entry i being the
      conversion of timecode i, and the batch fails as a whole at the first
      timecode that does not convert. */
  function FormatTimecodes(tcs: seq<string>, fps: int, convert: Converter): (r: Result<seq<string>, FormatError>)
    ensures fps !in SupportedRates <==> r == Failure(UnsupportedRate(fps))
    ensures r.Success? <==>
      fps in SupportedRates && forall i :: 0 <= i < |tcs| ==> convert(tcs[i], TimebaseFor(fps).value).Some?
    ensures r.Success? ==>
      && |r.value| == |tcs|
      && forall i :: 0 <= i < |tcs| ==> convert(tcs[i], TimebaseFor(fps).value) == Some(r.value[i])
    ensures r.Failure? && r.error.BadTimecode? ==>
      && fps in SupportedRates
      && r.error.index < |tcs|
      && convert(tcs[r.error.index], TimebaseFor(fps).value).None?
      && forall j :: 0 <= j < r.error.index ==> convert(tcs[j], TimebaseFor(fps).value).Some?
  {
    match TimebaseFor(fps)
    case None => Failure(UnsupportedRate(fps))
    case Some(tb) =>
      match ConvertAll(tcs, tb, convert)
      case Failure(i) => Failure(BadTimecode(i))
      case Success(out) => Success(out)
  }

  /** A rate of 25 converts every batch exactly as a rate of 24 does. */
  lemma Rate25AsRate24(tcs: seq<string>, convert: Converter)
    ensures FormatTimecodes(tcs, 25, convert) == FormatTimecodes(tcs, 24, convert)
  {
  }

  /** Converting a concatenation converts each half: it succeeds exactly when
      both halves do, with the halves' results concatenated in order. */
  lemma FormatConcat(a: seq<string>, b: seq<string>, fps: int, convert: Converter)
    requires fps in SupportedRates
    ensures FormatTimecodes(a + b, fps, convert).Success? <==>
      FormatTimecodes(a, fps, convert).Success? && FormatTimecodes(b, fps, convert).Success?
    ensures FormatTimecodes(a + b, fps, convert).Success? ==>
      FormatTimecodes(a + b, fps, convert).value ==
        FormatTimecodes(a, fps, convert).value + FormatTimecodes(b, fps, convert).value
  {
    var tb := TimebaseFor(fps).value;
    var r, ra, rb := FormatTimecodes(a + b, fps, convert), FormatTimecodes(a, fps, convert), FormatTimecodes(b, fps, convert);
    if r.Success? {
      assert forall i :: 0 <= i < |a| ==> (a + b)[i] == a[i];
      assert forall i :: 0 <= i < |b| ==> (a + b)[|a| + i] == b[i];
      assert ra.Success? && rb.Success?;
      var v := ra.value + rb.value;
      assert forall i :: 0 <= i < |a + b| ==> Some(v[i]) == convert((a + b)[i], tb) by {
        forall i | 0 <= i < |a + b|
          ensures Some(v[i]) == convert((a + b)[i], tb)
        {
          if i >= |a| {
            assert (a + b)[i] == b[i - |a|];
          }
        }
      }
      ConversionUnique(a + b, tb, convert, r.value, v);
    } else if ra.Success? && rb.Success? {
      forall i | 0 <= i < |a + b|
        ensures convert((a + b)[i], tb).Some?
      {
        if i >= |a| {
          assert (a + b)[i] == b[i - |a|];
        }
      }
    }
  }

  /** Two outputs that match the converter element-wise are equal. */
  lemma ConversionUnique(tcs: seq<string>, tb: Timebase, convert: Converter, u: seq<string>, v: seq<string>)
    requires |u| == |tcs| && |v| == |tcs|
    requires forall i :: 0 <= i < |tcs| ==> convert(tcs[i], tb) == Some(u[i])
    requires forall i :: 0 <= i < |tcs| ==> convert(tcs[i], tb) == Some(v[i])
    ensures u == v
  {
    assert forall i :: 0 <= i < |tcs| ==> u[i] == v[i];
  }

  /** A rate of 31 has no timebase: the batch fails before any timecode is
      looked at, even when there are none. */
  lemma UnsupportedRateExample(tcs: seq<string>, convert: Converter)
    ensures FormatTimecodes(tcs, 31, convert) == Failure(UnsupportedRate(31))
  {
  }
}
