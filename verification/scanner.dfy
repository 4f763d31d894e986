/** The timecode scanner (`xml_parser`): a single pass over the XML reader's
    events that collects the text of `artwork_time` elements. */
module Scanner {
  import opened Wrappers
  import opened Text

  /** The reader's events as the scanner distinguishes them. Whitespace-only
      and CDATA events, comments, processing instructions, document start and
      end, and reader errors all fall under `Other`, which the scanner ignores. */
  datatype XmlEvent =
    | Start(name: string)   // start tag, by local name
    | End(name: string)     // end tag, by local name
    | Chars(text: string)   // character data
    | Other

  /** The scanner's state: the accumulated character data and the timecodes
      found so far (the caller's vector). */
  datatype ScanState = ScanState(text: string, found: seq<string>)

  const ElementName: string := "artwork_time"

  /** The only accepted length, in characters, of the untrimmed element text. */
  const TokenLength: nat := 11

  predicate Opens(e: XmlEvent)
  {
    e.Start? && e.name == ElementName
  }

  predicate Closes(e: XmlEvent)
  {
    e.End? && e.name == ElementName
  }

  /** The text one event contributes to the accumulator. */
  function CharsOf(e: XmlEvent): string
  {
    if e.Chars? then e.text else ""
  }

  /** One turn of the event loop. The found list grows by at most one
      timecode, and only at the end of an `artwork_time` element. */
  function Step(st: ScanState, e: XmlEvent): (st': ScanState)
    ensures st.found <= st'.found
    ensures |st'.found| <= |st.found| + (if Closes(e) then 1 else 0)
    ensures !Opens(e) && !e.Chars? ==> st'.text == st.text
  {
    if Opens(e) then ScanState("", st.found)
    else if Closes(e) && |st.text| == TokenLength then ScanState(st.text, st.found + [Trim(st.text)])
    else if e.Chars? then ScanState(st.text + e.text, st.found)
    else st
  }

  /** The state after processing `evs` in order, starting from `st`. */
  function Scan(st: ScanState, evs: seq<XmlEvent>): (r: ScanState)
    ensures st.found <= r.found
    ensures |r.found| - |st.found| <= CountCloses(evs)
  {
    if |evs| == 0 then st else Step(Scan(st, evs[..|evs| - 1]), evs[|evs| - 1])
  }

  /** `xml_parser`: appends the timecodes found in `evs` to `found`. */
  function ScanDocument(evs: seq<XmlEvent>, found: seq<string>): (r: seq<string>)
    ensures found <= r
    ensures |r| - |found| <= CountCloses(evs)
  {
    Scan(ScanState("", found), evs).found
  }

  // ---------------------------------------------------------------------
  // Reference definitions: what the accumulator holds, and what is emitted,
  // stated over the event prefix rather than by running the loop.

  /** Number of `artwork_time` end tags in `evs`. */
  function CountCloses(evs: seq<XmlEvent>): nat
  {
    if |evs| == 0 then 0
    else CountCloses(evs[..|evs| - 1]) + (if Closes(evs[|evs| - 1]) then 1 else 0)
  }

  /** All character data in `evs`, concatenated in order. */
  function AllChars(evs: seq<XmlEvent>): string
  {
    if |evs| == 0 then "" else AllChars(evs[..|evs| - 1]) + CharsOf(evs[|evs| - 1])
  }

  /** Position of the last `artwork_time` start tag in `evs`, if any. */
  function LastOpen(evs: seq<XmlEvent>): (r: Option<nat>)
    ensures r.Some? ==> r.value < |evs| && Opens(evs[r.value])
    ensures r.Some? ==> forall k :: r.value < k < |evs| ==> !Opens(evs[k])
    ensures r.None? ==> forall k :: 0 <= k < |evs| ==> !Opens(evs[k])
  {
    if |evs| == 0 then None
    else if Opens(evs[|evs| - 1]) then Some(|evs| - 1)
    else LastOpen(evs[..|evs| - 1])
  }

  /** The accumulator after `evs`: all character data since the last
      `artwork_time` start tag, or, when there is none, the initial text
      followed by all character data. */
  function Accumulated(init: string, evs: seq<XmlEvent>): string
  {
    match LastOpen(evs)
    case Some(p) => AllChars(evs[p + 1..])
    case None => init + AllChars(evs)
  }

  /** Whether the event at position k emits: it closes an `artwork_time`
      element while the untrimmed accumulator has exactly 11 characters. */
  predicate EmitsAt(init: string, evs: seq<XmlEvent>, k: nat)
    requires k < |evs|
  {
    Closes(evs[k]) && |Accumulated(init, evs[..k])| == TokenLength
  }

  /** The trimmed accumulator at every emitting position, in event order. */
  function Emitted(init: string, evs: seq<XmlEvent>): seq<string>
  {
    if |evs| == 0 then []
    else
      var k := |evs| - 1;
      Emitted(init, evs[..k]) + (if EmitsAt(init, evs, k) then [Trim(Accumulated(init, evs[..k]))] else [])
  }

  // ---------------------------------------------------------------------
  // Properties of the scan.

  lemma {:induction false} AllCharsAppend(evs: seq<XmlEvent>, i: nat)
    requires i <= |evs|
    ensures |evs| > 0 && i < |evs| ==>
      AllChars(evs[i..]) == AllChars(evs[i..|evs| - 1]) + CharsOf(evs[|evs| - 1])
  {
    if |evs| > 0 && i < |evs| {
      assert evs[i..][..|evs[i..]| - 1] == evs[i..|evs| - 1];
    }
  }

  /** The reference accumulator follows one more event as the loop does:
      an opening tag empties it, character data extends it, anything else
      leaves it alone. */
  lemma AccumulatedStep(init: string, evs: seq<XmlEvent>)
    requires |evs| > 0
    ensures var e := evs[|evs| - 1];
      Accumulated(init, evs) ==
        if Opens(e) then "" else Accumulated(init, evs[..|evs| - 1]) + CharsOf(e)
  {
    var n := |evs| - 1;
    var prefix := evs[..n];
    var e := evs[n];
    if !Opens(e) {
      assert LastOpen(evs) == LastOpen(prefix);
      match LastOpen(prefix)
      case Some(p) =>
        AllCharsAppend(evs, p + 1);
        assert evs[p + 1..n] == prefix[p + 1..];
      case None =>
    }
  }

  /** The accumulator the loop keeps is the reference accumulator. */
  lemma {:induction false} ScanAccumulates(st: ScanState, evs: seq<XmlEvent>)
    ensures Scan(st, evs).text == Accumulated(st.text, evs)
  {
    if |evs| > 0 {
      ScanAccumulates(st, evs[..|evs| - 1]);
      AccumulatedStep(st.text, evs);
    }
  }

  /** What the loop appends is exactly the reference emission list. */
  lemma {:induction false} ScanEmits(st: ScanState, evs: seq<XmlEvent>)
    ensures Scan(st, evs).found == st.found + Emitted(st.text, evs)
  {
    if |evs| > 0 {
      var n := |evs| - 1;
      ScanEmits(st, evs[..n]);
      ScanAccumulates(st, evs[..n]);
    }
  }

  /** Every emitted timecode is trimmed and, being cut from an 11-character
      text, has at most 11 characters. */
  lemma {:induction false} EmittedShape(init: string, evs: seq<XmlEvent>)
    ensures forall t :: t in Emitted(init, evs) ==> |t| <= TokenLength && IsTrimmed(t)
  {
    if |evs| > 0 {
      var n := |evs| - 1;
      var before := Emitted(init, evs[..n]);
      var acc := Accumulated(init, evs[..n]);
      var added := if EmitsAt(init, evs, n) then [Trim(acc)] else [];
      assert Emitted(init, evs) == before + added;
      EmittedShape(init, evs[..n]);
      assert forall t :: t in added ==> |t| <= TokenLength && IsTrimmed(t);
    }
  }

  /** Scanning two event sequences one after the other is scanning their
      concatenation: the scanner streams, it never looks back. */
  lemma {:induction false} ScanConcat(st: ScanState, a: seq<XmlEvent>, b: seq<XmlEvent>)
    ensures Scan(st, a + b) == Scan(Scan(st, a), b)
  {
    if |b| == 0 {
      assert a + b == a;
    } else {
      var n := |b| - 1;
      ScanConcat(st, a, b[..n]);
      assert (a + b)[..|a + b| - 1] == a + b[..n];
    }
  }

  /** A document holding a single `artwork_time` element with text `t`
      yields `t` trimmed when `t` has exactly 11 characters, and nothing
      otherwise. */
  lemma SingleElement(found: seq<string>, t: string)
    ensures ScanDocument([Start(ElementName), Chars(t), End(ElementName)], found)
      == if |t| == TokenLength then found + [Trim(t)] else found
  {
    var evs := [Start(ElementName), Chars(t), End(ElementName)];
    var s0 := ScanState("", found);
    assert evs[..1][..0] == [];
    assert Scan(s0, evs[..1]) == s0;
    assert evs[..2][..1] == evs[..1];
    assert Scan(s0, evs[..2]) == ScanState(t, found);
  }

  /** An element whose text is an 11-character timecode is emitted as is. */
  lemma WellFormedElementExample(found: seq<string>)
    ensures ScanDocument([Start(ElementName), Chars("01:02:03:04"), End(ElementName)], found)
      == found + ["01:02:03:04"]
  {
    var t := "01:02:03:04";
    SingleElement(found, t);
    assert !IsWhitespace(t[0]) && !IsWhitespace(t[|t| - 1]);
    TrimOfTrimmed(t);
  }

  /** An element whose text is shorter than 11 characters is dropped. */
  lemma ShortElementExample(found: seq<string>)
    ensures ScanDocument([Start(ElementName), Chars("1:2:3:4"), End(ElementName)], found) == found
  {
    SingleElement(found, "1:2:3:4");
  }

  /** The length test counts whitespace: a timecode on its own line has 13
      untrimmed characters and is dropped, although trimmed it has 11. */
  lemma PaddedElementExample(found: seq<string>)
    ensures |Trim("\n01:02:03:04\n")| == TokenLength
    ensures ScanDocument([Start(ElementName), Chars("\n01:02:03:04\n"), End(ElementName)], found) == found
  {
    SingleElement(found, "\n01:02:03:04\n");
    var u := "01:02:03:04";
    assert "\n01:02:03:04\n" == "\n" + u + "\n";
    assert AllWhitespace("\n");
    TrimPadded("\n", u, "\n");
    assert !IsWhitespace(u[0]) && !IsWhitespace(u[|u| - 1]);
    TrimOfTrimmed(u);
  }

  /** Ten characters behind one space pass the length test and are emitted
      trimmed, with 10 characters. */
  lemma LeadingSpaceExample(found: seq<string>)
    ensures ScanDocument([Start(ElementName), Chars(" 1:02:03:04"), End(ElementName)], found)
      == found + ["1:02:03:04"]
  {
    var t := " 1:02:03:04";
    SingleElement(found, t);
    var u := "1:02:03:04";
    assert t == " " + u + "";
    assert AllWhitespace(" ");
    TrimPadded(" ", u, "");
    assert !IsWhitespace(u[0]) && !IsWhitespace(u[|u| - 1]);
    TrimOfTrimmed(u);
  }
}
