/** The transcript and caption bodies that `write_transcription_outputs`
    (gui_transcribe.py) derives from a verbose transcription record. */
module Captions {
  import opened Outcomes
  import opened Text
  import Timestamp

  /** One timed span of the record. Each field may be missing; times are whole
      milliseconds. */
  datatype Segment = Segment(start: Option<nat>, end: Option<nat>, text: Option<string>)

  /** The record returned by the transcription service, as a plain mapping:
      the full text, the segment list (missing or `None` both read as empty),
      and its JSON rendering as the service's serialiser produces it. */
  datatype Transcription = Transcription(text: Option<string>, segments: Option<seq<Segment>>, serialized: string)

  /** One emitted caption: its number, its two times in milliseconds, its
      text. */
  datatype Caption = Caption(index: nat, start: nat, end: nat, text: string)

  /** `segment.get("start", 0)` and `segment.get("end", 0)`. */
  function StartMillis(s: Segment): nat { s.start.GetOr(0) }
  function EndMillis(s: Segment): nat { s.end.GetOr(0) }

  /** `str(segment.get("text", "")).strip()`. */
  function CaptionText(s: Segment): string { Strip(s.text.GetOr("")) }

  /** `transcription.get("segments") or []`. */
  function SegmentsOf(t: Transcription): seq<Segment> { t.segments.GetOr([]) }

  /** The caption a segment yields at a given 1-based position, or none when
      its stripped text is empty. */
  function CaptionAt(s: Segment, index: nat): Option<Caption> {
    var text := CaptionText(s);
    if text == [] then None else Some(Caption(index, StartMillis(s), EndMillis(s), text))
  }

  /** A segment yields a caption exactly when its text is not blank, and the
      caption's text is then non-empty with no whitespace at either end. */
  lemma CaptionAtBlank(s: Segment, index: nat)
    ensures CaptionAt(s, index).Some? <==> !Blank(s.text.GetOr(""))
    ensures CaptionAt(s, index).Some? ==> var t := CaptionAt(s, index).value.text; t != [] && Trimmed(t)
  {
    StripEmptyIffBlank(s.text.GetOr(""));
    StripSpec(s.text.GetOr(""));
  }

  /** Caption `c` is the one the segment at position `c.index` yields. */
  predicate Emits(segments: seq<Segment>, c: Caption) {
    1 <= c.index <= |segments| && CaptionAt(segments[c.index - 1], c.index) == Some(c)
  }

  lemma EmitsExtend(front: seq<Segment>, segments: seq<Segment>, caps: seq<Caption>)
    requires front <= segments
    requires forall k :: 0 <= k < |caps| ==> Emits(front, caps[k])
    ensures forall k :: 0 <= k < |caps| ==> Emits(segments, caps[k])
  {
    forall k | 0 <= k < |caps| ensures Emits(segments, caps[k]) {
      assert segments[caps[k].index - 1] == front[caps[k].index - 1];
    }
  }

  /** The captions of a segment list, in order, each numbered by the position
      of its segment in the whole list (so skipped segments leave gaps): every
      caption is the one its segment yields, and the numbers strictly
      increase. */
  function CaptionsOf(segments: seq<Segment>): (caps: seq<Caption>)
    ensures |caps| <= |segments|
    ensures forall k :: 0 <= k < |caps| ==> Emits(segments, caps[k])
    ensures forall j, k :: 0 <= j < k < |caps| ==> caps[j].index < caps[k].index
    decreases |segments|
  {
    if segments == [] then []
    else
      var n := |segments|;
      var front := segments[..n - 1];
      var before := CaptionsOf(front);
      var next := CaptionAt(segments[n - 1], n);
      EmitsExtend(front, segments, before);
      if next.None? then before else before + [next.value]
  }

  /** A caption numbered `i + 1` comes from segment `i`, whose text is
      therefore not blank. */
  lemma CaptionsSound(segments: seq<Segment>, k: nat)
    requires k < |CaptionsOf(segments)|
    ensures var c := CaptionsOf(segments)[k];
      c.index - 1 < |segments| && !Blank(segments[c.index - 1].text.GetOr(""))
  {
    var c := CaptionsOf(segments)[k];
    assert Emits(segments, c);
    CaptionAtBlank(segments[c.index - 1], c.index);
  }

  /** A segment with non-blank text yields some caption numbered by its
      position. */
  lemma {:induction false} CaptionsCover(segments: seq<Segment>, i: nat)
    requires i < |segments| && !Blank(segments[i].text.GetOr(""))
    ensures exists k :: 0 <= k < |CaptionsOf(segments)| && CaptionsOf(segments)[k].index == i + 1
    decreases |segments|
  {
    var n := |segments|;
    var front := segments[..n - 1];
    var caps := CaptionsOf(segments);
    var before := CaptionsOf(front);
    var next := CaptionAt(segments[n - 1], n);
    assert caps == if next.None? then before else before + [next.value];
    if i < n - 1 {
      assert front[i] == segments[i];
      CaptionsCover(front, i);
      var k :| 0 <= k < |before| && before[k].index == i + 1;
      assert caps[k] == before[k];
    } else {
      CaptionAtBlank(segments[i], i + 1);
      assert caps[|caps| - 1].index == i + 1;
    }
  }

  /** Every segment with non-blank text yields a caption carrying its
      position; a blank one yields none. */
  lemma CaptionsComplete(segments: seq<Segment>, i: nat)
    requires i < |segments|
    ensures (exists k :: 0 <= k < |CaptionsOf(segments)| && CaptionsOf(segments)[k].index == i + 1)
            <==> !Blank(segments[i].text.GetOr(""))
  {
    if k :| 0 <= k < |CaptionsOf(segments)| && CaptionsOf(segments)[k].index == i + 1 {
      CaptionsSound(segments, k);
    }
    if !Blank(segments[i].text.GetOr("")) {
      CaptionsCover(segments, i);
    }
  }

  /** Numbering does not depend on what follows: a prefix one segment longer
      has the same captions plus, at most, the one the new segment yields. */
  lemma CaptionsPrefix(segments: seq<Segment>, i: nat)
    requires i < |segments|
    ensures CaptionsOf(segments[..i + 1]) ==
      match CaptionAt(segments[i], i + 1)
      case None => CaptionsOf(segments[..i])
      case Some(c) => CaptionsOf(segments[..i]) + [c]
  {
    assert segments[..i + 1][..i] == segments[..i];
  }

  /** `f"{start_ts} --> {end_ts}"`. */
  function TimeRange(c: Caption): string {
    Timestamp.Format(c.start) + " --> " + Timestamp.Format(c.end)
  }

  /** A caption rendered as text: its number, its time range, its text. */
  datatype Entry = Entry(number: string, times: string, text: string)

  function Render(c: Caption): Entry {
    Entry(Decimal(c.index), TimeRange(c), c.text)
  }

  function RenderAll(caps: seq<Caption>): (es: seq<Entry>)
    ensures |es| == |caps|
  {
    seq(|caps|, k requires 0 <= k < |caps| => Render(caps[k]))
  }

  /** The four lines `write_transcription_outputs` appends for one caption:
      number, times, text and an empty separator line. */
  function EntryLines(e: Entry): seq<string> {
    [e.number, e.times, e.text, ""]
  }

  function LinesOf(es: seq<Entry>): seq<string>
    decreases |es|
  {
    if es == [] then [] else LinesOf(es[..|es| - 1]) + EntryLines(es[|es| - 1])
  }

  /** One SubRip block: number, `START --> END`, text, on three lines. */
  function Block(e: Entry): string {
    e.number + "\n" + e.times + "\n" + e.text
  }

  function Blocks(es: seq<Entry>): (bs: seq<string>)
    ensures |bs| == |es|
  {
    seq(|es|, k requires 0 <= k < |es| => Block(es[k]))
  }

  /** The caption file body as the format prescribes: nothing at all when no
      segment has text, otherwise the blocks separated by one blank line and
      followed by exactly one newline. */
  function SrtDocument(segments: seq<Segment>): string {
    var es := RenderAll(CaptionsOf(segments));
    if es == [] then "" else Join(Blocks(es), "\n\n") + "\n"
  }

  /** The body is empty exactly when every segment's text is blank. */
  lemma SrtDocumentEmpty(segments: seq<Segment>)
    ensures SrtDocument(segments) == "" <==>
            forall i :: 0 <= i < |segments| ==> Blank(segments[i].text.GetOr(""))
  {
    var caps := CaptionsOf(segments);
    if caps != [] {
      CaptionsSound(segments, 0);
    } else {
      forall i | 0 <= i < |segments| ensures Blank(segments[i].text.GetOr("")) {
        CaptionsComplete(segments, i);
      }
    }
  }

  /** Joining the accumulated lines with newlines gives the blocks separated
      by blank lines plus one trailing newline (from the final empty line). */
  lemma {:induction false} JoinLines(es: seq<Entry>)
    requires es != []
    ensures Join(LinesOf(es), "\n") == Join(Blocks(es), "\n\n") + "\n"
    decreases |es|
  {
    var n := |es|;
    var front := es[..n - 1];
    var e := es[n - 1];
    var l := EntryLines(e);
    var b := Block(e);
    assert LinesOf(es) == LinesOf(front) + l;
    assert Blocks(es) == Blocks(front) + [b];
    JoinFour(l[0], l[1], l[2], l[3], "\n");
    assert Join(l, "\n") == b + "\n";
    JoinSnoc(Blocks(front), b, "\n\n");
    if front == [] {
      assert LinesOf(front) == [] && Blocks(front) == [];
      assert LinesOf(es) == l;
    } else {
      var j := Join(Blocks(front), "\n\n");
      JoinLines(front);
      assert LinesOf(front) != [];
      JoinAppend(LinesOf(front), l, "\n");
      assert Join(LinesOf(es), "\n") == (j + "\n") + "\n" + (b + "\n");
      assert (j + "\n") + "\n" + (b + "\n") == (j + "\n\n" + b) + "\n";
    }
  }

  /** When the first entry starts with a non-space character and the last
      entry's text is non-empty and ends with one, the joined blocks are
      trimmed. */
  lemma BlocksTrimmed(es: seq<Entry>)
    requires es != [] && es[0].number != [] && !IsSpace(es[0].number[0])
    requires es[|es| - 1].text != [] && !IsSpace(es[|es| - 1].text[|es[|es| - 1].text| - 1])
    ensures var j := Join(Blocks(es), "\n\n"); j != [] && Trimmed(j)
  {
    var bs := Blocks(es);
    var lb := Block(es[|es| - 1]);
    JoinEndsWithLast(bs, "\n\n");
    var j := Join(bs, "\n\n");
    assert j[|j| - |lb|..] == lb;
    assert j[|j| - 1] == lb[|lb| - 1];
    var fb := Block(es[0]);
    assert |bs| == 1 ==> j == fb;
    assert |bs| > 1 ==> j == fb + "\n\n" + Join(bs[1..], "\n\n");
    assert j[0] == fb[0];
  }

  /** A caption's text is never empty and never starts or ends with
      whitespace. */
  lemma CaptionTextTrimmed(segments: seq<Segment>, k: nat)
    requires k < |CaptionsOf(segments)|
    ensures var t := CaptionsOf(segments)[k].text; t != [] && Trimmed(t)
  {
    var c := CaptionsOf(segments)[k];
    assert Emits(segments, c);
    CaptionAtBlank(segments[c.index - 1], c.index);
  }

  /** Rendering a list of captions: the first block starts with a digit
      (the first caption's number) and the last one ends with the last
      caption's text. */
  lemma RenderEnds(caps: seq<Caption>)
    requires caps != []
    ensures var es := RenderAll(caps);
      es[0].number != [] && IsDigit(es[0].number[0])
      && es[|es| - 1].text == caps[|caps| - 1].text
  {
    DecimalDigits(caps[0].index);
  }

  /** One step of the loop: the lines for a prefix one segment longer are
      the previous lines plus the four lines of that segment's caption, or
      nothing when its text strips to empty. */
  lemma LinesStep(segments: seq<Segment>, i: nat)
    requires i < |segments|
    ensures var text := CaptionText(segments[i]);
      LinesOf(RenderAll(CaptionsOf(segments[..i + 1]))) ==
        LinesOf(RenderAll(CaptionsOf(segments[..i])))
        + (if text == [] then []
           else [Decimal(i + 1), Timestamp.Format(StartMillis(segments[i])) + " --> "
                 + Timestamp.Format(EndMillis(segments[i])), text, ""])
  {
    CaptionsPrefix(segments, i);
    var c := CaptionAt(segments[i], i + 1);
    if c.Some? {
      var es := RenderAll(CaptionsOf(segments[..i]));
      assert RenderAll(CaptionsOf(segments[..i]) + [c.value]) == es + [Render(c.value)];
      assert (es + [Render(c.value)])[..|es|] == es;
    }
  }

  /** After the loop: stripping the newline-joined lines and putting one
      newline back gives the caption document. */
  lemma LinesDocument(segments: seq<Segment>)
    ensures var body := Strip(Join(LinesOf(RenderAll(CaptionsOf(segments))), "\n"));
      (if body != [] then body + "\n" else "") == SrtDocument(segments)
  {
    var es := RenderAll(CaptionsOf(segments));
    if es != [] {
      var caps := CaptionsOf(segments);
      JoinLines(es);
      CaptionTextTrimmed(segments, |caps| - 1);
      RenderEnds(caps);
      BlocksTrimmed(es);
      StripTrailingNewline(Join(Blocks(es), "\n\n"));
    }
  }

  /** The loop of `write_transcription_outputs`: walk the segments with their
      1-based positions, skip the blank ones, collect four lines per caption;
      then join with newlines, strip, and add one newline unless empty. */
  method SrtBody(segments: seq<Segment>) returns (body: string)
    ensures body == SrtDocument(segments)
  {
    var lines: seq<string> := [];
    for i := 0 to |segments|
      invariant lines == LinesOf(RenderAll(CaptionsOf(segments[..i])))
    {
      LinesStep(segments, i);
      var idx := i + 1;
      var segment := segments[i];
      var startTs := Timestamp.Format(StartMillis(segment));
      var endTs := Timestamp.Format(EndMillis(segment));
      var text := CaptionText(segment);
      if text == [] {
        continue;
      }
      lines := lines + [Decimal(idx), startTs + " --> " + endTs, text, ""];
    }
    assert segments[..|segments|] == segments;
    LinesDocument(segments);
    var srtBody := Strip(Join(lines, "\n"));
    body := if srtBody != [] then srtBody + "\n" else "";
  }

  /** `transcription.get("text", "").strip()`: the transcript returned to the
      caller, a trimmed slice of the record's text with only whitespace
      around it. */
  function TranscriptText(t: Transcription): (r: string)
    ensures Trimmed(r)
    ensures exists i :: SliceBetweenSpaces(t.text.GetOr(""), r, i)
  {
    StripSpec(t.text.GetOr(""));
    Strip(t.text.GetOr(""))
  }

  /** The `.txt` file body: the transcript and a newline. */
  function TranscriptBody(t: Transcription): string {
    TranscriptText(t) + "\n"
  }

  /** The `.txt` body ends in exactly one newline: the character before it, if
      any, is not whitespace, and what precedes it is the stripped record
      text. */
  lemma TranscriptBodyShape(t: Transcription)
    ensures var b := TranscriptBody(t);
      |b| >= 1 && b[|b| - 1] == '\n' && (|b| == 1 || !IsSpace(b[|b| - 2]))
      && b[..|b| - 1] == Strip(t.text.GetOr(""))
  {
    var b := TranscriptBody(t);
    assert b[..|b| - 1] == TranscriptText(t);
  }
}
