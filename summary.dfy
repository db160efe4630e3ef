/** The prompt `summarize_transcript` (gui_transcribe.py) sends to the
    completion service, and how it treats the reply. */
module Summary {
  import opened Outcomes
  import opened Text

  /** The marker a template uses for where the transcript goes. */
  const Placeholder := "{transcript}"

  /** The label used when a template has no marker. */
  const TranscriptLabel := "\n\nTranscript:\n"

  /** `prompt_template or ""`, then either every marker replaced by the
      stripped transcript, or the stripped template followed by the label and
      the stripped transcript. */
  function BuildPrompt(template: Option<string>, transcript: string): string {
    var t := template.GetOr("");
    var cleaned := Strip(transcript);
    if Contains(t, Placeholder) then Replace(t, Placeholder, cleaned)
    else Strip(t) + TranscriptLabel + cleaned
  }

  /** A missing template behaves as the empty one. */
  lemma BuildPromptNone(transcript: string)
    ensures BuildPrompt(None, transcript) == BuildPrompt(Some(""), transcript)
    ensures BuildPrompt(None, transcript) == TranscriptLabel + Strip(transcript)
  {
    assert !Contains("", Placeholder);
    StripTrimmed("");
  }

  /** With a marker present, the template is cut at every marker into at
      least two marker-free pieces that rebuild it, and the prompt is those
      same pieces with the stripped transcript between them: only the markers
      change. */
  lemma BuildPromptSubstitutes(template: string, transcript: string)
    requires Contains(template, Placeholder)
    ensures var pieces := Split(template, Placeholder);
      |pieces| >= 2
      && Join(pieces, Placeholder) == template
      && (forall k :: 0 <= k < |pieces| ==> !Contains(pieces[k], Placeholder))
      && BuildPrompt(Some(template), transcript) == Join(pieces, Strip(transcript))
  {
    SplitOfContaining(template, Placeholder);
    JoinSplit(template, Placeholder);
    SplitPiecesFree(template, Placeholder);
    ReplaceIsJoinSplit(template, Placeholder, Strip(transcript));
  }

  /** Without a marker, the prompt starts with the whole stripped template
      and ends with the whole stripped transcript, the label between. */
  lemma BuildPromptAppends(template: Option<string>, transcript: string)
    requires !Contains(template.GetOr(""), Placeholder)
    ensures var p := BuildPrompt(template, transcript);
      var t := Strip(template.GetOr(""));
      var c := Strip(transcript);
      |p| == |t| + |TranscriptLabel| + |c|
      && p[..|t|] == t
      && p[|t|..|t| + |TranscriptLabel|] == TranscriptLabel
      && p[|p| - |c|..] == c
  {
    var p := BuildPrompt(template, transcript);
    var t := Strip(template.GetOr(""));
    var c := Strip(transcript);
    assert p == t + TranscriptLabel + c;
    assert p[..|t|] == t;
    assert p[|t|..|t| + |TranscriptLabel|] == TranscriptLabel;
    assert p[|p| - |c|..] == c;
  }

  /** Whatever the template, the stripped transcript reaches the prompt. */
  lemma TranscriptInPrompt(template: Option<string>, transcript: string)
    ensures Contains(BuildPrompt(template, transcript), Strip(transcript))
  {
    var t := template.GetOr("");
    var c := Strip(transcript);
    var p := BuildPrompt(template, transcript);
    if Contains(t, Placeholder) {
      BuildPromptSubstitutes(t, transcript);
      JoinContainsSeparator(Split(t, Placeholder), c);
    } else {
      BuildPromptAppends(template, transcript);
      ContainsAt(p, c, |p| - |c|);
    }
  }

  /** The template ends with the marker. */
  predicate EndsWithPlaceholder(t: string) {
    |t| >= |Placeholder| && t[|t| - |Placeholder|..] == Placeholder
  }

  lemma PlaceholderAppended(intro: string)
    ensures EndsWithPlaceholder(intro + Placeholder)
  {
    assert (intro + Placeholder)[|intro|..] == Placeholder;
  }

  /** A template ending in the marker contains it, so its prompt is the
      substituted one. */
  lemma EndsWithPlaceholderSubstitutes(t: string, transcript: string)
    requires EndsWithPlaceholder(t)
    ensures Contains(t, Placeholder)
    ensures BuildPrompt(Some(t), transcript) == Replace(t, Placeholder, Strip(transcript))
  {
    var k := |t| - |Placeholder|;
    assert t[k..k + |Placeholder|] == t[k..];
    ContainsAt(t, Placeholder, k);
  }

  /** A template ending in the marker with no other `{` before it yields
      its introduction followed directly by the stripped transcript. */
  lemma TrailingPlaceholder(intro: string, transcript: string)
    requires '{' !in intro
    ensures Contains(intro + Placeholder, Placeholder)
    ensures BuildPrompt(Some(intro + Placeholder), transcript) == intro + Strip(transcript)
  {
    var t := intro + Placeholder;
    assert t[|intro|..|intro| + |Placeholder|] == Placeholder;
    ContainsAt(t, Placeholder, |intro|);
    ReplaceTrailing(intro, Strip(transcript));
  }

  lemma {:induction false} ReplaceTrailing(intro: string, rep: string)
    requires '{' !in intro
    ensures Replace(intro + Placeholder, Placeholder, rep) == intro + rep
    decreases |intro|
  {
    var s := intro + Placeholder;
    if intro == [] {
      assert s == Placeholder;
      assert s[|Placeholder|..] == [];
    } else {
      assert intro[0] in intro;
      assert s[..|Placeholder|][0] != Placeholder[0];
      assert Replace(s, Placeholder, rep) == [s[0]] + Replace(s[1..], Placeholder, rep);
      assert s[1..] == intro[1..] + Placeholder;
      assert forall c :: c in intro[1..] ==> c in intro;
      ReplaceTrailing(intro[1..], rep);
      assert [intro[0]] + intro[1..] == intro;
    }
  }

  /** What the summary step gives back: the service's answer to the prompt,
      stripped, or the service's error. */
  function Summarize(template: Option<string>, transcript: string, complete: string -> Reply<string>): (r: Reply<string>)
    ensures r.Answered? <==> complete(BuildPrompt(template, transcript)).Answered?
    ensures r.Raised? ==> r == complete(BuildPrompt(template, transcript))
    ensures r.Answered? ==>
      Trimmed(r.value) && exists i :: SliceBetweenSpaces(complete(BuildPrompt(template, transcript)).value, r.value, i)
  {
    match complete(BuildPrompt(template, transcript))
    case Answered(reply) => StripSpec(reply); Answered(Strip(reply))
    case Raised(message) => Raised(message)
  }
}
