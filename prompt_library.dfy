/** The named prompt templates of gui_transcribe.py: the built-in set, the
    store `prompts.json` that holds the user's library, and the two UI
    callbacks that read and write it. */
module PromptLibrary {
  import opened Outcomes
  import opened Text
  import Summary

  const GeneralSummary := "General Summary"
  const LbUpdate := "LB Update (one line)"
  const RadiologyDowntime := "Radiology Downtime (Ops)"
  const LandListing := "Land Listing Summary"

  /** The text of each built-in template before its transcript marker. */
  const GeneralSummaryIntro :=
    "You are an executive assistant. Provide 5-10 concise bullet points summarizing the conversation. "
    + "Focus on decisions, action items, deadlines, and unresolved questions. Include owners when possible.\n"
  const LbUpdateIntro :=
    "Produce a single-line status update no longer than 300 characters covering current status, blockers, "
    + "and the next planned step. Do not add bullet points or labels.\n"
  const RadiologyDowntimeIntro :=
    "Summarize the incident for hospital operations leadership. Highlight impact, timeline, workarounds, "
    + "communication points, and next actions. Keep it concise and actionable.\n"
  const LandListingIntro :=
    "Imagine you are briefing a buyer's agent about a new property listing. Provide the buyer persona, top "
    + "reasons to care, risks, next actions, and 3-5 attention-grabbing headlines (each 34 characters or fewer). "

  /** `DEFAULT_PROMPTS`: each built-in template is its introduction followed
      by the transcript marker. */
  function DefaultPrompts(): map<string, string> {
    map[GeneralSummary := GeneralSummaryIntro + Summary.Placeholder,
        LbUpdate := LbUpdateIntro + Summary.Placeholder,
        RadiologyDowntime := RadiologyDowntimeIntro + Summary.Placeholder,
        LandListing := LandListingIntro + Summary.Placeholder]
  }

  /** There are exactly four built-in templates, and each one ends with the
      transcript marker (so each contains it, and prompt building takes the
      substituting branch for them). */
  lemma DefaultPromptsShape()
    ensures DefaultPrompts().Keys == {GeneralSummary, LbUpdate, RadiologyDowntime, LandListing}
    ensures forall name :: name in DefaultPrompts() ==> Summary.EndsWithPlaceholder(DefaultPrompts()[name])
  {
    Summary.PlaceholderAppended(GeneralSummaryIntro);
    Summary.PlaceholderAppended(LbUpdateIntro);
    Summary.PlaceholderAppended(RadiologyDowntimeIntro);
    Summary.PlaceholderAppended(LandListingIntro);
  }

  /** The library `ensure_prompt_library` returns for a store that is absent
      (the built-in set, which it first writes) or present (its contents). */
  function Library(stored: Option<map<string, string>>): map<string, string> {
    stored.GetOr(DefaultPrompts())
  }

  /** `prompts.get(prompt_name, "")`. */
  function Lookup(prompts: map<string, string>, name: string): (text: string)
    ensures name !in prompts ==> text == ""
    ensures name in prompts ==> text == prompts[name]
  {
    if name in prompts then prompts[name] else ""
  }

  /** The library after `save_prompt(name, text)`. */
  function Saved(stored: Option<map<string, string>>, name: string, text: string): map<string, string> {
    Library(stored)[name := text]
  }

  /** Saving is an upsert: the saved name now reads back as the saved text,
      every other name reads as before, and the names are the old ones plus
      the saved one. */
  lemma SaveThenLoad(stored: Option<map<string, string>>, name: string, text: string, other: string)
    ensures Lookup(Saved(stored, name, text), name) == text
    ensures other != name ==> Lookup(Saved(stored, name, text), other) == Lookup(Library(stored), other)
    ensures Saved(stored, name, text).Keys == Library(stored).Keys + {name}
  {
  }

  /** Seeding happens once: the library of a seeded store is that store. */
  lemma LibraryStable(stored: Option<map<string, string>>)
    ensures Library(Some(Library(stored))) == Library(stored)
    ensures stored.Some? ==> Library(stored) == stored.value
  {
  }

  /** Why `on_prompt_save` refuses to save, if it does. */
  function SaveRefusal(name: string, text: string): (r: Option<string>)
    ensures r.None? <==> name != "" && !Blank(text)
  {
    StripEmptyIffBlank(text);
    if name == "" then Some("❌ Please provide a prompt name.")
    else if Strip(text) == "" then Some("❌ Prompt text cannot be empty.")
    else None
  }

  /** The helper line shown under the prompt editor after a selection. */
  function LoadedHelper(name: string, text: string): string {
    if text != "" then "Loaded prompt: **" + name + "**" else ""
  }

  /** The prompt store file, `prompts.json`: absent, or holding a map from
      prompt names to template texts. */
  class PromptStore {
    var stored: Option<map<string, string>>

    constructor(initial: Option<map<string, string>>)
      ensures stored == initial
    {
      stored := initial;
    }

    /** `ensure_prompt_library`: write the built-in set when the store is
        absent, then return what the store holds. */
    method EnsurePromptLibrary() returns (prompts: map<string, string>)
      modifies this
      ensures prompts == Library(old(stored))
      ensures stored == Some(prompts)
      ensures old(stored).Some? ==> stored == old(stored)
    {
      if stored.None? {
        stored := Some(DefaultPrompts());
      }
      prompts := stored.value;
    }

    /** `save_prompt`: load (seeding if needed), set the one entry, write
        back. */
    method SavePrompt(name: string, text: string)
      modifies this
      ensures stored == Some(Saved(old(stored), name, text))
    {
      var prompts := EnsurePromptLibrary();
      prompts := prompts[name := text];
      stored := Some(prompts);
    }

    /** `load_prompt_text`: the saved text, or `""` for an unknown name. The
        lookup seeds the store when it is absent. */
    method LoadPromptText(name: string) returns (text: string)
      modifies this
      ensures text == Lookup(Library(old(stored)), name)
      ensures stored == Some(Library(old(stored)))
    {
      var prompts := EnsurePromptLibrary();
      text := Lookup(prompts, name);
    }

    /** `on_prompt_save`: refuse an empty name, then a blank text, leaving
        the store untouched; otherwise save and confirm by name. */
    method OnPromptSave(name: string, text: string) returns (message: string)
      modifies this
      ensures SaveRefusal(name, text).Some? ==>
        message == SaveRefusal(name, text).value && stored == old(stored)
      ensures SaveRefusal(name, text).None? ==>
        message == "✅ Saved prompt '" + name + "'." && stored == Some(Saved(old(stored), name, text))
    {
      if name == "" {
        return "❌ Please provide a prompt name.";
      }
      if Strip(text) == "" {
        return "❌ Prompt text cannot be empty.";
      }
      SavePrompt(name, text);
      message := "✅ Saved prompt '" + name + "'.";
    }

    /** `on_prompt_selected`: an empty selection loads nothing and leaves the
        store alone; otherwise the text is looked up, and the helper names
        the prompt when the text is not empty. */
    method OnPromptSelected(name: string) returns (text: string, helper: string)
      modifies this
      ensures name == "" ==> text == "" && stored == old(stored)
      ensures name != "" ==> text == Lookup(Library(old(stored)), name) && stored == Some(Library(old(stored)))
      ensures helper == LoadedHelper(name, text)
    {
      text := "";
      if name != "" {
        text := LoadPromptText(name);
      }
      helper := "";
      if text != "" {
        helper := "Loaded prompt: **" + name + "**";
      }
    }
  }

  /** After a selection, the helper line is shown exactly when the library
      holds a non-empty text under that name, and it then shows the name
      between the bold markers. */
  lemma SelectionHelper(stored: Option<map<string, string>>, name: string)
    ensures var helper := LoadedHelper(name, Lookup(Library(stored), name));
      (helper != "" <==> name in Library(stored) && Library(stored)[name] != "")
      && (helper != "" ==> |helper| == |name| + 19 && helper[17..17 + |name|] == name)
  {
    var helper := LoadedHelper(name, Lookup(Library(stored), name));
    if helper != "" {
      assert helper == "Loaded prompt: **" + name + "**";
      assert helper[17..17 + |name|] == name;
    }
  }
}
