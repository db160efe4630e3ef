# Transcriber artifacts, modelled in Dafny

`gui_transcribe.py` is a small desktop tool. It sends an uploaded audio file to a
speech-to-text service. From the verbose transcription record it writes three
artifacts into `out/`:

- a plain-text transcript;
- the raw record as JSON;
- a SubRip (`.srt`) caption file.

It can then ask a completion service to summarize the transcript, using a
template from a small library of named prompts stored in `prompts.json`. The
summary goes to a fourth file.

This project models that core and proves what it promises:

- **`Timestamp`**: the caption timestamp `HH:MM:SS,mmm` over whole milliseconds.
  It proves the clock split with its bounds and uniqueness, and the padded field
  layout. Hours never wrap. A parser gives the round trip, so the rendering is
  also proved injective. Below 100 hours, timestamps sort as strings in time
  order. At 100 hours the hour field grows a third digit, and that order
  breaks.
- **`Captions`**: the transcript text and `.txt` body, the captions a segment
  list yields, and the caption document.
  - Captions are numbered by segment position, and blank segments leave gaps.
  - A caption exists exactly when its segment's text is not blank.
  - The document is empty exactly when every segment is blank. Otherwise it is
    the blocks separated by blank lines, with one final newline.
  - The `write_transcription_outputs` loop (`SrtBody`) is proved to compute this
    document.
- **`Summary`**: prompt construction.
  - A missing template reads as empty.
  - With the `{transcript}` marker, the template is cut at every marker and
    re-joined with the stripped transcript. Only the markers change.
  - Without the marker, the stripped template, a label and the stripped
    transcript are concatenated.
  - In both cases the transcript reaches the prompt.
  - The reply is stripped.
- **`PromptLibrary`**: the four built-in templates, and the store as a class.
  - Seeding happens only when the store is absent.
  - Saving is an upsert that leaves other names alone.
  - An unknown name reads as `""`.
  - The guarded save rejects an empty name, then a blank text, without touching
    the store.
- **`Pipeline`**: `transcribe_file`, specified by a pure function `Run` from:
  - the starting files;
  - the request (path, summarize flag, prompt text);
  - the environment: the API key, the clock's stamp, the transcription reply
    and the completion service.

  `Run` gives the result, the files afterwards, and the remote calls made, in
  order. A `Disk` class and the two methods `WriteTranscriptionOutputs` and
  `TranscribeFile` perform the writes step by step, and are proved to reach
  exactly `Run`'s state. The lemmas cover:
  - the order of the checks;
  - that nothing is written before the transcription answers;
  - the blank-prompt failure after the three artifacts exist;
  - both success shapes, and their statuses.

- **`Text`**: the Python string operations these modules stand on:
  - `str.strip` under Python's `str.isspace` character set;
  - `str.join`, `in` and `str.replace`;
  - `str(n)` and `format(n, "0w")`.

  Each comes with its characterising lemmas.
- **`Outcomes`**: `Option`, `Reply` (a remote call answers or raises) and `Result`.

## Model

| member | source | states |
|---|---|---|
| Timestamp.Format | gui_transcribe.py:73-78 | `seconds_to_srt_timestamp` on a whole number of milliseconds: the clock split rendered as `{hours:02}:{minutes:02}:{secs:02},{millis:03}`. Its layout, round trip, width and order are the contracts of FormatShape, ParseFormat, FormatWidthBelow100Hours and FormatMonotoneBelow100Hours |
| Timestamp.Decompose | gui_transcribe.py:75-77 | the chained `divmod`s give minutes < 60, seconds < 60, milliseconds < 1000, and the fields sum back to the count |
| Timestamp.DecomposeTotal | gui_transcribe.py:75-77 | the split is the only one with in-range fields: decomposing the total of a valid clock returns that clock |
| Timestamp.FormatShape | gui_transcribe.py:78 | the rendering is `H..H:MM:SS,mmm`, with `:`, `:` and `,` in fixed places from the end; all fields are digits; the hour field reads as count / 3600000 with no wrap-around, and has no leading zero when it is wider than two digits; minutes, seconds and milliseconds read as the clock fields |
| Timestamp.ParseFormat | gui_transcribe.py:78 | reading the rendered timestamp gives back the millisecond count |
| Timestamp.FormatInjective | gui_transcribe.py:78 | distinct counts render to distinct timestamps |
| Timestamp.FormatWidthBelow100Hours | gui_transcribe.py:78 | below 100 hours every timestamp is exactly 12 characters |
| Timestamp.FormatMonotoneBelow100Hours | gui_transcribe.py:75-78 | below 100 hours, a later time never renders as a timestamp that sorts before an earlier one under Python's string order |
| Timestamp.FormatOrderBreaksAt100Hours | gui_transcribe.py:78 | at 100 hours the hour field takes a third digit, and `100:00:00,000` sorts before `99:59:59,999`: the order holds only below 100 hours |
| Text.ZeroPad | gui_transcribe.py:78 | `format(n, "0w")`: the decimal digits with zeros on the left up to width `w`. ZeroPadProperties states what it gives |
| Text.Decimal | gui_transcribe.py:110 | `str(n)` for a natural number. DecimalDigits and ParseDecimal state what it gives |
| Text.ZeroPadProperties | gui_transcribe.py:78 | `{:0w}` gives all digits, at least `w` of them (never truncated), exactly `w` when the value fits, no padding zero in front when it is wider than `w`, and reads back as the value; for `w > 0` these fix the string |
| Text.DecimalDigits | gui_transcribe.py:110 | `str(idx)` is a non-empty digit run without a leading zero |
| Text.ParseDecimal | gui_transcribe.py:110 | `str(idx)` reads back as `idx` |
| Text.DigitsOrder | gui_transcribe.py:78 | two digit strings of the same length compare as strings the way their values compare as numbers |
| Text.Strip | gui_transcribe.py:94 | `str.strip()`: cuts the `str.isspace` characters from both ends. StripSpec, StripEmptyIffBlank and StripIdempotent state what it gives |
| Text.StripSpec | gui_transcribe.py:94 | `strip()` returns a slice with no whitespace at either end, and only whitespace is cut from either side |
| Text.StripEmptyIffBlank | gui_transcribe.py:108 | a stripped text is empty exactly when every character is whitespace |
| Text.StripIdempotent | gui_transcribe.py:121 | stripping the already stripped transcript again changes nothing |
| Text.StripTrailingNewline | gui_transcribe.py:113-114 | for a non-empty trimmed text followed by a newline, stripping returns the text |
| Text.Contains | gui_transcribe.py:122 | `pat in s`, scanned from the left. ContainsIff states when it holds |
| Text.ContainsIff | gui_transcribe.py:122 | the `in` scan holds exactly when the pattern occurs at some index |
| Text.Join | gui_transcribe.py:113 | `sep.join(pieces)`: the pieces with one separator between neighbours. JoinAppend, JoinEndsWithLast and JoinContainsSeparator state its properties |
| Text.Replace | gui_transcribe.py:123 | `s.replace(pat, rep)`: every occurrence replaced, left to right, without overlaps. ReplaceIsJoinSplit and ReplaceAbsent state what it gives |
| Text.JoinSplit | gui_transcribe.py:123 | cutting at every occurrence and joining with the pattern rebuilds the string |
| Text.ReplaceIsJoinSplit | gui_transcribe.py:123 | `replace` is the pieces joined with the replacement |
| Text.SplitPiecesFree | gui_transcribe.py:123 | no piece contains the pattern |
| Text.SplitOfContaining | gui_transcribe.py:122-123 | a string containing the pattern is cut into at least two pieces |
| Text.ReplaceAbsent | gui_transcribe.py:122-123 | with no occurrence, `replace` changes nothing |
| Text.JoinContainsSeparator | gui_transcribe.py:123 | joining two or more pieces puts the separator in the result |
| Text.JoinAppend | gui_transcribe.py:113 | `"\n".join` of two non-empty line lists is their joins separated once |
| Text.JoinEndsWithLast | gui_transcribe.py:113 | a join ends with its last piece |
| Captions.SegmentsOf | gui_transcribe.py:103 | `transcription.get("segments") or []`: a missing segment list reads as empty |
| Captions.StartMillis | gui_transcribe.py:105 | `segment.get("start", 0)`: a missing start reads as 0 |
| Captions.EndMillis | gui_transcribe.py:106 | `segment.get("end", 0)`: a missing end reads as 0 |
| Captions.CaptionText | gui_transcribe.py:107 | `str(segment.get("text", "")).strip()`, with a missing text read as `""` |
| Captions.CaptionAt | gui_transcribe.py:104-110 | one `enumerate` step on its own: the caption numbered by the segment's position, with its start, end and stripped text, or none when the text strips to empty. CaptionAtBlank states when it yields one |
| Captions.CaptionAtBlank | gui_transcribe.py:105-109 | a segment yields a caption exactly when its text (missing reads as `""`) is not blank; the caption text is then non-empty and trimmed |
| Captions.CaptionsOf | gui_transcribe.py:103-110 | no more captions than segments; each caption is what the segment at its 1-based position yields; numbers strictly increase, so order is kept |
| Captions.CaptionsSound | gui_transcribe.py:104-109 | a caption numbered `i + 1` comes from segment `i`, whose text is not blank |
| Captions.CaptionsCover | gui_transcribe.py:104-110 | every non-blank segment yields a caption carrying its position |
| Captions.CaptionsComplete | gui_transcribe.py:104-110 | a caption numbered `i + 1` exists exactly when segment `i` is not blank, so a blank segment leaves a numbering gap |
| Captions.CaptionsPrefix | gui_transcribe.py:104-110 | extending the list by one segment appends at most that segment's caption and renumbers nothing |
| Captions.CaptionTextTrimmed | gui_transcribe.py:107-110 | every caption's text is non-empty and trimmed |
| Captions.TimeRange | gui_transcribe.py:105-110 | `f"{start_ts} --> {end_ts}"`: the two formatted timestamps joined by an arrow |
| Captions.SrtDocument | gui_transcribe.py:102-114 | the caption file defined from the captions, apart from the loop: the rendered blocks joined by a blank line, with one final newline, or `""` when there are none. SrtBody is proved to compute it, and SrtDocumentEmpty and LinesDocument state its shape |
| Captions.SrtDocumentEmpty | gui_transcribe.py:113-114 | the caption document is `""`, with no newline, exactly when every segment is blank |
| Captions.JoinLines | gui_transcribe.py:110-113 | newline-joining the four lines per caption gives the blocks separated by a blank line, plus one trailing newline |
| Captions.BlocksTrimmed | gui_transcribe.py:113 | when the first block starts and the last ends with a non-space, the joined blocks are trimmed |
| Captions.RenderEnds | gui_transcribe.py:110 | the first rendered block starts with a digit, and the last ends with the last caption's text |
| Captions.LinesStep | gui_transcribe.py:104-110 | one loop step adds exactly the four lines of the new segment's caption (number, `START --> END`, text, empty), or nothing when its text strips to empty |
| Captions.LinesDocument | gui_transcribe.py:113-114 | stripping the joined lines and adding one newline unless empty gives the caption document |
| Captions.SrtBody | gui_transcribe.py:102-114 | the loop with `enumerate(start=1)`, `continue` and `extend`, followed by join, strip and the conditional newline, computes the caption document |
| Captions.TranscriptText | gui_transcribe.py:94 | the transcript is trimmed, and is the record's text (missing reads as `""`) with only whitespace cut away |
| Captions.TranscriptBody | gui_transcribe.py:97 | the `.txt` body: the stripped transcript and a newline. TranscriptBodyShape states its shape |
| Captions.TranscriptBodyShape | gui_transcribe.py:97 | the `.txt` body is the stripped text and exactly one newline |
| Summary.BuildPrompt | gui_transcribe.py:120-125 | the prompt `summarize_transcript` sends: the template (missing reads as `""`) with every marker replaced by the stripped transcript, or, without a marker, the stripped template, the label and the stripped transcript. BuildPromptNone, BuildPromptSubstitutes, BuildPromptAppends and TranscriptInPrompt state what it gives |
| Summary.BuildPromptNone | gui_transcribe.py:120 | a missing template behaves as `""`, giving the label and the stripped transcript |
| Summary.BuildPromptSubstitutes | gui_transcribe.py:122-123 | with the marker present, the template is at least two marker-free pieces that rebuild it, and the prompt is those pieces joined with the stripped transcript |
| Summary.BuildPromptAppends | gui_transcribe.py:124-125 | without the marker, the prompt is the whole stripped template, the label `\n\nTranscript:\n`, and the whole stripped transcript, at those positions |
| Summary.TranscriptInPrompt | gui_transcribe.py:121-125 | on either branch the stripped transcript occurs in the prompt |
| Summary.EndsWithPlaceholderSubstitutes | gui_transcribe.py:122-123 | a template ending in the marker contains it, so the prompt is the substituted one |
| Summary.TrailingPlaceholder | gui_transcribe.py:122-123 | a template that is a `{`-free introduction followed by the marker yields the introduction followed directly by the stripped transcript |
| Summary.Summarize | gui_transcribe.py:127-131 | the service is asked with the built prompt; an error passes through unchanged; an answer comes back trimmed, cut from the reply with only whitespace around it |
| PromptLibrary.DefaultPrompts | gui_transcribe.py:19-37 | `DEFAULT_PROMPTS`: the four named templates, each its introduction text followed by the marker. DefaultPromptsShape states its keys and that every template ends with the marker |
| PromptLibrary.Library | gui_transcribe.py:40-46 | what `ensure_prompt_library` returns: the built-in set for an absent store, the store's map otherwise. LibraryStable states that seeding happens once |
| PromptLibrary.Saved | gui_transcribe.py:49-52 | the library after `save_prompt`: the loaded library with the one entry set. SaveThenLoad states the upsert |
| PromptLibrary.DefaultPromptsShape | gui_transcribe.py:19-37 | there are exactly the four built-in names, and every built-in template ends with the marker |
| PromptLibrary.Lookup | gui_transcribe.py:57 | a missing name reads as `""`, a present one as its text |
| PromptLibrary.SaveThenLoad | gui_transcribe.py:49-57 | after saving, the name reads back as the saved text, every other name reads as before, and the names are the old ones plus the saved one |
| PromptLibrary.LibraryStable | gui_transcribe.py:40-46 | an existing store is returned as it is, so seeding happens at most once |
| PromptLibrary.SaveRefusal | gui_transcribe.py:219-223 | the guarded save proceeds exactly when the name is non-empty and the text is not blank |
| PromptLibrary.LoadedHelper | gui_transcribe.py:213-215 | the helper line under the editor: the name in bold when the loaded text is not empty, otherwise empty. SelectionHelper states when it shows |
| PromptLibrary.SelectionHelper | gui_transcribe.py:211-216 | the helper line is shown exactly when the library holds a non-empty text under the selected name, and it then shows that name between the bold markers |
| PromptLibrary.PromptStore.EnsurePromptLibrary | gui_transcribe.py:40-46 | the built-in set is written only when the store is absent; an existing store is returned and kept unchanged |
| PromptLibrary.PromptStore.SavePrompt | gui_transcribe.py:49-52 | the store becomes the loaded library with the one entry set |
| PromptLibrary.PromptStore.LoadPromptText | gui_transcribe.py:55-57 | returns the saved text or `""`, seeding an absent store |
| PromptLibrary.PromptStore.OnPromptSave | gui_transcribe.py:219-225 | an empty name, then a blank text, is refused with its message and the store untouched; otherwise the prompt is saved and confirmed by name |
| PromptLibrary.PromptStore.OnPromptSelected | gui_transcribe.py:211-216 | an empty selection loads nothing and touches no store; otherwise the text is looked up, and the helper names the prompt when the text is not empty |
| Pipeline.LastIndex | gui_transcribe.py:69 | the result is the position of the last occurrence of the character, or -1 when there is none |
| Pipeline.Name | gui_transcribe.py:69 | `Path.name`: the text after the last `/`, or the whole path when it has none |
| Pipeline.Stem | gui_transcribe.py:69 | `Path.stem`: the final component without its last suffix; the result is always a prefix of the final component |
| Pipeline.StemWhole | gui_transcribe.py:69 | the stem is the whole final component exactly when it has no dot, or its last dot is its first or final character; otherwise it is the component cut at its last dot |
| Pipeline.StemOfFileName | gui_transcribe.py:69 | the stem of `dir/stem.ext` is `stem` |
| Pipeline.BaseName | gui_transcribe.py:67-70 | `timestamped_basename`: the stem, a dash and the run's timestamp, which is an input |
| Pipeline.ArtifactPath | gui_transcribe.py:96-168 | `OUT_DIR / f"{base_name}<suffix>"`: the artifact's path inside `out/`. ArtifactPathsDistinct states that the four of a run differ |
| Pipeline.ArtifactPathsDistinct | gui_transcribe.py:96-168 | the `.txt`, `.json`, `.srt` and `-summary.txt` paths of one run are pairwise distinct |
| Pipeline.Run | gui_transcribe.py:134-182 | `transcribe_file` as a function of the starting files, the request and the environment: the result, the files afterwards and the remote calls, in order. ChecksFirst, NothingWrittenBeforeTranscript, TranscriptionFails, BlankPromptFailsLate, TranscribeOnly, TranscribeAndSummarize and StatusReflectsSummary state what it gives, and TranscribeFile is proved to reach it |
| Pipeline.Exists | gui_transcribe.py:145 | `Path.exists()`: the path is a file or a directory |
| Pipeline.ChecksFirst | gui_transcribe.py:139-146 | no upload, then a missing or empty key, then a missing file, each fail in that order with their messages, before any call and with the files unchanged |
| Pipeline.NothingWrittenBeforeTranscript | gui_transcribe.py:139-160 | a run that makes no call writes nothing and fails; any run that changes the files passed the checks, and the transcription answered first |
| Pipeline.TranscriptionFails | gui_transcribe.py:150-155 | a failed transcription is reported as raised, after exactly one call, with nothing written |
| Pipeline.WithArtifacts | gui_transcribe.py:92-114 | the files after `write_transcription_outputs`: `out/` added and the three artifacts set. ArtifactsWritten states their contents and that nothing else changes, and WriteTranscriptionOutputs is proved to reach it |
| Pipeline.ArtifactsWritten | gui_transcribe.py:92-114 | `out/` is the one directory added; the three artifacts hold the stripped transcript with a newline, the raw record, and the caption document; every other file is as before |
| Pipeline.BlankPromptFailsLate | gui_transcribe.py:157-166 | with summarizing on and a blank prompt, the run fails after the three artifacts exist, with no completion call and no summary file |
| Pipeline.TranscribeOnly | gui_transcribe.py:162-182 | without summarizing, the run succeeds with the artifacts, an empty summary, no summary path, one call and the status "✅ Transcription complete." |
| Pipeline.TranscribeAndSummarize | gui_transcribe.py:164-182 | with summarizing and a non-blank prompt, the second call carries the built prompt. An error from it fails the run with the artifacts kept. Otherwise the stripped answer is returned and written to `<base>-summary.txt` with one trailing newline, under status "✅ Transcription and summary complete." |
| Pipeline.StatusReflectsSummary | gui_transcribe.py:171-173 | on success, the status and the summary path show exactly whether a summary was asked for |
| Pipeline.WriteTranscriptionOutputs | gui_transcribe.py:92-116 | the disk afterwards is the starting disk with `out/` and the three artifacts; returns the stripped text and the three paths |
| Pipeline.Disk.MakeDirs | gui_transcribe.py:93 | `OUT_DIR.mkdir(parents=True, exist_ok=True)`: the directory is added, and nothing else changes |
| Pipeline.Disk.WriteText | gui_transcribe.py:96-100 | `Path.write_text`: the one path now holds the text, replacing what was there, and nothing else changes |
| Pipeline.TranscribeFile | gui_transcribe.py:134-182 | the result, the disk afterwards and the calls made are exactly those `Run` specifies |

## Left out

- The Gradio interface: `build_interface`, `main`, and the `transcribe_from_ui` adapter that turns the result into widget values. This is widget wiring with no logic of its own.
- The remote services. The transcription reply is an input value, and the completion service is an input function from prompt to reply. Model names, client construction and `model_dump` are not modelled, and the record is taken as already converted to a mapping.
- JSON. The record's serialisation is carried in the record as an opaque string. The prompt store is modelled directly as its name-to-text map, so key order (which chooses the first prompt in the interface) is not kept.
- Floating point. Times enter as whole milliseconds. `int(round(seconds * 1000))` and `float(...)` on segment fields are not modelled, and neither is a non-numeric field that would make `float` raise.
- Negative times. Python's `divmod` would floor them; the model's millisecond counts are natural numbers, so they cannot occur.
- Captions.CaptionText: a segment text that is present but `None` would render as `"None"` in the source. The model's `Option` reads a missing text as `""` only.
- Captions.TranscriptText: a record text that is present but `None` would raise in the source. The model reads it as missing.
- The environment and the clock. `OPENAI_API_KEY` and the `%Y%m%d-%H%M%S` stamp from `datetime.now()` are inputs.
- File-system errors: unreadable or unwritable paths, `out` existing as a file, an uploaded path that is a directory. The disk is a map from paths to contents plus a set of directories, whose writes cannot fail.
- Pipeline.Stem: takes the text after the last `/` as the name. `pathlib`'s normalisation of repeated or trailing slashes is not modelled.
- Concurrent use of `prompts.json`. The program has none of its own.
- `transcribe_cloud.py`: command-line option declarations and console output. It is not part of this model.
