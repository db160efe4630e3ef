/** `transcribe_file` and `write_transcription_outputs` (gui_transcribe.py):
    the checks, the two remote calls, and the files they leave in `out/`. */
module Pipeline {
  import opened Outcomes
  import opened Text
  import opened Captions
  import Summary

  type Path = string

  /** `OUT_DIR`. */
  const OutDir: Path := "out"

  const NoFileMessage := "Please upload an audio file to transcribe."
  const NoKeyMessage := "OPENAI_API_KEY environment variable is not set."
  const UnavailableMessage := "Uploaded file is unavailable. Please try again."
  const EmptyPromptMessage := "Selected prompt is empty. Please provide prompt text or disable summarization."
  const TranscribedStatus := "✅ Transcription complete."
  const SummarizedStatus := "✅ Transcription and summary complete."

  // Paths.

  /** Index of the last `c` in `s`, or -1 when there is none. */
  function LastIndex(s: string, c: char): (r: int)
    ensures -1 <= r < |s|
    ensures r >= 0 ==> s[r] == c
    ensures forall k :: r < k < |s| ==> s[k] != c
    decreases |s|
  {
    if s == [] then -1
    else if s[|s| - 1] == c then |s| - 1
    else LastIndex(s[..|s| - 1], c)
  }

  /** `Path.name`: the final component. */
  function Name(path: Path): string {
    path[LastIndex(path, '/') + 1..]
  }

  /** `Path.stem`: the final component without its last suffix; a leading
      dot or a trailing dot does not start a suffix. */
  function Stem(path: Path): (r: string)
    ensures |r| <= |Name(path)| && r == Name(path)[..|r|]
  {
    var name := Name(path);
    var i := LastIndex(name, '.');
    if 0 < i < |name| - 1 then name[..i] else name
  }

  /** The stem is the whole name exactly when the name has no dot, or its
      last dot is the first or the final character (`.bashrc`, `notes.`,
      `...`); otherwise it is the name cut at its last dot. */
  lemma StemWhole(path: Path)
    ensures var name, i := Name(path), LastIndex(Name(path), '.');
      (Stem(path) == name <==> i <= 0 || i == |name| - 1)
      && (0 < i < |name| - 1 ==> Stem(path) == name[..i] && name[i] == '.' && '.' !in name[i + 1..])
  {
  }

  /** A path `dir/stem.ext`, where the extension is non-empty free of dots and
      slashes and the stem is non-empty without slashes, has stem `stem`. */
  lemma StemOfFileName(dir: string, stem: string, ext: string)
    requires stem != [] && '/' !in stem
    requires ext != [] && '/' !in ext && '.' !in ext
    ensures Stem(dir + "/" + stem + "." + ext) == stem
  {
    var p := dir + "/" + stem + "." + ext;
    var name := stem + "." + ext;
    var j := LastIndex(p, '/');
    assert p[|dir|] == '/';
    forall k | |dir| < k < |p| ensures p[k] != '/' {
      assert p[k] == name[k - |dir| - 1];
      if k - |dir| - 1 < |stem| {
        assert name[k - |dir| - 1] in stem;
      } else if k - |dir| - 1 > |stem| {
        assert name[k - |dir| - 1] == ext[k - |dir| - 2 - |stem|];
        assert ext[k - |dir| - 2 - |stem|] in ext;
      }
    }
    assert j == |dir|;
    assert p[j + 1..] == name;
    var i := LastIndex(name, '.');
    assert name[|stem|] == '.';
    forall k | |stem| < k < |name| ensures name[k] != '.' {
      assert name[k] == ext[k - |stem| - 1];
      assert ext[k - |stem| - 1] in ext;
    }
    assert i == |stem|;
    assert name[..i] == stem;
  }

  /** `timestamped_basename`: the stem, a dash, and the run's timestamp
      (`datetime.now()` rendered as `%Y%m%d-%H%M%S`, an input here). */
  function BaseName(path: Path, stamp: string): string {
    Stem(path) + "-" + stamp
  }

  /** `OUT_DIR / f"{base}{suffix}"`. */
  function ArtifactPath(base: string, suffix: string): Path {
    OutDir + "/" + base + suffix
  }

  const TxtSuffix := ".txt"
  const JsonSuffix := ".json"
  const SrtSuffix := ".srt"
  const SummarySuffix := "-summary.txt"

  /** The four artifacts of a run never overwrite one another. */
  lemma ArtifactPathsDistinct(base: string)
    ensures var txt, json, srt, sum := ArtifactPath(base, TxtSuffix), ArtifactPath(base, JsonSuffix),
                                       ArtifactPath(base, SrtSuffix), ArtifactPath(base, SummarySuffix);
      txt != json && txt != srt && txt != sum && json != srt && json != sum && srt != sum
  {
    var n := |OutDir + "/" + base|;
    var txt, json, srt, sum := ArtifactPath(base, TxtSuffix), ArtifactPath(base, JsonSuffix),
                               ArtifactPath(base, SrtSuffix), ArtifactPath(base, SummarySuffix);
    assert txt[n + 1] == 't' && srt[n + 1] == 's';
    assert |txt| == n + 4 && |srt| == n + 4 && |json| == n + 5 && |sum| == n + 12;
  }

  // The file system.

  /** What a path holds: the uploaded audio or another file the model does
      not read, or a text file written by the pipeline. */
  datatype Content = Binary | TextFile(body: string)

  datatype Fs = Fs(files: map<Path, Content>, dirs: set<Path>)

  /** `Path.exists()`: a file or a directory. */
  predicate Exists(fs: Fs, path: Path) {
    path in fs.files || path in fs.dirs
  }

  // The run.

  /** The remote calls a run makes, in order. */
  datatype Call = TranscribeAudio(path: Path) | Complete(prompt: string)

  /** `TranscriptionOutputs`. */
  datatype Outputs = Outputs(
    transcriptText: string,
    summaryText: string,
    txtPath: Option<Path>,
    srtPath: Option<Path>,
    jsonPath: Option<Path>,
    summaryPath: Option<Path>,
    status: string)

  /** What the caller passes: the uploaded path (`None` when nothing was
      uploaded), whether to summarize, and the prompt text. */
  datatype Request = Request(filePath: Option<Path>, summarize: bool, template: string)

  /** What the run depends on besides the files: the `OPENAI_API_KEY`
      variable, the clock's stamp, the transcription service's reply and the
      completion service. */
  datatype Environment = Environment(
    apiKey: Option<string>,
    stamp: string,
    transcription: Reply<Transcription>,
    complete: string -> Reply<string>)

  datatype Outcome = Outcome(result: Result<Outputs>, fs: Fs, calls: seq<Call>)

  /** The files `write_transcription_outputs` leaves: `out/` made, then the
      transcript text, the raw record and the caption file. */
  function WithArtifacts(fs: Fs, t: Transcription, base: string): Fs {
    Fs(fs.files[ArtifactPath(base, TxtSuffix) := TextFile(TranscriptBody(t))]
               [ArtifactPath(base, JsonSuffix) := TextFile(t.serialized)]
               [ArtifactPath(base, SrtSuffix) := TextFile(SrtDocument(SegmentsOf(t)))],
       fs.dirs + {OutDir})
  }

  /** `transcribe_file` as a function of the starting files and its inputs:
      the result, the files afterwards, and the remote calls made. */
  function Run(fs: Fs, req: Request, env: Environment): Outcome {
    if req.filePath.None? then Outcome(Failure(NoFileMessage), fs, [])
    else if env.apiKey.None? || env.apiKey.value == "" then Outcome(Failure(NoKeyMessage), fs, [])
    else if !Exists(fs, req.filePath.value) then Outcome(Failure(UnavailableMessage), fs, [])
    else
      var path := req.filePath.value;
      var base := BaseName(path, env.stamp);
      var transcribed := [TranscribeAudio(path)];
      match env.transcription
      case Raised(m) => Outcome(Failure(m), fs, transcribed)
      case Answered(t) =>
        var written := WithArtifacts(fs, t, base);
        var text := TranscriptText(t);
        var txt, srt, json := ArtifactPath(base, TxtSuffix), ArtifactPath(base, SrtSuffix), ArtifactPath(base, JsonSuffix);
        if !req.summarize then
          Outcome(Success(Outputs(text, "", Some(txt), Some(srt), Some(json), None, TranscribedStatus)), written, transcribed)
        else if Strip(req.template) == "" then
          Outcome(Failure(EmptyPromptMessage), written, transcribed)
        else
          var prompt := Summary.BuildPrompt(Some(req.template), text);
          var calls := transcribed + [Complete(prompt)];
          match Summary.Summarize(Some(req.template), text, env.complete)
          case Raised(m) => Outcome(Failure(m), written, calls)
          case Answered(summary) =>
            var sum := ArtifactPath(base, SummarySuffix);
            Outcome(Success(Outputs(text, summary, Some(txt), Some(srt), Some(json), Some(sum), SummarizedStatus)),
                    Fs(written.files[sum := TextFile(summary + "\n")], written.dirs), calls)
  }

  /** The three checks run in order (no upload, then no key, then a missing
      file) and each fails before any remote call and before anything is
      written. */
  lemma ChecksFirst(fs: Fs, req: Request, env: Environment)
    ensures req.filePath.None? ==> Run(fs, req, env) == Outcome(Failure(NoFileMessage), fs, [])
    ensures req.filePath.Some? && (env.apiKey.None? || env.apiKey == Some("")) ==>
      Run(fs, req, env) == Outcome(Failure(NoKeyMessage), fs, [])
    ensures req.filePath.Some? && env.apiKey.Some? && env.apiKey.value != "" && !Exists(fs, req.filePath.value) ==>
      Run(fs, req, env) == Outcome(Failure(UnavailableMessage), fs, [])
  {
  }

  /** The three checks pass: a path was given, the key is set and non-empty,
      and the path exists. */
  predicate Admitted(fs: Fs, req: Request, env: Environment) {
    req.filePath.Some? && env.apiKey.Some? && env.apiKey.value != "" && Exists(fs, req.filePath.value)
  }

  /** A run that fails without making a call has written nothing; any run
      that writes has first had the transcription answered. */
  lemma NothingWrittenBeforeTranscript(fs: Fs, req: Request, env: Environment)
    ensures Run(fs, req, env).calls == [] ==> Run(fs, req, env).fs == fs && Run(fs, req, env).result.Failure?
    ensures Run(fs, req, env).fs != fs ==>
      Admitted(fs, req, env) && env.transcription.Answered?
      && Run(fs, req, env).calls[0] == TranscribeAudio(req.filePath.value)
  {
    var o := Run(fs, req, env);
    if !Admitted(fs, req, env) {
      ChecksFirst(fs, req, env);
      assert o.fs == fs && o.calls == [];
    } else {
      assert o.calls != [] && o.calls[0] == TranscribeAudio(req.filePath.value);
      if env.transcription.Raised? {
        TranscriptionFails(fs, req, env);
      }
    }
  }

  /** A failed transcription is reported as it came and leaves the files as
      they were. */
  lemma TranscriptionFails(fs: Fs, req: Request, env: Environment)
    requires Admitted(fs, req, env) && env.transcription.Raised?
    ensures Run(fs, req, env) ==
      Outcome(Failure(env.transcription.message), fs, [TranscribeAudio(req.filePath.value)])
  {
  }

  /** The paths `write_transcription_outputs` writes. */
  function Artifacts(base: string): set<Path> {
    {ArtifactPath(base, TxtSuffix), ArtifactPath(base, JsonSuffix), ArtifactPath(base, SrtSuffix)}
  }

  /** Once transcribed, the three artifacts hold the stripped transcript plus
      one newline, the raw record, and the caption document; `out/` is the
      one directory added, and every other file is as before. */
  lemma ArtifactsWritten(fs: Fs, t: Transcription, base: string)
    ensures var w := WithArtifacts(fs, t, base);
      w.files[ArtifactPath(base, TxtSuffix)] == TextFile(TranscriptText(t) + "\n")
      && w.files[ArtifactPath(base, JsonSuffix)] == TextFile(t.serialized)
      && w.files[ArtifactPath(base, SrtSuffix)] == TextFile(SrtDocument(SegmentsOf(t)))
      && w.dirs == fs.dirs + {OutDir}
      && (forall p :: p in fs.files && p !in Artifacts(base) ==> p in w.files && w.files[p] == fs.files[p])
      && w.files.Keys == fs.files.Keys + Artifacts(base)
  {
    ArtifactPathsDistinct(base);
  }

  /** A blank prompt with summarizing on fails only after the transcript,
      record and caption files exist, and asks for no summary. */
  lemma BlankPromptFailsLate(fs: Fs, req: Request, env: Environment)
    requires Admitted(fs, req, env) && env.transcription.Answered?
    requires req.summarize && Blank(req.template)
    ensures Run(fs, req, env) == Outcome(Failure(EmptyPromptMessage),
      WithArtifacts(fs, env.transcription.value, BaseName(req.filePath.value, env.stamp)),
      [TranscribeAudio(req.filePath.value)])
  {
    StripEmptyIffBlank(req.template);
  }

  /** Without summarizing, a transcribed run succeeds with the artifacts,
      no summary, no completion call, and the plain status. */
  lemma TranscribeOnly(fs: Fs, req: Request, env: Environment)
    requires Admitted(fs, req, env) && env.transcription.Answered? && !req.summarize
    ensures var t, base := env.transcription.value, BaseName(req.filePath.value, env.stamp);
      Run(fs, req, env) == Outcome(
        Success(Outputs(TranscriptText(t), "", Some(ArtifactPath(base, TxtSuffix)), Some(ArtifactPath(base, SrtSuffix)),
                        Some(ArtifactPath(base, JsonSuffix)), None, TranscribedStatus)),
        WithArtifacts(fs, t, base), [TranscribeAudio(req.filePath.value)])
  {
  }

  /** With summarizing and a non-blank prompt, the completion service gets
      the prompt built from the template and the stripped transcript; its
      stripped answer is returned and written to `<base>-summary.txt` with one
      trailing newline, and the status says both steps completed. */
  lemma TranscribeAndSummarize(fs: Fs, req: Request, env: Environment)
    requires Admitted(fs, req, env) && env.transcription.Answered? && req.summarize && !Blank(req.template)
    ensures var t, base := env.transcription.value, BaseName(req.filePath.value, env.stamp);
      var prompt := Summary.BuildPrompt(Some(req.template), TranscriptText(t));
      var o := Run(fs, req, env);
      o.calls == [TranscribeAudio(req.filePath.value), Complete(prompt)]
      && (env.complete(prompt).Raised? ==>
            o.result == Failure(env.complete(prompt).message) && o.fs == WithArtifacts(fs, t, base))
      && (env.complete(prompt).Answered? ==>
            var summary := Strip(env.complete(prompt).value);
            var sum := ArtifactPath(base, SummarySuffix);
            o.result == Success(Outputs(TranscriptText(t), summary, Some(ArtifactPath(base, TxtSuffix)),
                                        Some(ArtifactPath(base, SrtSuffix)), Some(ArtifactPath(base, JsonSuffix)),
                                        Some(sum), SummarizedStatus))
            && o.fs.files == WithArtifacts(fs, t, base).files[sum := TextFile(summary + "\n")]
            && o.fs.dirs == fs.dirs + {OutDir})
  {
    StripEmptyIffBlank(req.template);
  }

  /** The status names the summary exactly when one was asked for. */
  lemma StatusReflectsSummary(fs: Fs, req: Request, env: Environment)
    requires Run(fs, req, env).result.Success?
    ensures var out := Run(fs, req, env).result.value;
      (out.status == SummarizedStatus <==> req.summarize)
      && (out.summaryPath.Some? <==> req.summarize)
      && (out.status == TranscribedStatus <==> !req.summarize)
  {
    assert TranscribedStatus != SummarizedStatus by {
      assert |TranscribedStatus| != |SummarizedStatus|;
    }
  }

  /** The files and directories a run changes. */
  class Disk {
    var files: map<Path, Content>
    var dirs: set<Path>

    constructor(start: Fs)
      ensures State() == start
    {
      files := start.files;
      dirs := start.dirs;
    }

    function State(): Fs
      reads this
    {
      Fs(files, dirs)
    }

    /** `mkdir(parents=True, exist_ok=True)`. */
    method MakeDirs(path: Path)
      modifies this
      ensures files == old(files) && dirs == old(dirs) + {path}
    {
      dirs := dirs + {path};
    }

    /** `write_text`: create or replace the file. */
    method WriteText(path: Path, body: string)
      modifies this
      ensures files == old(files)[path := TextFile(body)] && dirs == old(dirs)
    {
      files := files[path := TextFile(body)];
    }
  }

  /** `write_transcription_outputs`: make `out/`, write the transcript text,
      the record and the caption file, and return the text and the paths. */
  method WriteTranscriptionOutputs(disk: Disk, t: Transcription, base: string)
    returns (text: string, txtPath: Path, srtPath: Path, jsonPath: Path)
    modifies disk
    ensures disk.State() == WithArtifacts(old(disk.State()), t, base)
    ensures text == TranscriptText(t)
    ensures txtPath == ArtifactPath(base, TxtSuffix) && srtPath == ArtifactPath(base, SrtSuffix)
    ensures jsonPath == ArtifactPath(base, JsonSuffix)
  {
    disk.MakeDirs(OutDir);
    text := TranscriptText(t);
    txtPath := ArtifactPath(base, TxtSuffix);
    disk.WriteText(txtPath, text + "\n");
    jsonPath := ArtifactPath(base, JsonSuffix);
    disk.WriteText(jsonPath, t.serialized);
    var body := SrtBody(SegmentsOf(t));
    srtPath := ArtifactPath(base, SrtSuffix);
    disk.WriteText(srtPath, body);
  }

  /** `transcribe_file`: the checks, the transcription call, the artifacts,
      the prompt check, then the optional summary call and file. */
  method TranscribeFile(disk: Disk, req: Request, env: Environment)
    returns (result: Result<Outputs>, calls: seq<Call>)
    modifies disk
    ensures Outcome(result, disk.State(), calls) == Run(old(disk.State()), req, env)
  {
    calls := [];
    if req.filePath.None? {
      return Failure(NoFileMessage), calls;
    }
    if env.apiKey.None? || env.apiKey.value == "" {
      return Failure(NoKeyMessage), calls;
    }
    var path := req.filePath.value;
    if !(path in disk.files || path in disk.dirs) {
      return Failure(UnavailableMessage), calls;
    }
    var base := BaseName(path, env.stamp);
    calls := calls + [TranscribeAudio(path)];
    if env.transcription.Raised? {
      return Failure(env.transcription.message), calls;
    }
    var text, txtPath, srtPath, jsonPath := WriteTranscriptionOutputs(disk, env.transcription.value, base);
    var summaryText := "";
    var summaryPath: Option<Path> := None;
    if req.summarize {
      if Strip(req.template) == "" {
        return Failure(EmptyPromptMessage), calls;
      }
      calls := calls + [Complete(Summary.BuildPrompt(Some(req.template), text))];
      var reply := Summary.Summarize(Some(req.template), text, env.complete);
      if reply.Raised? {
        return Failure(reply.message), calls;
      }
      summaryText := reply.value;
      var p := ArtifactPath(base, SummarySuffix);
      disk.WriteText(p, summaryText + "\n");
      summaryPath := Some(p);
    }
    var status := if !req.summarize then TranscribedStatus else SummarizedStatus;
    result := Success(Outputs(text, summaryText, Some(txtPath), Some(srtPath), Some(jsonPath), summaryPath, status));
  }
}
