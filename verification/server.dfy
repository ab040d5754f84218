/** The HTTP endpoints of api.py, without the web framework: each request
    is checked in a fixed order, and only a request that passes every check
    reaches the language model, the speech service or the audiobook
    generator. The environment variable `OPENAI_API_KEY` and those services
    are parameters. */
module Server {
  import opened Js
  import opened Text
  import opened Naming
  import opened Preview
  import opened Chapters
  import opened Generator

  /** What an endpoint answers: its value, or an `HTTPException`. */
  datatype Reply<+T> = Success(value: T) | Failure(status: nat, detail: string)

  /** An endpoint's reply together with what it sent to the outside
      service, if it got that far. */
  datatype Handled<+Q, +T> = Handled(sent: Option<Q>, reply: Reply<T>)

  datatype OutlineRequest = OutlineRequest(title: string, prompt: string)
  datatype OutlineFeedbackRequest = OutlineFeedbackRequest(title: string, prompt: string, feedback: string)
  datatype ChapterRequest = ChapterRequest(title: string, outline: string)
  datatype VoicePreviewRequest = VoicePreviewRequest(voice: string, speed: real, instructions: Option<string>, text: string)
  datatype AudiobookRequest = AudiobookRequest(
    title: string, outline: string, chapters: seq<string>, voice: string,
    speed: real, includeOutline: bool, instructions: Option<string>)
  datatype AudiobookResponse = AudiobookResponse(folder: string, audioFiles: seq<string>)

  /** The preview file the server streams back. */
  datatype AudioFile = AudioFile(mediaType: string, filename: string)

  const PromptRequired: string := "Prompt is required"
  const FeedbackRequired: string := "Feedback is required"
  const OutlineRequired: string := "Outline is required"
  const PreviewTextRequired: string := "Preview text is required"
  const ChaptersRequired: string := "Chapters are required"
  const KeyMissing: string := "OPENAI_API_KEY is not configured"

  /** `if not os.getenv("OPENAI_API_KEY")`: unset and empty both count as
      missing. */
  predicate KeyConfigured(key: Option<string>) {
    TruthyText(key)
  }

  /** An exception from a service becomes a 500 carrying its message. */
  function FromAttempt<T>(a: Attempt<T>): (r: Reply<T>)
    ensures a.Succeeded? <==> r.Success?
    ensures a.Succeeded? ==> r.value == a.value
    ensures a.Raised? ==> r == Failure(500, a.message)
  {
    match a
    case Succeeded(v) => Success(v)
    case Raised(m) => Failure(500, m)
  }

  /** `POST /api/outline`. */
  function GenerateOutline(req: OutlineRequest, createOutline: string -> Attempt<string>): (h: Handled<string, string>)
    ensures IsBlank(req.prompt) <==> h.sent.None?
    ensures IsBlank(req.prompt) ==> h.reply == Failure(400, PromptRequired)
    ensures h.sent.Some? ==> h.sent.value == req.prompt && h.reply == FromAttempt(createOutline(req.prompt))
  {
    StripEmptyIffBlank(req.prompt);
    if Strip(req.prompt) == "" then Handled(None, Failure(400, PromptRequired))
    else Handled(Some(req.prompt), FromAttempt(createOutline(req.prompt)))
  }

  /** The prompt a feedback round sends to the model. */
  function FeedbackPrompt(prompt: string, feedback: string): (r: string)
    ensures |r| == |prompt| + 17 + |feedback|
    ensures r[..|prompt|] == prompt && r[|r| - |feedback|..] == feedback
  {
    prompt + "\n\nUser feedback: " + feedback
  }

  /** The original prompt and the feedback can be read back from the
      combined prompt when the prompt is known. */
  lemma FeedbackPromptInjective(prompt: string, f1: string, f2: string)
    requires FeedbackPrompt(prompt, f1) == FeedbackPrompt(prompt, f2)
    ensures f1 == f2
  {
    var r := FeedbackPrompt(prompt, f1);
    assert f1 == r[|r| - |f1|..];
  }

  /** `POST /api/outline/feedback`: the prompt is checked before the
      feedback. */
  function RegenerateOutline(req: OutlineFeedbackRequest, createOutline: string -> Attempt<string>): (h: Handled<string, string>)
    ensures IsBlank(req.prompt) ==> h == Handled(None, Failure(400, PromptRequired))
    ensures !IsBlank(req.prompt) && IsBlank(req.feedback) ==> h == Handled(None, Failure(400, FeedbackRequired))
    ensures h.sent.Some? <==> !IsBlank(req.prompt) && !IsBlank(req.feedback)
    ensures h.sent.Some? ==>
      h.sent.value == FeedbackPrompt(req.prompt, req.feedback) && h.reply == FromAttempt(createOutline(h.sent.value))
  {
    StripEmptyIffBlank(req.prompt);
    StripEmptyIffBlank(req.feedback);
    if Strip(req.prompt) == "" then Handled(None, Failure(400, PromptRequired))
    else if Strip(req.feedback) == "" then Handled(None, Failure(400, FeedbackRequired))
    else
      var updated := FeedbackPrompt(req.prompt, req.feedback);
      Handled(Some(updated), FromAttempt(createOutline(updated)))
  }

  /** `POST /api/chapters`: a blank outline is rejected; otherwise the
      outline is parsed into a plan (the default plan when it yields none)
      and one chapter is written per planned chapter, in order. The
      handled value records the plan that was used. */
  method GenerateChapters(req: ChapterRequest,
                          parse: string -> Attempt<seq<ChapterInfo>>,
                          create: (string, ChapterInfo) -> Attempt<string>)
    returns (h: Handled<seq<ChapterInfo>, seq<string>>)
    ensures IsBlank(req.outline) ==> h == Handled(None, Failure(400, OutlineRequired))
    ensures !IsBlank(req.outline) && parse(req.outline).Raised? ==>
      h == Handled(None, Failure(500, parse(req.outline).message))
    ensures h.sent.Some? <==> !IsBlank(req.outline) && parse(req.outline).Succeeded?
    ensures h.sent.Some? ==> h.sent.value == InfosOrDefault(parse(req.outline).value)
    ensures h.sent.Some? ==> h.reply == FromAttempt(CreateAll(create, req.outline, h.sent.value))
  {
    StripEmptyIffBlank(req.outline);
    if Strip(req.outline) == "" {
      return Handled(None, Failure(400, OutlineRequired));
    }
    match parse(req.outline)
    case Raised(m) =>
      return Handled(None, Failure(500, m));
    case Succeeded(parsed) =>
      var infos := InfosOrDefault(parsed);
      var chapters := CreateEach(create, req.outline, infos);
      return Handled(Some(infos), FromAttempt(chapters));
  }

  /** The speech request of a preview: `instructions` only when given and
      not blank, sent as given. */
  function PreviewRequest(req: VoicePreviewRequest): (q: SpeechRequest)
    ensures q.model == SpeechModel && q.voice == req.voice && q.speed == req.speed
    ensures q.input == ApiPreviewText(req.text)
    ensures q.instructions.Some? <==> req.instructions.Some? && !IsBlank(req.instructions.value)
    ensures q.instructions.Some? ==> q.instructions == req.instructions
  {
    var withInstructions := req.instructions.Some? && Strip(req.instructions.value) != "";
    assert req.instructions.Some? ==> (Strip(req.instructions.value) == "" <==> IsBlank(req.instructions.value)) by {
      if req.instructions.Some? {
        StripEmptyIffBlank(req.instructions.value);
      }
    }
    SpeechRequest(SpeechModel, req.voice, ApiPreviewText(req.text), req.speed,
                  if withInstructions then req.instructions else None)
  }

  /** `POST /api/voice/preview`: blank text is rejected before the key is
      looked at. */
  function VoicePreview(req: VoicePreviewRequest, key: Option<string>, speak: SpeechRequest -> Attempt<AudioFile>)
    : (h: Handled<SpeechRequest, AudioFile>)
    ensures IsBlank(req.text) ==> h == Handled(None, Failure(400, PreviewTextRequired))
    ensures !IsBlank(req.text) && !KeyConfigured(key) ==> h == Handled(None, Failure(400, KeyMissing))
    ensures h.sent.Some? <==> !IsBlank(req.text) && KeyConfigured(key)
    ensures h.sent.Some? ==> h.sent.value == PreviewRequest(req) && h.sent.value.input != ""
  {
    StripEmptyIffBlank(req.text);
    if Strip(req.text) == "" then Handled(None, Failure(400, PreviewTextRequired))
    else if !KeyConfigured(key) then Handled(None, Failure(400, KeyMissing))
    else
      var q := PreviewRequest(req);
      Handled(Some(q), match speak(q)
                       case Succeeded(_) => Success(AudioFile("audio/mpeg", "preview.mp3"))
                       case Raised(m) => Failure(500, m))
  }

  /** `POST /api/audiobook`: missing chapters are reported before a missing
      key; a valid request runs the generator on the request's fields, and
      the reply is the folder and files it returns, or a 500 carrying the
      message of the exception it raised. `book` is that run, if any. */
  method GenerateAudiobookEndpoint(req: AudiobookRequest, key: Option<string>, env: Environment)
    returns (r: Reply<AudiobookResponse>, book: Option<Audiobook>)
    ensures |req.chapters| == 0 ==> r == Failure(400, ChaptersRequired) && book.None?
    ensures |req.chapters| > 0 && !KeyConfigured(key) ==> r == Failure(400, KeyMissing) && book.None?
    ensures book.Some? <==> |req.chapters| > 0 && KeyConfigured(key)
    ensures book.Some? ==>
      AudiobookAs(book.value, env, req.title, req.outline, req.chapters, req.voice, req.speed,
                  req.includeOutline, req.instructions)
    ensures book.Some? ==>
      r == (if book.value.raised.Some? then Failure(500, book.value.raised.value)
            else Success(AudiobookResponse(book.value.folder, book.value.audioFiles)))
    ensures book.Some? && r.Failure? ==> r.status == 500
    ensures book.Some? && r.Success? ==> r.value.folder == BookFolderName(req.title) && |r.value.audioFiles| <= 2
    ensures book.Some? && r.Success? ==> AudioPath(r.value.folder, OutlineAudioName) in r.value.audioFiles ==> req.includeOutline
    ensures book.Some? && !req.includeOutline && !env.pydubAvailable
            && |ChapterParts(env, req.chapters[0], 1, BookFolderName(req.title))| > 1 ==>
      r == Failure(500, NoSuchFile(ChapterParts(env, req.chapters[0], 1, BookFolderName(req.title))[0]))
  {
    if |req.chapters| == 0 {
      return Failure(400, ChaptersRequired), None;
    }
    if !KeyConfigured(key) {
      return Failure(400, KeyMissing), None;
    }
    var b := GenerateAudiobook(env, req.title, req.outline, req.chapters, req.voice, req.speed,
                               req.includeOutline, req.instructions);
    if b.raised.Some? {
      return Failure(500, b.raised.value), Some(b);
    }
    return Success(AudiobookResponse(b.folder, b.audioFiles)), Some(b);
  }
}
