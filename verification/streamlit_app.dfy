/** The Streamlit front end of app.py as a state machine over its session
    state: each button press is a transition. Widgets, layout and spinners
    are left out; the language model and the speech service are
    parameters. */
module StreamlitApp {
  import opened Js
  import opened Text
  import opened Naming
  import opened Manuscript
  import opened Preview
  import opened Chapters
  import opened Generator

  /** `st.session_state`. */
  datatype Session = Session(
    outline: Option<string>,
    chapters: Option<seq<string>>,
    bookTitle: string,
    bookSaved: bool,
    savedFilename: string)

  /** The state the page starts in. */
  const InitialSession: Session := Session(None, None, "", false, "")

  /** The placeholder key value the app treats like a missing key. */
  const PlaceholderKey: string := "your_api_key_here"

  const TitleRequired: string := "Please enter a book title"

  /** `not key or key == "your_api_key_here"` negated. */
  predicate AppKeyConfigured(key: Option<string>) {
    TruthyText(key) && key.value != PlaceholderKey
  }

  /** `if st.session_state.chapters:` */
  predicate HasChapters(s: Session) {
    NonEmptyList(s.chapters)
  }

  /** The "Generate Outline" button: nothing happens without a prompt, a
      missing title is an error, and otherwise the outline is replaced and
      the chapters are reset. */
  function SubmitOutline(s: Session, bookTitle: string, prompt: string, createOutline: string -> string)
    : (r: (Session, Option<string>))
    ensures prompt == "" ==> r == (s, None)
    ensures prompt != "" && bookTitle == "" ==> r == (s, Some(TitleRequired))
    ensures prompt != "" && bookTitle != "" ==>
      r.1 == None && r.0 == s.(bookTitle := bookTitle, outline := Some(createOutline(prompt)), chapters := None)
  {
    if prompt == "" then (s, None)
    else if bookTitle == "" then (s, Some(TitleRequired))
    else (s.(bookTitle := bookTitle, outline := Some(createOutline(prompt)), chapters := None), None)
  }

  /** `if st.session_state.outline:` */
  predicate HasOutline(s: Session) {
    TruthyText(s.outline)
  }

  /** The "Regenerate Outline" button, shown once an outline exists: with
      feedback, the outline is rewritten from the prompt and the feedback;
      the chapters are kept. */
  function RegenerateOutline(s: Session, prompt: string, feedback: string, createOutline: string -> string): (r: Session)
    ensures !HasOutline(s) || feedback == "" ==> r == s
    ensures HasOutline(s) && feedback != "" ==>
      r == s.(outline := Some(createOutline(prompt + "\n\nUser feedback: " + feedback)))
    ensures r.chapters == s.chapters && r.bookTitle == s.bookTitle && r.bookSaved == s.bookSaved
  {
    if HasOutline(s) && feedback != "" then
      s.(outline := Some(createOutline(prompt + "\n\nUser feedback: " + feedback)))
    else s
  }

  /** The "Generate Full Book" button, shown once an outline exists and
      before chapters do: a chapter per planned chapter (the default plan
      when the outline yields none), then the book is saved. The second
      component is the file written: its name and content. */
  function GenerateFullBook(s: Session, parse: string -> seq<ChapterInfo>, create: (string, ChapterInfo) -> string)
    : (r: (Session, Option<TextFile>))
    ensures !HasOutline(s) || HasChapters(s) ==> r == (s, None)
    ensures HasOutline(s) && !HasChapters(s) ==>
      && r.0.chapters.Some?
      && |r.0.chapters.value| == |InfosOrDefault(parse(s.outline.value))|
      && (forall k :: 0 <= k < |r.0.chapters.value| ==>
            r.0.chapters.value[k] == create(s.outline.value, InfosOrDefault(parse(s.outline.value))[k]))
      && r.0.bookSaved && r.0.savedFilename == BookFileName(s.bookTitle)
      && r.0.outline == s.outline && r.0.bookTitle == s.bookTitle
      && r.1 == Some(TextFile(BookFileName(s.bookTitle), AppBookContent(s.bookTitle, s.outline.value, r.0.chapters)))
  {
    if !HasOutline(s) || HasChapters(s) then (s, None)
    else
      var outline := s.outline.value;
      var infos := InfosOrDefault(parse(outline));
      var chapters := seq(|infos|, k requires 0 <= k < |infos| => create(outline, infos[k]));
      var name := BookFileName(s.bookTitle);
      (s.(chapters := Some(chapters), bookSaved := true, savedFilename := name),
       Some(TextFile(name, AppBookContent(s.bookTitle, outline, Some(chapters)))))
  }

  /** The download button: the book once chapters exist, else the outline
      alone. */
  function Download(s: Session): (f: TextFile)
    requires HasOutline(s)
    ensures HasChapters(s) ==> f == TextFile(BookFileName(s.bookTitle), AppBookContent(s.bookTitle, s.outline.value, s.chapters))
    ensures !HasChapters(s) ==> f == TextFile(OutlineFileName(s.bookTitle), BookHeader(s.bookTitle, s.outline.value))
  {
    if HasChapters(s) then
      TextFile(BookFileName(s.bookTitle), AppBookContent(s.bookTitle, s.outline.value, s.chapters))
    else
      TextFile(OutlineFileName(s.bookTitle), AppBookContent(s.bookTitle, s.outline.value, None))
  }

  /** `total_items`: the chapters, plus one for the outline. */
  function TotalItems(chapters: seq<string>, includeOutline: bool): (n: nat)
    ensures n >= |chapters|
    ensures n == |chapters| <==> !includeOutline
  {
    |chapters| + (if includeOutline then 1 else 0)
  }

  /** The audio section is shown only with chapters in a saved book. */
  predicate AudioSectionShown(s: Session) {
    HasChapters(s) && s.bookSaved
  }

  /** The "Create Audiobook" button: the placeholder key counts as missing;
      the instructions box always sends its text. */
  method CreateAudiobook(s: Session, key: Option<string>, env: Environment, voice: string, speed: real,
                         includeOutline: bool, voiceInstructions: string)
    returns (book: Option<Audiobook>)
    requires AudioSectionShown(s)
    ensures book.Some? <==> AppKeyConfigured(key)
    ensures book.Some? ==>
      AudiobookAs(book.value, env, s.bookTitle, s.outline.GetOr(""), s.chapters.value, voice, speed,
                  includeOutline, Some(voiceInstructions))
    ensures book.Some? ==> book.value.folder == BookFolderName(s.bookTitle)
    ensures book.Some? ==> |book.value.audioFiles| <= TotalItems(s.chapters.value, includeOutline)
  {
    if !AppKeyConfigured(key) {
      return None;
    }
    var b := GenerateAudiobook(env, s.bookTitle, s.outline.GetOr(""), s.chapters.value, voice, speed,
                               includeOutline, Some(voiceInstructions));
    return Some(b);
  }

  /** The "Preview Voice" button: the first paragraph of the first chapter,
      and instructions only when they are not blank. */
  function AppPreviewRequest(s: Session, voice: string, speed: real, voiceInstructions: string): (q: SpeechRequest)
    requires AudioSectionShown(s)
    ensures q.input == AppPreviewText(s.chapters.value[0]) && q.input != ""
    ensures q.instructions.Some? <==> !IsBlank(voiceInstructions)
    ensures q.instructions.Some? ==> q.instructions.value == voiceInstructions
  {
    StripEmptyIffBlank(voiceInstructions);
    SpeechRequest(SpeechModel, voice, AppPreviewText(s.chapters.value[0]), speed,
                  if voiceInstructions != "" && Strip(voiceInstructions) != "" then Some(voiceInstructions) else None)
  }

  // ---------------------------------------------------------------------
  // Properties
  // ---------------------------------------------------------------------

  /** A new outline always discards earlier chapters, so the audio section
      disappears until the book is generated again. */
  lemma NewOutlineHidesAudio(s: Session, bookTitle: string, prompt: string, createOutline: string -> string)
    requires prompt != "" && bookTitle != ""
    ensures !AudioSectionShown(SubmitOutline(s, bookTitle, prompt, createOutline).0)
  {
  }

  /** The file saved by "Generate Full Book" is exactly what the download
      button offers afterwards. */
  lemma SavedMatchesDownload(s: Session, parse: string -> seq<ChapterInfo>, create: (string, ChapterInfo) -> string)
    requires HasOutline(s) && !HasChapters(s)
    ensures var (t, f) := GenerateFullBook(s, parse, create);
            HasChapters(t) && f == Some(Download(t))
  {
    var (t, f) := GenerateFullBook(s, parse, create);
    assert |t.chapters.value| > 0;
  }

  /** From the initial state, an outline followed by the full book shows the
      audio section, with at least three chapters when the outline yields
      no plan. */
  lemma OutlineThenBook(bookTitle: string, prompt: string, createOutline: string -> string,
                        parse: string -> seq<ChapterInfo>, create: (string, ChapterInfo) -> string)
    requires prompt != "" && bookTitle != "" && createOutline(prompt) != ""
    ensures var s1 := SubmitOutline(InitialSession, bookTitle, prompt, createOutline).0;
            var s2 := GenerateFullBook(s1, parse, create).0;
            AudioSectionShown(s2)
            && (|parse(createOutline(prompt))| == 0 ==> |s2.chapters.value| == 3)
  {
    var s1 := SubmitOutline(InitialSession, bookTitle, prompt, createOutline).0;
    assert HasOutline(s1) && !HasChapters(s1);
  }
}
