# make-a-book, modelled in Dafny

make-a-book turns a title and a prompt into an outline, then chapters, then an
audiobook. It has two front ends: a Streamlit app (`app.py`) and a React wizard
(`frontend/`) that talks to a FastAPI server (`api.py`). Both rely on the same
Python generator package (`src/make_a_book`).

This project models the parts of that system that decide something.

The centre of the model is the audiobook render job of the wizard's audiobook step
(`handleGenerate` in `frontend/src/steps/AudiobookStep.tsx`). It works in four stages:

1. It checks that the book has chapters and an outline.
2. It resets the display.
3. It starts a job.
4. It polls the job's status until one of three things happens:
   - the job completes with a result;
   - the job reports an error;
   - a call throws.

Each status snapshot sets the progress, the chapter counts and the times on
screen. The progress is either derived from the elapsed and estimated time
(rounded like `Math.round`, capped at 99) or taken from the server.

The loop is modelled twice:

- as a fold `RenderJob.Drive` over the sequence of fetch outcomes;
- as the `while` loop of the source, `RenderJob.PollJob`, proved equal to the fold.

Around the render job the model covers:

- **Wizard:** the book record and its shallow merge, the clamped step navigation with its completion flags, and the progress rail's state, label and marker (`Book`, `Wizard`, `ProgressBar`).
- **Wizard steps:** the voice step and the chapter step (`VoiceStep`, `ChapterStep`).
- **HTTP client:** how a response becomes a value or a thrown `Error`, and the wire shape of the audiobook request (`Client`).
- **Server endpoints:** the validation order and messages of each endpoint, the feedback prompt, the chapter fallback and the preview request (`Server`, `Chapters`).
- **Generator:** sentence packing into chunks, folder and file names, the Markdown the generator writes, and the assembly of chapter audio over a speech service that may fail per chunk (`Chunking`, `Naming`, `Manuscript`, `Generator`).
- **Preview text:** the extraction used by the server and by the Streamlit app (`Preview`).
- **Estimator:** the word count, the seconds estimate and the two duration formats (`Estimator`, `Duration`).
- **Streamlit app:** its session transitions (`StreamlitApp`).

Shared shapes live in `Js` and `Text`:

- `Js` holds optional values, JavaScript's `undefined`/`null`/value distinction, thrown values, and the outcome of a Python call that may raise.
- `Text` holds Python whitespace and `strip`, `split`/`join`, numerals, the title slug and clipping with an ellipsis.

The outside world enters only as parameters:

- the language model and the speech service;
- `fetch`, the job-start call and the status fetch;
- the environment variable `OPENAI_API_KEY`;
- the regular expressions that clean text and split sentences.

Five facts about the code that a reader might not expect:

- Time-based progress is capped at 99 and has no lower bound (`RenderJob.NoLowerClamp`).
- A submission rejected by validation only sets the error; the rest of the display stays as it was.
- `api.py` and `app.py` call `parse_outline_chapters` and `create_chapter` on the chapter creator (`api.py`, `app.py:172` and `app.py:188`). `chapter_generator.py` defines neither, so both are parameters here.
- `api.py:81` calls `OutlineCreator(anthropic_lm)`, but `OutlineCreator.__init__` (`src/make_a_book/outline_generator.py:14`) takes no argument. Importing `api.py` as written therefore raises a `TypeError`, so the FastAPI server cannot start. The `Server` module models the endpoints as if construction had succeeded.
- The shipped `App.tsx` never mounts the chapter, voice and audiobook steps. Steps 3-5 render "(Coming Soon)" placeholders (`frontend/src/App.tsx:64-84`). The model treats `ChapterGenerationStep`, `VoiceSetupStep` and `AudiobookStep` as if they were mounted at steps 3, 4 and 5.

## Model

| member | source | states |
|---|---|---|
| RenderJob.HandleGenerate | frontend/src/steps/AudiobookStep.tsx:33-98 | Without non-empty chapters and a truthy outline, only the error changes (to the inputs-required message) and nothing is sent. Otherwise the job is started with the book's request. A failed start ends with its message or the fallback, and the display stays reset. A started job's display is the poll loop run from the reset view carrying the job's chapter count. |
| RenderJob.StartRequest | frontend/src/steps/AudiobookStep.tsx:52-60 | The job is started with the book's title, outline and chapters and the effective voice settings. Their instructions are always included, and the outline narration is always off. |
| RenderJob.ResetBeforeFirstPoll | frontend/src/steps/AudiobookStep.tsx:41-62 | Before any status arrives, the display is generating and has no error, no result, 0 progress, no completed chapters and no times. The total is the job's. |
| RenderJob.JsRound | frontend/src/steps/AudiobookStep.tsx:68 | `Math.round(n / d)` for integers. The result r satisfies r - 1/2 <= n/d < r + 1/2, so halves round up, and this holds for every sign of n and d. |
| RenderJob.RoundsToUnique | frontend/src/steps/AudiobookStep.tsx:68 | At most one integer satisfies the rounding condition, so the contract of `JsRound` determines its value. |
| RenderJob.DerivedProgress | frontend/src/steps/AudiobookStep.tsx:67-69 | The time-based figure is used only with an elapsed time and a non-zero estimate. That figure is at most 99 and, below 99, is the rounded percentage. It is 99 only when the percentage is at least 98.5. Otherwise the server's progress is used verbatim. |
| RenderJob.ProgressInRange | frontend/src/steps/AudiobookStep.tsx:67-69 | A non-negative elapsed time over a positive estimate shows 0..99. Once the estimate is used up it shows 99. |
| RenderJob.NoLowerClamp | frontend/src/steps/AudiobookStep.tsx:67-69 | There is no lower bound. With a positive estimate the bar shows a negative figure exactly when 200 × elapsed + estimate < 0, that is when the elapsed share rounds below 0 %. |
| RenderJob.ZeroEstimateUsesServerProgress | frontend/src/steps/AudiobookStep.tsx:67-69 | A zero estimate or a missing elapsed time never divides. The server's progress is shown instead. |
| RenderJob.Observe | frontend/src/steps/AudiobookStep.tsx:70-74 | A snapshot sets the progress, the counts and both times, with absent times becoming null. The generating flag, the error and the result are untouched. |
| RenderJob.ObserveForgets | frontend/src/steps/AudiobookStep.tsx:70-74 | The fields a snapshot sets depend on that snapshot alone, not on the earlier display. |
| RenderJob.Keep | frontend/src/steps/AudiobookStep.tsx:77-81 | The kept result has the server's folder and files, and its download link becomes null when absent. |
| RenderJob.VerdictOf | frontend/src/steps/AudiobookStep.tsx:76-88 | The loop finishes exactly on "completed" with a result. It fails exactly on "error", with the snapshot's message or the fallback. Anything else keeps polling, including "completed" without a result. |
| RenderJob.FirstStop | frontend/src/steps/AudiobookStep.tsx:64-91 | Gives the index of the first fetch outcome that ends the loop, with no earlier one ending it. Without one, none ends it. |
| RenderJob.Consumed | frontend/src/steps/AudiobookStep.tsx:64-91 | The loop never fetches more statuses than are available. |
| RenderJob.PollJob | frontend/src/steps/AudiobookStep.tsx:64-97 | The `while` loop, with its `break` and the error handling around it, ends in the same view as the fold `Drive`. It has made exactly `Consumed` fetches. |
| RenderJob.Drive | frontend/src/steps/AudiobookStep.tsx:64-91 | The fold over the status fetches that `PollJob` is proved equal to. Its meaning is stated by `DriveIgnoresLaterPolls`, `DriveOutcome` and `DriveShowsLastStatus`. |
| RenderJob.DriveIgnoresLaterPolls | frontend/src/steps/AudiobookStep.tsx:82-88 | Once an outcome ends the loop, later outcomes are never fetched and change nothing. The number of fetches is the stopping index plus one. |
| RenderJob.DriveOutcome | frontend/src/steps/AudiobookStep.tsx:64-97 | The outcome is decided by the reference `FirstStop`, starting from a view that is generating with neither result nor error. With no stop, the job is still generating, with neither result nor error. After a stop it is not generating, and it has a result exactly when the stopping snapshot completed with one, and an error exactly otherwise. The error is the thrown message or fallback, or the job's message. |
| RenderJob.DriveShowsLastStatus | frontend/src/steps/AudiobookStep.tsx:66-74 | When the stopping fetch, if any, returned a status, the counts, progress and times on screen are those of the last status fetched. |
| RenderJob.SubmissionExclusive | frontend/src/steps/AudiobookStep.tsx:41-97 | After a valid submission a result and an error never show together. The step is still generating exactly when the job started and no outcome has ended the loop. |
| RenderJob.ServerRendersChaptersOnly | frontend/src/steps/AudiobookStep.tsx:52-60 | The server reads the request with the outline narration off. A book without voice settings is read with the step's default note. |
| RenderJob.WizardNarrationNote | frontend/src/steps/AudiobookStep.tsx:52-60 | For every wizard book, the speech model gets the step's default note when the book has no settings, and the stored text when it is not empty. It gets the generator's default note exactly when the stored text is empty (an emptied box) or is that very note. |
| RenderJob.EmptyErrorShowsNothing | frontend/src/steps/AudiobookStep.tsx:86-94 | A job that reports "error" leaves no result and no progress block. The banner shows exactly when the server's message is not the empty string: a missing message falls back to the default text, and an empty one shows nothing. |
| RenderJob.Footnote | frontend/src/steps/AudiobookStep.tsx:139-143 | With both times known, the footnote is the elapsed clock (never below 0), then " elapsed of ~", then the estimate clock (never below 1). Otherwise it gives the chapter counts. |
| RenderJob.FootnoteReadable | frontend/src/steps/AudiobookStep.tsx:141 | The footnote splits into its three parts. Reading the first clock gives the elapsed seconds shown, and reading the last gives the estimate shown. |
| Duration.FormatClock | frontend/src/steps/AudiobookStep.tsx:26-31 | The text ends in "s". It contains "m" exactly from 60 s up, and starts with "-" for negative input. |
| Duration.FormatClockRoundTrip | frontend/src/steps/AudiobookStep.tsx:26-31 | Reading the `<m>m <s>s` / `<s>s` text of a non-negative duration gives back its seconds. |
| Duration.ClockReadBack | frontend/src/steps/AudiobookStep.tsx:26-31 | Every text the reader accepts is the one printed for its value. The reader refuses leading zeros, "0m" and seconds of 60 or more, so the printed form is canonical. |
| Duration.FormatClockInjective | frontend/src/steps/AudiobookStep.tsx:26-31 | Distinct non-negative durations are displayed differently. |
| Duration.SplitSeconds | src/make_a_book/tts_time_estimator.py:36-37 | The two `divmod`s give h*3600 + m*60 + s == n with m, s < 60. |
| Duration.FormatDuration | src/make_a_book/tts_time_estimator.py:31-42 | The result is "0s" for n <= 0. From one hour up it ends in "m", and below that in "s". |
| Duration.FormatDurationRoundTrip | src/make_a_book/tts_time_estimator.py:31-42 | Reading the text back gives 0 for n <= 0. From one hour up it gives n rounded down to whole minutes, because the seconds are dropped. Otherwise it gives n exactly. |
| Duration.DurationReadBack | src/make_a_book/tts_time_estimator.py:31-42 | Every text the reader accepts (`<s>s` with s < 60, `<m>m <s>s` with 1 <= m < 60, `<h>h <m>m` with h >= 1) is the one printed for its value. |
| Duration.DurationOfHours | src/make_a_book/tts_time_estimator.py:36-40 | From one hour up the text is `<h>h <m>m` for the hours and the remaining minutes, whatever the leftover seconds. |
| Estimator.CountWords | src/make_a_book/tts_time_estimator.py:11-17 | The result is 0 for empty text. Otherwise it is at least both the regex count and the split count, and equal to one of them. |
| Estimator.CountWordsZeroIffBlank | src/make_a_book/tts_time_estimator.py:13-17 | The count is 0 exactly for whitespace-only text. |
| Estimator.CountWordsBound | src/make_a_book/tts_time_estimator.py:15-17 | The count is never more than half the characters, rounded up. |
| Estimator.PyRound | src/make_a_book/tts_time_estimator.py:28 | `round` gives an integer within 1/2 of its argument, and the even one when the argument lies halfway between two integers (`RoundsEven`). |
| Estimator.RoundsEvenUnique | src/make_a_book/tts_time_estimator.py:28 | Nearest-with-ties-to-even names exactly one integer, so `RoundsEven` pins `round` completely. |
| Estimator.PyRoundMonotone | src/make_a_book/tts_time_estimator.py:28 | Rounding preserves order. |
| Estimator.EffectiveSpeed | src/make_a_book/tts_time_estimator.py:25 | The speed is at least 0.25, and unchanged when it already is. |
| Estimator.RawEstimate | src/make_a_book/tts_time_estimator.py:26-27 | The unrounded estimate of a positive word count is positive. |
| Estimator.EstimateTtsSeconds | src/make_a_book/tts_time_estimator.py:20-28 | The result is 0 for word counts <= 0. Otherwise it is at least 1 and never more than 1/2 below the unrounded estimate. It is 1 or within 1/2 above that estimate, and when it exceeds 1 it is the estimate rounded with ties to even. |
| Estimator.EstimateClampsSpeed | src/make_a_book/tts_time_estimator.py:25-28 | Every speed <= 0.25 gives the estimate of speed 0.25. |
| Estimator.EstimateMonotoneInWords | src/make_a_book/tts_time_estimator.py:26-28 | More words never give a smaller estimate. |
| Estimator.EstimateAntitoneInSpeed | src/make_a_book/tts_time_estimator.py:25-28 | A faster speed never gives a larger estimate. |
| Chunking.ChunkText | src/make_a_book/audiobook_generator.py:30-52 | Text within the limit is one chunk equal to it. Longer text yields, in order, the stripped renderings of the greedy grouping of its sentences. |
| Chunking.PackMatchesGroups | src/make_a_book/audiobook_generator.py:41-50 | The source's accumulator loop, including the flush of the final accumulator, equals the chunks of the reference grouping `GroupFrom`. |
| Chunking.PackFrom | src/make_a_book/audiobook_generator.py:41-50 | The accumulator loop with its final flush. Its meaning is stated by `PackMatchesGroups`, which equates it with the greedy grouping. |
| Chunking.GroupsSpec | src/make_a_book/audiobook_generator.py:41-47 | The grouping is greedy: each group fits, and the next sentence would not have fitted. Its groups concatenate back to the sentence list in order. |
| Chunking.ChunksNonEmpty | src/make_a_book/audiobook_generator.py:45-50 | No chunk of split text is empty. |
| Chunking.ChunkLength | src/make_a_book/audiobook_generator.py:42-47 | A chunk is at most one character over the limit, unless it holds a single sentence that is itself too long. |
| Chunking.ChunkMayExceedLimitByOne | src/make_a_book/audiobook_generator.py:42-50 | The one-character excess is reached: a first sentence exactly as long as the limit is admitted, and its chunk, with the period, is one character over. With a limit of 5, "abcde. f" gives "abcde." and "f.". |
| Text.Strip | api.py:92 | `str.strip()`: the result is a slice of the input, and only whitespace lies before and after the slice. The result has no whitespace at either end. |
| Text.StripEmptyIffBlank | api.py:92 | `not s.strip()` holds exactly for whitespace-only strings. |
| Text.JoinSplit | api.py:151-152 | Joining the pieces of a split with the same separator gives back the string. |
| Text.SplitOn | api.py:151 | `str.split(sep)` always gives at least one piece. Its content is stated by `JoinSplit`, `JoinTakeSplit`, `SplitOnAbsent` and `SplitOnFirst`. |
| Text.Slug | src/make_a_book/audiobook_generator.py:56 | `replace(' ', '_').lower()` keeps the length. Character i of the result is character i of the title, with a space turned into '_' and then lower-cased. So no space and no upper-case letter remains. |
| Text.SlugIdempotent | src/make_a_book/audiobook_generator.py:56 | Slugging a slug changes nothing. |
| Text.Pad2 | src/make_a_book/audiobook_generator.py:78 | `{n:02d}` has at least two digits, and is the plain numeral from 10 up. |
| Text.Pad2RoundTrip | src/make_a_book/audiobook_generator.py:78 | Parsing a padded numeral gives the number back. |
| Text.Pad2Injective | src/make_a_book/audiobook_generator.py:78 | Distinct numbers get distinct padded numerals. |
| Text.Clip | frontend/src/steps/VoiceSetupStep.tsx:169 | Lengths are JavaScript's UTF-16 code units (`JsLength`). A string within the limit is shown unchanged. A longer one shows the longest run of whole characters that fits in the limit, then "…" (`ClippedTo`). Without characters beyond the Basic Multilingual Plane, that run is the first n characters. |
| Text.ClippedToUnique | frontend/src/steps/VoiceSetupStep.tsx:169 | `ClippedTo` allows one shown text only, so it pins the clip. |
| Text.PyRepr | src/make_a_book/audiobook_generator.py:111-112 | Python's `repr` of a string is quoted with `"` when the string has a `'` and no `"`, and with `'` otherwise. Reading it back with `Unquote` gives the string exactly. |
| Naming.BookFolderName | src/make_a_book/audiobook_generator.py:56 | The folder name is the slug of the title followed by "_complete". |
| Naming.BookFolderSameIff | src/make_a_book/audiobook_generator.py:56 | Two titles share a folder exactly when their slugs agree. |
| Naming.BookFolderCollision | src/make_a_book/audiobook_generator.py:56 | Every title shares its folder with its own slug, so "My Book" and "my_book" collide. |
| Naming.CompleteTextName | src/make_a_book/audiobook_generator.py:151 | The full-book text file is the folder name followed by ".md". |
| Naming.BookFileName | app.py:45 | The saved book is the slug followed by "_book.md". |
| Naming.OutlineFileName | app.py:240 | The outline download is the slug followed by "_outline.md". |
| Naming.DownloadFileName | app.py:220-240 | The download is the book file with chapters and the outline file without them. |
| Naming.DownloadNamesDiffer | app.py:228-240 | The two download names of one title differ. |
| Naming.PartFileNameInjective | src/make_a_book/audiobook_generator.py:78 | Distinct (chapter, part) pairs get distinct part files. |
| Naming.ChapterFileNameInjective | src/make_a_book/audiobook_generator.py:107-117 | Distinct chapters get distinct chapter files. |
| Naming.PartAndChapterNamesDiffer | src/make_a_book/audiobook_generator.py:78-117 | A part file never has a chapter file's name. |
| Naming.OutlineAudioNameFresh | src/make_a_book/audiobook_generator.py:185 | "00_outline.mp3" is neither a chapter file nor a part file. |
| Naming.TextNamesDistinct | src/make_a_book/audiobook_generator.py:151-161 | Chapter text files are distinct from each other, from "outline.md" and from the full-book file. |
| Manuscript.Sections | src/make_a_book/audiobook_generator.py:148-149 | The chapter sections are empty exactly when there are no chapters. |
| Manuscript.SectionsNumbering | src/make_a_book/audiobook_generator.py:148-149 | Chapter k (from 0) appears as section number first + k, between the sections before it and those after it. |
| Manuscript.SectionsAppend | src/make_a_book/audiobook_generator.py:148-149 | The sections of two lists in a row are the first list's sections followed by the second's, numbered on. |
| Manuscript.BuildFullBook | src/make_a_book/audiobook_generator.py:147-149 | The source's accumulating loop builds the header, "## Chapters", and then the sections numbered from 1. |
| Manuscript.FullBook | src/make_a_book/audiobook_generator.py:147-149 | The full book starts with the header and then "## Chapters", written even when there are no chapters. Nothing follows that heading exactly when there are no chapters. |
| Manuscript.ChapterFile | src/make_a_book/audiobook_generator.py:158 | A chapter file is "# Chapter ", the number, a blank line and the chapter. The number reads back from the heading. |
| Manuscript.OutlineFile | src/make_a_book/audiobook_generator.py:161-163 | The outline file is headed with "# " and the title, and ends with the outline text. |
| Manuscript.AppBookContent | app.py:26-40 | The content always begins with "# T\n\n## Outline\n\nO\n\n". It is longer than that exactly when there are chapters. |
| Manuscript.SaveBookContent | app.py:26-40 | The app's accumulating code builds exactly `AppBookContent`. |
| Manuscript.AppAgreesWithGenerator | app.py:26-40 | With chapters, the app's book text equals the generator's full-book text. Without chapters, the two differ only by the "## Chapters" heading. |
| Manuscript.TextFiles | src/make_a_book/audiobook_generator.py:143-163 | The text files are the full book first, then one file per chapter in order, then the outline file. |
| Manuscript.TextFileNamesDistinct | src/make_a_book/audiobook_generator.py:151-161 | No two text files share a name. |
| Generator.EffectiveInstructions | src/make_a_book/audiobook_generator.py:74-75 | Falsy instructions are replaced by the child-friendly default. The result is never empty. |
| Generator.RequestFor | src/make_a_book/audiobook_generator.py:82-91 | A chunk's speech request has the fixed model, the chunk, the voice and the speed. It always includes instructions, because the effective ones are never empty. |
| Generator.SucceededParts | src/make_a_book/audiobook_generator.py:77-103 | No more part files than chunks. |
| Generator.NoPartsIff | src/make_a_book/audiobook_generator.py:101-121 | There are no part files exactly when every chunk's speech call failed. |
| Generator.SucceededPartsComplete | src/make_a_book/audiobook_generator.py:93-103 | Every chunk whose speech call succeeds has its part file listed. |
| Generator.SucceededPartsSound | src/make_a_book/audiobook_generator.py:93-96 | Every listed part file belongs to a chunk whose call succeeded. |
| Generator.SpeakChunks | src/make_a_book/audiobook_generator.py:77-103 | The loop sends one request per chunk in order. It keeps the part files of exactly the successful calls. |
| Generator.GenerateChapterAudio | src/make_a_book/audiobook_generator.py:66-141 | One request per chunk is sent, in order, each with the chunk text. The part files are the chunks whose speech succeeded. With no part the result is None. With one part, or with several and pydub installed, it is `chapter_NN.mp3` in the audio folder. With several parts and no pydub, the fallback renames the first part. The clean-up loop then raises `NoSuchFile` for that part, and the message ends in Python's `repr` of its path. |
| Generator.NoSuchFile | src/make_a_book/audiobook_generator.py:111-112 | The `FileNotFoundError` text is "[Errno 2] No such file or directory: " followed by a quoted path that reads back, through `Unquote`, to exactly the missing path. |
| Generator.SpeakChunk | src/make_a_book/audiobook_generator.py:82-96 | One pass of the loop sends the request for its chunk, with instructions only when non-empty. It keeps the chunk's part file exactly when the call succeeded. |
| Generator.NarratedAsUnique | src/make_a_book/audiobook_generator.py:66-141 | `NarratedAs` fixes the requests, the part files and the outcome of a chapter's narration, so the generator's behaviour is determined by it. |
| Generator.OutlineAudioPathDistinct | src/make_a_book/audiobook_generator.py:185 | The outline audio never has chapter 1's path. |
| Generator.GenerateAudiobook | src/make_a_book/audiobook_generator.py:165-197 | The run satisfies `AudiobookAs`. The folder is the title's, and all text files are written. The outline narration "Book Outline. " + outline is spoken as chapter 0 exactly when requested. Chapter 1 is `chapters[0]`, spoken exactly when there are chapters and the outline did not raise. An exception from either ends the run with its message. The files returned are the outline file, then chapter 1's, each present exactly when its narration produced a file. |
| Generator.AudiobookAsUnique | src/make_a_book/audiobook_generator.py:165-197 | `AudiobookAs` fixes the whole result of a run: folder, text files, both narrations, the error and the list of audio files. |
| Generator.NarrateBook | src/make_a_book/audiobook_generator.py:178-194 | The outline is narrated, as chapter 0 with the "Book Outline. " prefix, exactly when it is requested. The first chapter is narrated as chapter 1 exactly when there is one and the outline narration did not raise. Both use the same voice, speed and instructions. An exception from either is passed on as the run's error, and the outline's error comes first. |
| Generator.Kept | src/make_a_book/audiobook_generator.py:176-195 | The returned audio list holds the outline file exactly when the outline produced audio, and the chapter file exactly when the chapter did. It holds nothing else, and the outline comes first. |
| Preview.NoHashAfterRemoval | api.py:146 | No '#' survives the header clean-up. |
| Preview.RemoveHeaders | api.py:146 | `re.sub(r'#{1,6}\s*', '', text)` never lengthens the text. Its effect is stated by `NoHashAfterRemoval`, `HashFreeUnchanged`, `HeaderMarkerDropped` and `RemoveHeadersIdempotent`. |
| Preview.HashFreeUnchanged | api.py:146 | Text without '#' comes through the clean-up unchanged. |
| Preview.HeaderMarkerDropped | api.py:146 | A run of '#' followed by whitespace disappears before the text after it. |
| Preview.RemoveHeadersIdempotent | api.py:146 | Removing headers twice is removing them once. |
| Preview.NonBlank | api.py:147 | Only non-empty paragraphs are kept, and no more than there were. |
| Preview.NoParagraphMeansBlank | api.py:147-148 | Without a non-blank paragraph the cleaned text strips to "". |
| Preview.ApiShorten | api.py:150-154 | The paragraph is cut just before its third ". " (or kept whole with fewer) and stripped. A "." is added only when missing, and an empty cut becomes the default sentence. |
| Preview.ApiShortenKeepsOpening | api.py:151-154 | The shortened preview is the opening of the paragraph, possibly with a "." added. |
| Preview.FirstSentences | api.py:151-152 | Joining the first three ". "-pieces gives the paragraph up to, not including, its third ". ", or all of it. |
| Text.JoinTakeSplit | api.py:151-152 | `sep.join(s.split(sep)[:n])` is `s` up to the start of its n-th separator, found scanning left to right without overlap, or all of `s`. |
| Preview.FirstSentencesPrefix | api.py:151-152 | The first three ". "-pieces joined back form a non-empty prefix of the paragraph. |
| Preview.ApiFinish | api.py:150-156 | The result is never empty. A non-empty preview of at most 300 characters is kept, and an empty one becomes the default sentence. A longer one is cut as `ApiShorten` states and ends with ".". |
| Preview.ApiPreviewText | api.py:145-156 | The result is never empty. A first paragraph of at most 300 characters is returned unchanged. A longer one is cut before its third ". ", stripped, and given a "." unless it has one. |
| Preview.ApiPreviewWithoutParagraph | api.py:148-156 | Without a paragraph the server reads the default sentence. |
| Preview.AppPreviewText | app.py:398-406 | The result is never empty. A first paragraph of at most 300 characters is returned unchanged, and without one the default sentence is used. A longer one is cut before its third ". " and always gets a "." appended, without stripping. |
| Preview.PreviewsAgree | app.py:398-406 | The app and the server pick the same preview unless the first paragraph is over 300 characters. |
| Chapters.NormalizeChapters | src/make_a_book/chapter_generator.py:29-38 | None becomes [], and a list or tuple keeps its items in order. A string becomes a one-element list, and anything else becomes `[str(value)]`. |
| Chapters.CreateChapters | src/make_a_book/chapter_generator.py:23-38 | The chapters are the prediction normalised: none for None, the items of a list or tuple in order, a string as the only chapter, and anything else as its `str`. |
| Chapters.NormalizeCount | src/make_a_book/chapter_generator.py:30-38 | The list is empty exactly for None or an empty list or tuple. A value that is neither a list nor a tuple gives exactly one string. |
| Chapters.InfosOrDefault | api.py:126-131 | An empty parse becomes exactly three default chapter infos, and a non-empty parse is kept. |
| Chapters.CreateAll | api.py:133-138 | A successful run yields one chapter per info. |
| Chapters.CreateEach | api.py:133-138 | The source's loop equals `CreateAll`. |
| Chapters.CreateAllSpec | api.py:133-142 | The run succeeds exactly when every call succeeds, and chapter k is call k's text. |
| Chapters.CreateAllFirstFailure | api.py:134-142 | The first failing call's message is what the run raises. |
| Server.FromAttempt | api.py:141-142 | A raised exception becomes a 500 carrying its message, and a value is passed on. |
| Server.GenerateOutline | api.py:90-99 | A whitespace-only prompt is rejected with 400 "Prompt is required" and nothing is sent. Otherwise the prompt goes to the model. |
| Server.FeedbackPrompt | api.py:111 | The prompt comes first, then the 17-character "\n\nUser feedback: " marker, then the feedback. |
| Server.FeedbackPromptInjective | api.py:111 | Different feedback gives different prompts. |
| Server.RegenerateOutline | api.py:102-115 | The prompt is checked before the feedback, each with its own 400. Only a request passing both sends the combined prompt. |
| Server.GenerateChapters | api.py:118-142 | A blank outline is rejected with 400 before the parser runs, and a parser error becomes a 500. Otherwise one chapter is generated per (possibly default) info, in order. |
| Server.PreviewRequest | api.py:167-178 | The speech request reads the extracted preview. It carries instructions exactly when they are given and not blank. |
| Server.VoicePreview | api.py:159-189 | Blank text is rejected before the key is checked. Only a request passing both checks reaches the speech service, with a non-empty input. |
| Server.GenerateAudiobookEndpoint | api.py:192-213 | Empty chapters are rejected before the key is checked. A valid request runs the generator on the request's title, outline, chapters, voice, speed, outline flag and instructions (`AudiobookAs`). If that run raised, the reply is 500 with its message, for example the missing-file message when pydub is absent and chapter 1 has several parts. Otherwise the reply is exactly the run's folder and audio files. |
| StreamlitApp.SubmitOutline | app.py:95-106 | Without a prompt nothing happens, and without a title the title error shows. Otherwise the title and the new outline are stored and the chapters are reset. |
| StreamlitApp.RegenerateOutline | app.py:142-149 | The outline is regenerated only with an outline and non-empty feedback, from the feedback prompt. Nothing else changes. |
| StreamlitApp.GenerateFullBook | app.py:158-206 | Only with an outline and no chapters yet: one chapter is generated per (possibly default) info, in order, and the book is saved and marked saved. |
| StreamlitApp.Download | app.py:220-247 | With chapters the book file is offered, and otherwise the outline file with the header only. |
| StreamlitApp.TotalItems | app.py:338-340 | The chapters, plus one exactly when the outline is included. |
| StreamlitApp.CreateAudiobook | app.py:324-353 | The generator runs exactly when the key is set and not the placeholder. It runs on the session's title, outline and chapters, with the chosen voice, speed and outline flag, and with the instructions box's text always passed (`AudiobookAs`). The files returned never outnumber `TotalItems`. |
| StreamlitApp.AppPreviewRequest | app.py:395-421 | The preview reads the app's extraction of the first chapter, which is never empty. Instructions are sent exactly when not blank. |
| StreamlitApp.NewOutlineHidesAudio | app.py:104-105 | A new outline hides the audiobook section until chapters exist again. |
| StreamlitApp.SavedMatchesDownload | app.py:194-236 | The file saved after generating chapters is the one the download button offers. |
| StreamlitApp.OutlineThenBook | app.py:95-206 | An outline and then a full book make the audiobook section appear. An empty parse gives exactly three chapters. |
| Js.Coalesce | frontend/src/steps/AudiobookStep.tsx:73-74 | `x ?? null` is present exactly when x is defined, and then equals it. |
| Js.CoalesceOr | frontend/src/steps/AudiobookStep.tsx:87 | `x ?? fallback` is x when defined, else the fallback. |
| Js.CaughtMessage | frontend/src/steps/AudiobookStep.tsx:92-94 | An `Error` gives its message, and any other thrown value gives the fallback. |
| Book.UpdateBookData | frontend/src/App.tsx:23-25 | Every supplied field overrides, and every other field keeps its value. |
| Book.UpdateNoChange | frontend/src/App.tsx:23-25 | An empty patch changes nothing. |
| Book.UpdateCompose | frontend/src/App.tsx:23-25 | Two updates in a row equal one update with the later fields winning. |
| Book.UpdateIdempotent | frontend/src/App.tsx:23-25 | Repeating an update changes nothing more. |
| Book.UpdateFullPatch | frontend/src/App.tsx:23-25 | A patch supplying every field gives the same book whatever the old one was. |
| Wizard.MarkCompleted | frontend/src/App.tsx:29-35 | The step whose id is the current step is marked completed, and all others are unchanged. |
| Wizard.GoToNextStep | frontend/src/App.tsx:27-39 | The current step becomes min(step + 1, 5), and the book is untouched. |
| Wizard.GoToPreviousStep | frontend/src/App.tsx:41-43 | The current step becomes max(step - 1, 1). The flags and the book are untouched. |
| Wizard.UpdateBook | frontend/src/App.tsx:23-25 | A book update leaves the navigation alone. |
| Wizard.InitialValid | frontend/src/App.tsx:7-21 | The wizard starts valid, at step 1 with no step completed. |
| Wizard.NavigationPreservesValid | frontend/src/App.tsx:27-43 | Both moves keep the five steps in order, keep the current step within 1..5, and keep every earlier step completed. |
| Wizard.NextMarksOnlyCurrent | frontend/src/App.tsx:29-35 | A flag after "next" is its old value or'ed with "is the current step": no flag is ever cleared. |
| Wizard.NavigationClamps | frontend/src/App.tsx:38-42 | "Next" at step 5 stays at 5 and completes it, and "back" at step 1 changes nothing. |
| Wizard.BackThenNextKeepsFlags | frontend/src/App.tsx:27-43 | Going back and forth never loses a completed step. |
| ProgressBar.StateOf | frontend/src/components/ProgressBar.tsx:18-22 | A step is completed exactly when flagged. An unflagged step is current exactly when it has the current id, and otherwise upcoming. |
| ProgressBar.LabelMatchesState | frontend/src/components/ProgressBar.tsx:18-28 | The label is the state's label, and different states have different labels. |
| ProgressBar.StatusLabel | frontend/src/components/ProgressBar.tsx:24-28 | The label computed with the source's own conditions is the label of the step's state, `LabelFor(StateOf(...))`. |
| ProgressBar.Marker | frontend/src/components/ProgressBar.tsx:36-37 | The marker is "✓" exactly for completed steps, because a number never prints as "✓". Otherwise it is the step's number. |
| ProgressBar.AtMostOneCurrent | frontend/src/components/ProgressBar.tsx:17-22 | In a valid wizard at most one step shows as current. |
| ProgressBar.CurrentShown | frontend/src/components/ProgressBar.tsx:18-22 | The current step shows as current unless it is already completed. |
| ProgressBar.EarlierStepsCompleted | frontend/src/components/ProgressBar.tsx:18-22 | Steps before the current one show as completed. |
| ProgressBar.NextShowsCompleted | frontend/src/components/ProgressBar.tsx:18-22 | After "next" the step that was current shows as completed. |
| Client.ErrorMessage | frontend/src/api.ts:50-60 | The message is the body's `detail` when it is a string. A non-string detail, a missing detail or an unparseable body gives the fallback. |
| Client.HandleResponse | frontend/src/api.ts:49-64 | An ok response yields its payload. Any other response throws an `Error` with the detail or "Request failed". |
| Client.Call | frontend/src/api.ts:92-103 | A rejected fetch passes its reason through, and an answer goes through `handleResponse`. |
| Client.PreviewCall | frontend/src/api.ts:105-128 | The same steps with the fallback "Preview request failed". |
| Client.ReplyReachesCaller | frontend/src/api.ts:49-64 | A server reply reaches the caller unchanged: the value, or an `Error` carrying exactly the server's detail. |
| Client.FallbacksDistinguishCalls | frontend/src/api.ts:115 | Without a detail the two fallbacks differ. |
| Client.ToBody | frontend/src/api.ts:136-144 | The flag is sent as `include_outline`, and every field is copied. |
| Client.ServerReads | api.py:63-70 | A missing `include_outline` means true. |
| Client.BodyRoundTrip | frontend/src/api.ts:136-144 | Reading the body back gives the original request. |
| Client.ServerSeesPayload | frontend/src/api.ts:136-144 | The server reads exactly the fields the front end sent, so its default for `include_outline` never applies. |
| VoiceStep.EffectiveSettings | frontend/src/steps/VoiceSetupStep.tsx:28-34 | The book's settings are used when present, and otherwise "fable" at speed 1 with the default note. |
| VoiceStep.WriteBack | frontend/src/steps/VoiceSetupStep.tsx:36-40 | The effect sends a patch exactly when the book has no settings. |
| VoiceStep.WriteBackSettles | frontend/src/steps/VoiceSetupStep.tsx:36-40 | After the write-back the effect sends nothing more. The settings in use do not change, and nothing else in the book changes. |
| VoiceStep.PreviewText | frontend/src/steps/VoiceSetupStep.tsx:42-50 | The preview reads the first chapter if there are chapters, else the outline if truthy, else the prompt if non-empty, else the placeholder sentence. |
| VoiceStep.PreviewTextEmptyIff | frontend/src/steps/VoiceSetupStep.tsx:42-50 | The preview text is empty only when the first chapter is empty. |
| VoiceStep.ShownPreview | frontend/src/steps/VoiceSetupStep.tsx:169 | The preview is clipped to 260 UTF-16 code units as `ClippedTo` describes: shown whole within the limit, otherwise the longest fitting run of whole characters followed by "…". Without characters beyond the Basic Multilingual Plane, that run is the first 260 characters. |
| VoiceStep.PreviewRequestOf | frontend/src/steps/VoiceSetupStep.tsx:55-60 | The preview is requested with the effective voice, speed and instructions and the preview text. |
| VoiceStep.FallbackInstructionsReachModel | frontend/src/steps/VoiceSetupStep.tsx:55-60 | For a book without settings the server passes the default note on to the speech model. |
| VoiceStep.HandlePreview | frontend/src/steps/VoiceSetupStep.tsx:52-72 | Success shows the new audio, clears the error and revokes the old URL if there was one. Failure keeps the old audio and shows the message or "Failed to generate preview". Either way previewing ends. |
| VoiceStep.ServerRejectionShown | frontend/src/steps/VoiceSetupStep.tsx:66-68 | A server rejection shows the server's own message. |
| VoiceStep.UpdateVoiceSettings | frontend/src/steps/VoiceSetupStep.tsx:74-81 | The new settings are the current ones with exactly the supplied fields replaced. |
| VoiceStep.UpdateVoiceSettingsLocal | frontend/src/steps/VoiceSetupStep.tsx:74-81 | An edit changes nothing in the book but the settings, and repeating it changes nothing more. |
| VoiceStep.FrontEndAndServerDefaultsDiffer | frontend/src/steps/VoiceSetupStep.tsx:13-14 | The wizard's default note differs from the generator's. So a wizard book without voice settings is not read with the generator's default note. `RenderJob.WizardNarrationNote` covers books with settings. |
| ChapterStep.HandleGenerateChapters | frontend/src/steps/ChapterGenerationStep.tsx:22-43 | Without an outline only the error changes and no request is made. Otherwise success patches only the chapters, and failure shows the message or "Failed to generate chapters". Generating ends either way. |
| ChapterStep.GeneratedChaptersStored | frontend/src/steps/ChapterGenerationStep.tsx:31-36 | The book then holds exactly the returned chapters, with nothing else changed. Continuing from step 3 reaches step 4 exactly when at least one chapter came back. |
| ChapterStep.ServerFailureShown | frontend/src/steps/ChapterGenerationStep.tsx:37-42 | A failed call leaves the book alone and shows the server's detail. |
| ChapterStep.Continue | frontend/src/steps/ChapterGenerationStep.tsx:45-49 | The wizard advances only when the book has chapters. |
| ChapterStep.Summary | frontend/src/steps/ChapterGenerationStep.tsx:102-104 | With chapters, the count read back from the line "Generated N chapters." is the number of chapters. Otherwise the line is the "no chapters" one. |
| ChapterStep.NoChaptersYetHasNoCount | frontend/src/steps/ChapterGenerationStep.tsx:102-104 | The "no chapters" line never reads back as a chapter count. |
| ChapterStep.SummaryDistinguishes | frontend/src/steps/ChapterGenerationStep.tsx:102-104 | Two books with the same summary line agree on whether they have chapters and on how many. |
| ChapterStep.Card | frontend/src/steps/ChapterGenerationStep.tsx:110-111 | A card is headed with the chapter number from 1. Its text is the chapter clipped to 240 UTF-16 code units as `ClippedTo` describes. Without characters beyond the Basic Multilingual Plane, that is the first 240 characters followed by "…" when the chapter is longer. |
| ChapterStep.CardHeadingsDistinct | frontend/src/steps/ChapterGenerationStep.tsx:110 | Different cards have different headings. |

## Left out

- Language models and speech synthesis are parameters: the outline creator, the chapter creator and its parser, the `dspy` predictor, and the speech API. Each is a function returning a value or a raised message.
- In `Generator`, speech success depends only on (chapter, part), which are the chunk's coordinates. The text of the chunk does not enter it.
- `fetch`, the job-start call and the status fetch are given as the way their `await` settled. The job-start and status functions are imported by the audiobook step but are not defined in `frontend/src/api.ts`. Their request is assumed to have the shape of its `AudiobookRequest`.
- A successful response whose JSON fails to parse is not modelled. The payload of an ok response is taken as given.
- The 1.5 s pause between polls, React's batching and re-rendering, and async interleaving are left out. The loop is sequential.
- A job that never stops is represented by a finite prefix of its status fetches, after which the step is still generating.
- Numbers in the render job are whole numbers. The time-based percentage is computed exactly, without floating-point error.
- In the estimator, floating point is replaced by exact real arithmetic, and Python's `round` ties to even.
- The regular expressions of `clean_text_for_speech` and the sentence split of `chunk_text` are parameters: the cleaned text and the sentence list are inputs. The header removal `#{1,6}\s*` of the preview extraction is modelled.
- `\w`, `str.lower()` and `str.isspace()` are restricted to ASCII and the ASCII/Unicode whitespace set. Unicode letters are not modelled.
- Filesystem effects are left out: creating folders, writing, renaming and deleting files, temporary files, and the audio joining done by pydub. The model records which files would be written or returned and with what content. Whether pydub can be imported is a parameter, and the error that its absence causes is modelled.
- Streamlit widgets, layout and messages outside the session transitions, and exceptions of the language model in the Streamlit app, are left out. Its calls are total functions there.
- The wizard's steps 3-5 are unreachable in the shipped `frontend/src/App.tsx`: it renders "(Coming Soon)" placeholders there (lines 64-84) instead of `ChapterGenerationStep`, `VoiceSetupStep` and `AudiobookStep`. The model treats these three steps as mounted at steps 3, 4 and 5.
- The `Server` endpoints are modelled as if `api.py` could be imported. As written, `api.py:81` passes an argument to `OutlineCreator`, whose constructor (`src/make_a_book/outline_generator.py:14`) takes none, so the import raises a `TypeError`. The chapter creator's `parse_outline_chapters` and `create_chapter`, called by `api.py` and by `app.py:172` and `app.py:188`, are not defined in `chapter_generator.py` and are parameters.
- `main.py`, `BookSetupStep.tsx`, `OutlineReviewStep.tsx`, `StepLayout.tsx` and the estimator demo under `tests/` are not part of this model.
- Object URLs: `HandlePreview` takes the URL made from the returned audio as the call's payload and reports the URL it revokes. Creating and revoking URLs are not otherwise modelled.
- A `Partial<BookData>` that sets `title` or `prompt` to `undefined` is not modelled. Patches give those fields a string or leave them out.
- RenderJob.Consumed: its own contract only bounds the number of fetches. The exact count, the stopping index plus one, is stated by `DriveIgnoresLaterPolls`.
- Generator.SucceededParts: its own contract only bounds the number of part files. Which files are listed is stated by `SucceededPartsComplete` and `SucceededPartsSound`.
- RenderJob.Drive: it has no contract of its own. Its meaning is stated by `DriveIgnoresLaterPolls`, `DriveOutcome` and `DriveShowsLastStatus`.
- Chunking.PackFrom: it has no contract of its own. `PackMatchesGroups` states that it equals the greedy grouping.
- Preview.RemoveHeaders: its own contract only bounds the length. What is removed is stated by `NoHashAfterRemoval`, `HashFreeUnchanged`, `HeaderMarkerDropped` and `RemoveHeadersIdempotent`.
- Text.SplitOn: its own contract only says there is at least one piece. The pieces are stated by `JoinSplit`, `JoinTakeSplit`, `SplitOnAbsent` and `SplitOnFirst`.
- Text.Clip: when the cut falls between the two halves of a surrogate pair, JavaScript keeps a lone high surrogate, which a Dafny string cannot hold. The model drops that half character.
- Text.PyRepr: non-ASCII characters that Python counts as unprintable are written as themselves. Python writes them as `\x`, `\u` or `\U` escapes. ASCII control characters, the backslash and the quote are escaped as in Python.
- StreamlitApp.CreateAudiobook: a session with chapters but no outline passes "" as the outline, where the app would pass `None`. No sequence of the app's actions reaches that state: chapters are only stored while an outline is set, and only the page's start sets the outline to `None`.
