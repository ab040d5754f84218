/** Audiobook assembly in src/make_a_book/audiobook_generator.py:
    `generate_chapter_audio` turns one chapter into speech requests, one per
    chunk, and `generate_audiobook` lays out the book folder and collects the
    audio files. The speech service, the Markdown clean-up and the sentence
    split are parameters; files are represented by their paths. */
module Generator {
  import opened Js
  import opened Text
  import opened Chunking
  import opened Naming
  import opened Manuscript

  const SpeechModel: string := "gpt-4o-mini-tts"

  /** The narration style used when the caller gives none. */
  const DefaultInstructions: string :=
    "Read with excitement and enthusiasm! "
    + "You're a friendly storyteller reading to children. "
    + "Use varied intonation, dramatic pauses for suspense, and express emotions clearly. "
    + "Make it engaging and fun!"

  /** The parameters of one speech-synthesis call. */
  datatype SpeechRequest = SpeechRequest(
    model: string,
    voice: string,
    input: string,
    speed: real,
    instructions: Option<string>)

  /** `voice_instructions if voice_instructions else default_instructions`. */
  function EffectiveInstructions(voiceInstructions: Option<string>): (r: string)
    ensures r != ""
    ensures TruthyText(voiceInstructions) ==> r == voiceInstructions.value
    ensures !TruthyText(voiceInstructions) ==> r == DefaultInstructions
  {
    if TruthyText(voiceInstructions) then voiceInstructions.value else DefaultInstructions
  }

  /** The `api_params` of one chunk once the instructions are chosen; they
      are added only when non-empty (`if instructions:`). */
  function RequestWith(chunk: string, voice: string, speed: real, instructions: string): SpeechRequest {
    SpeechRequest(SpeechModel, voice, chunk, speed, if instructions != "" then Some(instructions) else None)
  }

  /** The request for one chunk. The instructions are always non-empty, so
      `if instructions:` always adds them. */
  function RequestFor(chunk: string, voice: string, speed: real, voiceInstructions: Option<string>): (q: SpeechRequest)
    ensures q.model == SpeechModel && q.input == chunk && q.voice == voice && q.speed == speed
    ensures q.instructions == Some(EffectiveInstructions(voiceInstructions))
  {
    RequestWith(chunk, voice, speed, EffectiveInstructions(voiceInstructions))
  }

  /** The environment of a run: how the source cleans text and splits it
      into sentences (regular expressions this model does not interpret),
      whether the speech call for part `part` of chapter `chapter`
      succeeds, and whether `pydub` can be imported. */
  datatype Environment = Environment(
    clean: string -> string,
    sentences: string -> seq<string>,
    speechSucceeds: (nat, nat) -> bool,
    pydubAvailable: bool)

  /** `chunk_text(text)` with the default limit of 4000 characters. */
  function ChunksFor(env: Environment, text: string): seq<string> {
    var cleaned := env.clean(text);
    ChunkText(cleaned, env.sentences(cleaned), DefaultMaxChars)
  }

  /** The path of part `part` of chapter `chapter`. */
  function PartPath(folder: string, chapter: nat, part: nat): string {
    AudioPath(folder, PartFileName(chapter, part))
  }

  /** The part files of one chapter, by part number. */
  function PartFiles(folder: string, chapter: nat): nat -> string {
    (part: nat) => PartPath(folder, chapter, part)
  }

  /** The part files written for parts `first..first + count - 1` of a
      chapter, where `file` names each part's file: those whose speech call
      succeeded, in order. */
  function SucceededParts(env: Environment, chapter: nat, file: nat -> string, first: nat, count: nat): (r: seq<string>)
    ensures |r| <= count
    decreases count
  {
    if count == 0 then [] else PartOf(env, chapter, file, first) + SucceededParts(env, chapter, file, first + 1, count - 1)
  }

  /** The file of part `part`, if its speech call succeeded. */
  function PartOf(env: Environment, chapter: nat, file: nat -> string, part: nat): seq<string> {
    if env.speechSucceeds(chapter, part) then [file(part)] else []
  }

  /** The part files written for `text` narrated as chapter `chapterNum`. */
  function ChapterParts(env: Environment, text: string, chapterNum: nat, folder: string): seq<string> {
    SucceededParts(env, chapterNum, PartFiles(folder, chapterNum), 1, |ChunksFor(env, text)|)
  }

  /** What `generate_chapter_audio` did: the speech requests it sent, the
      part files it wrote, and how it ended: the chapter file it returned
      (`None` when no part was written), or the message of the exception
      it raised. */
  datatype ChapterAudio = ChapterAudio(
    requests: seq<SpeechRequest>,
    parts: seq<string>,
    result: Attempt<Option<string>>)

  /** `str(exc)` of the `FileNotFoundError` that `Path.unlink` raises for a
      missing file: the message, then `repr` of the path. */
  function NoSuchFile(path: string): (m: string)
    ensures |m| > |NoSuchFilePrefix| && m[..|NoSuchFilePrefix|] == NoSuchFilePrefix
    ensures Unquote(m[|NoSuchFilePrefix|..]) == Some(path)
  {
    var r := PyRepr(path);
    assert (NoSuchFilePrefix + r)[|NoSuchFilePrefix|..] == r;
    NoSuchFilePrefix + r
  }

  const NoSuchFilePrefix: string := "[Errno 2] No such file " + "or directory: "

  /** Different missing files give different messages. */
  lemma NoSuchFileInjective(p1: string, p2: string)
    requires NoSuchFile(p1) == NoSuchFile(p2)
    ensures p1 == p2
  {
  }

  /** One pass of that loop, the body of its `try`: the request for the
      chunk, and the part file it keeps, if the call succeeded. */
  method SpeakChunk(env: Environment, chunk: string, chapterNum: nat, part: nat, folder: string,
                    voice: string, speed: real, instructions: string)
    returns (request: SpeechRequest, kept: seq<string>)
    ensures request == RequestWith(chunk, voice, speed, instructions)
    ensures kept == PartOf(env, chapterNum, PartFiles(folder, chapterNum), part)
  {
    request := RequestWith(chunk, voice, speed, instructions);
    kept := [];
    if env.speechSucceeds(chapterNum, part) {
      kept := [PartPath(folder, chapterNum, part)];
    }
  }

  /** The loop of `generate_chapter_audio`: one request per chunk, and the
      part file `chapter_{NN}_part_{i+1}` kept when its call succeeded. */
  method SpeakChunks(env: Environment, chunks: seq<string>, chapterNum: nat, folder: string,
                     voice: string, speed: real, instructions: string)
    returns (requests: seq<SpeechRequest>, audioFiles: seq<string>)
    ensures |requests| == |chunks|
    ensures forall k :: 0 <= k < |requests| ==>
      requests[k] == RequestWith(chunks[k], voice, speed, instructions)
    ensures audioFiles == SucceededParts(env, chapterNum, PartFiles(folder, chapterNum), 1, |chunks|)
  {
    requests := seq(|chunks|, k requires 0 <= k < |chunks| => RequestWith(chunks[k], voice, speed, instructions));
    audioFiles := [];
    ghost var files := PartFiles(folder, chapterNum);
    ghost var total := SucceededParts(env, chapterNum, files, 1, |chunks|);
    var i := 0;
    while i < |chunks|
      invariant 0 <= i <= |chunks|
      invariant audioFiles + SucceededParts(env, chapterNum, files, i + 1, |chunks| - i) == total
    {
      ghost var rest := SucceededParts(env, chapterNum, files, i + 2, |chunks| - i - 1);
      var request, kept := SpeakChunk(env, chunks[i], chapterNum, i + 1, folder, voice, speed, instructions);
      assert request == requests[i];
      PartsStep(audioFiles, env, chapterNum, files, i + 1, |chunks| - i);
      audioFiles := audioFiles + kept;
      assert audioFiles + rest == total;
      i := i + 1;
    }
    assert SucceededParts(env, chapterNum, files, i + 1, |chunks| - i) == [];
  }

  /** The chapter audio of `text` as chapter `chapterNum`: one request per
      chunk, in order; the part files of the chunks whose call succeeded;
      and the ending. No part gives `None`. One part is renamed to the
      chapter file. Several parts are joined into the chapter file when
      `pydub` is available. Without it the first part is renamed to the
      chapter file and the clean-up loop then fails to delete that part. */
  ghost predicate NarratedAs(a: ChapterAudio, env: Environment, text: string, chapterNum: nat, folder: string,
                             voice: string, speed: real, voiceInstructions: Option<string>)
  {
    var chunks := ChunksFor(env, text);
    && |a.requests| == |chunks|
    && (forall k :: 0 <= k < |a.requests| ==>
          a.requests[k] == RequestFor(chunks[k], voice, speed, voiceInstructions))
    && a.parts == ChapterParts(env, text, chapterNum, folder)
    && (|a.parts| == 0 ==> a.result == Succeeded(None))
    && (|a.parts| == 1 || (|a.parts| > 1 && env.pydubAvailable) ==>
          a.result == Succeeded(Some(AudioPath(folder, ChapterFileName(chapterNum)))))
    && (|a.parts| > 1 && !env.pydubAvailable ==> a.result == Raised(NoSuchFile(a.parts[0])))
  }

  /** The description above determines the chapter audio completely. */
  lemma NarratedAsUnique(a: ChapterAudio, b: ChapterAudio, env: Environment, text: string, chapterNum: nat,
                         folder: string, voice: string, speed: real, voiceInstructions: Option<string>)
    requires NarratedAs(a, env, text, chapterNum, folder, voice, speed, voiceInstructions)
    requires NarratedAs(b, env, text, chapterNum, folder, voice, speed, voiceInstructions)
    ensures a == b
  {
    assert a.requests == b.requests;
  }

  /** A chapter narration that returns a file returns the chapter file. */
  lemma ProducedFile(a: ChapterAudio, env: Environment, text: string, chapterNum: nat, folder: string,
                     voice: string, speed: real, voiceInstructions: Option<string>)
    requires NarratedAs(a, env, text, chapterNum, folder, voice, speed, voiceInstructions)
    ensures a.result.Succeeded? && a.result.value.Some?
        <==> a.result == Succeeded(Some(AudioPath(folder, ChapterFileName(chapterNum))))
  {
  }

  /** `generate_chapter_audio(chapter_text, chapter_num, ...)`, including
      the combining step `_combine_audio_files` and the clean-up of the
      parts. */
  method GenerateChapterAudio(env: Environment, chapterText: string, chapterNum: nat, folder: string,
                              voice: string, speed: real, voiceInstructions: Option<string>)
    returns (a: ChapterAudio)
    ensures NarratedAs(a, env, chapterText, chapterNum, folder, voice, speed, voiceInstructions)
  {
    var chunks := ChunksFor(env, chapterText);
    var instructions := EffectiveInstructions(voiceInstructions);
    var requests, audioFiles := SpeakChunks(env, chunks, chapterNum, folder, voice, speed, instructions);
    var chapterFile := AudioPath(folder, ChapterFileName(chapterNum));
    var result: Attempt<Option<string>> := Succeeded(None);
    if |audioFiles| > 1 {
      if env.pydubAvailable {
        result := Succeeded(Some(chapterFile));
      } else {
        // The first part now is the chapter file, so unlinking it fails.
        result := Raised(NoSuchFile(audioFiles[0]));
      }
    } else if |audioFiles| == 1 {
      result := Succeeded(Some(chapterFile));
    }
    a := ChapterAudio(requests, audioFiles, result);
  }

  /** One loop step: the files kept so far followed by the remaining parts'
      files are the files kept after one more part followed by the rest. */
  lemma PartsStep(kept: seq<string>, env: Environment, chapter: nat, file: nat -> string, first: nat, count: nat)
    requires count > 0
    ensures kept + SucceededParts(env, chapter, file, first, count)
         == (kept + PartOf(env, chapter, file, first)) + SucceededParts(env, chapter, file, first + 1, count - 1)
  {
  }

  /** No part is written exactly when every speech call of the chapter
      failed. */
  lemma {:induction false} NoPartsIff(env: Environment, chapter: nat, file: nat -> string, first: nat, count: nat)
    ensures |SucceededParts(env, chapter, file, first, count)| == 0
        <==> forall p :: first <= p < first + count ==> !env.speechSucceeds(chapter, p)
    decreases count
  {
    if count > 0 {
      NoPartsIff(env, chapter, file, first + 1, count - 1);
    }
  }

  /** Every part that succeeded is written. */
  lemma {:induction false} SucceededPartsComplete(env: Environment, chapter: nat, file: nat -> string, first: nat, count: nat, p: nat)
    requires first <= p < first + count && env.speechSucceeds(chapter, p)
    ensures file(p) in SucceededParts(env, chapter, file, first, count)
    decreases count
  {
    if p > first {
      SucceededPartsComplete(env, chapter, file, first + 1, count - 1, p);
    }
  }

  /** Every written file belongs to a part whose speech call succeeded. */
  lemma {:induction false} SucceededPartsSound(env: Environment, chapter: nat, file: nat -> string, first: nat, count: nat, f: string)
    requires f in SucceededParts(env, chapter, file, first, count)
    ensures exists p :: first <= p < first + count && env.speechSucceeds(chapter, p) && f == file(p)
    decreases count
  {
    if f != file(first) || !env.speechSucceeds(chapter, first) {
      SucceededPartsSound(env, chapter, file, first + 1, count - 1, f);
    }
  }

  /** What `generate_audiobook` did: the folder and text files it wrote,
      the chapter-audio runs it made, the audio files it returns, and the
      message of the exception that ended it, if one did. */
  datatype Audiobook = Audiobook(
    folder: string,
    textFiles: seq<TextFile>,
    outlineAudio: Option<ChapterAudio>,
    chapterAudio: Option<ChapterAudio>,
    audioFiles: seq<string>,
    raised: Option<string>)

  /** The text narrated for the outline, `f"Book Outline. {outline}"`. */
  function OutlineNarration(outline: string): string {
    "Book Outline. " + outline
  }

  /** The path the outline's audio is renamed to. */
  function OutlineAudioPath(folder: string): string {
    AudioPath(folder, OutlineAudioName)
  }

  /** The renamed outline never lands on the first chapter's file. */
  lemma OutlineAudioPathDistinct(folder: string)
    ensures OutlineAudioPath(folder) != AudioPath(folder, ChapterFileName(1))
  {
    OutlineAudioNameFresh(1);
    if OutlineAudioPath(folder) == AudioPath(folder, ChapterFileName(1)) {
      DropPrefix(folder + "/audio/", OutlineAudioName, ChapterFileName(1));
    }
  }

  /** What `generate_audiobook` produces for a book: the title's folder and
      its text files; the outline narrated as chapter 0 exactly when it is
      asked for; the first chapter narrated as chapter 1 unless the
      outline's narration raised; the first exception as the run's error;
      and the audio files actually produced, the outline's first. */
  ghost predicate AudiobookAs(b: Audiobook, env: Environment, title: string, outline: string, chapters: seq<string>,
                              voice: string, speed: real, includeOutline: bool, voiceInstructions: Option<string>)
  {
    var outlineFile := OutlineAudioPath(b.folder);
    var chapterFile := AudioPath(b.folder, ChapterFileName(1));
    var outlineKept := b.outlineAudio.Some? && b.outlineAudio.value.result == Succeeded(Some(AudioPath(b.folder, ChapterFileName(0))));
    var chapterKept := b.chapterAudio.Some? && b.chapterAudio.value.result == Succeeded(Some(chapterFile));
    && b.folder == BookFolderName(title)
    && b.textFiles == TextFiles(title, outline, chapters)
    && (b.outlineAudio.Some? <==> includeOutline)
    && (b.outlineAudio.Some? ==>
          NarratedAs(b.outlineAudio.value, env, OutlineNarration(outline), 0, b.folder, voice, speed, voiceInstructions))
    && (b.chapterAudio.Some? <==>
          |chapters| > 0 && !(b.outlineAudio.Some? && b.outlineAudio.value.result.Raised?))
    && (b.chapterAudio.Some? ==>
          NarratedAs(b.chapterAudio.value, env, chapters[0], 1, b.folder, voice, speed, voiceInstructions))
    && (b.raised.Some? <==>
          (b.outlineAudio.Some? && b.outlineAudio.value.result.Raised?)
          || (b.chapterAudio.Some? && b.chapterAudio.value.result.Raised?))
    && (b.outlineAudio.Some? && b.outlineAudio.value.result.Raised? ==>
          b.raised == Some(b.outlineAudio.value.result.message))
    && (b.chapterAudio.Some? && b.chapterAudio.value.result.Raised? ==>
          b.raised == Some(b.chapterAudio.value.result.message))
    && (outlineFile in b.audioFiles <==> outlineKept)
    && (chapterFile in b.audioFiles <==> chapterKept)
    && (forall f :: f in b.audioFiles ==> f == outlineFile || f == chapterFile)
    && |b.audioFiles| == (if outlineKept then 1 else 0) + (if chapterKept then 1 else 0)
    && (|b.audioFiles| == 2 ==> b.audioFiles == [outlineFile, chapterFile])
  }

  /** The description above determines the whole result of a run. */
  lemma AudiobookAsUnique(a: Audiobook, b: Audiobook, env: Environment, title: string, outline: string,
                          chapters: seq<string>, voice: string, speed: real, includeOutline: bool,
                          voiceInstructions: Option<string>)
    requires AudiobookAs(a, env, title, outline, chapters, voice, speed, includeOutline, voiceInstructions)
    requires AudiobookAs(b, env, title, outline, chapters, voice, speed, includeOutline, voiceInstructions)
    ensures a == b
  {
    var folder := a.folder;
    if a.outlineAudio.Some? {
      NarratedAsUnique(a.outlineAudio.value, b.outlineAudio.value, env, OutlineNarration(outline), 0, folder,
                       voice, speed, voiceInstructions);
    }
    if a.chapterAudio.Some? {
      NarratedAsUnique(a.chapterAudio.value, b.chapterAudio.value, env, chapters[0], 1, folder,
                       voice, speed, voiceInstructions);
    }
    assert a.outlineAudio == b.outlineAudio && a.chapterAudio == b.chapterAudio;
    OutlineAudioPathDistinct(folder);
    FilesDetermined(a.audioFiles, b.audioFiles, OutlineAudioPath(folder), AudioPath(folder, ChapterFileName(1)));
  }

  /** Two lists of at most the two distinct audio paths, holding the same
      paths, in the two-element case in the same order, are equal. */
  lemma FilesDetermined(fs: seq<string>, gs: seq<string>, o: string, c: string)
    requires o != c
    requires o in fs <==> o in gs
    requires c in fs <==> c in gs
    requires forall f :: f in fs ==> f == o || f == c
    requires forall f :: f in gs ==> f == o || f == c
    requires |fs| == (if o in fs then 1 else 0) + (if c in fs then 1 else 0)
    requires |gs| == |fs|
    requires |fs| == 2 ==> fs == [o, c] && gs == [o, c]
    ensures fs == gs
  {
    if |fs| == 1 {
      assert fs[0] in fs && gs[0] in gs;
      if o in fs {
        assert fs[0] == o && gs[0] == o;
      } else {
        assert fs[0] == c && gs[0] == c;
      }
    }
  }

  /** `generate_audiobook(...)`: the outline (when asked for) is narrated as
      chapter 0 and renamed, then the first chapter only is narrated as
      chapter 1. An exception from either narration ends the run. */
  method GenerateAudiobook(env: Environment, title: string, outline: string, chapters: seq<string>,
                           voice: string, speed: real, includeOutline: bool, voiceInstructions: Option<string>)
    returns (b: Audiobook)
    ensures AudiobookAs(b, env, title, outline, chapters, voice, speed, includeOutline, voiceInstructions)
  {
    var folder := BookFolderName(title);
    var textFiles := TextFiles(title, outline, chapters);
    var outlineAudio, chapterAudio, raised := NarrateBook(env, outline, chapters, folder, voice, speed, includeOutline, voiceInstructions);
    // a produced outline file is renamed to the outline's name; a produced
    // chapter file is always the chapter's path
    var outlineKept := outlineAudio.Some? && outlineAudio.value.result.Succeeded? && outlineAudio.value.result.value.Some?;
    var chapterKept := chapterAudio.Some? && chapterAudio.value.result.Succeeded? && chapterAudio.value.result.value.Some?;
    if outlineAudio.Some? {
      ProducedFile(outlineAudio.value, env, OutlineNarration(outline), 0, folder, voice, speed, voiceInstructions);
    }
    if chapterAudio.Some? {
      ProducedFile(chapterAudio.value, env, chapters[0], 1, folder, voice, speed, voiceInstructions);
    }
    OutlineAudioPathDistinct(folder);
    var audioFiles := Kept(OutlineAudioPath(folder), AudioPath(folder, ChapterFileName(1)), outlineKept, chapterKept);
    b := Audiobook(folder, textFiles, outlineAudio, chapterAudio, audioFiles, raised);
  }

  /** The narration part of `generate_audiobook`: the outline as chapter 0
      when requested, then the first chapter as chapter 1, unless the
      outline's narration raised. */
  method NarrateBook(env: Environment, outline: string, chapters: seq<string>, folder: string,
                     voice: string, speed: real, includeOutline: bool, voiceInstructions: Option<string>)
    returns (outlineAudio: Option<ChapterAudio>, chapterAudio: Option<ChapterAudio>, raised: Option<string>)
    ensures outlineAudio.Some? <==> includeOutline
    ensures outlineAudio.Some? ==>
      NarratedAs(outlineAudio.value, env, OutlineNarration(outline), 0, folder, voice, speed, voiceInstructions)
    ensures chapterAudio.Some? <==>
      |chapters| > 0 && !(outlineAudio.Some? && outlineAudio.value.result.Raised?)
    ensures chapterAudio.Some? ==>
      NarratedAs(chapterAudio.value, env, chapters[0], 1, folder, voice, speed, voiceInstructions)
    ensures raised.Some? <==>
      (outlineAudio.Some? && outlineAudio.value.result.Raised?)
      || (chapterAudio.Some? && chapterAudio.value.result.Raised?)
    ensures outlineAudio.Some? && outlineAudio.value.result.Raised? ==>
      raised == Some(outlineAudio.value.result.message)
    ensures chapterAudio.Some? && chapterAudio.value.result.Raised? ==>
      raised == Some(chapterAudio.value.result.message)
  {
    outlineAudio, chapterAudio, raised := None, None, None;
    if includeOutline {
      var a := GenerateChapterAudio(env, OutlineNarration(outline), 0, folder, voice, speed, voiceInstructions);
      outlineAudio := Some(a);
      if a.result.Raised? {
        return outlineAudio, chapterAudio, Some(a.result.message);
      }
    }
    if |chapters| > 0 {
      var a := GenerateChapterAudio(env, chapters[0], 1, folder, voice, speed, voiceInstructions);
      chapterAudio := Some(a);
      if a.result.Raised? {
        raised := Some(a.result.message);
      }
    }
  }

  /** The returned audio list: the outline file when kept, then the
      chapter file when kept. */
  function Kept(outlinePath: string, chapterPath: string, outlineKept: bool, chapterKept: bool): (fs: seq<string>)
    requires outlinePath != chapterPath
    ensures outlinePath in fs <==> outlineKept
    ensures chapterPath in fs <==> chapterKept
    ensures forall f :: f in fs ==> f == outlinePath || f == chapterPath
    ensures |fs| == (if outlineKept then 1 else 0) + (if chapterKept then 1 else 0)
    ensures |fs| == 2 ==> fs == [outlinePath, chapterPath]
    ensures |fs| > 0 && outlinePath in fs ==> fs[0] == outlinePath
  {
    (if outlineKept then [outlinePath] else []) + (if chapterKept then [chapterPath] else [])
  }
}
