/** The wizard's book record (frontend/src/types/index.ts) and the shallow
    merge `{ ...prev, ...newData }` every step uses to update it
    (frontend/src/App.tsx). Optional fields are `Option`s: `None` is a
    missing field. */
module Book {
  import opened Js

  datatype VoiceSettings = VoiceSettings(voice: string, speed: real, instructions: string)

  datatype BookData = BookData(
    title: string,
    prompt: string,
    outline: Option<string>,
    chapters: Option<seq<string>>,
    voiceSettings: Option<VoiceSettings>)

  /** The book the wizard starts with: empty title and prompt, nothing else. */
  const EmptyBook: BookData := BookData("", "", None, None, None)

  /** One field of a `Partial<...>`: absent, or present with a value. A
      present optional field may carry `None`, which clears it. */
  datatype Field<+T> = Absent | Present(value: T) {
    function Over(prev: T): T {
      match this
      case Absent => prev
      case Present(v) => v
    }
  }

  /** `Partial<BookData>`. */
  datatype BookPatch = BookPatch(
    title: Field<string>,
    prompt: Field<string>,
    outline: Field<Option<string>>,
    chapters: Field<Option<seq<string>>>,
    voiceSettings: Field<Option<VoiceSettings>>)

  const NoChange: BookPatch := BookPatch(Absent, Absent, Absent, Absent, Absent)

  /** A patch that supplies only the chapters. */
  function ChaptersPatch(chapters: seq<string>): BookPatch {
    NoChange.(chapters := Present(Some(chapters)))
  }

  /** A patch that supplies only the voice settings. */
  function VoiceSettingsPatch(v: VoiceSettings): BookPatch {
    NoChange.(voiceSettings := Present(Some(v)))
  }

  /** `updateBookData(newData)`: supplied fields override, all others keep
      their value. */
  function UpdateBookData(b: BookData, p: BookPatch): (r: BookData)
    ensures p.title.Present? ==> r.title == p.title.value
    ensures p.title.Absent? ==> r.title == b.title
    ensures p.prompt.Present? ==> r.prompt == p.prompt.value
    ensures p.prompt.Absent? ==> r.prompt == b.prompt
    ensures p.outline.Present? ==> r.outline == p.outline.value
    ensures p.outline.Absent? ==> r.outline == b.outline
    ensures p.chapters.Present? ==> r.chapters == p.chapters.value
    ensures p.chapters.Absent? ==> r.chapters == b.chapters
    ensures p.voiceSettings.Present? ==> r.voiceSettings == p.voiceSettings.value
    ensures p.voiceSettings.Absent? ==> r.voiceSettings == b.voiceSettings
  {
    BookData(
      p.title.Over(b.title),
      p.prompt.Over(b.prompt),
      p.outline.Over(b.outline),
      p.chapters.Over(b.chapters),
      p.voiceSettings.Over(b.voiceSettings))
  }

  /** The later field wins when both patches supply it. */
  function Then<T>(first: Field<T>, second: Field<T>): Field<T> {
    if second.Present? then second else first
  }

  /** The single patch with the effect of `p` followed by `q`. */
  function Compose(p: BookPatch, q: BookPatch): BookPatch {
    BookPatch(
      Then(p.title, q.title),
      Then(p.prompt, q.prompt),
      Then(p.outline, q.outline),
      Then(p.chapters, q.chapters),
      Then(p.voiceSettings, q.voiceSettings))
  }

  /** An empty patch changes nothing. */
  lemma UpdateNoChange(b: BookData)
    ensures UpdateBookData(b, NoChange) == b
  {
  }

  /** Two updates in a row are one update with the composed patch. */
  lemma UpdateCompose(b: BookData, p: BookPatch, q: BookPatch)
    ensures UpdateBookData(UpdateBookData(b, p), q) == UpdateBookData(b, Compose(p, q))
  {
  }

  /** Applying the same patch twice is applying it once. */
  lemma UpdateIdempotent(b: BookData, p: BookPatch)
    ensures UpdateBookData(UpdateBookData(b, p), p) == UpdateBookData(b, p)
  {
  }

  /** An update only depends on the old values of the fields it does not
      supply: a patch supplying every field forgets the old book. */
  lemma UpdateFullPatch(b1: BookData, b2: BookData, p: BookPatch)
    requires p.title.Present? && p.prompt.Present? && p.outline.Present?
    requires p.chapters.Present? && p.voiceSettings.Present?
    ensures UpdateBookData(b1, p) == UpdateBookData(b2, p)
  {
  }
}
