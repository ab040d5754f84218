/** The voice step (frontend/src/steps/VoiceSetupStep.tsx): default voice
    settings and their one-time write-back, the text a preview reads, the
    preview call and its outcome, and edits to the settings. */
module VoiceStep {
  import opened Js
  import opened Text
  import opened Book
  import Client
  import Server
  import Generator

  /** The delivery note used when the book has no voice settings yet. The
      audiobook step carries an identical copy. */
  const DefaultInstructions: string :=
    "Read with excitement and clarity. "
    + "Use varied intonation, subtle pauses, and a confident storyteller tone."

  const FallbackSettings: VoiceSettings := VoiceSettings("fable", 1.0, DefaultInstructions)

  /** Shown when the book has neither chapters, an outline nor a prompt. */
  const PlaceholderPreview: string := "This is a voice preview of your book."

  const PreviewFailed: string := "Failed to generate preview"

  /** How many UTF-16 code units of the preview text are displayed before
      the ellipsis. */
  const ShownPreviewUnits: nat := 260

  /** `bookData.voiceSettings ?? fallbackSettings`. */
  function EffectiveSettings(b: BookData): (v: VoiceSettings)
    ensures b.voiceSettings.Some? ==> v == b.voiceSettings.value
    ensures b.voiceSettings.None? ==> v == FallbackSettings
  {
    b.voiceSettings.GetOr(FallbackSettings)
  }

  /** The effect that stores the fallback when the book has no settings:
      the patch it sends, if any. */
  function WriteBack(b: BookData): (p: Option<BookPatch>)
    ensures p.Some? <==> b.voiceSettings.None?
  {
    if b.voiceSettings.None? then Some(VoiceSettingsPatch(FallbackSettings)) else None
  }

  /** The write-back fires at most once: after it the book has settings,
      and they are the ones the step was already using. */
  lemma WriteBackSettles(b: BookData)
    requires WriteBack(b).Some?
    ensures var b2 := UpdateBookData(b, WriteBack(b).value);
            WriteBack(b2).None? && EffectiveSettings(b2) == EffectiveSettings(b)
            && b2 == b.(voiceSettings := Some(FallbackSettings))
  {
  }

  /** The preview text: the first chapter when there are chapters, else a
      non-empty outline, else a non-empty prompt, else the placeholder. */
  function PreviewText(b: BookData): (t: string)
    ensures NonEmptyList(b.chapters) ==> t == b.chapters.value[0]
    ensures !NonEmptyList(b.chapters) && TruthyText(b.outline) ==> t == b.outline.value
    ensures !NonEmptyList(b.chapters) && !TruthyText(b.outline) ==>
      t == if b.prompt != "" then b.prompt else PlaceholderPreview
  {
    if NonEmptyList(b.chapters) then b.chapters.value[0]
    else if TruthyText(b.outline) then b.outline.value
    else if b.prompt != "" then b.prompt
    else PlaceholderPreview
  }

  /** The only way the preview text is empty is an empty first chapter. */
  lemma PreviewTextEmptyIff(b: BookData)
    ensures PreviewText(b) == "" <==> NonEmptyList(b.chapters) && b.chapters.value[0] == ""
  {
  }

  /** The text shown under the player. */
  function ShownPreview(b: BookData): (s: string)
    ensures ClippedTo(PreviewText(b), ShownPreviewUnits, s)
    ensures JsLength(PreviewText(b)) == |PreviewText(b)| && |PreviewText(b)| > ShownPreviewUnits ==>
      s == PreviewText(b)[..ShownPreviewUnits] + "\U{2026}"
  {
    Clip(PreviewText(b), ShownPreviewUnits)
  }

  /** The request `handlePreview` sends: the current settings, their
      instructions always included, and the preview text. */
  function PreviewRequestOf(b: BookData): (q: Server.VoicePreviewRequest)
    ensures q.voice == EffectiveSettings(b).voice && q.speed == EffectiveSettings(b).speed
    ensures q.instructions == Some(EffectiveSettings(b).instructions)
    ensures q.text == PreviewText(b)
  {
    var v := EffectiveSettings(b);
    Server.VoicePreviewRequest(v.voice, v.speed, Some(v.instructions), PreviewText(b))
  }

  /** The default note is not blank, so the server passes it on to the
      speech model for a book that has no settings of its own. */
  lemma FallbackInstructionsReachModel(b: BookData)
    requires b.voiceSettings.None?
    ensures Server.PreviewRequest(PreviewRequestOf(b)).instructions == Some(DefaultInstructions)
  {
    var opening := "Read with excitement and clarity. ";
    assert DefaultInstructions[0] == opening[0] == 'R';
    assert !IsBlank(DefaultInstructions);
  }

  /** The preview part of the step's state. */
  datatype PreviewUi = PreviewUi(previewUrl: Option<string>, isPreviewing: bool, error: Option<string>)

  /** `handlePreview`, given how the call went. The payload of a successful
      call stands for the object URL made from the returned audio. Also
      returns the URL that was revoked, if any. */
  function HandlePreview(ui: PreviewUi, call: Client.Exchange<string>): (r: (PreviewUi, Option<string>))
    ensures !r.0.isPreviewing
    ensures Client.PreviewCall(call).Resolved? ==> r.0 == PreviewUi(Some(Client.PreviewCall(call).value), false, None)
    ensures Client.PreviewCall(call).Resolved? ==> r.1 == if TruthyText(ui.previewUrl) then ui.previewUrl else None
    ensures Client.PreviewCall(call).Rejected? ==>
      r == (PreviewUi(ui.previewUrl, false, Some(CaughtMessage(Client.PreviewCall(call).reason, PreviewFailed))), None)
  {
    match Client.PreviewCall(call)
    case Resolved(url) =>
      (PreviewUi(Some(url), false, None), if TruthyText(ui.previewUrl) then ui.previewUrl else None)
    case Rejected(t) =>
      (PreviewUi(ui.previewUrl, false, Some(CaughtMessage(t, PreviewFailed))), None)
  }

  /** A rejection by the server shows the server's own message, and the
      previous preview stays playable. */
  lemma ServerRejectionShown(ui: PreviewUi, status: nat, detail: string)
    ensures var r := HandlePreview(ui, Client.Answered(Client.Transmit<string>(Server.Failure(status, detail))));
            r.0.error == Some(detail) && r.0.previewUrl == ui.previewUrl && r.1.None?
  {
  }

  /** `Partial<VoiceSettings>`. */
  datatype SettingsPatch = SettingsPatch(voice: Field<string>, speed: Field<real>, instructions: Field<string>)

  /** `updateVoiceSettings(updates)`: a patch of the book whose settings
      are the current ones with the updates laid over them. */
  function UpdateVoiceSettings(b: BookData, u: SettingsPatch): (p: BookPatch)
    ensures p.voiceSettings.Present? && p.voiceSettings.value.Some?
    ensures var v := p.voiceSettings.value.value;
            v.voice == u.voice.Over(EffectiveSettings(b).voice)
            && v.speed == u.speed.Over(EffectiveSettings(b).speed)
            && v.instructions == u.instructions.Over(EffectiveSettings(b).instructions)
  {
    var cur := EffectiveSettings(b);
    VoiceSettingsPatch(VoiceSettings(u.voice.Over(cur.voice), u.speed.Over(cur.speed), u.instructions.Over(cur.instructions)))
  }

  /** An edit touches nothing of the book but its voice settings, and a
      second, identical edit changes nothing more. */
  lemma UpdateVoiceSettingsLocal(b: BookData, u: SettingsPatch)
    ensures var b2 := UpdateBookData(b, UpdateVoiceSettings(b, u));
            b2.title == b.title && b2.prompt == b.prompt && b2.outline == b.outline && b2.chapters == b.chapters
            && UpdateBookData(b2, UpdateVoiceSettings(b2, u)) == b2
  {
  }

  /** The fallback settings and the server's defaults are different
      deliveries: a book without settings is not read with the server's
      own default note. */
  lemma FrontEndAndServerDefaultsDiffer()
    ensures DefaultInstructions != Generator.DefaultInstructions
  {
    var ours := "Read with excitement and clarity. ";
    var theirs := "Read with excitement and enthusiasm! ";
    assert DefaultInstructions[25] == ours[25] == 'c';
    assert Generator.DefaultInstructions[25] == theirs[25] == 'e';
  }
}
