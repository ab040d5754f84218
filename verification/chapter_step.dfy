/** The chapter step (frontend/src/steps/ChapterGenerationStep.tsx): asking
    the server for chapters, storing them in the book, and moving on only
    once there are some. */
module ChapterStep {
  import opened Js
  import opened Text
  import opened Book
  import opened Wizard
  import Client
  import Server

  const OutlineMissing: string := "Outline is required before generating chapters."
  const ChaptersFailed: string := "Failed to generate chapters"
  const NoChaptersYet: string := "No chapters generated yet."

  /** How many UTF-16 code units of each chapter its card shows before the
      ellipsis. */
  const CardUnits: nat := 240

  /** The step's own state. */
  datatype ChapterUi = ChapterUi(isGenerating: bool, error: Option<string>)

  /** What one press of "generate" did. */
  datatype Generation = Generation(ui: ChapterUi, sent: Option<Server.ChapterRequest>, patch: Option<BookPatch>)

  /** `handleGenerateChapters`, given how the call went. Without an outline
      only the error changes and no request is made. */
  function HandleGenerateChapters(ui: ChapterUi, b: BookData, call: Client.Exchange<seq<string>>): (g: Generation)
    ensures !TruthyText(b.outline) ==> g == Generation(ui.(error := Some(OutlineMissing)), None, None)
    ensures TruthyText(b.outline) ==> g.sent == Some(Server.ChapterRequest(b.title, b.outline.value))
    ensures TruthyText(b.outline) ==> !g.ui.isGenerating
    ensures TruthyText(b.outline) && Client.Call(call).Resolved? ==>
      g.patch == Some(ChaptersPatch(Client.Call(call).value)) && g.ui.error.None?
    ensures TruthyText(b.outline) && Client.Call(call).Rejected? ==>
      g.patch.None? && g.ui.error == Some(CaughtMessage(Client.Call(call).reason, ChaptersFailed))
  {
    if !TruthyText(b.outline) then Generation(ui.(error := Some(OutlineMissing)), None, None)
    else
      var sent := Some(Server.ChapterRequest(b.title, b.outline.value));
      match Client.Call(call)
      case Resolved(chapters) => Generation(ChapterUi(false, None), sent, Some(ChaptersPatch(chapters)))
      case Rejected(t) => Generation(ChapterUi(false, Some(CaughtMessage(t, ChaptersFailed))), sent, None)
  }

  /** `handleContinue` on the wizard: advance only when the book has
      chapters. */
  function Continue(w: WizardState): (r: WizardState)
    ensures NonEmptyList(w.book.chapters) ==> r == GoToNextStep(w)
    ensures !NonEmptyList(w.book.chapters) ==> r == w
  {
    if NonEmptyList(w.book.chapters) then GoToNextStep(w) else w
  }

  /** The words around the chapter count in the line above the cards. */
  const SummaryLead: string := "Generated "
  const SummaryTail: string := " chapters."

  /** Reads the chapter count back out of a summary line; `None` for a
      line of another shape. */
  function SummaryCount(s: string): Option<nat> {
    if |s| >= |SummaryLead| + |SummaryTail| && s[..|SummaryLead|] == SummaryLead
       && s[|s| - |SummaryTail|..] == SummaryTail
    then ParseNat(s[|SummaryLead|..|s| - |SummaryTail|])
    else None
  }

  /** The line above the chapter cards: with chapters it reports how many,
      otherwise it says there are none yet. */
  function Summary(b: BookData): (s: string)
    ensures NonEmptyList(b.chapters) ==> SummaryCount(s) == Some(|b.chapters.value|)
    ensures !NonEmptyList(b.chapters) ==> s == NoChaptersYet
  {
    if NonEmptyList(b.chapters) then
      var n := |b.chapters.value|;
      Framed(SummaryLead, NatToString(n), SummaryTail);
      ParseNatToString(n);
      SummaryLead + NatToString(n) + SummaryTail
    else NoChaptersYet
  }

  /** The "none yet" line never reads as a count. */
  lemma NoChaptersYetHasNoCount()
    ensures SummaryCount(NoChaptersYet) == None
  {
    assert NoChaptersYet[0] != SummaryLead[0];
  }

  /** The summary tells books apart by their chapter count, and tells a
      book with chapters from one without. */
  lemma SummaryDistinguishes(b1: BookData, b2: BookData)
    requires Summary(b1) == Summary(b2)
    ensures NonEmptyList(b1.chapters) <==> NonEmptyList(b2.chapters)
    ensures NonEmptyList(b1.chapters) ==> |b1.chapters.value| == |b2.chapters.value|
  {
    NoChaptersYetHasNoCount();
  }

  /** One chapter card: its heading and the clipped text. */
  function Card(index: nat, chapter: string): (c: (string, string))
    ensures c.0 == "Chapter " + NatToString(index + 1)
    ensures ClippedTo(chapter, CardUnits, c.1)
    ensures JsLength(chapter) == |chapter| && |chapter| > CardUnits ==> c.1 == chapter[..CardUnits] + "\U{2026}"
  {
    ("Chapter " + NatToString(index + 1), Clip(chapter, CardUnits))
  }

  // ---------------------------------------------------------------------
  // Properties
  // ---------------------------------------------------------------------

  /** After a successful call the book holds exactly the returned chapters
      and nothing else changed; from the chapter step (step 3) the wizard
      then moves on to the voice step exactly when the server returned at
      least one chapter. */
  lemma GeneratedChaptersStored(w: WizardState, ui: ChapterUi, chapters: seq<string>)
    requires TruthyText(w.book.outline) && w.currentStep == 3
    ensures var g := HandleGenerateChapters(ui, w.book, Client.Answered(Client.OkResponse(chapters)));
            var w2 := UpdateBook(w, g.patch.value);
            w2.book == w.book.(chapters := Some(chapters))
            && Continue(w2).currentStep == if |chapters| > 0 then 4 else 3
  {
  }

  /** A failed call leaves the book alone and shows the server's message
      when the server gave one. */
  lemma ServerFailureShown(ui: ChapterUi, b: BookData, status: nat, detail: string)
    requires TruthyText(b.outline)
    ensures var g := HandleGenerateChapters(ui, b, Client.Answered(Client.Transmit<seq<string>>(Server.Failure(status, detail))));
            g.patch.None? && g.ui == ChapterUi(false, Some(detail))
  {
  }

  /** Distinct chapters get distinct headings. */
  lemma CardHeadingsDistinct(i: nat, j: nat, x: string, y: string)
    requires i != j
    ensures Card(i, x).0 != Card(j, y).0
  {
    var p := "Chapter ";
    if Card(i, x).0 == Card(j, y).0 {
      DropPrefix(p, NatToString(i + 1), NatToString(j + 1));
      NatToStringInjective(i + 1, j + 1);
    }
  }
}
