/** The audiobook render job as the last wizard step drives it
    (`handleGenerate` in frontend/src/steps/AudiobookStep.tsx): check the
    inputs, reset the display, start a job, then poll its status until it
    completes with a result, reports an error, or a call throws. Starting
    the job and each status fetch are given as the way their `await`
    settled; the pause between polls is left out. */
module RenderJob {
  import opened Js
  import opened Text
  import opened Book
  import opened Duration
  import Client
  import VoiceStep
  import Generator

  const InputsMissing: string := "Chapters and outline are required before generating the audiobook."
  const RenderFailed: string := "Failed to generate audiobook"

  /** Time-based progress never shows more than this. */
  const ProgressCap: int := 99

  // ---------------------------------------------------------------------
  // Data
  // ---------------------------------------------------------------------

  /** What starting a job returns. */
  datatype Job = Job(jobId: string, totalChapters: int)

  /** The `result` member of a status, as the server sends it. */
  datatype JobResult = JobResult(folder: string, audioFiles: seq<string>, downloadUrl: Nullable<string>)

  /** One status snapshot of the job. Numbers are whole numbers here. */
  datatype JobStatus = JobStatus(
    status: string,
    progress: int,
    completedChapters: int,
    totalChapters: int,
    elapsedSeconds: Nullable<int>,
    estimatedSeconds: Nullable<int>,
    result: Nullable<JobResult>,
    error: Nullable<string>)

  /** The result the step keeps: a missing download link becomes `null`. */
  datatype RenderResult = RenderResult(folder: string, audioFiles: seq<string>, downloadUrl: Option<string>)

  /** The step's state. */
  datatype View = View(
    isGenerating: bool,
    error: Option<string>,
    result: Option<RenderResult>,
    progress: int,
    completedChapters: int,
    totalChapters: int,
    elapsedSeconds: Option<int>,
    estimatedSeconds: Option<int>)

  const InitialView: View := View(false, None, None, 0, 0, 0, None, None)

  /** The display right after a submission passed validation. */
  const ResetView: View := View(true, None, None, 0, 0, 0, None, None)

  /** How a status fetch settled. */
  type Poll = Client.Settled<JobStatus>

  // ---------------------------------------------------------------------
  // Rounding
  // ---------------------------------------------------------------------

  /** The quotient n / d with a positive denominator. */
  function Numerator(n: int, d: int): int {
    if d > 0 then n else -n
  }

  function Denominator(n: int, d: int): int {
    if d > 0 then d else -d
  }

  /** r is the integer nearest to n / d, halves going up: r - 1/2 <= n / d
      < r + 1/2, multiplied out. */
  predicate RoundsTo(r: int, n: int, d: int) {
    var num, den := Numerator(n, d), Denominator(n, d);
    (2 * r - 1) * den <= 2 * num < (2 * r + 1) * den
  }

  lemma DivBounds(a: int, b: int)
    requires b > 0
    ensures b * (a / b) <= a < b * (a / b) + b
  {
  }

  /** `Math.round(n / d)`, exactly. */
  function JsRound(n: int, d: int): (r: int)
    requires d != 0
    ensures RoundsTo(r, n, d)
  {
    var num, den := Numerator(n, d), Denominator(n, d);
    var q := (2 * num + den) / (2 * den);
    DivBounds(2 * num + den, 2 * den);
    assert (2 * q - 1) * den == 2 * den * q - den && (2 * q + 1) * den == 2 * den * q + den;
    q
  }

  lemma MulLeft(a: int, b: int, c: int)
    requires a <= b && c > 0
    ensures a * c <= b * c
  {
  }

  /** Only one integer rounds from a quotient, so `JsRound` is determined
      by its contract. */
  lemma RoundsToUnique(r1: int, r2: int, n: int, d: int)
    requires d != 0 && RoundsTo(r1, n, d) && RoundsTo(r2, n, d)
    ensures r1 == r2
  {
    var den := Denominator(n, d);
    if r1 < r2 {
      MulLeft(2 * r1 + 1, 2 * r2 - 1, den);
    } else if r2 < r1 {
      MulLeft(2 * r2 + 1, 2 * r1 - 1, den);
    }
  }

  // ---------------------------------------------------------------------
  // One status snapshot
  // ---------------------------------------------------------------------

  /** Progress is derived from time when the snapshot has an elapsed time
      and a non-zero estimate. */
  predicate TimeBased(s: JobStatus) {
    s.elapsedSeconds.Defined? && s.estimatedSeconds.Defined? && s.estimatedSeconds.value != 0
  }

  /** `derivedProgress`: the elapsed share of the estimate in percent,
      rounded and capped at 99, or else the server's own figure. There is
      no lower bound. */
  function DerivedProgress(s: JobStatus): (p: int)
    ensures TimeBased(s) ==> p <= ProgressCap
    ensures TimeBased(s) && p < ProgressCap ==>
      RoundsTo(p, 100 * s.elapsedSeconds.value, s.estimatedSeconds.value)
    ensures TimeBased(s) && p == ProgressCap ==>
      (2 * ProgressCap - 1) * Denominator(100 * s.elapsedSeconds.value, s.estimatedSeconds.value)
      <= 2 * Numerator(100 * s.elapsedSeconds.value, s.estimatedSeconds.value)
    ensures !TimeBased(s) ==> p == s.progress
  {
    if TimeBased(s) then
      var r := JsRound(100 * s.elapsedSeconds.value, s.estimatedSeconds.value);
      if r < ProgressCap then r
      else
        MulLeft(2 * ProgressCap - 1, 2 * r - 1, Denominator(100 * s.elapsedSeconds.value, s.estimatedSeconds.value));
        ProgressCap
    else s.progress
  }

  /** The five display fields a snapshot sets; nothing else changes. */
  function Observe(v: View, s: JobStatus): (r: View)
    ensures r.isGenerating == v.isGenerating && r.error == v.error && r.result == v.result
    ensures r.progress == DerivedProgress(s)
    ensures r.completedChapters == s.completedChapters && r.totalChapters == s.totalChapters
    ensures r.elapsedSeconds == Coalesce(s.elapsedSeconds) && r.estimatedSeconds == Coalesce(s.estimatedSeconds)
  {
    v.(progress := DerivedProgress(s),
       completedChapters := s.completedChapters,
       totalChapters := s.totalChapters,
       elapsedSeconds := Coalesce(s.elapsedSeconds),
       estimatedSeconds := Coalesce(s.estimatedSeconds))
  }

  /** What a snapshot means for the loop. */
  datatype Verdict = KeepPolling | Finished(result: RenderResult) | JobFailed(message: string)

  /** The result kept from the server's. */
  function Keep(j: JobResult): (r: RenderResult)
    ensures r.folder == j.folder && r.audioFiles == j.audioFiles
    ensures r.downloadUrl == Coalesce(j.downloadUrl)
  {
    RenderResult(j.folder, j.audioFiles, Coalesce(j.downloadUrl))
  }

  /** The loop stops on "completed" only when a result came with it, and on
      "error" with the server's message or the fallback; anything else,
      including "completed" without a result, keeps it polling. */
  function VerdictOf(s: JobStatus): (d: Verdict)
    ensures d.Finished? <==> s.status == "completed" && s.result.Defined?
    ensures d.Finished? ==> d.result == Keep(s.result.value)
    ensures d.JobFailed? <==> s.status == "error"
    ensures d.JobFailed? ==> d.message == CoalesceOr(s.error, RenderFailed)
  {
    if s.status == "completed" && s.result.Defined? then Finished(Keep(s.result.value))
    else if s.status == "error" then
      // `throw new Error(message)` caught as an Error keeps the message
      JobFailed(CaughtMessage(ErrorObject(CoalesceOr(s.error, RenderFailed)), RenderFailed))
    else KeepPolling
  }

  /** Whether a poll ends the loop. */
  predicate Stops(p: Poll) {
    p.Rejected? || !VerdictOf(p.value).KeepPolling?
  }

  // ---------------------------------------------------------------------
  // The poll loop
  // ---------------------------------------------------------------------

  /** The view after the loop has seen `polls`, in order. When none of them
      stops the loop it is still running. */
  function Drive(v: View, polls: seq<Poll>): View
    decreases |polls|
  {
    if |polls| == 0 then v
    else match polls[0]
      case Rejected(t) => v.(error := Some(CaughtMessage(t, RenderFailed)), isGenerating := false)
      case Resolved(s) =>
        var seen := Observe(v, s);
        match VerdictOf(s)
        case Finished(res) => seen.(result := Some(res), isGenerating := false)
        case JobFailed(m) => seen.(error := Some(m), isGenerating := false)
        case KeepPolling => Drive(seen, polls[1..])
  }

  /** How many status fetches the loop makes. */
  function Consumed(polls: seq<Poll>): (n: nat)
    ensures n <= |polls|
    decreases |polls|
  {
    if |polls| == 0 then 0
    else if Stops(polls[0]) then 1
    else 1 + Consumed(polls[1..])
  }

  /** The index of the first poll that stops the loop, if any. */
  function FirstStop(polls: seq<Poll>): (k: Option<nat>)
    ensures k.Some? ==> k.value < |polls| && Stops(polls[k.value])
    ensures k.Some? ==> forall i :: 0 <= i < k.value ==> !Stops(polls[i])
    ensures k.None? ==> forall i :: 0 <= i < |polls| ==> !Stops(polls[i])
    decreases |polls|
  {
    if |polls| == 0 then None
    else if Stops(polls[0]) then Some(0)
    else match FirstStop(polls[1..])
      case None => None
      case Some(k) => Some(k + 1)
  }

  /** The loop as written: fetch, show, stop on a terminal status or a
      thrown error, otherwise fetch again. */
  method PollJob(v0: View, polls: seq<Poll>) returns (v: View, fetched: nat)
    ensures v == Drive(v0, polls)
    ensures fetched == Consumed(polls)
  {
    v := v0;
    fetched := 0;
    var isComplete := false;
    while !isComplete && fetched < |polls|
      invariant fetched <= |polls|
      invariant !isComplete ==> Drive(v, polls[fetched..]) == Drive(v0, polls)
      invariant !isComplete ==> fetched + Consumed(polls[fetched..]) == Consumed(polls)
      invariant isComplete ==> v == Drive(v0, polls) && fetched == Consumed(polls)
      decreases |polls| - fetched, if isComplete then 0 else 1
    {
      var rest := polls[fetched..];
      assert rest[1..] == polls[fetched + 1..];
      fetched := fetched + 1;
      match rest[0]
      case Rejected(t) =>
        v := v.(error := Some(CaughtMessage(t, RenderFailed)), isGenerating := false);
        isComplete := true;
      case Resolved(status) =>
        v := Observe(v, status);
        match VerdictOf(status)
        case Finished(res) =>
          v := v.(result := Some(res), isGenerating := false);
          isComplete := true;
        case JobFailed(m) =>
          v := v.(error := Some(m), isGenerating := false);
          isComplete := true;
        case KeepPolling =>
    }
    if !isComplete {
      assert polls[fetched..] == [];
    }
  }

  // ---------------------------------------------------------------------
  // Submitting
  // ---------------------------------------------------------------------

  /** What one press of "Generate Audiobook" did: the resulting view, the
      request that started the job (if it got that far), and the number of
      status fetches. */
  datatype Submission = Submission(view: View, sent: Option<Client.AudiobookPayload>, fetched: nat)

  /** The request a valid book starts the job with: the effective voice
      settings with their instructions, and never the outline narration. */
  function StartRequest(b: BookData): (p: Client.AudiobookPayload)
    requires NonEmptyList(b.chapters) && TruthyText(b.outline)
    ensures p.title == b.title && p.outline == b.outline.value && p.chapters == b.chapters.value
    ensures !p.includeOutline
    ensures p.voice == VoiceStep.EffectiveSettings(b).voice && p.speed == VoiceStep.EffectiveSettings(b).speed
    ensures p.instructions == Some(VoiceStep.EffectiveSettings(b).instructions)
  {
    var settings := VoiceStep.EffectiveSettings(b);
    Client.AudiobookPayload(b.title, b.outline.value, b.chapters.value, settings.voice, settings.speed,
                            false, Some(settings.instructions))
  }

  /** `handleGenerate`, given how starting the job and each status fetch
      settled. */
  function HandleGenerate(v: View, b: BookData, start: Client.Settled<Job>, polls: seq<Poll>): (r: Submission)
    ensures !NonEmptyList(b.chapters) || !TruthyText(b.outline) ==>
      r == Submission(v.(error := Some(InputsMissing)), None, 0)
    ensures NonEmptyList(b.chapters) && TruthyText(b.outline) ==> r.sent == Some(StartRequest(b))
    ensures start.Rejected? && r.sent.Some? ==>
      r.view == ResetView.(isGenerating := false, error := Some(CaughtMessage(start.reason, RenderFailed))) && r.fetched == 0
    ensures start.Resolved? && r.sent.Some? ==>
      r.view == Drive(ResetView.(totalChapters := start.value.totalChapters), polls) && r.fetched == Consumed(polls)
  {
    if !NonEmptyList(b.chapters) || !TruthyText(b.outline) then
      Submission(v.(error := Some(InputsMissing)), None, 0)
    else
      var sent := Some(StartRequest(b));
      match start
      case Rejected(t) =>
        Submission(ResetView.(isGenerating := false, error := Some(CaughtMessage(t, RenderFailed))), sent, 0)
      case Resolved(job) =>
        Submission(Drive(ResetView.(totalChapters := job.totalChapters), polls), sent, Consumed(polls))
  }

  // ---------------------------------------------------------------------
  // What the user sees
  // ---------------------------------------------------------------------

  /** The error banner shows only a non-empty message. */
  predicate ErrorShown(v: View) {
    TruthyText(v.error)
  }

  /** The words between the two clocks of the time footnote. */
  const TimesJoint: string := " elapsed of ~"

  /** The first footnote under the progress bar: times when both are known
      (never below 0 elapsed, never below 1 estimated), else chapter
      counts. */
  function Footnote(v: View): (r: string)
    ensures v.elapsedSeconds.Some? && v.estimatedSeconds.Some? ==>
      var shown := if v.elapsedSeconds.value > 0 then v.elapsedSeconds.value else 0;
      |FormatClock(shown)| <= |r| && r[..|FormatClock(shown)|] == FormatClock(shown)
    ensures !(v.elapsedSeconds.Some? && v.estimatedSeconds.Some?) ==>
      r == IntToString(v.completedChapters) + " of " + IntToString(v.totalChapters) + " chapters rendered"
  {
    if v.elapsedSeconds.Some? && v.estimatedSeconds.Some? then
      var shown := if v.elapsedSeconds.value > 0 then v.elapsedSeconds.value else 0;
      var total := if v.estimatedSeconds.value > 1 then v.estimatedSeconds.value else 1;
      FormatClock(shown) + (TimesJoint + FormatClock(total))
    else IntToString(v.completedChapters) + " of " + IntToString(v.totalChapters) + " chapters rendered"
  }

  /** The second footnote appears when either chapter count is non-zero. */
  predicate CountsShown(v: View) {
    v.completedChapters != 0 || v.totalChapters != 0
  }

  // ---------------------------------------------------------------------
  // Properties
  // ---------------------------------------------------------------------

  /** A snapshot sets the display from itself alone: whatever the step
      showed before is forgotten. */
  lemma ObserveForgets(v1: View, v2: View, s: JobStatus)
    ensures var a, b := Observe(v1, s), Observe(v2, s);
            a.progress == b.progress && a.completedChapters == b.completedChapters
            && a.totalChapters == b.totalChapters && a.elapsedSeconds == b.elapsedSeconds
            && a.estimatedSeconds == b.estimatedSeconds
  {
  }

  /** With a non-negative elapsed time and a positive estimate the bar
      shows 0..99, and 99 once the estimate is used up. */
  lemma ProgressInRange(s: JobStatus)
    requires s.elapsedSeconds.Defined? && s.estimatedSeconds.Defined?
    requires s.elapsedSeconds.value >= 0 && s.estimatedSeconds.value > 0
    ensures 0 <= DerivedProgress(s) <= ProgressCap
    ensures s.elapsedSeconds.value >= s.estimatedSeconds.value ==> DerivedProgress(s) == ProgressCap
  {
    var n, d := 100 * s.elapsedSeconds.value, s.estimatedSeconds.value;
    var r := JsRound(n, d);
    if r < 0 {
      MulLeft(2 * r + 1, -1, d);
    }
    if s.elapsedSeconds.value >= s.estimatedSeconds.value && r < ProgressCap {
      MulLeft(2 * r + 1, 2 * ProgressCap - 1, d);
    }
  }

  /** Nothing clamps from below: with a positive estimate the bar shows a
      negative percentage exactly when the elapsed share rounds below zero,
      that is when elapsed / estimate < -1/200. */
  lemma NoLowerClamp(s: JobStatus)
    requires s.elapsedSeconds.Defined? && s.estimatedSeconds.Defined? && s.estimatedSeconds.value > 0
    ensures DerivedProgress(s) < 0 <==> 200 * s.elapsedSeconds.value + s.estimatedSeconds.value < 0
  {
    var e, d := s.elapsedSeconds.value, s.estimatedSeconds.value;
    var r := JsRound(100 * e, d);
    if r < 0 {
      MulLeft(2 * r + 1, -1, d);
    } else {
      MulLeft(-1, 2 * r - 1, d);
    }
  }

  /** A zero estimate never divides: the server's figure is shown. */
  lemma ZeroEstimateUsesServerProgress(s: JobStatus)
    requires s.estimatedSeconds == Defined(0) || !s.elapsedSeconds.Defined?
    ensures DerivedProgress(s) == s.progress
  {
  }

  /** Before the first status arrives the display is cleared, apart from
      the job's chapter count, and shows the job as running. */
  lemma ResetBeforeFirstPoll(v: View, b: BookData, job: Job)
    requires NonEmptyList(b.chapters) && TruthyText(b.outline)
    ensures var r := HandleGenerate(v, b, Client.Resolved(job), []).view;
            r.isGenerating && r.error.None? && r.result.None? && r.progress == 0
            && r.completedChapters == 0 && r.totalChapters == job.totalChapters
            && r.elapsedSeconds.None? && r.estimatedSeconds.None?
  {
  }

  /** Once a poll stops the loop, later polls are never fetched and change
      nothing. */
  lemma {:induction false} DriveIgnoresLaterPolls(v: View, polls: seq<Poll>, more: seq<Poll>)
    requires FirstStop(polls).Some?
    ensures Drive(v, polls + more) == Drive(v, polls)
    ensures Consumed(polls + more) == Consumed(polls) == FirstStop(polls).value + 1
    decreases |polls|
  {
    assert (polls + more)[0] == polls[0];
    if !Stops(polls[0]) {
      assert (polls + more)[1..] == polls[1..] + more;
      DriveIgnoresLaterPolls(Observe(v, polls[0].value), polls[1..], more);
    }
  }

  /** The outcome of the loop from a freshly reset view, with the poll that
      stopped it as the reference: nothing stopped it and it still runs
      with neither result nor error; or it stopped, is no longer
      generating, and has a result exactly when that poll was a completed
      status with a result, an error exactly otherwise. */
  lemma {:induction false} DriveOutcome(v: View, polls: seq<Poll>)
    requires v.isGenerating && v.error.None? && v.result.None?
    ensures var r := Drive(v, polls);
            FirstStop(polls).None? ==> r.isGenerating && r.error.None? && r.result.None?
    ensures var r := Drive(v, polls);
            FirstStop(polls).Some? ==>
              var p := polls[FirstStop(polls).value];
              && !r.isGenerating
              && (r.result.Some? <==> p.Resolved? && VerdictOf(p.value).Finished?)
              && (r.error.Some? <==> !(p.Resolved? && VerdictOf(p.value).Finished?))
    ensures var r := Drive(v, polls);
            FirstStop(polls).Some? && polls[FirstStop(polls).value].Rejected? ==>
              r.error == Some(CaughtMessage(polls[FirstStop(polls).value].reason, RenderFailed))
    ensures var r := Drive(v, polls);
            FirstStop(polls).Some? && polls[FirstStop(polls).value].Resolved? ==>
              var d := VerdictOf(polls[FirstStop(polls).value].value);
              (d.Finished? ==> r.result == Some(d.result)) && (d.JobFailed? ==> r.error == Some(d.message))
    decreases |polls|
  {
    if |polls| > 0 && !Stops(polls[0]) {
      var seen := Observe(v, polls[0].value);
      DriveOutcome(seen, polls[1..]);
    }
  }

  /** The display shows the last status fetched: when the loop ends on a
      status, or has fetched statuses and is still running, the counts and
      times are that status's. */
  lemma {:induction false} DriveShowsLastStatus(v: View, polls: seq<Poll>)
    requires |polls| > 0
    requires FirstStop(polls).None? || polls[FirstStop(polls).value].Resolved?
    ensures var last := polls[Consumed(polls) - 1];
            last.Resolved? && Drive(v, polls) == Observe(Drive(v, polls), last.value).(
              isGenerating := Drive(v, polls).isGenerating,
              error := Drive(v, polls).error,
              result := Drive(v, polls).result)
    decreases |polls|
  {
    if !Stops(polls[0]) && |polls| > 1 {
      var seen := Observe(v, polls[0].value);
      if FirstStop(polls).Some? {
        assert polls[1..][FirstStop(polls[1..]).value] == polls[FirstStop(polls).value];
      }
      DriveShowsLastStatus(seen, polls[1..]);
      assert polls[1..][Consumed(polls[1..]) - 1] == polls[Consumed(polls) - 1];
    }
  }

  /** Result and error never show together after a submission, and a
      finished submission is no longer generating. */
  lemma SubmissionExclusive(v: View, b: BookData, start: Client.Settled<Job>, polls: seq<Poll>)
    requires NonEmptyList(b.chapters) && TruthyText(b.outline)
    ensures var r := HandleGenerate(v, b, start, polls).view;
            !(r.result.Some? && r.error.Some?)
    ensures var r := HandleGenerate(v, b, start, polls).view;
            r.isGenerating <==> start.Resolved? && FirstStop(polls).None?
  {
    if start.Resolved? {
      DriveOutcome(ResetView.(totalChapters := start.value.totalChapters), polls);
    }
  }

  /** The job is always started without the outline narration, so the
      server renders chapters only, with the book's or the fallback
      voice. */
  lemma ServerRendersChaptersOnly(b: BookData)
    requires NonEmptyList(b.chapters) && TruthyText(b.outline)
    ensures !Client.ServerReads(Client.ToBody(StartRequest(b))).includeOutline
    ensures b.voiceSettings.None? ==>
      Client.ServerReads(Client.ToBody(StartRequest(b))).instructions == Some(VoiceStep.DefaultInstructions)
  {
  }

  /** The note the speech model gets for a wizard book: the step's own
      default for a book without settings, the stored text when it is not
      empty, and the generator's default only when the stored text is empty
      or is that default. */
  lemma WizardNarrationNote(b: BookData)
    requires NonEmptyList(b.chapters) && TruthyText(b.outline)
    ensures var note := Generator.EffectiveInstructions(Client.ServerReads(Client.ToBody(StartRequest(b))).instructions);
      && (b.voiceSettings.None? ==> note == VoiceStep.DefaultInstructions)
      && (b.voiceSettings.Some? && b.voiceSettings.value.instructions != "" ==> note == b.voiceSettings.value.instructions)
      && (note == Generator.DefaultInstructions <==>
            b.voiceSettings.Some? && (b.voiceSettings.value.instructions == ""
                                      || b.voiceSettings.value.instructions == Generator.DefaultInstructions))
  {
    VoiceStep.FrontEndAndServerDefaultsDiffer();
  }

  /** A job that fails leaves no result and no progress block, and shows
      a banner unless the server's message is the empty string: a missing
      message falls back to the default, an empty one shows nothing. */
  lemma EmptyErrorShowsNothing(v: View, b: BookData, job: Job, s: JobStatus)
    requires NonEmptyList(b.chapters) && TruthyText(b.outline)
    requires s.status == "error"
    ensures var r := HandleGenerate(v, b, Client.Resolved(job), [Client.Resolved(s)]).view;
            r.result.None? && !r.isGenerating && (ErrorShown(r) <==> s.error != Defined(""))
  {
  }

  /** The time footnote reads back completely: the elapsed clock gives the
      elapsed seconds (never below 0), then come the words " elapsed of ~",
      then a clock that gives the estimate (never below 1). By
      `Duration.ClockReadBack` each clock is the one `formatDuration`
      prints for that number. */
  lemma FootnoteReadable(v: View)
    requires v.elapsedSeconds.Some? && v.estimatedSeconds.Some?
    ensures var shown := if v.elapsedSeconds.value > 0 then v.elapsedSeconds.value else 0;
            var total := if v.estimatedSeconds.value > 1 then v.estimatedSeconds.value else 1;
            var r, n := Footnote(v), |FormatClock(shown)|;
            n + |TimesJoint| <= |r|
            && ReadClock(r[..n]) == Some(shown)
            && r[n..n + |TimesJoint|] == TimesJoint
            && ReadClock(r[n + |TimesJoint|..]) == Some(total)
  {
    var shown := if v.elapsedSeconds.value > 0 then v.elapsedSeconds.value else 0;
    var total := if v.estimatedSeconds.value > 1 then v.estimatedSeconds.value else 1;
    var p, q := FormatClock(shown), FormatClock(total);
    assert Footnote(v) == p + TimesJoint + q;
    Framed(p, TimesJoint, q);
    FormatClockRoundTrip(shown);
    FormatClockRoundTrip(total);
  }
}
