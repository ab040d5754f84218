/** The wizard's navigation in frontend/src/App.tsx: five steps, a current
    step clamped to 1..5, and completion flags that are only ever set. */
module Wizard {
  import opened Book

  /** A step of the progress rail. */
  datatype Step = Step(id: int, title: string, completed: bool)

  const StepCount: nat := 5

  /** `STEPS`, all not yet completed. */
  const InitialSteps: seq<Step> := [
    Step(1, "Book Setup", false),
    Step(2, "Review Outline", false),
    Step(3, "Generate Chapters", false),
    Step(4, "Voice Setup", false),
    Step(5, "Create Audiobook", false)
  ]

  /** The `App` component's state. */
  datatype WizardState = WizardState(currentStep: int, steps: seq<Step>, book: BookData)

  const InitialWizard: WizardState := WizardState(1, InitialSteps, EmptyBook)

  /** The step list still describes steps 1..5 in order with their titles. */
  predicate SameRail(steps: seq<Step>) {
    |steps| == StepCount
    && forall k :: 0 <= k < |steps| ==> steps[k].id == InitialSteps[k].id && steps[k].title == InitialSteps[k].title
  }

  /** What navigation keeps true: the rail is intact, the current step is in
      range, and every step before the current one is completed. */
  predicate Valid(w: WizardState) {
    && SameRail(w.steps)
    && 1 <= w.currentStep <= StepCount
    && forall k :: 0 <= k < |w.steps| && w.steps[k].id < w.currentStep ==> w.steps[k].completed
  }

  /** `steps.map(step => step.id === currentStep ? { ...step, completed: true } : step)`. */
  function MarkCompleted(steps: seq<Step>, id: int): (r: seq<Step>)
    ensures |r| == |steps|
    ensures forall k :: 0 <= k < |r| ==>
      r[k] == if steps[k].id == id then steps[k].(completed := true) else steps[k]
  {
    seq(|steps|, k requires 0 <= k < |steps| => if steps[k].id == id then steps[k].(completed := true) else steps[k])
  }

  /** `goToNextStep`. */
  function GoToNextStep(w: WizardState): (r: WizardState)
    ensures r.book == w.book
    ensures r.currentStep == if w.currentStep + 1 < StepCount then w.currentStep + 1 else StepCount
  {
    var next := if w.currentStep + 1 < StepCount then w.currentStep + 1 else StepCount;
    w.(steps := MarkCompleted(w.steps, w.currentStep), currentStep := next)
  }

  /** `goToPreviousStep`: the flags are left alone. */
  function GoToPreviousStep(w: WizardState): (r: WizardState)
    ensures r.book == w.book && r.steps == w.steps
    ensures r.currentStep == if w.currentStep - 1 > 1 then w.currentStep - 1 else 1
  {
    w.(currentStep := if w.currentStep - 1 > 1 then w.currentStep - 1 else 1)
  }

  /** `updateBookData` lifted to the wizard: navigation is untouched. */
  function UpdateBook(w: WizardState, p: BookPatch): (r: WizardState)
    ensures r.currentStep == w.currentStep && r.steps == w.steps
    ensures r.book == UpdateBookData(w.book, p)
  {
    w.(book := UpdateBookData(w.book, p))
  }

  // ---------------------------------------------------------------------
  // Properties
  // ---------------------------------------------------------------------

  lemma InitialValid()
    ensures Valid(InitialWizard)
  {
  }

  /** Both moves keep the wizard valid, so the current step never leaves
      1..5. */
  lemma NavigationPreservesValid(w: WizardState)
    requires Valid(w)
    ensures Valid(GoToNextStep(w)) && Valid(GoToPreviousStep(w))
  {
    var r := GoToNextStep(w);
    forall k | 0 <= k < |r.steps| && r.steps[k].id < r.currentStep
      ensures r.steps[k].completed
    {
      assert w.steps[k].id == k + 1;
    }
  }

  /** Moving on completes exactly the step whose id is the current step and
      leaves the other steps as they were; no flag is ever cleared. */
  lemma NextMarksOnlyCurrent(w: WizardState, k: nat)
    requires k < |w.steps|
    ensures GoToNextStep(w).steps[k].completed == (w.steps[k].completed || w.steps[k].id == w.currentStep)
    ensures w.steps[k].id != w.currentStep ==> GoToNextStep(w).steps[k] == w.steps[k]
    ensures GoToNextStep(w).steps[k].id == w.steps[k].id && GoToNextStep(w).steps[k].title == w.steps[k].title
  {
  }

  /** At the last step "next" still completes it but stays put; at the first
      step "back" stays put. */
  lemma NavigationClamps(w: WizardState)
    requires Valid(w)
    ensures w.currentStep == StepCount ==> GoToNextStep(w).currentStep == StepCount
    ensures w.currentStep == StepCount ==> GoToNextStep(w).steps[StepCount - 1].completed
    ensures w.currentStep == 1 ==> GoToPreviousStep(w) == w
  {
  }

  /** Going back and forth never loses completed steps. */
  lemma BackThenNextKeepsFlags(w: WizardState, k: nat)
    requires Valid(w) && k < StepCount && w.steps[k].completed
    ensures GoToNextStep(GoToPreviousStep(w)).steps[k].completed
  {
  }
}
