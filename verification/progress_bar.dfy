/** What the progress rail (frontend/src/components/ProgressBar.tsx) shows
    for each step: a state, a status label and a marker. */
module ProgressBar {
  import opened Text
  import opened Wizard

  datatype StepState = Completed | Current | Upcoming

  /** A completed step stays completed even when it is the current one. */
  function StateOf(step: Step, currentStep: int): (s: StepState)
    ensures s == Completed <==> step.completed
    ensures s == Current <==> !step.completed && step.id == currentStep
    ensures s == Upcoming <==> !step.completed && step.id != currentStep
  {
    if step.completed then Completed
    else if currentStep == step.id then Current
    else Upcoming
  }

  /** The status label, computed by the source with its own conditions. */
  function StatusLabel(step: Step, currentStep: int): (r: string)
    ensures r == LabelFor(StateOf(step, currentStep))
  {
    if step.completed then "Completed"
    else if currentStep == step.id then "In progress"
    else "Up next"
  }

  /** The label each state stands for. */
  function LabelFor(s: StepState): string {
    match s
    case Completed => "Completed"
    case Current => "In progress"
    case Upcoming => "Up next"
  }

  /** The marker: a check mark for a completed step, else its number,
      which never prints as a check mark. */
  function Marker(step: Step): (r: string)
    ensures r == "\U{2713}" <==> step.completed
    ensures !step.completed ==> r == IntToString(step.id)
  {
    if step.completed then "\U{2713}"
    else
      NumberNotCheck(step.id);
      IntToString(step.id)
  }


  /** The label always matches the state, and different states get
      different labels. */
  lemma LabelMatchesState(step: Step, currentStep: int, other: StepState)
    ensures StatusLabel(step, currentStep) == LabelFor(StateOf(step, currentStep))
    ensures LabelFor(other) == StatusLabel(step, currentStep) <==> other == StateOf(step, currentStep)
  {
  }

  /** A number never prints as the check mark. */
  lemma NumberNotCheck(id: int)
    ensures IntToString(id) != "\U{2713}"
  {
    var s := IntToString(id);
    if id < 0 {
      assert s[0] == '-';
    } else {
      assert IsDigit(s[0]);
    }
  }


  /** In a valid wizard no two steps are shown as current, and the current
      step is shown as current unless it is already completed. */
  lemma AtMostOneCurrent(w: WizardState, i: nat, j: nat)
    requires Valid(w) && i < |w.steps| && j < |w.steps|
    requires StateOf(w.steps[i], w.currentStep) == Current && StateOf(w.steps[j], w.currentStep) == Current
    ensures i == j
  {
    assert w.steps[i].id == i + 1 && w.steps[j].id == j + 1;
  }

  lemma CurrentShown(w: WizardState)
    requires Valid(w)
    ensures var s := w.steps[w.currentStep - 1];
            StateOf(s, w.currentStep) == (if s.completed then Completed else Current)
  {
    assert w.steps[w.currentStep - 1].id == w.currentStep;
  }

  /** Every step before the current one is shown as completed, and after
      "next" the step that was current is. */
  lemma EarlierStepsCompleted(w: WizardState, k: nat)
    requires Valid(w) && k < |w.steps| && w.steps[k].id < w.currentStep
    ensures StateOf(w.steps[k], w.currentStep) == Completed
  {
  }

  lemma NextShowsCompleted(w: WizardState)
    requires Valid(w)
    ensures var r := GoToNextStep(w);
            StateOf(r.steps[w.currentStep - 1], r.currentStep) == Completed
  {
    assert w.steps[w.currentStep - 1].id == w.currentStep;
  }
}
