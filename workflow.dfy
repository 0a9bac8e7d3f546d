/** The fixed six-stage approval workflow and the completion percentage of a
    project at a given stage (`workflow_steps` and `calculate_progress`). */
module Workflow {
  import opened Common

  /** The ordered stage names; the list never changes while the tracker runs. */
  const Steps: seq<string> := [
    "Initial Engagement",
    "SPIA Form Sent",
    "SPIA Form Completed",
    "Standards Sent",
    "Proof Submitted",
    "Review & Approval"
  ]

  /** A non-empty stage name that is not in `Steps` (`list.index` raises
      `ValueError` for it). */
  datatype StepError = UnknownStep(step: string)

  /** Percentage of the workflow done when `step` is the current stage:
      0 for the empty stage, otherwise the 1-based position over the stage
      count, times 100, truncated. */
  function Progress(step: string): (r: Result<nat, StepError>)
    ensures step == "" ==> r == Ok(0)
    ensures r.Err? <==> step != "" && step !in Steps
    ensures r.Err? ==> r.error == UnknownStep(step)
    ensures r.Ok? ==> r.value <= 100
    ensures r.Ok? && step != "" ==> 16 <= r.value
  {
    if step == "" then Ok(0)
    else match IndexOf(Steps, step)
      case None => Err(UnknownStep(step))
      case Some(i) => Ok((i + 1) * 100 / |Steps|)
  }

  /** No stage name occurs twice in the list. */
  lemma StepsDistinct()
    ensures forall j, k :: 0 <= j < k < |Steps| ==> Steps[j] != Steps[k]
  {
    assert Steps[1][1] != Steps[3][1];
  }

  /** The stage at index `i` gives `((i + 1) * 100) / 6`. */
  lemma ProgressOfStep(i: nat)
    requires i < |Steps|
    ensures Progress(Steps[i]) == Ok((i + 1) * 100 / 6)
  {
    StepsDistinct();
    IndexOfDistinct(Steps, i);
  }

  /** A later stage always shows a strictly larger percentage. */
  lemma ProgressIncreasing(i: nat, j: nat)
    requires i < j < |Steps|
    ensures Progress(Steps[i]).Ok? && Progress(Steps[j]).Ok?
    ensures Progress(Steps[i]).value < Progress(Steps[j]).value
  {
    ProgressOfStep(i);
    ProgressOfStep(j);
  }

  /** The first stage shows 16 percent. */
  lemma ProgressFirstStep()
    ensures Progress("Initial Engagement") == Ok(16)
  {
    ProgressOfStep(0);
  }

  /** The last stage shows 100 percent. */
  lemma ProgressLastStep()
    ensures Progress("Review & Approval") == Ok(100)
  {
    ProgressOfStep(5);
  }

  /** A stage name outside the catalogue is reported, not mapped to a number. */
  lemma ProgressUnknownExample()
    ensures Progress("Nonexistent Stage") == Err(UnknownStep("Nonexistent Stage"))
  {
    assert "Nonexistent Stage" !in Steps;
  }
}
