/** Step validation and step navigation of the questionnaire page
    (src/pages/Index.tsx): which answers each step requires, and how the
    "next" and "back" buttons move the step index. */
module Navigation {
  import opened Wrappers
  import opened Answers

  /** The page's step components: welcome, reason, glasses, contacts, ocular
      history, family history, general health, habits, review. */
  const StepCount := 9

  /** JavaScript `value.length`: defined on strings and arrays only. */
  function Length(v: Value): Option<nat> {
    match v
    case Str(s) => Some(|s|)
    case Arr(items) => Some(|items|)
    case _ => None
  }

  /** The fields a step requires to be truthy. */
  function RequiredFields(step: int): set<string> {
    if step == 0 then {"lang", "consent"}
    else if step == 1 then {"reason_list", "last_exam"}
    else if step == 2 then {"uses_glasses"}
    else if step == 3 then {"uses_contacts"}
    else if step == 7 then {"screens", "near_tasks", "night_drive", "outdoor", "photophobia", "sunglasses"}
    else if step == 8 then {"final_consent"}
    else {}
  }

  /** The requirement stated as a table: every required field is truthy, and
      on the reason step the reason list is not of length zero. */
  ghost predicate MeetsRequirements(step: int, d: Record) {
    && (forall f :: f in RequiredFields(step) ==> Truthy(Get(d, f)))
    && (step == 1 ==> Length(Get(d, "reason_list")) != Some(0))
  }

  /** `validateStep` without its error notifications. */
  function ValidateStep(step: int, d: Record): bool
  {
    match step
    case 0 => Truthy(Get(d, "lang")) && Truthy(Get(d, "consent"))
    case 1 =>
      var reasons := Get(d, "reason_list");
      Truthy(reasons) && Length(reasons) != Some(0) && Truthy(Get(d, "last_exam"))
    case 2 => Truthy(Get(d, "uses_glasses"))
    case 3 => Truthy(Get(d, "uses_contacts"))
    case 7 =>
      && Truthy(Get(d, "screens")) && Truthy(Get(d, "near_tasks")) && Truthy(Get(d, "night_drive"))
      && Truthy(Get(d, "outdoor")) && Truthy(Get(d, "photophobia")) && Truthy(Get(d, "sunglasses"))
    case 8 => Truthy(Get(d, "final_consent"))
    case _ => true
  }

  /** A step validates exactly when its required fields are answered. */
  lemma ValidateStepMeetsRequirements(step: int, d: Record)
    ensures ValidateStep(step, d) <==> MeetsRequirements(step, d)
  {
  }

  /** The history steps and every index outside the page's steps ask for
      nothing. */
  lemma UnlistedStepsAlwaysValid(step: int, d: Record)
    requires step !in {0, 1, 2, 3, 7, 8}
    ensures ValidateStep(step, d)
  {
  }

  /** The reason step fails on an empty reason list even though an empty
      array is truthy. */
  lemma EmptyReasonListFails(d: Record)
    requires Get(d, "reason_list") == Arr([])
    ensures !ValidateStep(1, d)
  {
    assert !MeetsRequirements(1, d);
  }

  /** The habits step does not look at the night-glare answer. */
  lemma NightGlareNotRequired(d: Record, v: Value)
    ensures ValidateStep(7, d["night_glare" := v]) == ValidateStep(7, d)
  {
    ValidateStepMeetsRequirements(7, d);
    ValidateStepMeetsRequirements(7, d["night_glare" := v]);
  }

  /** `handleNext`: nothing happens when the step does not validate; on the
      last step (`totalSteps - 1`) the questionnaire is submitted and the step
      stays; otherwise the step advances by one. `totalSteps` is `None` when
      the provider is given no step count, in which case `totalSteps - 1` is
      `NaN` and no step is the last one. */
  function HandleNext(step: int, totalSteps: Option<int>, d: Record): (next: int)
    ensures !ValidateStep(step, d) ==> next == step
    ensures ValidateStep(step, d) && totalSteps == Some(step + 1) ==> next == step
    ensures ValidateStep(step, d) && totalSteps != Some(step + 1) ==> next == step + 1
    ensures step <= next <= step + 1
  {
    if !ValidateStep(step, d) then step
    else if totalSteps.Some? && step == totalSteps.value - 1 then step
    else step + 1
  }

  /** `handleBack`: one step back, never below the first step. */
  function HandleBack(step: int): (prev: int)
    ensures step > 0 ==> prev == step - 1
    ensures step <= 0 ==> prev == step
    ensures step >= 0 ==> prev >= 0
  {
    if step > 0 then step - 1 else step
  }

  /** A click on a navigation button, with the answers as they are at that
      moment. */
  datatype Click = Next(data: Record) | Back

  /** The page as wired: the provider receives no step count. */
  function StepAsWired(step: int, c: Click): int {
    match c
    case Next(d) => HandleNext(step, None, d)
    case Back => HandleBack(step)
  }

  /** The page with the provider given the number of step components. */
  function Step(step: int, c: Click): (next: int)
    ensures 0 <= step < StepCount ==> 0 <= next < StepCount
  {
    match c
    case Next(d) => HandleNext(step, Some(StepCount), d)
    case Back => HandleBack(step)
  }

  /** The step reached after a series of clicks. */
  function Run(step: int, clicks: seq<Click>): int
    decreases |clicks|
  {
    if clicks == [] then step else Run(Step(step, clicks[0]), clicks[1..])
  }

  /** From any step of the page, no series of clicks leaves the page's steps. */
  lemma {:induction false} RunStaysOnPage(step: int, clicks: seq<Click>)
    requires 0 <= step < StepCount
    ensures 0 <= Run(step, clicks) < StepCount
    decreases |clicks|
  {
    if clicks != [] {
      RunStaysOnPage(Step(step, clicks[0]), clicks[1..]);
    }
  }

  /** As wired, confirming the review step moves past the last step
      component, to an index that has none. */
  lemma AsWiredOverrunsReview(d: Record)
    requires Truthy(Get(d, "final_consent"))
    ensures StepAsWired(StepCount - 1, Next(d)) == StepCount
  {
  }

  /** With the step count given, confirming the review step submits and
      stays on it. */
  lemma ReviewSubmitsInPlace(d: Record)
    requires Truthy(Get(d, "final_consent"))
    ensures Step(StepCount - 1, Next(d)) == StepCount - 1
  {
  }
}
