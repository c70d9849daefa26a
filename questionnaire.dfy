/**
 * The five-step questionnaire sheet: the validation schema of each step, the
 * step navigator (current step and the data stored per step) and the progress
 * bar.
 */
module Questionnaire {

  /** A form field as the form library hands it over: text inputs and the confirmation checkbox. */
  datatype FieldValue = Text(text: string) | Flag(flag: bool)

  /** The values of one step's form, by field name (`methods.getValues()`). */
  type FieldValues = map<string, FieldValue>

  /** One rule of a step's zod schema. */
  datatype Rule =
    | MinLength(field: string, min: nat)  // z.string().min(min)
    | MustBeTrue(field: string)           // z.boolean().refine(val => val === true)

  /** `steps.length`. */
  const StepCount: nat := 5

  /** The schema of each step, rule by rule. */
  function StepRules(step: nat): (rules: seq<Rule>)
    requires step < StepCount
    ensures rules != []
  {
    match step
    case 0 => [MinLength("name", 2)]
    case 1 => [MinLength("careerGoal", 3), MinLength("currentBackground", 3)]
    case 2 => [MinLength("interests", 5), MinLength("skills", 5)]
    case 3 => [MinLength("learningStyle", 3), MinLength("timeCommitment", 2)]
    case _ => [MustBeTrue("confirmation")]
  }

  /** A field that is missing or of the wrong kind fails its rule, as zod's required fields do. */
  predicate Satisfies(values: FieldValues, rule: Rule): (ok: bool)
    ensures ok ==> rule.field in values
  {
    match rule
    case MinLength(f, n) => HasText(values, f, n)
    case MustBeTrue(f) => f in values && values[f] == Flag(true)
  }

  /** `methods.trigger()` with `zodResolver(steps[step].schema)`: every rule of the step holds. */
  predicate StepAccepts(step: nat, values: FieldValues): (ok: bool)
    requires step < StepCount
    ensures ok ==> forall rule :: rule in StepRules(step) ==> rule.field in values
  {
    forall rule :: rule in StepRules(step) ==> Satisfies(values, rule)
  }

  /** The key `step${step + 1}` under which a step's values are kept. */
  function StepKey(step: nat): (key: string)
    requires step < StepCount
    ensures key == "step" + [('1' as int + step) as char]
  {
    match step
    case 0 => "step1"
    case 1 => "step2"
    case 2 => "step3"
    case 3 => "step4"
    case _ => "step5"
  }

  /** The keys `step1`..`step5` of the stored form data (the component's `FormValues` record). */
  ghost predicate IsStepKey(key: string) {
    exists step :: 0 <= step < StepCount && StepKey(step) == key
  }

  /** `((currentStep + 1) / steps.length) * 100`, in exact arithmetic. */
  function StepProgress(step: nat): (p: real)
    requires step < StepCount
    ensures p == 20.0 * (step + 1) as real
    ensures 0.0 < p <= 100.0
    ensures p == 100.0 <==> step == StepCount - 1
  {
    ((step + 1) as real / StepCount as real) * 100.0
  }

  /** Distinct steps keep their values under distinct keys. */
  lemma StepKeysDistinct(i: nat, j: nat)
    requires i < StepCount && j < StepCount && i != j
    ensures StepKey(i) != StepKey(j)
  {
  }

  /** An untouched form (no values at all) never passes a step's validation. */
  lemma EmptyFormRejected(step: nat)
    requires step < StepCount
    ensures !StepAccepts(step, map[])
  {
    assert StepRules(step)[0] in StepRules(step);
  }

  /** A text field of at least `n` characters. */
  predicate HasText(values: FieldValues, field: string, n: nat) {
    field in values && values[field].Text? && |values[field].text| >= n
  }

  /** What each step's validation asks for, field by field. */
  lemma StepValidation(values: FieldValues)
    ensures StepAccepts(0, values) <==> HasText(values, "name", 2)
    ensures StepAccepts(1, values) <==> HasText(values, "careerGoal", 3) && HasText(values, "currentBackground", 3)
    ensures StepAccepts(2, values) <==> HasText(values, "interests", 5) && HasText(values, "skills", 5)
    ensures StepAccepts(3, values) <==> HasText(values, "learningStyle", 3) && HasText(values, "timeCommitment", 2)
  {
    assert MinLength("name", 2) in StepRules(0);
    assert MinLength("careerGoal", 3) in StepRules(1) && MinLength("currentBackground", 3) in StepRules(1);
    assert MinLength("interests", 5) in StepRules(2) && MinLength("skills", 5) in StepRules(2);
    assert MinLength("learningStyle", 3) in StepRules(3) && MinLength("timeCommitment", 2) in StepRules(3);
  }

  /** The last step passes only with the confirmation box ticked. */
  lemma LastStepNeedsConfirmation(values: FieldValues)
    ensures StepAccepts(StepCount - 1, values) <==> ("confirmation" in values && values["confirmation"] == Flag(true))
  {
    var rules := StepRules(StepCount - 1);
    assert rules == [MustBeTrue("confirmation")];
    assert MustBeTrue("confirmation") in rules;
  }

  /** The navigator state of one questionnaire sheet. */
  class Wizard {
    var currentStep: nat
    var formData: map<string, FieldValues>

    /** The step indexes `steps` and only step keys are stored. */
    ghost predicate Valid()
      reads this
    {
      currentStep < StepCount && forall key :: key in formData ==> IsStepKey(key)
    }

    /** `useState(0)` and `useState({})`. */
    constructor ()
      ensures Valid()
      ensures currentStep == 0 && formData == map[]
    {
      currentStep := 0;
      formData := map[];
    }

    /** The form's default values: what is stored for the current step, or nothing. */
    function DefaultValues(): (values: FieldValues)
      reads this
      requires Valid()
      ensures StepKey(currentStep) in formData ==> values == formData[StepKey(currentStep)]
      ensures StepKey(currentStep) !in formData ==> values == map[]
    {
      if StepKey(currentStep) in formData then formData[StepKey(currentStep)] else map[]
    }

    /** The progress bar's value. */
    function Progress(): (p: real)
      reads this
      requires Valid()
      ensures 0.0 < p <= 100.0
      ensures p == 100.0 <==> currentStep == StepCount - 1
    {
      StepProgress(currentStep)
    }

    /**
     * `handleNext`: validate the current values; if they pass, store them
     * under the current step's key (replacing what was there) and move to the
     * next step unless this is the last one. If they fail, nothing changes.
     */
    method HandleNext(values: FieldValues)
      requires Valid()
      modifies this
      ensures Valid()
      ensures !StepAccepts(old(currentStep), values) ==>
        currentStep == old(currentStep) && formData == old(formData)
      ensures StepAccepts(old(currentStep), values) ==>
        formData == old(formData)[StepKey(old(currentStep)) := values]
      ensures StepAccepts(old(currentStep), values) && old(currentStep) < StepCount - 1 ==>
        currentStep == old(currentStep) + 1
      ensures StepAccepts(old(currentStep), values) && old(currentStep) == StepCount - 1 ==>
        currentStep == old(currentStep)
    {
      var isValid := StepAccepts(currentStep, values);
      if isValid {
        formData := formData[StepKey(currentStep) := values];
        if currentStep < StepCount - 1 {
          currentStep := currentStep + 1;
        }
      }
    }

    /** `handleBack`: one step back, except on the first step; the data is kept. */
    method HandleBack()
      requires Valid()
      modifies this
      ensures Valid()
      ensures currentStep == if old(currentStep) > 0 then old(currentStep) - 1 else 0
      ensures formData == old(formData)
    {
      if currentStep > 0 {
        currentStep := currentStep - 1;
      }
    }

    /**
     * `handleFormSubmit`: hand over the stored data with the current values
     * under the current step's key, without validating them, and start over.
     */
    method HandleFormSubmit(values: FieldValues) returns (finalData: map<string, FieldValues>)
      requires Valid()
      modifies this
      ensures Valid()
      ensures finalData == old(formData)[StepKey(old(currentStep)) := values]
      ensures currentStep == 0 && formData == map[]
    {
      finalData := formData[StepKey(currentStep) := values];
      currentStep := 0;
      formData := map[];
    }
  }

  /**
   * Going on from a step and coming back to it shows the values just stored
   * there as the form's defaults.
   */
  method NextThenBackShowsStored(w: Wizard, values: FieldValues)
    requires w.Valid() && w.currentStep < StepCount - 1 && StepAccepts(w.currentStep, values)
    modifies w
    ensures w.Valid() && w.currentStep == old(w.currentStep)
    ensures w.DefaultValues() == values
  {
    var k := w.currentStep;
    w.HandleNext(values);
    w.HandleBack();
    assert w.currentStep == k;
  }
}
