/**
 * The server actions: each validates its input against a zod schema of
 * minimum lengths and fails with the first issue's message. Three of them then
 * call their generator (a hosted-model flow, opaque here) and wrap what it
 * returns or the exception it throws; the profile action is a placeholder that
 * succeeds on every valid name.
 */
module Actions {
  import opened Wrappers

  /** `{ success: true; data }` or `{ success: false; error }`: exactly one of the two. */
  datatype ActionResult<T> = Success(data: T) | Failure(error: string)

  /** What an awaited generator call does: resolve with a value or throw. */
  datatype GeneratorOutcome<T> = Returned(value: T) | Threw

  const CareerTooShort := "Career must be at least 3 characters long."
  const RoleTooShort := "Role must be at least 3 characters long."
  const NameTooShort := "Name must be at least 2 characters."
  const UnexpectedError := "An unexpected error occurred. Please try again."

  /** The input of the career-path and career-exploration actions. */
  datatype CareerInput = CareerInput(career: string, currentRole: Option<string>, interests: Option<string>)

  /** The input of the opportunities action, and of its generator. */
  datatype OpportunitiesInput = OpportunitiesInput(specificRole: string)

  /** The input of the profile action. */
  datatype ProfileInput = ProfileInput(displayName: string)

  /** The issue messages of `z.string().min(min, message)` on `s`. */
  function MinLengthIssues(s: string, min: nat, message: string): (issues: seq<string>)
    ensures issues == [] <==> |s| >= min
    ensures issues != [] ==> issues == [message]
  {
    if |s| < min then [message] else []
  }

  /** `careerPathSchema` and `exploreCareerSchema`: only `career` is constrained. */
  function CareerIssues(input: CareerInput): (issues: seq<string>)
    ensures issues == [] <==> |input.career| >= 3
  {
    MinLengthIssues(input.career, 3, CareerTooShort)
  }

  /** The `try`/`catch` around the generator call. */
  function Wrap<T>(outcome: GeneratorOutcome<T>): (r: ActionResult<T>)
    ensures r.Success? <==> outcome.Returned?
    ensures r.Success? ==> r.data == outcome.value
    ensures r.Failure? ==> r.error == UnexpectedError
  {
    match outcome
    case Returned(v) => Success(v)
    case Threw => Failure(UnexpectedError)
  }

  /**
   * Validate, then call: the first issue's message when validation fails,
   * the wrapped generator outcome on the validated data otherwise.
   */
  function Guarded<I, T>(issues: seq<string>, validated: I, generator: I -> GeneratorOutcome<T>): (r: ActionResult<T>)
    ensures issues != [] ==> r == Failure(issues[0])
    ensures issues == [] ==> r == Wrap(generator(validated))
  {
    if issues != [] then Failure(issues[0]) else Wrap(generator(validated))
  }

  /** `generateCareerPathAction`. */
  function GenerateCareerPath<T>(input: CareerInput, generator: CareerInput -> GeneratorOutcome<T>): (r: ActionResult<T>)
    ensures |input.career| < 3 ==> r == Failure(CareerTooShort)
    ensures |input.career| >= 3 ==> r == Wrap(generator(input))
    ensures r.Success? ==> |input.career| >= 3 && generator(input) == Returned(r.data)
  {
    Guarded(CareerIssues(input), input, generator)
  }

  /** `exploreCareerAction`: the same rule, message and wrapping as the career path. */
  function ExploreCareer<T>(input: CareerInput, generator: CareerInput -> GeneratorOutcome<T>): (r: ActionResult<T>)
    ensures |input.career| < 3 ==> r == Failure(CareerTooShort)
    ensures |input.career| >= 3 ==> r == Wrap(generator(input))
    ensures r.Success? ==> |input.career| >= 3 && generator(input) == Returned(r.data)
  {
    Guarded(CareerIssues(input), input, generator)
  }

  /** `getCareerOpportunitiesAction`: only the role is passed on to the generator. */
  function GetCareerOpportunities<T>(input: OpportunitiesInput, generator: OpportunitiesInput -> GeneratorOutcome<T>): (r: ActionResult<T>)
    ensures |input.specificRole| < 3 ==> r == Failure(RoleTooShort)
    ensures |input.specificRole| >= 3 ==> r == Wrap(generator(OpportunitiesInput(input.specificRole)))
  {
    Guarded(MinLengthIssues(input.specificRole, 3, RoleTooShort), input,
      (validated: OpportunitiesInput) => generator(OpportunitiesInput(validated.specificRole)))
  }

  /** `updateUserProfileAction`: a placeholder that succeeds for every valid name. */
  function UpdateUserProfile(input: ProfileInput): (r: ActionResult<()>)
    ensures r.Success? <==> |input.displayName| >= 2
    ensures r.Failure? ==> r.error == NameTooShort
  {
    var issues := MinLengthIssues(input.displayName, 2, NameTooShort);
    if issues != [] then Failure(issues[0]) else Success(())
  }

  /** A rejected input never reaches the generator: the result is the same whatever it would do. */
  lemma RejectedCareerIgnoresGenerator<T>(input: CareerInput, g1: CareerInput -> GeneratorOutcome<T>, g2: CareerInput -> GeneratorOutcome<T>)
    requires |input.career| < 3
    ensures GenerateCareerPath(input, g1) == GenerateCareerPath(input, g2)
    ensures ExploreCareer(input, g1) == ExploreCareer(input, g2)
  {
  }

  /** The same for a rejected role. */
  lemma RejectedRoleIgnoresGenerator<T>(input: OpportunitiesInput, g1: OpportunitiesInput -> GeneratorOutcome<T>, g2: OpportunitiesInput -> GeneratorOutcome<T>)
    requires |input.specificRole| < 3
    ensures GetCareerOpportunities(input, g1) == GetCareerOpportunities(input, g2)
  {
  }

  /** A valid input's result depends only on what the generator does with that input. */
  lemma AcceptedCareerUsesGenerator<T>(input: CareerInput, g1: CareerInput -> GeneratorOutcome<T>, g2: CareerInput -> GeneratorOutcome<T>)
    requires |input.career| >= 3 && g1(input) == g2(input)
    ensures GenerateCareerPath(input, g1) == GenerateCareerPath(input, g2)
  {
  }
}
