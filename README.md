# Career Compass: a verified model of its client-side state and server-action logic

Career Compass is a web application that asks a user about a desired career and shows
AI-generated guidance. Almost all of it is UI and calls to hosted services. This project
models in Dafny the parts that have logic of their own, and proves what they promise:

- **Questionnaire** (`questionnaire.dfy`). This is the five-step questionnaire sheet.
  - It has the zod schema of each step as a table of rules: minimum text lengths, plus the confirmation box that must be ticked.
  - The navigator is the class `Wizard`. It holds the current step and the per-step form data keyed `step1`..`step5`.
  - Its handlers are Next, Back and Submit, and the progress bar is `(step + 1) / 5 * 100`.
  - `methods.trigger()` is modelled as the current step's schema applied to the form values. The values (`methods.getValues()`) are a parameter of the handlers.
- **Career roadmap** (`career_roadmap.dfy`, `roadmap_steps.dfy`). This is the roadmap view.
  - The checkbox toggle removes a completed knowledge area, or appends one that is not completed. It is the class `Tracker` and the pure updater `Toggle`.
  - The progress percentage is completed over total.
  - The learning-path list is the roadmap text split on the regular expression `/\n\s*\d+\.\s*/`, with empty pieces dropped.
    - The separator match is computed the way the regular-expression engine does it: greedy, at a fixed position. It is proved sound, complete and longest against a declarative statement of the expression.
    - The split follows ECMAScript's split-by-regular-expression algorithm.
- **Event emitter** (`error_emitter.dfy`). The class `Emitter` keeps a map from event names to the listeners registered for them, in order.
  - Listeners are opaque identifiers.
  - `Emit` returns the sequence of calls it makes.
- **Server actions** (`actions.dfy`). Four actions validate their input against minimum lengths and fail with the first issue's message.
  - Three of them then call their generator and wrap its result. The profile action is a placeholder that succeeds on every valid name.
  - Each generator is a hosted-model flow. Here it is an opaque function parameter that either returns a value or throws.
  - The result type has exactly two constructors, so every action returns exactly one of success or failure.

Strings are `seq<char>`. Percentages are exact rationals (`real`) rather than floating point.

## Model

| member | source | states |
|---|---|---|
| `Questionnaire.StepValidation` | src/components/interactive-questionnaire.tsx:26-55 | The first four steps pass exactly when: `name` has at least 2 characters; `careerGoal` and `currentBackground` at least 3; `interests` and `skills` at least 5; `learningStyle` at least 3 and `timeCommitment` at least 2 |
| `Questionnaire.LastStepNeedsConfirmation` | src/components/interactive-questionnaire.tsx:61-63 | The last step passes exactly when `confirmation` is the boolean true |
| `Questionnaire.EmptyFormRejected` | src/components/interactive-questionnaire.tsx:21-65 | No step accepts a form with no values |
| `Questionnaire.Satisfies` | src/components/interactive-questionnaire.tsx:26-63 | A rule holds only when its field is present: zod's fields are required |
| `Questionnaire.StepAccepts` | src/components/interactive-questionnaire.tsx:80-88 | `methods.trigger()` with the current step's schema. A passing form has every field the step's rules name |
| `Questionnaire.StepRules` | src/components/interactive-questionnaire.tsx:21-65 | Every step's schema has at least one rule |
| `Questionnaire.StepKey` | src/components/interactive-questionnaire.tsx:90 | The key of step `i` is `step` followed by the digit of `i + 1`, as `step${currentStep + 1}` |
| `Questionnaire.StepKeysDistinct` | src/components/interactive-questionnaire.tsx:90 | Different steps are stored under different keys, so storing one step never touches another |
| `Questionnaire.StepProgress` | src/components/interactive-questionnaire.tsx:113 | `(step + 1) / 5 * 100` equals `20 * (step + 1)`. It is positive and at most 100, and it is 100 exactly on the last step |
| `Questionnaire.Wizard.constructor` | src/components/interactive-questionnaire.tsx:77-78 | Starts on step 0 with no stored data |
| `Questionnaire.Wizard.DefaultValues` | src/components/interactive-questionnaire.tsx:83 | The expression on line 83: the stored values of the current step, or none |
| `Questionnaire.NextThenBackShowsStored` | src/components/interactive-questionnaire.tsx:83-102 | After a successful Next before the last step and then Back, the step is the same and the default values are the values just stored |
| `Questionnaire.Wizard.Progress` | src/components/interactive-questionnaire.tsx:113 | The progress bar value is in (0, 100] and is 100 exactly on the last step |
| `Questionnaire.Wizard.HandleNext` | src/components/interactive-questionnaire.tsx:87-96 | On a validation failure nothing changes. On success the values replace the current step's entry and other entries are untouched. The step advances unless it is the last. The step stays in 0..4 |
| `Questionnaire.Wizard.HandleBack` | src/components/interactive-questionnaire.tsx:98-102 | Steps back only when above step 0 and keeps the data. The step stays in 0..4 |
| `Questionnaire.Wizard.HandleFormSubmit` | src/components/interactive-questionnaire.tsx:104-111 | Without validating, returns the stored data with the current values under the current key. It then resets to step 0 with no data |
| `CareerRoadmap.Without` | src/components/career-roadmap.tsx:47 | The filter removes every occurrence of the task. It keeps membership of every other task and never lengthens the list |
| `CareerRoadmap.Toggle` | src/components/career-roadmap.tsx:45-49 | After a toggle the task is present exactly when it was absent before. Every other task's membership is unchanged |
| `CareerRoadmap.ToggleTwiceRestores` | src/components/career-roadmap.tsx:45-49 | Toggling an absent task twice gives back the original list |
| `CareerRoadmap.ToggleKeepsOthers` | src/components/career-roadmap.tsx:47 | With the toggled task erased, the lists before and after a toggle are equal. So other tasks are neither reordered nor changed, and an absent task is appended after them |
| `CareerRoadmap.ToggleKeepsDistinct` | src/components/career-roadmap.tsx:45-49 | A duplicate-free list stays duplicate-free |
| `CareerRoadmap.DistinctWithinIsShorter` | src/components/career-roadmap.tsx:171-176 | A duplicate-free list of knowledge areas is no longer than the list of areas |
| `CareerRoadmap.Progress` | src/components/career-roadmap.tsx:51 | The result is 0 without knowledge areas. Otherwise progress times total equals completed times 100 |
| `CareerRoadmap.ProgressBounds` | src/components/career-roadmap.tsx:51 | With no more completed tasks than areas, progress is in [0, 100]. It is 100 exactly when the two counts are equal |
| `CareerRoadmap.TogglesFromEmpty` | src/components/career-roadmap.tsx:42-51 | Start from the empty list and toggle only knowledge areas. The list stays duplicate-free and within the areas, and progress stays in [0, 100] |
| `CareerRoadmap.Tracker.constructor` | src/components/career-roadmap.tsx:42-43 | The areas are `data.knowledgeAreas`, or none when it is missing, and no task is completed |
| `CareerRoadmap.Tracker.HandleTaskToggle` | src/components/career-roadmap.tsx:45-49 | The new list is the toggle of the old one. Toggling one of the areas keeps the tracker valid |
| `CareerRoadmap.Tracker.CurrentProgress` | src/components/career-roadmap.tsx:51 | The displayed progress is in [0, 100] in every valid state |
| `RoadmapSteps.IsSpace` | src/components/career-roadmap.tsx:71 | The `\s` class contains the line break and excludes digits and the dot, so the expression's runs cannot overlap |
| `RoadmapSteps.RunEnd` | src/components/career-roadmap.tsx:71 | A greedy `\s*` or `\d+` stops at the first character outside its class |
| `RoadmapSteps.SeparatorEnd` | src/components/career-roadmap.tsx:71 | A returned end is a match of the expression. No end means no match at that position, and the returned end is the longest match |
| `RoadmapSteps.SplitFrom` | src/components/career-roadmap.tsx:71 | ECMAScript's split loop from piece start `p` and scan position `q`: at least one piece, none longer than the rest of the text |
| `RoadmapSteps.Split` | src/components/career-roadmap.tsx:71 | `data.roadmap.split(...)` has at least one piece, and the empty text gives one empty piece |
| `RoadmapSteps.SplitReassembles` | src/components/career-roadmap.tsx:71 | The pieces of the split, interleaved with the separators cut out, give back the roadmap. Each separator is a whole match of the expression |
| `RoadmapSteps.DropEmpty` | src/components/career-roadmap.tsx:71 | The filter keeps every non-empty piece and only those |
| `RoadmapSteps.DropEmptyAppend` | src/components/career-roadmap.tsx:71 | The filter distributes over concatenation, so the kept pieces keep their order and repetitions, as the numbered list at line 156 shows them |
| `RoadmapSteps.Steps` | src/components/career-roadmap.tsx:70-72 | No step is the empty string |
| `RoadmapSteps.StepsAreSeparatorFree` | src/components/career-roadmap.tsx:70-72 | Every step is a non-empty piece of the split, and the separator matches nowhere inside it |
| `RoadmapSteps.StepsWithoutSeparator` | src/components/career-roadmap.tsx:70-72 | A roadmap with no separator gives itself as the only step, or no step when it is empty |
| `ErrorEmitter.Register` | src/firebase/error-emitter.ts:11-16 | `on` creates `[listener]` for a new event and otherwise appends at the end. The event becomes a key, and every other event's list is unchanged |
| `ErrorEmitter.Dispatch` | src/firebase/error-emitter.ts:20 | One call per listener, in order, all with the same payload |
| `ErrorEmitter.RegisterThenDispatch` | src/firebase/error-emitter.ts:11-21 | After `on`, an emit makes the earlier calls in the same order, then one call to the new listener |
| `ErrorEmitter.RegisterTwiceCallsTwice` | src/firebase/error-emitter.ts:15-20 | A listener registered twice is called two more times per emit: there is no deduplication |
| `ErrorEmitter.DispatchUnknownEvent` | src/firebase/error-emitter.ts:19 | Emitting an event with no listeners calls nothing |
| `ErrorEmitter.Emitter.constructor` | src/firebase/error-emitter.ts:9 | The registry starts empty |
| `ErrorEmitter.Emitter.On` | src/firebase/error-emitter.ts:11-16 | The registry becomes the registration of the listener in the old registry |
| `ErrorEmitter.Emitter.Emit` | src/firebase/error-emitter.ts:18-22 | Makes exactly the dispatch of the event's listeners with the payload. It has no modifies clause, so the registry is unchanged |
| `Actions.MinLengthIssues` | src/app/actions.ts:11 | `z.string().min` reports no issue exactly when the length reaches the minimum. Otherwise it reports exactly the rule's message |
| `Actions.CareerIssues` | src/app/actions.ts:10-14 | The career schema passes exactly when `career` has at least 3 characters |
| `Actions.Wrap` | src/app/actions.ts:26-32 | Success with the generator's value when it returns. The fixed message 'An unexpected error occurred. Please try again.' when it throws |
| `Actions.GenerateCareerPath` | src/app/actions.ts:16-33 | A career under 3 characters fails with 'Career must be at least 3 characters long.'. Otherwise the result is the wrapped outcome of the generator on the unchanged input. Success only comes from a generator that returned that data |
| `Actions.ExploreCareer` | src/app/actions.ts:41-54 | The same rule, message and wrapping as the career path action |
| `Actions.GetCareerOpportunities` | src/app/actions.ts:60-73 | A role under 3 characters fails with 'Role must be at least 3 characters long.'. Otherwise the generator receives only `specificRole` |
| `Actions.UpdateUserProfile` | src/app/actions.ts:82-97 | Succeeds exactly when the name has at least 2 characters. Otherwise fails with 'Name must be at least 2 characters.' |
| `Actions.RejectedCareerIgnoresGenerator` | src/app/actions.ts:21-24 | A rejected career gives the same result whatever the generator would do: it is not called |
| `Actions.RejectedRoleIgnoresGenerator` | src/app/actions.ts:61-64 | A rejected role gives the same result whatever the generator would do |
| `Actions.AcceptedCareerUsesGenerator` | src/app/actions.ts:26-28 | A valid input's result depends only on the generator's outcome for that input |

## Left out

- Floating point: both progress values are exact rationals, so the model does not capture floating-point rounding in `(step + 1) / 5 * 100` or in completed / total * 100. For the questionnaire the five IEEE results are exact anyway. The `Math.round` of the displayed percentage is left out.
- String lengths: zod's `min` counts UTF-16 code units, while a Dafny `char` is a Unicode scalar value. Text with characters outside the Basic Multilingual Plane is therefore shorter in the model than in the application.
- `Questionnaire.Wizard.DefaultValues` models the expression on line 83 of the questionnaire component. The form library's caching of `defaultValues` after the first render is not modelled: whether the value reaches the form again is up to that library, which is not part of this model.
- React and react-hook-form mechanics are left out: asynchronous state updates, re-rendering, and the form's error display. `methods.trigger()` is the current step's schema on the values passed in, and `methods.getValues()` is a parameter.
- `onSubmit` is the returned data of `HandleFormSubmit`, and `onOpenChange(false)` is not modelled (UI).
- The questionnaire's field error messages, step titles, icons and descriptions are display text and are not modelled.
- The Next button is only rendered before the last step, and the Back button only after the first. The handlers are modelled as written, whether or not a button reaches them.
- Emitter: a listener that throws, or that registers listeners during an emit (re-entrancy), is not modelled. Event names are strings and payloads a type parameter, not the `Events` record type. The registry is a plain object in the source, so an event named like an inherited property (`toString`, `constructor`) would skip the lazy creation and fail at `push`. The only emitter is the one exported instance, and its only event is 'permission-error', so that cannot happen in the application. The model does not capture it.
- The split's `limit` (2^32 - 1 pieces) is not modelled.
- `knowledgeAreas` and `roadmap` are taken as a list of strings and a string, as the roadmap view uses them. The generator's output schema types them differently, and that is not reconciled.
- The hosted-model flows and their prompt templates are opaque generators. Their output schemas are type parameters of the actions.
- `console.error` and `console.log` in the actions are I/O.
- The search services, Firebase authentication and Firestore, the history hooks, the pages, the layout, the header and the particle background are services or UI. They are not part of this model.
