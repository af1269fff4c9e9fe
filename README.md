# Quiz-content editor: form state, validation and submit

This project models the lesson quiz-content editor of the e-learning
application, and proves properties of the model. The editor is the form
behind `CreateLessonQuizContent` together with the per-block
`QuestionAnswerForm` editor. Its state is an ordered list of quiz blocks.
Each block is one of three kinds:

- a QUESTION_ANSWER block, with a question, a correct answer and a nested
  list of incorrect answers;
- an ANSWER_WITH_FIXED_LETTERS block, with a question and an answer;
- a block with a tag the editor does not know. It renders nothing.

The user changes the form state in place. They can append a block of
either kind, remove a block, and append or remove an incorrect answer
inside a question block. They can also type into an input. When the
initial data changes, the form is reset to it. The Save button validates
every registered field. If every field passes, it issues the update
mutation, exits edit mode and reports success, in that order.

Files, one module each:

- `field_array.dfy` (`FieldArray`): the list primitive of react-hook-form's
  `useFieldArray`. It covers removal at an index, distinct render keys, and
  key and id freshness.
- `quiz_blocks.dfy` (`QuizBlocks`): the block datatype, block ids and the
  `initialData || []` default.
- `question_answer_form.dfy` (`QuestionAnswerForm`): the `required` and
  `minLength` rules of the question editor. It also gives the errors those
  rules report, keyed by field path, and what typing into an input does.
- `create_lesson_quiz_content.dfy` (`CreateLessonQuizContent`): validation
  of the whole form, the dispatch from block type to editor, the rendered
  `(key, index, block, editor)` entries, and the effect log of a submit. It
  also holds the class `QuizContentEditor`, whose methods are the handlers.
  Client methods at the end replay the editor's usage scenarios using only
  the contracts.

How the model stands in for parts of the source:

- `uuidv4()` becomes a counter, `nextId`. Reset raises the counter above
  every id in the initial data, so a generated id never collides with an
  existing one.
- The field array's `field.id` keys come from a second counter, `nextKey`.
  Render keys are never renumbered. A removal keeps every survivor's key,
  and every new key is larger than every key handed out before it.
- react-hook-form consults `minLength` only for a non-empty string. With
  `minLength: 1` that rule therefore never reports:
  `RequiredWithMinLengthOne` proves this. Every field is valid exactly when
  it is non-empty. Values are not trimmed. A question block may have zero
  incorrect answers.
- The success report is unconditional. `onSubmit` reports success through
  `setIsSuccessVisible(lessonId, true, true)` whether or not issuing the
  mutation threw. The model keeps that behaviour. `SubmitEffectsSpec`
  proves the two callbacks close every valid submit. When the mutation
  throws, the code's `console.log` adds a `ConsoleLog` entry between the
  mutation and the callbacks.
- Removal of unknown blocks: the close button that calls `remove(index)` is
  rendered only inside the two recognised branches of the dispatch. So
  `RemoveBlock` applies only to blocks that have an editor.

## Model

| member | source | states |
|---|---|---|
| `QuizBlocks.InitialBlocks` | src/shared/ui/course/ui/CreateLessonQuizContent/CreateLessonQuizContent.tsx:33-40 | definition: `initialData \|\| []`, the data when present and no blocks when absent |
| `FieldArray.RemoveAt` | src/shared/ui/course/ui/CreateLessonQuizContent/CreateLessonQuizContent.tsx:57-60 | removing index i shortens the list by one; entries before i are unchanged, entries after i move down one place in order |
| `FieldArray.RemoveLastAfterAppend` | src/shared/ui/course/ui/CreateLessonQuizContent/CreateLessonQuizContent.tsx:62-83 | appending an entry and then removing the last index gives back the original list |
| `FieldArray.RemoveAtKeepsDistinct` | src/shared/ui/course/ui/CreateLessonQuizContent/CreateLessonQuizContent.tsx:92 | removing an entry keeps render keys (and ids) pairwise distinct |
| `FieldArray.AppendFreshKeepsDistinct` | src/shared/ui/course/ui/CreateLessonQuizContent/CreateLessonQuizContent.tsx:64 | appending a value absent from the list keeps it pairwise distinct |
| `FieldArray.FreshRange` | src/shared/ui/course/ui/CreateLessonQuizContent/CreateLessonQuizContent.tsx:38-40 | the keys handed out on reset are pairwise distinct and all at or above the counter |
| `FieldArray.UpperBound` | src/shared/ui/course/ui/CreateLessonQuizContent/CreateLessonQuizContent.tsx:64 | a bound strictly above every id (or count), so later generated ids are fresh |
| `QuestionAnswerForm.Validate` | src/shared/ui/course/ui/CourseQuizForms/QuestionAnswerForm.tsx:32-66 | definition: a field's first failing rule in react-hook-form's order; `required` on the empty string, `minLength` only on a non-empty string |
| `QuestionAnswerForm.RequiredWithMinLengthOne` | src/shared/ui/course/ui/CourseQuizForms/QuestionAnswerForm.tsx:32-35 | with `required` and `minLength: 1` a value is valid iff non-empty (no trim), and the only message reported is the `required` one |
| `QuestionAnswerForm.Fields` | src/shared/ui/course/ui/CourseQuizForms/QuestionAnswerForm.tsx:30-66 | a question block registers question, correctAnswer and answer.k.otherAnswer for each k below the list length; a fixed-letters block registers its own editor; an unknown block registers nothing |
| `QuestionAnswerForm.BlockErrors` | src/shared/ui/course/ui/CourseQuizForms/QuestionAnswerForm.tsx:27-81 | block i's errors are keyed by paths inside block i only, one per registered field whose rule fails, carrying that rule's error |
| `QuestionAnswerForm.BlockErrorsEmptyIff` | src/shared/ui/course/ui/CourseQuizForms/QuestionAnswerForm.tsx:27-81 | a block reports no error iff question, correctAnswer and every otherAnswer are non-empty (fixed-letters: iff its editor accepts it), with no lower bound on the number of incorrect answers |
| `QuestionAnswerForm.QuestionAnswerErrors` | src/shared/ui/course/ui/CourseQuizForms/QuestionAnswerForm.tsx:32-66 | each question-block input is marked iff it is empty, with "Question is required", "Correct Answer is required" or "Incorrect Answer is required"; no min-length error is ever reported |
| `QuestionAnswerForm.Edit` | src/shared/ui/course/ui/CourseQuizForms/QuestionAnswerForm.tsx:30-66 | typing into one input sets exactly that input; id, list length, registered fields and every other input are unchanged |
| `CreateLessonQuizContent.Errors` | src/shared/ui/course/ui/CreateLessonQuizContent/CreateLessonQuizContent.tsx:88 | definition: the errors of every registered field of every block, keyed by path, as `handleSubmit` collects them |
| `CreateLessonQuizContent.FormValid` | src/shared/ui/course/ui/CourseQuizForms/QuestionAnswerForm.tsx:27-81 | definition: every block passes its own editor's rules |
| `CreateLessonQuizContent.ErrorsAt` | src/shared/ui/course/ui/CourseQuizForms/QuestionAnswerForm.tsx:32-62 | the form's error at a path in block i is exactly block i's own error there |
| `CreateLessonQuizContent.ErrorsEmptyIff` | src/shared/ui/course/ui/CreateLessonQuizContent/CreateLessonQuizContent.tsx:88 | validation of the whole form passes iff every field of every block passes; one empty field anywhere blocks submission |
| `CreateLessonQuizContent.ErrorsIsolated` | src/shared/ui/course/ui/CourseQuizForms/QuestionAnswerForm.tsx:32-62 | changing block i leaves every error outside block i unchanged, present or absent |
| `CreateLessonQuizContent.EditorFor` | src/shared/ui/course/ui/CreateLessonQuizContent/CreateLessonQuizContent.tsx:93-123 | QUESTION_ANSWER selects the question editor, ANSWER_WITH_FIXED_LETTERS the fixed-letters editor, any other tag nothing (each iff) |
| `CreateLessonQuizContent.Render` | src/shared/ui/course/ui/CreateLessonQuizContent/CreateLessonQuizContent.tsx:91-125 | definition: the `(field.id, index, value)` entries `fields.map` walks over, each with the editor its type selects |
| `CreateLessonQuizContent.RenderAfterRemove` | src/shared/ui/course/ui/CreateLessonQuizContent/CreateLessonQuizContent.tsx:91-125 | after a removal, earlier entries render unchanged; later entries keep their key, data and editor at one position lower |
| `CreateLessonQuizContent.OnSubmit` | src/shared/ui/course/ui/CreateLessonQuizContent/CreateLessonQuizContent.tsx:42-55 | definition: the mutation with `{id: lessonId, lesson_content: {blocks}}`, a console log if issuing it threw, then `setQuizContentEditable()` and `setIsSuccessVisible(lessonId, true, true)` |
| `CreateLessonQuizContent.SubmitEffects` | src/shared/ui/course/ui/CreateLessonQuizContent/CreateLessonQuizContent.tsx:88 | definition: `handleSubmit(onSubmit)`; `onSubmit`'s effects when no field reports an error, none otherwise |
| `CreateLessonQuizContent.SubmitEffectsSpec` | src/shared/ui/course/ui/CreateLessonQuizContent/CreateLessonQuizContent.tsx:42-55 | a submit has effects iff the form is valid; then the log is exactly the mutation with `{id: lessonId, blocks}`, a console log only if the mutation threw, one `setQuizContentEditable`, and one `setIsSuccessVisible(lessonId, true, true)`, in that order and with nothing else |
| `CreateLessonQuizContent.QuizContentEditor.constructor` | src/shared/ui/course/ui/CreateLessonQuizContent/CreateLessonQuizContent.tsx:33-35 | the form starts with the initial data, or no blocks when it is absent, and an empty effect log |
| `CreateLessonQuizContent.QuizContentEditor.Reset` | src/shared/ui/course/ui/CreateLessonQuizContent/CreateLessonQuizContent.tsx:38-40 | the blocks become exactly the initial data (or none), discarding prior edits; every entry gets a fresh key; the invariant is kept |
| `CreateLessonQuizContent.QuizContentEditor.AddQuestionAnswerBlock` | src/shared/ui/course/ui/CreateLessonQuizContent/CreateLessonQuizContent.tsx:71-83 | appends exactly `QUESTION_ANSWER(freshId, "", "", [""])` at the end with fresh keys; earlier blocks and keys unchanged; ids stay distinct |
| `CreateLessonQuizContent.QuizContentEditor.AddAnswerWithFixedLetters` | src/shared/ui/course/ui/CreateLessonQuizContent/CreateLessonQuizContent.tsx:62-69 | appends exactly `ANSWER_WITH_FIXED_LETTERS(freshId, "", "")` at the end with a fresh key; earlier blocks and keys unchanged; ids stay distinct |
| `CreateLessonQuizContent.QuizContentEditor.RemoveBlock` | src/shared/ui/course/ui/CreateLessonQuizContent/CreateLessonQuizContent.tsx:101-103 | blocks, keys and nested keys lose exactly entry `index`; survivors keep order, data and keys; counters and effects unchanged |
| `CreateLessonQuizContent.QuizContentEditor.AppendIncorrectAnswer` | src/shared/ui/course/ui/CourseQuizForms/QuestionAnswerForm.tsx:20-22 | only block `index` changes, and only its answer list, which gains one trailing "" with a fresh key |
| `CreateLessonQuizContent.QuizContentEditor.RemoveIncorrectAnswer` | src/shared/ui/course/ui/CourseQuizForms/QuestionAnswerForm.tsx:74-76 | only block `index`'s answer list changes: it loses exactly entry `otherAnswerIndex`; the remaining entries keep order and keys |
| `CreateLessonQuizContent.QuizContentEditor.EditField` | src/shared/ui/course/ui/CourseQuizForms/QuestionAnswerForm.tsx:30-66 | only block `index` changes, by `Edit`; keys, counters and effects unchanged |
| `CreateLessonQuizContent.QuizContentEditor.Submit` | src/shared/ui/course/ui/CreateLessonQuizContent/CreateLessonQuizContent.tsx:87-88 | returns the form's errors and appends exactly the submit's effects to the log; the blocks are unchanged and the invariant is kept |
| `CreateLessonQuizContent.AppendThenRemoveLast` | src/shared/ui/course/ui/CreateLessonQuizContent/CreateLessonQuizContent.tsx:62-83 | adding a block of either kind and removing the last index restores the blocks and all render keys |

## Left out

- The update mutation and cache invalidation: the tRPC `updateContent` mutation and its `byId.invalidate` success hook are not modelled. Issuing the mutation is one `Mutate` entry in the effect log. Its asynchronous outcome, and its race with the success callback, are not modelled. `mutateThrows` says whether issuing it threw.
- `console.log(e)` is recorded as a `ConsoleLog` entry without the error value.
- Generated ids are natural numbers: `uuidv4` strings become a counter, and ids in the initial data are numbers too.
- react-hook-form internals are not modelled: focus, dirty and touched state, re-validation modes, and the order in which errors are reported. Errors are a map from field path to error.
- Reset trigger: `useEffect` fires when the `initialData` reference changes. The model runs `Reset` when it is called, and leaves the identity comparison to the caller.
- `QuestionAnswerFormWithFixedLettersAnswer` is not part of this model. Its fields cannot be edited in the model. Its validity is a predicate given to the editor, and its failures are one block-level `FixedLettersRejected` error.
- The `QuizContentType` enum values are not part of this model. The two known tags are constructors. Any other tag is `UnknownType` with its tag string.
- Rendering is not modelled: JSX, CSS classes, buttons, icons, labels and the `index + 1` heading.
- `ModuleProgress` and `CompleteCountInfo` are left out. They only display remote query results.
- The in-flight guard and the race with a pending mutation: the source has no in-flight guard, and the model has none either. Repeated submits are modelled, each appending its own effects. The race between a pending mutation and the callbacks that follow is not modelled.
- CreateLessonQuizContent.QuizContentEditor.Reset: after a reset, incorrect-answer keys are distinct only within their own block, not across blocks. They are all fresh with respect to earlier keys. React only needs keys among siblings to differ.
