/**
  The quiz-content editor of a lesson: the form state `{blocks}` with its
  field array, the handlers that append and remove blocks and incorrect
  answers, the reset from initial data, the dispatch of each block to its
  editor, whole-form validation, and the ordered effects of a submit.
 */
module CreateLessonQuizContent {
  import opened QuizBlocks
  import opened FieldArray
  import opened QuestionAnswerForm

  // ---------------------------------------------------------------------
  // Whole-form validation (what `handleSubmit` runs before `onSubmit`)
  // ---------------------------------------------------------------------

  /** The errors of every registered field of every block, keyed by path. */
  function Errors(blocks: seq<Block>, fixedOk: FixedLettersCheck): map<FieldPath, FieldError>
    decreases |blocks|
  {
    if blocks == [] then map[]
    else
      var n := |blocks| - 1;
      Errors(blocks[..n], fixedOk) + BlockErrors(n, blocks[n], fixedOk)
  }

  /** Every block passes its own editor's rules. */
  predicate FormValid(blocks: seq<Block>, fixedOk: FixedLettersCheck)
  {
    forall i :: 0 <= i < |blocks| ==> BlockValid(blocks[i], fixedOk)
  }

  /**
    An error at a path in block `i` is exactly the error block `i`'s own
    editor reports there: no other block can mark or change it.
   */
  lemma {:induction false} ErrorsAt(blocks: seq<Block>, fixedOk: FixedLettersCheck, p: FieldPath)
    ensures p in Errors(blocks, fixedOk) <==>
      p.block < |blocks| && p in BlockErrors(p.block, blocks[p.block], fixedOk)
    ensures p in Errors(blocks, fixedOk) ==>
      Errors(blocks, fixedOk)[p] == BlockErrors(p.block, blocks[p.block], fixedOk)[p]
    decreases |blocks|
  {
    if blocks != [] {
      var n := |blocks| - 1;
      ErrorsAt(blocks[..n], fixedOk, p);
      if p.block < n {
        assert blocks[..n][p.block] == blocks[p.block];
      }
    }
  }

  /** Submission is blocked by some error exactly when some field of some block fails. */
  lemma {:induction false} ErrorsEmptyIff(blocks: seq<Block>, fixedOk: FixedLettersCheck)
    ensures Errors(blocks, fixedOk) == map[] <==> FormValid(blocks, fixedOk)
  {
    if FormValid(blocks, fixedOk) {
      forall p | p in Errors(blocks, fixedOk) ensures false {
        ErrorsAt(blocks, fixedOk, p);
        BlockErrorsEmptyIff(p.block, blocks[p.block], fixedOk);
      }
    } else {
      var i :| 0 <= i < |blocks| && !BlockValid(blocks[i], fixedOk);
      BlockErrorsEmptyIff(i, blocks[i], fixedOk);
      var p :| p in BlockErrors(i, blocks[i], fixedOk);
      ErrorsAt(blocks, fixedOk, p);
    }
  }

  /** Changing block `i` leaves every error outside block `i` as it was. */
  lemma {:induction false} ErrorsIsolated(blocks: seq<Block>, blocks': seq<Block>, fixedOk: FixedLettersCheck, i: nat)
    requires |blocks'| == |blocks| && i < |blocks|
    requires forall j :: 0 <= j < |blocks| && j != i ==> blocks'[j] == blocks[j]
    ensures forall p: FieldPath :: p.block != i ==>
      (p in Errors(blocks', fixedOk) <==> p in Errors(blocks, fixedOk))
      && (p in Errors(blocks, fixedOk) ==> Errors(blocks', fixedOk)[p] == Errors(blocks, fixedOk)[p])
  {
    forall p: FieldPath | p.block != i
      ensures (p in Errors(blocks', fixedOk) <==> p in Errors(blocks, fixedOk))
      ensures p in Errors(blocks, fixedOk) ==> Errors(blocks', fixedOk)[p] == Errors(blocks, fixedOk)[p]
    {
      ErrorsAt(blocks, fixedOk, p);
      ErrorsAt(blocks', fixedOk, p);
    }
  }

  // ---------------------------------------------------------------------
  // Rendering dispatch (`fields.map`)
  // ---------------------------------------------------------------------

  datatype Editor = QuestionAnswerEditor | FixedLettersEditor

  /** The editor a block's `type` selects; an unknown tag renders nothing. */
  function EditorFor(b: Block): (r: Option<Editor>)
    ensures r == Some(QuestionAnswerEditor) <==> b.QuestionAnswer?
    ensures r == Some(FixedLettersEditor) <==> b.AnswerWithFixedLetters?
    ensures r == None <==> b.UnknownType?
  {
    match b
    case QuestionAnswer(_, _, _, _) => Some(QuestionAnswerEditor)
    case AnswerWithFixedLetters(_, _, _) => Some(FixedLettersEditor)
    case UnknownType(_, _) => None
  }

  /** One rendered entry: its React key, its position, its data and the editor shown. */
  datatype RenderItem = RenderItem(key: nat, index: nat, block: Block, editor: Option<Editor>)

  /** The `(field.id, index, value)` triples `fields.map` walks over. */
  function Render(keys: seq<nat>, blocks: seq<Block>): (r: seq<RenderItem>)
    requires |keys| == |blocks|
  {
    seq(|blocks|, i requires 0 <= i < |blocks| => RenderItem(keys[i], i, blocks[i], EditorFor(blocks[i])))
  }

  /**
    Removing the entry at `index` from both the data and the keys: entries
    before it render unchanged, entries after it move down one position and
    keep their key, data and editor.
   */
  lemma RenderAfterRemove(keys: seq<nat>, blocks: seq<Block>, index: nat)
    requires |keys| == |blocks| && index < |blocks|
    ensures var before, after := Render(keys, blocks), Render(RemoveAt(keys, index), RemoveAt(blocks, index));
      && |after| == |before| - 1
      && (forall j :: 0 <= j < index ==> after[j] == before[j])
      && (forall j :: index <= j < |after| ==>
            after[j] == before[j + 1].(index := j))
  {
  }

  // ---------------------------------------------------------------------
  // Submit
  // ---------------------------------------------------------------------

  /** `{id: lessonId, lesson_content: {blocks}}`. */
  datatype Payload = Payload(id: string, blocks: seq<Block>)

  /** What the editor does to the outside world, in order. */
  datatype Effect =
    | Mutate(payload: Payload)
    | ConsoleLog
    | SetQuizContentEditable
    | SetIsSuccessVisible(id: string, visible: bool, isSuccess: bool)

  /**
    `onSubmit`: the mutation is issued; if issuing it throws, the error is
    logged; in every case the `finally` exits edit mode and reports success.
   */
  function OnSubmit(lessonId: string, data: seq<Block>, mutateThrows: bool): seq<Effect>
  {
    [Mutate(Payload(lessonId, data))]
    + (if mutateThrows then [ConsoleLog] else [])
    + [SetQuizContentEditable, SetIsSuccessVisible(lessonId, true, true)]
  }

  /** `handleSubmit(onSubmit)`: `onSubmit` runs only when no field reports an error. */
  function SubmitEffects(lessonId: string, blocks: seq<Block>, fixedOk: FixedLettersCheck, mutateThrows: bool): seq<Effect>
  {
    if Errors(blocks, fixedOk) == map[] then OnSubmit(lessonId, blocks, mutateThrows) else []
  }

  /**
    A submit has effects exactly when the form is valid. Then the log is
    exactly the mutation carrying the current blocks, a console log if
    issuing it threw, one exit from edit mode and one success report.
   */
  lemma {:induction false} SubmitEffectsSpec(lessonId: string, blocks: seq<Block>, fixedOk: FixedLettersCheck, mutateThrows: bool)
    ensures var e := SubmitEffects(lessonId, blocks, fixedOk, mutateThrows);
      && (e == [] <==> !FormValid(blocks, fixedOk))
      && (FormValid(blocks, fixedOk) ==>
            && |e| == (if mutateThrows then 4 else 3)
            && e[0] == Mutate(Payload(lessonId, blocks))
            && (forall k :: 0 < k < |e| - 2 ==> e[k] == ConsoleLog)
            && (forall k :: 0 < k < |e| ==> !e[k].Mutate?)
            && e[|e| - 2] == SetQuizContentEditable
            && e[|e| - 1] == SetIsSuccessVisible(lessonId, true, true)
            && multiset(e)[SetQuizContentEditable] == 1
            && multiset(e)[SetIsSuccessVisible(lessonId, true, true)] == 1)
  {
    ErrorsEmptyIff(blocks, fixedOk);
  }

  // ---------------------------------------------------------------------
  // The editor's form state
  // ---------------------------------------------------------------------

  /**
    The form state of one editing session. `keys[j]` is the render key of
    block `j` and `answerKeys[j]` those of its incorrect answers; `nextKey`
    and `nextId` stand for the key generator of the field array and for
    `uuidv4`; `effects` records the callbacks and the mutation, in order.
   */
  class QuizContentEditor {
    const lessonId: string
    const fixedLettersValid: FixedLettersCheck
    var blocks: seq<Block>
    var keys: seq<nat>
    var answerKeys: seq<seq<nat>>
    var nextKey: nat
    var nextId: nat
    var effects: seq<Effect>

    ghost predicate Valid()
      reads this
    {
      && |keys| == |blocks| && |answerKeys| == |blocks|
      && Distinct(keys)
      && (forall j :: 0 <= j < |keys| ==> keys[j] < nextKey)
      && (forall j :: 0 <= j < |blocks| ==> blocks[j].id < nextId)
      && (forall j :: 0 <= j < |blocks| ==> |answerKeys[j]| == AnswerCount(blocks[j]))
      && (forall j :: 0 <= j < |blocks| ==> Distinct(answerKeys[j]))
      && (forall j, k :: 0 <= j < |blocks| && 0 <= k < |answerKeys[j]| ==> answerKeys[j][k] < nextKey)
    }

    /** What `fields.map` renders from the current state. */
    function Items(): (r: seq<RenderItem>)
      reads this
      requires Valid()
    {
      Render(keys, blocks)
    }

    /** `useForm({defaultValues: {blocks: initialData || []}})`. */
    constructor (lessonId: string, initialData: Option<seq<Block>>, fixedLettersValid: FixedLettersCheck)
      ensures Valid()
      ensures this.lessonId == lessonId && this.fixedLettersValid == fixedLettersValid
      ensures blocks == InitialBlocks(initialData) && effects == []
    {
      this.lessonId := lessonId;
      this.fixedLettersValid := fixedLettersValid;
      var data := InitialBlocks(initialData);
      var counts := seq(|data|, j requires 0 <= j < |data| => AnswerCount(data[j]));
      blocks := data;
      keys := FreshRange(0, |data|);
      answerKeys := seq(|data|, j requires 0 <= j < |data| => FreshRange(|data|, AnswerCount(data[j])));
      nextKey := |data| + UpperBound(counts);
      nextId := UpperBound(Ids(data));
      effects := [];
      new;
      assert forall j :: 0 <= j < |data| ==> counts[j] == AnswerCount(data[j]);
    }

    /**
      The `reset` effect run when `initialData` changes: the blocks become
      exactly the new data (or none), prior edits are discarded, and every
      entry gets a fresh render key.
     */
    method Reset(initialData: Option<seq<Block>>)
      requires Valid()
      modifies this
      ensures Valid()
      ensures blocks == InitialBlocks(initialData)
      ensures forall j :: 0 <= j < |keys| ==> old(nextKey) <= keys[j]
      ensures forall j, k :: 0 <= j < |answerKeys| && 0 <= k < |answerKeys[j]| ==> old(nextKey) <= answerKeys[j][k]
      ensures nextKey >= old(nextKey) && nextId >= old(nextId)
      ensures effects == old(effects)
    {
      var data := InitialBlocks(initialData);
      var counts := seq(|data|, j requires 0 <= j < |data| => AnswerCount(data[j]));
      var base := nextKey + |data|;
      var idBound := UpperBound(Ids(data));
      blocks := data;
      keys := FreshRange(nextKey, |data|);
      answerKeys := seq(|data|, j requires 0 <= j < |data| => FreshRange(base, AnswerCount(data[j])));
      nextKey := base + UpperBound(counts);
      nextId := if nextId < idBound then idBound else nextId;
      assert forall j :: 0 <= j < |data| ==> counts[j] == AnswerCount(data[j]);
    }

    /** `addQuestionAnswerBlock`: one blank QUESTION_ANSWER block with one blank incorrect answer, at the end. */
    method AddQuestionAnswerBlock()
      requires Valid()
      modifies this
      ensures Valid()
      ensures blocks == old(blocks) + [QuestionAnswer(old(nextId), "", "", [IncorrectAnswer("")])]
      ensures keys == old(keys) + [old(nextKey)]
      ensures answerKeys == old(answerKeys) + [[old(nextKey) + 1]]
      ensures nextKey == old(nextKey) + 2 && nextId == old(nextId) + 1
      ensures effects == old(effects)
      ensures forall j :: 0 <= j < |old(blocks)| ==> blocks[j].id != blocks[|blocks| - 1].id
      ensures old(IdsDistinct(blocks)) ==> IdsDistinct(blocks)
    {
      AppendFreshKeepsDistinct(keys, nextKey);
      blocks := blocks + [QuestionAnswer(nextId, "", "", [IncorrectAnswer("")])];
      keys := keys + [nextKey];
      answerKeys := answerKeys + [[nextKey + 1]];
      nextKey := nextKey + 2;
      nextId := nextId + 1;
    }

    /** `addAnswerWithFixedLetters`: one blank ANSWER_WITH_FIXED_LETTERS block, at the end. */
    method AddAnswerWithFixedLetters()
      requires Valid()
      modifies this
      ensures Valid()
      ensures blocks == old(blocks) + [AnswerWithFixedLetters(old(nextId), "", "")]
      ensures keys == old(keys) + [old(nextKey)]
      ensures answerKeys == old(answerKeys) + [[]]
      ensures nextKey == old(nextKey) + 1 && nextId == old(nextId) + 1
      ensures effects == old(effects)
      ensures forall j :: 0 <= j < |old(blocks)| ==> blocks[j].id != blocks[|blocks| - 1].id
      ensures old(IdsDistinct(blocks)) ==> IdsDistinct(blocks)
    {
      AppendFreshKeepsDistinct(keys, nextKey);
      blocks := blocks + [AnswerWithFixedLetters(nextId, "", "")];
      keys := keys + [nextKey];
      answerKeys := answerKeys + [[]];
      nextKey := nextKey + 1;
      nextId := nextId + 1;
    }

    /**
      The close button of a rendered block: `remove(index)`. The button
      exists only next to a recognised editor, so an unknown block cannot
      be removed this way.
     */
    method RemoveBlock(index: nat)
      requires Valid()
      requires index < |blocks| && EditorFor(blocks[index]).Some?
      modifies this
      ensures Valid()
      ensures blocks == RemoveAt(old(blocks), index)
      ensures keys == RemoveAt(old(keys), index)
      ensures answerKeys == RemoveAt(old(answerKeys), index)
      ensures nextKey == old(nextKey) && nextId == old(nextId) && effects == old(effects)
      ensures old(IdsDistinct(blocks)) ==> IdsDistinct(blocks)
      ensures Items() == Render(RemoveAt(old(keys), index), RemoveAt(old(blocks), index))
    {
      RemoveAtKeepsDistinct(keys, index);
      ghost var before := blocks;
      blocks := RemoveAt(blocks, index);
      keys := RemoveAt(keys, index);
      answerKeys := RemoveAt(answerKeys, index);
      if IdsDistinct(before) {
        RemoveAtKeepsDistinct(Ids(before), index);
        assert Ids(blocks) == RemoveAt(Ids(before), index);
      }
    }

    /** `appendIncorrectAnswer` in the editor of block `index`: one blank entry at the end of its list. */
    method AppendIncorrectAnswer(index: nat)
      requires Valid()
      requires index < |blocks| && blocks[index].QuestionAnswer?
      modifies this
      ensures Valid()
      ensures blocks == old(blocks)[index := old(blocks[index]).(answer := old(blocks[index].answer) + [IncorrectAnswer("")])]
      ensures keys == old(keys)
      ensures answerKeys == old(answerKeys)[index := old(answerKeys[index]) + [old(nextKey)]]
      ensures nextKey == old(nextKey) + 1 && nextId == old(nextId) && effects == old(effects)
      ensures old(IdsDistinct(blocks)) ==> IdsDistinct(blocks)
    {
      var b := blocks[index];
      AppendFreshKeepsDistinct(answerKeys[index], nextKey);
      blocks := blocks[index := QuestionAnswer(b.id, b.question, b.correctAnswer, b.answer + [IncorrectAnswer("")])];
      answerKeys := answerKeys[index := answerKeys[index] + [nextKey]];
      nextKey := nextKey + 1;
    }

    /** The `x` button of incorrect answer `otherAnswerIndex` in block `index`: `remove(otherAnswerIndex)`. */
    method RemoveIncorrectAnswer(index: nat, otherAnswerIndex: nat)
      requires Valid()
      requires index < |blocks| && blocks[index].QuestionAnswer?
      requires otherAnswerIndex < |blocks[index].answer|
      modifies this
      ensures Valid()
      ensures blocks == old(blocks)[index := old(blocks[index]).(answer := RemoveAt(old(blocks[index].answer), otherAnswerIndex))]
      ensures keys == old(keys)
      ensures answerKeys == old(answerKeys)[index := RemoveAt(old(answerKeys[index]), otherAnswerIndex)]
      ensures nextKey == old(nextKey) && nextId == old(nextId) && effects == old(effects)
      ensures old(IdsDistinct(blocks)) ==> IdsDistinct(blocks)
    {
      var b := blocks[index];
      RemoveAtKeepsDistinct(answerKeys[index], otherAnswerIndex);
      blocks := blocks[index := QuestionAnswer(b.id, b.question, b.correctAnswer, RemoveAt(b.answer, otherAnswerIndex))];
      answerKeys := answerKeys[index := RemoveAt(answerKeys[index], otherAnswerIndex)];
    }

    /** Typing `value` into input `f` of the QUESTION_ANSWER editor of block `index`. */
    method EditField(index: nat, f: Field, value: string)
      requires Valid()
      requires index < |blocks| && blocks[index].QuestionAnswer? && f in Fields(blocks[index])
      modifies this
      ensures Valid()
      ensures blocks == old(blocks)[index := Edit(old(blocks[index]), f, value)]
      ensures keys == old(keys) && answerKeys == old(answerKeys)
      ensures nextKey == old(nextKey) && nextId == old(nextId) && effects == old(effects)
      ensures old(IdsDistinct(blocks)) ==> IdsDistinct(blocks)
    {
      var b' := Edit(blocks[index], f, value);
      blocks := blocks[index := b'];
    }

    /**
      The Save button: `handleSubmit(onSubmit)`. The errors are returned;
      the effects of the submit are appended to the log.
     */
    method Submit(mutateThrows: bool) returns (errors: map<FieldPath, FieldError>)
      requires Valid()
      modifies this`effects
      ensures Valid()
      ensures errors == Errors(blocks, fixedLettersValid)
      ensures effects == old(effects) + SubmitEffects(lessonId, blocks, fixedLettersValid, mutateThrows)
    {
      errors := Errors(blocks, fixedLettersValid);
      if errors == map[] {
        effects := effects + OnSubmit(lessonId, blocks, mutateThrows);
      }
    }
  }

  // ---------------------------------------------------------------------
  // Clients: what a caller can conclude from the contracts alone
  // ---------------------------------------------------------------------

  /** Appending a block and removing the last index leaves the blocks and their keys as they were. */
  method AppendThenRemoveLast(e: QuizContentEditor, questionAnswer: bool)
    requires e.Valid()
    modifies e
    ensures e.Valid()
    ensures e.blocks == old(e.blocks) && e.keys == old(e.keys) && e.answerKeys == old(e.answerKeys)
    ensures e.effects == old(e.effects)
  {
    if questionAnswer {
      e.AddQuestionAnswerBlock();
    } else {
      e.AddAnswerWithFixedLetters();
    }
    e.RemoveBlock(|e.blocks| - 1);
    RemoveLastAfterAppend(old(e.blocks), if questionAnswer then QuestionAnswer(old(e.nextId), "", "", [IncorrectAnswer("")]) else AnswerWithFixedLetters(old(e.nextId), "", ""));
    RemoveLastAfterAppend(old(e.keys), old(e.nextKey));
    RemoveLastAfterAppend(old(e.answerKeys), if questionAnswer then [old(e.nextKey) + 1] else []);
  }

  /**
    Empty initial data; add a question block; add a second incorrect
    answer; remove the first: the entry that was second is left, with its key.
   */
  method ScenarioNestedAnswers(fixedOk: FixedLettersCheck)
  {
    var e := new QuizContentEditor("lesson", Some([]), fixedOk);
    e.AddQuestionAnswerBlock();
    assert |e.blocks| == 1 && e.blocks[0].question == "" && e.blocks[0].correctAnswer == "";
    assert e.blocks[0].answer == [IncorrectAnswer("")];
    e.AppendIncorrectAnswer(0);
    assert e.blocks[0].answer == [IncorrectAnswer(""), IncorrectAnswer("")];
    assert e.answerKeys[0][0] != e.answerKeys[0][1];
    ghost var second := e.answerKeys[0][1];
    e.RemoveIncorrectAnswer(0, 0);
    assert e.blocks[0].answer == [IncorrectAnswer("")] && e.answerKeys[0] == [second];
  }

  /** A question block whose incorrect answer is still blank cannot be submitted. */
  method ScenarioBlankIncorrectAnswer(fixedOk: FixedLettersCheck)
  {
    var e := new QuizContentEditor("lesson", Some([QuestionAnswer(1, "Q", "", [IncorrectAnswer("")])]), fixedOk);
    e.EditField(0, CorrectAnswerField, "C");
    assert Value(e.blocks[0], OtherAnswerField(0)) == "";
    assert !BlockValid(e.blocks[0], fixedOk);
    ErrorsEmptyIff(e.blocks, fixedOk);
    var errors := e.Submit(false);
    assert errors != map[] && e.effects == [];
  }

  /** A filled form submits: one mutation with the blocks, then the two callbacks. */
  method ScenarioSubmit(fixedOk: FixedLettersCheck, mutateThrows: bool)
  {
    var filled := [QuestionAnswer(7, "Q", "C", [IncorrectAnswer("W")])];
    var e := new QuizContentEditor("lesson", Some(filled), fixedOk);
    assert BlockValid(e.blocks[0], fixedOk);
    ErrorsEmptyIff(e.blocks, fixedOk);
    var errors := e.Submit(mutateThrows);
    assert errors == map[];
    assert e.effects[0] == Mutate(Payload("lesson", filled));
    assert e.effects[|e.effects| - 2..] == [SetQuizContentEditable, SetIsSuccessVisible("lesson", true, true)];
  }

  /** Adding a fixed-letters block and removing block 0 leaves no blocks. */
  method ScenarioAddRemoveFixedLetters(fixedOk: FixedLettersCheck)
  {
    var e := new QuizContentEditor("lesson", Some([]), fixedOk);
    e.AddAnswerWithFixedLetters();
    e.RemoveBlock(0);
    assert e.blocks == [];
  }
}
