/**
  The per-block editor of a QUESTION_ANSWER block: the validation rules it
  registers on `question`, `correctAnswer` and every `answer.k.otherAnswer`,
  the errors those rules report, keyed by field path, and what typing into
  one of its inputs does to the block. The fixed-letters editor is not part
  of this model beyond an abstract validity check it is given.
 */
module QuestionAnswerForm {
  import opened QuizBlocks

  /** A registered input of one block, relative to `blocks.<i>`. */
  datatype Field =
    | QuestionField                  // blocks.i.question
    | CorrectAnswerField             // blocks.i.correctAnswer
    | OtherAnswerField(entry: nat)   // blocks.i.answer.k.otherAnswer
    | FixedLettersForm               // whatever the fixed-letters editor registers

  /** The full path an error is keyed by. */
  datatype FieldPath = FieldPath(block: nat, field: Field)

  datatype FieldError =
    | Required(message: string)
    | MinLength(message: string)
    | FixedLettersRejected

  /** The `required` and `minLength` options passed to `register`. */
  datatype Rules = Rules(required: bool, requiredMessage: string, minLength: nat, minLengthMessage: string)

  const QuestionRules := Rules(true, "Question is required", 1, "Min length is 1 letter")
  const CorrectAnswerRules := Rules(true, "Correct Answer is required", 1, "Min length is 1 letter")
  const IncorrectAnswerRules := Rules(true, "Incorrect Answer is required", 1, "Min length is 1 letter")

  /** Validity of a fixed-letters block, decided by an editor this model does not see: (question, answer). */
  type FixedLettersCheck = (string, string) -> bool

  /**
    One field's first failing rule, in react-hook-form's order: `required`
    fails on the empty string; `minLength` is only consulted on a non-empty
    string.
   */
  function Validate(value: string, rules: Rules): (r: Option<FieldError>)
  {
    if rules.required && value == "" then Some(Required(rules.requiredMessage))
    else if value != "" && |value| < rules.minLength then Some(MinLength(rules.minLengthMessage))
    else None
  }

  /**
    With `required` and `minLength: 1` the value is valid exactly when it is
    non-empty (no trimming), and the only message ever reported is the
    `required` one.
   */
  lemma RequiredWithMinLengthOne(value: string, rules: Rules)
    requires rules.required && rules.minLength == 1
    ensures Validate(value, rules).None? <==> |value| > 0
    ensures Validate(value, rules).Some? ==> Validate(value, rules) == Some(Required(rules.requiredMessage))
  {
  }

  /** The inputs a block's editor registers. An unknown tag renders no editor and registers nothing. */
  function Fields(b: Block): (r: set<Field>)
    ensures QuestionField in r <==> b.QuestionAnswer?
    ensures CorrectAnswerField in r <==> b.QuestionAnswer?
    ensures forall k: nat :: OtherAnswerField(k) in r <==> b.QuestionAnswer? && k < |b.answer|
    ensures FixedLettersForm in r <==> b.AnswerWithFixedLetters?
  {
    match b
    case QuestionAnswer(_, _, _, answer) =>
      {QuestionField, CorrectAnswerField} + set k | 0 <= k < |answer| :: OtherAnswerField(k)
    case AnswerWithFixedLetters(_, _, _) => {FixedLettersForm}
    case UnknownType(_, _) => {}
  }

  /** The error a registered field of `b` reports, if any. */
  function Check(b: Block, f: Field, fixedOk: FixedLettersCheck): Option<FieldError>
    requires f in Fields(b)
  {
    match f
    case QuestionField => Validate(b.question, QuestionRules)
    case CorrectAnswerField => Validate(b.correctAnswer, CorrectAnswerRules)
    case OtherAnswerField(k) => Validate(b.answer[k].otherAnswer, IncorrectAnswerRules)
    case FixedLettersForm =>
      if fixedOk(b.question, b.fixedAnswer) then None else Some(FixedLettersRejected)
  }

  /** A block passes: every QA field non-empty (any number of incorrect answers, zero included). */
  predicate BlockValid(b: Block, fixedOk: FixedLettersCheck)
  {
    match b
    case QuestionAnswer(_, question, correctAnswer, answer) =>
      question != "" && correctAnswer != ""
      && forall k :: 0 <= k < |answer| ==> answer[k].otherAnswer != ""
    case AnswerWithFixedLetters(_, question, fixedAnswer) => fixedOk(question, fixedAnswer)
    case UnknownType(_, _) => true
  }

  /** The errors of block `i`, keyed by their paths; every key lies inside block `i`. */
  function BlockErrors(i: nat, b: Block, fixedOk: FixedLettersCheck): (r: map<FieldPath, FieldError>)
    ensures forall p :: p in r ==> p.block == i && p.field in Fields(b)
    ensures forall f :: f in Fields(b) ==>
      (FieldPath(i, f) in r <==> Check(b, f, fixedOk).Some?)
      && (FieldPath(i, f) in r ==> r[FieldPath(i, f)] == Check(b, f, fixedOk).value)
  {
    map f | f in Fields(b) && Check(b, f, fixedOk).Some? :: FieldPath(i, f) := Check(b, f, fixedOk).value
  }

  /** A block reports no error exactly when it is valid. */
  lemma {:induction false} BlockErrorsEmptyIff(i: nat, b: Block, fixedOk: FixedLettersCheck)
    ensures BlockErrors(i, b, fixedOk) == map[] <==> BlockValid(b, fixedOk)
  {
    var r := BlockErrors(i, b, fixedOk);
    if BlockValid(b, fixedOk) {
      if b.QuestionAnswer? {
        RequiredWithMinLengthOne(b.question, QuestionRules);
        RequiredWithMinLengthOne(b.correctAnswer, CorrectAnswerRules);
        forall k | 0 <= k < |b.answer| ensures Validate(b.answer[k].otherAnswer, IncorrectAnswerRules).None? {
          RequiredWithMinLengthOne(b.answer[k].otherAnswer, IncorrectAnswerRules);
        }
      }
      assert forall p :: p !in r;
    } else {
      match b
      case QuestionAnswer(_, question, correctAnswer, answer) =>
        if question == "" {
          assert FieldPath(i, QuestionField) in r;
        } else if correctAnswer == "" {
          assert FieldPath(i, CorrectAnswerField) in r;
        } else {
          var k :| 0 <= k < |answer| && answer[k].otherAnswer == "";
          assert FieldPath(i, OtherAnswerField(k)) in r;
        }
      case AnswerWithFixedLetters(_, _, _) =>
        assert FieldPath(i, FixedLettersForm) in r;
    }
  }

  /**
    The exact errors of a QUESTION_ANSWER block: each input is marked,
    with its `required` message, exactly when it is empty.
   */
  lemma QuestionAnswerErrors(i: nat, b: Block, fixedOk: FixedLettersCheck)
    requires b.QuestionAnswer?
    ensures var r := BlockErrors(i, b, fixedOk);
      && (FieldPath(i, QuestionField) in r <==> b.question == "")
      && (FieldPath(i, QuestionField) in r ==> r[FieldPath(i, QuestionField)] == Required("Question is required"))
      && (FieldPath(i, CorrectAnswerField) in r <==> b.correctAnswer == "")
      && (FieldPath(i, CorrectAnswerField) in r ==> r[FieldPath(i, CorrectAnswerField)] == Required("Correct Answer is required"))
      && (forall k :: 0 <= k < |b.answer| ==>
            (FieldPath(i, OtherAnswerField(k)) in r <==> b.answer[k].otherAnswer == "")
            && (FieldPath(i, OtherAnswerField(k)) in r ==>
                  r[FieldPath(i, OtherAnswerField(k))] == Required("Incorrect Answer is required")))
      && (forall p :: p in r ==> r[p].Required?)
  {
  }

  /** The current text of a QUESTION_ANSWER input. */
  function Value(b: Block, f: Field): string
    requires b.QuestionAnswer? && f in Fields(b)
  {
    match f
    case QuestionField => b.question
    case CorrectAnswerField => b.correctAnswer
    case OtherAnswerField(k) => b.answer[k].otherAnswer
  }

  /**
    Typing `v` into one input of a QUESTION_ANSWER block: that input now
    reads `v`, every other input and the id are as they were, and the
    same inputs stay registered.
   */
  function Edit(b: Block, f: Field, v: string): (r: Block)
    requires b.QuestionAnswer? && f in Fields(b)
    ensures r.QuestionAnswer? && r.id == b.id && |r.answer| == |b.answer| && Fields(r) == Fields(b)
    ensures forall g :: g in Fields(b) ==> Value(r, g) == if g == f then v else Value(b, g)
  {
    match f
    case QuestionField => QuestionAnswer(b.id, v, b.correctAnswer, b.answer)
    case CorrectAnswerField => QuestionAnswer(b.id, b.question, v, b.answer)
    case OtherAnswerField(k) => QuestionAnswer(b.id, b.question, b.correctAnswer, b.answer[k := IncorrectAnswer(v)])
  }
}
