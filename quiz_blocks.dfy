/**
  The quiz blocks a lesson's quiz content is made of (`QuizBlocks` in the
  lesson entity): a tagged union on the block's `type`. The editor tolerates a
  tag it does not know, so the model keeps a catch-all case for it.
 */
module QuizBlocks {

  datatype Option<T> = None | Some(value: T)

  /** One entry of a question's list of incorrect answers (`{otherAnswer}`). */
  datatype IncorrectAnswer = IncorrectAnswer(otherAnswer: string)

  /**
    A block of the form. `id` stands for the client-generated uuid. The
    fixed-letters block's single answer string is the source's `answer`
    field; it is called `fixedAnswer` here because Dafny requires a
    destructor name shared by two constructors to have one type.
   */
  datatype Block =
    | QuestionAnswer(id: nat, question: string, correctAnswer: string, answer: seq<IncorrectAnswer>)
    | AnswerWithFixedLetters(id: nat, question: string, fixedAnswer: string)
    | UnknownType(id: nat, tag: string)

  /** Length of the block's nested incorrect-answer list (none outside QUESTION_ANSWER). */
  function AnswerCount(b: Block): nat
  {
    if b.QuestionAnswer? then |b.answer| else 0
  }

  /** The block ids, in list order. */
  function Ids(blocks: seq<Block>): (r: seq<nat>)
    ensures |r| == |blocks|
    ensures forall j :: 0 <= j < |blocks| ==> r[j] == blocks[j].id
  {
    seq(|blocks|, j requires 0 <= j < |blocks| => blocks[j].id)
  }

  /** No two blocks share an id. */
  predicate IdsDistinct(blocks: seq<Block>)
  {
    forall j, k :: 0 <= j < k < |blocks| ==> blocks[j].id != blocks[k].id
  }

  /** `initialData || []`: the form's blocks when the initial data is absent are empty. */
  function InitialBlocks(initialData: Option<seq<Block>>): seq<Block>
  {
    match initialData
    case None => []
    case Some(data) => data
  }
}
