/** A quiz question (backend/models/Question.js): the schema as a validity predicate
    on stored questions, the construction of a new question and the merge an update
    performs. */
module QuestionModel {
  import opened Common

  /** A stored question; `location` is the id of a Location document, `createdAt` a
      timestamp in milliseconds. */
  datatype Question = Question(
    id: Id,
    question: string,
    options: seq<string>,
    correctAnswer: int,
    location: Id,
    month: string,
    year: int,
    createdAt: int)

  /** The fields of a request body, each possibly missing. */
  datatype QuestionFields = QuestionFields(
    question: Option<string>,
    options: Option<seq<string>>,
    correctAnswer: Option<int>,
    location: Option<Id>,
    month: Option<string>,
    year: Option<int>)

  const OptionCount := 4

  /** The question text is required after trimming. */
  predicate TextOk(s: string) {
    Trim(s) != ""
  }

  predicate OptionsOk(options: seq<string>) {
    |options| == OptionCount
  }

  predicate CorrectAnswerOk(c: int) {
    0 <= c <= OptionCount - 1
  }

  predicate MonthOk(m: string) {
    m in MonthNames
  }

  /** What the schema guarantees of every stored question. */
  predicate ValidQuestion(q: Question) {
    && Trimmed(q.question)
    && OptionsOk(q.options)
    && CorrectAnswerOk(q.correctAnswer)
    && MonthOk(q.month)
  }

  /** Validation of a new document: every required path present and valid; `year`
      may be missing since it has a default. */
  predicate FieldsAccepted(f: QuestionFields) {
    && f.question.Some? && TextOk(f.question.value)
    && f.options.Some? && OptionsOk(f.options.value)
    && f.correctAnswer.Some? && CorrectAnswerOk(f.correctAnswer.value)
    && f.location.Some?
    && f.month.Some? && MonthOk(f.month.value)
  }

  /** The stored text of a question is its own trimmed form. */
  lemma StoredTextIsTrimmed(q: Question)
    requires ValidQuestion(q)
    ensures Trim(q.question) == q.question
  {
    TrimTrimmed(q.question);
  }

  /** `new Question({...}).save()`: None is a validation error. `defaultYear` is the
      year the schema's default was computed in, `now` the clock reading. */
  function NewQuestion(id: Id, f: QuestionFields, defaultYear: int, now: int): (r: Option<Question>)
    ensures r.Some? <==> FieldsAccepted(f)
    ensures r.Some? ==> ValidQuestion(r.value)
    ensures r.Some? ==>
      && r.value.id == id && r.value.question == Trim(f.question.value)
      && r.value.options == f.options.value && r.value.correctAnswer == f.correctAnswer.value
      && r.value.location == f.location.value && r.value.month == f.month.value
      && r.value.year == (if f.year.Some? then f.year.value else defaultYear)
      && r.value.createdAt == now
  {
    if FieldsAccepted(f) then
      Some(Question(id, Trim(f.question.value), f.options.value, f.correctAnswer.value,
        f.location.value, f.month.value, f.year.GetOr(defaultYear), now))
    else None
  }

  /** Three options, or an answer index of 5, are refused. */
  lemma SchemaRejectsMalformed(id: Id, f: QuestionFields, defaultYear: int, now: int)
    requires (f.options.Some? && |f.options.value| == 3) || f.correctAnswer == Some(5)
    ensures NewQuestion(id, f, defaultYear, now).None?
  {
  }

  /** The update validators: each supplied field must be valid; a missing field is left
      out of the update. */
  predicate UpdateAccepted(f: QuestionFields) {
    && (f.question.Some? ==> TextOk(f.question.value))
    && (f.options.Some? ==> OptionsOk(f.options.value))
    && (f.correctAnswer.Some? ==> CorrectAnswerOk(f.correctAnswer.value))
    && (f.month.Some? ==> MonthOk(f.month.value))
  }

  /** The document `findByIdAndUpdate` leaves: supplied fields replace the stored ones,
      the others, the id and the creation time stay; a valid question stays valid. */
  function Merge(q: Question, f: QuestionFields): (r: Question)
    ensures r.id == q.id && r.createdAt == q.createdAt
    ensures r.question == (if f.question.Some? then Trim(f.question.value) else q.question)
    ensures r.options == f.options.GetOr(q.options) && r.correctAnswer == f.correctAnswer.GetOr(q.correctAnswer)
    ensures r.location == f.location.GetOr(q.location) && r.month == f.month.GetOr(q.month)
    ensures r.year == f.year.GetOr(q.year)
    ensures ValidQuestion(q) && UpdateAccepted(f) ==> ValidQuestion(r)
  {
    q.(question := if f.question.Some? then Trim(f.question.value) else q.question,
       options := f.options.GetOr(q.options),
       correctAnswer := f.correctAnswer.GetOr(q.correctAnswer),
       location := f.location.GetOr(q.location),
       month := f.month.GetOr(q.month),
       year := f.year.GetOr(q.year))
  }
}
