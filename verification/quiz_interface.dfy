/** The quiz-taking screen (src/components/QuizInterface.tsx): a session over the five
    built-in questions with a count-down timer, the answer recorded on "Next", and the
    score computed on submission. The `onQuizComplete` callback is modelled as the
    sequence of its calls. */
module QuizInterface {
  import opened Common

  /** The `correctAnswer` of each built-in question, in order. */
  const AnswerKey: seq<int> := [1, 1, 2, 1, 2]
  const QuestionCount := 5
  /** Thirty minutes, in seconds. */
  const TimeLimit := 1800

  /** The number of positions whose stored answer is that question's correct answer;
      positions past either sequence, and unanswered ones, never count. */
  function CountCorrect(answers: seq<Option<int>>, key: seq<int>): (c: nat)
    ensures c <= |answers| && c <= |key|
    ensures c == |key| <==> |key| <= |answers| && forall i :: 0 <= i < |key| ==> answers[i] == Some(key[i])
    ensures c == 0 <==> forall i :: 0 <= i < |answers| && i < |key| ==> answers[i] != Some(key[i])
  {
    if answers == [] || key == [] then 0
    else
      var rest := CountCorrect(answers[1..], key[1..]);
      assert forall i :: 1 <= i < |answers| && i < |key| ==> answers[i] == answers[1..][i - 1] && key[i] == key[1..][i - 1];
      (if answers[0] == Some(key[0]) then 1 else 0) + rest
  }

  /** `Math.round(correct / questions.length * 100)`: every correct answer is worth 20,
      so the score is 100 exactly when all five are right and 0 when none is. */
  function Score(answers: seq<Option<int>>): (r: int)
    ensures r == 20 * CountCorrect(answers, AnswerKey)
    ensures 0 <= r <= 100
    ensures r == 100 <==> |answers| >= QuestionCount && forall i :: 0 <= i < QuestionCount ==> answers[i] == Some(AnswerKey[i])
  {
    var c := CountCorrect(answers, AnswerKey);
    RoundUnique(100 * c, QuestionCount, 20 * c);
    Round(100 * c, QuestionCount)
  }

  /** `newAnswers[i] = v` on an array whose length is at least `i`: position `i` holds the
      answer, every other position is unchanged. */
  function SetSlot(answers: seq<Option<int>>, i: nat, v: int): (r: seq<Option<int>>)
    requires i <= |answers|
    ensures |r| == if i < |answers| then |answers| else |answers| + 1
    ensures r[i] == Some(v)
    ensures forall j :: 0 <= j < |answers| && j != i ==> r[j] == answers[j]
  {
    if i < |answers| then answers[i := Some(v)] else answers + [Some(v)]
  }

  /** `formatTime`: minutes, a colon, and the seconds padded to two digits. */
  function FormatTime(seconds: nat): (r: string)
    ensures |r| >= 4 && r[|r| - 3] == ':'
    ensures AllDigits(r[..|r| - 3]) && DigitsValue(r[..|r| - 3]) == seconds / 60
    ensures AllDigits(r[|r| - 2..]) && DigitsValue(r[|r| - 2..]) == seconds % 60
    // The minutes are written without leading zeros.
    ensures r[0] == '0' ==> |r| == 4
  {
    var minutes := NatToString(seconds / 60);
    var padded := PadSeconds(seconds % 60);
    var r := minutes + ":" + padded;
    assert r[..|r| - 3] == minutes && r[|r| - 2..] == padded && r[0] == minutes[0];
    r
  }

  /** `String(secs).padStart(2, '0')` for a number below 100. */
  function PadSeconds(n: nat): (p: string)
    requires n < 100
    ensures |p| == 2 && AllDigits(p) && DigitsValue(p) == n
  {
    var secs := NatToString(n);
    assert n >= 10 ==> secs == NatToString(n / 10) + [Digit(n % 10)];
    var padded := if |secs| < 2 then "0" + secs else secs;
    assert padded[..1] == [padded[0]] && DigitsValue([padded[0]]) == padded[0] as int - 48;
    padded
  }

  /** One call of `onQuizComplete(score, answers)`. */
  datatype Completion = Completion(score: int, answers: seq<Option<int>>)

  /** The component's state. `completions` records every call of `onQuizComplete`. In the
      app the first completion navigates to the results page, which unmounts the component
      and clears its timer; a session here stays alive, so a `Tick` after a completion can
      record a second one. */
  class QuizSession {
    var currentQuestion: nat
    var selectedAnswers: seq<Option<int>>
    var timeLeft: nat
    var selectedOption: Option<int>
    /** The calls of `onQuizComplete` so far, oldest first. */
    var completions: seq<Completion>

    /** Answers are recorded in order, so the current question is never past the end of
        the recorded answers. */
    ghost predicate Valid()
      reads this
    {
      currentQuestion < QuestionCount && currentQuestion <= |selectedAnswers| <= QuestionCount
    }

    constructor ()
      ensures Valid()
      ensures currentQuestion == 0 && selectedAnswers == [] && timeLeft == TimeLimit
      ensures selectedOption == None && completions == []
    {
      currentQuestion := 0;
      selectedAnswers := [];
      timeLeft := TimeLimit;
      selectedOption := None;
      completions := [];
    }

    /** The radio group's `onValueChange`. */
    method SelectOption(option: int)
      modifies this
      ensures selectedOption == Some(option)
      ensures currentQuestion == old(currentQuestion) && selectedAnswers == old(selectedAnswers)
      ensures timeLeft == old(timeLeft) && completions == old(completions)
    {
      selectedOption := Some(option);
    }

    /** `handleSubmitQuiz(answers)` */
    method Submit(answers: seq<Option<int>>)
      modifies this
      ensures completions == old(completions) + [Completion(Score(answers), answers)]
      ensures currentQuestion == old(currentQuestion) && selectedAnswers == old(selectedAnswers)
      ensures timeLeft == old(timeLeft) && selectedOption == old(selectedOption)
    {
      completions := completions + [Completion(Score(answers), answers)];
    }

    /** One firing of the timer effect's timeout: a second is counted down, and when the
        count reaches zero the effect runs again and submits the stored answers. At zero
        no timeout is pending, so nothing happens. */
    method Tick()
      modifies this
      ensures old(timeLeft) > 1 ==> timeLeft == old(timeLeft) - 1 && completions == old(completions)
      ensures old(timeLeft) == 1 ==>
        timeLeft == 0 && completions == old(completions) + [Completion(Score(selectedAnswers), selectedAnswers)]
      ensures old(timeLeft) == 0 ==> timeLeft == 0 && completions == old(completions)
      ensures currentQuestion == old(currentQuestion) && selectedAnswers == old(selectedAnswers)
      ensures selectedOption == old(selectedOption)
    {
      if timeLeft > 0 {
        timeLeft := timeLeft - 1;
        if timeLeft == 0 {
          Submit(selectedAnswers);
        }
      }
    }

    /** `handleNextQuestion`: without a selection nothing happens; otherwise the selection
        is recorded at the current question, then either the next question is shown with
        its stored answer (if any) selected, or, on the last question, the quiz is
        submitted with the updated answers. */
    method NextQuestion()
      requires Valid()
      modifies this
      ensures Valid()
      ensures old(selectedOption).None? ==>
        && currentQuestion == old(currentQuestion) && selectedAnswers == old(selectedAnswers)
        && selectedOption == old(selectedOption) && completions == old(completions)
      ensures old(selectedOption).Some? ==>
        selectedAnswers == SetSlot(old(selectedAnswers), old(currentQuestion), old(selectedOption).value)
      ensures old(selectedOption).Some? && old(currentQuestion) < QuestionCount - 1 ==>
        && currentQuestion == old(currentQuestion) + 1
        && selectedOption == (if currentQuestion < |selectedAnswers| then selectedAnswers[currentQuestion] else None)
        && completions == old(completions)
      ensures old(selectedOption).Some? && old(currentQuestion) == QuestionCount - 1 ==>
        && currentQuestion == old(currentQuestion) && selectedOption == old(selectedOption)
        && completions == old(completions) + [Completion(Score(selectedAnswers), selectedAnswers)]
      ensures timeLeft == old(timeLeft)
    {
      if selectedOption.Some? {
        var newAnswers := SetSlot(selectedAnswers, currentQuestion, selectedOption.value);
        selectedAnswers := newAnswers;
        if currentQuestion < QuestionCount - 1 {
          currentQuestion := currentQuestion + 1;
          selectedOption := if currentQuestion < |newAnswers| then newAnswers[currentQuestion] else None;
        } else {
          Submit(newAnswers);
        }
      }
    }
  }
}
