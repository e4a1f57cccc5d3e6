/** The quiz selection screen (src/components/QuizSelection.tsx): the list of quizzes
    built from the caller's fetched scores, the statistics over the completed ones and the
    achievements they unlock. The fetch itself is left out; its result is a parameter. */
module QuizSelection {
  import opened Common

  /** One score as `GET /api/quiz/scores` returns it. */
  datatype FetchedScore = FetchedScore(month: string, year: int, score: int)

  /** One card of the list. */
  datatype Quiz = Quiz(
    id: string,
    month: string,
    year: int,
    isCurrent: bool,
    isCompleted: bool,
    score: Option<int>,
    totalQuestions: nat)

  const QuestionsPerQuiz := 5
  const CurrentId := "current"

  /** The card of a completed quiz; its id is the lower-cased month followed by the year. */
  function CompletedQuiz(s: FetchedScore): (q: Quiz)
    ensures q.isCompleted && !q.isCurrent && q.score == Some(s.score)
    ensures q.month == s.month && q.year == s.year && q.totalQuestions == QuestionsPerQuiz
    ensures |q.id| > |s.month| && q.id[..|s.month|] == ToLower(s.month)
    ensures q.id[|s.month|..] == IntToString(s.year)
  {
    var id := ToLower(s.month) + IntToString(s.year);
    assert id[..|s.month|] == ToLower(s.month) && id[|s.month|..] == IntToString(s.year);
    Quiz(id, s.month, s.year, false, true, Some(s.score), QuestionsPerQuiz)
  }

  function CompletedQuizzes(scores: seq<FetchedScore>): (r: seq<Quiz>)
    ensures |r| == |scores|
    ensures forall i :: 0 <= i < |scores| ==> r[i] == CompletedQuiz(scores[i])
  {
    if scores == [] then [] else [CompletedQuiz(scores[0])] + CompletedQuizzes(scores[1..])
  }

  /** `quizzes`: the current, not yet completed quiz first, then one completed quiz per
      fetched score, in fetch order. */
  function Quizzes(currentMonth: string, currentYear: int, scores: seq<FetchedScore>): (r: seq<Quiz>)
    ensures |r| == |scores| + 1
    ensures r[0] == Quiz(CurrentId, currentMonth, currentYear, true, false, None, QuestionsPerQuiz)
    ensures forall i :: 0 <= i < |scores| ==> r[i + 1] == CompletedQuiz(scores[i])
  {
    [Quiz(CurrentId, currentMonth, currentYear, true, false, None, QuestionsPerQuiz)] + CompletedQuizzes(scores)
  }

  /** `quizzes.filter(q => q.isCompleted)` */
  function Completed(quizzes: seq<Quiz>): (r: seq<Quiz>)
    ensures |r| <= |quizzes|
    ensures forall q :: q in r <==> q in quizzes && q.isCompleted
  {
    if quizzes == [] then []
    else (if quizzes[0].isCompleted then [quizzes[0]] else []) + Completed(quizzes[1..])
  }

  /** Exactly the fetched scores are completed. */
  lemma {:induction false} CompletedAreTheFetched(currentMonth: string, currentYear: int, scores: seq<FetchedScore>)
    ensures Completed(Quizzes(currentMonth, currentYear, scores)) == CompletedQuizzes(scores)
  {
    var qs := Quizzes(currentMonth, currentYear, scores);
    assert qs[1..] == CompletedQuizzes(scores);
    AllCompleted(CompletedQuizzes(scores));
  }

  lemma {:induction false} AllCompleted(qs: seq<Quiz>)
    requires forall i :: 0 <= i < |qs| ==> qs[i].isCompleted
    ensures Completed(qs) == qs
  {
    if qs != [] {
      AllCompleted(qs[1..]);
    }
  }

  /** `q.score || 0` */
  function ScoreOrZero(q: Quiz): int {
    if q.score.Some? then q.score.value else 0
  }

  /** Every score of `qs` lies in `lo..hi`. */
  predicate ScoresWithin(qs: seq<Quiz>, lo: int, hi: int) {
    forall i :: 0 <= i < |qs| ==> lo <= ScoreOrZero(qs[i]) <= hi
  }

  /** The sum the `reduce` computes. */
  function SumScores(qs: seq<Quiz>): int {
    if qs == [] then 0 else ScoreOrZero(qs[0]) + SumScores(qs[1..])
  }

  /** The sum of `n` scores in `lo..hi` lies in `n * lo .. n * hi`. */
  lemma {:induction false} SumWithin(qs: seq<Quiz>, lo: int, hi: int)
    requires ScoresWithin(qs, lo, hi)
    ensures |qs| * lo <= SumScores(qs) <= |qs| * hi
  {
    if qs != [] {
      assert ScoresWithin(qs[1..], lo, hi) by {
        assert forall i :: 0 <= i < |qs| - 1 ==> qs[1..][i] == qs[i + 1];
      }
      SumWithin(qs[1..], lo, hi);
      assert |qs| * lo == (|qs| - 1) * lo + lo;
      assert |qs| * hi == (|qs| - 1) * hi + hi;
    }
  }

  /** `averageScore`: the rounded mean, or 0 without completed quizzes. A mean of scores
      in a range lies in that range. */
  function AverageScore(completed: seq<Quiz>): (r: int)
    ensures completed == [] ==> r == 0
    // The mean lies within half a point of `r`, and a half rounds up.
    ensures completed != [] ==>
      |completed| * (2 * r - 1) <= 2 * SumScores(completed) < |completed| * (2 * r + 1)
    ensures forall lo, hi :: ScoresWithin(completed, lo, hi) && completed != [] ==> lo <= r <= hi
  {
    if completed == [] then 0
    else
      var n := |completed|;
      var sum := SumScores(completed);
      var r := Round(sum, n);
      assert forall lo, hi :: ScoresWithin(completed, lo, hi) ==> lo <= r <= hi by {
        forall lo, hi | ScoresWithin(completed, lo, hi) ensures lo <= r <= hi {
          SumWithin(completed, lo, hi);
          RoundedMeanInRange(sum, n, lo, hi);
        }
      }
      r
  }

  lemma RoundedMeanInRange(sum: int, n: int, lo: int, hi: int)
    requires n > 0 && n * lo <= sum <= n * hi
    ensures lo <= Round(sum, n) <= hi
  {
    var r := Round(sum, n);
    if r > hi {
      MulMonotone(n, 2 * hi + 1, 2 * r - 1);
    }
    if r < lo {
      MulMonotone(n, 2 * r + 1, 2 * lo - 1);
    }
  }

  /** `Math.max(...scores, 0)`: the best completed score, or 0 without one. */
  function BestScore(completed: seq<Quiz>): (r: int)
    ensures r >= 0
    ensures forall i :: 0 <= i < |completed| ==> ScoreOrZero(completed[i]) <= r
    ensures r == 0 || exists i :: 0 <= i < |completed| && ScoreOrZero(completed[i]) == r
  {
    if completed == [] then 0
    else
      var rest := BestScore(completed[1..]);
      assert forall i :: 1 <= i < |completed| ==> completed[i] == completed[1..][i - 1];
      if ScoreOrZero(completed[0]) > rest then ScoreOrZero(completed[0]) else rest
  }

  /** The page's statistics. */
  datatype Stats = Stats(averageScore: int, totalQuizzes: nat, bestScore: int)

  function StatsOf(quizzes: seq<Quiz>): (r: Stats)
    ensures r.totalQuizzes == |quizzes|
    ensures r.averageScore == AverageScore(Completed(quizzes)) && r.bestScore == BestScore(Completed(quizzes))
  {
    Stats(AverageScore(Completed(quizzes)), |quizzes|, BestScore(Completed(quizzes)))
  }

  /** The streak is a fixed placeholder. */
  const CurrentStreak := 2

  datatype Achievement = Achievement(name: string, unlocked: bool)

  /** `achievements`: First Quiz after one completed quiz, High Scorer at a best of 90,
      Consistent at a streak of 5 (never, with the fixed streak), Scholar after five
      completed quizzes. */
  function Achievements(completedCount: nat, bestScore: int): (r: seq<Achievement>)
    ensures |r| == 4
    ensures r[0] == Achievement("First Quiz", completedCount >= 1)
    ensures r[1] == Achievement("High Scorer", bestScore >= 90)
    ensures r[2] == Achievement("Consistent", false)
    ensures r[3] == Achievement("Scholar", completedCount >= 5)
  {
    [Achievement("First Quiz", completedCount >= 1),
     Achievement("High Scorer", bestScore >= 90),
     Achievement("Consistent", CurrentStreak >= 5),
     Achievement("Scholar", completedCount >= 5)]
  }

  /** Over the built list, First Quiz is unlocked exactly when a score was fetched and
      High Scorer exactly when one of them is at least 90. */
  lemma {:induction false} AchievementsOfFetchedScores(currentMonth: string, currentYear: int, scores: seq<FetchedScore>)
    ensures var completed := Completed(Quizzes(currentMonth, currentYear, scores));
      var a := Achievements(|completed|, BestScore(completed));
      && (a[0].unlocked <==> scores != [])
      && (a[1].unlocked <==> exists i :: 0 <= i < |scores| && scores[i].score >= 90)
      && (a[3].unlocked <==> |scores| >= 5)
  {
    CompletedAreTheFetched(currentMonth, currentYear, scores);
    var completed := CompletedQuizzes(scores);
    var best := BestScore(completed);
    if best >= 90 {
      var i :| 0 <= i < |completed| && ScoreOrZero(completed[i]) == best;
      assert scores[i].score == best;
    }
    if exists i :: 0 <= i < |scores| && scores[i].score >= 90 {
      var i :| 0 <= i < |scores| && scores[i].score >= 90;
      assert ScoreOrZero(completed[i]) == scores[i].score;
    }
  }

  /** `getScoreColor` of the selection screen. */
  datatype BarColour = Emerald | Blue | Orange | Red

  function BarColourOf(score: int): (r: BarColour)
    ensures r == Emerald <==> score >= 90
    ensures r == Blue <==> 80 <= score < 90
    ensures r == Orange <==> 70 <= score < 80
    ensures r == Red <==> score < 70
  {
    if score >= 90 then Emerald else if score >= 80 then Blue else if score >= 70 then Orange else Red
  }
}
