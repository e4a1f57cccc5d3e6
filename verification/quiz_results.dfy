/** The results screen (src/components/QuizResults.tsx): the correct and incorrect counts
    recovered from the percentage score, the colour and badge tiers, and the name printed
    on the certificate. */
module QuizResults {
  import opened Common
  import QuizInterface

  /** `Math.round(score / 100 * totalQuestions)`: for a score in 0..100 it lies in
      0..totalQuestions. */
  function CorrectAnswers(score: int, totalQuestions: nat): (r: int)
    ensures 200 * r - 100 <= 2 * score * totalQuestions < 200 * r + 100
    ensures 0 <= score <= 100 ==> 0 <= r <= totalQuestions
  {
    var r := Round(score * totalQuestions, 100);
    assert 0 <= score <= 100 ==> 0 <= r <= totalQuestions by {
      if 0 <= score <= 100 {
        MulMonotone(totalQuestions, score, 100);
        MulMonotone(totalQuestions, 0, score);
      }
    }
    r
  }

  /** `totalQuestions - correctAnswers` */
  function IncorrectAnswers(score: int, totalQuestions: nat): (r: int)
    ensures r + CorrectAnswers(score, totalQuestions) == totalQuestions
    ensures 0 <= score <= 100 ==> 0 <= r <= totalQuestions
  {
    totalQuestions - CorrectAnswers(score, totalQuestions)
  }

  /** "You answered X out of Y correctly" is true: for a score computed as
      `round(100 * c / n)` over at most 100 questions, the recovered count is `c`. */
  lemma {:induction false} CorrectCountRecovered(c: nat, n: nat)
    requires 1 <= n <= 100 && c <= n
    ensures CorrectAnswers(Round(100 * c, n), n) == c
  {
    var s := Round(100 * c, n);
    assert n * (2 * s - 1) == 2 * s * n - n && n * (2 * s + 1) == 2 * s * n + n;
    assert 200 * c - 100 <= 2 * s * n;
    assert 2 * s * n < 200 * c + 100;
    RoundUnique(s * n, 100, c);
  }

  /** The main screen shows the quiz's own five questions: its correct count is exactly
      the number of right answers. */
  lemma ResultsShowCorrectCount(answers: seq<Option<int>>)
    ensures CorrectAnswers(QuizInterface.Score(answers), QuizInterface.QuestionCount)
         == QuizInterface.CountCorrect(answers, QuizInterface.AnswerKey)
  {
    var c := QuizInterface.CountCorrect(answers, QuizInterface.AnswerKey);
    RoundUnique(100 * c, QuizInterface.QuestionCount, QuizInterface.Score(answers));
    CorrectCountRecovered(c, QuizInterface.QuestionCount);
  }

  /** `getScoreColor` */
  datatype ScoreColour = Emerald | Amber | Red

  function ColourOf(score: int): (r: ScoreColour)
    ensures r == Emerald <==> score >= 80
    ensures r == Amber <==> 60 <= score < 80
    ensures r == Red <==> score < 60
  {
    if score >= 80 then Emerald else if score >= 60 then Amber else Red
  }

  /** `getScoreBadge` */
  datatype Badge = Outstanding | Excellent | GoodJob | KeepLearning

  function BadgeOf(score: int): (r: Badge)
    ensures r == Outstanding <==> score >= 90
    ensures r == Excellent <==> 80 <= score < 90
    ensures r == GoodJob <==> 60 <= score < 80
    ensures r == KeepLearning <==> score < 60
  {
    if score >= 90 then Outstanding
    else if score >= 80 then Excellent
    else if score >= 60 then GoodJob
    else KeepLearning
  }

  /** The badge refines the colour: every badge sits inside one colour tier. */
  lemma BadgeWithinColour(score: int)
    ensures BadgeOf(score) in {Outstanding, Excellent} <==> ColourOf(score) == Emerald
    ensures BadgeOf(score) == GoodJob <==> ColourOf(score) == Amber
    ensures BadgeOf(score) == KeepLearning <==> ColourOf(score) == Red
  {
  }

  /** `userEmail.split('@')[0]`: the name on the certificate is the part of the email
      before its first '@'. */
  function CertificateName(email: string): (r: string)
    ensures '@' !in r && |r| <= |email| && r == email[..|r|]
    ensures |r| < |email| ==> email[|r|] == '@'
  {
    SplitFirst(email, '@')
  }

  lemma CertificateNameOfAddress(name: string, domain: string)
    requires '@' !in name
    ensures CertificateName(name + "@" + domain) == name
  {
    SplitFirstJoined(name, '@', domain);
  }
}
