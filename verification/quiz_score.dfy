/** The best-score record of one user for one location and month
    (backend/models/QuizScore.js): its fields, the bounds and defaults the schema
    enforces, the compound unique key and the two query statics. */
module QuizScoreModel {
  import opened Common
  import opened Sequences

  /** One entry of the optional per-question log. */
  datatype AttemptedQuestion = AttemptedQuestion(question: Option<Id>, userAnswer: Option<int>, isCorrect: Option<bool>)

  /** A stored record. `completedAt` is a timestamp in milliseconds, `timeTaken` is in seconds. */
  datatype QuizScore = QuizScore(
    id: Id,
    user: Id,
    location: Id,
    score: int,
    totalQuestions: int,
    correctAnswers: int,
    month: string,
    year: int,
    completedAt: int,
    timeTaken: int,
    questionsAttempted: seq<AttemptedQuestion>)

  /** The fields of the compound unique index. */
  datatype ScoreKey = ScoreKey(user: Id, location: Id, month: string, year: int)

  function KeyOf(r: QuizScore): ScoreKey {
    ScoreKey(r.user, r.location, r.month, r.year)
  }

  const MinScore := 0
  const MaxScore := 100

  predicate ScoreInRange(score: int) {
    MinScore <= score <= MaxScore
  }

  /** The values a new record is built from, each possibly missing as in a request body. */
  datatype ScoreFields = ScoreFields(
    user: Id,
    location: Option<Id>,
    score: Option<int>,
    totalQuestions: Option<int>,
    correctAnswers: Option<int>,
    month: Option<string>,
    year: Option<int>,
    timeTaken: Option<int>,
    questionsAttempted: seq<AttemptedQuestion>)

  /** What the schema requires of a new document: every required path present (a required
      string must also be non-empty) and the score within its bounds. */
  predicate SchemaAccepts(f: ScoreFields) {
    && f.location.Some? && f.score.Some? && f.totalQuestions.Some? && f.correctAnswers.Some?
    && Truthy(f.month) && f.year.Some?
    && ScoreInRange(f.score.value)
  }

  /** Building and validating a new document: None is a validation error; otherwise the
      record holds the given values, `timeTaken` defaults to 0 and `completedAt` to `now`. */
  function NewQuizScore(id: Id, f: ScoreFields, now: int): (r: Option<QuizScore>)
    ensures r.Some? <==> SchemaAccepts(f)
    ensures r.Some? ==>
      && r.value.id == id && r.value.user == f.user && r.value.location == f.location.value
      && r.value.score == f.score.value && ScoreInRange(r.value.score)
      && r.value.totalQuestions == f.totalQuestions.value
      && r.value.correctAnswers == f.correctAnswers.value
      && r.value.month == f.month.value && r.value.month != "" && r.value.year == f.year.value
      && r.value.completedAt == now
      && r.value.timeTaken == (if f.timeTaken.Some? then f.timeTaken.value else 0)
      && r.value.questionsAttempted == f.questionsAttempted
  {
    if SchemaAccepts(f) then
      Some(QuizScore(id, f.user, f.location.value, f.score.value, f.totalQuestions.value,
        f.correctAnswers.value, f.month.value, f.year.value, now, f.timeTaken.GetOr(0),
        f.questionsAttempted))
    else None
  }

  /** At most one record per (user, location, month, year). */
  predicate UniqueKeys(t: seq<QuizScore>) {
    forall i, j :: 0 <= i < j < |t| ==> KeyOf(t[i]) != KeyOf(t[j])
  }

  /** The collection's invariant: the unique index, and every stored score within bounds
      with a non-empty month. */
  predicate ValidTable(t: seq<QuizScore>) {
    && UniqueKeys(t)
    && forall i :: 0 <= i < |t| ==> ScoreInRange(t[i].score) && t[i].month != ""
  }

  // ---------------------------------------------------------------------------
  // Sort orders

  /** `.sort({ completedAt: -1 })` */
  function CompletedAtDesc(a: QuizScore, b: QuizScore): bool {
    a.completedAt >= b.completedAt
  }

  /** `.sort({ score: -1 })` */
  function ScoreDesc(a: QuizScore, b: QuizScore): bool {
    a.score >= b.score
  }

  lemma CompletedAtDescIsPreorder()
    ensures TotalPreorder(CompletedAtDesc)
  {
  }

  lemma ScoreDescIsPreorder()
    ensures TotalPreorder(ScoreDesc)
  {
  }

  // ---------------------------------------------------------------------------
  // Statics

  /** `getUserMonthlyScores`: the user's records for the year, latest completion first. */
  function GetUserMonthlyScores(t: seq<QuizScore>, userId: Id, year: int): (r: seq<QuizScore>)
    ensures forall x :: multiset(r)[x] == if x.user == userId && x.year == year then multiset(t)[x] else 0
    ensures SortedBy(r, CompletedAtDesc)
  {
    var matching := Filter(t, (x: QuizScore) => x.user == userId && x.year == year);
    CompletedAtDescIsPreorder();
    SortBySorted(matching, CompletedAtDesc);
    SortBy(matching, CompletedAtDesc)
  }

  /** A user reference after `.populate('user', 'email')`: the referenced user's id and
      email. */
  datatype UserRef = UserRef(id: Id, email: string)

  /** A record whose user reference is populated; `user` is None (JSON null) when the
      referenced user no longer exists. */
  datatype RankedScore = RankedScore(record: QuizScore, user: Option<UserRef>)

  /** `.populate('user', 'email')` on one record; `emails` holds the email of every user
      that exists. */
  function PopulateUser(x: QuizScore, emails: map<Id, string>): (e: RankedScore)
    ensures e.record == x
    ensures e.user.Some? <==> x.user in emails
    ensures e.user.Some? ==> e.user.value.id == x.user && e.user.value.email == emails[x.user]
  {
    RankedScore(x, if x.user in emails then Some(UserRef(x.user, emails[x.user])) else None)
  }

  /** The records under a list of populated rows. */
  function RankedRecords(rows: seq<RankedScore>): (r: seq<QuizScore>)
    ensures |r| == |rows| && forall i :: 0 <= i < |rows| ==> r[i] == rows[i].record
  {
    if rows == [] then [] else [rows[0].record] + RankedRecords(rows[1..])
  }

  /** Populating every record of a list keeps the records and their order. */
  function PopulateUsers(xs: seq<QuizScore>, emails: map<Id, string>): (rows: seq<RankedScore>)
    ensures RankedRecords(rows) == xs
    ensures forall i :: 0 <= i < |xs| ==> rows[i] == PopulateUser(xs[i], emails)
  {
    if xs == [] then [] else [PopulateUser(xs[0], emails)] + PopulateUsers(xs[1..], emails)
  }

  /** The records of a location's leaderboard, before population. */
  function LocationBoard(t: seq<QuizScore>, locationId: Id, month: string, year: int): (r: seq<QuizScore>)
    ensures |r| <= 10
    ensures forall x :: x in r ==> x in t && x.location == locationId && x.month == month && x.year == year
    ensures SortedBy(r, ScoreDesc)
    ensures forall x ::
      multiset(r)[x] <= if x.location == locationId && x.month == month && x.year == year then multiset(t)[x] else 0
    ensures forall z :: z in t && z.location == locationId && z.month == month && z.year == year && z !in r ==>
      |r| == 10 && forall y :: y in r ==> y.score >= z.score
  {
    ScoreDescIsPreorder();
    FindSortLimit(t, (x: QuizScore) => x.location == locationId && x.month == month && x.year == year, ScoreDesc, 10)
  }

  /** `getLocationLeaderboard`: at most ten records of the period, highest score first,
      each with its user populated; no record left out has a higher score than one kept. */
  function GetLocationLeaderboard(t: seq<QuizScore>, emails: map<Id, string>, locationId: Id, month: string, year: int): (rows: seq<RankedScore>)
    ensures |RankedRecords(rows)| <= 10
    ensures forall x :: x in RankedRecords(rows) ==> x in t && x.location == locationId && x.month == month && x.year == year
    ensures SortedBy(RankedRecords(rows), ScoreDesc)
    ensures forall x ::
      multiset(RankedRecords(rows))[x] <= if x.location == locationId && x.month == month && x.year == year then multiset(t)[x] else 0
    ensures forall z :: z in t && z.location == locationId && z.month == month && z.year == year && z !in RankedRecords(rows) ==>
      |RankedRecords(rows)| == 10 && forall y :: y in RankedRecords(rows) ==> y.score >= z.score
    ensures forall i :: 0 <= i < |rows| ==>
      rows[i].user == if rows[i].record.user in emails then Some(UserRef(rows[i].record.user, emails[rows[i].record.user])) else None
  {
    var board := LocationBoard(t, locationId, month, year);
    PopulateUsers(board, emails)
  }
}
