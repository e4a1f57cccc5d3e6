/** The best-score service (backend/controllers/quizScoreController.js): an upsert that
    only overwrites a record on a strictly higher score, the caller's scores, the monthly
    top-10 leaderboard and the per-user aggregate. The collection is a sequence of records
    in insertion order. */
module QuizScoreController {
  import opened Common
  import opened Sequences
  import opened QuizScoreModel

  /** The body of a save request; any field may be missing. */
  datatype SaveRequest = SaveRequest(
    score: Option<int>,
    totalQuestions: Option<int>,
    correctAnswers: Option<int>,
    month: Option<string>,
    year: Option<int>,
    locationId: Option<Id>,
    timeTaken: Option<int>,
    questionsAttempted: seq<AttemptedQuestion>)

  datatype SaveReply = SaveReply(message: string, score: QuizScore, isNewHighScore: bool)

  const ValidationFailed := "QuizScore validation failed"

  /** The `findOne` filter `{ user, location: locationId, month, year }` of a save: a
      field missing from the body is undefined, and its condition is dropped. */
  predicate MatchesRequest(x: QuizScore, userId: Id, req: SaveRequest) {
    x.user == userId && Holds(req.locationId, x.location) && Holds(req.month, x.month) && Holds(req.year, x.year)
  }

  function FieldsOf(userId: Id, req: SaveRequest): ScoreFields {
    ScoreFields(userId, req.locationId, req.score, req.totalQuestions, req.correctAnswers,
      req.month, req.year, req.timeTaken, req.questionsAttempted)
  }

  /** `findOne` with the request's filter: the first record it matches, if any. With
      every key field given, that is the record with the request's key. */
  function Existing(t: seq<QuizScore>, userId: Id, req: SaveRequest): (r: Option<nat>)
    ensures r.Some? ==> r.value < |t| && MatchesRequest(t[r.value], userId, req)
    ensures r.Some? ==> forall j :: 0 <= j < r.value ==> !MatchesRequest(t[j], userId, req)
    ensures r.None? <==> forall j :: 0 <= j < |t| ==> !MatchesRequest(t[j], userId, req)
  {
    FindFirst(t, (x: QuizScore) => MatchesRequest(x, userId, req))
  }

  /** Whether the overwritten document passes validation on save: the two required counts
      are present and the new score is within bounds. */
  predicate UpdateAccepted(req: SaveRequest) {
    req.score.Some? && req.totalQuestions.Some? && req.correctAnswers.Some? && ScoreInRange(req.score.value)
  }

  /** The six assignments made to a record beaten by a higher score. */
  function Overwrite(doc: QuizScore, req: SaveRequest, now: int): QuizScore
    requires UpdateAccepted(req)
  {
    doc.(score := req.score.value, totalQuestions := req.totalQuestions.value,
      correctAnswers := req.correctAnswers.value, timeTaken := req.timeTaken.GetOr(0),
      completedAt := now, questionsAttempted := req.questionsAttempted)
  }

  datatype SaveOutcome = SaveOutcome(table: seq<QuizScore>, response: Response<SaveReply>)

  /** `saveQuizScore` for caller `userId` at time `now`; a created record gets id `newId`. */
  function Save(t: seq<QuizScore>, newId: Id, userId: Id, req: SaveRequest, now: int): (o: SaveOutcome)
    // Any failure answers 400 and leaves the collection as it was.
    ensures o.response.Err? ==> o.table == t && o.response.status == 400
    // It fails exactly when the record it would create, or the overwrite of a beaten
    // record, does not pass validation.
    ensures o.response.Err? <==>
      if Existing(t, userId, req).None? then !SchemaAccepts(FieldsOf(userId, req))
      else req.score.Some? && req.score.value > t[Existing(t, userId, req).value].score && !UpdateAccepted(req)
    // No record for the key: exactly one record is added, holding the submitted fields.
    ensures o.response.Ok? && o.response.status == 201 ==>
      && Existing(t, userId, req).None?
      && o.table == t + [o.response.body.score]
      && Some(o.response.body.score) == NewQuizScore(newId, FieldsOf(userId, req), now)
      && o.response.body.isNewHighScore
    // A strictly higher score overwrites the record's attempt fields in place.
    ensures o.response.Ok? && o.response.status == 200 && o.response.body.isNewHighScore ==>
      && Existing(t, userId, req).Some? && UpdateAccepted(req)
      && var i := Existing(t, userId, req).value;
      && t[i].score < req.score.value
      && o.table == t[i := o.response.body.score]
      && o.response.body.score == Overwrite(t[i], req, now)
    // Otherwise the stored record is reported and nothing changes.
    ensures o.response.Ok? && !o.response.body.isNewHighScore ==>
      && Existing(t, userId, req).Some?
      && o.table == t
      && o.response.body.score == t[Existing(t, userId, req).value]
      && (req.score.None? || req.score.value <= o.response.body.score.score)
    // The flag is true exactly for a new key or a strictly higher score.
    ensures o.response.Ok? ==> (o.response.body.isNewHighScore <==>
      (Existing(t, userId, req).None? ||
        (req.score.Some? && req.score.value > t[Existing(t, userId, req).value].score)))
    ensures o.response.Ok? ==> o.response.status == (if Existing(t, userId, req).None? then 201 else 200)
    // Records keep their position, id and key; scores never go down; only the request's key changes.
    ensures |o.table| >= |t|
    ensures forall i :: 0 <= i < |t| ==>
      && KeyOf(o.table[i]) == KeyOf(t[i]) && o.table[i].id == t[i].id
      && o.table[i].score >= t[i].score
      && (o.table[i] != t[i] ==> MatchesRequest(t[i], userId, req))
    // The unique index and the score bounds survive every save.
    ensures ValidTable(t) ==> ValidTable(o.table)
  {
    var existing := Existing(t, userId, req);
    if existing.Some? then
      var doc := t[existing.value];
      if req.score.Some? && req.score.value > doc.score then
        if UpdateAccepted(req) then
          var updated := Overwrite(doc, req, now);
          SaveOutcome(t[existing.value := updated], Ok(200, SaveReply("Score updated (new high score!)", updated, true)))
        else SaveOutcome(t, Err(400, ValidationFailed))
      else SaveOutcome(t, Ok(200, SaveReply("Score recorded (previous score was higher)", doc, false)))
    else
      match NewQuizScore(newId, FieldsOf(userId, req), now)
      case None => SaveOutcome(t, Err(400, ValidationFailed))
      case Some(created) =>
        SaveOutcome(t + [created], Ok(201, SaveReply("Score saved successfully", created, true)))
  }

  /** One call of the save handler. */
  datatype SaveCall = SaveCall(userId: Id, req: SaveRequest, now: int)

  function NextIdAfter(nextId: Id, o: SaveOutcome): Id {
    if o.response.Ok? && o.response.status == 201 then nextId + 1 else nextId
  }

  /** The collection after a sequence of saves, one at a time. */
  function ApplySaves(t: seq<QuizScore>, nextId: Id, calls: seq<SaveCall>): seq<QuizScore>
    decreases |calls|
  {
    if calls == [] then t
    else
      var o := Save(t, nextId, calls[0].userId, calls[0].req, calls[0].now);
      ApplySaves(o.table, NextIdAfter(nextId, o), calls[1..])
  }

  /** Across any sequence of saves no record moves, changes key or loses score, and the
      unique index and score bounds hold throughout. */
  lemma {:induction false} SavesNeverLowerAScore(t: seq<QuizScore>, nextId: Id, calls: seq<SaveCall>)
    ensures var final := ApplySaves(t, nextId, calls);
      && |final| >= |t|
      && (forall i :: 0 <= i < |t| ==>
            KeyOf(final[i]) == KeyOf(t[i]) && final[i].id == t[i].id && final[i].score >= t[i].score)
      && (ValidTable(t) ==> ValidTable(final))
    decreases |calls|
  {
    if calls != [] {
      var o := Save(t, nextId, calls[0].userId, calls[0].req, calls[0].now);
      SavesNeverLowerAScore(o.table, NextIdAfter(nextId, o), calls[1..]);
    }
  }

  /** A save whose body omits the month matches the user's record of another month at
      the same location and year, and a higher score overwrites that record, which keeps
      its month. */
  lemma MissingMonthOverwritesAnotherMonth(r: QuizScore, req: SaveRequest, newId: Id, now: int)
    requires r.score == 50 && req.score == Some(80) && UpdateAccepted(req)
    requires req.month.None? && req.locationId == Some(r.location) && req.year == Some(r.year)
    ensures var o := Save([r], newId, r.user, req, now);
      && o.response == Ok(200, SaveReply("Score updated (new high score!)", Overwrite(r, req, now), true))
      && o.table == [Overwrite(r, req, now)] && o.table[0].month == r.month
  {
    assert MatchesRequest(r, r.user, req);
  }

  /** The collection with the operations that change it. `nextId` stands for the
      database's id allocation. */
  class QuizScoreStore {
    var records: seq<QuizScore>
    var nextId: Id

    ghost predicate Valid()
      reads this
    {
      && ValidTable(records)
      && forall i :: 0 <= i < |records| ==> records[i].id < nextId
    }

    constructor ()
      ensures Valid() && records == [] && nextId == 0
    {
      records := [];
      nextId := 0;
    }

    /** `QuizScore.findOne({ user, location, month, year })` */
    method FindOne(userId: Id, req: SaveRequest) returns (index: Option<nat>)
      ensures index == Existing(records, userId, req)
    {
      var i := 0;
      while i < |records|
        invariant 0 <= i <= |records|
        invariant forall j :: 0 <= j < i ==> !MatchesRequest(records[j], userId, req)
      {
        if MatchesRequest(records[i], userId, req) {
          return Some(i);
        }
        i := i + 1;
      }
      return None;
    }

    /** `saveQuizScore`: look the request's filter up, then either assign the six attempt fields of a
        beaten record and save it, or insert a new record. */
    method SaveQuizScore(userId: Id, req: SaveRequest, now: int) returns (response: Response<SaveReply>)
      requires Valid()
      modifies this
      ensures Valid()
      ensures records == Save(old(records), old(nextId), userId, req, now).table
      ensures response == Save(old(records), old(nextId), userId, req, now).response
      ensures nextId == NextIdAfter(old(nextId), Save(old(records), old(nextId), userId, req, now))
    {
      var existing := FindOne(userId, req);
      if existing.Some? {
        var doc := records[existing.value];
        if req.score.Some? && req.score.value > doc.score {
          if !UpdateAccepted(req) {
            return Err(400, ValidationFailed);
          }
          doc := doc.(score := req.score.value);
          doc := doc.(totalQuestions := req.totalQuestions.value);
          doc := doc.(correctAnswers := req.correctAnswers.value);
          doc := doc.(timeTaken := req.timeTaken.GetOr(0));
          doc := doc.(completedAt := now);
          doc := doc.(questionsAttempted := req.questionsAttempted);
          records := records[existing.value := doc];
          return Ok(200, SaveReply("Score updated (new high score!)", doc, true));
        }
        return Ok(200, SaveReply("Score recorded (previous score was higher)", doc, false));
      }
      var created := NewQuizScore(nextId, FieldsOf(userId, req), now);
      if created.None? {
        return Err(400, ValidationFailed);
      }
      records := records + [created.value];
      nextId := nextId + 1;
      response := Ok(201, SaveReply("Score saved successfully", created.value, true));
    }
  }

  // ---------------------------------------------------------------------------
  // Queries

  /** The message of the cast error a NaN year raises in a query. */
  const YearCastError := "Cast to Number failed for value \"NaN\" at path \"year\""

  /** `getUserScores`: the caller's records, restricted to the year when one is given,
      latest completion first. */
  function GetUserScores(t: seq<QuizScore>, userId: Id, year: Option<string>): (r: Response<seq<QuizScore>>)
    ensures r.Err? <==> Truthy(year) && ParseInt(year.value).None?
    ensures r.Err? ==> r.status == 400
    ensures r.Ok? ==> r.status == 200 && SortedBy(r.body, CompletedAtDesc)
    ensures r.Ok? ==>
      forall x :: multiset(r.body)[x] ==
        (if x.user == userId && (Truthy(year) ==> Some(x.year) == ParseInt(year.value)) then multiset(t)[x] else 0)
  {
    if Truthy(year) && ParseInt(year.value).None? then Err(400, YearCastError)
    else
      var matching := Filter(t, (x: QuizScore) =>
        x.user == userId && (Truthy(year) ==> Some(x.year) == ParseInt(year.value)));
      CompletedAtDescIsPreorder();
      SortBySorted(matching, CompletedAtDesc);
      Ok(200, SortBy(matching, CompletedAtDesc))
  }

  /** `.sort({ score: -1, timeTaken: 1 })`: higher score first, then the faster attempt. */
  function ScoreThenTime(a: QuizScore, b: QuizScore): bool {
    a.score > b.score || (a.score == b.score && a.timeTaken <= b.timeTaken)
  }

  lemma ScoreThenTimeIsPreorder()
    ensures TotalPreorder(ScoreThenTime)
  {
  }

  /** `.sort({ score: -1, timeTaken: 1 }).limit(10)` over the records `matches` selects. */
  function TopTen(t: seq<QuizScore>, matches: QuizScore -> bool): (r: seq<QuizScore>)
    ensures |r| <= 10 && SortedBy(r, ScoreThenTime)
    ensures forall x :: x in r ==> x in t && matches(x)
    ensures forall x :: multiset(r)[x] <= if matches(x) then multiset(t)[x] else 0
    ensures forall z :: z in t && matches(z) && z !in r ==>
      |r| == 10 && forall y :: y in r ==> ScoreThenTime(y, z)
  {
    ScoreThenTimeIsPreorder();
    FindSortLimit(t, matches, ScoreThenTime, 10)
  }

  /** Whether a record belongs to the requested period; a missing location or month is
      undefined, and its condition is dropped. */
  predicate InPeriod(x: QuizScore, locationId: Option<Id>, month: Option<string>, year: int) {
    Holds(locationId, x.location) && Holds(month, x.month) && x.year == year
  }

  /** `getMonthlyLeaderboard`: at most ten records of the period, best first, each with
      its user populated; no record left out ranks above one that was kept. A year that
      does not parse is a cast error. */
  function GetMonthlyLeaderboard(t: seq<QuizScore>, emails: map<Id, string>, locationId: Option<Id>, month: Option<string>,
                                 year: Option<string>): (r: Response<seq<RankedScore>>)
    ensures r.Err? <==> ParseOptionalInt(year).None?
    ensures r.Err? ==> r.status == 400
    ensures r.Ok? ==> var b := RankedRecords(r.body); var y := ParseOptionalInt(year).value;
      && r.status == 200 && |b| <= 10 && SortedBy(b, ScoreThenTime)
      && (forall x :: x in b ==> x in t && InPeriod(x, locationId, month, y))
      && (forall x :: multiset(b)[x] <= if InPeriod(x, locationId, month, y) then multiset(t)[x] else 0)
      && (forall z :: z in t && InPeriod(z, locationId, month, y) && z !in b ==>
            |b| == 10 && forall w :: w in b ==> ScoreThenTime(w, z))
    ensures r.Ok? ==> forall i :: 0 <= i < |r.body| ==>
      r.body[i].user == if r.body[i].record.user in emails then Some(UserRef(r.body[i].record.user, emails[r.body[i].record.user])) else None
  {
    var y := ParseOptionalInt(year);
    if y.None? then Err(400, YearCastError)
    else Ok(200, PopulateUsers(TopTen(t, (x: QuizScore) => InPeriod(x, locationId, month, y.value)), emails))
  }

  /** Three records of one period: scores 80, 95, 95 taking 10, 20 and 15 seconds rank
      95/15, then 95/20, then 80/10. */
  lemma LeaderboardTieBreakExample(a: QuizScore, b: QuizScore, c: QuizScore)
    requires a.score == 80 && a.timeTaken == 10
    requires b.score == 95 && b.timeTaken == 20
    requires c.score == 95 && c.timeTaken == 15
    ensures SortBy([a, b, c], ScoreThenTime) == [c, b, a]
  {
    assert !ScoreThenTime(a, c) && !ScoreThenTime(a, b) && !ScoreThenTime(b, c);
    SortByTwo(b, c, ScoreThenTime);
    SortByCons(a, [b, c], ScoreThenTime);
    assert [a] + [b, c] == [a, b, c];
    InsertPastTwo(a, c, b, ScoreThenTime);
  }

  // ---------------------------------------------------------------------------
  // Aggregate

  /** The `$group` result: the average score is the rational `scoreSum / totalQuizzes`. */
  datatype UserStats = UserStats(
    totalQuizzes: nat,
    scoreSum: int,
    highestScore: int,
    totalCorrectAnswers: int,
    totalQuestions: int)

  const NoStats := UserStats(0, 0, 0, 0, 0)

  function Max(a: int, b: int): int {
    if a >= b then a else b
  }

  /** `$sum: 1`, `$sum`/`$avg` of the score, `$max` of the score and the two count sums. */
  function Aggregate(rs: seq<QuizScore>): UserStats {
    if rs == [] then NoStats
    else
      var s := Aggregate(rs[..|rs| - 1]);
      var last := rs[|rs| - 1];
      UserStats(
        s.totalQuizzes + 1,
        s.scoreSum + last.score,
        if s.totalQuizzes == 0 then last.score else Max(s.highestScore, last.score),
        s.totalCorrectAnswers + last.correctAnswers,
        s.totalQuestions + last.totalQuestions)
  }

  lemma {:induction false} AggregateCount(rs: seq<QuizScore>)
    ensures Aggregate(rs).totalQuizzes == |rs|
    ensures rs == [] <==> Aggregate(rs) == NoStats
  {
    if rs != [] {
      AggregateCount(rs[..|rs| - 1]);
    }
  }

  /** The aggregate's maximum is one of the scores and bounds all of them. */
  lemma {:induction false} AggregateMax(rs: seq<QuizScore>)
    ensures forall i :: 0 <= i < |rs| ==> rs[i].score <= Aggregate(rs).highestScore
    ensures rs != [] ==> exists i :: 0 <= i < |rs| && rs[i].score == Aggregate(rs).highestScore
  {
    if rs != [] {
      var init := rs[..|rs| - 1];
      AggregateMax(init);
      AggregateCount(init);
      assert forall i :: 0 <= i < |init| ==> rs[i] == init[i];
      var h := Aggregate(rs).highestScore;
      if h == rs[|rs| - 1].score {
        assert rs[|rs| - 1].score == h;
      } else {
        var i :| 0 <= i < |init| && init[i].score == Aggregate(init).highestScore;
        assert rs[i].score == h;
      }
    }
  }

  /** For scores in 0..100 the sum lies between 0 and the maximum times the count, so the
      average lies between 0 and the highest score. */
  lemma {:induction false} AggregateSumBound(rs: seq<QuizScore>)
    requires forall i :: 0 <= i < |rs| ==> ScoreInRange(rs[i].score)
    ensures 0 <= Aggregate(rs).scoreSum <= Aggregate(rs).highestScore * |rs|
  {
    if rs != [] {
      var init := rs[..|rs| - 1];
      assert forall i :: 0 <= i < |init| ==> init[i] == rs[i];
      AggregateSumBound(init);
      AggregateCount(init);
      var s := Aggregate(init);
      var last := rs[|rs| - 1];
      var h := Aggregate(rs).highestScore;
      if init != [] {
        AggregateMax(init);
        assert 0 <= init[0].score <= s.highestScore;
      }
      SumStep(s.scoreSum, s.highestScore, |init|, last.score, h);
    }
  }

  /** One more score, at most the new maximum, keeps the sum under maximum times count. */
  lemma SumStep(sum: int, max: int, n: nat, x: int, newMax: int)
    requires 0 <= sum <= max * n && max <= newMax && 0 <= x <= newMax
    ensures 0 <= sum + x <= newMax * (n + 1)
  {
    MulMonotone(n, max, newMax);
    assert newMax * (n + 1) == newMax * n + newMax;
  }

  /** The number of the user's records in the collection, counted from the front. */
  function CountOf(t: seq<QuizScore>, userId: Id): nat {
    if t == [] then 0 else (if t[0].user == userId then 1 else 0) + CountOf(t[1..], userId)
  }

  /** The numeric fields the group sums. */
  datatype Field = ScoreField | CorrectAnswersField | TotalQuestionsField

  function FieldOf(x: QuizScore, f: Field): int {
    match f
    case ScoreField => x.score
    case CorrectAnswersField => x.correctAnswers
    case TotalQuestionsField => x.totalQuestions
  }

  /** The sum of one field over the user's records, from the front. */
  function SumOf(t: seq<QuizScore>, userId: Id, f: Field): int {
    if t == [] then 0 else (if t[0].user == userId then FieldOf(t[0], f) else 0) + SumOf(t[1..], userId, f)
  }

  lemma {:induction false} CountOfSnoc(t: seq<QuizScore>, x: QuizScore, userId: Id)
    ensures CountOf(t + [x], userId) == CountOf(t, userId) + if x.user == userId then 1 else 0
  {
    if t != [] {
      assert (t + [x])[1..] == t[1..] + [x];
      CountOfSnoc(t[1..], x, userId);
    }
  }

  lemma {:induction false} SumOfSnoc(t: seq<QuizScore>, x: QuizScore, userId: Id, f: Field)
    ensures SumOf(t + [x], userId, f) == SumOf(t, userId, f) + if x.user == userId then FieldOf(x, f) else 0
  {
    if t != [] {
      assert (t + [x])[1..] == t[1..] + [x];
      SumOfSnoc(t[1..], x, userId, f);
    }
  }

  /** The `$match` stage: the caller's records, each as often as it is stored. */
  function RecordsOf(t: seq<QuizScore>, userId: Id): (r: seq<QuizScore>)
    ensures forall x :: multiset(r)[x] == if x.user == userId then multiset(t)[x] else 0
    ensures forall x :: x in r <==> x in t && x.user == userId
    ensures ValidTable(t) ==> forall i :: 0 <= i < |r| ==> ScoreInRange(r[i].score)
  {
    var r := Filter(t, (x: QuizScore) => x.user == userId);
    assert forall i :: 0 <= i < |r| ==> r[i] in t;
    r
  }

  /** The aggregate's sum of one field. */
  function SumStat(s: UserStats, f: Field): int {
    match f
    case ScoreField => s.scoreSum
    case CorrectAnswersField => s.totalCorrectAnswers
    case TotalQuestionsField => s.totalQuestions
  }

  /** The group over the user's records counts the user's records. */
  lemma {:induction false} AggregateCountOfRecords(t: seq<QuizScore>, userId: Id)
    ensures Aggregate(RecordsOf(t, userId)).totalQuizzes == CountOf(t, userId)
  {
    if t != [] {
      var init, last := t[..|t| - 1], t[|t| - 1];
      assert t == init + [last];
      AggregateCountOfRecords(init, userId);
      CountOfSnoc(init, last, userId);
      RecordsOfSnoc(init, last, userId);
      if last.user == userId {
        AggregateSnoc(RecordsOf(init, userId), last);
      }
    }
  }

  /** Each `$sum` of the group over the user's records is the field's total over them. */
  lemma {:induction false} AggregateSumOfRecords(t: seq<QuizScore>, userId: Id, f: Field)
    ensures SumStat(Aggregate(RecordsOf(t, userId)), f) == SumOf(t, userId, f)
  {
    if t != [] {
      var init, last := t[..|t| - 1], t[|t| - 1];
      assert t == init + [last];
      AggregateSumOfRecords(init, userId, f);
      AggregateSumStep(init, last, userId, f);
    }
  }

  lemma AggregateSumStep(t: seq<QuizScore>, x: QuizScore, userId: Id, f: Field)
    requires SumStat(Aggregate(RecordsOf(t, userId)), f) == SumOf(t, userId, f)
    ensures SumStat(Aggregate(RecordsOf(t + [x], userId)), f) == SumOf(t + [x], userId, f)
  {
    SumOfSnoc(t, x, userId, f);
    RecordsOfSnoc(t, x, userId);
    if x.user == userId {
      AggregateSnoc(RecordsOf(t, userId), x);
    }
  }

  lemma RecordsOfSnoc(t: seq<QuizScore>, x: QuizScore, userId: Id)
    ensures RecordsOf(t + [x], userId) == if x.user == userId then RecordsOf(t, userId) + [x] else RecordsOf(t, userId)
  {
    assert (t + [x])[..|t|] == t;
  }

  /** One more record adds one to the count and its fields to the sums. */
  lemma AggregateSnoc(rs: seq<QuizScore>, x: QuizScore)
    ensures var s := Aggregate(rs); var s' := Aggregate(rs + [x]);
      && s'.totalQuizzes == s.totalQuizzes + 1
      && s'.scoreSum == s.scoreSum + x.score
      && s'.totalCorrectAnswers == s.totalCorrectAnswers + x.correctAnswers
      && s'.totalQuestions == s.totalQuestions + x.totalQuestions
  {
    assert (rs + [x])[..|rs|] == rs;
  }

  /** `getUserStats` as the aggregate was meant to work: the caller's count, score sum,
      highest score and the sums of correct answers and of questions, all zero when the
      caller has no record. */
  function GetUserStats(t: seq<QuizScore>, userId: Id): (r: Response<UserStats>)
    ensures r.Ok? && r.status == 200
    ensures (forall x :: x in t ==> x.user != userId) <==> r.body == NoStats
    ensures r.body.totalQuizzes == CountOf(t, userId)
    ensures r.body.scoreSum == SumOf(t, userId, ScoreField)
    ensures r.body.totalCorrectAnswers == SumOf(t, userId, CorrectAnswersField)
    ensures r.body.totalQuestions == SumOf(t, userId, TotalQuestionsField)
    ensures forall x :: x in t && x.user == userId ==> x.score <= r.body.highestScore
    ensures r.body.totalQuizzes > 0 ==> exists x :: x in t && x.user == userId && x.score == r.body.highestScore
    ensures ValidTable(t) ==> 0 <= r.body.scoreSum <= r.body.highestScore * r.body.totalQuizzes
  {
    UserStatsFacts(t, userId);
    Ok(200, Aggregate(RecordsOf(t, userId)))
  }

  lemma UserStatsFacts(t: seq<QuizScore>, userId: Id)
    ensures var s := Aggregate(RecordsOf(t, userId));
      && ((forall x :: x in t ==> x.user != userId) <==> s == NoStats)
      && s.totalQuizzes == CountOf(t, userId)
      && s.scoreSum == SumOf(t, userId, ScoreField)
      && s.totalCorrectAnswers == SumOf(t, userId, CorrectAnswersField)
      && s.totalQuestions == SumOf(t, userId, TotalQuestionsField)
      && (forall x :: x in t && x.user == userId ==> x.score <= s.highestScore)
      && (s.totalQuizzes > 0 ==> exists x :: x in t && x.user == userId && x.score == s.highestScore)
      && (ValidTable(t) ==> 0 <= s.scoreSum <= s.highestScore * s.totalQuizzes)
  {
    AggregateCountOfRecords(t, userId);
    AggregateSumOfRecords(t, userId, ScoreField);
    AggregateSumOfRecords(t, userId, CorrectAnswersField);
    AggregateSumOfRecords(t, userId, TotalQuestionsField);
    UserStatsExtremes(t, userId);
  }

  /** The default, the maximum and the bound on the sum. */
  lemma UserStatsExtremes(t: seq<QuizScore>, userId: Id)
    ensures var s := Aggregate(RecordsOf(t, userId));
      && ((forall x :: x in t ==> x.user != userId) <==> s == NoStats)
      && (forall x :: x in t && x.user == userId ==> x.score <= s.highestScore)
      && (s.totalQuizzes > 0 ==> exists x :: x in t && x.user == userId && x.score == s.highestScore)
      && (ValidTable(t) ==> 0 <= s.scoreSum <= s.highestScore * s.totalQuizzes)
  {
    var mine := RecordsOf(t, userId);
    AggregateCount(mine);
    AggregateMax(mine);
    if mine != [] {
      assert mine[0] in mine;
      var i :| 0 <= i < |mine| && mine[i].score == Aggregate(mine).highestScore;
      assert mine[i] in mine;
    }
    forall x | x in t && x.user == userId ensures x.score <= Aggregate(mine).highestScore {
      var i :| 0 <= i < |mine| && mine[i] == x;
    }
    if ValidTable(t) {
      AggregateSumBound(mine);
    }
  }

  const MongooseNotDefined := "mongoose is not defined"

  /** `getUserStats` as written: the `$match` stage names `mongoose`, which the controller
      never imports, so building the pipeline throws and the handler answers 400. */
  function GetUserStatsAsWritten(t: seq<QuizScore>, userId: Id): (r: Response<UserStats>)
    ensures r == Err(400, MongooseNotDefined)
  {
    Err(400, MongooseNotDefined)
  }

  /** A caller with no records gets an error from the code as written where the intended
      aggregate answers with all zeros. */
  lemma UserStatsAsWrittenFailsForEveryCaller(t: seq<QuizScore>, userId: Id)
    requires forall x :: x in t ==> x.user != userId
    ensures GetUserStatsAsWritten(t, userId).Err?
    ensures GetUserStats(t, userId) == Ok(200, NoStats)
  {
  }
}
