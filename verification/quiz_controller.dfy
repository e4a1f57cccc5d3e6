/** The simple score service (backend/controllers/quizController.js over the collection
    of backend/models/Score.js): an upsert that always overwrites, the caller's scores
    filtered by year and month number, and the formatted list of all scores with their
    status tier. */
module QuizController {
  import opened Common
  import opened Sequences

  /** A stored score. `userId` and `location` hold the lower-case 24-digit hex form of an
      ObjectId; `createdAt` is a timestamp in milliseconds. */
  datatype Score = Score(id: Id, userId: string, month: string, year: int, score: int, location: string, createdAt: int)

  predicate IsObjectIdText(s: string) {
    |s| == 24 && forall i :: 0 <= i < |s| ==> IsHexDigit(s[i])
  }

  /** `new mongoose.Types.ObjectId(s)`: the id a 24-digit hex string denotes, written in
      lower case; None stands for the error thrown for any other string. */
  function ObjectIdOf(s: string): (r: Option<string>)
    ensures r.Some? <==> IsObjectIdText(s)
    ensures r.Some? ==> IsObjectIdText(r.value) && forall i :: 0 <= i < 24 ==> r.value[i] == ToLowerChar(s[i])
  {
    if IsObjectIdText(s) then Some(ToLower(s)) else None
  }

  /** The hex form of an id denotes that same id. */
  lemma ObjectIdCanonical(s: string)
    requires ObjectIdOf(s).Some?
    ensures ObjectIdOf(ObjectIdOf(s).value) == ObjectIdOf(s)
  {
    var r := ObjectIdOf(s).value;
    assert forall i :: 0 <= i < 24 ==> ToLowerChar(r[i]) == r[i];
    assert ToLower(r) == r;
  }

  /** What `jwt.verify` does with a token: it yields the payload, or throws a
      `JsonWebTokenError` (malformed or badly signed) or a `TokenExpiredError`. */
  datatype Verified = Decoded(userId: string) | Malformed | Expired

  /** `req.headers.authorization?.split(' ')[1]` */
  function BearerToken(authorization: Option<string>): (r: Option<string>)
    ensures r.Some? <==> authorization.Some? && ' ' in authorization.value
    ensures r.Some? ==> ' ' !in r.value
  {
    if authorization.Some? then SplitSecond(authorization.value, ' ') else None
  }

  /** The usual header form carries the token after the scheme. */
  lemma BearerTokenOfHeader(token: string)
    requires ' ' !in token
    ensures BearerToken(Some("Bearer " + token)) == Some(token)
  {
    assert "Bearer " + token == "Bearer" + [' '] + token;
    SplitSecondJoined("Bearer", ' ', token);
  }

  /** The caller's id: the verified token's `userId` cast to an ObjectId. */
  function CallerId(token: string, verify: string -> Verified): (r: Option<string>)
    ensures r.Some? <==> verify(token).Decoded? && IsObjectIdText(verify(token).userId)
    ensures r.Some? ==> IsObjectIdText(r.value)
  {
    if verify(token).Decoded? then ObjectIdOf(verify(token).userId) else None
  }

  // ---------------------------------------------------------------------------
  // saveScore

  datatype ScoreBody = ScoreBody(score: Option<int>, month: Option<string>, year: Option<int>, location: Option<string>)

  /** The `findOne` filter `{ userId, month, year, location }` of a save: a month or year
      missing from the body is undefined, and its condition is dropped. */
  predicate MatchesBody(x: Score, userId: string, locationId: string, body: ScoreBody) {
    x.userId == userId && Holds(body.month, x.month) && Holds(body.year, x.year) && x.location == locationId
  }

  /** `Score.findOne(filter)`: the first record the request's filter matches, if any. */
  function Existing(t: seq<Score>, userId: string, locationId: string, body: ScoreBody): (r: Option<nat>)
    ensures r.Some? ==> r.value < |t| && MatchesBody(t[r.value], userId, locationId, body)
    ensures r.Some? ==> forall j :: 0 <= j < r.value ==> !MatchesBody(t[j], userId, locationId, body)
    ensures r.None? <==> forall j :: 0 <= j < |t| ==> !MatchesBody(t[j], userId, locationId, body)
  {
    FindFirst(t, (x: Score) => MatchesBody(x, userId, locationId, body))
  }

  datatype SaveReply = SaveReply(message: string, isNewHighScore: bool)

  datatype SaveOutcome = SaveOutcome(table: seq<Score>, response: Response<SaveReply>)

  const NoToken := "No token provided"
  const SaveFailed := "Error saving score"

  /** `saveScore` with the User collection's ids `users`, the token verifier `verify`,
      the id `newId` for a created record and the clock reading `now`. */
  function Save(t: seq<Score>, newId: Id, authorization: Option<string>, body: ScoreBody,
                users: set<string>, verify: string -> Verified, now: int): (o: SaveOutcome)
    // Every failure leaves the collection as it was.
    ensures o.response.Err? ==> o.table == t
    // The token is checked first, then the location, and only then the token's validity.
    ensures !Truthy(BearerToken(authorization)) ==> o.response == Err(401, NoToken)
    ensures Truthy(BearerToken(authorization)) && !Truthy(body.location) ==>
      o.response == Err(400, "Location is required")
    ensures Truthy(BearerToken(authorization)) && Truthy(body.location) ==>
      var caller := CallerId(BearerToken(authorization).value, verify);
      && (caller.None? ==> o.response == Err(500, SaveFailed))
      && (caller.Some? && caller.value !in users ==> o.response == Err(404, "User not found"))
      && (caller.Some? && caller.value in users && ObjectIdOf(body.location.value).None? ==>
            o.response == Err(500, SaveFailed))
    // It succeeds exactly for an authorised caller who exists, an ObjectId location and a
    // score, when a record for the key exists or the month and year are given too.
    ensures o.response.Ok? <==>
      && Truthy(BearerToken(authorization)) && Truthy(body.location)
      && CallerId(BearerToken(authorization).value, verify).Some?
      && CallerId(BearerToken(authorization).value, verify).value in users
      && ObjectIdOf(body.location.value).Some?
      && body.score.Some?
      && (|| Existing(t, CallerId(BearerToken(authorization).value, verify).value,
                      ObjectIdOf(body.location.value).value, body).Some?
          || (Truthy(body.month) && body.year.Some?))
    // An existing record for the key gets the new score, higher or lower.
    ensures o.response.Ok? ==>
      && o.response.status == 200
      && var caller := CallerId(BearerToken(authorization).value, verify).value;
      && var loc := ObjectIdOf(body.location.value).value;
      && caller in users && body.score.Some?
      && match Existing(t, caller, loc, body)
         case Some(i) =>
           && o.table == t[i := t[i].(score := body.score.value)]
           && o.response.body == SaveReply("Score updated successfully", false)
         case None =>
           && Truthy(body.month) && body.year.Some?
           && o.table == t + [Score(newId, caller, body.month.value, body.year.value, body.score.value, loc, now)]
           && o.response.body == SaveReply("Score saved successfully", true)
  {
    var token := BearerToken(authorization);
    if !Truthy(token) then SaveOutcome(t, Err(401, NoToken))
    else if !Truthy(body.location) then SaveOutcome(t, Err(400, "Location is required"))
    else
      var caller := CallerId(token.value, verify);
      if caller.None? then SaveOutcome(t, Err(500, SaveFailed))
      else if caller.value !in users then SaveOutcome(t, Err(404, "User not found"))
      else
        var loc := ObjectIdOf(body.location.value);
        if loc.None? then SaveOutcome(t, Err(500, SaveFailed))
        else
          match Existing(t, caller.value, loc.value, body)
          case Some(i) =>
            // `existingScore.score = score` with an undefined score unsets a required path.
            if body.score.None? then SaveOutcome(t, Err(500, SaveFailed))
            else SaveOutcome(t[i := t[i].(score := body.score.value)], Ok(200, SaveReply("Score updated successfully", false)))
          case None =>
            if body.score.None? || !Truthy(body.month) || body.year.None? then SaveOutcome(t, Err(500, SaveFailed))
            else
              var created := Score(newId, caller.value, body.month.value, body.year.value, body.score.value, loc.value, now);
              SaveOutcome(t + [created], Ok(200, SaveReply("Score saved successfully", true)))
  }

  /** Unlike the best-score service, this upsert can lower a stored score: an authorised
      save for an existing key with a smaller score succeeds and stores the smaller score. */
  lemma SaveCanLowerAScore(t: seq<Score>, newId: Id, token: string, body: ScoreBody,
                             users: set<string>, verify: string -> Verified, now: int, i: nat)
    requires token != "" && ' ' !in token
    requires CallerId(token, verify).Some? && CallerId(token, verify).value in users
    requires body.location.Some? && ObjectIdOf(body.location.value).Some?
    requires Existing(t, CallerId(token, verify).value, ObjectIdOf(body.location.value).value, body) == Some(i)
    requires body.score.Some? && body.score.value < t[i].score
    ensures var o := Save(t, newId, Some("Bearer " + token), body, users, verify, now);
      && o.response == Ok(200, SaveReply("Score updated successfully", false))
      && |o.table| == |t| && o.table[i].score == body.score.value < t[i].score
  {
    BearerTokenOfHeader(token);
    assert Truthy(body.location) by {
      assert |body.location.value| == 24;
    }
  }

  /** A save without a month finds the caller's record of any month at that location
      and year, so the new score lands on that record. */
  lemma MissingMonthFindsAnyMonth(x: Score, body: ScoreBody)
    requires body.month.None? && body.year == Some(x.year)
    ensures Existing([x], x.userId, x.location, body) == Some(0)
  {
    assert MatchesBody(x, x.userId, x.location, body);
  }

  /** The collection with the operation that changes it. */
  class ScoreStore {
    var scores: seq<Score>
    var nextId: Id

    constructor ()
      ensures scores == [] && nextId == 0
    {
      scores := [];
      nextId := 0;
    }

    /** `Score.findOne(filter)` */
    method FindOne(userId: string, locationId: string, body: ScoreBody) returns (index: Option<nat>)
      ensures index == Existing(scores, userId, locationId, body)
    {
      var i := 0;
      while i < |scores|
        invariant 0 <= i <= |scores|
        invariant forall j :: 0 <= j < i ==> !MatchesBody(scores[j], userId, locationId, body)
      {
        if MatchesBody(scores[i], userId, locationId, body) {
          return Some(i);
        }
        i := i + 1;
      }
      return None;
    }

    /** `saveScore`: the checks, then `existingScore.score = score` and save, or create. */
    method SaveScore(authorization: Option<string>, body: ScoreBody, users: set<string>,
                     verify: string -> Verified, now: int) returns (response: Response<SaveReply>)
      modifies this
      ensures scores == Save(old(scores), old(nextId), authorization, body, users, verify, now).table
      ensures response == Save(old(scores), old(nextId), authorization, body, users, verify, now).response
      ensures nextId == if |scores| > |old(scores)| then old(nextId) + 1 else old(nextId)
    {
      var token := BearerToken(authorization);
      if !Truthy(token) {
        return Err(401, NoToken);
      }
      if !Truthy(body.location) {
        return Err(400, "Location is required");
      }
      var decoded := verify(token.value);
      if !decoded.Decoded? {
        return Err(500, SaveFailed);
      }
      var userId := ObjectIdOf(decoded.userId);
      if userId.None? {
        return Err(500, SaveFailed);
      }
      if userId.value !in users {
        return Err(404, "User not found");
      }
      var locationId := ObjectIdOf(body.location.value);
      if locationId.None? {
        return Err(500, SaveFailed);
      }
      var existing := FindOne(userId.value, locationId.value, body);
      if existing.Some? {
        if body.score.None? {
          return Err(500, SaveFailed);
        }
        var doc := scores[existing.value];
        doc := doc.(score := body.score.value);
        scores := scores[existing.value := doc];
        return Ok(200, SaveReply("Score updated successfully", false));
      }
      if body.score.None? || !Truthy(body.month) || body.year.None? {
        return Err(500, SaveFailed);
      }
      scores := scores + [Score(nextId, userId.value, body.month.value, body.year.value, body.score.value, locationId.value, now)];
      nextId := nextId + 1;
      response := Ok(200, SaveReply("Score saved successfully", true));
    }
  }

  // ---------------------------------------------------------------------------
  // Queries

  /** The query object both listings build. A constraint is absent (None) or present
      with a value; a present value that is null (month) or NaN (year) matches no record. */
  datatype ScoreQuery = ScoreQuery(userId: Option<string>, year: Option<Option<int>>, month: Option<Option<string>>)

  /** The conditional assignments: `year` when truthy, parsed; `month` when truthy,
      parsed and looked up in the month table whose slot 0 is null. A lookup outside
      the table is undefined, so no month condition is sent. */
  function BuildQuery(userId: Option<string>, year: Option<string>, month: Option<string>): (q: ScoreQuery)
    ensures q.userId == userId
    ensures q.year.Some? <==> Truthy(year)
    ensures q.year.Some? ==> q.year.value == ParseInt(year.value)
    ensures q.month.Some? <==>
      Truthy(month) && ParseInt(month.value).Some? && 0 <= ParseInt(month.value).value <= 12
    ensures q.month.Some? ==> (q.month.value.None? <==> ParseInt(month.value).value == 0)
    ensures q.month.Some? && q.month.value.Some? ==>
      q.month.value.value == MonthNames[ParseInt(month.value).value - 1]
  {
    ScoreQuery(
      userId,
      if Truthy(year) then Some(ParseInt(year.value)) else None,
      if Truthy(month) && ParseInt(month.value).Some? && 0 <= ParseInt(month.value).value <= 12 then
        Some(MonthName(ParseInt(month.value).value))
      else None)
  }

  /** Month number n, written in decimal, selects the n-th month name. */
  lemma MonthNumberSelectsName(userId: Option<string>, year: Option<string>, n: int)
    requires 1 <= n <= 12
    ensures BuildQuery(userId, year, Some(IntToString(n))).month == Some(Some(MonthNames[n - 1]))
  {
    ParseIntToString(n);
  }

  /** Month number 0 selects the null slot, which no record matches. */
  lemma MonthZeroMatchesNothing(userId: Option<string>, year: Option<string>, s: Score)
    ensures !Matches(BuildQuery(userId, year, Some(IntToString(0))), s)
  {
    ParseIntToString(0);
  }

  /** A month number past the table selects no slot, so no month condition is sent and
      the listing is that of no month filter at all. */
  lemma MonthPastTableIsDropped(userId: Option<string>, year: Option<string>, n: int, s: Score)
    requires n > 12
    ensures BuildQuery(userId, year, Some(IntToString(n))).month.None?
    ensures Matches(BuildQuery(userId, year, Some(IntToString(n))), s) <==> Matches(BuildQuery(userId, year, None), s)
  {
    ParseIntToString(n);
  }

  predicate Matches(q: ScoreQuery, s: Score) {
    && (q.userId.None? || q.userId == Some(s.userId))
    && (q.year.None? || q.year.value == Some(s.year))
    && (q.month.None? || q.month.value == Some(s.month))
  }

  /** `a` is later in the string order of month names than `b`. */
  predicate MonthAfter(a: string, b: string) {
    a != b && LexLe(b, a)
  }

  /** `.sort({ year: -1, month: -1, createdAt: -1 })` */
  predicate NewestPeriodFirst(a: Score, b: Score) {
    || a.year > b.year
    || (a.year == b.year && MonthAfter(a.month, b.month))
    || (a.year == b.year && a.month == b.month && a.createdAt >= b.createdAt)
  }

  lemma NewestPeriodFirstIsPreorder()
    ensures TotalPreorder(NewestPeriodFirst)
  {
    forall a: Score, b: Score ensures NewestPeriodFirst(a, b) || NewestPeriodFirst(b, a) {
      LexLeTotal(a.month, b.month);
    }
    forall a: Score, b: Score, c: Score | NewestPeriodFirst(a, b) && NewestPeriodFirst(b, c)
      ensures NewestPeriodFirst(a, c)
    {
      if a.year == b.year == c.year && MonthAfter(a.month, b.month) && MonthAfter(b.month, c.month) {
        LexLeTransitive(c.month, b.month, a.month);
        if a.month == c.month {
          LexLeAntisymmetric(a.month, b.month);
        }
      }
    }
  }

  /** Months are ordered as strings, not by the calendar: in one year, January is listed
      before December. */
  lemma MonthOrderIsAlphabetical(jan: Score, dec: Score)
    requires jan.year == dec.year && jan.month == "January" && dec.month == "December"
    ensures NewestPeriodFirst(jan, dec) && !NewestPeriodFirst(dec, jan)
  {
    assert LexLe("December", "January");
    assert !LexLe("January", "December");
  }

  /** `Score.find(query).sort(...)`: a year that does not parse is a cast error. */
  function Find(t: seq<Score>, q: ScoreQuery): (r: Response<seq<Score>>)
    ensures r.Err? <==> q.year == Some(None)
    ensures r.Err? ==> r.status == 500
    ensures r.Ok? ==> SortedBy(r.body, NewestPeriodFirst)
    ensures r.Ok? ==> forall x :: multiset(r.body)[x] == if Matches(q, x) then multiset(t)[x] else 0
  {
    if q.year == Some(None) then Err(500, FetchFailed)
    else
      var matching := Filter(t, (x: Score) => Matches(q, x));
      NewestPeriodFirstIsPreorder();
      SortBySorted(matching, NewestPeriodFirst);
      Ok(200, SortBy(matching, NewestPeriodFirst))
  }

  const FetchFailed := "Error fetching scores"

  /** `getScores`: the caller's scores, filtered by year and month number. */
  function GetScores(t: seq<Score>, authorization: Option<string>, year: Option<string>, month: Option<string>,
                     verify: string -> Verified): (r: Response<seq<Score>>)
    ensures !Truthy(BearerToken(authorization)) ==> r == Err(401, NoToken)
    ensures Truthy(BearerToken(authorization)) && verify(BearerToken(authorization).value).Malformed? ==>
      r == Err(401, "Invalid token")
    ensures Truthy(BearerToken(authorization)) && verify(BearerToken(authorization).value).Expired? ==>
      r == Err(500, FetchFailed)
    // It succeeds exactly for a decoded token carrying an ObjectId and a year that is
    // absent, empty or a number.
    ensures r.Ok? <==>
      && Truthy(BearerToken(authorization))
      && CallerId(BearerToken(authorization).value, verify).Some?
      && (Truthy(year) ==> ParseInt(year.value).Some?)
    ensures r.Ok? ==> r.status == 200 && SortedBy(r.body, NewestPeriodFirst)
    ensures r.Ok? ==>
      var caller := CallerId(BearerToken(authorization).value, verify);
      && caller.Some?
      && forall x :: multiset(r.body)[x] ==
           if Matches(BuildQuery(caller, year, month), x) then multiset(t)[x] else 0
    ensures r.Ok? ==> forall x :: x in r.body ==> x in t && Some(x.userId) == CallerId(BearerToken(authorization).value, verify)
  {
    var token := BearerToken(authorization);
    if !Truthy(token) then Err(401, NoToken)
    else
      var decoded := verify(token.value);
      if decoded.Malformed? then Err(401, "Invalid token")
      else if decoded.Expired? then Err(500, FetchFailed)
      else
        var caller := CallerId(token.value, verify);
        if caller.None? then Err(500, FetchFailed)
        else
          var r := Find(t, BuildQuery(caller, year, month));
          assert r.Ok? ==> forall x :: x in r.body ==> x in multiset(r.body);
          r
  }

  // ---------------------------------------------------------------------------
  // getAllScores

  /** The status tier of a score. */
  function Tier(score: int): (r: string)
    ensures r == "excellent" <==> score >= 90
    ensures r == "good" <==> 80 <= score < 90
    ensures r == "average" <==> 70 <= score < 80
    ensures r == "needs-improvement" <==> score < 70
  {
    if score >= 90 then "excellent"
    else if score >= 80 then "good"
    else if score >= 70 then "average"
    else "needs-improvement"
  }

  /** One entry of the admin listing. */
  datatype Entry = Entry(id: Id, email: string, quiz: string, score: int, date: string, status: string, location: string)

  /** The label of a quiz period, "month year". */
  function QuizLabel(month: string, year: int): string {
    month + " " + IntToString(year)
  }

  /** A label made from a month name without spaces splits back into the month and a
      string that parses to the year. */
  lemma QuizLabelRoundTrip(month: string, year: int)
    requires ' ' !in month
    ensures SplitFirst(QuizLabel(month, year), ' ') == month
    ensures SplitSecond(QuizLabel(month, year), ' ').Some?
    ensures ParseInt(SplitSecond(QuizLabel(month, year), ' ').value) == Some(year)
  {
    var y := IntToString(year);
    assert ' ' !in y;
    assert QuizLabel(month, year) == month + [' '] + y;
    SplitFirstJoined(month, ' ', y);
    SplitSecondJoined(month, ' ', y);
    ParseIntToString(year);
  }

  /** The formatting of one record: `emails` holds the email of each user that still
      exists, `isoString` is `Date.prototype.toISOString` on a timestamp. */
  function FormatScore(s: Score, emails: map<string, string>, isoString: int -> string): (e: Entry)
    ensures e.id == s.id && e.score == s.score && e.status == Tier(s.score)
    ensures e.email == if s.userId in emails then emails[s.userId] else "Unknown User"
    ensures e.quiz == QuizLabel(s.month, s.year)
    ensures 'T' !in e.date && |e.date| <= |isoString(s.createdAt)| && e.date == isoString(s.createdAt)[..|e.date|]
    ensures |e.date| < |isoString(s.createdAt)| ==> isoString(s.createdAt)[|e.date|] == 'T'
    ensures e.location == if s.location != "" then s.location else "Unknown Location"
  {
    Entry(
      s.id,
      if s.userId in emails then emails[s.userId] else "Unknown User",
      QuizLabel(s.month, s.year),
      s.score,
      SplitFirst(isoString(s.createdAt), 'T'),
      Tier(s.score),
      if s.location != "" then s.location else "Unknown Location")
  }

  function FormatAll(ss: seq<Score>, emails: map<string, string>, isoString: int -> string): (r: seq<Entry>)
    ensures |r| == |ss|
    ensures forall i :: 0 <= i < |ss| ==> r[i] == FormatScore(ss[i], emails, isoString)
  {
    if ss == [] then [] else [FormatScore(ss[0], emails, isoString)] + FormatAll(ss[1..], emails, isoString)
  }

  /** `getAllScores`: every score matching the year and month filters, in the listing
      order, formatted for the admin view. */
  function GetAllScores(t: seq<Score>, year: Option<string>, month: Option<string>,
                        emails: map<string, string>, isoString: int -> string): (r: Response<seq<Entry>>)
    ensures r.Err? <==> Truthy(year) && ParseInt(year.value).None?
    ensures r.Err? ==> r == Err(500, FetchFailed)
    ensures r.Ok? ==>
      var found := Find(t, BuildQuery(None, year, month));
      && found.Ok? && r.status == 200 && |r.body| == |found.body|
      && forall i :: 0 <= i < |r.body| ==>
           r.body[i] == FormatScore(found.body[i], emails, isoString)
           && Matches(BuildQuery(None, year, month), found.body[i])
  {
    var found := Find(t, BuildQuery(None, year, month));
    if found.Err? then Err(500, FetchFailed)
    else
      FoundMatch(t, BuildQuery(None, year, month));
      Ok(200, FormatAll(found.body, emails, isoString))
  }

  /** Every score `Find` returns matches the query. */
  lemma FoundMatch(t: seq<Score>, q: ScoreQuery)
    ensures Find(t, q).Ok? ==> forall i :: 0 <= i < |Find(t, q).body| ==> Matches(q, Find(t, q).body[i])
  {
    var r := Find(t, q);
    if r.Ok? {
      forall i | 0 <= i < |r.body| ensures Matches(q, r.body[i]) {
        assert r.body[i] in multiset(r.body);
      }
    }
  }
}
