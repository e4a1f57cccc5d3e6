# Quiz app core in Dafny

The system is a monthly location quiz. A React front end lets a visitor pick a location
on a map and log in. The visitor then takes a five-question quiz against a 30-minute
countdown, sees the results with a badge, and browses past quizzes and achievements. An
admin manages questions, locations and users. An Express/Mongo back end stores users,
locations, questions and two kinds of score records:

- a best-score store (`QuizScore`) keyed by user, location, month and year, which only
  overwrites a record with a strictly higher score;
- a simpler score store (`Score`) whose upsert always overwrites.

The model has one Dafny module per source file.

- Every Mongo collection is a `seq` of records in insertion order. Ids are `nat`, handed
  out by a `nextId` counter.
- Every handler is a function `Op(table, inputs)`. It returns an `Outcome`: the new
  table and the HTTP response, either `Ok(status, body)` or `Err(status, message)`.
- The handlers that change a collection are also methods of a store class (for example
  `QuizScoreStore.SaveQuizScore`). Each such method finds its record with a loop and
  updates its field in place. Its contract ties the new state and the response to the
  function.
- The client components become classes whose fields are the React state variables. The
  handlers become methods: `QuizSession`, `Index`, `QuestionFormState`.
- Pure derivations become functions: scores, badges, statistics, route guards and the
  location de-duplication.

Library calls (bcrypt, `jwt.sign` and `jwt.verify`, `Date`) become parameters. The
modules are:

- `Common`: options, responses, `Math.round`, trimming, splitting, `parseInt`.
- `Sequences`: filter, stable sort by a comparator, limit.

`Common.Round` is `Math.round(p / q)` for `q > 0` on the exact quotient, as
`(2p + q) div 2q`. Where the source divides in floating point first, the difference is
noted under "## Left out".

## Model

| member | source | states |
|---|---|---|
| QuizScoreModel.NewQuizScore | backend/models/QuizScore.js:4-53 | A record is created exactly when the schema accepts the fields. It then holds them, with the score in 0..100, a non-empty month, `completedAt` the creation time and `timeTaken` 0 when absent. |
| QuizScoreModel.CompletedAtDescIsPreorder | backend/models/QuizScore.js:63 | Newest `completedAt` first is a total preorder, so sorting by it is well defined. |
| QuizScoreModel.ScoreDescIsPreorder | backend/models/QuizScore.js:70 | Highest score first is a total preorder. |
| QuizScoreModel.GetUserMonthlyScores | backend/models/QuizScore.js:60-64 | The result is a permutation of exactly the user's records of that year, newest first. |
| QuizScoreModel.GetLocationLeaderboard | backend/models/QuizScore.js:66-71 | At most 10 records, all of the location, month and year, highest score first. No record is listed more often than it is stored. Any matching record left out ranks no higher than every listed one, and the list is then full. Each row's user is populated: the user's id and email, or null when the user no longer exists. |
| QuizScoreModel.PopulateUser | backend/models/QuizScore.js:68 | The record is kept; its user reference becomes the user's id and email exactly when the user exists, and null otherwise. |
| QuizScoreController.Existing | backend/controllers/quizScoreController.js:12-17 | Finds the first record matching the filter `{ user, location, month, year }`, or reports that none matches. A field missing from the body drops its condition, so it then matches any value of that field. |
| QuizScoreController.Save | backend/controllers/quizScoreController.js:6-67 | A failure gives 400 and changes nothing. It fails exactly when the new record fails the schema or the overwrite of a beaten record fails validation. A new key gets exactly one record with the submitted fields. A strictly higher score overwrites the six attempt fields. A lower or equal score changes nothing. The flag is true exactly in the first two cases. No score goes down, and one record per key is kept. |
| QuizScoreController.MissingMonthOverwritesAnotherMonth | backend/controllers/quizScoreController.js:12-34 | A save without a month matches the caller's record of another month at the same location and year; a higher score overwrites it, and the record keeps its month. |
| QuizScoreController.SavesNeverLowerAScore | backend/controllers/quizScoreController.js:11-42 | After any sequence of saves, every earlier record keeps its position, id and key, and its score has not gone down. One record per key and the score bounds still hold. |
| QuizScoreController.QuizScoreStore.constructor | backend/models/QuizScore.js:57 | An empty collection satisfies the unique index. |
| QuizScoreController.QuizScoreStore.FindOne | backend/controllers/quizScoreController.js:12-17 | The loop's result is the first record the filter matches, as `Existing`. |
| QuizScoreController.QuizScoreStore.SaveQuizScore | backend/controllers/quizScoreController.js:6-67 | The in-place update, whether it assigns the six fields or inserts a record, leaves exactly `Save`'s table and response, so it succeeds exactly when `Save` does, and the invariant is kept. |
| QuizScoreController.GetUserScores | backend/controllers/quizScoreController.js:69-85 | A year that does not parse gives 400. Otherwise the result is a permutation of exactly the caller's records, of that year when one is given, newest `completedAt` first. |
| QuizScoreController.ScoreThenTimeIsPreorder | backend/controllers/quizScoreController.js:97 | Score descending, then `timeTaken` ascending, is a total preorder. |
| QuizScoreController.TopTen | backend/controllers/quizScoreController.js:91-98 | At most 10 matching records, in score-then-time order, none listed more often than it is stored. Every matching record left out ranks after all listed ones, and the list is then full. |
| QuizScoreController.GetMonthlyLeaderboard | backend/controllers/quizScoreController.js:87-104 | A bad year gives 400. Otherwise the leaderboard of the location, month and year (a missing location or month drops that condition) is at most 10 long, ordered, free of repeats beyond the stored copies, and complete up to the limit. Each row's user is populated with the id and email, or null when the user no longer exists. |
| QuizScoreController.LeaderboardTieBreakExample | backend/controllers/quizScoreController.js:97 | Two scores of 95 are ordered by the shorter time, and both come before an 80. |
| QuizScoreController.AggregateCount | backend/controllers/quizScoreController.js:112-121 | The group's count is the number of records, and the all-zero object appears exactly for no records. |
| QuizScoreController.AggregateMax | backend/controllers/quizScoreController.js:117 | The highest score bounds every score and is attained by one of them. |
| QuizScoreController.AggregateSumBound | backend/controllers/quizScoreController.js:116 | For scores in 0..100 the average, the score sum over the count, lies between 0 and the highest score: the sum lies between 0 and highest times count. |
| QuizScoreController.RecordsOf | backend/controllers/quizScoreController.js:111 | Exactly the user's records are selected, each as many times as it is stored; under the schema their scores are in 0..100. |
| QuizScoreController.AggregateCountOfRecords | backend/controllers/quizScoreController.js:115 | The group's `$sum: 1` over the matched records is the number of the user's records, counted independently over the collection. |
| QuizScoreController.AggregateSumOfRecords | backend/controllers/quizScoreController.js:113-119 | Each `$sum` of a field over the matched records is that field's total over the user's records, summed independently over the collection. |
| QuizScoreController.GetUserStats | backend/controllers/quizScoreController.js:106-133 | Always 200. The all-zero default is returned exactly when the user has no records. The count is the number of the user's records, and the score, correct-answer and question sums are those fields' totals over them. The highest score is the user's maximum, and the score sum lies within 0..highest times count. |
| QuizScoreController.UserStatsFacts | backend/controllers/quizScoreController.js:110-130 | The same facts (default, count, three sums, maximum), stated about the aggregate over the user's records. |
| QuizScoreController.GetUserStatsAsWritten | backend/controllers/quizScoreController.js:111 | As written, the handler throws on the undefined `mongoose` and answers 400 for every caller. |
| QuizScoreController.UserStatsAsWrittenFailsForEveryCaller | backend/controllers/quizScoreController.js:111-133 | A user with no records gets 400 as written, where the all-zero 200 is intended. |
| QuizController.ObjectIdOf | backend/controllers/quizController.js:32 | Accepts exactly 24 hex digits and yields their lower-case form. |
| QuizController.ObjectIdCanonical | backend/controllers/quizController.js:32 | Converting an ObjectId's text again gives the same id. |
| QuizController.BearerToken | backend/controllers/quizController.js:14 | A token is present exactly when the header has a space, and it holds no space. |
| QuizController.BearerTokenOfHeader | backend/controllers/quizController.js:14 | `Bearer <token>` yields the token back. |
| QuizController.CallerId | backend/controllers/quizController.js:29-32 | A caller id exists exactly when the token verifies with an ObjectId-shaped user id. |
| QuizController.Existing | backend/controllers/quizController.js:44-53 | Finds the first score matching the filter `{ userId, month, year, location }`, or reports that none matches. A missing month or year drops its condition. |
| QuizController.Save | backend/controllers/quizController.js:7-84 | The checks run in order: no token gives 401, then no location 400, then a token that does not verify 500, then a missing user 404. It succeeds exactly for an existing caller, an ObjectId location and a score, with either an existing record or a month and year. An existing record takes the new score with the flag false; otherwise exactly one record is created with the flag true. Errors change nothing. |
| QuizController.MissingMonthFindsAnyMonth | backend/controllers/quizController.js:48-53 | A save without a month finds the caller's score of any month at that location and year. |
| QuizController.SaveCanLowerAScore | backend/controllers/quizController.js:56-64 | Unlike the best-score store, an authorised save with a lower score for an existing record succeeds with 200 and the flag false, and stores the lower score. |
| QuizController.ScoreStore.FindOne | backend/controllers/quizController.js:48-53 | The loop finds exactly `Existing`'s record. |
| QuizController.ScoreStore.SaveScore | backend/controllers/quizController.js:7-84 | The in-place update, which assigns `score` or inserts a record, leaves exactly `Save`'s table and response, so it succeeds exactly when `Save` does. |
| QuizController.BuildQuery | backend/controllers/quizController.js:101-124 | The query always holds the caller. The year is the parsed year when one is given. Month n in 1..12 selects the n-th month name, month 0 the null slot, and any other month, or one that does not parse, sends no month condition. |
| QuizController.MonthZeroMatchesNothing | backend/controllers/quizController.js:113-124 | Month 0 selects the null slot, which matches no score. |
| QuizController.MonthPastTableIsDropped | backend/controllers/quizController.js:113-124 | A month number above 12 sends no month condition: the query matches exactly the scores it matches without a month. |
| QuizController.MonthNumberSelectsName | backend/controllers/quizController.js:113-124 | Month 1 to 12, as text, selects January to December. |
| QuizController.NewestPeriodFirstIsPreorder | backend/controllers/quizController.js:129-131 | Year descending, then month text descending, then `createdAt` descending, is a total preorder. |
| QuizController.MonthOrderIsAlphabetical | backend/controllers/quizController.js:131 | The month order is the order of the strings: in one year, January sorts before December. |
| QuizController.Find | backend/controllers/quizController.js:129-131 | An unparsable year is a cast error (500). Otherwise the result is a permutation of exactly the matching records, sorted. |
| QuizController.FoundMatch | backend/controllers/quizController.js:129 | Every record found matches the query. |
| QuizController.GetScores | backend/controllers/quizController.js:87-144 | No token or a malformed token gives 401, an expired one 500. It succeeds exactly for a decoded token with an ObjectId user id and a year that is absent, empty or a number. Then the result is a permutation of exactly the caller's matching scores, in newest-period order. |
| QuizController.Tier | backend/controllers/quizController.js:186-194 | The tier is excellent exactly for 90 and up, good for 80 to 89, average for 70 to 79, and needs-improvement below 70. |
| QuizController.QuizLabelRoundTrip | backend/controllers/quizController.js:199 | The label `month year` splits back into the month and the year. |
| QuizController.FormatScore | backend/controllers/quizController.js:183-205 | The entry carries the id, score and tier, the user's email or 'Unknown User', the label, the date part of the ISO time (its longest prefix without a 'T', ending at the first 'T' or at the end), and the location or 'Unknown Location'. |
| QuizController.FormatAll | backend/controllers/quizController.js:183-205 | One entry per score, in order. |
| QuizController.GetAllScores | backend/controllers/quizController.js:146-214 | A bad year gives 500. Otherwise there is one formatted entry per matching score, in the sorted order. |
| QuestionModel.StoredTextIsTrimmed | backend/models/Question.js:4-8 | A stored question's text is trimmed. |
| QuestionModel.NewQuestion | backend/models/Question.js:4-44 | A question is created exactly when the schema accepts the fields: text present, 4 options, an answer in 0..3, a location, a month name, and a year or its default. The stored question is valid and holds the trimmed fields. |
| QuestionModel.SchemaRejectsMalformed | backend/models/Question.js:9-24 | Three options, or answer 5, are rejected. |
| QuestionModel.Merge | backend/controllers/questionController.js:78-82 | An update overwrites exactly the supplied fields, keeps the id and creation time, and keeps a valid question valid when the update passes validation. |
| QuestionController.FindQuestion | backend/controllers/questionController.js:59 | Finds a question with the id exactly when one exists. |
| QuestionController.FindQuestionFirst | backend/controllers/questionController.js:59 | The search returns the first position holding the id. |
| QuestionController.GetQuestionById | backend/controllers/questionController.js:57-67 | 200 with the question exactly when the id exists, else 404. |
| QuestionController.GetQuestions | backend/controllers/questionController.js:33-55 | A bad year gives 400. Otherwise the result is a permutation of exactly the questions matching every given filter, newest first. |
| QuestionController.UnfilteredListsAll | backend/controllers/questionController.js:37-40 | With no filter, every question is listed. |
| QuestionController.Update | backend/controllers/questionController.js:69-92 | An unknown location gives 404 before the question is looked up. Then validation failure gives 400 and an unknown id 404. It succeeds exactly when none of these applies; then exactly that question is merged, and the table stays valid. |
| QuestionController.Delete | backend/controllers/questionController.js:94-103 | 404 exactly for an unknown id. Otherwise exactly that question is removed and every other one is kept. |
| QuestionController.RemoveAtRemovesId | backend/controllers/questionController.js:96 | With unique ids, removing a position removes its id. |
| QuestionController.AppendKeepsValid | backend/controllers/questionController.js:26 | A fresh valid question keeps the table's ids unique. |
| QuestionController.ReplaceKeepsValid | backend/controllers/questionController.js:78-82 | Replacing a question by a valid one with its id keeps the table valid. |
| QuestionController.RemoveKeepsValid | backend/controllers/questionController.js:96 | Removing a question keeps the table valid. |
| QuestionController.QuestionStore.IndexOf | backend/controllers/questionController.js:59 | The loop finds exactly `FindQuestion`'s position. |
| QuestionController.QuestionStore.CreateQuestion | backend/controllers/questionController.js:4-30 | An unknown location gives 404 and a schema violation 400, and neither stores anything. A known location with accepted fields succeeds: exactly one valid question with the found location is appended. |
| QuestionController.QuestionStore.UpdateQuestion | backend/controllers/questionController.js:69-92 | The in-place update leaves exactly `Update`'s table and response, so it succeeds exactly when `Update` does. |
| QuestionController.QuestionStore.DeleteQuestion | backend/controllers/questionController.js:94-103 | The removal leaves exactly `Delete`'s table and response. |
| LocationController.FindByName | backend/controllers/locationController.js:14 | A location with the trimmed name is found exactly when one exists. |
| LocationController.Create | backend/controllers/locationController.js:4-38 | A missing or empty name gives 400 'Location is required'. An existing trimmed name gives 400 'Location already exists'. An all-whitespace name fails the schema's required check after trimming and gives 500. It succeeds exactly when none of these applies; then exactly one trimmed location is appended and its id and name are returned. Errors leave the store unchanged. |
| LocationController.CreateKeepsValid | backend/models/Location.js:4-9 | Names stay trimmed and unique. |
| LocationController.PaddedNameIsDuplicate | backend/controllers/locationController.js:14-17 | A stored name with spaces around it is still a duplicate, because mongoose trims the query value. |
| LocationController.GetAllLocations | backend/controllers/locationController.js:41-52 | One `{id, location}` per location, in store order. |
| LocationController.LocationStore.FindOne | backend/controllers/locationController.js:14 | The loop finds a location exactly when `FindByName` does. |
| LocationController.LocationStore.CreateLocation | backend/controllers/locationController.js:4-38 | The insertion leaves exactly `Create`'s table and response, so it succeeds exactly when `Create` does, and the id counter moves only on success. |
| UserController.NormaliseRole | backend/controllers/userController.js:24 | The role is 'admin' exactly when the lower-cased input is 'admin', and 'user' otherwise. |
| UserController.NormaliseRoleIdempotent | backend/controllers/userController.js:82 | Normalising twice is normalising once. |
| UserController.FindByEmail | backend/controllers/userController.js:15 | Finds the first user with the email exactly when one exists. |
| UserController.FindById | backend/controllers/userController.js:75 | Finds the first user with the id exactly when one exists. |
| UserController.Listing | backend/controllers/userController.js:48-55 | The status is 'active' exactly when a location is set. The join date is the ISO text of the creation time up to its first 'T' (all of it when there is none), or 'Unknown' without a creation time. |
| UserController.GetAllUsers | backend/controllers/userController.js:46-61 | One listing per user, in order. |
| UserController.Create | backend/controllers/userController.js:5-43 | A missing field gives 400, as does an existing email. It succeeds exactly when neither applies; then one user is appended with the hashed password and the normalised role, and the reply holds the id, email and role but no password. |
| UserController.Edit | backend/controllers/userController.js:64-104 | Missing email or role gives 400, and an unknown id 404. An email another user holds gives 500. It succeeds exactly for a found user whose email is free or already theirs; then only that user changes: the email, the normalised role, and the password only when a non-empty one is given. |
| UserController.EditKeepsValid | backend/controllers/userController.js:88-99 | Editing keeps roles normalised and ids unique. |
| UserController.Delete | backend/controllers/userController.js:107-121 | 404 exactly for an unknown id. Otherwise exactly that user is removed. |
| UserController.DeleteRemovesOnlyThatUser | backend/controllers/userController.js:112-117 | After the delete no user has the id, and every other user remains. |
| UserController.UserStore.FindOneByEmail | backend/controllers/userController.js:15 | The loop finds exactly `FindByEmail`'s user. |
| UserController.UserStore.FindOneById | backend/controllers/userController.js:75 | The loop finds exactly `FindById`'s user. |
| UserController.UserStore.CreateUser | backend/controllers/userController.js:5-43 | The insertion leaves exactly `Create`'s table and response, so it succeeds exactly when `Create` does. |
| UserController.UserStore.EditUser | backend/controllers/userController.js:64-104 | The field-by-field assignment leaves exactly `Edit`'s table and response, so it succeeds exactly when `Edit` does. |
| UserController.UserStore.DeleteUser | backend/controllers/userController.js:107-121 | The removal leaves exactly `Delete`'s table and response. |
| AuthController.Login | backend/controllers/authController.js:4-30 | An unknown email, an empty store and a wrong password all give 401 'Invalid email or password'. It succeeds exactly when the user `findOne` finds has a matching password: the user with the email, or the first user when the email is missing. On success only that user's location changes, to a supplied truthy value. The token signs the id and role for 28 days, and the reply holds the id, email, location and role. |
| AuthController.FindLoginUser | backend/controllers/authController.js:8 | Finds the first user matching `{ email }`; a missing email drops the condition, so the first stored user is found. |
| AuthController.MissingEmailLogsInFirstUser | backend/controllers/authController.js:8-16 | A body without an email logs in as the first stored user when the password matches theirs. |
| AuthController.UnknownEmailLooksLikeWrongPassword | backend/controllers/authController.js:8-16 | An unknown email and a wrong password get the identical 401 response. |
| AuthController.LoginUserIn | backend/controllers/authController.js:4-30 | The lookup loop and the in-place update of `selectedLocation` leave exactly `Login`'s table and response, so it succeeds exactly when `Login` does. |
| QuizInterface.CountCorrect | src/components/QuizInterface.tsx:94-96 | The count is at most the number of questions. It equals that number exactly when every slot holds its correct answer, and is zero exactly when no slot does. |
| QuizInterface.Score | src/components/QuizInterface.tsx:93-98 | The score is 20 per correct answer, in 0..100, and is 100 exactly when all five answers are right. |
| QuizInterface.SetSlot | src/components/QuizInterface.tsx:80-81 | Only the current slot changes, and it holds the selected option. |
| QuizInterface.FormatTime | src/components/QuizInterface.tsx:72-76 | The text is the minutes, a ':', then two digits of seconds; the parts read back as `s div 60` and `s mod 60`, and the minutes have no leading zero. |
| QuizInterface.PadSeconds | src/components/QuizInterface.tsx:75 | The padded seconds are two digits that read back as the number. |
| QuizInterface.QuizSession.constructor | src/components/QuizInterface.tsx:24-27 | The session starts at question 0 with no answers, no selection and 1800 seconds. |
| QuizInterface.QuizSession.SelectOption | src/components/QuizInterface.tsx:170 | Only the selection changes. |
| QuizInterface.QuizSession.Submit | src/components/QuizInterface.tsx:93-99 | One completion carrying the score of the given answers is reported, and no state changes. |
| QuizInterface.QuizSession.Tick | src/components/QuizInterface.tsx:63-70 | Each tick takes one second off. The tick that reaches 0 submits the stored answers, and at 0 nothing more happens. |
| QuizInterface.QuizSession.NextQuestion | src/components/QuizInterface.tsx:78-91 | With no selection nothing changes. Otherwise only the current slot is recorded. Before the last question the index advances by one and the next stored answer is restored; on the last question the updated answers are submitted. |
| QuizResults.CorrectAnswers | src/components/QuizResults.tsx:26 | The count is `round(score * total / 100)` and lies within 0..total for a score in 0..100. |
| QuizResults.IncorrectAnswers | src/components/QuizResults.tsx:27 | Correct and incorrect add up to the total. |
| QuizResults.CorrectCountRecovered | src/components/QuizResults.tsx:26 | For `1 <= n <= 100`, the page recovers `c` from `round(100c/n)`. |
| QuizResults.ResultsShowCorrectCount | src/components/QuizResults.tsx:92 | For five questions, the page shows exactly the number of right answers. |
| QuizResults.ColourOf | src/components/QuizResults.tsx:29-33 | Emerald exactly from 80, amber for 60 to 79, red below 60. |
| QuizResults.BadgeOf | src/components/QuizResults.tsx:35-40 | Outstanding exactly from 90, Excellent for 80 to 89, Good Job for 60 to 79, Keep Learning below 60. |
| QuizResults.BadgeWithinColour | src/components/QuizResults.tsx:29-40 | The badge tiers refine the colour tiers. |
| QuizResults.CertificateName | src/components/QuizResults.tsx:47 | The name is the longest prefix of the email without '@'. |
| QuizResults.CertificateNameOfAddress | src/components/QuizResults.tsx:47 | `name@domain` yields `name`. |
| QuizSelection.CompletedQuiz | src/components/QuizSelection.tsx:62-70 | A completed card has the score, and an id of the lower-cased month followed by the year. |
| QuizSelection.CompletedQuizzes | src/components/QuizSelection.tsx:62 | One completed card per fetched score, in order. |
| QuizSelection.Quizzes | src/components/QuizSelection.tsx:53-71 | The current, uncompleted quiz comes first, then the completed cards in fetch order; the length is one more than the number of scores. |
| QuizSelection.Completed | src/components/QuizSelection.tsx:73 | Keeps exactly the completed quizzes. |
| QuizSelection.CompletedAreTheFetched | src/components/QuizSelection.tsx:53-73 | The completed quizzes are exactly the fetched scores' cards. |
| QuizSelection.AverageScore | src/components/QuizSelection.tsx:74-76 | 0 without completed quizzes. Otherwise `Math.round` of the mean: the mean is within half a point of the result, with halves rounded up, and the result lies within any range holding all the scores. |
| QuizSelection.BestScore | src/components/QuizSelection.tsx:79 | At least 0 and every score, and equal to 0 or to one of the scores. |
| QuizSelection.StatsOf | src/components/QuizSelection.tsx:74-79 | The total counts every card, current included; the average and best are over the completed ones. |
| QuizSelection.Achievements | src/components/QuizSelection.tsx:88-93 | First Quiz from one completed quiz, High Scorer from a best of 90, Consistent never (the streak is fixed at 2), Scholar from five completed quizzes. |
| QuizSelection.AchievementsOfFetchedScores | src/components/QuizSelection.tsx:53-93 | First Quiz is unlocked exactly when a score was fetched. High Scorer is unlocked exactly when some fetched score is at least 90. Scholar is unlocked exactly when at least five scores were fetched. |
| QuizSelection.BarColourOf | src/components/QuizSelection.tsx:81-86 | The four bar colours split at 90, 80 and 70. |
| QuestionForm.MapSet | src/components/QuestionForm.jsx:78-88 | `Map.set` replaces an existing key's value in place and appends a new key. Keys stay unique. |
| QuestionForm.MapOf | src/components/QuestionForm.jsx:78-88 | The map has unique keys, exactly those of the entries. |
| QuestionForm.LastValueIsAnEntry | src/components/QuestionForm.jsx:78-88 | The last value given for a key is one of the entries. |
| QuestionForm.FirstIndex | src/components/QuestionForm.jsx:78-88 | The first position of a key. |
| QuestionForm.MapOfKeepsLastValue | src/components/QuestionForm.jsx:78-88 | Each kept key carries its last value. |
| QuestionForm.MapOfKeepsFirstPosition | src/components/QuestionForm.jsx:78-88 | Kept keys appear in the order of their first occurrence. |
| QuestionForm.Keyed | src/components/QuestionForm.jsx:84-87 | A usable location's entry is keyed by its resolved id and carries the location with `_id` set to that id. |
| QuestionForm.Entries | src/components/QuestionForm.jsx:79-87 | Every entry is keyed by a non-empty id, with `_id` set to it and a string name. |
| QuestionForm.EntriesInOrder | src/components/QuestionForm.jsx:79-87 | The entries are the usable locations' keyed entries in list order: one location gives its entry or nothing, and a concatenated list gives the concatenated entries. |
| QuestionForm.EntriesKeys | src/components/QuestionForm.jsx:80-83 | A key appears exactly when some location resolves to it as a non-empty string id and has a string name. |
| QuestionForm.UniqueLocations | src/components/QuestionForm.jsx:77-89 | No duplicate ids; the ids are exactly the usable ones; a missing list gives none. Each id carries its last usable location, and the ids stand in the order of their first usable locations. |
| QuestionForm.CreateCheck | src/components/QuestionForm.jsx:93-95 | The month is checked first, then the location, then that the de-duplicated `uniqueLocations` of the `allLocations` prop is not empty. The request goes out exactly when all three pass. |
| QuestionForm.QuestionFormState.constructor | src/components/QuestionForm.jsx:12-39 | The form starts empty, with the current year as the filter year, and nothing is fetched yet. |
| QuestionForm.QuestionFormState.ToggleAnswer | src/components/QuestionForm.jsx:69-74 | Only that question's flag flips. |
| QuestionForm.QuestionFormState.EditOption | src/components/QuestionForm.jsx:181-184 | Only option i is replaced, and there are still four options. |
| QuestionForm.QuestionFormState.CreateQuestion | src/components/QuestionForm.jsx:91-121 | A failed check reports its message and changes nothing. Otherwise the draft with the current year is sent. On acceptance the draft is reset, and the list is refetched exactly when the filters show the new question. |
| IndexPage.Index.constructor | src/pages/Index.tsx:14-19 | The page starts on the map with empty fields. |
| IndexPage.Index.LocationSelect | src/pages/Index.tsx:22-25 | Stores the location and moves to login. |
| IndexPage.Index.Login | src/pages/Index.tsx:27-44 | Stores the email. The admin's fixed credentials open the admin screen; any others open the quiz selection. |
| IndexPage.Index.QuizStart | src/pages/Index.tsx:46-49 | Records the quiz and moves to the quiz. |
| IndexPage.Index.QuizComplete | src/pages/Index.tsx:51-60 | Stores the score and answers and moves to the results. |
| IndexPage.Index.ReturnHome | src/pages/Index.tsx:79-81 | Moves to the quiz selection and changes nothing else. |
| IndexPage.Index.Logout | src/pages/Index.tsx:90-102 | Every field is back at its initial value. |
| IndexPage.Index.CurrentView | src/pages/Index.tsx:104-153 | One view per state, and any unknown state shows the map. |
| IndexPage.Visit | src/pages/Index.tsx:22-81 | A visit through the five user handlers shows the submitted score and ends on the quiz selection for the same location and user; no user screen offers a logout. |
| IndexPage.AdminVisit | src/pages/Index.tsx:90-148 | After the fixed admin login the dashboard is shown, and its logout, the only one the page passes down, returns to the map. |
| AppRoutes.ProtectedRoute | src/App.tsx:16-29 | No token redirects to '/'. A required role that differs redirects to '/admin' for an admin, else to '/quiz'. The page is rendered exactly when neither applies. |
| AppRoutes.RequiredRole | src/App.tsx:105-138 | The path is compared as the router compares it: letters case-folded and trailing slashes dropped. In that form '/admin' requires admin, '/quiz' and '/quiz/<segment>' require user, and every other route is unguarded. |
| AppRoutes.GuardIgnoresCaseAndTrailingSlash | src/App.tsx:105-138 | For every path, adding a trailing slash or case-folding its letters leaves the required role unchanged, so '/admin/' and '/quiz/' are guarded as '/admin' and '/quiz' are. |
| AppRoutes.UpperCaseAdmin | src/App.tsx:131-138 | '/ADMIN' requires admin. |
| AppRoutes.UnguardedPages | src/App.tsx:105-106 | The map and the login pages have no guard. |
| AppRoutes.PostLoginTarget | src/App.tsx:45 | '/admin' exactly for an admin, '/quiz' otherwise. |
| AppRoutes.LoginLandsOnRenderedPage | src/App.tsx:16-45 | After a login, and after any guard redirect for either role, the page reached is rendered. |
| AppRoutes.UnknownRoleRedirectsToItself | src/App.tsx:24-26 | A token with no known role is sent from '/quiz' to '/quiz' again. |
| AppRoutes.LoginLocationId | src/App.tsx:38 | The id is the suffix after the last '/', and holds no '/'. |
| AppRoutes.QuizIdOfPath | src/App.tsx:69 | The last path segment, or 'current' when that segment is empty. |
| AppRoutes.QuizIdOfQuizPath | src/App.tsx:69 | `/quiz/<id>` yields the id. |
| AppRoutes.ResultsPropsOf | src/App.tsx:82-83 | A missing state or field defaults to score 0, three questions, no answers, quiz 'current' and user 'Guest'. |
| AppRoutes.CompletionStateAsWritten | src/App.tsx:73-75 | As written, the navigation state has no question count. |
| AppRoutes.ResultsMiscountAsWritten | src/App.tsx:73-75 | The navigation state built for four right answers out of five carries no question count, so a results route that reads it shows two correct out of three. |
| AppRoutes.CompletionState | src/App.tsx:73-75 | The corrected state carries the quiz's five questions. |
| AppRoutes.ResultsCountCorrected | src/App.tsx:73-83 | With the count passed on, the page shows exactly the number of right answers. |
| AppRoutes.ResultsRoutePropsAsWritten | src/App.tsx:82-83 | As written, the results route always gets the defaults. |
| AppRoutes.ResultsRouteShowsZeroAsWritten | src/App.tsx:82-83 | Whatever was scored, the results route as written shows 0. |
| AppRoutes.ResultsRouteProps | src/App.tsx:82-83 | The corrected route reads the state it was given. |
| AppRoutes.ResultsRouteCorrected | src/App.tsx:73-83 | With both corrections, the page shows the submitted score and the number of right answers. |
| Common.Round | src/components/QuizInterface.tsx:97 | `Math.round(p/q)`, as the integer nearest to the quotient with halves rounded up. |
| Common.Trim | backend/models/Location.js:7 | Strips leading and trailing JavaScript white space and line terminators (the Unicode space separators, no-break space and byte order mark included). The result is trimmed, occurs in the input, and is empty only for all-whitespace input. |
| Common.ParseUnsigned | backend/controllers/quizController.js:110 | After the sign, `0x` or `0X` starts a hexadecimal number and anything else a decimal one; there is a number exactly when its first digit is there. |
| Common.ParseInt | backend/controllers/quizController.js:110 | JavaScript `parseInt` without a radix: after white space and an optional sign, a number exactly when the magnitude parses, negated after a minus. |
| Common.ParseHexDigits | backend/controllers/quizController.js:110 | `0x` and hexadecimal digits, signed or not, parse to their base-16 value. |
| Common.ParseIntHexYear | backend/controllers/quizController.js:110 | '0x7E9' reads as the year 2025. |
| Common.ParseIntBarePrefix | backend/controllers/quizController.js:110 | A bare '0x' is no number. |
| Common.ParseIntToString | backend/controllers/quizController.js:110 | Parsing an integer's decimal text gives the integer back. |
| Sequences.FindSortLimit | backend/controllers/quizScoreController.js:91-98 | The result of `find`, `sort` and `limit(k)`: a sorted sub-multiset of the matches of at most k elements. It omits nothing that would rank ahead of a listed element. |

## Left out

- Express routing, CORS, the Mongo connection and `backend/seed.js` are not part of
  this model. Each controller is modelled directly.
- The `fetch` calls, toasts and `localStorage` reads and writes in the components are
  not modelled. Their results are parameters: the fetched scores, the server's reply to
  a question creation, the stored token and role.
- `bcrypt` and `jwt` are opaque. `bcrypt.compare` and `bcrypt.hash` are function
  parameters. `jwt.sign` and `jwt.verify` are a function to a string and a function to a
  `Verified` result (decoded, expired or malformed).
- Mongo ObjectIds:
  - In the best-score store, the question, location and user stores, they are `nat`
    values from a counter.
  - In the simple score store, the user id is its 24-hex-digit text.
- `backend/models/User.js` is not part of this model. The unique email index and the
  pre-save password hashing are assumed from how the controllers use them. A duplicate
  email on edit is reported as the generic 500.
- QuizScoreController.GetUserStats: the `$avg` average is a float and is not computed.
  The model keeps the score sum with the count, so the average is their quotient.
- Mongo sorts are modelled as stable sorts, so ties keep store order. Mongo leaves tie
  order unspecified.
- A query condition whose value is `undefined` is dropped, as mongoose drops it, so it
  matches every record (`Common.Holds`). A `null` condition matches no record, since
  every record holds the required field.
- The user reference that `populate` fills with the email is modelled by a map from
  user id to email: in `getAllScores` (`populate('userId', 'email')`) it gives the email
  or 'Unknown User', in the two leaderboards (`populate('user', 'email')`) the
  `{_id, email}` reference or null. The location reference that
  `populate('location', ...)` fills in (in `getUserScores`, `getScores`,
  `getUserMonthlyScores` and the question handlers) is left as the stored id.
- Ids that are not well-formed ObjectId text cannot be written in the stores with
  `nat` ids. The cast errors they cause are therefore not modelled there: the catch of
  the question and best-score handlers would answer 400, and that of the user edit and
  delete handlers 500.
- A created user's `createdAt` is the creation time. This assumes the `timestamps`
  option in `backend/models/User.js`, which is not part of this model.
- Common.ToLower lower-cases ASCII letters only, where JavaScript `toLowerCase` covers
  all of Unicode. It is applied to month names and role names, which are ASCII.
- The texts of mongoose cast errors are simplified to fixed messages. Only their status
  codes are modelled.
- `Date` values are integers. `toISOString` and `toLocaleString` are parameters, and the
  question schema's default year is a parameter.
- JavaScript array holes in the quiz answers are `None` slots.
- AppRoutes.RequiredRole: the router also percent-decodes the path before matching it
  (`/%61dmin` reaches the admin page); the model compares the path undecoded.
- QuizInterface.QuizSession: the unmounting that follows the first completion is not
  modelled, so after `NextQuestion` submits on the last question a later `Tick` reaching
  0 records a second completion that the app never makes.
- QuizResults.CorrectAnswers: rounds the exact product `score * total / 100`. The page
  computes `(score / 100) * total` in floating point, which can fall just below a half:
  a score of 29 with 50 questions gives 14 on the page and 15 here.
- QuizScoreController.Save: an update without `timeTaken` stores 0, where Mongo would
  unset the field.
- Concurrent requests are not modelled. Every handler runs as one sequential step.
- The certificate download and the solutions view (`handleDownloadCertificate`,
  `handleViewSolutions`) are not modelled. They are canvas drawing and navigation only.
- The PDF upload and the body of `fetchQuestions` in the question form are not
  modelled. They are network I/O.
- Progress-bar percentages are not modelled. They are floating point.

## Findings

| source | as written | input that shows it | evidently intended | confidence | as-written member | corrected member |
|---|---|---|---|---|---|---|
| backend/controllers/quizScoreController.js:111 | The `$match` stage uses `mongoose`, which the file never imports, so every call throws and answers 400. | Any user, for example one with no records. | The aggregate, or the all-zero default with 200. | high, not executed | QuizScoreController.GetUserStatsAsWritten | QuizScoreController.GetUserStats |
| src/App.tsx:73-75 | `onQuizComplete(score, answers, totalQuestions)` is called with two arguments, so the results page falls back to three questions. | Answers 1, 1, 2, 1, 0: four right, score 80. Once the results route reads the navigation state (the next row), the page shows 2 correct out of 3; as written it shows the defaults. | Pass the quiz's five questions. | high, not executed | AppRoutes.ResultsMiscountAsWritten | AppRoutes.ResultsCountCorrected |
| src/App.tsx:82-83 | The results route reads `window.location.state`, which a browser `Location` does not have, so the page always shows the defaults. | Any completed quiz, for example a score of 80, is shown as 0. | Read the navigation state of the history entry. | high, not executed | AppRoutes.ResultsRouteShowsZeroAsWritten | AppRoutes.ResultsRouteCorrected |
