/** The router's decisions (src/App.tsx): the guard around protected pages, the ids read
    from the path, where a login leads, and the props of the results page. Storage reads
    are parameters: `token` and `role` are what `localStorage` holds, None when unset. */
module AppRoutes {
  import opened Common
  import QuizInterface
  import QuizResults

  const AdminPath := "/admin"
  const QuizPath := "/quiz"
  const RootPath := "/"

  datatype Guard = Redirect(to: string) | RenderChildren

  /** `ProtectedRoute`: without a token, back to the start; with a required role the
      stored role does not have, to the admin's or the user's home; otherwise the page. */
  function ProtectedRoute(token: Option<string>, role: Option<string>, requiredRole: Option<string>): (g: Guard)
    ensures !Truthy(token) ==> g == Redirect(RootPath)
    ensures Truthy(token) && Truthy(requiredRole) && role != requiredRole ==>
      g == Redirect(if role == Some("admin") then AdminPath else QuizPath)
    ensures g == RenderChildren <==> Truthy(token) && (Truthy(requiredRole) ==> role == requiredRole)
  {
    if !Truthy(token) then Redirect(RootPath)
    else if Truthy(requiredRole) && role != requiredRole then
      Redirect(if role == Some("admin") then AdminPath else QuizPath)
    else RenderChildren
  }

  /** The path without its trailing slashes: a route pattern matches with any number of
      them after it. */
  function StripTrailingSlashes(path: string): (r: string)
    ensures r <= path
    ensures r == [] || r[|r| - 1] != '/'
    ensures forall i :: |r| <= i < |path| ==> path[i] == '/'
  {
    if path != [] && path[|path| - 1] == '/' then StripTrailingSlashes(path[..|path| - 1]) else path
  }

  /** The form in which the router compares a path with the route patterns: case-
      insensitively (the patterns' letters are ASCII) and with trailing slashes ignored. */
  function RoutedPath(path: string): string {
    ToLower(StripTrailingSlashes(path))
  }

  /** A path `/quiz/:quizId` matches, `/quiz/results` among them: one more segment. */
  predicate QuizSubPath(path: string) {
    |path| > |QuizPath| + 1 && path[..|QuizPath| + 1] == QuizPath + "/" && '/' !in path[|QuizPath| + 1..]
  }

  /** The role the guard around a route requires; None for the routes no guard wraps
      (the map, the login page and the not-found page). */
  function RequiredRole(path: string): (r: Option<string>)
    ensures r == Some("admin") <==> RoutedPath(path) == AdminPath
    ensures r == Some("user") <==> RoutedPath(path) == QuizPath || QuizSubPath(RoutedPath(path))
    ensures r.None? <==> RoutedPath(path) != AdminPath && RoutedPath(path) != QuizPath && !QuizSubPath(RoutedPath(path))
  {
    var p := RoutedPath(path);
    if p == AdminPath then Some("admin")
    else if p == QuizPath || QuizSubPath(p) then Some("user")
    else None
  }

  /** The router's matching ignores case and trailing slashes: a path guarded like
      '/admin' or '/quiz' stays so guarded with a slash added or its letters case-folded. */
  lemma GuardIgnoresCaseAndTrailingSlash(path: string)
    ensures RequiredRole(path + "/") == RequiredRole(path)
    ensures RequiredRole(ToLower(path)) == RequiredRole(path)
  {
    RoutedIgnoresCaseAndTrailingSlash(path);
  }

  /** The routed form itself ignores a trailing slash and case folding. */
  lemma RoutedIgnoresCaseAndTrailingSlash(path: string)
    ensures RoutedPath(path + "/") == RoutedPath(path)
    ensures RoutedPath(ToLower(path)) == RoutedPath(path)
  {
    assert (path + "/")[..|path|] == path;
    StripThenLower(path);
    LowerTwice(StripTrailingSlashes(path));
  }

  /** Dropping the trailing slashes commutes with case folding. */
  lemma {:induction false} StripThenLower(path: string)
    ensures StripTrailingSlashes(ToLower(path)) == ToLower(StripTrailingSlashes(path))
    decreases |path|
  {
    if path != [] && path[|path| - 1] == '/' {
      var front := path[..|path| - 1];
      assert ToLower(path)[..|path| - 1] == ToLower(front);
      StripThenLower(front);
    }
  }

  /** Case folding twice folds once. */
  lemma LowerTwice(s: string)
    ensures ToLower(ToLower(s)) == ToLower(s)
  {
  }

  /** '/ADMIN' leads to the admin's page. */
  lemma UpperCaseAdmin()
    ensures RequiredRole("/ADMIN") == Some("admin")
  {
    assert StripTrailingSlashes("/ADMIN") == "/ADMIN";
    var r := ToLower("/ADMIN");
    assert r[0] == '/' && r[1] == 'a' && r[2] == 'd' && r[3] == 'm' && r[4] == 'i' && r[5] == 'n';
  }

  /** '/admin' and '/quiz' are their own routed form. */
  lemma GuardedPages()
    ensures RoutedPath(AdminPath) == AdminPath && RoutedPath(QuizPath) == QuizPath
    ensures RequiredRole(AdminPath) == Some("admin")
    ensures RequiredRole(QuizPath) == Some("user")
  {
    assert StripTrailingSlashes(AdminPath) == AdminPath && ToLower(AdminPath) == AdminPath;
    assert StripTrailingSlashes(QuizPath) == QuizPath && ToLower(QuizPath) == QuizPath;
  }

  /** The map and the login pages are not guarded. */
  lemma UnguardedPages(location: string)
    ensures RequiredRole(RootPath) == None
    ensures RequiredRole("/login/" + location) == None
  {
    assert RoutedPath(RootPath) == [];
    var p := "/login/" + location;
    var q := StripTrailingSlashes(p);
    assert p[5] == 'n';
    assert |q| > 5;
    var r := RoutedPath(p);
    assert r[1] == ToLowerChar(q[1]) == ToLowerChar(p[1]) == 'l';
    assert r != AdminPath && r != QuizPath by {
      assert AdminPath[1] == 'a' && QuizPath[1] == 'q';
    }
    assert !QuizSubPath(r) by {
      if |r| > |QuizPath| + 1 {
        assert r[..|QuizPath| + 1][1] == 'l';
      }
    }
  }

  /** After login: the admin's dashboard for an admin, the quiz selection otherwise. */
  function PostLoginTarget(role: string): (p: string)
    ensures p == AdminPath <==> role == "admin"
    ensures p == QuizPath <==> role != "admin"
  {
    if role == "admin" then AdminPath else QuizPath
  }

  /** A logged-in admin or user lands on a page its guard renders, and a guard's redirect
      for either role leads to such a page: no redirect chain is longer than one. */
  lemma {:induction false} LoginLandsOnRenderedPage(token: string, role: string, path: string)
    requires token != "" && (role == "admin" || role == "user")
    requires path == AdminPath || path == QuizPath
    ensures ProtectedRoute(Some(token), Some(role), RequiredRole(PostLoginTarget(role))) == RenderChildren
    ensures var g := ProtectedRoute(Some(token), Some(role), RequiredRole(path));
      g.Redirect? ==> ProtectedRoute(Some(token), Some(role), RequiredRole(g.to)) == RenderChildren
  {
    GuardedPages();
    var g := ProtectedRoute(Some(token), Some(role), RequiredRole(path));
    if g.Redirect? {
      assert g.to == (if role == "admin" then AdminPath else QuizPath);
    }
  }

  /** A stored token with no stored role, or with another role, is sent from the quiz
      pages to `/quiz` again: the guard redirects to the page it guards. */
  lemma UnknownRoleRedirectsToItself(token: string, role: Option<string>)
    requires token != "" && role != Some("admin") && role != Some("user")
    ensures ProtectedRoute(Some(token), role, RequiredRole(QuizPath)) == Redirect(QuizPath)
  {
  }

  /** `window.location.pathname.split('/').pop() || ''`: the last path segment. */
  function LoginLocationId(pathname: string): (id: string)
    ensures '/' !in id && |id| <= |pathname| && id == pathname[|pathname| - |id|..]
    ensures |id| < |pathname| ==> pathname[|pathname| - |id| - 1] == '/'
  {
    LastSegment(pathname, '/')
  }

  /** The quiz id of `/quiz/<id>`, or 'current' when the path ends with '/'. */
  function QuizIdOfPath(pathname: string): (id: string)
    ensures LastSegment(pathname, '/') == "" ==> id == "current"
    ensures LastSegment(pathname, '/') != "" ==> id == LastSegment(pathname, '/')
  {
    var last := LastSegment(pathname, '/');
    if last == "" then "current" else last
  }

  lemma QuizIdOfQuizPath(id: string)
    requires id != "" && '/' !in id
    ensures QuizIdOfPath("/quiz/" + id) == id
  {
    LastSegmentOfJoined("/quiz", id);
    assert "/quiz/" + id == "/quiz" + "/" + id;
  }

  lemma {:induction false} LastSegmentOfJoined(prefix: string, last: string)
    requires '/' !in last
    ensures LastSegment(prefix + "/" + last, '/') == last
  {
    var s := prefix + "/" + last;
    if last != [] {
      assert s[..|s| - 1] == prefix + "/" + last[..|last| - 1];
      LastSegmentOfJoined(prefix, last[..|last| - 1]);
      assert last == last[..|last| - 1] + [last[|last| - 1]];
    } else {
      assert s[|s| - 1] == '/';
    }
  }

  /** The navigation state of `/quiz/results`; a missing field is None. */
  datatype ResultsState = ResultsState(
    score: Option<int>,
    answers: Option<seq<Option<int>>>,
    totalQuestions: Option<nat>,
    quizId: Option<string>,
    userEmail: Option<string>,
    selectedLocation: Option<string>)

  /** The props the results page renders with. */
  datatype ResultsProps = ResultsProps(
    score: int,
    totalQuestions: nat,
    userAnswers: seq<Option<int>>,
    quizId: string,
    userEmail: string)

  /** The destructuring with defaults: score 0, no answers, three questions, the current
      quiz and a guest, for a missing state or a missing field. */
  function ResultsPropsOf(state: Option<ResultsState>): (p: ResultsProps)
    ensures state.None? ==> p == ResultsProps(0, 3, [], "current", "Guest")
    ensures state.Some? ==>
      && p.score == state.value.score.GetOr(0)
      && p.totalQuestions == state.value.totalQuestions.GetOr(3)
      && p.userAnswers == state.value.answers.GetOr([])
      && p.quizId == state.value.quizId.GetOr("current")
      && p.userEmail == state.value.userEmail.GetOr("Guest")
  {
    var s := state.GetOr(ResultsState(None, None, None, None, None, None));
    ResultsProps(s.score.GetOr(0), s.totalQuestions.GetOr(3), s.answers.GetOr([]),
      s.quizId.GetOr("current"), s.userEmail.GetOr("Guest"))
  }

  /** The state the quiz route navigates with, as written: `onQuizComplete` is called with
      the score and the answers only, so the third parameter, `totalQuestions`, is
      undefined. */
  function CompletionStateAsWritten(completion: QuizInterface.Completion, quizId: string, userEmail: string,
                                    selectedLocation: string): (s: ResultsState)
    ensures s.totalQuestions.None?
    ensures s.score == Some(completion.score) && s.answers == Some(completion.answers)
  {
    ResultsState(Some(completion.score), Some(completion.answers), None, Some(quizId), Some(userEmail), Some(selectedLocation))
  }

  /** With four of the five answers right the score is 80, but the navigation state the
      quiz route builds leaves the question count to its default of three, so a results
      route that reads that state says two were answered correctly. The route as written
      does not read it (see `ResultsRouteShowsZeroAsWritten`). */
  lemma ResultsMiscountAsWritten()
    ensures var answers := [Some(1), Some(1), Some(2), Some(1), Some(0)];
      var c := QuizInterface.Completion(QuizInterface.Score(answers), answers);
      var p := ResultsPropsOf(Some(CompletionStateAsWritten(c, "current", "a@b", "x")));
      && QuizInterface.CountCorrect(answers, QuizInterface.AnswerKey) == 4
      && p.totalQuestions == 3
      && QuizResults.CorrectAnswers(p.score, p.totalQuestions) == 2
  {
    var answers := [Some(1), Some(1), Some(2), Some(1), Some(0)];
    var c := QuizInterface.CountCorrect(answers, QuizInterface.AnswerKey);
    assert answers[1..] == [Some(1), Some(2), Some(1), Some(0)];
    assert c == 4;
    assert QuizInterface.Score(answers) == 80;
    RoundUnique(80 * 3, 100, 2);
  }

  /** The state the quiz route evidently means to navigate with: the quiz's own number of
      questions. */
  function CompletionState(completion: QuizInterface.Completion, quizId: string, userEmail: string,
                           selectedLocation: string): (s: ResultsState)
    ensures s.totalQuestions == Some(QuizInterface.QuestionCount)
    ensures s.score == Some(completion.score) && s.answers == Some(completion.answers)
  {
    ResultsState(Some(completion.score), Some(completion.answers), Some(QuizInterface.QuestionCount),
      Some(quizId), Some(userEmail), Some(selectedLocation))
  }

  /** With the question count passed on, the results page reports exactly the number of
      right answers. */
  lemma ResultsCountCorrected(answers: seq<Option<int>>, quizId: string, userEmail: string, selectedLocation: string)
    ensures var c := QuizInterface.Completion(QuizInterface.Score(answers), answers);
      var p := ResultsPropsOf(Some(CompletionState(c, quizId, userEmail, selectedLocation)));
      QuizResults.CorrectAnswers(p.score, p.totalQuestions) == QuizInterface.CountCorrect(answers, QuizInterface.AnswerKey)
  {
    QuizResults.ResultsShowCorrectCount(answers);
  }

  /** The results route as written reads `window.location.state`, a property the browser's
      `Location` object does not have; the state the quiz route navigated with is in the
      history entry instead. Whatever was passed, the page shows the defaults. */
  function ResultsRoutePropsAsWritten(navigated: ResultsState): (p: ResultsProps)
    ensures p == ResultsPropsOf(None)
  {
    ResultsPropsOf(None)
  }

  /** Whatever the quiz scored, the results route as written shows a score of 0. */
  lemma ResultsRouteShowsZeroAsWritten(answers: seq<Option<int>>, quizId: string, userEmail: string,
                                       selectedLocation: string)
    ensures var c := QuizInterface.Completion(QuizInterface.Score(answers), answers);
      ResultsRoutePropsAsWritten(CompletionState(c, quizId, userEmail, selectedLocation)).score == 0
  {
  }

  /** The results route reading the navigation state it was given. */
  function ResultsRouteProps(navigated: ResultsState): (p: ResultsProps)
    ensures p.score == navigated.score.GetOr(0) && p.totalQuestions == navigated.totalQuestions.GetOr(3)
    ensures p.userAnswers == navigated.answers.GetOr([])
  {
    ResultsPropsOf(Some(navigated))
  }

  /** With both corrections, the results route shows the submitted score and the number
      of right answers. */
  lemma ResultsRouteCorrected(answers: seq<Option<int>>, quizId: string, userEmail: string, selectedLocation: string)
    ensures var c := QuizInterface.Completion(QuizInterface.Score(answers), answers);
      var p := ResultsRouteProps(CompletionState(c, quizId, userEmail, selectedLocation));
      && p.score == QuizInterface.Score(answers)
      && QuizResults.CorrectAnswers(p.score, p.totalQuestions) == QuizInterface.CountCorrect(answers, QuizInterface.AnswerKey)
  {
    ResultsCountCorrected(answers, quizId, userEmail, selectedLocation);
  }
}
