/** The single-page flow (src/pages/Index.tsx): six state variables set by the handlers
    of the screens, and the view each state renders. Toasts are left out. */
module IndexPage {
  import opened Common
  import QuizInterface

  const MapState := "map"
  const LoginState := "login"
  const SelectionState := "quiz-selection"
  const QuizState := "quiz"
  const ResultsState := "results"
  const AdminState := "admin"

  const AdminEmail := "admin@quiz.com"
  const AdminPassword := "admin123"

  /** The results screen is always told the quiz had five questions. */
  const ResultsTotalQuestions := 5

  predicate KnownState(s: string) {
    s in {MapState, LoginState, SelectionState, QuizState, ResultsState, AdminState}
  }

  predicate IsAdminLogin(email: string, password: string) {
    email == AdminEmail && password == AdminPassword
  }

  /** The screen `renderCurrentView` shows, with the props that depend on the state. */
  datatype View =
    | MapView
    | LoginView(selectedLocation: string)
    | SelectionView(selectedLocation: string, userEmail: string)
    | QuizView(quizId: string)
    | ResultsView(score: int, totalQuestions: nat, userAnswers: seq<Option<int>>, userEmail: string)
    | AdminView

  class Index {
    var currentState: string
    var selectedLocation: string
    var userEmail: string
    var currentQuizId: string
    var quizScore: int
    var userAnswers: seq<Option<int>>

    /** The state is one of the six, and the admin screen is only reached with the
        admin's email. */
    ghost predicate Valid()
      reads this
    {
      KnownState(currentState) && (currentState == AdminState ==> userEmail == AdminEmail)
    }

    /** Every field at its initial value. */
    ghost predicate Initial()
      reads this
    {
      && currentState == MapState && selectedLocation == "" && userEmail == ""
      && currentQuizId == "" && quizScore == 0 && userAnswers == []
    }

    constructor ()
      ensures Valid() && Initial()
    {
      currentState := MapState;
      selectedLocation := "";
      userEmail := "";
      currentQuizId := "";
      quizScore := 0;
      userAnswers := [];
    }

    /** `handleLocationSelect` */
    method LocationSelect(location: string)
      requires Valid()
      modifies this
      ensures Valid()
      ensures currentState == LoginState && selectedLocation == location
      ensures userEmail == old(userEmail) && currentQuizId == old(currentQuizId)
      ensures quizScore == old(quizScore) && userAnswers == old(userAnswers)
    {
      selectedLocation := location;
      currentState := LoginState;
    }

    /** `handleLogin`: the admin's credentials open the dashboard, any others the quiz
        selection. */
    method Login(email: string, password: string)
      requires Valid()
      modifies this
      ensures Valid()
      ensures userEmail == email
      ensures currentState == (if IsAdminLogin(email, password) then AdminState else SelectionState)
      ensures selectedLocation == old(selectedLocation) && currentQuizId == old(currentQuizId)
      ensures quizScore == old(quizScore) && userAnswers == old(userAnswers)
    {
      userEmail := email;
      if email == AdminEmail && password == AdminPassword {
        currentState := AdminState;
      } else {
        currentState := SelectionState;
      }
    }

    /** `handleQuizStart` */
    method QuizStart(quizId: string)
      requires Valid()
      modifies this
      ensures Valid()
      ensures currentState == QuizState && currentQuizId == quizId
      ensures selectedLocation == old(selectedLocation) && userEmail == old(userEmail)
      ensures quizScore == old(quizScore) && userAnswers == old(userAnswers)
    {
      currentQuizId := quizId;
      currentState := QuizState;
    }

    /** `handleQuizComplete`: the arguments `QuizInterface` passes to `onQuizComplete`. */
    method QuizComplete(completion: QuizInterface.Completion)
      requires Valid()
      modifies this
      ensures Valid()
      ensures currentState == ResultsState
      ensures quizScore == completion.score && userAnswers == completion.answers
      ensures selectedLocation == old(selectedLocation) && userEmail == old(userEmail)
      ensures currentQuizId == old(currentQuizId)
    {
      quizScore := completion.score;
      userAnswers := completion.answers;
      currentState := ResultsState;
    }

    /** `handleReturnHome` */
    method ReturnHome()
      requires Valid()
      modifies this
      ensures Valid()
      ensures currentState == SelectionState
      ensures selectedLocation == old(selectedLocation) && userEmail == old(userEmail)
      ensures currentQuizId == old(currentQuizId) && quizScore == old(quizScore) && userAnswers == old(userAnswers)
    {
      currentState := SelectionState;
    }

    /** `handleLogout`: back to the map with every field reset. */
    method Logout()
      requires Valid()
      modifies this
      ensures Valid() && Initial()
    {
      currentState := MapState;
      selectedLocation := "";
      userEmail := "";
      currentQuizId := "";
      quizScore := 0;
      userAnswers := [];
    }

    /** `renderCurrentView`: one view per state, and the map for any other value. */
    function CurrentView(): (v: View)
      reads this
      ensures currentState == MapState || !KnownState(currentState) ==> v == MapView
      ensures currentState == LoginState ==> v == LoginView(selectedLocation)
      ensures currentState == SelectionState ==> v == SelectionView(selectedLocation, userEmail)
      ensures currentState == QuizState ==> v == QuizView(currentQuizId)
      ensures currentState == ResultsState ==> v == ResultsView(quizScore, ResultsTotalQuestions, userAnswers, userEmail)
      ensures currentState == AdminState ==> v == AdminView
    {
      if currentState == LoginState then LoginView(selectedLocation)
      else if currentState == SelectionState then SelectionView(selectedLocation, userEmail)
      else if currentState == QuizState then QuizView(currentQuizId)
      else if currentState == ResultsState then ResultsView(quizScore, ResultsTotalQuestions, userAnswers, userEmail)
      else if currentState == AdminState then AdminView
      else MapView
    }
  }

  /** A user's visit: pick a location, log in, take a quiz, see the results and go home.
      The results screen shows the submitted score, and the visit ends on the quiz
      selection for the same location and user: no user screen offers a logout. */
  method Visit(location: string, email: string, password: string, quizId: string, answers: seq<Option<int>>)
    returns (shown: View, final: View)
    requires !IsAdminLogin(email, password)
    ensures shown == ResultsView(QuizInterface.Score(answers), ResultsTotalQuestions, answers, email)
    ensures final == SelectionView(location, email)
  {
    var page := new Index();
    page.LocationSelect(location);
    page.Login(email, password);
    page.QuizStart(quizId);
    page.QuizComplete(QuizInterface.Completion(QuizInterface.Score(answers), answers));
    shown := page.CurrentView();
    page.ReturnHome();
    final := page.CurrentView();
  }

  /** The admin's visit: the fixed credentials open the dashboard, and its logout returns
      to the map. */
  method AdminVisit(location: string) returns (shown: View, final: View)
    ensures shown == AdminView
    ensures final == MapView
  {
    var page := new Index();
    page.LocationSelect(location);
    page.Login(AdminEmail, AdminPassword);
    shown := page.CurrentView();
    page.Logout();
    final := page.CurrentView();
  }
}
