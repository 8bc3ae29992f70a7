/**
 * The quiz session state machine of the `App` component: the `QuizState`
 * record and the record-replacement functions that its event handlers hand
 * to `setState`. The question list is a parameter (its content is not part
 * of this model); only each question's id and correct option index matter.
 */
module QuizSession {
  import opened Optional

  /** The screens of the application (`AppStep`). */
  datatype Step = Intro | Quiz | AdminLogin | AdminDashboard | Result | AiAnalysis

  /** What the state machine needs to know of a question. */
  datatype Question = Question(id: int, correct: int)

  /** One entry of `userAnswers`. */
  datatype UserAnswer = UserAnswer(questionId: int, isCorrect: bool)

  datatype QuizState = QuizState(
    currentStep: Step,
    currentIndex: int,
    score: int,
    selectedOption: Option<int>,
    showExplanation: bool,
    userAnswers: seq<UserAnswer>)

  /** The state the component starts in and that a reset restores. */
  const Initial: QuizState := QuizState(Intro, 0, 0, None, false, [])

  /** The static passphrase of the admin view, compared by exact equality. */
  const AdminPassword: string := "2025"

  /** The number of answers in `answers` that were correct. */
  function CorrectCount(answers: seq<UserAnswer>): (n: nat)
    ensures n <= |answers|
  {
    if answers == [] then 0
    else (if answers[0].isCorrect then 1 else 0) + CorrectCount(answers[1..])
  }

  lemma {:induction false} CorrectCountAppend(answers: seq<UserAnswer>, a: UserAnswer)
    ensures CorrectCount(answers + [a]) == CorrectCount(answers) + (if a.isCorrect then 1 else 0)
  {
    if answers == [] {
      assert answers + [a] == [a];
      assert [a][1..] == [];
    } else {
      assert (answers + [a])[1..] == answers[1..] + [a];
      CorrectCountAppend(answers[1..], a);
    }
  }

  /**
   * Moves to another screen and touches nothing else: the updater
   * `prev => ({ ...prev, currentStep: step })` used by the start button,
   * the admin entry button, a successful login and the analysis request.
   */
  function GoTo(s: QuizState, step: Step): (r: QuizState)
    ensures r.currentStep == step
    ensures r.(currentStep := s.currentStep) == s
  {
    s.(currentStep := step)
  }

  /**
   * `handleOptionClick(idx)`: a no-op once the explanation is showing;
   * otherwise records the answer to the current question.
   */
  function SelectOption(qs: seq<Question>, s: QuizState, idx: int): (r: QuizState)
    requires s.showExplanation || 0 <= s.currentIndex < |qs|
    ensures s.showExplanation ==> r == s
    ensures !s.showExplanation ==>
      var q := qs[s.currentIndex];
      && |r.userAnswers| == |s.userAnswers| + 1
      && r.userAnswers[..|s.userAnswers|] == s.userAnswers
      && r.userAnswers[|s.userAnswers|] == UserAnswer(q.id, idx == q.correct)
      && (r.score == s.score + 1 <==> idx == q.correct)
      && (idx != q.correct ==> r.score == s.score)
      && r.selectedOption == Some(idx)
      && r.showExplanation
      && r.currentStep == s.currentStep
      && r.currentIndex == s.currentIndex
  {
    if s.showExplanation then s
    else
      var q := qs[s.currentIndex];
      var isCorrect := idx == q.correct;
      s.(selectedOption := Some(idx),
         score := if isCorrect then s.score + 1 else s.score,
         showExplanation := true,
         userAnswers := s.userAnswers + [UserAnswer(q.id, isCorrect)])
  }

  /**
   * The state part of `handleNext`: the next question, or the result screen
   * when the current question is the last one.
   */
  function Next(qs: seq<Question>, s: QuizState): (r: QuizState)
    ensures s.currentIndex < |qs| - 1 ==>
      && r.currentIndex == s.currentIndex + 1
      && r.selectedOption == None
      && !r.showExplanation
      && r.score == s.score
      && r.userAnswers == s.userAnswers
      && r.currentStep == s.currentStep
    ensures s.currentIndex >= |qs| - 1 ==>
      && r.currentStep == Result
      && r.currentIndex == s.currentIndex
      && r.score == s.score
      && r.userAnswers == s.userAnswers
      && r.selectedOption == s.selectedOption
      && r.showExplanation == s.showExplanation
  {
    if s.currentIndex < |qs| - 1 then
      s.(currentIndex := s.currentIndex + 1, selectedOption := None, showExplanation := false)
    else
      s.(currentStep := Result)
  }

  /** The step part of `handleAdminLogin`. */
  function Login(s: QuizState, input: string): (r: QuizState)
    ensures input == AdminPassword ==> r.currentStep == AdminDashboard
    ensures input != AdminPassword ==> r == s
    ensures r.(currentStep := s.currentStep) == s
  {
    if input == AdminPassword then GoTo(s, AdminDashboard) else s
  }

  /** The numerator of the progress bar: questions answered so far. */
  function Answered(s: QuizState): (r: int)
  {
    s.currentIndex + (if s.showExplanation then 1 else 0)
  }

  predicate IsIdleStep(step: Step)
  {
    step == Intro || step == AdminLogin || step == AdminDashboard
  }

  predicate IsFinishedStep(step: Step)
  {
    step == Result || step == AiAnalysis
  }

  /**
   * What holds of every state reachable from `Initial` through the user
   * intents the screens offer.
   */
  predicate Inv(qs: seq<Question>, s: QuizState)
  {
    && |qs| > 0
    && 0 <= s.currentIndex < |qs|
    && |s.userAnswers| == Answered(s)
    && (forall k :: 0 <= k < |s.userAnswers| ==> s.userAnswers[k].questionId == qs[k].id)
    && s.score == CorrectCount(s.userAnswers)
    && (s.showExplanation <==> s.selectedOption.Some?)
    // the colour of the explanation box agrees with the recorded answer
    && (s.showExplanation ==>
          s.userAnswers[s.currentIndex].isCorrect == (s.selectedOption.value == qs[s.currentIndex].correct))
    // outside a quiz pass the quiz fields are those of a fresh session
    && (IsIdleStep(s.currentStep) ==> s == Initial.(currentStep := s.currentStep))
    // a finished pass has answered its last question
    && (IsFinishedStep(s.currentStep) ==> s.showExplanation && s.currentIndex == |qs| - 1)
  }

  /** The user intents, each offered by a button of one screen. */
  datatype Event =
    | StartQuiz
    | ClickOption(idx: int)
    | ClickNext
    | OpenAdmin
    | SubmitLogin(input: string)
    | RequestAnalysis
    | ResetAll

  /**
   * Whether the screen of `s` renders the control that raises `e`. It offers
   * at least every control the screens render (`EnabledCoversControls`); it
   * also offers reset on the analysis screen while the request is pending
   * and option clicks while the option buttons are disabled (the handler
   * ignores those).
   */
  predicate Enabled(s: QuizState, e: Event)
  {
    match e
    case StartQuiz => s.currentStep == Intro
    case ClickOption(_) => s.currentStep == Quiz
    case ClickNext => s.currentStep == Quiz && s.showExplanation
    case OpenAdmin => s.currentStep == Intro
    case SubmitLogin(_) => s.currentStep == AdminLogin
    case RequestAnalysis => s.currentStep == Result
    case ResetAll => s.currentStep != Intro && s.currentStep != Quiz
  }

  /** Every control that a screen renders raises an event `Enabled` allows. */
  lemma EnabledCoversControls(s: QuizState)
    ensures s.currentStep == Intro ==> Enabled(s, StartQuiz) && Enabled(s, OpenAdmin)
    ensures s.currentStep == Quiz ==> forall idx :: Enabled(s, ClickOption(idx))
    ensures s.currentStep == Quiz && s.showExplanation ==> Enabled(s, ClickNext)
    ensures s.currentStep == AdminLogin ==> forall input :: Enabled(s, SubmitLogin(input))
    ensures s.currentStep == AdminDashboard ==> Enabled(s, ResetAll)
    ensures s.currentStep == Result ==> Enabled(s, RequestAnalysis) && Enabled(s, ResetAll)
    ensures s.currentStep == AiAnalysis || s.currentStep == AdminLogin ==> Enabled(s, ResetAll)
  {
  }

  /** The new quiz state after the handler of `e` has run. */
  function Apply(qs: seq<Question>, s: QuizState, e: Event): (r: QuizState)
    requires Inv(qs, s)
    ensures e.StartQuiz? ==> r.currentStep == Quiz
    ensures e.OpenAdmin? ==> r.currentStep == AdminLogin
    ensures e.ClickOption? ==> r.currentStep == s.currentStep
    ensures e.ClickNext? ==> r.currentStep == s.currentStep || r.currentStep == Result
    ensures e.SubmitLogin? ==> r.currentStep == s.currentStep || r.currentStep == AdminDashboard
    ensures e.RequestAnalysis? ==> r.currentStep == AiAnalysis
    ensures e.ResetAll? ==> r == Initial
  {
    match e
    case StartQuiz => GoTo(s, Quiz)
    case ClickOption(idx) => SelectOption(qs, s, idx)
    case ClickNext => Next(qs, s)
    case OpenAdmin => GoTo(s, AdminLogin)
    case SubmitLogin(input) => Login(s, input)
    case RequestAnalysis => GoTo(s, AiAnalysis)
    case ResetAll => Initial
  }

  lemma InitialInv(qs: seq<Question>)
    requires |qs| > 0
    ensures Inv(qs, Initial)
  {
  }

  lemma SelectOptionPreservesInv(qs: seq<Question>, s: QuizState, idx: int)
    requires Inv(qs, s) && s.currentStep == Quiz
    ensures Inv(qs, SelectOption(qs, s, idx))
  {
    if !s.showExplanation {
      var r := SelectOption(qs, s, idx);
      CorrectCountAppend(s.userAnswers, r.userAnswers[|s.userAnswers|]);
      assert r.userAnswers == s.userAnswers + [r.userAnswers[|s.userAnswers|]];
    }
  }

  /** Every intent a screen offers keeps the invariant. */
  lemma StepPreservesInv(qs: seq<Question>, s: QuizState, e: Event)
    requires Inv(qs, s) && Enabled(s, e)
    ensures Inv(qs, Apply(qs, s, e))
  {
    match e
    case ClickOption(idx) => SelectOptionPreservesInv(qs, s, idx);
    case _ =>
  }

  /**
   * Replays `events` from `s`: `None` when some event is raised on a screen
   * that does not offer it, otherwise the final state, which keeps `Inv`.
   */
  function Run(qs: seq<Question>, s: QuizState, events: seq<Event>): (r: Option<QuizState>)
    requires Inv(qs, s)
    ensures r.Some? ==> Inv(qs, r.value)
    decreases |events|
  {
    if events == [] then Some(s)
    else if !Enabled(s, events[0]) then None
    else
      StepPreservesInv(qs, s, events[0]);
      Run(qs, Apply(qs, s, events[0]), events[1..])
  }

  /** The bounds on a reachable state that the progress bar relies on. */
  lemma ReachableBounds(qs: seq<Question>, events: seq<Event>)
    requires |qs| > 0
    ensures Run(qs, Initial, events).Some? ==>
      var t := Run(qs, Initial, events).value;
      && 0 <= t.currentIndex < |qs|
      && |t.userAnswers| == Answered(t)
      && 0 <= t.score <= |t.userAnswers| <= |qs|
  {
  }

  /**
   * A pass that reached the result screen has answered every question once,
   * in order, and its score is the number of correct answers.
   */
  lemma FinishedPassComplete(qs: seq<Question>, events: seq<Event>)
    requires |qs| > 0
    requires Run(qs, Initial, events).Some?
    requires IsFinishedStep(Run(qs, Initial, events).value.currentStep)
    ensures
      var t := Run(qs, Initial, events).value;
      && |t.userAnswers| == |qs|
      && (forall k :: 0 <= k < |qs| ==> t.userAnswers[k].questionId == qs[k].id)
      && t.score == CorrectCount(t.userAnswers) <= |qs|
  {
  }

  /**
   * `handleStart` only changes the step; on a reachable intro screen that
   * is already a fresh pass, because every way back to intro resets.
   */
  lemma StartIsFresh(qs: seq<Question>, s: QuizState)
    requires Inv(qs, s) && s.currentStep == Intro
    ensures GoTo(s, Quiz) == Initial.(currentStep := Quiz)
  {
  }

  /** Replaying an enabled intent and then the rest. */
  lemma RunCons(qs: seq<Question>, s: QuizState, e: Event, rest: seq<Event>)
    requires Inv(qs, s) && Enabled(s, e) && Inv(qs, Apply(qs, s, e))
    ensures Run(qs, s, [e] + rest) == Run(qs, Apply(qs, s, e), rest)
  {
    assert ([e] + rest)[0] == e && ([e] + rest)[1..] == rest;
  }

  /**
   * No screen is a dead end once a pending analysis has settled: from every
   * reachable state some sequence of offered intents (answering and
   * advancing through the remaining questions, then resetting) leads back
   * to the initial state. On the analysis screen the reset is taken as
   * offered; the screen shows it only when no analysis is pending.
   */
  lemma {:induction false} BackToInitial(qs: seq<Question>, s: QuizState) returns (events: seq<Event>)
    requires Inv(qs, s)
    ensures Run(qs, s, events) == Some(Initial)
    decreases |qs| - s.currentIndex, if s.currentStep == Quiz then 1 else 0, if s.showExplanation then 0 else 1
  {
    if s.currentStep == Intro {
      assert s == Initial;
      events := [];
    } else if s.currentStep != Quiz {
      events := [ResetAll];
      InitialInv(qs);
      RunCons(qs, s, ResetAll, []);
    } else {
      var e := if s.showExplanation then ClickNext else ClickOption(0);
      StepPreservesInv(qs, s, e);
      var rest := BackToInitial(qs, Apply(qs, s, e));
      RunCons(qs, s, e, rest);
      events := [e] + rest;
    }
  }

  /**
   * Apart from a reset, no intent takes back progress: the index and the
   * score do not decrease and the recorded answers are only extended.
   */
  lemma {:induction false} RunMonotone(qs: seq<Question>, s: QuizState, events: seq<Event>)
    requires Inv(qs, s)
    requires forall k :: 0 <= k < |events| ==> events[k] != ResetAll
    ensures Run(qs, s, events).Some? ==>
      var t := Run(qs, s, events).value;
      && s.currentIndex <= t.currentIndex
      && s.score <= t.score
      && s.userAnswers <= t.userAnswers
    decreases |events|
  {
    if events != [] && Enabled(s, events[0]) {
      StepPreservesInv(qs, s, events[0]);
      var s' := Apply(qs, s, events[0]);
      assert s.userAnswers <= s'.userAnswers by {
        if events[0].ClickOption? && !s.showExplanation {
          assert s'.userAnswers[..|s.userAnswers|] == s.userAnswers;
        }
      }
      assert forall k :: 0 <= k < |events[1..]| ==> events[1..][k] == events[k + 1];
      RunMonotone(qs, s', events[1..]);
    }
  }
}
