/**
 * The `App` component's state cells and its event handlers. Each handler,
 * or each part of a handler split at an `await` or a `.finally`, is one
 * method whose field-level `modifies` frame names the cells that part
 * writes; the quiz record itself is replaced by the pure transitions of
 * `QuizSession`. The record store and the narrative
 * generator are not modelled: what they return arrives as a parameter.
 */
module App {
  import opened Optional
  import opened QuizSession
  import opened Records
  import opened Analysis

  class QuizApp {
    /** `QUESTIONS`, in quiz order. */
    const questions: seq<Question>

    var state: QuizState
    var aiAnalysis: Option<string>
    var isAnalyzing: bool
    var adminPassInput: string
    var loginError: bool
    var records: seq<SavedRecord>
    var isSaving: bool

    ghost predicate Valid()
      reads this
    {
      Inv(questions, state)
    }

    constructor (questions: seq<Question>)
      requires |questions| > 0
      ensures Valid()
      ensures this.questions == questions && state == Initial
      ensures aiAnalysis == None && !isAnalyzing
      ensures adminPassInput == "" && !loginError
      ensures records == [] && !isSaving
    {
      this.questions := questions;
      state := Initial;
      aiAnalysis := None;
      isAnalyzing := false;
      adminPassInput := "";
      loginError := false;
      records := [];
      isSaving := false;
      InitialInv(questions);
    }

    /** `handleStart`, offered on the intro screen. */
    method HandleStart()
      requires Valid() && state.currentStep == Intro
      modifies this`state
      ensures Valid()
      ensures state == GoTo(old(state), Quiz)
      ensures state == Initial.(currentStep := Quiz)
    {
      StepPreservesInv(questions, state, StartQuiz);
      StartIsFresh(questions, state);
      state := GoTo(state, Quiz);
    }

    /** The lock button of the intro screen. */
    method OpenAdminLogin()
      requires Valid() && state.currentStep == Intro
      modifies this`state
      ensures Valid()
      ensures state == GoTo(old(state), AdminLogin)
    {
      StepPreservesInv(questions, state, OpenAdmin);
      state := GoTo(state, AdminLogin);
    }

    /** `handleOptionClick(idx)`, offered by the option buttons of a question. */
    method HandleOptionClick(idx: int)
      requires Valid() && state.currentStep == Quiz
      modifies this`state
      ensures Valid()
      ensures state == SelectOption(questions, old(state), idx)
      ensures old(state).showExplanation ==> state == old(state)
      ensures !old(state).showExplanation ==>
        state.userAnswers == old(state).userAnswers
          + [UserAnswer(questions[state.currentIndex].id, idx == questions[state.currentIndex].correct)]
    {
      StepPreservesInv(questions, state, ClickOption(idx));
      state := SelectOption(questions, state, idx);
    }

    /**
     * `handleNext`, offered only once the current question is answered. At
     * the last question it shows the result screen first and then starts the
     * background save, returning the payload it submits.
     */
    method HandleNext(timestamp: string, rankTitle: int -> string) returns (save: Option<RecordPayload>)
      requires Valid() && state.currentStep == Quiz && state.showExplanation
      modifies this`state, this`isSaving
      ensures Valid()
      ensures state == Next(questions, old(state))
      ensures old(state).currentIndex < |questions| - 1 ==>
        save == None && isSaving == old(isSaving)
      ensures old(state).currentIndex == |questions| - 1 ==>
        && state.currentStep == Result
        && isSaving
        && save == Some(RecordPayload(timestamp, old(state).score, |questions|, rankTitle(old(state).score)))
      ensures save.Some? ==>
        && |state.userAnswers| == |questions|
        && save.value.score == CorrectCount(state.userAnswers)
    {
      StepPreservesInv(questions, state, ClickNext);
      if state.currentIndex < |questions| - 1 {
        state := Next(questions, state);
        save := None;
      } else {
        var finalScore := state.score;
        state := Next(questions, state);
        isSaving := true;
        save := Some(RecordPayload(timestamp, finalScore, |questions|, rankTitle(finalScore)));
      }
    }

    /** The background save has settled, whatever its outcome. */
    method SaveSettled()
      modifies this`isSaving
      ensures !isSaving
    {
      isSaving := false;
    }

    /**
     * The first half of `triggerAIAnalysis`, offered on the result screen:
     * returns the score and question count the narrative request is made with.
     */
    method BeginAnalysis() returns (score: int, total: int)
      requires Valid() && state.currentStep == Result
      modifies this`state, this`isAnalyzing
      ensures Valid()
      ensures isAnalyzing
      ensures state == GoTo(old(state), AiAnalysis)
      ensures score == state.score == CorrectCount(state.userAnswers)
      ensures total == |questions| == |state.userAnswers|
    {
      StepPreservesInv(questions, state, RequestAnalysis);
      isAnalyzing := true;
      state := GoTo(state, AiAnalysis);
      score, total := state.score, |questions|;
    }

    /**
     * The second half of `triggerAIAnalysis`, once the generator answered
     * (`None` when it failed). The write has no guard, but nothing can reset
     * before it: the analysis screen offers its reset only once
     * `isAnalyzing` is cleared here.
     */
    method FinishAnalysis(result: Option<string>)
      modifies this`aiAnalysis, this`isAnalyzing
      ensures aiAnalysis == Some(AnalysisText(result))
      ensures !isAnalyzing
    {
      aiAnalysis := Some(AnalysisText(result));
      isAnalyzing := false;
    }

    /**
     * `handleReset`, offered by the cancel button of the login screen, the
     * exit button of the dashboard, the result screen, and the analysis
     * screen once no analysis is pending.
     */
    method HandleReset()
      requires Valid()
      requires state.currentStep != Intro && state.currentStep != Quiz
      requires !(state.currentStep == AiAnalysis && isAnalyzing)
      modifies this`state, this`aiAnalysis, this`adminPassInput, this`loginError
      ensures Valid()
      ensures state == Initial
      ensures aiAnalysis == None && adminPassInput == "" && !loginError
    {
      state := Initial;
      aiAnalysis := None;
      adminPassInput := "";
      loginError := false;
      InitialInv(questions);
    }

    /** The passphrase field's `onChange`. */
    method EditPassInput(value: string)
      modifies this`adminPassInput, this`loginError
      ensures adminPassInput == value && !loginError
    {
      adminPassInput := value;
      loginError := false;
    }

    /**
     * `handleAdminLogin`, offered on the login screen, up to its awaited
     * `refreshRecords()` call: when access is granted the caller goes on to
     * `RefreshRecords`, which writes `records`.
     */
    method HandleAdminLogin() returns (granted: bool)
      requires Valid() && state.currentStep == AdminLogin
      modifies this`state, this`loginError
      ensures Valid()
      ensures granted <==> adminPassInput == AdminPassword
      ensures state == Login(old(state), adminPassInput)
      ensures granted ==> state.currentStep == AdminDashboard && !loginError
      ensures !granted ==> state == old(state) && loginError
    {
      StepPreservesInv(questions, state, SubmitLogin(adminPassInput));
      if adminPassInput == AdminPassword {
        granted := true;
        state := Login(state, adminPassInput);
        loginError := false;
      } else {
        granted := false;
        loginError := true;
      }
    }

    /**
     * `refreshRecords`, with what the record store's list call produced:
     * `None` when it threw (its local fallback could not be read), and then
     * the dashboard keeps the list it had.
     */
    method RefreshRecords(fetched: Option<seq<SavedRecord>>)
      modifies this`records
      ensures fetched.Some? ==> records == fetched.value
      ensures fetched.None? ==> records == old(records)
    {
      if fetched.Some? {
        records := fetched.value;
      }
    }

    /**
     * `deleteRecord(id)`, once the store has answered whether the delete
     * succeeded: only a confirmed delete touches the list.
     */
    method DeleteRecord(id: Option<string>, success: bool)
      modifies this`records
      ensures success ==> records == Without(old(records), id)
      ensures success ==> IsSubsequence(records, old(records))
      ensures !success ==> records == old(records)
    {
      if success {
        WithoutKeepsOrder(records, id);
        records := Without(records, id);
      }
    }
  }
}
