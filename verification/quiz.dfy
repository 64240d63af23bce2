/**
 The quiz session: one immutable record standing for the values the
 application keeps in its per-user session store, and one pure transition
 function per user action.

 The wall clock is injected: every action receives one integer reading
 `now` (in ticks), and all clock reads made while handling that action see
 that same reading.
 */
module Quiz {
  import opened Generator
  import opened SeqMath

  /** The fixed number of questions per quiz. */
  const NumQuestions: int := 10

  datatype Option<T> = None | Some(value: T)

  datatype Result<T, E> = Success(value: T) | Failure(error: E)

  /** What the last answer earned: nothing yet, correct, or wrong with the expected product. */
  datatype Feedback = NoFeedback | Right(elapsed: int) | Wrong(expected: int, elapsed: int)

  /** The three screens of the application. */
  datatype Status = Idle | InProgress | Finished

  /** The digit counts chosen in the sidebar. */
  datatype Config = Config(firstDigits: int, secondDigits: int)

  /** Why an answer was not accepted. */
  datatype SubmitError =
    | NotStarted        // no quiz in progress: the answer form is not shown
    | NoCurrentProblem  // the current index does not name a problem

  datatype Session = Session(
    started: bool,
    finished: bool,
    currentIndex: int,
    numQuestions: int,
    problems: seq<Problem>,
    correctCount: int,
    times: seq<int>,
    totalStartTime: Option<int>,
    totalTime: Option<int>,
    questionStartTime: Option<int>,
    feedback: Feedback)
  {
    /** The screen the page shows, tested in the page's own order. */
    function Status(): Status
    {
      if started then InProgress else if finished then Finished else Idle
    }
  }

  /** The digit counts the sidebar inputs accept. */
  predicate ValidConfig(cfg: Config)
  {
    1 <= cfg.firstDigits <= 6 && 1 <= cfg.secondDigits <= 6
  }

  /** The whole-session invariant: what holds in every state reachable from the initial one. */
  predicate Inv(s: Session)
  {
    && s.numQuestions == NumQuestions
    && !(s.started && s.finished)
    && 0 <= s.currentIndex <= s.numQuestions
    && |s.times| == s.currentIndex
    && 0 <= s.correctCount <= s.currentIndex
    && (s.finished <==> s.currentIndex == s.numQuestions)
    && (s.Status() == Idle ==> s.currentIndex == 0)
    && (s.Status() != Idle ==> |s.problems| == s.numQuestions && s.totalStartTime.Some?)
    && (s.started ==>
          && s.questionStartTime.Some?
          && s.totalTime.None?
          && s.questionStartTime.value - s.totalStartTime.value == Sum(s.times))
    && (s.finished ==> s.totalTime == Some(Sum(s.times)))
  }

  /** The values the session store starts with, before any quiz. */
  function Initial(): (s: Session)
    ensures Inv(s) && s.Status() == Idle
    ensures s.times == [] && s.correctCount == 0
  {
    Session(false, false, 0, NumQuestions, [], 0, [], None, None, None, NoFeedback)
  }

  /**
   `start_quiz`: a fresh session with ten new problems for the configured
   digit counts; nothing of the previous session survives, so it is not
   even an argument.
   */
  function StartQuiz(cfg: Config, draws: seq<nat>, now: int): (s: Session)
    requires cfg.firstDigits >= 1 && cfg.secondDigits >= 1
    requires |draws| >= 2 * NumQuestions
    ensures s.Status() == InProgress && Inv(s)
    ensures s.currentIndex == 0 && s.correctCount == 0 && s.times == [] && s.feedback == NoFeedback
    ensures s.numQuestions == NumQuestions && |s.problems| == NumQuestions
    ensures forall i :: 0 <= i < |s.problems| ==>
      HasDigits(cfg.firstDigits, s.problems[i].a) && HasDigits(cfg.secondDigits, s.problems[i].b)
    ensures s.totalTime == None
    ensures s.totalStartTime == Some(now) && s.questionStartTime == Some(now)
  {
    Session(
      started := true,
      finished := false,
      currentIndex := 0,
      numQuestions := NumQuestions,
      problems := GenerateProblems(cfg.firstDigits, cfg.secondDigits, NumQuestions, draws),
      correctCount := 0,
      times := [],
      totalStartTime := Some(now),
      totalTime := None,
      questionStartTime := Some(now),
      feedback := NoFeedback)
  }

  /**
   `finish_quiz`: switch to the results screen and record the total time,
   measured from the start when a start time exists and otherwise taken as
   the sum of the per-question times.
   */
  function FinishQuiz(s: Session, now: int): (r: Session)
    ensures r.Status() == Finished
    ensures r == s.(started := false, finished := true, totalTime := r.totalTime)
    ensures s.totalStartTime.Some? ==> r.totalTime == Some(now - s.totalStartTime.value)
    ensures s.totalStartTime.None? ==> r.totalTime == Some(Sum(s.times))
  {
    var total := if s.totalStartTime.Some? then now - s.totalStartTime.value else Sum(s.times);
    s.(started := false, finished := true, totalTime := Some(total))
  }

  /** The product the current problem asks for. */
  function Expected(p: Problem): int
  {
    p.a * p.b
  }

  /**
   The submit branch of the page: record the time spent on the current
   problem, score the answer, move to the next problem, and finish the quiz
   after the last one.
   */
  function SubmitAnswer(s: Session, answer: int, now: int): (r: Result<Session, SubmitError>)
    ensures r.Failure? <==> !s.started || !(0 <= s.currentIndex < |s.problems|)
    ensures !s.started ==> r == Failure(NotStarted)
    ensures r.Success? ==>
      var t := r.value;
      var p := s.problems[s.currentIndex];
      var elapsed := if s.questionStartTime.Some? then now - s.questionStartTime.value else 0;
      && t.times == s.times + [elapsed]
      && t.currentIndex == s.currentIndex + 1
      && t.correctCount == s.correctCount + (if answer == p.a * p.b then 1 else 0)
      && (t.feedback.Right? <==> answer == p.a * p.b)
      && t.problems == s.problems
      && t.numQuestions == s.numQuestions
      && t.totalStartTime == s.totalStartTime
      && (t.Status() == Finished <==> s.currentIndex + 1 >= s.numQuestions)
      && (t.Status() == InProgress <==> s.currentIndex + 1 < s.numQuestions)
      && (t.Status() == InProgress ==>
            t.questionStartTime == Some(now) && t.totalTime == s.totalTime && t.finished == s.finished)
      && (t.Status() == Finished ==>
            t.questionStartTime == Some(if s.questionStartTime.Some? then s.questionStartTime.value else now))
      && (t.Status() == Finished && s.totalStartTime.Some? ==>
            t.totalTime == Some(now - s.totalStartTime.value))
      && (t.Status() == Finished && s.totalStartTime.None? ==>
            t.totalTime == Some(Sum(t.times)))
  {
    if !s.started then Failure(NotStarted)
    else if !(0 <= s.currentIndex < |s.problems|) then Failure(NoCurrentProblem)
    else
      var questionStart := if s.questionStartTime.Some? then s.questionStartTime.value else now;
      var elapsed := now - questionStart;
      var expected := Expected(s.problems[s.currentIndex]);
      var right := answer == expected;
      var answered := s.(
        questionStartTime := Some(questionStart),
        times := s.times + [elapsed],
        correctCount := if right then s.correctCount + 1 else s.correctCount,
        feedback := if right then Right(elapsed) else Wrong(expected, elapsed),
        currentIndex := s.currentIndex + 1);
      if answered.currentIndex >= answered.numQuestions then Success(FinishQuiz(answered, now))
      else Success(answered.(questionStartTime := Some(now)))
  }

  /** A user action, with the clock reading (and, for a start, the random draws) it happens with. */
  datatype Action =
    | PressStart(cfg: Config, draws: seq<nat>, now: int)
    | Submit(answer: int, now: int)

  /** The sidebar only accepts valid digit counts, and a start needs twenty draws. */
  predicate WellFormed(a: Action)
  {
    a.PressStart? ==> ValidConfig(a.cfg) && |a.draws| >= 2 * NumQuestions
  }

  /**
   One user action. The start button is only offered while no quiz is in
   progress; an answer the session rejects leaves it unchanged.
   */
  function Step(s: Session, a: Action): (r: Session)
    requires WellFormed(a)
    ensures a.PressStart? && s.started ==> r == s
    ensures a.PressStart? && !s.started ==> r == StartQuiz(a.cfg, a.draws, a.now)
    ensures a.Submit? ==>
      r == (if SubmitAnswer(s, a.answer, a.now).Success? then SubmitAnswer(s, a.answer, a.now).value else s)
  {
    match a
    case PressStart(cfg, draws, now) =>
      if s.started then s else StartQuiz(cfg, draws, now)
    case Submit(answer, now) =>
      match SubmitAnswer(s, answer, now)
      case Success(t) => t
      case Failure(_) => s
  }

  /** A sequence of user actions, applied in order. */
  function Run(s: Session, acts: seq<Action>): Session
    requires forall i :: 0 <= i < |acts| ==> WellFormed(acts[i])
    decreases |acts|
  {
    if |acts| == 0 then s else Run(Step(s, acts[0]), acts[1..])
  }

  /** A state some sequence of well-formed actions leads to from the initial one. */
  ghost predicate Reachable(s: Session)
  {
    exists acts: seq<Action> ::
      (forall i :: 0 <= i < |acts| ==> WellFormed(acts[i])) && Run(Initial(), acts) == s
  }

  /** In a state satisfying the invariant, a started quiz always has a current problem. */
  lemma SubmitAcceptedWhileInProgress(s: Session, answer: int, now: int)
    requires Inv(s) && s.Status() == InProgress
    ensures SubmitAnswer(s, answer, now).Success?
  {
  }

  /** Answers outside a running quiz are rejected and the state stays as it was. */
  lemma SubmitRejectedOutsideQuiz(s: Session, answer: int, now: int)
    requires s.Status() != InProgress
    ensures SubmitAnswer(s, answer, now) == Failure(NotStarted)
    ensures Step(s, Submit(answer, now)) == s
  {
  }

  /** Submitting an answer keeps the invariant. */
  lemma SubmitKeepsInv(s: Session, answer: int, now: int)
    requires Inv(s)
    ensures SubmitAnswer(s, answer, now).Success? ==> Inv(SubmitAnswer(s, answer, now).value)
  {
    if s.started {
      var elapsed := now - s.questionStartTime.value;
      SumAppend(s.times, elapsed);
    }
  }

  /** Every action keeps the invariant. */
  lemma StepKeepsInv(s: Session, a: Action)
    requires Inv(s) && WellFormed(a)
    ensures Inv(Step(s, a))
  {
    if a.Submit? {
      SubmitKeepsInv(s, a.answer, a.now);
    }
  }

  /** Every run of actions keeps the invariant. */
  lemma {:induction false} RunKeepsInv(s: Session, acts: seq<Action>)
    requires Inv(s)
    requires forall i :: 0 <= i < |acts| ==> WellFormed(acts[i])
    ensures Inv(Run(s, acts))
    decreases |acts|
  {
    if |acts| > 0 {
      StepKeepsInv(s, acts[0]);
      RunKeepsInv(Step(s, acts[0]), acts[1..]);
    }
  }

  /** Every reachable state satisfies the invariant. */
  lemma ReachableHasInv(s: Session)
    requires Reachable(s)
    ensures Inv(s)
  {
    var acts: seq<Action> :| (forall i :: 0 <= i < |acts| ==> WellFormed(acts[i])) && Run(Initial(), acts) == s;
    RunKeepsInv(Initial(), acts);
  }

  /**
   The two flags encode exactly three states: never both set, the session
   is finished exactly when every question is answered, one time is kept per
   answered question, and an answer is only accepted while in progress.
   */
  lemma ReachableStates(s: Session, answer: int, now: int)
    requires Reachable(s)
    ensures !(s.started && s.finished)
    ensures s.finished <==> s.currentIndex == s.numQuestions
    ensures |s.times| == s.currentIndex && 0 <= s.correctCount <= s.currentIndex
    ensures SubmitAnswer(s, answer, now).Success? <==> s.Status() == InProgress
  {
    ReachableHasInv(s);
  }

  /**
   Once a quiz has been started, finishing never takes the fallback that sums
   the per-question times, and the measured total equals that sum anyway.
   */
  lemma FinishFallbackUnreachable(s: Session, now: int)
    requires Inv(s) && s.started
    ensures s.totalStartTime.Some?
    ensures FinishQuiz(s, now).totalTime == Some(now - s.totalStartTime.value)
    ensures FinishQuiz(s.(times := s.times + [now - s.questionStartTime.value]), now).totalTime
            == Some(Sum(s.times + [now - s.questionStartTime.value]))
  {
    SumAppend(s.times, now - s.questionStartTime.value);
  }

  /** No recorded time is negative. */
  predicate TimesNonNegative(s: Session)
  {
    forall i :: 0 <= i < |s.times| ==> s.times[i] >= 0
  }

  /** The clock has not gone back past any instant the session recorded. */
  predicate ClockNotBefore(s: Session, now: int)
  {
    && (s.questionStartTime.Some? ==> s.questionStartTime.value <= now)
    && (s.totalStartTime.Some? ==> s.totalStartTime.value <= now)
  }

  /** With a clock that never runs backwards, every recorded time is non-negative. */
  lemma StepKeepsTimesNonNegative(s: Session, a: Action)
    requires WellFormed(a) && TimesNonNegative(s) && ClockNotBefore(s, a.now)
    ensures TimesNonNegative(Step(s, a)) && ClockNotBefore(Step(s, a), a.now)
  {
  }
}
