/** Properties of whole runs of a quiz: progress, scoring and timing over many answers. */
module Scenarios {
  import opened Generator
  import opened SeqMath
  import opened Quiz
  import opened Report

  /** All actions are answer submissions. */
  predicate AllSubmits(acts: seq<Action>)
  {
    forall i :: 0 <= i < |acts| ==> acts[i].Submit?
  }

  /**
   How many of the submissions answer their problem right, the first of them
   answering problem `from`.
   */
  function RightAnswers(ps: seq<Problem>, from: int, acts: seq<Action>): (n: nat)
    requires AllSubmits(acts) && 0 <= from && from + |acts| <= |ps|
    ensures n <= |acts|
    ensures n == |acts| <==> forall j :: 0 <= j < |acts| ==> acts[j].answer == Expected(ps[from + j])
    decreases |acts|
  {
    if |acts| == 0 then 0
    else
      var rest := RightAnswers(ps, from + 1, acts[1..]);
      assert forall j :: 1 <= j < |acts| ==> acts[j] == acts[1..][j - 1];
      (if acts[0].answer == Expected(ps[from]) then 1 else 0) + rest
  }

  /** One accepted answer to a running quiz, as seen by a run. */
  lemma SubmitStep(s: Session, a: Action)
    requires Inv(s) && s.started && a.Submit?
    ensures var t := Step(s, a);
      && Inv(t)
      && t.currentIndex == s.currentIndex + 1
      && t.problems == s.problems
      && t.correctCount == s.correctCount + (if a.answer == Expected(s.problems[s.currentIndex]) then 1 else 0)
      && (t.Status() == Finished <==> s.currentIndex + 1 == s.numQuestions)
      && (t.Status() == InProgress <==> s.currentIndex + 1 < s.numQuestions)
  {
    SubmitKeepsInv(s, a.answer, a.now);
  }

  /**
   Submitting k answers to a running quiz (without going past the last
   question) advances the index by k, scores exactly the right answers, and
   finishes the quiz exactly when the last question has been answered.
   */
  lemma {:induction false} SubmitsAdvance(s: Session, acts: seq<Action>)
    requires Inv(s) && s.started
    requires AllSubmits(acts) && 0 < |acts| && s.currentIndex + |acts| <= s.numQuestions
    ensures var t := Run(s, acts);
      && Inv(t)
      && t.currentIndex == s.currentIndex + |acts|
      && t.problems == s.problems
      && t.correctCount == s.correctCount + RightAnswers(s.problems, s.currentIndex, acts)
      && (t.Status() == Finished <==> s.currentIndex + |acts| == s.numQuestions)
      && (t.Status() == InProgress <==> s.currentIndex + |acts| < s.numQuestions)
    decreases |acts|
  {
    var a := acts[0];
    var rest := acts[1..];
    var s1 := Step(s, a);
    SubmitStep(s, a);
    assert Run(s, acts) == Run(s1, rest);
    if |rest| > 0 {
      SubmitsAdvance(s1, rest);
    }
  }

  /**
   After a start, nine answers leave the quiz in progress at question ten,
   and the tenth answer finishes it.
   */
  lemma NineThenTen(cfg: Config, draws: seq<nat>, start: int, acts: seq<Action>)
    requires ValidConfig(cfg) && |draws| >= 2 * NumQuestions
    requires AllSubmits(acts) && |acts| == NumQuestions
    ensures var s := StartQuiz(cfg, draws, start);
      && Run(s, acts[..9]).Status() == InProgress && Run(s, acts[..9]).currentIndex == 9
      && Run(s, acts).Status() == Finished && Run(s, acts).currentIndex == 10
  {
    var s := StartQuiz(cfg, draws, start);
    SubmitsAdvance(s, acts[..9]);
    SubmitsAdvance(s, acts);
  }

  /**
   A start followed by ten answers reaches the results screen, in a state
   reachable from the initial one, and the score is the number of right
   answers.
   */
  lemma FullQuiz(cfg: Config, draws: seq<nat>, start: int, acts: seq<Action>)
    requires ValidConfig(cfg) && |draws| >= 2 * NumQuestions
    requires AllSubmits(acts) && |acts| == NumQuestions
    ensures var s := StartQuiz(cfg, draws, start);
      var t := Run(s, acts);
      && Reachable(t)
      && Inv(t)
      && t.Status() == Finished
      && t.problems == s.problems
      && t.correctCount == RightAnswers(s.problems, 0, acts)
  {
    StartThenRun(cfg, draws, start, acts);
    SubmitsAdvance(StartQuiz(cfg, draws, start), acts);
  }

  /** Answering every problem right is exactly what gives ten right and none wrong on the results screen. */
  lemma PerfectScore(cfg: Config, draws: seq<nat>, start: int, acts: seq<Action>)
    requires ValidConfig(cfg) && |draws| >= 2 * NumQuestions
    requires AllSubmits(acts) && |acts| == NumQuestions
    ensures var s := StartQuiz(cfg, draws, start);
      var r := Results(Run(s, acts));
      (forall i :: 0 <= i < NumQuestions ==> acts[i].answer == Expected(s.problems[i]))
        <==> r.correct == NumQuestions && r.wrong == 0
  {
    FullQuiz(cfg, draws, start, acts);
    var s := StartQuiz(cfg, draws, start);
    var t := Run(s, acts);
    assert Results(t).correct == RightAnswers(s.problems, 0, acts);
  }

  /**
   Pressing start on the initial screen and then acting is acting on a fresh
   session, and the state reached is reachable.
   */
  lemma StartThenRun(cfg: Config, draws: seq<nat>, start: int, acts: seq<Action>)
    requires ValidConfig(cfg) && |draws| >= 2 * NumQuestions
    requires forall i :: 0 <= i < |acts| ==> WellFormed(acts[i])
    ensures Reachable(Run(StartQuiz(cfg, draws, start), acts))
  {
    var press := PressStart(cfg, draws, start);
    var all := [press] + acts;
    assert all[0] == press && all[1..] == acts;
    assert forall i :: 0 <= i < |all| ==> WellFormed(all[i]) by {
      forall i | 0 <= i < |all|
        ensures WellFormed(all[i])
      {
        if i > 0 { assert all[i] == acts[i - 1]; }
      }
    }
    assert Step(Initial(), press) == StartQuiz(cfg, draws, start);
    assert Run(Initial(), all) == Run(StartQuiz(cfg, draws, start), acts);
    RunIsReachable(all);
  }

  /** Whatever a run of well-formed actions from the initial state reaches is reachable. */
  lemma RunIsReachable(acts: seq<Action>)
    requires forall i :: 0 <= i < |acts| ==> WellFormed(acts[i])
    ensures Reachable(Run(Initial(), acts))
  {
  }

  /** Every action of the run happens no earlier than the previous one, and not before the session's recorded instants. */
  predicate ClockMonotone(s: Session, acts: seq<Action>)
  {
    && (|acts| > 0 ==> ClockNotBefore(s, acts[0].now))
    && forall i :: 0 < i < |acts| ==> acts[i - 1].now <= acts[i].now
  }

  /** With a clock that never runs backwards, no recorded time is ever negative. */
  lemma {:induction false} RunKeepsTimesNonNegative(s: Session, acts: seq<Action>)
    requires forall i :: 0 <= i < |acts| ==> WellFormed(acts[i])
    requires TimesNonNegative(s) && ClockMonotone(s, acts)
    ensures TimesNonNegative(Run(s, acts))
    decreases |acts|
  {
    if |acts| > 0 {
      var s1 := Step(s, acts[0]);
      StepKeepsTimesNonNegative(s, acts[0]);
      var rest := acts[1..];
      if |rest| > 0 {
        assert acts[0].now <= rest[0].now;
      }
      assert forall i :: 0 < i < |rest| ==> rest[i - 1].now <= rest[i].now by {
        forall i | 0 < i < |rest|
          ensures rest[i - 1].now <= rest[i].now
        {
          assert rest[i - 1] == acts[i] && rest[i] == acts[i + 1];
        }
      }
      RunKeepsTimesNonNegative(s1, rest);
    }
  }
}
