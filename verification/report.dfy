/** The results screen: the figures derived from a finished session. */
module Report {
  import opened Quiz
  import opened SeqMath

  /** Everything the results screen shows, times in clock ticks. */
  datatype Figures = Figures(
    numQuestions: int,
    correct: int,
    wrong: int,
    totalTime: int,
    avgTime: real,
    fastest: int,
    slowest: int)

  /**
   The results figures. A missing total counts as zero, the average is
   zero when there are no questions, and fastest and slowest are zero when
   no time was recorded. The session is only read.
   */
  function Results(s: Session): (r: Figures)
    ensures r.numQuestions == s.numQuestions
    ensures r.correct == s.correctCount && r.correct + r.wrong == s.numQuestions
    ensures r.totalTime == (if s.totalTime.Some? then s.totalTime.value else 0)
    ensures s.numQuestions > 0 ==> r.avgTime * (s.numQuestions as real) == r.totalTime as real
    ensures s.numQuestions <= 0 ==> r.avgTime == 0.0
    ensures |s.times| > 0 ==>
      && r.fastest in s.times && r.slowest in s.times
      && forall i :: 0 <= i < |s.times| ==> r.fastest <= s.times[i] <= r.slowest
    ensures |s.times| == 0 ==> r.fastest == 0 && r.slowest == 0
  {
    var total := if s.totalTime.Some? then s.totalTime.value else 0;
    Figures(
      numQuestions := s.numQuestions,
      correct := s.correctCount,
      wrong := s.numQuestions - s.correctCount,
      totalTime := total,
      avgTime := if s.numQuestions > 0 then total as real / s.numQuestions as real else 0.0,
      fastest := if |s.times| > 0 then Min(s.times) else 0,
      slowest := if |s.times| > 0 then Max(s.times) else 0)
  }

  /**
   For a finished session: right and wrong answers add up to the ten
   questions, the total time is the sum of the per-question times, and the
   average lies between the fastest and the slowest time.
   */
  lemma FinishedResults(s: Session)
    requires Inv(s) && s.Status() == Finished
    ensures var r := Results(s);
      && r.correct + r.wrong == NumQuestions
      && 0 <= r.wrong <= NumQuestions
      && r.totalTime == Sum(s.times)
      && r.fastest <= r.slowest
      && r.fastest as real <= r.avgTime <= r.slowest as real
  {
    var r := Results(s);
    var total := Sum(s.times);
    SumBetween(s.times, r.fastest, r.slowest);
    AverageBetween(r.fastest, r.slowest, total, NumQuestions);
  }

  /** A mean of n values lies between their lower and upper bound. */
  lemma AverageBetween(lo: int, hi: int, total: int, n: int)
    requires n > 0 && n * lo <= total <= n * hi
    ensures lo as real <= total as real / n as real <= hi as real
  {
    var avg := total as real / n as real;
    assert avg * n as real == total as real;
    assert lo as real * n as real <= total as real;
    assert total as real <= hi as real * n as real;
  }
}
