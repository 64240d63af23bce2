# Multiplication drill quiz — Dafny model

The application presents ten multiplication problems whose operands have a
chosen number of decimal digits. It times each answer and the whole quiz, and
shows a results screen when the quiz ends. Its only logic beyond page
rendering is the quiz session. This project models that session as one
immutable `Session` record with pure transition functions:

- `Generator`: `generate_number` and `generate_problems`. A call
  `random.randint(lo, hi)` becomes `RandInt(lo, hi, draw)`, where the caller
  supplies an arbitrary natural `draw`. The covering lemmas show that every
  value of the range can still be produced.
- `Quiz`: the session record and the initial values of the session store.
  It models `start_quiz`, `finish_quiz` and the submit branch of the page. It
  also defines the whole-session invariant `Inv`, one user action (`Step`),
  a sequence of actions (`Run`) and the reachable states.
- `Report`: the figures on the results screen.
- `SeqMath`: `sum`, `min` and `max` over the recorded times.
- `Scenarios`: properties of whole runs, such as nine answers versus ten,
  the score over a full quiz, and times under a clock that never goes back.

The two flags `quiz_started` and `finished` encode three screens. Idle is
(false, false), InProgress is (true, false) and Finished is (false, true).
`Session.Status` tests the flags in the page's own order.

The clock is injected as one integer reading (in ticks) per user action.
Every clock read made while handling one action sees that same reading. Under
this reading the invariant carries an extra fact. While a quiz runs, the sum
of the recorded times equals the gap between the question's start and the
quiz's start. When the quiz finishes, the measured total equals the sum of
the times. So the sum-of-times fallback in `finish_quiz` is unreachable, and
it would give the same value anyway.

Some behaviour a design for such a quiz might expect differs from what the
code does. The model follows the code:

- Starting a quiz: the page only offers the start button while no quiz is
  running (app.py:123-125). A start from any state is therefore not possible,
  and `Step` ignores a start while `started` holds. A start on the results
  screen replaces the finished session entirely.
- Invalid digit counts: the code raises no error for them, because the
  sidebar inputs bound the counts to 1..6 (app.py:106-119). The model makes
  the bounds a precondition (`WellFormed`). `StartQuiz` itself needs only
  counts of at least 1, which is all `generate_number` needs.
- Answers outside a running quiz: the code raises no error for them either,
  because the answer form is only rendered while a quiz runs (app.py:144).
  The model returns `Failure(NotStarted)`, and `Step` leaves the session
  unchanged.
- Finishing: the code tests `current_index >= num_q` (app.py:197) rather than
  equality with 10, and the model uses `>=`.

`Report.Results` is a pure function of the session. Reading the results
therefore changes nothing, and reading them twice gives the same figures.

The one-digit special case of `generate_number` (app.py:13-14) gives the same
range as the general formula, because 10^0 = 1. The model keeps the branch as
written.

## Model

| member | source | states |
|---|---|---|
| Generator.GenerateNumber | app.py:11-17 | one digit gives a value in [1, 9]; more digits give a value in [10^(d-1), 10^d - 1]; either way the result is a positive number with exactly `digits` decimal digits |
| Generator.GenerateNumberCovers | app.py:11-17 | the values `generate_number` can return are exactly the positive numbers with `digits` digits, so modelling the random draw as a parameter loses no outcome |
| Generator.RandInt | app.py:14-17 | `random.randint(lo, hi)` returns a value in the inclusive range [lo, hi] |
| Generator.RandIntCovers | app.py:14-17 | every value of a `randint` range is produced by some draw |
| Generator.DigitsRange | app.py:15-16 | a positive number has d digits exactly when it lies in [10^(d-1), 10^d - 1] |
| Generator.GenerateProblems | app.py:20-27 | exactly `count` problems; problem i takes its operands from draws 2i and 2i+1 in order; every `a` has `first_digits` digits and every `b` has `second_digits` digits |
| Generator.GenerateProblemsCovers | app.py:20-27 | every batch of problems with operands of the right digit counts is produced by some sequence of draws |
| Quiz.Initial | app.py:30-57 | the initial session values form the Idle screen and satisfy the session invariant |
| Quiz.StartQuiz | app.py:60-81 | a fresh InProgress session: index 0, no correct answers, no times, no feedback, 10 questions and 10 problems with operands of the configured digit counts, no total time, and both start times equal to the clock reading; it satisfies the invariant |
| Quiz.FinishQuiz | app.py:84-91 | switches to Finished and changes nothing but the two flags and the total time; the total is the time since the quiz started, or the sum of the per-question times when no start time exists |
| Quiz.SubmitAnswer | app.py:176-200 | rejects an answer when no quiz is running or there is no current problem; otherwise appends exactly one elapsed time, advances the index by one, adds one to the score exactly when the answer equals a·b, keeps the problems, finishes exactly when the new index reaches the question count, and otherwise restarts the question timer |
| Quiz.Step | app.py:123-176 | a start while a quiz runs is ignored; a start on the Idle or results screen replaces the session with a fresh one; an answer applies the submit branch when it is accepted and otherwise leaves the session unchanged |
| Quiz.SubmitAcceptedWhileInProgress | app.py:144-162 | in a state satisfying the invariant, a running quiz always has a current problem, so an answer is always accepted |
| Quiz.SubmitRejectedOutsideQuiz | app.py:143-176 | on the Idle and Finished screens an answer is rejected and the session stays unchanged |
| Quiz.SubmitKeepsInv | app.py:176-200 | an accepted answer keeps the invariant: one time per answered question, score at most the index, finished exactly at the last question, and recorded times summing to the elapsed quiz time |
| Quiz.StepKeepsInv | app.py:123-125 | starting (offered only while no quiz runs) and answering both keep the invariant |
| Quiz.RunKeepsInv | app.py:123-200 | every sequence of user actions keeps the invariant |
| Quiz.ReachableHasInv | app.py:30-200 | every state reachable from the initial one satisfies the invariant |
| Quiz.ReachableStates | app.py:129-207 | in reachable states the two flags are never both set, the quiz is finished exactly when all questions are answered, one time is kept per answer, and an answer is accepted exactly on the InProgress screen |
| Quiz.FinishFallbackUnreachable | app.py:79-91 | once a quiz has started, finishing measures from the start time and never takes the sum-of-times fallback; the measured total equals that sum |
| Quiz.StepKeepsTimesNonNegative | app.py:178-181 | with a clock that has not gone back past the recorded instants, an action records no negative time |
| Report.Results | app.py:210-218 | right plus wrong equals the question count; a missing total counts as 0; the average times the question count is the total (0 with no questions); fastest and slowest are recorded times bounding all others, or 0 when none was recorded |
| Report.FinishedResults | app.py:210-218 | for a finished session: right plus wrong is 10, the total is the sum of the per-question times, and fastest ≤ average ≤ slowest |
| SeqMath.Sum | app.py:91 | `sum(times)` of non-negative times is non-negative |
| SeqMath.Min | app.py:217 | `min(times)` is a recorded time no larger than any other |
| SeqMath.Max | app.py:218 | `max(times)` is a recorded time no smaller than any other |
| Scenarios.RightAnswers | app.py:183-185 | the number of submissions whose answer equals its problem's product is at most the number of submissions, and equals it exactly when every answer is right |
| Scenarios.SubmitsAdvance | app.py:176-200 | k answers to a running quiz advance the index by k, score exactly the right answers, and finish exactly when the last question is answered |
| Scenarios.NineThenTen | app.py:194-200 | after a start, nine answers leave the quiz InProgress at index 9, and the tenth finishes it at index 10 |
| Scenarios.StartThenRun | app.py:123-125 | pressing start on the initial screen and then acting reaches a reachable state |
| Scenarios.FullQuiz | app.py:60-200 | a start followed by ten answers reaches the results screen in a reachable state satisfying the invariant, with the problems of the start and a score equal to the number of right answers |
| Scenarios.PerfectScore | app.py:183-212 | after a start and ten answers, every answer is right exactly when the results show 10 right and 0 wrong |
| Scenarios.RunKeepsTimesNonNegative | app.py:178-200 | with a clock that never runs backwards over a run of actions, no recorded time is ever negative |

## Left out

- Page rendering is not modelled: titles, sidebar, forms, metrics, the progress bar, the bar chart, `st.rerun` and the running-time caption (app.py:149-164). Each is only presentation.
- The defaulting of missing session-store keys in `init_state` is not modelled. `Initial` takes the default values it sets.
- The distribution of `random.randint` is not modelled. The model keeps only the range of values and the fact that every value can occur. Uniformity is a probabilistic claim.
- Float seconds from `time.time()` are replaced by integer ticks, with one reading per action. The code reads the clock separately at lines 179, 180, 200 and 89, so there the time invariants hold only approximately.
- Quiz.FinishFallbackUnreachable and Report.FinishedResults: the equality of the total time with the sum of the per-question times holds only under one clock reading per action. In the code the total is larger than `sum(times)` by the gaps between the read at line 180 and the next read at line 200 or line 89, so the code's average can slightly exceed the slowest time when all times are nearly equal.
- The average time is an exact real quotient. The two-decimal formatting of the results screen is not modelled.
- The feedback strings (app.py:186-191) are replaced by the `Feedback` datatype. It records only right or wrong, the expected product and the elapsed time.
- The answer is taken as an integer. The `int(answer)` conversion of the form's number input is not modelled.
- Quiz.SubmitAnswer: a negative `current_index` would index from the end of the list in Python. The model returns `NoCurrentProblem` for it instead. The invariant rules such an index out, so this case is unreachable.
- Changing the digit counts in the sidebar during a quiz is not a separate action. The counts are read only when a quiz starts, so they enter as an argument of `PressStart`.
