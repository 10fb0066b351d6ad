/** The quiz-taking page of the client: the answers a user picks, the guard on
    submitting, the countdown, the score and the "m:ss" rendering of the time
    left. React state updates become pure transitions on one `State` record. */
module QuizPage {
  import opened Wrappers
  import opened Text

  /** One generated question; `correctAnswerIndex` indexes `responses`. */
  datatype Question = Question(id: string, question: string, responses: seq<string>, correctAnswerIndex: int)

  /** The page's state hooks that the quiz logic reads or writes. */
  datatype State = State(
    theme: string,
    quiz: seq<Question>,
    quizId: Option<string>,
    answers: map<string, int>,
    showResults: bool,
    error: string,
    timeLeft: int,
    timerActive: bool)

  /** The time a quiz starts with: ten minutes, in seconds. */
  const QuizSeconds := 600

  const AnswerAllMessage := "Please answer all questions before submitting"

  /** The state of a freshly loaded page. */
  const Initial := State("", [], None, map[], false, "", QuizSeconds, false)

  // ---- Scoring --------------------------------------------------------------

  /** The recorded answer for `q` is its correct one. A question without an
      answer never counts: `undefined` is not strictly equal to a number. */
  predicate IsCorrect(q: Question, answers: map<string, int>) {
    q.id in answers && answers[q.id] == q.correctAnswerIndex
  }

  /** Reference count of correctly answered questions, from the last one back. */
  function CountCorrect(quiz: seq<Question>, answers: map<string, int>): nat
  {
    if quiz == [] then 0
    else CountCorrect(quiz[..|quiz| - 1], answers) + (if IsCorrect(quiz[|quiz| - 1], answers) then 1 else 0)
  }

  /** The positions of the correctly answered questions. */
  function CorrectPositions(quiz: seq<Question>, answers: map<string, int>): set<nat>
  {
    set i: nat | i < |quiz| && IsCorrect(quiz[i], answers)
  }

  /** The count is the number of correctly answered positions. */
  lemma {:induction false} CountIsCorrectPositions(quiz: seq<Question>, answers: map<string, int>)
    ensures CountCorrect(quiz, answers) == |CorrectPositions(quiz, answers)|
    decreases |quiz|
  {
    if quiz != [] {
      var n := |quiz| - 1;
      var front := quiz[..n];
      CountIsCorrectPositions(front, answers);
      var before := CorrectPositions(front, answers);
      var after := CorrectPositions(quiz, answers);
      if IsCorrect(quiz[n], answers) {
        assert after == before + {n};
      } else {
        assert after == before;
      }
    }
  }

  /** Every question is answered correctly exactly when the count reaches the length. */
  lemma {:induction false} AllCorrectIffFullScore(quiz: seq<Question>, answers: map<string, int>)
    ensures CountCorrect(quiz, answers) <= |quiz|
    ensures CountCorrect(quiz, answers) == |quiz| <==> forall i :: 0 <= i < |quiz| ==> IsCorrect(quiz[i], answers)
    decreases |quiz|
  {
    if quiz != [] {
      var n := |quiz| - 1;
      var front := quiz[..n];
      AllCorrectIffFullScore(front, answers);
      if forall i :: 0 <= i < |quiz| ==> IsCorrect(quiz[i], answers) {
        assert forall i :: 0 <= i < |front| ==> IsCorrect(front[i], answers) by {
          forall i | 0 <= i < |front|
            ensures IsCorrect(front[i], answers)
          {
            assert front[i] == quiz[i];
          }
        }
      }
      if CountCorrect(quiz, answers) == |quiz| {
        forall i | 0 <= i < |quiz|
          ensures IsCorrect(quiz[i], answers)
        {
          if i < n {
            assert quiz[i] == front[i];
          }
        }
      }
    }
  }

  /** The result of `calculateScore`. */
  datatype Score = Score(correct: nat, total: nat)

  /** `calculateScore`: one pass over the questions counting the correct answers. */
  method CalculateScore(quiz: seq<Question>, answers: map<string, int>) returns (s: Score)
    ensures s.total == |quiz| && s.correct <= s.total
    ensures s.correct == CountCorrect(quiz, answers)
  {
    var correct := 0;
    var i := 0;
    while i < |quiz|
      invariant 0 <= i <= |quiz|
      invariant correct == CountCorrect(quiz[..i], answers)
      invariant correct <= i
    {
      assert quiz[..i + 1][..i] == quiz[..i];
      if IsCorrect(quiz[i], answers) {
        correct := correct + 1;
      }
      i := i + 1;
    }
    assert quiz[..i] == quiz;
    s := Score(correct, |quiz|);
  }

  // ---- Time display ---------------------------------------------------------

  /** `formatTime`: whole minutes, a colon, then the seconds padded to two digits. */
  function FormatTime(seconds: nat): (r: string)
    ensures |r| >= 4 && r[|r| - 3] == ':'
    ensures AllDigits(r[..|r| - 3]) && AllDigits(r[|r| - 2..])
    ensures DigitsValue(r[|r| - 2..]) < 60
    ensures DigitsValue(r[..|r| - 3]) * 60 + DigitsValue(r[|r| - 2..]) == seconds
    ensures |r| == 4 || r[0] != '0'
  {
    var mins := NatToString(seconds / 60);
    var secs := PadStartZeros(NatToString(seconds % 60), 2);
    var r := mins + ":" + secs;
    assert r[..|r| - 3] == mins;
    assert r[|r| - 2..] == secs;
    r
  }

  // ---- Transitions ----------------------------------------------------------

  /** `handleAnswerSelect`: records an answer unless the results are showing. */
  function AnswerSelect(st: State, questionId: string, answerIndex: int): (r: State)
    ensures st.showResults ==> r == st
    ensures !st.showResults ==> questionId in r.answers && r.answers[questionId] == answerIndex
    ensures r.answers.Keys == if st.showResults then st.answers.Keys else st.answers.Keys + {questionId}
    ensures forall k :: k in st.answers && k != questionId ==> r.answers[k] == st.answers[k]
    ensures r.(answers := st.answers) == st
  {
    if st.showResults then st else st.(answers := st.answers[questionId := answerIndex])
  }

  /** A request to store the score of a finished quiz for a signed-in user. */
  datatype SaveRequest = SaveRequest(userId: string, quizId: string, quizScore: nat)

  /** What a submission does to the page, and the save it asks for. */
  datatype Submission = Submission(state: State, save: Option<SaveRequest>)

  /** A submission is refused while an answer is missing and time remains. */
  predicate SubmitRefused(st: State) {
    |st.answers| != |st.quiz| && st.timeLeft > 0
  }

  /** `handleSubmitQuiz` with `saveQuizResults`: unless refused, stops the
      timer, shows the results and asks to save the score when both the user
      id and the quiz id are non-empty (JavaScript treats `""` as missing). */
  function SubmitQuiz(st: State, userId: Option<string>): (r: Submission)
    ensures SubmitRefused(st) ==> r.state == st.(error := AnswerAllMessage) && r.save.None?
    ensures !SubmitRefused(st) ==> r.state.showResults && !r.state.timerActive && r.state.error == ""
    ensures !SubmitRefused(st) ==>
      r.state.(showResults := st.showResults, timerActive := st.timerActive, error := st.error) == st
    ensures r.save.Some? <==>
      !SubmitRefused(st) && userId.Some? && userId.value != "" && st.quizId.Some? && st.quizId.value != ""
    ensures r.save.Some? ==>
      r.save.value == SaveRequest(userId.value, st.quizId.value, CountCorrect(st.quiz, st.answers))
  {
    if SubmitRefused(st) then Submission(st.(error := AnswerAllMessage), None)
    else
      var next := st.(timerActive := false, showResults := true, error := "");
      var save :=
        if userId.Some? && userId.value != "" && st.quizId.Some? && st.quizId.value != ""
        then Some(SaveRequest(userId.value, st.quizId.value, CountCorrect(st.quiz, st.answers)))
        else None;
      Submission(next, save)
  }

  /** One second of the countdown. The interval only runs while the timer is
      active and no results are showing; at one second or less it stops at 0. */
  function Tick(st: State): (r: State)
    ensures st.timeLeft >= 0 ==> r.timeLeft >= 0
    ensures !st.timerActive || st.showResults ==> r == st
    ensures st.timerActive && !st.showResults && st.timeLeft > 1 ==>
      r == st.(timeLeft := st.timeLeft - 1)
    ensures st.timerActive && !st.showResults && st.timeLeft <= 1 ==>
      r.timeLeft == 0 && !r.timerActive
    ensures r.(timeLeft := st.timeLeft, timerActive := st.timerActive) == st
  {
    if !st.timerActive || st.showResults then st
    else if st.timeLeft <= 1 then st.(timeLeft := 0, timerActive := false)
    else st.(timeLeft := st.timeLeft - 1)
  }

  /** `k` seconds of the countdown. */
  function Ticks(st: State, k: nat): State
  {
    if k == 0 then st else Tick(Ticks(st, k - 1))
  }

  /** A running countdown from `t` seconds shows `t - k` after `k` seconds,
      never less than 0, and stays active until it reaches 0. */
  lemma {:induction false} CountdownReachesZero(st: State, k: nat)
    requires st.timerActive && !st.showResults && st.timeLeft >= 1
    ensures Ticks(st, k).timeLeft == if k < st.timeLeft then st.timeLeft - k else 0
    ensures Ticks(st, k).timerActive <==> k < st.timeLeft
    ensures !Ticks(st, k).showResults
  {
    if k > 0 {
      CountdownReachesZero(st, k - 1);
    }
  }

  /** Once a submission is accepted the answers are frozen: selecting one changes nothing. */
  lemma AnswersFrozenAfterSubmit(st: State, userId: Option<string>, questionId: string, answerIndex: int)
    requires !SubmitRefused(st)
    ensures var done := SubmitQuiz(st, userId).state;
      AnswerSelect(done, questionId, answerIndex) == done
  {
  }

  /** Once the countdown has run out, a submission is accepted however many
      questions are unanswered, and it counts the answers given so far. */
  lemma ExpiredQuizCanBeSubmitted(st: State, k: nat, userId: Option<string>)
    requires st.timerActive && !st.showResults && st.timeLeft >= 1
    requires k >= st.timeLeft
    ensures !SubmitRefused(Ticks(st, k))
    ensures SubmitQuiz(Ticks(st, k), userId).state.showResults
    ensures Ticks(st, k).answers == st.answers && Ticks(st, k).quiz == st.quiz
  {
    CountdownReachesZero(st, k);
    TicksKeepAnswers(st, k);
  }

  /** The countdown touches only the timer. */
  lemma {:induction false} TicksKeepAnswers(st: State, k: nat)
    ensures Ticks(st, k).(timeLeft := st.timeLeft, timerActive := st.timerActive) == st
  {
    if k > 0 {
      TicksKeepAnswers(st, k - 1);
    }
  }

  /** `handleReset`: back to an empty page with a full, stopped timer. */
  function Reset(st: State): (r: State)
    ensures r.quiz == [] && r.answers == map[] && r.quizId.None?
    ensures !r.showResults && !r.timerActive && r.timeLeft == QuizSeconds
    ensures r.theme == "" && r.error == ""
  {
    st.(theme := "", quiz := [], quizId := None, answers := map[], showResults := false,
        error := "", timeLeft := QuizSeconds, timerActive := false)
  }

  /** Reset forgets everything: the page looks freshly loaded. */
  lemma ResetIsInitial(st: State)
    ensures Reset(st) == Initial
  {
  }
}
