/** The quiz session: the loaded question set, the current position, the
    running score and the per-answer history, changed only by the pure
    reducer `Reduce` over six actions (src/context/QuizContext.tsx). */
module Quiz {
  import opened Base

  datatype Question = Question(id: int, category: string, question: string, answer: string)

  /** A loaded question set; the order of `questions` is the play order. */
  datatype QuizData = QuizData(title: string, description: string, questions: seq<Question>)

  datatype Status = Idle | Playing | Finished

  datatype State = State(
    quizData: Option<QuizData>,
    index: nat,
    score: nat,
    status: Status,
    answers: seq<bool>)

  datatype Action =
    | LoadQuiz(data: QuizData)
    | StartQuiz
    | AnswerQuestion(isCorrect: bool)
    | NextQuestion
    | RestartQuiz
    | ResetToHome

  const InitialState := State(None, 0, 0, Idle, [])

  /** Number of correct answers in a history. */
  function CountTrue(answers: seq<bool>): (n: nat)
    ensures n <= |answers|
  {
    if |answers| == 0 then 0
    else (if answers[0] then 1 else 0) + CountTrue(answers[1..])
  }

  /** The score agrees with the answer history. */
  predicate ScoreAgrees(s: State) {
    s.score == CountTrue(s.answers)
  }

  /** The position is either the initial 0 or a valid index into the set. */
  predicate IndexInRange(s: State) {
    s.index == 0 || (s.quizData.Some? && s.index < |s.quizData.value.questions|)
  }

  predicate Valid(s: State) {
    ScoreAgrees(s) && IndexInRange(s)
  }

  /** The fresh playthrough that `START_QUIZ` and `RESTART_QUIZ` both build. */
  function Fresh(s: State): State {
    s.(status := Playing, index := 0, score := 0, answers := [])
  }

  /** One reduction step of the session. */
  function Reduce(s: State, a: Action): State {
    match a
    case LoadQuiz(d) => InitialState.(quizData := Some(d))
    case StartQuiz => Fresh(s)
    case AnswerQuestion(ok) =>
      s.(score := if ok then s.score + 1 else s.score, answers := s.answers + [ok])
    case NextQuestion =>
      if s.quizData.None? then s
      else if s.index + 1 >= |s.quizData.value.questions| then s.(status := Finished)
      else s.(index := s.index + 1)
    case RestartQuiz => Fresh(s)
    case ResetToHome => InitialState
  }

  /** Sequential dispatch of a list of actions. */
  function ReduceAll(s: State, actions: seq<Action>): State
    decreases |actions|
  {
    if |actions| == 0 then s else ReduceAll(Reduce(s, actions[0]), actions[1..])
  }

  lemma {:induction false} CountTrueAppend(answers: seq<bool>, b: bool)
    ensures CountTrue(answers + [b]) == CountTrue(answers) + (if b then 1 else 0)
    decreases |answers|
  {
    if |answers| == 0 {
      assert answers + [b] == [b];
    } else {
      assert (answers + [b])[1..] == answers[1..] + [b];
      CountTrueAppend(answers[1..], b);
    }
  }

  /** The initial state is valid. */
  lemma InitialValid()
    ensures Valid(InitialState)
    ensures InitialState.status == Idle && InitialState.quizData == None
  {
  }

  /** Every action keeps the score equal to the number of correct answers
      and the position inside the question set. */
  lemma ReducePreservesValid(s: State, a: Action)
    requires Valid(s)
    ensures Valid(Reduce(s, a))
  {
    if a.AnswerQuestion? {
      CountTrueAppend(s.answers, a.isCorrect);
    }
  }

  /** The invariant holds after any sequence of actions from a valid state. */
  lemma {:induction false} ReduceAllPreservesValid(s: State, actions: seq<Action>)
    requires Valid(s)
    ensures Valid(ReduceAll(s, actions))
    ensures ReduceAll(s, actions).score <= |ReduceAll(s, actions).answers|
    decreases |actions|
  {
    if |actions| > 0 {
      ReducePreservesValid(s, actions[0]);
      ReduceAllPreservesValid(Reduce(s, actions[0]), actions[1..]);
    }
  }

  /** `ANSWER_QUESTION` appends exactly one entry, raises the score by one
      exactly when the answer is correct, and changes nothing else. */
  lemma AnswerAppendsOne(s: State, ok: bool)
    ensures var r := Reduce(s, AnswerQuestion(ok));
      && |r.answers| == |s.answers| + 1
      && r.answers[..|s.answers|] == s.answers
      && r.answers[|s.answers|] == ok
      && (r.score == s.score + 1 <==> ok)
      && (!ok ==> r.score == s.score)
      && r.status == s.status && r.index == s.index && r.quizData == s.quizData
  {
  }

  /** `NEXT_QUESTION` without a loaded set leaves the state as it is. */
  lemma NextWithoutQuizIsNoop(s: State)
    requires s.quizData.None?
    ensures Reduce(s, NextQuestion) == s
  {
  }

  /** `NEXT_QUESTION` on the last position finishes and keeps the position;
      anywhere before it advances by one and touches nothing else. */
  lemma NextAdvancesOrFinishes(s: State)
    requires s.quizData.Some?
    ensures var r := Reduce(s, NextQuestion);
      var n := |s.quizData.value.questions|;
      && (s.index + 1 >= n ==> r == s.(status := Finished))
      && (s.index + 1 < n ==> r == s.(index := s.index + 1))
      && r.score == s.score && r.answers == s.answers && r.quizData == s.quizData
  {
  }

  /** Only `NEXT_QUESTION` ever produces `finished`: every other action
      yields idle or playing, or keeps the status it found. */
  lemma FinishedOnlyByNext(s: State, a: Action)
    requires a != NextQuestion
    ensures var r := Reduce(s, a);
      r.status == Idle || r.status == Playing || r.status == s.status
    ensures Reduce(s, a).status == Finished ==> s.status == Finished
  {
  }

  /** `START_QUIZ` and `RESTART_QUIZ` are the same transition: playing,
      position 0, score 0, empty history, question set retained. */
  lemma StartEqualsRestart(s: State)
    ensures Reduce(s, StartQuiz) == Reduce(s, RestartQuiz)
    ensures var r := Reduce(s, StartQuiz);
      r.status == Playing && r.index == 0 && r.score == 0 && r.answers == [] && r.quizData == s.quizData
  {
  }

  /** `LOAD_QUIZ` and `RESET_TO_HOME` forget the previous state entirely. */
  lemma LoadAndResetForget(s: State, t: State, d: QuizData)
    ensures Reduce(s, LoadQuiz(d)) == Reduce(t, LoadQuiz(d)) == InitialState.(quizData := Some(d))
    ensures Reduce(s, ResetToHome) == Reduce(t, ResetToHome) == InitialState
  {
  }

  /** The position invariant is weaker than "position < length while
      playing": starting an empty question set yields a playing session
      with no current question. */
  lemma EmptySetPlaysWithoutQuestion(s: State)
    requires s.quizData.Some? && |s.quizData.value.questions| == 0
    ensures var r := Reduce(s, StartQuiz);
      r.status == Playing && r.index >= |r.quizData.value.questions|
  {
  }

  /** `n` correct answers, each followed by an advance. */
  function CorrectRun(n: nat): (acts: seq<Action>)
    ensures |acts| == 2 * n
  {
    if n == 0 then [] else [AnswerQuestion(true), NextQuestion] + CorrectRun(n - 1)
  }

  lemma {:induction false} CorrectRunFrom(s: State, k: nat)
    requires s.quizData.Some? && s.status == Playing
    requires s.index + k == |s.quizData.value.questions| && k >= 1
    ensures var r := ReduceAll(s, CorrectRun(k));
      && r.status == Finished
      && r.score == s.score + k
      && r.answers == s.answers + seq(k, _ => true)
      && r.quizData == s.quizData
    decreases k
  {
    var acts := CorrectRun(k);
    var s1 := Reduce(s, AnswerQuestion(true));
    var s2 := Reduce(s1, NextQuestion);
    assert ReduceAll(s, acts) == ReduceAll(s2, CorrectRun(k - 1)) by {
      assert acts[0] == AnswerQuestion(true);
      assert acts[1..][0] == NextQuestion;
      assert acts[1..][1..] == CorrectRun(k - 1);
    }
    if k == 1 {
      assert seq(1, _ => true) == [true];
    } else {
      CorrectRunFrom(s2, k - 1);
      assert s.answers + seq(k, _ => true) == s2.answers + seq(k - 1, _ => true);
    }
  }

  /** Answering every question of a non-empty set correctly, from a fresh
      start, finishes with a perfect score. */
  lemma AllCorrectFinishesWithFullScore(s: State, d: QuizData)
    requires |d.questions| >= 1
    ensures var start := Reduce(Reduce(s, LoadQuiz(d)), StartQuiz);
      var r := ReduceAll(start, CorrectRun(|d.questions|));
      r.status == Finished && r.score == |d.questions| && CountTrue(r.answers) == |d.questions|
  {
    var start := Reduce(Reduce(s, LoadQuiz(d)), StartQuiz);
    CorrectRunFrom(start, |d.questions|);
    assert Valid(start);
    ReduceAllPreservesValid(start, CorrectRun(|d.questions|));
  }
}
