/** A two-question set played through the quiz screen's turns and the
    session reducer together. Any spoken word of small Latin letters that
    differs from the stored answer in at most two positions counts as
    correct, so two such answers finish the session with score 2 of 2.
    The words "amput" and "armut" are one such pair. */
module Scenario {
  import opened Base
  import Quiz
  import Normalize
  import EditDistance
  import Turn

  /** A word of the letters `a`..`z` only: normalisation leaves it as it is. */
  predicate SmallWord(w: string) {
    forall i :: 0 <= i < |w| ==> 'a' <= w[i] <= 'z'
  }

  /** Same length and at most two differing positions. */
  predicate NearMiss(spoken: string, answer: string) {
    |spoken| == |answer| && EditDistance.Hamming(spoken, answer) <= 2
  }

  /** The events of one turn answered with `spoken`. */
  function TurnEvents(q: Quiz.Question, spoken: string): seq<Turn.Event> {
    [Turn.QuestionChanged(Some(q)), Turn.QuestionSpoken, Turn.ListeningStopped(spoken), Turn.FeedbackSpoken]
  }

  /** One turn answered with a near miss of the stored answer dispatches a
      correct answer and then the advance. */
  lemma NearMissTurnIsCorrect(t: Turn.TurnState, q: Quiz.Question, spoken: string)
    requires SmallWord(q.answer) && SmallWord(spoken) && |spoken| > 0
    requires NearMiss(spoken, q.answer)
    ensures Turn.Dispatched(Turn.Run(t, TurnEvents(q, spoken), Turn.Matches).effects)
      == [Quiz.AnswerQuestion(true), Quiz.NextQuestion]
  {
    NearMissMatches(spoken, q.answer);
    Turn.HappyTurn(t, q, spoken, Turn.Matches);
  }

  /** The transcript a turn checks is the spoken word itself, and it passes
      the answer check. */
  lemma NearMissMatches(spoken: string, answer: string)
    requires SmallWord(answer) && SmallWord(spoken)
    requires NearMiss(spoken, answer)
    ensures Normalize.Trim(spoken) == spoken && Turn.Matches(Normalize.Trim(spoken), answer)
  {
    Normalize.SmallLetterWordIsNormal(spoken);
    Normalize.SmallLetterWordIsNormal(answer);
    Turn.CloseNormalFormsMatch(spoken, answer);
  }

  /** A set of two questions, each answered with a near miss: the actions
      the two turns dispatch take the session from a fresh start to
      `finished` with both answers correct. */
  lemma TwoNearMissesFinishTwoOfTwo(data: Quiz.QuizData, t0: Turn.TurnState, t1: Turn.TurnState, spoken0: string, spoken1: string)
    requires |data.questions| == 2
    requires SmallWord(data.questions[0].answer) && SmallWord(spoken0) && |spoken0| > 0
    requires SmallWord(data.questions[1].answer) && SmallWord(spoken1) && |spoken1| > 0
    requires NearMiss(spoken0, data.questions[0].answer) && NearMiss(spoken1, data.questions[1].answer)
    ensures var acts := Turn.Dispatched(Turn.Run(t0, TurnEvents(data.questions[0], spoken0), Turn.Matches).effects)
                      + Turn.Dispatched(Turn.Run(t1, TurnEvents(data.questions[1], spoken1), Turn.Matches).effects);
      var start := Quiz.Reduce(Quiz.Reduce(Quiz.InitialState, Quiz.LoadQuiz(data)), Quiz.StartQuiz);
      var r := Quiz.ReduceAll(start, acts);
      r.status == Quiz.Finished && r.score == 2 && r.answers == [true, true]
  {
    NearMissTurnIsCorrect(t0, data.questions[0], spoken0);
    NearMissTurnIsCorrect(t1, data.questions[1], spoken1);
    var start := Quiz.Reduce(Quiz.Reduce(Quiz.InitialState, Quiz.LoadQuiz(data)), Quiz.StartQuiz);
    assert Quiz.CorrectRun(2) == [Quiz.AnswerQuestion(true), Quiz.NextQuestion, Quiz.AnswerQuestion(true), Quiz.NextQuestion];
    Quiz.CorrectRunFrom(start, 2);
    assert seq(2, _ => true) == [true, true];
  }

  /** "amput" is a near miss of "armut": both are small-letter words, they
      differ in two positions, and no single edit joins them. */
  lemma AmputIsNearMissOfArmut()
    ensures SmallWord("amput") && SmallWord("armut")
    ensures NearMiss("amput", "armut") && EditDistance.Hamming("amput", "armut") == 2
    ensures EditDistance.Dist("amput", "armut") == 2
  {
    var a, b := "amput", "armut";
    assert EditDistance.Hamming(a[..1], b[..1]) == 0;
    assert EditDistance.Hamming(a[..2], b[..2]) == 1;
    assert a[..3][..2] == a[..2] && b[..3][..2] == b[..2];
    assert EditDistance.Hamming(a[..3], b[..3]) == 2;
    assert a[..4][..3] == a[..3] && b[..4][..3] == b[..3];
    assert EditDistance.Hamming(a[..4], b[..4]) == 2;
    assert a[..4] == a[..|a| - 1] && b[..4] == b[..|b| - 1];
    assert EditDistance.Hamming(a, b) == 2;
    EditDistance.DistAtMostHamming(a, b);
    assert a != b by {
      assert a[1] != b[1];
    }
    EditDistance.DistZeroIffEqual(a, b);
    if EditDistance.Dist(a, b) == 1 {
      EditDistance.UnitDistanceIsOneSubstitution(a, b);
    }
  }
}
