/** The per-question turn of the quiz screen (src/components/QuizScreen.tsx):
    the answer check, and the `processedRef` guard that allows one
    evaluation per turn. React effects, button handlers and speech
    callbacks become events of a single-threaded step function that emits
    the effects the screen performs, among them the session actions it
    dispatches. */
module Turn {
  import opened Base
  import Quiz
  import Normalize
  import EditDistance

  // ---------------------------------------------------------------------
  // The answer check

  /** `isCorrect` of `evaluateAnswer`: the normalised strings are equal or
      at most two edits apart. */
  predicate Matches(input: string, reference: string) {
    var ni := Normalize.NormalizeAnswer(input);
    var na := Normalize.NormalizeAnswer(reference);
    ni == na || EditDistance.Dist(ni, na) <= 2
  }

  /** The equality test is subsumed by the distance test, so the answer is
      correct exactly when the normalised strings are at most two edits
      apart; in particular equal normalised strings always match, and the
      check does not depend on which side is the reference. */
  lemma MatchesIffClose(input: string, reference: string)
    ensures var ni := Normalize.NormalizeAnswer(input);
      var na := Normalize.NormalizeAnswer(reference);
      && (Matches(input, reference) <==> EditDistance.Dist(ni, na) <= 2)
      && (ni == na ==> Matches(input, reference))
      && (Matches(input, reference) <==> Matches(reference, input))
  {
    var ni := Normalize.NormalizeAnswer(input);
    var na := Normalize.NormalizeAnswer(reference);
    EditDistance.DistZeroIffEqual(ni, na);
    EditDistance.DistSymmetric(ni, na);
  }

  /** An answer within two substitutions of the reference, both already in
      normal form, is accepted. */
  lemma CloseNormalFormsMatch(input: string, reference: string)
    requires Normalize.NormalizeAnswer(input) == input
    requires Normalize.NormalizeAnswer(reference) == reference
    requires |input| == |reference| && EditDistance.Hamming(input, reference) <= 2
    ensures Matches(input, reference)
  {
    EditDistance.DistAtMostHamming(input, reference);
  }

  /** Text spoken after an answer. */
  function FeedbackText(correct: bool, answer: string): (t: string)
    ensures !correct ==> Contains(t, answer)
  {
    if correct then "Doğru!"
    else
      var prefix := "Yanlış. Doğru cevap: ";
      ContainsSuffix(prefix, answer);
      prefix + answer
  }

  // ---------------------------------------------------------------------
  // The turn as an event-driven state machine

  /** Which utterance a speech-output completion belongs to. */
  datatype Prompt = QuestionPrompt | FeedbackPrompt(correct: bool)

  datatype Effect =
    | Dispatch(action: Quiz.Action)
    | Speak(text: string, prompt: Prompt)
    | CancelSpeech
    | StartListening
    | StopListening

  datatype Event =
    | QuestionChanged(current: Option<Quiz.Question>) // the effect keyed on the question index
    | QuestionSpoken                                  // callback after the question is read out
    | ListeningStopped(finalTranscript: string)       // the effect keyed on listening/finalTranscript, with listening false
    | FeedbackSpoken                                  // callback after the feedback phrase
    | ManualStart                                     // "start listening" button
    | MicClick                                        // click on the microphone indicator
    | StopClick                                       // "stop and send" button
    | Skip                                            // "skip question" button

  /** The screen's own state: the current question and the guard. */
  datatype TurnState = TurnState(current: Option<Quiz.Question>, processed: bool)

  datatype Step = Step(next: TurnState, effects: seq<Effect>)

  /** The comparison `evaluateAnswer` applies to the trimmed transcript and
      the reference answer; the screen uses `Matches`. Keeping it a
      parameter lets the guard properties below hold for any comparison. */
  type Check = (string, string) -> bool

  /** `evaluateAnswer`. */
  function Evaluate(t: TurnState, text: string, check: Check): Step {
    if t.current.None? then Step(t, [])
    else
      var cleaned := Normalize.Trim(text);
      if |cleaned| == 0 then Step(t, [])
      else
        var q := t.current.value;
        var ok := check(cleaned, q.answer);
        Step(t.(processed := true),
             [StopListening, Dispatch(Quiz.AnswerQuestion(ok)), Speak(FeedbackText(ok, q.answer), FeedbackPrompt(ok))])
  }

  function Next(t: TurnState, e: Event, check: Check): Step {
    match e
    case QuestionChanged(cur) =>
      if cur.None? then Step(t.(current := None), [])
      else Step(TurnState(cur, false), [CancelSpeech, StopListening, Speak(cur.value.question, QuestionPrompt)])
    case QuestionSpoken =>
      if !t.processed then Step(t, [StartListening]) else Step(t, [])
    case ListeningStopped(ft) =>
      if |ft| > 0 && !t.processed then Evaluate(t, ft, check) else Step(t, [])
    case FeedbackSpoken => Step(t, [Dispatch(Quiz.NextQuestion)])
    case ManualStart => Step(t.(processed := false), [StartListening])
    case MicClick => Step(t, [StartListening])
    case StopClick => Step(t, [StopListening])
    case Skip => Step(t, [Dispatch(Quiz.NextQuestion)])
  }

  /** Runs a sequence of events, concatenating their effects. */
  function Run(t: TurnState, events: seq<Event>, check: Check): Step
    decreases |events|
  {
    if |events| == 0 then Step(t, [])
    else
      var s1 := Next(t, events[0], check);
      var rest := Run(s1.next, events[1..], check);
      Step(rest.next, s1.effects + rest.effects)
  }

  /** The session actions among the effects, in order. */
  function Dispatched(effects: seq<Effect>): (acts: seq<Quiz.Action>)
    ensures |acts| <= |effects|
  {
    if |effects| == 0 then []
    else (if effects[0].Dispatch? then [effects[0].action] else []) + Dispatched(effects[1..])
  }

  /** Number of `ANSWER_QUESTION` dispatches among the effects. */
  function AnswerCount(effects: seq<Effect>): nat {
    if |effects| == 0 then 0
    else (if effects[0].Dispatch? && effects[0].action.AnswerQuestion? then 1 else 0) + AnswerCount(effects[1..])
  }

  /** Events that clear the guard. */
  predicate ClearsGuard(e: Event) {
    (e.QuestionChanged? && e.current.Some?) || e.ManualStart?
  }

  function Clearings(events: seq<Event>): nat {
    if |events| == 0 then 0
    else (if ClearsGuard(events[0]) then 1 else 0) + Clearings(events[1..])
  }

  lemma {:induction false} DispatchedAppend(x: seq<Effect>, y: seq<Effect>)
    ensures Dispatched(x + y) == Dispatched(x) + Dispatched(y)
    decreases |x|
  {
    if |x| == 0 {
      assert x + y == y;
    } else {
      var head := if x[0].Dispatch? then [x[0].action] else [];
      assert (x + y)[0] == x[0];
      assert (x + y)[1..] == x[1..] + y;
      assert Dispatched(x + y) == head + Dispatched(x[1..] + y);
      DispatchedAppend(x[1..], y);
    }
  }

  lemma {:induction false} AnswerCountAppend(x: seq<Effect>, y: seq<Effect>)
    ensures AnswerCount(x + y) == AnswerCount(x) + AnswerCount(y)
    decreases |x|
  {
    if |x| == 0 {
      assert x + y == y;
    } else {
      assert (x + y)[1..] == x[1..] + y;
      AnswerCountAppend(x[1..], y);
    }
  }

  // ---------------------------------------------------------------------
  // Properties of a single step

  /** A transcript that is blank after trimming is dropped: nothing is
      dispatched, nothing is done, and the guard stays as it was. */
  lemma BlankTranscriptIgnored(t: TurnState, ft: string, check: Check)
    requires |Normalize.Trim(ft)| == 0
    ensures Next(t, ListeningStopped(ft), check) == Step(t, [])
  {
  }

  /** Evaluation happens exactly when the final transcript is non-empty,
      the guard is clear, a question is current and the trimmed transcript
      is not blank. It then sets the guard, stops the microphone,
      dispatches exactly one `ANSWER_QUESTION` carrying the result of the
      check, and speaks the matching feedback. */
  lemma EvaluationDispatchesOneAnswer(t: TurnState, ft: string, check: Check)
    ensures var s := Next(t, ListeningStopped(ft), check);
      (s.effects != [] <==> |ft| > 0 && !t.processed && t.current.Some? && |Normalize.Trim(ft)| > 0)
    ensures var s := Next(t, ListeningStopped(ft), check);
      s.effects == [] ==> s.next == t
    ensures var s := Next(t, ListeningStopped(ft), check);
      s.effects != [] ==>
        var q := t.current.value;
        var ok := check(Normalize.Trim(ft), q.answer);
        && s.next == t.(processed := true)
        && Dispatched(s.effects) == [Quiz.AnswerQuestion(ok)]
        && AnswerCount(s.effects) == 1
        && s.effects[0] == StopListening
        && s.effects[2] == Speak(FeedbackText(ok, q.answer), FeedbackPrompt(ok))
  {
    var s := Next(t, ListeningStopped(ft), check);
    if s.effects != [] {
      var e := s.effects;
      assert e[1..][1..][1..] == [];
      assert Dispatched(e[1..][1..]) == [] && AnswerCount(e[1..][1..]) == 0;
    }
  }

  /** Once the guard is set, a stop of listening dispatches nothing. */
  lemma GuardBlocksEvaluation(t: TurnState, ft: string, check: Check)
    requires t.processed
    ensures Next(t, ListeningStopped(ft), check) == Step(t, [])
  {
  }

  /** A new question clears the guard, cancels the previous turn's speech
      input and output, and reads the question out; without a current
      question nothing happens and the guard is left as it was. */
  lemma QuestionChangeStartsTurn(t: TurnState, q: Quiz.Question, check: Check)
    ensures var s := Next(t, QuestionChanged(Some(q)), check);
      && !s.next.processed && s.next.current == Some(q)
      && s.effects == [CancelSpeech, StopListening, Speak(q.question, QuestionPrompt)]
    ensures var s := Next(t, QuestionChanged(None), check);
      s.effects == [] && s.next.processed == t.processed
  {
  }

  /** After the question is read out, listening starts exactly when the
      guard is still clear. */
  lemma ListenAfterQuestionIffClear(t: TurnState, check: Check)
    ensures Next(t, QuestionSpoken, check).next == t
    ensures Next(t, QuestionSpoken, check).effects == (if t.processed then [] else [StartListening])
  {
  }

  /** Only a new question and the "start listening" button clear the guard;
      a click on the microphone indicator starts listening but leaves the
      guard set. */
  lemma OnlyTwoEventsClearGuard(t: TurnState, e: Event, check: Check)
    requires t.processed
    ensures !Next(t, e, check).next.processed <==> ClearsGuard(e)
    ensures Next(t, MicClick, check) == Step(t, [StartListening])
  {
  }

  /** Skipping advances without recording an answer. */
  lemma SkipAdvancesWithoutAnswer(t: TurnState, check: Check)
    ensures Next(t, Skip, check) == Step(t, [Dispatch(Quiz.NextQuestion)])
    ensures AnswerCount(Next(t, Skip, check).effects) == 0
  {
  }

  /** The feedback callback advances exactly once. */
  lemma FeedbackAdvancesOnce(t: TurnState, check: Check)
    ensures Dispatched(Next(t, FeedbackSpoken, check).effects) == [Quiz.NextQuestion]
    ensures AnswerCount(Next(t, FeedbackSpoken, check).effects) == 0
  {
  }

  /** Only an evaluation dispatches `ANSWER_QUESTION`, and at most one. */
  lemma StepAnswerCount(t: TurnState, e: Event, check: Check)
    ensures AnswerCount(Next(t, e, check).effects) <= 1
    ensures AnswerCount(Next(t, e, check).effects) == 1 ==> !t.processed && Next(t, e, check).next.processed
  {
    var s := Next(t, e, check);
    match e
    case ListeningStopped(ft) =>
      EvaluationDispatchesOneAnswer(t, ft, check);
      if s.effects == [] {
        NoAnswerAmong(s.effects);
      }
    case _ =>
      NoAnswerAmong(s.effects);
  }

  lemma {:induction false} NoAnswerAmong(effects: seq<Effect>)
    requires forall i :: 0 <= i < |effects| ==> !(effects[i].Dispatch? && effects[i].action.AnswerQuestion?)
    ensures AnswerCount(effects) == 0
    decreases |effects|
  {
    if |effects| > 0 {
      NoAnswerAmong(effects[1..]);
    }
  }

  // ---------------------------------------------------------------------
  // Properties of whole traces

  /** In any trace, the number of `ANSWER_QUESTION` dispatches is at most
      the number of guard-clearing events, plus one when the guard starts
      clear: the guard allows one evaluation per turn, and the manual
      "start listening" button is the only way to a second one within the
      same question. */
  lemma {:induction false} AnswersBoundedByClearings(t: TurnState, events: seq<Event>, check: Check)
    ensures AnswerCount(Run(t, events, check).effects) <= (if t.processed then 0 else 1) + Clearings(events)
    decreases |events|
  {
    if |events| > 0 {
      var s1 := Next(t, events[0], check);
      var rest := Run(s1.next, events[1..], check);
      assert Run(t, events, check).effects == s1.effects + rest.effects;
      assert Clearings(events) == (if ClearsGuard(events[0]) then 1 else 0) + Clearings(events[1..]);
      AnswerCountAppend(s1.effects, rest.effects);
      StepAnswerCount(t, events[0], check);
      AnswersBoundedByClearings(s1.next, events[1..], check);
      if t.processed {
        OnlyTwoEventsClearGuard(t, events[0], check);
      }
    }
  }

  /** Two final transcripts delivered in the same turn, before anything
      clears the guard, produce exactly one evaluation. */
  lemma SecondTranscriptIgnored(t: TurnState, ft1: string, ft2: string, check: Check)
    requires !t.processed && t.current.Some?
    requires |ft1| > 0 && |Normalize.Trim(ft1)| > 0
    ensures AnswerCount(Run(t, [ListeningStopped(ft1), ListeningStopped(ft2)], check).effects) == 1
  {
    var events := [ListeningStopped(ft1), ListeningStopped(ft2)];
    var s1 := Next(t, events[0], check);
    var s2 := Next(s1.next, events[1], check);
    EvaluationDispatchesOneAnswer(t, ft1, check);
    assert events[1..][1..] == [];
    assert Run(s2.next, events[1..][1..], check).effects == [];
    assert Run(s1.next, events[1..], check).effects == s2.effects + [];
    assert Run(t, events, check).effects == s1.effects + (s2.effects + []);
    assert s2.effects == [];
    assert s1.effects + [] == s1.effects;
  }

  /** A whole turn in which the question is read out, the user speaks a
      non-blank answer and the feedback is read out dispatches exactly the
      answer with the result of the check, then the advance. */
  lemma HappyTurn(t: TurnState, q: Quiz.Question, ft: string, check: Check)
    requires |ft| > 0 && |Normalize.Trim(ft)| > 0
    ensures var events := [QuestionChanged(Some(q)), QuestionSpoken, ListeningStopped(ft), FeedbackSpoken];
      Dispatched(Run(t, events, check).effects)
        == [Quiz.AnswerQuestion(check(Normalize.Trim(ft), q.answer)), Quiz.NextQuestion]
  {
    var events := [QuestionChanged(Some(q)), QuestionSpoken, ListeningStopped(ft), FeedbackSpoken];
    var s1 := Next(t, events[0], check);
    var s2 := Next(s1.next, events[1], check);
    var s3 := Next(s2.next, events[2], check);
    var s4 := Next(s3.next, events[3], check);
    var e1, e2, e3 := events[1..], events[1..][1..], events[1..][1..][1..];
    assert e3[1..] == [];
    assert Run(s4.next, e3[1..], check).effects == [];
    assert Run(s3.next, e3, check).effects == s4.effects + [];
    assert Run(s2.next, e2, check).effects == s3.effects + (s4.effects + []);
    assert Run(s1.next, e1, check).effects == s2.effects + (s3.effects + (s4.effects + []));
    assert Run(t, events, check).effects == s1.effects + (s2.effects + (s3.effects + (s4.effects + [])));
    DispatchedAppend(s1.effects, s2.effects + (s3.effects + (s4.effects + [])));
    DispatchedAppend(s2.effects, s3.effects + (s4.effects + []));
    DispatchedAppend(s3.effects, s4.effects + []);
    EvaluationDispatchesOneAnswer(s2.next, ft, check);
    assert s4.effects + [] == [Dispatch(Quiz.NextQuestion)];
    assert Dispatched([Dispatch(Quiz.NextQuestion)]) == [Quiz.NextQuestion];
    assert s1.effects == [CancelSpeech, StopListening, Speak(q.question, QuestionPrompt)];
    assert s1.effects[1..][1..][1..] == [];
    assert Dispatched(s1.effects[1..][1..]) == [];
    assert Dispatched(s1.effects) == [];
    assert s2.effects == [StartListening];
    assert Dispatched(s2.effects) == [];
  }
}
