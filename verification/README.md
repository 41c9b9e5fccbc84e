# Voice quiz core, modelled in Dafny

The application is a voice-driven quiz for the browser. A question set is
loaded, each question is read out with speech synthesis, the player answers
aloud, speech recognition produces a transcript, and the transcript is
compared with the stored answer. The comparison folds case for the Turkish
locale, trims the text, drops punctuation, collapses whitespace and allows
an edit distance of up to two. The result is recorded in a session reducer
and read back as spoken feedback.

The model has one module per part of that core:

- `Quiz` (`quiz_state.dfy`): the session state and the six-action reducer.
- `Normalize` (`normalize.dfy`): `normalizeAnswer` as four pure steps.
  Each step has a lemma stating its effect. A reference filter `Sig`
  gives the letters that must survive.
- `EditDistance` (`edit_distance.dfy`): Levenshtein distance as a recursive
  definition, plus a row-by-row table method proved equal to it.
- `Turn` (`turn.dfy`): the quiz screen's turn. React effects, speech
  callbacks and button clicks become events of one step function. Each
  step returns the screen's guard state and the effects it performs,
  including the session actions it dispatches.
- `Recognition` (`recognition.dfy`): the speech-input hook's state and how
  each hook call or platform event changes it.
- `Synthesis` (`synthesis.dfy`): the speech-output hook. It waits a bounded
  number of times for the voice list, picks a Turkish voice, and calls the
  completion callback.
- `Scenario` (`scenario.dfy`): the turn and the reducer together, for a
  two-question set.
- `Base` (`base.dfy`): `Option`, plus prefix and substring relations.

The answer comparison is a parameter `check` of the turn's step function.
The screen's own comparison is `Turn.Matches`. The guard properties hold for
any comparison; the scenario lemmas use `Turn.Matches`.

## Behaviour worth knowing

- `normalizeAnswer` is not idempotent, because trimming runs before
  punctuation is removed. `"a ."` normalises to `"a "`, and normalising
  that again gives `"a"` (`Normalize.NotIdempotentInGeneral`). It is
  idempotent on input without punctuation
  (`Normalize.NormalizeIdempotentWithoutPunct`).
- `START_QUIZ` does not check for an empty question set. An empty set
  therefore gives a playing session with no current question
  (`Quiz.EmptySetPlaysWithoutQuestion`). The invariant the reducer keeps is
  that the index is 0 or a valid position.
- "amput" and "armut" differ in two positions, and their edit distance is
  exactly 2, which is still within the tolerance of two
  (`Scenario.AmputIsNearMissOfArmut`).

## Model

| member | source | states |
|---|---|---|
| Quiz.InitialValid | src/context/QuizContext.tsx:21-27 | The initial state is idle, has no question set, and its score equals its number of correct answers. |
| Quiz.ReducePreservesValid | src/context/QuizContext.tsx:29-55 | Every action keeps the score equal to the number of `true` entries in the history, and keeps the index at 0 or inside the question set. |
| Quiz.ReduceAllPreservesValid | src/context/QuizContext.tsx:29-55 | The same invariant holds after any sequence of actions, so the score never exceeds the number of answers. |
| Quiz.AnswerAppendsOne | src/context/QuizContext.tsx:35-40 | `ANSWER_QUESTION` appends exactly the given result to the history and raises the score by one exactly when it is correct. Status, index and question set stay unchanged. |
| Quiz.NextWithoutQuizIsNoop | src/context/QuizContext.tsx:42 | `NEXT_QUESTION` without a question set returns the state unchanged. |
| Quiz.NextAdvancesOrFinishes | src/context/QuizContext.tsx:43-47 | On the last position `NEXT_QUESTION` only sets `finished` and keeps the index. Before it, it only increments the index. |
| Quiz.FinishedOnlyByNext | src/context/QuizContext.tsx:31-51 | No action other than `NEXT_QUESTION` produces `finished` from a status that was not already `finished`. |
| Quiz.StartEqualsRestart | src/context/QuizContext.tsx:33-49 | `START_QUIZ` and `RESTART_QUIZ` give the same state from any state: playing, index 0, score 0, empty history, question set kept. |
| Quiz.LoadAndResetForget | src/context/QuizContext.tsx:31-51 | `LOAD_QUIZ` gives the initial state with the new set, and `RESET_TO_HOME` gives exactly the initial state. Neither depends on the prior state. |
| Quiz.EmptySetPlaysWithoutQuestion | src/context/QuizContext.tsx:33-34 | Starting an empty question set gives a playing session whose index is past the end of the set. |
| Quiz.CorrectRunFrom | src/context/QuizContext.tsx:35-47 | From position `i` of `n` questions, `n - i` rounds of a correct answer followed by an advance finish the session. They add `n - i` to the score and `n - i` correct entries to the history. |
| Quiz.AllCorrectFinishesWithFullScore | src/context/QuizContext.tsx:29-55 | Loading, starting and answering every question of a non-empty set correctly ends `finished`, with score and correct count both equal to the set size. |
| Normalize.LowerProperties | src/utils/normalize.ts:3 | The Turkish case fold is idempotent per character and never turns a character into whitespace or punctuation, or the other way round. |
| Normalize.TrimStartShape | src/utils/normalize.ts:4 | Leading-whitespace removal returns a suffix of the input whose removed part is all whitespace and whose first character is not whitespace. |
| Normalize.TrimEndShape | src/utils/normalize.ts:4 | Trailing-whitespace removal returns a prefix of the input whose removed part is all whitespace and whose last character is not whitespace. |
| Normalize.TrimShape | src/utils/normalize.ts:4 | `trim` returns a contiguous block of the input with no whitespace at either end and only whitespace around it. |
| Normalize.StripPunctShape | src/utils/normalize.ts:5 | After punctuation removal no character of the class `[.,\/#!$%^&*;:{}=\-_`~()]` remains, and the string is no longer. |
| Normalize.SpaceRunShape | src/utils/normalize.ts:6 | The whitespace run measured at the front is all whitespace and stops at the first other character. |
| Normalize.CollapseFront | src/utils/normalize.ts:6 | Collapsing never lengthens and leaves no two adjacent whitespace characters. It keeps whether the first character is whitespace. |
| Normalize.CollapseKeepsLast | src/utils/normalize.ts:6 | A last character that is not whitespace is still the last character after collapsing. |
| Normalize.CollapseKeepsNoPunct | src/utils/normalize.ts:5-6 | Collapsing introduces no punctuation. |
| Normalize.CollapseKeepsWords | src/utils/normalize.ts:6 | Collapsing keeps the words of the text (the maximal blocks without whitespace) exactly and in order. No two words are glued together, and none is split or changed. |
| Normalize.CollapseShape | src/utils/normalize.ts:6 | The collapse facts together. The result is no longer than the input, every whitespace run in it is a single character, and its words are those of the input. It keeps whether the first character is whitespace, keeps a last character that is not whitespace, and adds no punctuation. |
| Normalize.NormalizeShape | src/utils/normalize.ts:1-7 | The normal form of any string has no punctuation and no two adjacent whitespace characters. It is no longer than the folded, trimmed input, which is no longer than the input. The empty string maps to the empty string. |
| Normalize.SigTrim | src/utils/normalize.ts:4 | Trimming keeps every non-whitespace, non-punctuation character, in order. |
| Normalize.SigStripPunct | src/utils/normalize.ts:5 | Punctuation removal keeps every non-whitespace, non-punctuation character, in order. |
| Normalize.SigCollapse | src/utils/normalize.ts:6 | Collapsing whitespace keeps every non-whitespace, non-punctuation character, in order. |
| Normalize.NormalizeKeepsSignificant | src/utils/normalize.ts:3-6 | The non-whitespace, non-punctuation characters of the folded input are exactly those of the output, unchanged and in the same order. |
| Normalize.StripPunctNoPunct | src/utils/normalize.ts:5 | Punctuation removal leaves a string without punctuation unchanged. |
| Normalize.CollapseNoDoubleSpace | src/utils/normalize.ts:6 | Collapsing leaves a string without adjacent whitespace unchanged. |
| Normalize.TrimTrimmed | src/utils/normalize.ts:4 | Trimming leaves a string without whitespace at its ends unchanged. |
| Normalize.FoldFolded | src/utils/normalize.ts:3 | Folding leaves an already folded string unchanged. |
| Normalize.NormalizeFixedPoint | src/utils/normalize.ts:1-7 | A string that is folded, trimmed, free of punctuation and of adjacent whitespace is its own normal form. |
| Normalize.SmallLetterWordIsNormal | src/utils/normalize.ts:1-7 | A word of the letters `a` to `z` is its own normal form and its own trim. |
| Normalize.NormalizeIdempotentWithoutPunct | src/utils/normalize.ts:3-6 | For input without punctuation, the output has no whitespace at either end, and normalising it again gives the same string. |
| Normalize.ExampleStripExposesSpace | src/utils/normalize.ts:4-5 | `"a ."` normalises to `"a "`: the space freed by punctuation removal is not trimmed. |
| Normalize.ExampleTrailingSpace | src/utils/normalize.ts:4 | `"a "` normalises to `"a"`. |
| Normalize.NotIdempotentInGeneral | src/utils/normalize.ts:4-6 | Normalising the normal form of `"a ."` changes it again. |
| EditDistance.DistBounds | src/components/QuizScreen.tsx:96 | The distance is at least the difference of the lengths and at most the larger length. |
| EditDistance.DistZeroIffEqual | src/components/QuizScreen.tsx:96-98 | The distance is 0 exactly when the strings are equal. |
| EditDistance.DistSymmetric | src/components/QuizScreen.tsx:96 | The distance does not depend on the order of its arguments. |
| EditDistance.DistAtMostHamming | src/components/QuizScreen.tsx:96-98 | For equally long strings, the distance is at most the number of differing positions. |
| EditDistance.UnitDistanceIsOneSubstitution | src/components/QuizScreen.tsx:96-98 | Between equally long strings, distance 1 means exactly one differing position. |
| EditDistance.DistEmpty | src/components/QuizScreen.tsx:96 | The distance to or from the empty string is the other string's length. |
| EditDistance.ComputeDist | src/components/QuizScreen.tsx:96 | The row-by-row table computes exactly the recursive distance. |
| Turn.MatchesIffClose | src/components/QuizScreen.tsx:91-98 | The answer is correct exactly when the normalised strings are at most two edits apart. Equal normalised strings are always correct, and the check is symmetric. |
| Turn.CloseNormalFormsMatch | src/components/QuizScreen.tsx:91-98 | Two strings in normal form that differ in at most two positions are accepted. |
| Turn.FeedbackText | src/components/QuizScreen.tsx:108-116 | The feedback spoken for a wrong answer contains the stored answer. |
| Turn.BlankTranscriptIgnored | src/components/QuizScreen.tsx:80-85 | A transcript that is blank after trimming causes no effect and leaves the guard as it was. |
| Turn.EvaluationDispatchesOneAnswer | src/components/QuizScreen.tsx:69-117 | Evaluation happens exactly when the transcript is non-empty, the guard is clear, a question is current and the trimmed text is not blank. It then sets the guard, stops the microphone, dispatches one `ANSWER_QUESTION` carrying the check's result, and speaks the matching feedback. Otherwise nothing changes. |
| Turn.GuardBlocksEvaluation | src/components/QuizScreen.tsx:71 | With the guard set, a stop of listening does nothing. |
| Turn.QuestionChangeStartsTurn | src/components/QuizScreen.tsx:34-59 | A new question clears the guard, cancels speech output and input, and reads the question out. Without a question nothing happens and the guard is kept. |
| Turn.ListenAfterQuestionIffClear | src/components/QuizScreen.tsx:51-57 | After the question is read out, listening starts exactly when the guard is clear. |
| Turn.OnlyTwoEventsClearGuard | src/components/QuizScreen.tsx:139-156 | From a set guard, only a new question or the "start listening" button clears it. A click on the microphone indicator starts listening and keeps the guard set. |
| Turn.SkipAdvancesWithoutAnswer | src/components/QuizScreen.tsx:119-121 | Skipping dispatches `NEXT_QUESTION` and no `ANSWER_QUESTION`. |
| Turn.FeedbackAdvancesOnce | src/components/QuizScreen.tsx:108-121 | The feedback callback dispatches exactly one `NEXT_QUESTION` and no answer. |
| Turn.StepAnswerCount | src/components/QuizScreen.tsx:80-121 | Every event dispatches at most one `ANSWER_QUESTION`, and only when it moves the guard from clear to set. |
| Turn.AnswersBoundedByClearings | src/components/QuizScreen.tsx:42-156 | In any event trace, the number of `ANSWER_QUESTION` dispatches is at most the number of guard-clearing events, plus one if the guard starts clear. |
| Turn.SecondTranscriptIgnored | src/components/QuizScreen.tsx:71-88 | Two final transcripts in the same turn produce exactly one evaluation. |
| Turn.HappyTurn | src/components/QuizScreen.tsx:34-121 | A turn in which the question is read out, a non-blank answer arrives and the feedback is read out dispatches exactly the answer, with the check's result, and then the advance. |
| Recognition.CollectResults | src/hooks/useSpeechRecognition.ts:64-74 | The loop over the result list from `resultIndex` on yields the confirmed texts and the unconfirmed texts, each concatenated in order. |
| Recognition.TextsSplitSegments | src/hooks/useSpeechRecognition.ts:67-74 | Counted with multiplicity, the confirmed text and the interim text together hold exactly the characters of all new segments. Their lengths add up to the total. |
| Recognition.StartResets | src/hooks/useSpeechRecognition.ts:29-111 | `startListening` does nothing when unsupported. Otherwise it clears both transcripts and raises the listening flag, unless the platform's start throws. The error is kept. |
| Recognition.ResultUpdatesTranscripts | src/hooks/useSpeechRecognition.ts:61-82 | A result event replaces the interim transcript only with non-empty interim text. It appends a space and the new confirmed text only when there is some. The old confirmed transcript stays a prefix. |
| Recognition.ErrorRecordedUnlessNoSpeech | src/hooks/useSpeechRecognition.ts:96-103 | An error event records its code unless it is `no-speech` (then nothing changes), and never touches the listening flag. |
| Recognition.ListeningFallsOnlyAtEnd | src/hooks/useSpeechRecognition.ts:54-120 | The listening flag falls only on the platform's end event, or when a supported start throws. |
| Recognition.StopAndStartEvents | src/hooks/useSpeechRecognition.ts:54-120 | `stopListening` changes no state by itself. The start event raises the flag and clears the error, and the end event lowers the flag. |
| Recognition.FinalAppendOnly | src/hooks/useSpeechRecognition.ts:77-81 | Between two `startListening` calls the confirmed transcript only grows at its end. |
| Recognition.LeadingSpaceKept | src/hooks/useSpeechRecognition.ts:40-80 | The confirmed transcript is always empty or starts with a space, whatever events arrive. |
| Recognition.FirstFinalIsSpacePrefixed | src/hooks/useSpeechRecognition.ts:77-81 | The first confirmed text of a session is stored behind a space, which trimming removes. |
| Synthesis.TurkishVoices | src/hooks/useSpeechSynthesis.ts:48 | A voice is kept exactly when its language tag contains `tr` or `TK`. The result is never longer than the platform's list. |
| Synthesis.TurkishVoicesAppend | src/hooks/useSpeechSynthesis.ts:48 | The filter keeps the platform's order: filtering a concatenation gives the concatenation of the filtered parts. |
| Synthesis.FindName | src/hooks/useSpeechSynthesis.ts:50-51 | The search returns the first voice whose name contains the word, or none when no voice does. |
| Synthesis.ChosenVoiceIsTurkish | src/hooks/useSpeechSynthesis.ts:48-57 | A chosen voice is one of the platform's Turkish voices. No voice is chosen exactly when there is no Turkish voice. |
| Synthesis.ChoiceByPlatformOrder | src/hooks/useSpeechSynthesis.ts:48-57 | Stated on the platform's own list: the chosen voice is the earliest Turkish voice named Google. Without one, it is the earliest named Yelda. Without either, it is the earliest Turkish voice, and with no Turkish voice there is none. |
| Synthesis.ChoicePreference | src/hooks/useSpeechSynthesis.ts:50-52 | The first Google voice wins. Without one, the first Yelda voice wins. Without either, the first Turkish voice is chosen. |
| Synthesis.TrySpeak | src/hooks/useSpeechSynthesis.ts:33-40 | With `r` retries left, at most `r + 1` attempts are made. Every attempt before the last saw an empty voice list, and an early stop means a non-empty list. |
| Synthesis.SpeakAttemptsAndCallback | src/hooks/useSpeechSynthesis.ts:27-74 | Nothing happens without platform support. Otherwise there are one to four attempts, and one `tr-TR` utterance with the text and the preferred voice of the last list. A given `onEnd` runs exactly once when the utterance finishes. The `onend` and `onerror` handlers do the same thing, so how it finishes is not a parameter. |
| Synthesis.EmptyListFallsBackToDefault | src/hooks/useSpeechSynthesis.ts:33-57 | When the voice list never fills, the fourth attempt speaks with no assigned voice. |
| Scenario.NearMissMatches | src/components/QuizScreen.tsx:84-98 | A small-letter word that differs from a small-letter answer in at most two positions is its own trim and passes the answer check. |
| Scenario.NearMissTurnIsCorrect | src/components/QuizScreen.tsx:34-121 | A whole turn answered with such a word dispatches a correct answer and then the advance. |
| Scenario.TwoNearMissesFinishTwoOfTwo | src/context/QuizContext.tsx:29-55 | For a two-question set, the actions dispatched by two such turns take a freshly loaded and started session to `finished`, with score 2 and history `[true, true]`. |
| Scenario.AmputIsNearMissOfArmut | src/components/QuizScreen.tsx:96-98 | "amput" and "armut" are small-letter words that differ in exactly two positions. Their edit distance is exactly 2. |

## Left out

- Browser speech APIs, timers and React scheduling are not modelled. This
  includes the 500 ms question delay, the 100 ms speaking delay, the
  two-second silence timer, the 1000 ms and 1500 ms advance delays and the
  500 ms voice retry. Each appears only as the event it eventually delivers.
- Strict-mode double effects, effect cleanup as a separate step, and
  callbacks of an older recogniser object firing after a new one started
  are left out. The model is a single-threaded event sequence.
- The `levenshtein` utility file is not part of this model.
  `EditDistance.Dist` is the standard definition the call site relies on.
  The triangle inequality of the distance is not proved.
- `toLocaleLowerCase('tr-TR')` is modelled only for Basic Latin, the
  Latin-1 capitals and the Turkish letters `İ`, `Ğ` and `Ş`. Other
  characters are left unchanged. The full Unicode case tables are outside
  the model.
- Button visibility is not modelled. The "start listening" button shows
  only while not listening, and "stop and send" only while listening. The
  turn model accepts every event at any time, so its properties cover a
  superset of the reachable traces.
- The recogniser's alternative lists are reduced to the top alternative's
  text (`result[0].transcript`). `onspeechend` only logs, so it is left
  out.
- The speech-output hook's `speaking` flag on utterance start, the
  `voices` state kept by `onvoiceschanged`, rate and pitch are left out.
  They do not affect the quiz flow.
- `cancel` is modelled only as an effect the turn emits. It does affect the
  flow, and the model does not follow that effect. `cancel`
  (src/hooks/useSpeechSynthesis.ts:77-82) cancels the platform's queue
  but leaves two timers running: a pending `trySpeak` retry (line 38) and
  the screen's 100 ms `speakText` timer
  (src/components/QuizScreen.tsx:28-30). A speak started in a superseded
  turn can therefore still produce an utterance, and its `onEnd` then runs
  in the next turn: a stale `startListening` after a question, or a stale
  `NEXT_QUESTION` after feedback. The turn model accepts `QuestionSpoken`
  and `FeedbackSpoken` at any time, so its properties cover such late
  callbacks. It does not say when they occur.
- Rendering, the progress bar, percentages (floating point), the feedback
  overlay, the home screen's file loading and JSON parsing are outside the
  core.
- Normalize.CollapseShape: states that the last character is kept only when
  it is not whitespace. The source makes no promise about a trailing
  whitespace run.
