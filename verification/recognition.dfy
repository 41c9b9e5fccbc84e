/** The observable state of the speech-input hook
    (src/hooks/useSpeechRecognition.ts) and how each call and each event of
    the platform recogniser changes it. The recogniser itself, its silence
    timer and its start failures are outside the model: they appear only
    as the events they deliver. */
module Recognition {
  import opened Base
  import Normalize

  /** One entry of the platform's result list: the transcript of its top
      alternative and whether the platform has confirmed it. */
  datatype Segment = Segment(text: string, isFinal: bool)

  datatype RecState = RecState(
    supported: bool,         // capability probe result
    session: bool,           // a recogniser object exists
    listening: bool,
    transcript: string,      // latest interim text
    finalTranscript: string, // accumulated confirmed text
    error: Option<string>)

  datatype RecEvent =
    | StartListening(startThrows: bool) // the hook's `startListening`; whether `recognition.start()` throws
    | OnStart
    | OnResult(resultIndex: nat, results: seq<Segment>)
    | OnError(code: string)
    | OnEnd                             // platform end, including the one after a stop or the silence timer
    | StopListening                     // the hook's `stopListening`

  /** The hook's state when it is first mounted. */
  function Mounted(supported: bool): RecState {
    RecState(supported, false, false, "", "", None)
  }

  // ---------------------------------------------------------------------
  // Reading a result event

  /** The entries a result event reports as new: from `resultIndex` on. */
  function Pending(results: seq<Segment>, resultIndex: nat): seq<Segment> {
    if resultIndex <= |results| then results[resultIndex..] else []
  }

  /** The confirmed texts of `segs`, concatenated in order. */
  function FinalText(segs: seq<Segment>): string {
    if |segs| == 0 then ""
    else (if segs[0].isFinal then segs[0].text else "") + FinalText(segs[1..])
  }

  /** The unconfirmed texts of `segs`, concatenated in order. */
  function InterimText(segs: seq<Segment>): string {
    if |segs| == 0 then ""
    else (if segs[0].isFinal then "" else segs[0].text) + InterimText(segs[1..])
  }

  lemma {:induction false} FinalTextAppend(segs: seq<Segment>, seg: Segment)
    ensures FinalText(segs + [seg]) == FinalText(segs) + (if seg.isFinal then seg.text else "")
    decreases |segs|
  {
    if |segs| == 0 {
      assert segs + [seg] == [seg];
      assert [seg][1..] == [];
    } else {
      var head := if segs[0].isFinal then segs[0].text else "";
      assert (segs + [seg])[0] == segs[0];
      assert (segs + [seg])[1..] == segs[1..] + [seg];
      assert FinalText(segs + [seg]) == head + FinalText(segs[1..] + [seg]);
      FinalTextAppend(segs[1..], seg);
    }
  }

  lemma {:induction false} InterimTextAppend(segs: seq<Segment>, seg: Segment)
    ensures InterimText(segs + [seg]) == InterimText(segs) + (if seg.isFinal then "" else seg.text)
    decreases |segs|
  {
    if |segs| == 0 {
      assert segs + [seg] == [seg];
      assert [seg][1..] == [];
    } else {
      var head := if segs[0].isFinal then "" else segs[0].text;
      assert (segs + [seg])[0] == segs[0];
      assert (segs + [seg])[1..] == segs[1..] + [seg];
      assert InterimText(segs + [seg]) == head + InterimText(segs[1..] + [seg]);
      InterimTextAppend(segs[1..], seg);
    }
  }

  /** The texts of all segments, concatenated in order. */
  function AllText(segs: seq<Segment>): string {
    if |segs| == 0 then "" else segs[0].text + AllText(segs[1..])
  }

  /** Every character of the segments ends up in exactly one of the two
      texts: counted with multiplicity, the confirmed and the unconfirmed
      texts together hold exactly the characters of all segments. */
  lemma {:induction false} TextsSplitSegments(segs: seq<Segment>)
    ensures multiset(FinalText(segs)) + multiset(InterimText(segs)) == multiset(AllText(segs))
    ensures |FinalText(segs)| + |InterimText(segs)| == |AllText(segs)|
    decreases |segs|
  {
    if |segs| > 0 {
      TextsSplitSegments(segs[1..]);
      var f, i := FinalText(segs[1..]), InterimText(segs[1..]);
      if segs[0].isFinal {
        assert FinalText(segs) == segs[0].text + f;
        assert InterimText(segs) == "" + i;
      } else {
        assert FinalText(segs) == "" + f;
        assert InterimText(segs) == segs[0].text + i;
      }
    }
  }

  /** The loop of `onresult`, walking the list from `resultIndex`. */
  method CollectResults(resultIndex: nat, results: seq<Segment>) returns (final: string, interim: string)
    ensures final == FinalText(Pending(results, resultIndex))
    ensures interim == InterimText(Pending(results, resultIndex))
  {
    final, interim := "", "";
    if resultIndex > |results| {
      return;
    }
    var i := resultIndex;
    while i < |results|
      invariant resultIndex <= i <= |results|
      invariant final == FinalText(results[resultIndex..i])
      invariant interim == InterimText(results[resultIndex..i])
    {
      var r := results[i];
      if r.isFinal {
        final := final + r.text;
      } else {
        interim := interim + r.text;
      }
      assert results[resultIndex..i + 1] == results[resultIndex..i] + [r];
      FinalTextAppend(results[resultIndex..i], r);
      InterimTextAppend(results[resultIndex..i], r);
      i := i + 1;
    }
    assert results[resultIndex..i] == results[resultIndex..];
  }

  // ---------------------------------------------------------------------
  // The step function

  function OnEvent(s: RecState, e: RecEvent): RecState {
    match e
    case StartListening(throws) =>
      if !s.supported then s
      else s.(session := true, transcript := "", finalTranscript := "", listening := !throws)
    case OnStart => s.(listening := true, error := None)
    case OnResult(ri, results) =>
      var final := FinalText(Pending(results, ri));
      var interim := InterimText(Pending(results, ri));
      s.(transcript := if |interim| > 0 then interim else s.transcript,
         finalTranscript := if |final| > 0 then s.finalTranscript + " " + final else s.finalTranscript)
    case OnError(code) => if code != "no-speech" then s.(error := Some(code)) else s
    case OnEnd => s.(listening := false)
    case StopListening => s
  }

  function RunEvents(s: RecState, events: seq<RecEvent>): RecState
    decreases |events|
  {
    if |events| == 0 then s else RunEvents(OnEvent(s, events[0]), events[1..])
  }

  // ---------------------------------------------------------------------
  // Properties

  /** `startListening` does nothing when recognition is unsupported;
      otherwise it clears both transcripts and raises the listening flag,
      unless the platform refuses to start. The error field is kept. */
  lemma StartResets(s: RecState, throws: bool)
    ensures !s.supported ==> OnEvent(s, StartListening(throws)) == s
    ensures s.supported ==> var r := OnEvent(s, StartListening(throws));
      && r.transcript == "" && r.finalTranscript == ""
      && r.listening == !throws && r.session && r.error == s.error
  {
  }

  /** A result event overwrites the interim transcript only with non-empty
      interim text, and extends the confirmed transcript by a space and the
      new confirmed text only when there is some; the old confirmed
      transcript is always kept as a prefix. */
  lemma ResultUpdatesTranscripts(s: RecState, ri: nat, results: seq<Segment>)
    ensures var r := OnEvent(s, OnResult(ri, results));
      var final := FinalText(Pending(results, ri));
      var interim := InterimText(Pending(results, ri));
      && (r.transcript != s.transcript ==> |interim| > 0 && r.transcript == interim)
      && (|interim| > 0 ==> r.transcript == interim)
      && (|final| > 0 ==> r.finalTranscript == s.finalTranscript + " " + final)
      && (|final| == 0 ==> r.finalTranscript == s.finalTranscript)
      && IsPrefix(s.finalTranscript, r.finalTranscript)
      && r.listening == s.listening && r.error == s.error
  {
  }

  /** An error event records its code unless it is `no-speech`, and never
      touches the listening flag. */
  lemma ErrorRecordedUnlessNoSpeech(s: RecState, code: string)
    ensures var r := OnEvent(s, OnError(code));
      && (code != "no-speech" ==> r.error == Some(code))
      && (code == "no-speech" ==> r == s)
      && r.listening == s.listening
  {
  }

  /** The listening flag goes down only on the platform's end event (or
      when the platform refuses to start); `stopListening` changes nothing
      by itself, and the start event raises the flag and clears the error. */
  lemma ListeningFallsOnlyAtEnd(s: RecState, e: RecEvent)
    requires s.listening && !OnEvent(s, e).listening
    ensures e.OnEnd? || (e.StartListening? && e.startThrows && s.supported)
  {
  }

  lemma StopAndStartEvents(s: RecState)
    ensures OnEvent(s, StopListening) == s
    ensures OnEvent(s, OnStart).listening && OnEvent(s, OnStart).error == None
    ensures !OnEvent(s, OnEnd).listening
  {
  }

  /** Within one session (no `startListening` in between) the confirmed
      transcript only grows at its end. */
  lemma {:induction false} FinalAppendOnly(s: RecState, events: seq<RecEvent>)
    requires forall i :: 0 <= i < |events| ==> !events[i].StartListening?
    ensures IsPrefix(s.finalTranscript, RunEvents(s, events).finalTranscript)
    decreases |events|
  {
    if |events| > 0 {
      var s1 := OnEvent(s, events[0]);
      assert IsPrefix(s.finalTranscript, s1.finalTranscript);
      FinalAppendOnly(s1, events[1..]);
      var r := RunEvents(s1, events[1..]);
      assert r.finalTranscript[..|s.finalTranscript|] == r.finalTranscript[..|s1.finalTranscript|][..|s.finalTranscript|];
    }
  }

  /** The confirmed transcript is empty or starts with a space. */
  predicate LeadingSpaceShape(s: RecState) {
    s.finalTranscript == "" || s.finalTranscript[0] == ' '
  }

  /** Every event keeps that shape, so after the first confirmed segment of
      a session the transcript starts with a space — which the quiz screen
      removes by trimming. */
  lemma {:induction false} LeadingSpaceKept(s: RecState, events: seq<RecEvent>)
    requires LeadingSpaceShape(s)
    ensures LeadingSpaceShape(RunEvents(s, events))
    decreases |events|
  {
    if |events| > 0 {
      var s1 := OnEvent(s, events[0]);
      assert LeadingSpaceShape(s1) by {
        if s1.finalTranscript != s.finalTranscript && s1.finalTranscript != "" {
          assert s1.finalTranscript[..|s.finalTranscript| + 1] == s.finalTranscript + " ";
          assert (s.finalTranscript + " ")[0] == ' ';
        }
      }
      LeadingSpaceKept(s1, events[1..]);
    }
  }

  /** The first confirmed text of a fresh session is stored behind a space
      that trimming removes again. */
  lemma FirstFinalIsSpacePrefixed(s: RecState, ri: nat, results: seq<Segment>)
    requires s.finalTranscript == ""
    requires |FinalText(Pending(results, ri))| > 0
    ensures var r := OnEvent(s, OnResult(ri, results));
      && r.finalTranscript == " " + FinalText(Pending(results, ri))
      && Normalize.Trim(r.finalTranscript) == Normalize.Trim(FinalText(Pending(results, ri)))
  {
    var f := FinalText(Pending(results, ri));
    var r := OnEvent(s, OnResult(ri, results));
    assert r.finalTranscript == " " + f;
    assert (" " + f)[1..] == f;
    assert Normalize.TrimStart(" " + f) == Normalize.TrimStart(f);
  }
}
