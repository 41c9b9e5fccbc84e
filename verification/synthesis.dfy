/** The decisions of the speech-output hook (src/hooks/useSpeechSynthesis.ts):
    the bounded wait for the platform's voice list and the choice of a
    Turkish voice. The platform's voice list at each attempt and the way an
    utterance ends are inputs; the utterance itself is not modelled. */
module Synthesis {
  import opened Base

  datatype Voice = Voice(name: string, lang: string)

  /** The filter of `speak`: the language tag mentions `tr` or `TK`. */
  predicate IsTurkish(v: Voice) {
    Contains(v.lang, "tr") || Contains(v.lang, "TK")
  }

  /** The Turkish voices, in the platform's order. */
  function TurkishVoices(vs: seq<Voice>): (r: seq<Voice>)
    ensures forall v :: v in r <==> v in vs && IsTurkish(v)
    ensures |r| <= |vs|
  {
    if |vs| == 0 then []
    else (if IsTurkish(vs[0]) then [vs[0]] else []) + TurkishVoices(vs[1..])
  }

  /** The filter keeps the platform's order: filtering a concatenation is
      concatenating the filtered parts. */
  lemma {:induction false} TurkishVoicesAppend(a: seq<Voice>, b: seq<Voice>)
    ensures TurkishVoices(a + b) == TurkishVoices(a) + TurkishVoices(b)
    decreases |a|
  {
    if |a| == 0 {
      assert a + b == b;
    } else {
      assert (a + b)[0] == a[0];
      assert (a + b)[1..] == a[1..] + b;
      TurkishVoicesAppend(a[1..], b);
    }
  }

  /** Position in the platform's list of the first Turkish voice whose
      name contains `word` (reference definition, without the filter). */
  function FirstTurkishNamed(vs: seq<Voice>, word: string): (r: Option<nat>)
    ensures r.Some? ==> r.value < |vs| && IsTurkish(vs[r.value]) && Contains(vs[r.value].name, word)
    ensures r.Some? ==> forall j :: 0 <= j < r.value ==> !(IsTurkish(vs[j]) && Contains(vs[j].name, word))
    ensures r.None? ==> forall j :: 0 <= j < |vs| ==> !(IsTurkish(vs[j]) && Contains(vs[j].name, word))
  {
    if |vs| == 0 then None
    else if IsTurkish(vs[0]) && Contains(vs[0].name, word) then Some(0)
    else
      var rest := FirstTurkishNamed(vs[1..], word);
      if rest.Some? then Some(rest.value + 1) else None
  }

  /** Position in the platform's list of the first Turkish voice. */
  function FirstTurkish(vs: seq<Voice>): (r: Option<nat>)
    ensures r.Some? ==> r.value < |vs| && IsTurkish(vs[r.value])
    ensures r.Some? ==> forall j :: 0 <= j < r.value ==> !IsTurkish(vs[j])
    ensures r.None? ==> forall j :: 0 <= j < |vs| ==> !IsTurkish(vs[j])
  {
    if |vs| == 0 then None
    else if IsTurkish(vs[0]) then Some(0)
    else
      var rest := FirstTurkish(vs[1..]);
      if rest.Some? then Some(rest.value + 1) else None
  }

  /** Searching the filtered list finds the same voice as searching the
      platform's list for a Turkish voice with that name. */
  lemma {:induction false} FindAfterFilter(vs: seq<Voice>, word: string)
    ensures var tr := TurkishVoices(vs);
      var f := FindName(tr, word);
      var g := FirstTurkishNamed(vs, word);
      && f.Some? == g.Some?
      && (f.Some? ==> tr[f.value] == vs[g.value])
    decreases |vs|
  {
    if |vs| > 0 {
      FindAfterFilter(vs[1..], word);
      var tr, tr' := TurkishVoices(vs), TurkishVoices(vs[1..]);
      if IsTurkish(vs[0]) {
        assert tr == [vs[0]] + tr';
        assert tr[1..] == tr';
      } else {
        assert tr == tr';
      }
    }
  }

  /** The filtered list starts with the platform's first Turkish voice. */
  lemma {:induction false} FilterHead(vs: seq<Voice>)
    ensures var tr := TurkishVoices(vs);
      var t := FirstTurkish(vs);
      && (|tr| > 0 <==> t.Some?)
      && (|tr| > 0 ==> tr[0] == vs[t.value])
    decreases |vs|
  {
    if |vs| > 0 {
      FilterHead(vs[1..]);
      if IsTurkish(vs[0]) {
        assert TurkishVoices(vs)[0] == vs[0];
      } else {
        assert TurkishVoices(vs) == TurkishVoices(vs[1..]);
      }
    }
  }

  /** The choice in terms of the platform's own list: the earliest Turkish
      voice named Google, else the earliest named Yelda, else the earliest
      Turkish voice, else none. */
  lemma ChoiceByPlatformOrder(vs: seq<Voice>)
    ensures var g := FirstTurkishNamed(vs, "Google");
      var y := FirstTurkishNamed(vs, "Yelda");
      var t := FirstTurkish(vs);
      ChooseVoice(vs) ==
        if g.Some? then Some(vs[g.value])
        else if y.Some? then Some(vs[y.value])
        else if t.Some? then Some(vs[t.value])
        else None
  {
    FindAfterFilter(vs, "Google");
    FindAfterFilter(vs, "Yelda");
    FilterHead(vs);
  }

  /** Position of the first voice whose name contains `word`, as
      `Array.prototype.find` scans. */
  function FindName(vs: seq<Voice>, word: string): (r: Option<nat>)
    ensures r.Some? ==> r.value < |vs| && Contains(vs[r.value].name, word)
    ensures r.Some? ==> forall j :: 0 <= j < r.value ==> !Contains(vs[j].name, word)
    ensures r.None? ==> forall j :: 0 <= j < |vs| ==> !Contains(vs[j].name, word)
  {
    if |vs| == 0 then None
    else if Contains(vs[0].name, word) then Some(0)
    else
      var rest := FindName(vs[1..], word);
      if rest.Some? then Some(rest.value + 1) else None
  }

  /** The preferred voice: the first Turkish voice named Google, else the
      first named Yelda, else the first Turkish voice, else none (the
      platform default). */
  function ChooseVoice(vs: seq<Voice>): Option<Voice> {
    var tr := TurkishVoices(vs);
    var g := FindName(tr, "Google");
    if g.Some? then Some(tr[g.value])
    else
      var y := FindName(tr, "Yelda");
      if y.Some? then Some(tr[y.value])
      else if |tr| > 0 then Some(tr[0])
      else None
  }

  /** The chosen voice is one of the platform's Turkish voices, and none is
      chosen exactly when there is no Turkish voice. */
  lemma ChosenVoiceIsTurkish(vs: seq<Voice>)
    ensures ChooseVoice(vs).Some? ==> ChooseVoice(vs).value in vs && IsTurkish(ChooseVoice(vs).value)
    ensures ChooseVoice(vs).None? <==> forall v :: v in vs ==> !IsTurkish(v)
  {
    var tr := TurkishVoices(vs);
    if |tr| > 0 {
      assert tr[0] in tr;
    }
  }

  /** The preference order: a Google voice wins, and it is the first one;
      without one, the first Yelda voice; without either, the first Turkish
      voice. */
  lemma ChoicePreference(vs: seq<Voice>)
    ensures var tr := TurkishVoices(vs);
      var r := ChooseVoice(vs);
      && ((exists i :: 0 <= i < |tr| && Contains(tr[i].name, "Google")) ==>
            r.Some? && Contains(r.value.name, "Google")
            && exists i :: 0 <= i < |tr| && tr[i] == r.value
                 && forall j :: 0 <= j < i ==> !Contains(tr[j].name, "Google"))
      && ((forall i :: 0 <= i < |tr| ==> !Contains(tr[i].name, "Google"))
          && (exists i :: 0 <= i < |tr| && Contains(tr[i].name, "Yelda")) ==>
            r.Some? && Contains(r.value.name, "Yelda")
            && exists i :: 0 <= i < |tr| && tr[i] == r.value
                 && forall j :: 0 <= j < i ==> !Contains(tr[j].name, "Yelda"))
      && (((forall i :: 0 <= i < |tr| ==> !Contains(tr[i].name, "Google") && !Contains(tr[i].name, "Yelda"))
           && |tr| > 0) ==> r == Some(tr[0]))
  {
  }

  // ---------------------------------------------------------------------
  // Waiting for the voice list

  /** `trySpeak(retries)` at attempt number `k` (counting from 0): while
      the platform reports no voices and retries remain, try again with one
      retry fewer. Returns how many attempts were made in all and the voice
      list the utterance is built with. */
  function TrySpeak(retries: nat, k: nat, voicesAt: nat -> seq<Voice>): (r: (nat, seq<Voice>))
    ensures k + 1 <= r.0 <= k + retries + 1
    ensures r.1 == voicesAt(r.0 - 1)
    ensures forall j :: k <= j < r.0 - 1 ==> |voicesAt(j)| == 0
    ensures r.0 < k + retries + 1 ==> |voicesAt(r.0 - 1)| > 0
    decreases retries
  {
    if |voicesAt(k)| == 0 && retries > 0 then TrySpeak(retries - 1, k + 1, voicesAt)
    else (k + 1, voicesAt(k))
  }

  datatype Utterance = Utterance(text: string, lang: string, voice: Option<Voice>)

  datatype SpeakResult =
    | NotSupported
    | Spoken(attempts: nat, utterance: Utterance, onEndCalls: nat, speakingAfter: bool)

  /** `speak(text, onEnd)`: nothing without platform support; otherwise up
      to three retries for the voice list, then one utterance in `tr-TR`
      with the preferred voice. The utterance's `onend` and `onerror`
      handlers differ only in logging: both lower the speaking flag and
      call `onEnd` if one was given, so how the utterance finishes is not a
      parameter. */
  function Speak(supported: bool, text: string, hasOnEnd: bool, voicesAt: nat -> seq<Voice>): SpeakResult {
    if !supported then NotSupported
    else
      var attempt := TrySpeak(3, 0, voicesAt);
      var u := Utterance(text, "tr-TR", ChooseVoice(attempt.1));
      Spoken(attempt.0, u, if hasOnEnd then 1 else 0, false)
  }

  /** At most four attempts are made; an attempt before the last is taken
      only after every earlier one saw an empty list, and the utterance
      uses the voice list of the last attempt. A given `onEnd` runs exactly
      once when the utterance finishes. */
  lemma SpeakAttemptsAndCallback(supported: bool, text: string, hasOnEnd: bool, voicesAt: nat -> seq<Voice>)
    ensures var r := Speak(supported, text, hasOnEnd, voicesAt);
      && (r.NotSupported? <==> !supported)
      && (r.Spoken? ==>
            && 1 <= r.attempts <= 4
            && (forall j :: 0 <= j < r.attempts - 1 ==> |voicesAt(j)| == 0)
            && (r.attempts < 4 ==> |voicesAt(r.attempts - 1)| > 0)
            && r.utterance.text == text && r.utterance.lang == "tr-TR"
            && r.utterance.voice == ChooseVoice(voicesAt(r.attempts - 1))
            && (r.onEndCalls == 1 <==> hasOnEnd) && r.onEndCalls <= 1 && !r.speakingAfter)
  {
  }

  /** If the voice list is never filled, the fourth attempt speaks with the
      platform's default voice. */
  lemma EmptyListFallsBackToDefault(text: string, hasOnEnd: bool, voicesAt: nat -> seq<Voice>)
    requires forall j :: |voicesAt(j)| == 0
    ensures var r := Speak(true, text, hasOnEnd, voicesAt);
      r.Spoken? && r.attempts == 4 && r.utterance.voice == None
  {
    var r := Speak(true, text, hasOnEnd, voicesAt);
    ChosenVoiceIsTurkish(voicesAt(r.attempts - 1));
  }
}
