/**
 * useWakeWordDetection.js: the wake-word matcher and the flag machine that
 * keeps a background recognizer listening for it.
 *
 * The browser's recognizer is reduced to a "running" bit: `start()` sets it (a
 * second `start()` throws InvalidStateError, which the hook catches, so the bit
 * stays set) and the `onend` event clears it; `stop()` only asks for that
 * `onend`. Every `setTimeout` is a pending timer that a later `Fire` runs.
 */
module WakeWord {
  import opened Text
  import opened Wrappers

  // ---------------------------------------------------------------------------
  // The matcher

  /**
   * `detectWakeWord` (lines 97-115): false for an empty transcript or wake
   * word, otherwise whether the lower-cased, trimmed transcript contains the
   * lower-cased, trimmed wake word. The sensitivity is not consulted.
   */
  function DetectWakeWord(transcript: string, wakeWord: string): (r: bool)
    ensures transcript == [] || wakeWord == [] ==> !r
  {
    if transcript == [] || wakeWord == [] then false
    else Contains(Trim(Lower(transcript)), Trim(Lower(wakeWord)))
  }

  lemma LowerKeepsSpace(s: string, i: nat)
    requires i < |s|
    ensures IsSpace(Lower(s)[i]) <==> IsSpace(s[i])
  {
  }

  /**
   * The wake word is found anywhere in the transcript, not only at its start,
   * and whatever the case of its letters: a transcript that has the wake word
   * (trimmed, in any case) somewhere inside it matches.
   */
  lemma MatchAnywhere(before: string, spoken: string, after: string, wakeWord: string)
    requires Lower(spoken) == Trim(Lower(wakeWord)) && spoken != []
    ensures DetectWakeWord(before + spoken + after, wakeWord)
  {
    var w := Lower(spoken);
    assert |w| == |spoken| > 0;
    assert wakeWord != [] by {
      assert Trim([]) == [];
    }
    var _, _ := TrimSpec(Lower(wakeWord));
    LowerInside(before, spoken, after);
    TrimKeepsInner(Lower(before + spoken + after), w, |before|);
  }

  /** Lower-casing works character by character, so it commutes with taking a slice. */
  lemma LowerInside(before: string, spoken: string, after: string)
    ensures Lower(before + spoken + after)[|before|..|before| + |spoken|] == Lower(spoken)
  {
    var t := before + spoken + after;
    var p := |before|;
    forall k | 0 <= k < |spoken| ensures Lower(t)[p + k] == Lower(spoken)[k] {
      assert t[p + k] == spoken[k];
    }
  }

  /** A piece that neither begins nor ends with whitespace survives `trim`, so `includes` finds it. */
  lemma TrimKeepsInner(l: string, w: string, p: nat)
    requires p + |w| <= |l| && l[p..p + |w|] == w
    requires w != [] && !IsSpace(w[0]) && !IsSpace(w[|w| - 1])
    ensures Contains(Trim(l), w)
  {
    var a, b := TrimSpec(l);
    assert l[p] == w[0] && l[p + |w| - 1] == w[|w| - 1];
    assert a <= p && p + |w| <= b;
    var r := Trim(l);
    assert OccursAt(w, r, p - a) by {
      forall k | 0 <= k < |w| ensures r[p - a + k] == w[k] {
        assert r[p - a + k] == l[p + k];
      }
    }
    ContainsSpec(r, w);
  }

  /**
   * A wake word made only of whitespace is not empty, so it passes the guard
   * of line 99, trims to "" and is contained in every non-empty transcript.
   */
  lemma BlankWakeWordMatchesAll(transcript: string, wakeWord: string)
    requires transcript != [] && wakeWord != []
    requires forall i :: 0 <= i < |wakeWord| ==> IsSpace(wakeWord[i])
    ensures DetectWakeWord(transcript, wakeWord)
  {
    var l := Lower(wakeWord);
    forall i | 0 <= i < |l| ensures IsSpace(l[i]) {
      LowerKeepsSpace(wakeWord, i);
    }
    TrimEmpty(l);
    assert OccursAt([], Trim(Lower(transcript)), 0);
    ContainsSpec(Trim(Lower(transcript)), []);
  }

  /** Letter case does not matter: transcripts equal up to case match the same wake words. */
  lemma CaseInsensitive(t1: string, t2: string, wakeWord: string)
    requires Lower(t1) == Lower(t2)
    ensures DetectWakeWord(t1, wakeWord) == DetectWakeWord(t2, wakeWord)
  {
    assert |t1| == |Lower(t1)| == |t2|;
  }

  /** A transcript that has "hey" in its middle matches the default wake word. */
  lemma DefaultWakeWordInMiddle()
    ensures DetectWakeWord("ok hey computer", "hey")
  {
    var hey := "hey";
    assert Lower(hey) == hey by {
      assert Lower(hey)[0] == 'h' && Lower(hey)[1] == 'e' && Lower(hey)[2] == 'y';
    }
    TrimNoEdges(hey);
    var t := "ok " + hey + " computer";
    assert t == "ok hey computer";
    MatchAnywhere("ok ", hey, " computer", hey);
  }

  // ---------------------------------------------------------------------------
  // The flag machine

  /** The hook's `setTimeout`s: restart after 500 ms, retry after an error after 1000 ms, notify after 100 ms. */
  datatype WakeTimer = RestartAfterStop | RetryAfterError | NotifyDetected

  function TimerDelay(t: WakeTimer): nat {
    match t
    case RestartAfterStop => 500
    case RetryAfterError => 1000
    case NotifyDetected => 100
  }

  /**
   * The hook's refs: whether a recognizer exists (`recognitionRef.current`),
   * `isListeningRef`, `isIntentionallyStoppedRef`, the recognizer's running
   * bit, the pending timers, and how many times `onDetected` has been called.
   */
  datatype WakeState = WakeState(
    hasRecognizer: bool,
    listening: bool,
    intentionallyStopped: bool,
    running: bool,
    timers: seq<WakeTimer>,
    detections: nat)

  /** `startDetection` (lines 149-175); `supported` says whether the browser offers speech recognition. */
  function Start(st: WakeState, supported: bool): WakeState {
    var has := st.hasRecognizer || supported;
    st.(listening := true, intentionallyStopped := false, hasRecognizer := has, running := st.running || has)
  }

  /** `stopDetection` (lines 178-196). */
  function Stop(st: WakeState): WakeState {
    st.(listening := false, intentionallyStopped := true)
  }

  /** `restartRecognition` (lines 118-146): stop now, try to start again after 500 ms. */
  function Restart(st: WakeState): WakeState {
    if !st.hasRecognizer then st else st.(timers := st.timers + [RestartAfterStop])
  }

  /** The first index from `i` on whose transcript contains the wake word. */
  function FirstMatch(transcripts: seq<string>, i: nat, wakeWord: string): (m: Option<nat>)
    ensures m.Some? ==> i <= m.value < |transcripts| && DetectWakeWord(transcripts[m.value], wakeWord)
    ensures m.Some? ==> forall k :: i <= k < m.value ==> !DetectWakeWord(transcripts[k], wakeWord)
    ensures m.None? ==> forall k :: i <= k < |transcripts| ==> !DetectWakeWord(transcripts[k], wakeWord)
    decreases |transcripts| - i
  {
    if i >= |transcripts| then None
    else if DetectWakeWord(transcripts[i], wakeWord) then Some(i)
    else FirstMatch(transcripts, i + 1, wakeWord)
  }

  /** `onresult` (lines 31-63). */
  function OnResult(st: WakeState, transcripts: seq<string>, resultIndex: nat, wakeWord: string): WakeState {
    var st1 :=
      if FirstMatch(transcripts, resultIndex, wakeWord).Some? then
        st.(intentionallyStopped := true, timers := st.timers + [NotifyDetected])
      else st;
    if st1.listening && !st1.intentionallyStopped then Restart(st1) else st1
  }

  /** `onerror` (lines 65-76). */
  function OnError(st: WakeState): WakeState {
    if st.listening then st.(timers := st.timers + [RetryAfterError]) else st
  }

  /** `onend` (lines 78-91). */
  function OnEnd(st: WakeState): WakeState {
    var st1 := st.(running := false);
    if st1.intentionallyStopped then st1.(intentionallyStopped := false)
    else if st1.listening then Restart(st1)
    else st1
  }

  function RemoveAt<T>(s: seq<T>, k: nat): (r: seq<T>)
    requires k < |s|
    ensures |r| == |s| - 1
    ensures multiset(r) + multiset{s[k]} == multiset(s)
  {
    assert s == s[..k] + [s[k]] + s[k + 1..];
    s[..k] + s[k + 1..]
  }

  /** Pending timer k fires (lines 51-53, 70-74, 128-145). */
  function Fire(st: WakeState, k: nat): WakeState
    requires k < |st.timers|
  {
    var st1 := st.(timers := RemoveAt(st.timers, k));
    match st.timers[k]
    case RestartAfterStop =>
      if st1.listening && st1.hasRecognizer && !st1.intentionallyStopped then st1.(running := true) else st1
    case RetryAfterError =>
      if st1.listening then Restart(st1) else st1
    case NotifyDetected =>
      st1.(detections := st1.detections + 1)
  }

  // ---------------------------------------------------------------------------
  // Properties of the flag machine

  /** `startDetection` arms the machine; `stopDetection` disarms it and repeating it changes nothing. */
  lemma StartStopFlags(st: WakeState, supported: bool)
    ensures Start(st, supported).listening && !Start(st, supported).intentionallyStopped
    ensures !Stop(st).listening && Stop(st).intentionallyStopped
    ensures Stop(Stop(st)) == Stop(st)
    ensures Stop(st).timers == st.timers && Stop(st).running == st.running
  {
  }

  /**
   * A matching result marks the stop as intentional, schedules exactly one
   * notification, and schedules no restart; the results after the match are
   * not looked at.
   */
  lemma DetectionStops(st: WakeState, transcripts: seq<string>, resultIndex: nat, wakeWord: string, k: nat)
    requires resultIndex <= k < |transcripts| && DetectWakeWord(transcripts[k], wakeWord)
    ensures OnResult(st, transcripts, resultIndex, wakeWord).intentionallyStopped
    ensures OnResult(st, transcripts, resultIndex, wakeWord).timers == st.timers + [NotifyDetected]
    ensures OnResult(st, transcripts, resultIndex, wakeWord)
         == OnResult(st, transcripts[..k + 1], resultIndex, wakeWord)
  {
    var m := FirstMatch(transcripts, resultIndex, wakeWord);
    assert m.Some? && m.value <= k;
    FirstMatchPrefix(transcripts, resultIndex, wakeWord, k + 1);
  }

  /** The first match does not depend on the results after it. */
  lemma {:induction false} FirstMatchPrefix(transcripts: seq<string>, i: nat, wakeWord: string, n: nat)
    requires i <= n <= |transcripts|
    requires FirstMatch(transcripts, i, wakeWord).Some? && FirstMatch(transcripts, i, wakeWord).value < n
    ensures FirstMatch(transcripts[..n], i, wakeWord) == FirstMatch(transcripts, i, wakeWord)
    decreases n - i
  {
    if !DetectWakeWord(transcripts[i], wakeWord) {
      FirstMatchPrefix(transcripts, i + 1, wakeWord, n);
    }
  }

  /** With no match, a listening, not intentionally stopped hook schedules one restart. */
  lemma NoMatchRestarts(st: WakeState, transcripts: seq<string>, resultIndex: nat, wakeWord: string)
    requires forall k :: resultIndex <= k < |transcripts| ==> !DetectWakeWord(transcripts[k], wakeWord)
    ensures OnResult(st, transcripts, resultIndex, wakeWord).timers
         == if st.listening && !st.intentionallyStopped && st.hasRecognizer
            then st.timers + [RestartAfterStop] else st.timers
  {
    assert FirstMatch(transcripts, resultIndex, wakeWord).None?;
  }

  /** `onend` after an intentional stop clears the flag and restarts nothing. */
  lemma EndAfterStop(st: WakeState)
    requires st.intentionallyStopped
    ensures OnEnd(st) == st.(running := false, intentionallyStopped := false)
  {
  }

  /** Otherwise `onend` schedules a restart exactly when the hook is listening. */
  lemma EndRestartsWhileListening(st: WakeState)
    requires !st.intentionallyStopped && st.hasRecognizer
    ensures OnEnd(st).timers == if st.listening then st.timers + [RestartAfterStop] else st.timers
  {
  }

  /** A pending restart starts the recognizer only when listening, present, and not intentionally stopped. */
  lemma FireStartsOnlyWhenArmed(st: WakeState, k: nat)
    requires k < |st.timers|
    requires !st.running && Fire(st, k).running
    ensures st.timers[k] == RestartAfterStop
    ensures st.listening && st.hasRecognizer && !st.intentionallyStopped
  {
  }

  /** `onerror` schedules a retry only while listening, and the retry re-checks listening when it fires. */
  lemma RetryOnlyWhileListening(st: WakeState, k: nat)
    ensures |OnError(st).timers| == if st.listening then |st.timers| + 1 else |st.timers|
    ensures k < |st.timers| && st.timers[k] == RetryAfterError && !st.listening
            ==> Fire(st, k) == st.(timers := RemoveAt(st.timers, k))
  {
  }

  /** What the browser and the clock can do to a hook that nobody starts again. */
  datatype WakeEvent = Result(transcripts: seq<string>, resultIndex: nat) | Ended | Errored | Fired(k: nat)

  /** One event; a firing of a timer that is not pending cannot happen and changes nothing. */
  function Step(st: WakeState, e: WakeEvent, wakeWord: string): WakeState {
    match e
    case Result(ts, i) => OnResult(st, ts, i, wakeWord)
    case Ended => OnEnd(st)
    case Errored => OnError(st)
    case Fired(k) => if k < |st.timers| then Fire(st, k) else st
  }

  function Run(st: WakeState, es: seq<WakeEvent>, wakeWord: string): WakeState
    decreases |es|
  {
    if es == [] then st else Run(Step(st, es[0], wakeWord), es[1..], wakeWord)
  }

  /**
   * Once the hook is not listening, no sequence of recognizer events and timer
   * firings makes it listen again or starts a recognizer that was not running:
   * after `stopDetection`, no restart fires until `startDetection`.
   */
  lemma {:induction false} NoRestartAfterStop(st: WakeState, es: seq<WakeEvent>, wakeWord: string)
    requires !st.listening
    ensures !Run(st, es, wakeWord).listening
    ensures Run(st, es, wakeWord).running ==> st.running
    decreases |es|
  {
    if es != [] {
      var next := Step(st, es[0], wakeWord);
      assert !next.listening && (next.running ==> st.running);
      NoRestartAfterStop(next, es[1..], wakeWord);
    }
  }

  lemma StopThenQuiet(st: WakeState, es: seq<WakeEvent>, wakeWord: string)
    ensures !Run(Stop(st), es, wakeWord).listening
    ensures Run(Stop(st), es, wakeWord).running ==> st.running
  {
    NoRestartAfterStop(Stop(st), es, wakeWord);
  }

  // ---------------------------------------------------------------------------
  // The hook as an object

  class WakeWordDetection {
    const wakeWord: string
    /** Whether `window.SpeechRecognition` (or the webkit one) exists. */
    const supported: bool

    var hasRecognizer: bool
    var listening: bool
    var intentionallyStopped: bool
    var running: bool
    var timers: seq<WakeTimer>
    var detections: nat

    function State(): WakeState
      reads this
    {
      WakeState(hasRecognizer, listening, intentionallyStopped, running, timers, detections)
    }

    /** The refs' initial values (lines 4-8). */
    constructor (wakeWord: string, supported: bool)
      ensures this.wakeWord == wakeWord && this.supported == supported
      ensures State() == WakeState(false, false, false, false, [], 0)
    {
      this.wakeWord := wakeWord;
      this.supported := supported;
      hasRecognizer := false;
      listening := false;
      intentionallyStopped := false;
      running := false;
      timers := [];
      detections := 0;
    }

    method StartDetection()
      modifies this
      ensures State() == Start(old(State()), supported)
    {
      listening := true;
      intentionallyStopped := false;
      if !hasRecognizer {
        hasRecognizer := supported;
      }
      if hasRecognizer {
        running := true;
      }
    }

    method StopDetection()
      modifies this
      ensures State() == Stop(old(State()))
    {
      listening := false;
      intentionallyStopped := true;
    }

    method RestartRecognition()
      modifies this
      ensures State() == Restart(old(State()))
    {
      if !hasRecognizer {
        return;
      }
      timers := timers + [RestartAfterStop];
    }

    method OnResultEvent(transcripts: seq<string>, resultIndex: nat)
      modifies this
      ensures State() == OnResult(old(State()), transcripts, resultIndex, wakeWord)
    {
      var i := resultIndex;
      while i < |transcripts|
        invariant resultIndex <= i
        invariant FirstMatch(transcripts, resultIndex, wakeWord) == FirstMatch(transcripts, i, wakeWord)
        invariant State() == old(State())
      {
        if DetectWakeWord(transcripts[i], wakeWord) {
          intentionallyStopped := true;
          timers := timers + [NotifyDetected];
          break;
        }
        i := i + 1;
      }
      if listening && !intentionallyStopped {
        RestartRecognition();
      }
    }

    method OnErrorEvent()
      modifies this
      ensures State() == OnError(old(State()))
    {
      if listening {
        timers := timers + [RetryAfterError];
      }
    }

    method OnEndEvent()
      modifies this
      ensures State() == OnEnd(old(State()))
    {
      running := false;
      if intentionallyStopped {
        intentionallyStopped := false;
        return;
      }
      if listening {
        RestartRecognition();
      }
    }

    /** The timer at position k of the pending list fires. */
    method FireTimer(k: nat)
      requires k < |timers|
      modifies this
      ensures State() == Fire(old(State()), k)
    {
      var t := timers[k];
      timers := RemoveAt(timers, k);
      match t
      case RestartAfterStop =>
        if listening && hasRecognizer && !intentionallyStopped {
          running := true;
        }
      case RetryAfterError =>
        if listening {
          RestartRecognition();
        }
      case NotifyDetected =>
        detections := detections + 1;
    }
  }
}
