/**
 * The pure parts of VoiceCommandApp.js around speech recognition and the
 * websocket channel: which final results of an `onresult` event become
 * commands (lines 145-183), the reconnect delay of `onclose` (lines 597-602)
 * and the messages of the recognizer's `onerror` (lines 200-224).
 */
module Recognition {
  import opened Text

  /** `event.results[i]`: the first alternative's transcript and `isFinal`. */
  datatype RecognitionResult = RecognitionResult(transcript: string, isFinal: bool)

  const MinCommandLength: nat := 3

  /** Line 151: a final result is a command when its trimmed transcript has at least 3 characters. */
  predicate IsCommand(r: RecognitionResult) {
    r.isFinal && |Trim(r.transcript)| >= MinCommandLength
  }

  /**
   * The trimmed commands among `results[from..i]`, in order: what the loop of
   * lines 145-183 sends when it has reached index i.
   */
  function Commands(results: seq<RecognitionResult>, from: nat, i: nat): (cs: seq<string>)
    requires i <= |results|
    decreases i
  {
    if i <= from then []
    else
      var r := results[i - 1];
      Commands(results, from, i - 1) + (if IsCommand(r) then [Trim(r.transcript)] else [])
  }

  /** The concatenated interim transcripts of `results[from..i]` (line 181). */
  function Interim(results: seq<RecognitionResult>, from: nat, i: nat): (t: string)
    requires i <= |results|
    decreases i
  {
    if i <= from then ""
    else
      var r := results[i - 1];
      Interim(results, from, i - 1) + (if r.isFinal then "" else r.transcript)
  }

  /** Trimming is idempotent: the text of a command survives a second `trim`. */
  lemma TrimTwice(s: string)
    ensures Trim(Trim(s)) == Trim(s)
  {
    var _, _ := TrimSpec(s);
    TrimNoEdges(Trim(s));
  }

  /** Result k is a final result whose trimmed transcript `c` is long enough to send. */
  predicate CommandAt(results: seq<RecognitionResult>, k: nat, c: string)
    requires k < |results|
  {
    IsCommand(results[k]) && Trim(results[k].transcript) == c
  }

  /** Every command comes from a final result in range (no command is made up). */
  lemma {:induction false} CommandsFromResults(results: seq<RecognitionResult>, from: nat, i: nat, c: string)
    requires i <= |results| && c in Commands(results, from, i)
    ensures exists k :: from <= k < i && CommandAt(results, k, c)
  {
    var r := results[i - 1];
    var tail := if IsCommand(r) then [Trim(r.transcript)] else [];
    assert Commands(results, from, i) == Commands(results, from, i - 1) + tail;
    if c in Commands(results, from, i - 1) {
      CommandsFromResults(results, from, i - 1, c);
    } else {
      assert CommandAt(results, i - 1, c);
    }
  }

  /** Every final result in range with a trimmed transcript of at least 3 characters is sent. */
  lemma {:induction false} ResultsBecomeCommands(results: seq<RecognitionResult>, from: nat, i: nat, k: nat)
    requires i <= |results| && from <= k < i && IsCommand(results[k])
    ensures Trim(results[k].transcript) in Commands(results, from, i)
  {
    var r := results[i - 1];
    var tail := if IsCommand(r) then [Trim(r.transcript)] else [];
    assert Commands(results, from, i) == Commands(results, from, i - 1) + tail;
    if k < i - 1 {
      ResultsBecomeCommands(results, from, i - 1, k);
    }
  }

  /** Every command has at least 3 characters and no whitespace at either end. */
  lemma {:induction false} CommandsTrimmed(results: seq<RecognitionResult>, from: nat, i: nat)
    requires i <= |results|
    ensures forall c :: c in Commands(results, from, i) ==> |c| >= MinCommandLength && Trim(c) == c
  {
    if i > from {
      CommandsTrimmed(results, from, i - 1);
      TrimTwice(results[i - 1].transcript);
    }
  }

  /** Every final result in range either is one of the commands or is too short. */
  lemma {:induction false} ShortFinalsDropped(results: seq<RecognitionResult>, from: nat, i: nat)
    requires i <= |results|
    requires forall k :: from <= k < i ==> !IsCommand(results[k])
    ensures Commands(results, from, i) == []
  {
    if i > from {
      ShortFinalsDropped(results, from, i - 1);
    }
  }

  /** The transcripts of a run of results, in order. */
  function Transcripts(rs: seq<RecognitionResult>): (ts: seq<string>)
    ensures |ts| == |rs| && forall k :: 0 <= k < |rs| ==> ts[k] == rs[k].transcript
  {
    seq(|rs|, k requires 0 <= k < |rs| => rs[k].transcript)
  }

  /** The strings of `ts` joined front to back. */
  function JoinAll(ts: seq<string>): string
    decreases |ts|
  {
    if ts == [] then "" else ts[0] + JoinAll(ts[1..])
  }

  lemma {:induction false} JoinAllSnoc(ts: seq<string>, t: string)
    ensures JoinAll(ts + [t]) == JoinAll(ts) + t
    decreases |ts|
  {
    if ts == [] {
      assert ts + [t] == [t];
    } else {
      assert (ts + [t])[1..] == ts[1..] + [t];
      JoinAllSnoc(ts[1..], t);
    }
  }

  /**
   * Interim results carry no command, and the transcript shown is all of
   * their transcripts joined in order (line 181).
   */
  lemma {:induction false} InterimOnlyNoCommands(results: seq<RecognitionResult>, from: nat, i: nat)
    requires i <= |results|
    requires forall k :: from <= k < i ==> !results[k].isFinal
    ensures Commands(results, from, i) == []
    ensures from <= i ==> Interim(results, from, i) == JoinAll(Transcripts(results[from..i]))
    decreases i
  {
    if i > from {
      InterimOnlyNoCommands(results, from, i - 1);
      var prev := Transcripts(results[from..i - 1]);
      var t := results[i - 1].transcript;
      assert Transcripts(results[from..i]) == prev + [t] by {
        var all := Transcripts(results[from..i]);
        assert |all| == |prev| + 1;
        forall k | 0 <= k < |all| ensures all[k] == (prev + [t])[k] {
          assert results[from..i][k] == results[from + k];
          if k < |prev| {
            assert results[from..i - 1][k] == results[from + k];
          }
        }
      }
      JoinAllSnoc(prev, t);
    } else if from == i {
      assert Transcripts(results[from..i]) == [];
    }
  }

  // ---------------------------------------------------------------------------
  // Reconnect delay

  function Pow2(n: nat): (p: nat)
    ensures p >= 1
  {
    if n == 0 then 1 else 2 * Pow2(n - 1)
  }

  const MaxReconnectDelay: nat := 30000

  /** Line 602: `Math.min(1000 * Math.pow(2, attempts), 30000)`. */
  function BackoffDelay(attempts: nat): (d: nat)
    ensures d <= MaxReconnectDelay
    ensures d == MaxReconnectDelay || d == 1000 * Pow2(attempts)
    ensures d <= 1000 * Pow2(attempts)
  {
    if 1000 * Pow2(attempts) <= MaxReconnectDelay then 1000 * Pow2(attempts) else MaxReconnectDelay
  }

  /** The delays of the first six reconnect attempts. */
  lemma BackoffTable()
    ensures BackoffDelay(1) == 2000 && BackoffDelay(2) == 4000 && BackoffDelay(3) == 8000
    ensures BackoffDelay(4) == 16000 && BackoffDelay(5) == 30000 && BackoffDelay(6) == 30000
  {
    assert Pow2(5) == 32;
    assert Pow2(6) == 64;
  }

  lemma {:induction false} Pow2Monotone(a: nat, b: nat)
    requires a <= b
    ensures Pow2(a) <= Pow2(b)
    decreases b
  {
    if a < b {
      Pow2Monotone(a, b - 1);
    }
  }

  /** From the fifth attempt on, the delay stays at the 30-second cap. */
  lemma BackoffCapped(attempts: nat)
    requires attempts >= 5
    ensures BackoffDelay(attempts) == MaxReconnectDelay
  {
    Pow2Monotone(5, attempts);
    assert Pow2(5) == 32;
  }

  /** More attempts never shorten the wait. */
  lemma BackoffMonotone(a: nat, b: nat)
    requires a <= b
    ensures BackoffDelay(a) <= BackoffDelay(b)
  {
    Pow2Monotone(a, b);
  }

  // ---------------------------------------------------------------------------
  // Recognizer error messages

  const NoSpeechMessage := "No speech was detected. Please try again."
  const AudioCaptureMessage := "Audio capture failed. Please check your microphone."
  // Two literals joined: a single literal this long is more than the verifier indexes into.
  const NotAllowedMessage := "Permission to use microphone was denied." + " Please allow microphone access."
  const ServiceNotAllowedMessage := "Speech service not allowed. Please check your browser settings."
  const BadGrammarMessage := "Grammar error. Please try rephrasing."
  const LanguageMessage := "Selected language is not supported."
  const GenericPrefix := "Speech recognition error: "

  predicate IsKnownError(code: string) {
    code in {"no-speech", "audio-capture", "not-allowed", "service-not-allowed", "bad-grammar", "language-not-supported"}
  }

  predicate HasGenericPrefix(msg: string) {
    |GenericPrefix| <= |msg| && msg[..|GenericPrefix|] == GenericPrefix
  }

  /** Lines 200-224: the message shown for `event.error`. */
  function RecognitionErrorMessage(code: string): string {
    match code
    case "no-speech" => NoSpeechMessage
    case "audio-capture" => AudioCaptureMessage
    case "not-allowed" => NotAllowedMessage
    case "service-not-allowed" => ServiceNotAllowedMessage
    case "bad-grammar" => BadGrammarMessage
    case "language-not-supported" => LanguageMessage
    case _ => GenericPrefix + code
  }

  /**
   * The six known codes get their own message, none of which reads like the
   * generic one; any other code is reported after the generic prefix.
   */
  lemma RecognitionErrorMessageSpec(code: string)
    ensures IsKnownError(code) <==> !HasGenericPrefix(RecognitionErrorMessage(code))
    ensures !IsKnownError(code) ==> RecognitionErrorMessage(code) == GenericPrefix + code
  {
    KnownMessagesNotGeneric();
    if !IsKnownError(code) {
      assert (GenericPrefix + code)[..|GenericPrefix|] == GenericPrefix;
    }
  }

  /** A message that differs from the generic prefix at one of its indices does not start with it. */
  lemma DiffersFromGeneric(m: string, k: nat)
    requires k < |GenericPrefix| <= |m| && m[k] != GenericPrefix[k]
    ensures !HasGenericPrefix(m)
  {
  }

  lemma AudioCaptureNotGeneric()
    ensures !HasGenericPrefix(AudioCaptureMessage)
  {
    DiffersFromGeneric(AudioCaptureMessage, 10);
  }

  lemma ServiceNotAllowedNotGeneric()
    ensures !HasGenericPrefix(ServiceNotAllowedMessage)
  {
    DiffersFromGeneric(ServiceNotAllowedMessage, 23);
  }

  lemma NotAllowedNotGeneric()
    ensures !HasGenericPrefix(NotAllowedMessage)
  {
    DiffersFromGeneric(NotAllowedMessage, 0);
  }

  /** No message of a known code starts like the generic one. */
  lemma KnownMessagesNotGeneric()
    ensures !HasGenericPrefix(NoSpeechMessage) && !HasGenericPrefix(AudioCaptureMessage)
    ensures !HasGenericPrefix(NotAllowedMessage) && !HasGenericPrefix(ServiceNotAllowedMessage)
    ensures !HasGenericPrefix(BadGrammarMessage) && !HasGenericPrefix(LanguageMessage)
  {
    DiffersFromGeneric(NoSpeechMessage, 0);
    DiffersFromGeneric(BadGrammarMessage, 0);
    DiffersFromGeneric(LanguageMessage, 1);
    AudioCaptureNotGeneric();
    ServiceNotAllowedNotGeneric();
    NotAllowedNotGeneric();
  }

  /** Different error codes give different messages: the message identifies the error. */
  lemma ErrorMessageInjective(a: string, b: string)
    requires RecognitionErrorMessage(a) == RecognitionErrorMessage(b)
    ensures a == b
  {
    RecognitionErrorMessageSpec(a);
    RecognitionErrorMessageSpec(b);
    if !IsKnownError(a) {
      var n := |GenericPrefix|;
      assert (GenericPrefix + a)[n..] == a;
      assert (GenericPrefix + b)[n..] == b;
    } else {
      assert |NoSpeechMessage| == 41 && |AudioCaptureMessage| == 51 && |NotAllowedMessage| == 72;
      assert |ServiceNotAllowedMessage| == 63 && |BadGrammarMessage| == 37 && |LanguageMessage| == 35;
    }
  }
}
