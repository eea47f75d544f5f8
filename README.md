# dia-web voice client, modelled in Dafny

The web client of Dia is a voice assistant in the browser. A speech recognizer
turns what the user says into commands. Each command goes over a websocket to a
chat API, together with the last few turns of the conversation. The reply is
cleaned up for speech synthesis and spoken aloud. While the reply is spoken, the
recognizer's results are ignored so that the assistant does not hear itself.
Optionally, a second recognizer listens for a wake word first.

This project models the logic of `VoiceCommandApp.js` and of the
`useWakeWordDetection` hook, and proves what they promise:

- `text.dfy` (module `Text`): the string primitives the code relies on. These are
  the JavaScript whitespace set, `trim`, ASCII `toLowerCase` and `includes`,
  each with a lemma that says what it computes.
- `tts.dfy` (module `Tts`): `processForTTS`. Every `.replace` with a global
  regular expression is written as a left-to-right scan, one function per
  source line, in source order. The results say that:
  - each step does what its expression says: a span loses its markers and
    keeps its text, a link keeps its label, a heading marker goes with one
    whitespace character, a run becomes its replacement, an abbreviation
    becomes its word, whitespace before a mark moves behind it;
  - plain text passes every step unchanged, and the whole pipeline keeps the
    text of bold, inline code, strikethrough, links and headings;
  - the output is single-spaced and trimmed, and keeps every character other
    than whitespace that reaches the last step;
  - as written, the steps let two dots meet and leave multi-line code blocks
    in place (see Findings).
- `conversation.dfy` (module `Conversation`): the two logs, which are kept
  newest first and capped at 100 entries. Also the context window sent with
  every command, built from a stable sort by timestamp, the five latest
  entries, a filter and the command.
- `recognition.dfy` (module `Recognition`):
  - which final recognition results become commands;
  - the reconnect backoff delay;
  - the recognizer's error messages.
- `wake_word.dfy` (module `WakeWord`): `detectWakeWord`, and the hook's flag
  machine as pure transitions. The class `WakeWordDetection` updates the same
  flags in place. Pending `setTimeout`s are values that a later `Fire` runs. The
  browser recognizer is reduced to a "running" bit.
- `session.dfy` (module `Session`): the component as a state machine.
  - Every browser callback is a function from the state before to the state
    after: recognizer results, errors and end; socket open, message, error and
    close; the end of speech; the send timers; the reconnect timer.
  - The class `VoiceCommandApp` holds the refs in fields, and each method is
    proved to update them as its function says.
  - An invariant `Valid` holds in every reachable state: the logs stay capped
    and role-pure, only trimmed commands of at least 3 characters are logged,
    queued or sent, and every outgoing payload is well formed.
  - Further lemmas cover the speaking guard, the dispatch on `readyState`, the
    backoff schedule, and the commands a batch of results produces.

Outputs that leave the program are recorded, not performed. Each write to the
socket is kept as an `Outgoing` value, and its `messages` array is
`Payload(o)`, the context window of the logs as they were at that moment. Each
reply handed to speech synthesis is kept as text, and the utterance is
`Utterance` of it: `processForTTS` as written (line 452), not the corrected
pipeline of the Findings.

The history updates of `onresult` are deferred, as React runs them. The
functions passed to `setCommandHistory` (lines 155-160) run when the
component renders, after the handler has returned, and only then set
`commandHistoryRef`. So every command of a batch is sent with the logs as
they were before the event, and the new entries are prepended afterwards,
in order. The class method `HandleResults` queues them and
`ApplyHistoryUpdates` runs the queue.

Two behaviours of the code are easy to misread, and the model follows the code:

- The attempt counter is not reset when a socket opens: `onopen` (lines
  501-505) only marks the socket connected and clears the error. Only a close
  with a code other than 1006 resets it.
- A run of `,;:` always collapses to `,` (line 775), whatever mark the run
  starts with. The comment on that line only says "Reduce multiple
  punctuation".

## Model

| member | source | states |
|---|---|---|
| Text.Lower | dia-web/src/hooks/useWakeWordDetection.js:102-103 | lower-casing keeps the length and maps each character on its own, letters A-Z to a-z |
| Text.TrimSpec | dia-web/src/components/VoiceCommandApp.js:150 | `trim` returns a slice s[a..b]: everything cut off is whitespace, and a non-empty result neither starts nor ends with whitespace |
| Text.TrimStartSpec | dia-web/src/components/VoiceCommandApp.js:786 | the leading cut is exactly the leading run of whitespace |
| Text.TrimEndSpec | dia-web/src/components/VoiceCommandApp.js:786 | the trailing cut is exactly the trailing run of whitespace |
| Text.TrimEmpty | dia-web/src/hooks/useWakeWordDetection.js:103 | `trim` gives "" exactly when every character is whitespace |
| Text.TrimNoEdges | dia-web/src/components/VoiceCommandApp.js:150 | a string with no whitespace at either end is its own trim |
| Text.ContainsSpec | dia-web/src/hooks/useWakeWordDetection.js:108 | `includes(w)` holds if and only if w occurs at some position of s |
| Tts.FindCloseSpec | dia-web/src/components/VoiceCommandApp.js:748-755 | the lazy `(.*?)` ends at the first delimiter reached without crossing a line terminator (any delimiter, for `[\s\S]`); it finds none exactly when there is no such delimiter |
| Tts.FindCloseStopsAtLine | dia-web/src/components/VoiceCommandApp.js:748-750 | a line terminator before any delimiter makes the lazy group fail |
| Tts.FindCloseOver | dia-web/src/components/VoiceCommandApp.js:748-755 | the lazy group ends at a delimiter when nothing before it starts one or, without `[\s\S]`, ends the line |
| Tts.StripDelimitedSpan | dia-web/src/components/VoiceCommandApp.js:748-755 | in a text with one span `d w d` and no other opening character, the span becomes `w` (bold, italic, inline code, strikethrough) or nothing (code block), and the text around it is kept |
| Tts.StripDelimitedKeepsPlain | dia-web/src/components/VoiceCommandApp.js:748-755 | text without the opening character of the delimiter is unchanged |
| Tts.StripLinksLabel | dia-web/src/components/VoiceCommandApp.js:751 | in a text with one link `[l](u)` on one line and no other `[`, the link becomes its label `l` |
| Tts.StripLinksKeepsPlain | dia-web/src/components/VoiceCommandApp.js:751 | text without `[` is unchanged |
| Tts.HashesEnd | dia-web/src/components/VoiceCommandApp.js:752 | the greedy `#{1,6}` takes every `#` up to six: it stops after six, at the end of the text or at a character other than `#` |
| Tts.StripHeading | dia-web/src/components/VoiceCommandApp.js:752 | in a text with one marker of one to six `#` and no other `#`, the marker and one whitespace character after it are removed |
| Tts.StripHeadingsKeepsPlain | dia-web/src/components/VoiceCommandApp.js:752 | text without `#` is unchanged |
| Tts.CollapseRunsRun | dia-web/src/components/VoiceCommandApp.js:772-775 | in a text with one run of two or more class members and no other member, the run becomes the replacement and the rest is kept |
| Tts.CollapseRunsKeepsPlain | dia-web/src/components/VoiceCommandApp.js:772-775 | text with no two neighbouring class members is unchanged |
| Tts.ExpandReplaces | dia-web/src/components/VoiceCommandApp.js:758-768 | an abbreviation in any letter case, at a word boundary on its left and followed by a word character, becomes its word, and the text around it is kept, provided neither side holds another `.` (which could start or end a second match) |
| Tts.DoctorAfterWord | dia-web/src/components/VoiceCommandApp.js:765 | "see Dr.Smith" becomes "see DoctorSmith": the match needs a word character after the dot, not a space |
| Tts.ExpandKeepsPlain | dia-web/src/components/VoiceCommandApp.js:758-768 | text where no abbreviation matches is unchanged |
| Tts.NoAbbreviationWithout | dia-web/src/components/VoiceCommandApp.js:759-768 | an abbreviation needs a `.` directly followed by a word character, so text with no such pair is unchanged |
| Tts.SpaceBeforeMoves | dia-web/src/components/VoiceCommandApp.js:776-781 | in a text whose only whitespace is one run before the mark, the run becomes the mark followed by one space |
| Tts.SpaceBeforeNoMark | dia-web/src/components/VoiceCommandApp.js:776-781 | from any position, text with no whitespace directly before the mark is copied, whitespace included |
| Tts.SpaceBeforeKeepsPlain | dia-web/src/components/VoiceCommandApp.js:776-781 | text with no whitespace directly before the mark is unchanged |
| Tts.CollapseWhitespaceFrom | dia-web/src/components/VoiceCommandApp.js:785 | the result is empty only for empty input, and starts with the first character, or with a space where that is whitespace |
| Tts.CollapseWhitespaceSingleSpaced | dia-web/src/components/VoiceCommandApp.js:785 | the result is single-spaced: its only whitespace is plain spaces, and no two are adjacent |
| Tts.CollapseWhitespaceRun | dia-web/src/components/VoiceCommandApp.js:785 | in a text with one run of whitespace, the run becomes one space and the rest is kept |
| Tts.CollapseWhitespaceVisible | dia-web/src/components/VoiceCommandApp.js:785 | every character other than whitespace is kept, in order |
| Tts.CollapseSingleSpaced | dia-web/src/components/VoiceCommandApp.js:785 | single-spaced text is unchanged |
| Tts.NormalizeWhitespace | dia-web/src/components/VoiceCommandApp.js:784-786 | the result is single-spaced, with no whitespace at either end |
| Tts.NormalizeKeepsVisible | dia-web/src/components/VoiceCommandApp.js:784-786 | every character other than whitespace is kept, in order |
| Tts.NormalizeSpeakable | dia-web/src/components/VoiceCommandApp.js:784-786 | text already single-spaced and trimmed is unchanged |
| Tts.ProcessForTts | dia-web/src/components/VoiceCommandApp.js:741-789 | an empty reply gives ""; any output is single-spaced with no whitespace at either end |
| Tts.PlainTextKeepsMarkdown | dia-web/src/components/VoiceCommandApp.js:747-755 | text without `*`, backtick, `[`, `]`, `#`, newline or `~` passes each markdown step unchanged |
| Tts.PlainTextKeepsAbbreviations | dia-web/src/components/VoiceCommandApp.js:758-768 | text with no `.` directly before a word character passes all ten expansions unchanged |
| Tts.ProseAfterMarkdown | dia-web/src/components/VoiceCommandApp.js:758-786 | prose passes the abbreviation, punctuation and whitespace steps unchanged. Prose means: no markdown character; single inner spaces and none at either end; no two dots, bangs, question marks or clause marks side by side; no whitespace before a mark; no `.` directly before a word character |
| Tts.ProseSpokenAsIs | dia-web/src/components/VoiceCommandApp.js:741-789 | prose, punctuation included, is spoken exactly as written |
| Tts.ProseJoin | dia-web/src/components/VoiceCommandApp.js:741-789 | two pieces of prose joined by one space are prose when the second does not start with a mark, so sentences can be built up and are spoken as written |
| Tts.SentencesSpokenAsIs | dia-web/src/components/VoiceCommandApp.js:741-789 | the reply "Yes, done. Thanks!" is spoken unchanged |
| Tts.BoldSpokenAsText | dia-web/src/components/VoiceCommandApp.js:748 | `a**w**b` is spoken as `a` `w` `b` joined whenever that joined text is prose: the markers go, the text stays |
| Tts.BoldDoneSpoken | dia-web/src/components/VoiceCommandApp.js:748 | the reply "**Done!**" is spoken as "Done!" |
| Tts.InlineCodeSpokenAsText | dia-web/src/components/VoiceCommandApp.js:750 | `a`+backtick+`w`+backtick+`b` is spoken as `a` `w` `b` joined whenever that joined text is prose |
| Tts.StrikeSpokenAsText | dia-web/src/components/VoiceCommandApp.js:755 | `a~~w~~b` is spoken as `a` `w` `b` joined whenever that joined text is prose |
| Tts.LinkSpokenAsLabel | dia-web/src/components/VoiceCommandApp.js:751 | `a[l](u)b` is spoken as `a` `l` `b` joined whenever that joined text is prose and `u` has no `*`, backtick, `)` or line break: the link keeps its label and loses its target |
| Tts.HeadingSpokenAsText | dia-web/src/components/VoiceCommandApp.js:752 | a heading marker of one to six `#` is dropped with one whitespace character after it, and the rest is spoken unchanged whenever it is prose |
| Tts.FencedCodeKept | dia-web/src/components/VoiceCommandApp.js:747-755 | as written, a code block whose body spans lines is not removed: it is kept between two single backticks |
| Tts.FencedCodeRemoved | dia-web/src/components/VoiceCommandApp.js:747-755 | with the code-block step first, a code block is removed whole and the text around it, free of markdown characters and line breaks, is kept |
| Tts.ProcessForTtsCorrected | dia-web/src/components/VoiceCommandApp.js:747-786 | with the code-block step first and the collapse repeated after the spacing, the output is speakable and free of adjacent dots, bangs, question marks and clause marks |
| Tts.TrimSpeakable | dia-web/src/components/VoiceCommandApp.js:786 | trimming single-spaced text leaves it speakable |
| Tts.CollapseRunsSeparates | dia-web/src/components/VoiceCommandApp.js:772-775 | after collapsing a class to one member, no two members are adjacent |
| Tts.CollapseRunsKeepsApart | dia-web/src/components/VoiceCommandApp.js:772-775 | collapsing one class keeps apart characters of a disjoint class |
| Tts.CollapseWhitespaceKeepsApart | dia-web/src/components/VoiceCommandApp.js:785 | collapsing whitespace never brings two non-space class members together |
| Tts.CollapsePunctuationSeparates | dia-web/src/components/VoiceCommandApp.js:772-775 | after lines 772-775 no two dots, bangs, question marks or clause marks touch |
| Tts.NormalizeKeepsApart | dia-web/src/components/VoiceCommandApp.js:784-786 | whitespace normalisation keeps non-space class members apart |
| Tts.CollapsedStaysSeparated | dia-web/src/components/VoiceCommandApp.js:772-786 | collapse then normalise leaves no two marks of one kind side by side |
| Tts.DotsAndSpacesArePlain | dia-web/src/components/VoiceCommandApp.js:747-768 | dots and spaces pass the markdown and abbreviation steps unchanged |
| Tts.DotsAndSpacesProcessed | dia-web/src/components/VoiceCommandApp.js:741-789 | for dots and spaces only the punctuation and whitespace steps act |
| Tts.DotsAndSpacesProcessedCorrected | dia-web/src/components/VoiceCommandApp.js:770-786 | the same for the corrected pipeline |
| Tts.SpacedDotsNotCollapsed | dia-web/src/components/VoiceCommandApp.js:772 | ". ." has no run of dots for line 772 to collapse |
| Tts.SpaceBeforeDotJoins | dia-web/src/components/VoiceCommandApp.js:776 | line 776 turns ". ." into ".. " |
| Tts.SpacingJoinsDots | dia-web/src/components/VoiceCommandApp.js:776-781 | the spacing steps turn ". ." into ".. " |
| Tts.SimplifyJoinsDots | dia-web/src/components/VoiceCommandApp.js:771-781 | the punctuation block as written turns ". ." into ".. " |
| Tts.TrailingSpaceTrimmed | dia-web/src/components/VoiceCommandApp.js:784-786 | ".. " normalises to ".." |
| Tts.ProcessJoinsDots | dia-web/src/components/VoiceCommandApp.js:741-789 | as written, `processForTTS(". .")` is "..": two adjacent dots reach speech synthesis |
| Tts.DoubleDotSimplified | dia-web/src/components/VoiceCommandApp.js:772 | ".." collapses to "." |
| Tts.SingleDotNormalized | dia-web/src/components/VoiceCommandApp.js:784-786 | "." normalises to itself |
| Tts.DoubleDotCollapsed | dia-web/src/components/VoiceCommandApp.js:741-789 | `processForTTS("..")` is "." |
| Tts.ProcessNotIdempotent | dia-web/src/components/VoiceCommandApp.js:741-789 | as written, a second pass changes the output of ". ." again |
| Tts.JoinedDotsCollapsed | dia-web/src/components/VoiceCommandApp.js:772-775 | the repeated collapse turns ".. " into ". " |
| Tts.CorrectedSimplifyCollapses | dia-web/src/components/VoiceCommandApp.js:771-781 | the corrected punctuation block turns ". ." into ". " |
| Tts.TrailingSpaceAfterDotTrimmed | dia-web/src/components/VoiceCommandApp.js:784-786 | ". " normalises to "." |
| Tts.CorrectedCollapsesJoinedDots | dia-web/src/components/VoiceCommandApp.js:770-786 | the corrected pipeline speaks ". ." as "." |
| Conversation.Prepend | dia-web/src/components/VoiceCommandApp.js:156 | the new entry comes first, the length is min(100, old length + 1), and the rest is the old log's prefix unchanged |
| Conversation.PrependAllNewestFirst | dia-web/src/components/VoiceCommandApp.js:155-160 | several prepends leave the entries newest first, ahead of the old log, cut at 100 |
| Conversation.PrependAddsOnly | dia-web/src/components/VoiceCommandApp.js:536 | a prepend adds the new entry and nothing else |
| Conversation.PrependAllSnoc | dia-web/src/components/VoiceCommandApp.js:155-160 | the last entry prepended is at the head |
| Conversation.InsertByTime | dia-web/src/components/VoiceCommandApp.js:681 | inserting into a sorted log keeps it sorted and adds exactly the one entry |
| Conversation.InsertByTimeStable | dia-web/src/components/VoiceCommandApp.js:681 | insertion keeps the order of entries with equal timestamps, the new one last |
| Conversation.SortByTime | dia-web/src/components/VoiceCommandApp.js:680-681 | the sort is sorted by timestamp, a permutation, and stable |
| Conversation.Messages | dia-web/src/components/VoiceCommandApp.js:690-693 | each entry maps to its role and its text, in order |
| Conversation.Recent | dia-web/src/components/VoiceCommandApp.js:680-686 | `slice(-5)` of the sorted logs keeps min(5, n) entries, oldest first |
| Conversation.Without | dia-web/src/components/VoiceCommandApp.js:697-699 | the filter drops every copy of the command and keeps every other message with its multiplicity |
| Conversation.WithoutLength | dia-web/src/components/VoiceCommandApp.js:697-699 | the filter shortens the messages by the number of copies of the command |
| Conversation.WithoutIsSubsequence | dia-web/src/components/VoiceCommandApp.js:697-699 | the filter keeps the order |
| Conversation.WithoutNothing | dia-web/src/components/VoiceCommandApp.js:697-699 | when no message is the command, the filter keeps all |
| Conversation.ContextWindow | dia-web/src/components/VoiceCommandApp.js:677-705 | 1 to 6 messages, the command last; before it, every message of the five latest other than the command, each as often as there, in order |
| Conversation.RecentAreLatest | dia-web/src/components/VoiceCommandApp.js:677-686 | the window is drawn from both logs, and no entry left out is later than one kept |
| Conversation.SortedSuffixIsLatest | dia-web/src/components/VoiceCommandApp.js:680-686 | in a sorted sequence no entry before the cut is later than one after it |
| Conversation.WindowLength | dia-web/src/components/VoiceCommandApp.js:686-705 | the window holds min(5, n) + 1 messages less the copies of the command among the five latest |
| Recognition.TrimTwice | dia-web/src/components/VoiceCommandApp.js:150 | trimming is idempotent |
| Recognition.CommandsFromResults | dia-web/src/components/VoiceCommandApp.js:145-163 | every command comes from a final result in range whose trimmed transcript it is |
| Recognition.ResultsBecomeCommands | dia-web/src/components/VoiceCommandApp.js:148-163 | every final result in range with a trimmed transcript of 3 or more characters is a command |
| Recognition.CommandsTrimmed | dia-web/src/components/VoiceCommandApp.js:150-151 | every command has at least 3 characters and is its own trim |
| Recognition.ShortFinalsDropped | dia-web/src/components/VoiceCommandApp.js:164-168 | results that are all non-commands give no command |
| Recognition.InterimOnlyNoCommands | dia-web/src/components/VoiceCommandApp.js:180-182 | interim results give no command, and the interim text is their transcripts joined in order |
| Recognition.JoinAllSnoc | dia-web/src/components/VoiceCommandApp.js:181 | appending one more transcript appends its text |
| Recognition.BackoffDelay | dia-web/src/components/VoiceCommandApp.js:602 | the delay is 1000 * 2^attempts or the 30000 cap, whichever is smaller |
| Recognition.BackoffTable | dia-web/src/components/VoiceCommandApp.js:597-602 | attempts 1 to 6 wait 2000, 4000, 8000, 16000, 30000 and 30000 ms |
| Recognition.BackoffCapped | dia-web/src/components/VoiceCommandApp.js:602 | from the fifth attempt on the delay is 30000 |
| Recognition.BackoffMonotone | dia-web/src/components/VoiceCommandApp.js:602 | more attempts never shorten the delay |
| Recognition.RecognitionErrorMessageSpec | dia-web/src/components/VoiceCommandApp.js:200-224 | the six known codes get their own message, none starting like the generic one; any other code gets the generic prefix followed by the code |
| Recognition.ErrorMessageInjective | dia-web/src/components/VoiceCommandApp.js:200-224 | different codes give different messages |
| WakeWord.DetectWakeWord | dia-web/src/hooks/useWakeWordDetection.js:97-115 | an empty transcript or wake word never matches |
| WakeWord.LowerKeepsSpace | dia-web/src/hooks/useWakeWordDetection.js:102-103 | lower-casing keeps whitespace where it was |
| WakeWord.MatchAnywhere | dia-web/src/hooks/useWakeWordDetection.js:102-108 | a transcript holding the trimmed wake word anywhere, in any case, matches |
| WakeWord.TrimKeepsInner | dia-web/src/hooks/useWakeWordDetection.js:102-108 | a piece with no whitespace at its edges survives `trim` and is found by `includes` |
| WakeWord.BlankWakeWordMatchesAll | dia-web/src/hooks/useWakeWordDetection.js:99-108 | a whitespace-only wake word passes the guard and matches every non-empty transcript |
| WakeWord.CaseInsensitive | dia-web/src/hooks/useWakeWordDetection.js:102-108 | transcripts equal up to case match the same wake words |
| WakeWord.DefaultWakeWordInMiddle | dia-web/src/components/VoiceCommandApp.js:15 | "ok hey computer" matches the default wake word "hey" |
| WakeWord.FirstMatch | dia-web/src/hooks/useWakeWordDetection.js:35-56 | the loop stops at the first matching result; none before it matches, and None means none at all |
| WakeWord.StartStopFlags | dia-web/src/hooks/useWakeWordDetection.js:152-153 | start arms the flags; stop disarms them, is idempotent, and touches neither timers nor the running bit |
| WakeWord.DetectionStops | dia-web/src/hooks/useWakeWordDetection.js:40-62 | a match marks the stop as intentional, schedules one notification and no restart, and ignores later results |
| WakeWord.FirstMatchPrefix | dia-web/src/hooks/useWakeWordDetection.js:54 | the first match does not depend on the results after it |
| WakeWord.NoMatchRestarts | dia-web/src/hooks/useWakeWordDetection.js:58-62 | with no match, a listening and not intentionally stopped hook schedules exactly one restart |
| WakeWord.EndAfterStop | dia-web/src/hooks/useWakeWordDetection.js:80-85 | `onend` after an intentional stop clears the flag and restarts nothing |
| WakeWord.EndRestartsWhileListening | dia-web/src/hooks/useWakeWordDetection.js:86-90 | otherwise `onend` schedules a restart exactly when listening |
| WakeWord.FireStartsOnlyWhenArmed | dia-web/src/hooks/useWakeWordDetection.js:128-145 | a timer that starts the recognizer is a restart timer fired while listening, present and not intentionally stopped |
| WakeWord.RetryOnlyWhileListening | dia-web/src/hooks/useWakeWordDetection.js:65-76 | `onerror` schedules a retry only while listening, and the retry does nothing once listening is off |
| WakeWord.NoRestartAfterStop | dia-web/src/hooks/useWakeWordDetection.js:118-146 | once not listening, no sequence of events or timers makes it listen again or starts the recognizer |
| WakeWord.StopThenQuiet | dia-web/src/hooks/useWakeWordDetection.js:178-196 | after `stopDetection` no restart fires until the next start |
| WakeWord.WakeWordDetection.constructor | dia-web/src/hooks/useWakeWordDetection.js:4-8 | the refs start cleared |
| WakeWord.WakeWordDetection.StartDetection | dia-web/src/hooks/useWakeWordDetection.js:149-175 | updates the fields as `Start` |
| WakeWord.WakeWordDetection.StopDetection | dia-web/src/hooks/useWakeWordDetection.js:178-196 | updates the fields as `Stop` |
| WakeWord.WakeWordDetection.RestartRecognition | dia-web/src/hooks/useWakeWordDetection.js:118-146 | updates the fields as `Restart` |
| WakeWord.WakeWordDetection.OnResultEvent | dia-web/src/hooks/useWakeWordDetection.js:31-63 | the loop with its `break` updates the fields as `OnResult` |
| WakeWord.WakeWordDetection.OnErrorEvent | dia-web/src/hooks/useWakeWordDetection.js:65-76 | updates the fields as `OnError` |
| WakeWord.WakeWordDetection.OnEndEvent | dia-web/src/hooks/useWakeWordDetection.js:78-91 | updates the fields as `OnEnd` |
| WakeWord.WakeWordDetection.FireTimer | dia-web/src/hooks/useWakeWordDetection.js:128-145 | updates the fields as `Fire` |
| Session.Send | dia-web/src/components/VoiceCommandApp.js:623-664 | sending touches neither the UI nor the logs nor the reconnect state, and records the request |
| Session.InitValid | dia-web/src/components/VoiceCommandApp.js:9-37 | the initial state satisfies the invariant |
| Session.PayloadWellFormed | dia-web/src/components/VoiceCommandApp.js:677-705 | the messages of a write are 1 to 6, ending with the user message of its own command |
| Session.ActuallySendValid | dia-web/src/components/VoiceCommandApp.js:666-720 | a write keeps the invariant |
| Session.CheckConnectionValid | dia-web/src/components/VoiceCommandApp.js:634-647 | a connection check keeps the invariant |
| Session.SendValid | dia-web/src/components/VoiceCommandApp.js:623-664 | sending a command keeps the invariant |
| Session.FireSendTimerValid | dia-web/src/components/VoiceCommandApp.js:640 | a poll or retry firing keeps the invariant |
| Session.HandleResultValid | dia-web/src/components/VoiceCommandApp.js:148-176 | handling one result keeps the invariant |
| Session.ScanValid | dia-web/src/components/VoiceCommandApp.js:145-183 | the result loop keeps the invariant |
| Session.PrependAllUserLog | dia-web/src/components/VoiceCommandApp.js:155-160 | prepending entries of trimmed commands keeps the history capped and made of trimmed commands |
| Session.OnResultsValid | dia-web/src/components/VoiceCommandApp.js:135-195 | `onresult`, with its deferred history updates, keeps the invariant |
| Session.OnSocketMessageValid | dia-web/src/components/VoiceCommandApp.js:507-556 | a message keeps the invariant |
| Session.StepValid | dia-web/src/components/VoiceCommandApp.js:135-237 | every event keeps the invariant |
| Session.RunValid | dia-web/src/components/VoiceCommandApp.js:490-664 | the invariant holds after any sequence of events |
| Session.SpeakingIgnoresResults | dia-web/src/components/VoiceCommandApp.js:138-141 | while speaking, `onresult` changes nothing |
| Session.MessageSetsSpeaking | dia-web/src/components/VoiceCommandApp.js:509-555 | after a message the flag is set if and only if there was no reply, or a non-empty reply that is being spoken |
| Session.DeafWhileSpeaking | dia-web/src/components/VoiceCommandApp.js:138-141 | while speaking and until a message or the end of speech, the transcript and the command history do not change |
| Session.ReplySpokenThenHeard | dia-web/src/components/VoiceCommandApp.js:526-547 | a reply is logged first and handed once to speech, which speaks it as single-spaced text with no whitespace at either end; after speech, results are heard again |
| Session.UserEntries | dia-web/src/components/VoiceCommandApp.js:154 | one user entry per command, in order, stamped with the event's time |
| Session.ScanSends | dia-web/src/components/VoiceCommandApp.js:145-183 | the loop sends exactly the commands, in order, and leaves both logs as they were |
| Session.OnResultsLogs | dia-web/src/components/VoiceCommandApp.js:135-195 | after `onresult`, the requests end with the commands and the history holds them newest first, ahead of the old entries, cut at 100 |
| Session.CommandSentWithEarlierLogs | dia-web/src/components/VoiceCommandApp.js:152-163 | a command heard while the socket is open goes out with the logs as they were before the event, without its own entry |
| Session.ScanInterimOnly | dia-web/src/components/VoiceCommandApp.js:180-182 | interim results leave the state alone |
| Session.ScanFinalStops | dia-web/src/components/VoiceCommandApp.js:170-173 | any final result ends listening and processing |
| Session.FinalResultOutcome | dia-web/src/components/VoiceCommandApp.js:148-173 | a final result is logged and sent once if and only if its trimmed text has 3 or more characters; otherwise only the transcript and flags clear |
| Session.AbnormalClosesBackOff | dia-web/src/components/VoiceCommandApp.js:597-608 | each 1006 close counts one attempt and leaves one reconnect pending with that attempt's delay |
| Session.BackoffSchedule | dia-web/src/components/VoiceCommandApp.js:597-608 | from a fresh start the reconnects wait 2, 4, 8, 16, 30, 30 seconds |
| Session.OtherCloseResets | dia-web/src/components/VoiceCommandApp.js:591-612 | any other code clears the pending reconnect and resets the count |
| Session.ReconnectedCloseWaitsLonger | dia-web/src/components/VoiceCommandApp.js:501-505 | opening does not reset the count, so the next abnormal close waits at least as long |
| Session.SendWhenOpen | dia-web/src/components/VoiceCommandApp.js:663 | OPEN: the context window goes out at once and the error clears |
| Session.PollUntilOpen | dia-web/src/components/VoiceCommandApp.js:632-647 | CONNECTING: a poll is queued, re-queued while connecting, and sends once open |
| Session.RetryAfterReconnect | dia-web/src/components/VoiceCommandApp.js:650-659 | no socket or CLOSED: an error, a new connection and one retry that sends once open |
| Session.ClosingDropsMessage | dia-web/src/components/VoiceCommandApp.js:650-661 | CLOSING: only the error; no reconnect, no retry, nothing sent |
| Session.PollAfterCloseFails | dia-web/src/components/VoiceCommandApp.js:641-644 | a poll that finds the socket closed reports the failure and sends nothing |
| Session.VoiceCommandApp.constructor | dia-web/src/components/VoiceCommandApp.js:9-37 | the fields start as the initial state |
| Session.VoiceCommandApp.ConnectWebSocket | dia-web/src/components/VoiceCommandApp.js:490-499 | updates the fields as `Connect` |
| Session.VoiceCommandApp.ActuallySendMessage | dia-web/src/components/VoiceCommandApp.js:666-720 | updates the fields as `ActuallySend` |
| Session.VoiceCommandApp.CheckSocketConnection | dia-web/src/components/VoiceCommandApp.js:634-647 | updates the fields as `CheckConnection` |
| Session.VoiceCommandApp.SendToWebSocketApi | dia-web/src/components/VoiceCommandApp.js:623-664 | updates the fields as `Send` |
| Session.VoiceCommandApp.SendTimerElapsed | dia-web/src/components/VoiceCommandApp.js:658 | updates the fields as `FireSendTimer` |
| Session.VoiceCommandApp.HandleOpen | dia-web/src/components/VoiceCommandApp.js:501-505 | updates the fields as `OnOpen` |
| Session.VoiceCommandApp.HandleClosing | dia-web/src/components/VoiceCommandApp.js:650 | updates the fields as `OnClosing` |
| Session.VoiceCommandApp.HandleClose | dia-web/src/components/VoiceCommandApp.js:585-612 | updates the fields as `OnClose` |
| Session.VoiceCommandApp.ReconnectTimerElapsed | dia-web/src/components/VoiceCommandApp.js:605-608 | updates the fields as `FireReconnectTimer` |
| Session.VoiceCommandApp.HandleSocketError | dia-web/src/components/VoiceCommandApp.js:558-583 | updates the fields as `OnSocketError` |
| Session.VoiceCommandApp.SpeakText | dia-web/src/components/VoiceCommandApp.js:442-487 | updates the fields as `Speak` |
| Session.VoiceCommandApp.HandleMessage | dia-web/src/components/VoiceCommandApp.js:507-556 | updates the fields as `OnSocketMessage` and stops the wake-word hook |
| Session.VoiceCommandApp.ProcessMessage | dia-web/src/components/VoiceCommandApp.js:521-555 | updates the fields as `ReadMessage` |
| Session.VoiceCommandApp.HandleSpeechDone | dia-web/src/components/VoiceCommandApp.js:464-483 | updates the fields as `OnSpeechDone` |
| Session.VoiceCommandApp.HandleFinal | dia-web/src/components/VoiceCommandApp.js:148-179 | updates the fields as `HandleResult` and returns the entry whose history update waits for the render |
| Session.VoiceCommandApp.ApplyHistoryUpdates | dia-web/src/components/VoiceCommandApp.js:155-160 | the queued history updates prepend their entries in order |
| Session.VoiceCommandApp.HandleResults | dia-web/src/components/VoiceCommandApp.js:135-195 | the loop over the results updates the fields as `OnResults` |
| Session.VoiceCommandApp.HandleRecognitionError | dia-web/src/components/VoiceCommandApp.js:197-228 | updates the fields as `OnRecognitionError` |
| Session.VoiceCommandApp.HandleRecognitionEnd | dia-web/src/components/VoiceCommandApp.js:230-237 | updates the fields as `OnRecognitionEnd` |

## Left out

- Characters are compared as Unicode code points. `toLowerCase` folds only
  A-Z, because full Unicode case mapping is out of scope. `trim` and `\s` use
  the full ECMAScript whitespace set.
- `localStorage` loading and saving of the logs (lines 42-86) is persistence
  I/O. The model starts from empty logs.
- Microphone permission (`getUserMedia`), `startListening`,
  `startMainRecognition`, `stopListening` and the wake-word callback
  `onWakeWordDetected` (lines 88-104, 274-434) are browser glue. The hook's
  `onDetected` call is counted as `detections`. What follows it is not
  modelled.
- Restarting listening when speech ends (lines 471 and 482) goes through
  `startListening`, and is not modelled. `OnSpeechDone` only clears the flag.
- Speech synthesis itself, `speechSynthesis.cancel()` and the utterance's
  language are browser APIs. The model records the reply text handed over.
- A `WebSocket` constructor that throws ("Failed to connect to API", lines
  616-619) and a `send` that throws ("Failed to send message to API", lines
  716-719) are browser failures the model does not produce.
- `recognitionRef.current.stop()` in `onmessage` (lines 514-516) stops the main
  recognizer. The model keeps no state for that recognizer beyond the speaking
  guard.
- Stale closures of React state (`reconnectAttempts` at line 598, `isSpeaking`
  at lines 279 and 412) are not modelled. Each value is one authoritative field.
- Session.BackoffSchedule: it describes the single-field model. In the
  program, a reconnect started by the timer (line 607) runs the
  `connectWebSocket` of the render that created the socket. Its `onclose`
  reads that render's `reconnectAttempts` (line 598), so the delay need not
  double from one close to the next.
- Tts.ProcessForTts: its contract states only the shape of the output. What
  it keeps of the text is stated by the lemmas ProseSpokenAsIs,
  BoldSpokenAsText, InlineCodeSpokenAsText, StrikeSpokenAsText,
  LinkSpokenAsLabel and HeadingSpokenAsText. They cover prose (as defined at
  Tts.ProseAfterMarkdown) with at most one markdown construct in it. Text
  with whitespace before a mark, runs of marks, several spaces or line
  breaks, and nested or overlapping markup is characterised only by the
  per-step lemmas, not end to end.
- Tts.NormalizeWhitespace: its contract states the shape; what it keeps is
  stated by NormalizeKeepsVisible and NormalizeSpeakable.
- `JSON.parse` and the shape of the reply are abstract: the parsed data is
  `Unparseable`, `NoReply` or `Reply(content)`.
- Ids and timestamps come from `Date.now()`. They are inputs: every entry made
  by one event is stamped with that event's `now`, and id equals timestamp.
- The unawaited `sleep(5000)` (line 120) has no effect.
- UI-only state is not modelled: `isWakeWordDetected` and its 5-second reset,
  `showSettings`, settings updates, and `isWebSocketConnected` beyond the
  `connected` field.
- The hook's `sensitivity` argument is never read, so it is not a parameter.
  `lastResultTimeRef` is written (line 33) and never read;
  `silenceTimeoutRef` is never assigned, so the `clearTimeout` at lines
  193-194 never runs.
- The recognizer's `onstart`, `onspeechstart` and `onspeechend` (lines
  239-249) only log.
- Unmount cleanup (lines 198-203, 251-264, 730-737, 793-799) is not modelled.
- Session.Send: its contract states what sending leaves untouched and what it
  records. The outcome per `readyState` is stated by the lemmas SendWhenOpen,
  PollUntilOpen, RetryAfterReconnect, ClosingDropsMessage and
  PollAfterCloseFails.
- WakeWord.DetectWakeWord: its contract states only the empty-input guard. The
  matching itself is stated by the lemmas MatchAnywhere,
  BlankWakeWordMatchesAll and CaseInsensitive. An `includes` that fails when
  the trimmed wake word does not occur is stated by Text.ContainsSpec.

## Findings

| source | as written | input that shows it | evidently intended | confidence | as-written member | corrected member |
|---|---|---|---|---|---|---|
| dia-web/src/components/VoiceCommandApp.js:750-754 | Inline code (line 750) runs before code blocks (line 754). On a block whose body spans lines, line 750 takes the two backticks after the opening one, and the two before the closing one, as empty inline spans, so line 754 finds no fence | a reply of three backticks, a newline, `x = 1`, a newline and three backticks keeps its body between two single backticks | a code block is removed whole, as the comment at line 754 says | not executed | Tts.FencedCodeKept | Tts.FencedCodeRemoved |
| dia-web/src/components/VoiceCommandApp.js:770-781 | Runs of marks are collapsed (772-775) before lines 776-781 move the whitespace in front of a mark to behind it. Marks separated only by whitespace are therefore joined after the collapse has run. | `processForTTS(". .")` is `".."`, and `processForTTS("..")` is `"."`, so a second pass changes the result | no two adjacent dots, bangs or question marks reach speech synthesis, as the comments at lines 772-774 say | not executed | Tts.ProcessJoinsDots | Tts.ProcessForTtsCorrected |
