# PromptLens chat core in Dafny

PromptLens is a browser chat assistant with a voice mode. While the screen is
shared, a voice-activity detector reports when speech starts and ends. The app
records the microphone and the screen in that window and sends both recordings,
with the chat history, to a language model. It parses the reply's `result:` and
`transcript:` sections, updates the chat transcript and speaks the answer. A
typed mode sends the trimmed input box with the same history.

This project models that core:

- `Strings`: JavaScript's `\s` class, `trim`, case-insensitive literal
  matching as the `/i` flag does it, and `includes`.
- `ReplyParser`: the reply parser of `speechEnd`. The rejection token `QZOP`
  is one input. The two regular expressions `/result:\s*([^]+?)\s*transcript:/i`
  and `/transcript:\s*([^]+)/i` run the way a backtracking engine runs them.
  The trailing strip `/[,\\s]+$/` and the truthiness tests come after them.
  Lemmas then characterise the captured fields by label positions alone.
- `ReplyFormat`: the reply layout the voice prompt asks for. It covers
  parsing a reply in that layout and the consequences of the code as written.
- `Transcript`: the chat messages and the `filter`/`map`/append steps the two
  turns make. The whole voice turn and typed turn are specified as functions
  of the old transcript. Also here: the history sent with each query and the
  placement rule of the status indicator.
- `Speech`: the text cleaning done before text-to-speech.
- `AnimatedText`: the status component's classification of event strings.
- `DataUri`: the anchored prefix removal before upload and the
  `split(",")[1]` of the screen recorder.
- `RecordScreen`: the module-level screen recorder of `recordScreen.ts`, as a
  class with start, data, stop and discard.
- `App`: the `App` component as a class `Session`. It holds the React state,
  the refs and the per-render `let` variables. Each handler is a method whose
  `ensures` ties the new state to the `Transcript`, `ReplyParser` and `Speech`
  functions. Each method's `modifies` clause names exactly the fields it may
  assign, so every other field is proved unchanged.

Everything the handlers await becomes a parameter of the method:

- the permission prompts;
- the recorders' last chunks;
- the file reader's data URLs;
- the model's reply;
- whether speech synthesis succeeded;
- the clock;
- the ids drawn from `Date.now()` and `Math.random()`.

The model follows the code where it differs from the documented intent:

- The strip class `[,\\s]` holds a comma, a backslash and the letter `s`, not
  whitespace. An answer such as "Yes" therefore loses its final letter
  (`StripEatsFinalS`, `FinalSDropped`).
- The result group needs one character after the blanks that follow
  `result:`. So a `transcript:` placed right there is skipped
  (`LabelOpeningAnswer`).
- A reply with a result and no transcript falls back to the result text, not
  to a "malformed" signal. A result never exists without some `transcript:`
  label (`ResultFieldNeedsTranscript`).
- The voice callbacks fill a user placeholder. The typed flow fills an AI
  placeholder.
- The session's recorders push every chunk. The screen recorder of
  `recordScreen.ts` drops empty ones.
- A second start of speech with no end in between builds new recorders
  over the refs. The old ones keep recording, unreferenced, until the
  share is stopped (`RestartOrphansRecorder`).
- When the browser cannot build the opus microphone recorder, `speechStart`
  throws right after silencing the reply, and nothing else changes.

The one exception is the speech start time, which the code never records.
"## Findings" gives both the code as written and the corrected behaviour.

## Model

| member | source | states |
|---|---|---|
| Common.Sum | src/App.tsx:134-138 | a Blob's size is zero exactly when each of its chunks is empty |
| Common.SumAppend | src/App.tsx:91-92 | pushing a chunk adds its size to the Blob's size |
| Strings.TrimStart | src/App.tsx:357 | trimStart drops exactly the leading run of `\s` characters: the result is a suffix, the dropped part is blank, and the result starts on a non-blank |
| Strings.TrimEnd | src/App.tsx:357 | trimEnd drops exactly the trailing run of blanks: the result is a prefix, the dropped part is blank, and the result ends on a non-blank |
| Strings.TrimSpacePadding | src/App.tsx:169 | blanks added on either side of a text do not change its trim |
| Strings.TrimIdempotent | src/App.tsx:357 | trimming twice is trimming once |
| Strings.TrimStartAllSpace | src/App.tsx:358 | an all-blank input trims to the empty string |
| Strings.ContainsAcrossSeparator | src/App.tsx:160 | `includes` finds no token across a separator that shares no character with it |
| ReplyParser.SpaceRunBlank | src/App.tsx:167 | the greedy `\s*` first takes the whole run of blanks, which ends on a non-blank or at the end |
| ReplyParser.SpacesThenTranscriptAtRun | src/App.tsx:167 | giving blanks back to `\s*` never lets `transcript:` match sooner |
| ReplyParser.LazyGroupEndFinds | src/App.tsx:167 | the lazy group stops where only blanks separate it from the first `transcript:` at or after its start |
| ReplyParser.LazyGroupEndFails | src/App.tsx:167 | with no `transcript:` ahead, the lazy group fails |
| ReplyParser.LazyGroupEndMatches | src/App.tsx:167 | wherever the lazy group stops, blanks and then `transcript:` follow |
| ReplyParser.ResultAfterLabelSucceeds | src/App.tsx:167 | the attempt at a `result:` succeeds once a `transcript:` starts past the first character after the label |
| ReplyParser.ResultAfterLabelFails | src/App.tsx:167 | without such a `transcript:`, the attempt at that `result:` fails |
| ReplyParser.ResultAfterLabelMatches | src/App.tsx:167 | every group an attempt yields is followed by blanks and `transcript:` |
| ReplyParser.ResultSearchSkips | src/App.tsx:167 | the search passes over start positions without `result:` |
| ReplyParser.ResultSearchFailsAfter | src/App.tsx:167 | once no `transcript:` lies past one label, no later label can match |
| ReplyParser.ResultSearchMatches | src/App.tsx:167 | every match the search returns is followed by blanks and `transcript:` |
| ReplyParser.ResultGroupAt | src/App.tsx:167 | after the first `result:`, the group starts on the first non-blank and ends where only blanks precede the next `transcript:` |
| ReplyParser.TrailingMatch | src/App.tsx:171 | the search for `[,\\s]+$` finds the start of the longest trailing run of class characters, or none when the text does not end on one |
| ReplyParser.StripTrailing | src/App.tsx:171 | the strip leaves a prefix, drops only `,`, `\` and `s` characters, and leaves a text that does not end on one |
| ReplyParser.StripTrailingOf | src/App.tsx:171 | the strip of `u` plus a tail of class characters is `u` whenever `u` does not end on one |
| ReplyParser.ResultFieldFound | src/App.tsx:167-172 | with the first `result:` and a later `transcript:`, the result is the trimmed and stripped text between them, and that trim is non-empty |
| ReplyParser.ResultFieldNoTranscript | src/App.tsx:167-172 | with no `transcript:` after the first non-blank following the first `result:`, there is no result |
| ReplyParser.ResultFieldNoLabel | src/App.tsx:167-169 | without `result:` there is no result |
| ReplyParser.ResultFieldNeedsTranscript | src/App.tsx:167-169 | a result implies that the reply holds `transcript:` |
| ReplyParser.TranscriptAfterLabelSome | src/App.tsx:168 | the attempt at a `transcript:` succeeds exactly when a character follows the label |
| ReplyParser.TranscriptSearchSkips | src/App.tsx:168 | the search passes over start positions without `transcript:` |
| ReplyParser.TranscriptFieldFound | src/App.tsx:168-173 | the transcript is everything after the first `transcript:`, trimmed, and null when that is empty |
| ReplyParser.TranscriptFieldNoLabel | src/App.tsx:168-173 | without `transcript:` there is no transcript |
| ReplyParser.Decide | src/App.tsx:160-201 | rejected exactly when the reply holds the token; resolved only with both fields present and non-empty; otherwise a fallback that is the result field when that is non-empty, and the fixed apology exactly when it is not |
| ReplyParser.DecideResolves | src/App.tsx:174-186 | a reply without the token whose fields are both present, with a non-empty result, resolves with them |
| ReplyFormat.FormatReplyLayout | src/App.tsx:402-404 | where the answer, the comma, the line break and the words sit in a reply in the prompted layout |
| ReplyFormat.FirstTranscriptInLayout | src/App.tsx:167 | the first `transcript:` of a laid-out reply is the one the layout puts there |
| ReplyFormat.ResultInLayout | src/App.tsx:167-172 | the result of a laid-out reply is the answer, stripped |
| ReplyFormat.TranscriptInLayout | src/App.tsx:168-173 | the transcript of a laid-out reply is the words, trimmed |
| ReplyFormat.FormatReplyNoSentinel | src/App.tsx:160 | the layout adds no rejection token |
| ReplyFormat.DecideFormat | src/App.tsx:160-186 | a laid-out reply resolves with the trimmed words and the stripped answer |
| ReplyFormat.FormatRoundTrip | src/App.tsx:160-186 | parsing undoes formatting for an answer that does not end on `,`, `\` or `s` and for trimmed words |
| ReplyFormat.StripEatsFinalS | src/App.tsx:171 | "Yes" strips to "Ye" and "sss" to "" |
| ReplyFormat.FinalSDropped | src/App.tsx:171 | an answer ending in `s` comes back without it |
| ReplyFormat.SentinelRejects | src/App.tsx:160-165 | the token anywhere rejects the turn |
| ReplyFormat.NoResultLabelFallsBack | src/App.tsx:190-199 | a reply without `result:` falls back to the fixed apology |
| ReplyFormat.EmptyReplyFallsBack | src/App.tsx:157-158 | the empty reply (`|| ""`) falls back to the fixed apology |
| ReplyFormat.LabelOpeningAnswer | src/App.tsx:167-173 | when the answer opens with `transcript:`, the result keeps that label and the transcript runs from it to the end |
| Transcript.Initial | src/App.tsx:31-37 | the transcript starts with the AI greeting, id 1 |
| Transcript.WithoutIdMembers | src/App.tsx:141 | the filter drops exactly the messages with the placeholder id |
| Transcript.WithoutIdOrder | src/App.tsx:141 | the filter keeps the other messages in order |
| Transcript.WithoutIdFresh | src/App.tsx:151 | filtering an id nobody carries changes nothing |
| Transcript.ResolveAt | src/App.tsx:176-180 | the map fills in the messages with the placeholder id and leaves the others in place |
| Transcript.ResolveAppended | src/App.tsx:333-339 | resolving a placeholder just appended with a fresh id changes only that message |
| Transcript.WithoutAppended | src/App.tsx:344-345 | removing a placeholder just appended with a fresh id restores the transcript |
| Transcript.VoiceAborts | src/App.tsx:138-165 | an empty audio or screen Blob, or the token in the reply, removes exactly the placeholder and adds nothing |
| Transcript.VoiceAbortsFresh | src/App.tsx:138-165 | with a fresh placeholder id, such a turn leaves the transcript as it was |
| Transcript.VoiceResolves | src/App.tsx:174-186 | a parsed reply fills the placeholder in place with the transcript and the video, then appends the result as one AI message |
| Transcript.VoiceFallsBack | src/App.tsx:190-199 | any other reply leaves the old transcript plus one AI message: the result field when that is non-empty, otherwise the fixed apology |
| Transcript.VoiceQueryFails | src/App.tsx:446-454 | a failed query leaves the trouble message and then the fixed apology |
| Transcript.VoiceKeepsText | src/App.tsx:123-202 | a voice turn leaves no message without text |
| Transcript.TypedBlankInput | src/App.tsx:357-358 | input that trims to nothing changes nothing |
| Transcript.AIQueryAnswered | src/App.tsx:332-341 | an answer fills the AI placeholder with the reply, or "Thinking..." when the reply is empty |
| Transcript.AIQueryFails | src/App.tsx:342-353 | a failed call replaces the placeholder with the error message |
| Transcript.TypedAnswered | src/App.tsx:356-368 | a typed turn appends the trimmed user message and the answer |
| Transcript.TypedFails | src/App.tsx:342-353 | a failed typed turn appends the trimmed user message and the error message |
| Transcript.TypedIdCollision | src/App.tsx:344-345 | when the user message and the placeholder draw the same id, a failed call removes the user message too |
| Transcript.AIQueryKeepsText | src/App.tsx:284-353 | a query leaves no message without text |
| Transcript.TypedKeepsText | src/App.tsx:356-368 | a typed turn leaves no message without text |
| Transcript.History | src/App.tsx:298-301 | the history has one turn per message, in order, with its role and text |
| Transcript.HistoryRoles | src/App.tsx:299 | the role is "user" exactly for user messages and "model" exactly for AI messages |
| Transcript.HistoryAppend | src/App.tsx:375-378 | the history of a longer transcript extends the history of the shorter one |
| Transcript.IndicatorPlacement | src/App.tsx:500-513 | at most one bubble, the last one, carries the indicator, and never both kinds |
| Transcript.IndicatorWhileWaiting | src/App.tsx:285-295 | while a reply is awaited, "processing" shows on the user placeholder and "thinking" on the AI placeholder |
| AnimatedText.Classify | src/AnimatedText.tsx:8-31 | each event string draws Listening, Processing, Thinking or nothing, both ways |
| AnimatedText.IndicatorHasLabel | src/App.tsx:562-563 | wherever the chat draws the animation, it draws a label of the matching kind |
| AnimatedText.IdleDrawsNothing | src/AnimatedText.tsx:30 | "idle" and the empty event draw nothing |
| Speech.SanitizeKeepsSpoken | src/App.tsx:214-216 | the two replace passes keep exactly the ASCII non-markup characters, in one pass |
| Speech.DropNonAsciiAppend | src/App.tsx:216 | the non-ASCII pass distributes over concatenation |
| Speech.KeepSpokenChars | src/App.tsx:214-216 | a character survives exactly when it is in the input and is spoken |
| Speech.KeepSpokenOrder | src/App.tsx:214-216 | the survivors keep their order |
| Speech.SanitizeProperties | src/App.tsx:214-216 | the spoken text has no markup mark and no non-ASCII character, keeps every other character, and is a subsequence of the reply |
| Speech.SanitizeIdempotent | src/App.tsx:214-216 | cleaning twice is cleaning once |
| DataUri.StripPrefix | src/App.tsx:415 | the anchored replace removes the prefix exactly when the text starts with it |
| DataUri.StripAddedPrefix | src/App.tsx:424 | removing the prefix undoes adding it |
| DataUri.CommaFrom | src/recordScreen.ts:95 | finds the first comma at or after a position, or reports that there is none |
| DataUri.SecondField | src/recordScreen.ts:95 | `split(",")[1]` holds no comma |
| DataUri.SecondFieldOf | src/recordScreen.ts:93-96 | a data URL's second field is its payload when neither part holds a comma |
| DataUri.NoCommaNoField | src/recordScreen.ts:95 | without a comma the second field is undefined |
| DataUri.VideoPayload | src/recordScreen.ts:94-96 | the split recovers the base64 text of a video data URL |
| RecordScreen.Pushed | src/recordScreen.ts:46-50 | the handler keeps a chunk exactly when it holds data; the Blob's size grows by its size |
| RecordScreen.StopResult | src/recordScreen.ts:60-70 | stop resolves with "" exactly for an empty recording, otherwise with the video prefix and the reader's payload |
| RecordScreen.StopKeepsReaderUrl | src/recordScreen.ts:62-66 | for a comma-free base64 payload, stop resolves with the reader's data URL itself |
| RecordScreen.ScreenRecorder.constructor | src/recordScreen.ts:1-3 | no recorder, no chunks and no stream at load |
| RecordScreen.ScreenRecorder.Start | src/recordScreen.ts:33-55 | a refused capture changes nothing; a granted one keeps the new stream and empties the buffer; then an unsupported recorder type fails, leaving the old recorder, and otherwise a new recorder is recording, with no `onstop` handler |
| RecordScreen.ScreenRecorder.OnDataAvailable | src/recordScreen.ts:46-50 | the buffer becomes the pushed buffer, and nothing else changes (it modifies only the buffer) |
| RecordScreen.ScreenRecorder.Stop | src/recordScreen.ts:57-78 | stopping a recording flushes the last chunk, stops the tracks and resolves with the stop result; otherwise it resolves "" and changes nothing |
| RecordScreen.ScreenRecorder.Discard | src/recordScreen.ts:80-87 | discarding a recording detaches `onstop`, stops the tracks and empties the buffer, into which the recorder's late last chunk then lands (when it holds data); otherwise it changes nothing |
| RecordScreen.ScreenRecorder.StreamEnded | src/recordScreen.ts:46-50 | when the recorded display stream is stopped from outside, a recording recorder goes inactive and its last chunk is pushed, with nothing assembled; otherwise nothing changes |
| RecordScreen.DiscardThenStop | src/recordScreen.ts:57-87 | after a discard, stop resolves "" and the buffer holds only the chunk that arrived after the discard |
| App.SpeechEndDelay | src/App.tsx:112-117 | the wait lifts the elapsed time to at least 600 ms, lands exactly on 600 when it is positive, and is 0 once 600 ms have passed |
| App.SpeechEndDelayLeast | src/App.tsx:112-117 | no shorter wait reaches the minimum |
| App.Stopped | src/App.tsx:118-119 | `stop()` leaves no recorder recording and changes no other recorder |
| App.Flushed | src/App.tsx:118-120 | a stopped recording recorder delivers its last chunk, whatever its size; any other recorder delivers nothing |
| App.FlushedSize | src/App.tsx:134-138 | the Blob assembled after the stop grows by the last chunk exactly when the recorder was recording |
| App.Session.constructor | src/App.tsx:28-55 | the first render: the greeting, no status, nothing shared, recorded or scheduled |
| App.Session.Render | src/App.tsx:54 | a re-render loses the debounce handle; it modifies nothing else, so the scheduled timers and the start time survive |
| App.Session.DebouncedSpeechEnd | src/App.tsx:67-72 | cancels the timer this render holds and schedules a new one 400 ms from now |
| App.Session.FireTimer | src/App.tsx:69-71 | a firing timer leaves the schedule |
| App.Session.StartMicRecorder | src/App.tsx:84-94 | on a shared microphone a new recorder takes the ref and the buffer is emptied; the recorder the ref held, if still recording, becomes one more orphan |
| App.Session.StartScreenRecorder | src/App.tsx:97-104 | the same for a shared screen |
| App.Session.SpeechStartAsWritten | src/App.tsx:74-108 | the playing reply is silenced; if the opus microphone recorder cannot be built nothing else changes; otherwise each shared stream gets a new recorder and an empty buffer, a recorder still recording is orphaned, not stopped, and the status is "listening"; the start time is untouched |
| App.Session.SpeechStart | src/App.tsx:74-108 | the same steps, with the time speech started at recorded |
| App.Session.OnAudioData | src/App.tsx:91-92 | the microphone chunk is pushed without a size filter |
| App.Session.OnScreenData | src/App.tsx:101-102 | the screen chunk is pushed without a size filter |
| App.Session.PlayResponse | src/App.tsx:205-241 | the cleaned text is what is spoken, and an audio element is kept exactly when synthesis succeeds |
| App.Session.StopRecorders | src/App.tsx:118-122 | both recorders stop and flush, listening ends, and the status is "processing" |
| App.Session.SettleVoice | src/App.tsx:156-202 | the transcript becomes the settled transcript, the status clears, and only a parsed reply is spoken |
| App.Session.VoiceQuery | src/App.tsx:123-202 | the transcript becomes the voice turn; the query goes out only with both Blobs non-empty, carrying the history the render saw and the two recordings without their prefixes |
| App.Session.SpeechEnd | src/App.tsx:110-203 | the wait, the stopped recorders and buffers, and the resulting voice turn, query and spoken text; the input box, streams, sharing flag, timers and start time are not modified |
| App.Session.SendQueryToAI | src/App.tsx:284-354 | the transcript becomes the AI query, whose history is the render's transcript plus the new user turn; the reply, or "Thinking...", is spoken; only the transcript, status and audio are modified |
| App.Session.SendMessage | src/App.tsx:356-369 | the transcript becomes the typed turn of the input box; a blank input changes nothing, any other clears the box and sends the trimmed text; only the transcript, status, input box and audio are modified |
| App.Session.HandleShareScreen | src/App.tsx:251-261 | a refused screen changes nothing; an unsupported recorder leaves the session as it was; a refused microphone keeps the screen recording and leaves sharing inactive; it modifies only the two streams, the sharing flag and the screen recorder |
| App.Session.StopScreenTracks | src/App.tsx:265-268 | a held screen stream is dropped; its session recorder stops and flushes, each orphan pushes its recording into the current buffer, and the module's screen recorder stops and flushes |
| App.Session.StopMicTracks | src/App.tsx:269-272 | a held microphone stream is dropped; its recorder stops and flushes, and each orphan pushes its recording into the current buffer |
| App.Session.HandleStopScreenShare | src/App.tsx:263-274 | both streams are dropped and sharing is inactive; stopping the tracks stops and flushes every recorder recording them, orphans and the module's screen recorder included; the transcript, status, input, audio and timers are not modified |
| App.StopShareTwice | src/App.tsx:263-274 | a second stop changes nothing: what its recorders would deliver is never taken |
| App.RestartOrphansRecorder | src/App.tsx:84-94 | two starts of speech with no end between them orphan the first microphone recorder: the end of speech stops only the second, and the first one's recording arrives when the share is stopped |
| App.DebounceAcrossRender | src/App.tsx:53-72 | two end-of-speech events in one render leave one pending timer; with a re-render between them, both stay pending |
| App.ShortUtteranceAsWritten | src/App.tsx:55 | with the start time never set, a short utterance is not topped up to 600 ms |
| App.MinimumRecording | src/App.tsx:112-117 | with the start time recorded, the recorders stop no earlier than 600 ms after speech started, and the wait ends exactly then |

## Left out

- The network calls are parameters: the two model requests and the speech-synthesis stream. The model may answer, fail, or answer with no text, which the model treats as "".
- The prompt texts and system instructions are not modelled. Only the reply layout they ask for is (`ReplyFormat`).
- The browser media APIs become booleans and sizes: `getDisplayMedia`, `getUserMedia`, `MediaRecorder`, `FileReader`, object URLs and `Audio` playback. Blob contents are reduced to sizes, and their base64 text and data URLs to parameters.
- Concurrency is not modelled. Each handler is atomic. Stale closures are only modelled through the `seen` transcript used for the typed history, and through voice queries reading the transcript before their placeholder.
- Time is not modelled: the 300 ms settle wait and the delay's actual sleep. Timers are an id-to-due-time map that is never run by a clock.
- App.Session.SpeechEnd: it takes each recorder's last chunk as delivered before the Blobs are assembled, which the 300 ms wait is meant to ensure.
- A display track ending on its own, when the user ends the capture from the browser's own controls, is not modelled. Only the app stopping the tracks is (`StreamEnded`).
- App.Session: stream identity is not modelled. A second successful share replaces the stream refs without stopping the earlier streams; the model takes every orphaned session recorder to record the stream held when the share is stopped. The order in which the recorders' last chunks arrive is not modelled either: the referenced recorder's chunk comes first, then the orphans'.
- RecordScreen.ScreenRecorder: the recorder's identity is not modelled. `StreamEnded` takes the recorder to be recording the stream the app holds, which is the stream of the last successful start.
- `takeScreenshot` is not part of this model. Nor are the theme toggle, scrolling, the markdown rendering and the `VADRunner` component.
- `isAISpeaking` is declared and never used, so it is not modelled.
- JavaScript strings are UTF-16 code units, while a Dafny `char` is a Unicode scalar value. The parser's labels are ASCII. The non-ASCII filter removes both halves of a surrogate pair, so it removes whole characters here (`Speech`).
- The regular expressions are modelled only for these patterns. There is no general regex engine.
- `Date.now()` and `Math.random()` ids are parameters. Their uniqueness is a precondition where a lemma needs it, and `TypedIdCollision` shows what happens without it.

## Findings

| source | as written | input that shows it | evidently intended | confidence | as-written member | corrected member |
|---|---|---|---|---|---|---|
| src/App.tsx:55 | `speechStartTime` is set to 0 and never assigned again, so `speechEnd` measures the elapsed time from the epoch and never waits | speech starts when the clock reads 1000 and ends at 1100: the wait is 0 and the recorders stop after 100 ms | `speechStart` records the clock into a ref, and `speechEnd` waits the remaining 500 ms | not executed | App.ShortUtteranceAsWritten | App.MinimumRecording |
