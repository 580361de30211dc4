/** The chat session of src/App.tsx as a state machine: the React state
    (`messages`, `status`, `inputValue`, `isListening`, `screenShareActive`), the
    refs (streams, recorders, chunk buffers, the playing audio element) and the
    per-render `let` variables (the debounce timer and `speechStartTime`).
    Every browser or network answer an operation awaits is a parameter: the
    permission prompts, the recorders' final chunks, the file reader's data
    URLs, the backend's reply, whether speech synthesis succeeded, the clock
    and the generated ids. */
module App {
  import opened Common
  import opened Strings
  import opened DataUri
  import opened Speech
  import opened ReplyParser
  import opened Transcript
  import opened RecordScreen

  /** Debounce window after the voice detector reports the end of speech. */
  const DebounceMs: int := 400
  /** Shortest recording the voice turn lets through before stopping the recorders. */
  const MinRecordingMs: int := 600

  /** How long `speechEnd` waits before stopping the recorders, given the time
      elapsed since speech started (src/App.tsx:112-117): it tops a short
      recording up to the minimum exactly, and never waits otherwise. */
  function SpeechEndDelay(elapsed: int): (d: nat)
    ensures elapsed + d >= MinRecordingMs
    ensures d > 0 ==> elapsed + d == MinRecordingMs
    ensures elapsed >= MinRecordingMs ==> d == 0
  {
    if elapsed < MinRecordingMs then MinRecordingMs - elapsed else 0
  }

  /** The delay is the least wait that reaches the minimum. */
  lemma SpeechEndDelayLeast(elapsed: int, wait: nat)
    requires elapsed + wait >= MinRecordingMs
    ensures SpeechEndDelay(elapsed) <= wait
  { }

  /** A session recorder (`micStreamRecorderRef` / `screenStreamRecorderRef`). */
  datatype RecorderState = NoRecorder | Recording | Inactive

  /** What `recorder?.stop()` leaves: a recording recorder becomes inactive. */
  function Stopped(r: RecorderState): (s: RecorderState)
    ensures s != Recording
    ensures r != Recording ==> s == r
  {
    if r == Recording then Inactive else r
  }

  /** The chunk buffer after `recorder?.stop()`: a recording recorder delivers
      its last chunk, whatever its size (the session handlers do not filter). */
  function Flushed(r: RecorderState, chunks: seq<nat>, last: nat): (c: seq<nat>)
    ensures r == Recording ==> c == chunks + [last]
    ensures r != Recording ==> c == chunks
  {
    if r == Recording then chunks + [last] else chunks
  }

  /** The Blob assembled from a flushed buffer grows by the last chunk exactly
      when the recorder was recording. */
  lemma FlushedSize(r: RecorderState, chunks: seq<nat>, last: nat)
    ensures Sum(Flushed(r, chunks, last)) == Sum(chunks) + (if r == Recording then last else 0)
  {
    SumAppend(chunks, last);
  }

  /** The payloads of the voice query: the history and the two recordings with
      their data-URL prefixes removed (src/App.tsx:375-425). */
  datatype VoiceRequest = VoiceRequest(history: seq<Turn>, audio: string, video: string)

  /** The text the backend's voice reply contributes to the parser. */
  function ReplyText(outcome: QueryOutcome): string {
    if outcome.QueryFailed? then [] else outcome.text
  }

  class Session {
    var messages: seq<Message>
    var status: Option<string>
    var inputValue: string
    var isListening: bool
    var screenShareActive: bool
    /** `micStreamRef.current` / `screenStreamRef.current` are set. */
    var micStream: bool
    var screenStream: bool
    var micRecorder: RecorderState
    var screenRecorder: RecorderState
    /** Recorders a later `speechStart` replaced in the ref while they were
        still recording: nothing references them, and they record on until the
        stream's tracks are stopped. */
    var micOrphans: nat
    var screenOrphans: nat
    /** The sizes of the Blobs in `audioChunksRef` / `screenChunksRef`. */
    var audioChunks: seq<nat>
    var screenChunks: seq<nat>
    /** `currentAudioRef.current` holds a playing reply. */
    var currentAudio: bool
    /** Pending timeouts: id to due time. */
    var timers: map<nat, int>
    var nextTimer: nat
    /** The render-local `vadDebounceTimer`. */
    var debounceTimer: Option<nat>
    /** The render-local `speechStartTime`. */
    var speechStartTime: int
    /** The module-level screen recorder of src/recordScreen.ts. */
    const recorder: ScreenRecorder

    ghost predicate Valid()
      reads this, recorder
    {
      TextValid() && recorder.Valid() && TimersValid()
    }

    /** No bubble of the transcript is left without text. */
    ghost predicate TextValid()
      reads this`messages
    {
      NoEmptyText(messages)
    }

    /** Every timer id handed out is below the next one. */
    ghost predicate TimersValid()
      reads this`timers, this`nextTimer, this`debounceTimer
    {
      && (forall id :: id in timers ==> id < nextTimer)
      && (debounceTimer.Some? ==> debounceTimer.value < nextTimer)
    }

    /** The first render: the greeting, nothing shared, nothing recorded. */
    constructor (rec: ScreenRecorder)
      requires rec.Valid()
      ensures Valid() && recorder == rec
      ensures messages == Initial() && status == None && inputValue == []
      ensures !isListening && !screenShareActive && !micStream && !screenStream
      ensures micRecorder == NoRecorder && screenRecorder == NoRecorder
      ensures micOrphans == 0 && screenOrphans == 0
      ensures audioChunks == [] && screenChunks == [] && !currentAudio
      ensures timers == map[] && debounceTimer == None && speechStartTime == 0
    {
      messages, status, inputValue := Initial(), None, [];
      isListening, screenShareActive, micStream, screenStream := false, false, false, false;
      micRecorder, screenRecorder := NoRecorder, NoRecorder;
      micOrphans, screenOrphans := 0, 0;
      audioChunks, screenChunks, currentAudio := [], [], false;
      timers, nextTimer, debounceTimer, speechStartTime := map[], 0, None, 0;
      recorder := rec;
    }

    /** A re-render runs the component body again: the `let` timer handle starts
        over, so the handle of a pending debounce timer is lost while the timer
        itself stays scheduled. The corrected start time is kept across renders,
        as a ref would keep it. */
    method Render()
      requires Valid()
      modifies this`debounceTimer
      ensures debounceTimer == None
      ensures Valid()
    {
      debounceTimer := None;
    }

    /** `debouncedSpeechEnd` (src/App.tsx:67-72): cancels the timer whose handle
        this render holds and schedules `speechEnd` 400 ms from `now`. */
    method DebouncedSpeechEnd(now: int)
      requires Valid()
      modifies this`timers, this`nextTimer, this`debounceTimer
      ensures debounceTimer == Some(old(nextTimer)) && nextTimer == old(nextTimer) + 1
      ensures timers == (if old(debounceTimer).Some? then old(timers) - {old(debounceTimer).value}
                         else old(timers))[old(nextTimer) := now + DebounceMs]
      ensures Valid()
    {
      if debounceTimer.Some? {
        timers := timers - {debounceTimer.value};
      }
      timers := timers[nextTimer := now + DebounceMs];
      debounceTimer := Some(nextTimer);
      nextTimer := nextTimer + 1;
    }

    /** A timeout fires: it leaves the schedule (and then runs `speechEnd`). */
    method FireTimer(id: nat)
      requires Valid() && id in timers
      modifies this`timers
      ensures timers == old(timers) - {id}
      ensures Valid()
    {
      timers := timers - {id};
    }

    /** On a shared microphone stream a new recorder takes the ref and the
        buffer is cleared (src/App.tsx:84-94); the recorder the ref held, if
        still recording, is orphaned rather than stopped. */
    method StartMicRecorder()
      requires Valid()
      modifies this`micRecorder, this`audioChunks, this`micOrphans
      ensures micRecorder == (if micStream then Recording else old(micRecorder))
      ensures audioChunks == (if micStream then [] else old(audioChunks))
      ensures micOrphans == (if micStream && old(micRecorder) == Recording then old(micOrphans) + 1
                             else old(micOrphans))
      ensures Valid()
    {
      if micStream {
        if micRecorder == Recording {
          micOrphans := micOrphans + 1;
        }
        micRecorder, audioChunks := Recording, [];
      }
    }

    /** The same for a shared screen stream (src/App.tsx:97-104). */
    method StartScreenRecorder()
      requires Valid()
      modifies this`screenRecorder, this`screenChunks, this`screenOrphans
      ensures screenRecorder == (if screenStream then Recording else old(screenRecorder))
      ensures screenChunks == (if screenStream then [] else old(screenChunks))
      ensures screenOrphans == (if screenStream && old(screenRecorder) == Recording then old(screenOrphans) + 1
                                else old(screenOrphans))
      ensures Valid()
    {
      if screenStream {
        if screenRecorder == Recording {
          screenOrphans := screenOrphans + 1;
        }
        screenRecorder, screenChunks := Recording, [];
      }
    }

    /** `speechStart` as written (src/App.tsx:74-108): silences the reply being
        spoken and starts a recorder on each shared stream, clearing that stream's
        buffer; a buffer whose stream is not shared keeps its old chunks. A
        recorder the ref still held while it recorded is not stopped: it goes on
        recording, unreferenced. When the browser cannot build the opus
        microphone recorder (`micSupported` false), the constructor throws and
        the handler ends right after silencing the reply. The start time is left
        as it was. */
    method SpeechStartAsWritten(micSupported: bool)
      requires Valid()
      modifies this`status, this`isListening, this`micRecorder, this`screenRecorder,
               this`audioChunks, this`screenChunks, this`currentAudio, this`micOrphans, this`screenOrphans
      ensures !currentAudio
      ensures status == (if micStream && !micSupported then old(status) else Some(Listening))
      ensures isListening == (old(isListening) || !micStream || micSupported)
      ensures micRecorder == (if micStream && micSupported then Recording else old(micRecorder))
      ensures audioChunks == (if micStream && micSupported then [] else old(audioChunks))
      ensures micOrphans == (if micStream && micSupported && old(micRecorder) == Recording
                             then old(micOrphans) + 1 else old(micOrphans))
      ensures screenRecorder == (if screenStream && (!micStream || micSupported) then Recording
                                 else old(screenRecorder))
      ensures screenChunks == (if screenStream && (!micStream || micSupported) then [] else old(screenChunks))
      ensures screenOrphans == (if screenStream && (!micStream || micSupported) && old(screenRecorder) == Recording
                                then old(screenOrphans) + 1 else old(screenOrphans))
      ensures Valid()
    {
      currentAudio := false;
      // Building the opus microphone recorder throws before anything else runs.
      if !micStream || micSupported {
        StartMicRecorder();
        StartScreenRecorder();
        isListening, status := true, Some(Listening);
      }
    }

    /** `speechStart` as evidently intended: the time speech started at is
        recorded for the minimum-duration check of `speechEnd`, then the same
        steps run. */
    method SpeechStart(now: int, micSupported: bool)
      requires Valid()
      modifies this`status, this`isListening, this`micRecorder, this`screenRecorder,
               this`audioChunks, this`screenChunks, this`currentAudio, this`micOrphans, this`screenOrphans,
               this`speechStartTime
      ensures speechStartTime == now
      ensures !currentAudio
      ensures status == (if micStream && !micSupported then old(status) else Some(Listening))
      ensures isListening == (old(isListening) || !micStream || micSupported)
      ensures micRecorder == (if micStream && micSupported then Recording else old(micRecorder))
      ensures audioChunks == (if micStream && micSupported then [] else old(audioChunks))
      ensures micOrphans == (if micStream && micSupported && old(micRecorder) == Recording
                             then old(micOrphans) + 1 else old(micOrphans))
      ensures screenRecorder == (if screenStream && (!micStream || micSupported) then Recording
                                 else old(screenRecorder))
      ensures screenChunks == (if screenStream && (!micStream || micSupported) then [] else old(screenChunks))
      ensures screenOrphans == (if screenStream && (!micStream || micSupported) && old(screenRecorder) == Recording
                                then old(screenOrphans) + 1 else old(screenOrphans))
      ensures Valid()
    {
      speechStartTime := now;
      SpeechStartAsWritten(micSupported);
    }

    /** The microphone recorder's `ondataavailable` (src/App.tsx:91-92). */
    method OnAudioData(size: nat)
      requires Valid() && micRecorder != NoRecorder
      modifies this`audioChunks
      ensures audioChunks == old(audioChunks) + [size]
      ensures Valid()
    {
      audioChunks := audioChunks + [size];
    }

    /** The screen recorder's `ondataavailable` (src/App.tsx:101-102). */
    method OnScreenData(size: nat)
      requires Valid() && screenRecorder != NoRecorder
      modifies this`screenChunks
      ensures screenChunks == old(screenChunks) + [size]
      ensures Valid()
    {
      screenChunks := screenChunks + [size];
    }

    /** `playFullResponseAudio` (src/App.tsx:205-241): stops the reply being
        spoken, sends the sanitised text to speech synthesis and keeps the new
        audio element when synthesis succeeds. */
    method PlayResponse(text: string, ttsOk: bool) returns (spoken: string)
      requires Valid()
      modifies this`currentAudio
      ensures spoken == Sanitize(text) && currentAudio == ttsOk
      ensures Valid()
    {
      currentAudio := false;
      spoken := Sanitize(text);
      currentAudio := ttsOk;
    }

    /** The recorders are stopped (src/App.tsx:118-122): each recording
        recorder delivers its last chunk and becomes inactive, and the status
        turns to "processing". */
    method StopRecorders(audioFlush: nat, screenFlush: nat)
      requires Valid()
      modifies this`status, this`isListening, this`micRecorder, this`screenRecorder,
               this`audioChunks, this`screenChunks
      ensures micRecorder == Stopped(old(micRecorder)) && screenRecorder == Stopped(old(screenRecorder))
      ensures audioChunks == Flushed(old(micRecorder), old(audioChunks), audioFlush)
      ensures screenChunks == Flushed(old(screenRecorder), old(screenChunks), screenFlush)
      ensures !isListening && status == Some(Processing)
      ensures Valid()
    {
      audioChunks := Flushed(micRecorder, audioChunks, audioFlush);
      micRecorder := Stopped(micRecorder);
      screenChunks := Flushed(screenRecorder, screenChunks, screenFlush);
      screenRecorder := Stopped(screenRecorder);
      isListening := false;
      status := Some(Processing);
    }

    /** The backend's voice reply is settled (src/App.tsx:156-202): the
        rejection token drops the placeholder, a parsed reply fills it in and
        adds the answer, which is spoken, and anything else replaces it with
        the fallback answer. */
    method SettleVoice(queried: seq<Message>, placeholderId: int, d: Decision, videoUrl: string,
                       answerId: int, ttsOk: bool)
      returns (spoken: Option<string>)
      requires Valid()
      requires NoEmptyText(Settle(queried, placeholderId, d, videoUrl, answerId))
      modifies this`messages, this`status, this`currentAudio
      ensures messages == Settle(queried, placeholderId, d, videoUrl, answerId) && status == None
      ensures d.Resolved? ==> spoken == Some(Sanitize(d.result)) && currentAudio == ttsOk
      ensures !d.Resolved? ==> spoken == None && currentAudio == old(currentAudio)
      ensures Valid()
    {
      messages := Settle(queried, placeholderId, d, videoUrl, answerId);
      status := None;
      spoken := None;
      if d.Resolved? {
        var s := PlayResponse(d.result, ttsOk);
        spoken := Some(s);
      }
    }

    /** The voice turn once the recorders have stopped (src/App.tsx:123-202):
        the placeholder goes up; an empty recording drops it again, otherwise the
        query goes out with the history of the transcript as this render saw it
        and the two recordings without their data-URL prefixes, and the reply is
        settled. `audioSize` / `screenSize` are the sizes of the assembled Blobs. */
    method VoiceQuery(audioSize: nat, screenSize: nat, placeholderId: int,
                      audioUrl: string, videoUrl: string, outcome: QueryOutcome,
                      troubleId: int, answerId: int, ttsOk: bool)
      returns (request: Option<VoiceRequest>, spoken: Option<string>)
      requires Valid()
      modifies this`messages, this`status, this`currentAudio
      ensures status == None
      ensures messages == VoiceTurn(old(messages), placeholderId, audioSize, screenSize,
                                    outcome, videoUrl, troubleId, answerId)
      ensures request == if audioSize == 0 || screenSize == 0 then None
                         else Some(VoiceRequest(History(old(messages)), StripPrefix(audioUrl, AudioPrefix),
                                                StripPrefix(videoUrl, VideoPrefix)))
      ensures spoken == (if request.Some? && Decide(ReplyText(outcome)).Resolved?
                         then Some(Sanitize(Decide(ReplyText(outcome)).result)) else None)
      ensures spoken.None? ==> currentAudio == old(currentAudio)
      ensures spoken.Some? ==> currentAudio == ttsOk
      ensures Valid()
    {
      var ms := messages;
      VoiceKeepsText(ms, placeholderId, audioSize, screenSize, outcome, videoUrl, troubleId, answerId);
      var pending := ms + [Placeholder(placeholderId, User)];
      if audioSize == 0 || screenSize == 0 {
        messages := WithoutId(pending, placeholderId);
        status := None;
        return None, None;
      }
      status := Some(Processing);
      request := Some(VoiceRequest(History(ms), StripPrefix(audioUrl, AudioPrefix), StripPrefix(videoUrl, VideoPrefix)));
      var queried := pending;
      if outcome.QueryFailed? {
        queried := pending + [Message(troubleId, Trouble, AI, None)];
        status := None;
      }
      spoken := SettleVoice(queried, placeholderId, Decide(ReplyText(outcome)), videoUrl, answerId, ttsOk);
    }

    /** `speechEnd` (src/App.tsx:110-203) with `handleQuery` (src/App.tsx:370-456).
        `now` is the clock, `audioFlush` / `screenFlush` the recorders' last
        chunks, `audioUrl` / `videoUrl` the reader's data URLs of the two Blobs,
        `outcome` the backend's answer, `ttsOk` whether the reply was spoken, and
        the ids are the generated message ids. */
    method SpeechEnd(now: int, audioFlush: nat, screenFlush: nat, placeholderId: int,
                     audioUrl: string, videoUrl: string, outcome: QueryOutcome,
                     troubleId: int, answerId: int, ttsOk: bool)
      returns (delay: nat, request: Option<VoiceRequest>, spoken: Option<string>)
      requires Valid()
      modifies this`messages, this`status, this`isListening, this`micRecorder, this`screenRecorder,
               this`audioChunks, this`screenChunks, this`currentAudio
      ensures delay == SpeechEndDelay(now - old(speechStartTime))
      ensures micRecorder == Stopped(old(micRecorder)) && screenRecorder == Stopped(old(screenRecorder))
      ensures audioChunks == Flushed(old(micRecorder), old(audioChunks), audioFlush)
      ensures screenChunks == Flushed(old(screenRecorder), old(screenChunks), screenFlush)
      ensures !isListening && status == None
      ensures messages == VoiceTurn(old(messages), placeholderId, Sum(audioChunks), Sum(screenChunks),
                                    outcome, videoUrl, troubleId, answerId)
      ensures request == if Sum(audioChunks) == 0 || Sum(screenChunks) == 0 then None
                         else Some(VoiceRequest(History(old(messages)), StripPrefix(audioUrl, AudioPrefix),
                                                StripPrefix(videoUrl, VideoPrefix)))
      ensures spoken == (if request.Some? && Decide(ReplyText(outcome)).Resolved?
                         then Some(Sanitize(Decide(ReplyText(outcome)).result)) else None)
      ensures spoken.None? ==> currentAudio == old(currentAudio)
      ensures spoken.Some? ==> currentAudio == ttsOk
      ensures Valid()
    {
      delay := SpeechEndDelay(now - speechStartTime);
      StopRecorders(audioFlush, screenFlush);
      request, spoken := VoiceQuery(Sum(audioChunks), Sum(screenChunks), placeholderId, audioUrl, videoUrl,
                                    outcome, troubleId, answerId, ttsOk);
    }

    /** `sendQueryToAI` (src/App.tsx:284-354). `seen` is the transcript as the
        render that issued the call saw it: the history sent with the query is
        built from it, and `text` goes out as the new user turn. `reply` is the
        backend's text (`None` when the call threw), `ttsOk` whether the answer
        was spoken. */
    method SendQueryToAI(text: string, seen: seq<Message>, placeholderId: int, reply: Option<string>,
                         errorId: int, ttsOk: bool)
      returns (request: seq<Turn>, spoken: Option<string>)
      requires Valid()
      modifies this`messages, this`status, this`currentAudio
      ensures messages == AIQuery(old(messages), placeholderId, reply, errorId) && status == None
      ensures request == History(seen) + [Turn(Role(User), text)]
      ensures spoken == (match reply
                         case None => None
                         case Some(a) => Some(Sanitize(if a == [] then Thinking else a)))
      ensures spoken.None? ==> currentAudio == old(currentAudio)
      ensures spoken.Some? ==> currentAudio == ttsOk
      ensures Valid()
    {
      AIQueryKeepsText(messages, placeholderId, reply, errorId);
      status := Some(ThinkingStatus);
      request := History(seen) + [Turn(Role(User), text)];
      // The placeholder goes up and is then settled by the reply or the error.
      messages, status := AIQuery(messages, placeholderId, reply, errorId), None;
      match reply {
        case Some(a) =>
          var s := PlayResponse(if a == [] then Thinking else a, ttsOk);
          spoken := Some(s);
        case None =>
          spoken := None;
      }
    }

    /** `handleSendMessage` (src/App.tsx:356-369). A blank input does nothing.
        Otherwise the trimmed text is posted, the input box is cleared and the
        query goes out with the history of the transcript before the new
        message, which is what the issuing render saw. */
    method SendMessage(userId: int, placeholderId: int, reply: Option<string>, errorId: int, ttsOk: bool)
      returns (request: Option<seq<Turn>>, spoken: Option<string>)
      requires Valid()
      modifies this`messages, this`status, this`inputValue, this`currentAudio
      ensures messages == TypedTurn(old(messages), old(inputValue), userId, placeholderId, reply, errorId)
      ensures Trim(old(inputValue)) == [] ==> unchanged(this) && request == None && spoken == None
      ensures Trim(old(inputValue)) != [] ==>
                && inputValue == [] && status == None
                && request == Some(History(old(messages)) + [Turn(Role(User), Trim(old(inputValue)))])
                && spoken == (match reply
                              case None => None
                              case Some(a) => Some(Sanitize(if a == [] then Thinking else a)))
      ensures spoken.None? ==> currentAudio == old(currentAudio)
      ensures spoken.Some? ==> currentAudio == ttsOk
      ensures Valid()
    {
      var text := Trim(inputValue);
      if text == [] {
        return None, None;
      }
      var seen := messages;
      TypedKeepsText(seen, inputValue, userId, placeholderId, reply, errorId);
      var posted := seen + [Message(userId, text, User, None)];
      AppendText(seen, Message(userId, text, User, None));
      messages := posted;
      inputValue := [];
      status := Some(ThinkingStatus);
      var sent;
      sent, spoken := SendQueryToAI(text, seen, placeholderId, reply, errorId, ttsOk);
      request := Some(sent);
    }

    /** `handleShareScreen` (src/App.tsx:251-261): starts the screen recorder,
        keeps its stream, then asks for the microphone. A refused screen, or a
        recorder the browser cannot build, leaves the session as it was; a
        refused microphone leaves the screen stream kept and recording while
        sharing is not marked active. */
    method HandleShareScreen(screenGranted: bool, recorderSupported: bool, micGranted: bool)
      requires Valid()
      modifies this`screenShareActive, this`micStream, this`screenStream, recorder
      ensures !screenGranted ==> unchanged(this) && unchanged(recorder)
      ensures screenGranted ==> recorder.chunks == [] && recorder.streamLive
      ensures screenGranted && !recorderSupported ==> unchanged(this)
      ensures screenGranted && !recorderSupported ==>
                unchanged(recorder`hasRecorder, recorder`recording, recorder`onStopAttached)
      ensures screenGranted && recorderSupported ==>
                && screenStream && recorder.hasRecorder && recorder.recording && !recorder.onStopAttached
                && micStream == (micGranted || old(micStream))
      ensures screenShareActive == (old(screenShareActive) || (screenGranted && recorderSupported && micGranted))
      ensures Valid()
    {
      var ok := recorder.Start(screenGranted, recorderSupported);
      if !ok {
        return;
      }
      screenStream := true;
      if !micGranted {
        return;
      }
      micStream := true;
      screenShareActive := true;
    }

    /** `handleStopScreenShare` (src/App.tsx:263-274): stops the tracks of each
        kept stream, drops both streams and marks sharing inactive. Stopping the
        screen's tracks ends every recorder recording it: the screen recorder of
        src/recordScreen.ts delivers `recorderFlush` and the session's screen
        recorder `screenFlush`; stopping the microphone's tracks ends the
        session's microphone recorder, which delivers `audioFlush`. The
        orphaned recorders of each stream end too, and push their recordings
        (`orphanScreen`, `orphanAudio`) into the buffer the ref holds now. */
    method HandleStopScreenShare(audioFlush: nat, screenFlush: nat, recorderFlush: nat,
                                 orphanAudio: seq<nat>, orphanScreen: seq<nat>)
      requires Valid()
      requires |orphanAudio| == (if micStream then micOrphans else 0)
      requires |orphanScreen| == (if screenStream then screenOrphans else 0)
      modifies this`screenShareActive, this`micStream, this`screenStream, this`micRecorder,
               this`screenRecorder, this`audioChunks, this`screenChunks, this`micOrphans,
               this`screenOrphans, recorder
      ensures !screenStream && !micStream && !screenShareActive
      ensures micOrphans == 0 && screenOrphans == 0
      ensures screenRecorder == (if old(screenStream) then Stopped(old(screenRecorder)) else old(screenRecorder))
      ensures screenChunks == (if old(screenStream)
                               then Flushed(old(screenRecorder), old(screenChunks), screenFlush) + orphanScreen
                               else old(screenChunks))
      ensures micRecorder == (if old(micStream) then Stopped(old(micRecorder)) else old(micRecorder))
      ensures audioChunks == (if old(micStream)
                              then Flushed(old(micRecorder), old(audioChunks), audioFlush) + orphanAudio
                              else old(audioChunks))
      ensures old(screenStream) && old(recorder.recording) ==>
                && !recorder.recording && !recorder.streamLive
                && recorder.chunks == Pushed(old(recorder.chunks), recorderFlush)
                && unchanged(recorder`hasRecorder, recorder`onStopAttached)
      ensures !(old(screenStream) && old(recorder.recording)) ==> unchanged(recorder)
      ensures Valid()
    {
      StopScreenTracks(screenFlush, recorderFlush, orphanScreen);
      StopMicTracks(audioFlush, orphanAudio);
      screenShareActive := false;
    }

    /** The screen half of `handleStopScreenShare` (src/App.tsx:265-268). */
    method StopScreenTracks(screenFlush: nat, recorderFlush: nat, orphanScreen: seq<nat>)
      requires Valid()
      requires |orphanScreen| == (if screenStream then screenOrphans else 0)
      modifies this`screenStream, this`screenRecorder, this`screenChunks, this`screenOrphans, recorder
      ensures !screenStream && screenOrphans == 0
      ensures screenRecorder == (if old(screenStream) then Stopped(old(screenRecorder)) else old(screenRecorder))
      ensures screenChunks == (if old(screenStream)
                               then Flushed(old(screenRecorder), old(screenChunks), screenFlush) + orphanScreen
                               else old(screenChunks))
      ensures old(screenStream) && old(recorder.recording) ==>
                && !recorder.recording && !recorder.streamLive
                && recorder.chunks == Pushed(old(recorder.chunks), recorderFlush)
                && unchanged(recorder`hasRecorder, recorder`onStopAttached)
      ensures !(old(screenStream) && old(recorder.recording)) ==> unchanged(recorder)
      ensures Valid()
    {
      if screenStream {
        recorder.StreamEnded(recorderFlush);
        screenChunks := Flushed(screenRecorder, screenChunks, screenFlush) + orphanScreen;
        screenRecorder := Stopped(screenRecorder);
      }
      screenStream, screenOrphans := false, 0;
    }

    /** The microphone half of `handleStopScreenShare` (src/App.tsx:269-272). */
    method StopMicTracks(audioFlush: nat, orphanAudio: seq<nat>)
      requires Valid()
      requires |orphanAudio| == (if micStream then micOrphans else 0)
      modifies this`micStream, this`micRecorder, this`audioChunks, this`micOrphans
      ensures !micStream && micOrphans == 0
      ensures micRecorder == (if old(micStream) then Stopped(old(micRecorder)) else old(micRecorder))
      ensures audioChunks == (if old(micStream)
                              then Flushed(old(micRecorder), old(audioChunks), audioFlush) + orphanAudio
                              else old(audioChunks))
      ensures Valid()
    {
      if micStream {
        audioChunks := Flushed(micRecorder, audioChunks, audioFlush) + orphanAudio;
        micRecorder := Stopped(micRecorder);
      }
      micStream, micOrphans := false, 0;
    }
  }

  /** As written, the start time keeps its initial 0, so with a real clock an
      utterance shorter than the minimum is not topped up: `speechEnd` stops the
      recorders at once, before the minimum has elapsed since speech started. */
  method ShortUtteranceAsWritten(s: Session, start: int, now: int) returns (delay: nat)
    requires s.Valid() && s.speechStartTime == 0
    requires MinRecordingMs <= start <= now < start + MinRecordingMs
    modifies s
    ensures delay == 0 && now + delay < start + MinRecordingMs
  {
    s.SpeechStartAsWritten(true);
    var request, spoken;
    delay, request, spoken := s.SpeechEnd(now, 0, 0, 0, [], [], QueryFailed, 0, 0, false);
  }

  /** With the start time recorded, `speechEnd` never stops the recorders
      before the minimum duration has elapsed since speech started, and waits
      no longer than that. */
  method MinimumRecording(s: Session, start: int, now: int) returns (delay: nat)
    requires s.Valid() && start <= now
    modifies s
    ensures now + delay >= start + MinRecordingMs
    ensures delay > 0 ==> now + delay == start + MinRecordingMs
  {
    s.SpeechStart(start, true);
    var request, spoken;
    delay, request, spoken := s.SpeechEnd(now, 0, 0, 0, [], [], QueryFailed, 0, 0, false);
  }

  /** Stopping the share a second time changes nothing: whatever the
      recorders would deliver then is never taken. */
  method StopShareTwice(s: Session, audio1: nat, screen1: nat, rec1: nat, orphanAudio: seq<nat>,
                        orphanScreen: seq<nat>, audio2: nat, screen2: nat, rec2: nat)
    requires s.Valid()
    requires |orphanAudio| == (if s.micStream then s.micOrphans else 0)
    requires |orphanScreen| == (if s.screenStream then s.screenOrphans else 0)
    modifies s, s.recorder
    ensures !s.screenStream && !s.micStream && !s.screenShareActive
    ensures s.micOrphans == 0 && s.screenOrphans == 0
    ensures s.audioChunks == if old(s.micStream)
                             then Flushed(old(s.micRecorder), old(s.audioChunks), audio1) + orphanAudio
                             else old(s.audioChunks)
    ensures s.screenChunks == if old(s.screenStream)
                              then Flushed(old(s.screenRecorder), old(s.screenChunks), screen1) + orphanScreen
                              else old(s.screenChunks)
    ensures s.recorder.chunks == if old(s.screenStream) && old(s.recorder.recording)
                                 then Pushed(old(s.recorder.chunks), rec1) else old(s.recorder.chunks)
    ensures s.messages == old(s.messages)
  {
    s.HandleStopScreenShare(audio1, screen1, rec1, orphanAudio, orphanScreen);
    s.HandleStopScreenShare(audio2, screen2, rec2, [], []);
  }

  /** The voice detector may report a second start of speech with no end in
      between. The first microphone recorder is then orphaned: the end of
      speech stops only the second one, and the first one's recording lands in
      the microphone buffer when the share is stopped. */
  method RestartOrphansRecorder(s: Session, flush: nat, screenFlush: nat, orphan: nat)
    requires s.Valid() && s.micStream && s.micRecorder != Recording && s.micOrphans == 0
    modifies s, s.recorder
    ensures s.audioChunks == [flush, orphan]
    ensures s.micOrphans == 0 && !s.micStream
  {
    s.SpeechStartAsWritten(true);
    s.SpeechStartAsWritten(true);
    assert s.micOrphans == 1;
    s.StopRecorders(flush, screenFlush);
    assert s.audioChunks == [flush] && s.micRecorder == Inactive;
    s.HandleStopScreenShare(0, 0, 0, [orphan], seq(if s.screenStream then s.screenOrphans else 0, _ => 0));
  }

  /** Two end-of-speech events within one render leave a single pending timer;
      a re-render between them loses the first handle and both stay pending. */
  method DebounceAcrossRender(s: Session, t1: int, t2: int, rerender: bool)
    requires s.Valid() && s.timers == map[]
    modifies s
    ensures !rerender ==> |s.timers.Keys| == 1
    ensures rerender ==> |s.timers.Keys| == 2
  {
    s.DebouncedSpeechEnd(t1);
    ghost var first := s.nextTimer - 1;
    if rerender {
      s.Render();
    }
    s.DebouncedSpeechEnd(t2);
    ghost var second := s.nextTimer - 1;
    if rerender {
      assert s.timers.Keys == {first, second};
    } else {
      assert s.timers.Keys == {second};
    }
  }
}
