/** The screen recorder of src/recordScreen.ts: module-level state (the current
    MediaRecorder, its chunk buffer and the captured display stream) driven by
    start, stop and discard. The browser objects are reduced to the facts the
    functions test and change: whether a recorder exists, whether it is
    recording, the sizes of the buffered chunks, whether the display stream's
    tracks are live and whether the assembling `onstop` handler is attached. */
module RecordScreen {
  import opened Common
  import opened DataUri

  /** The buffer never holds an empty chunk. */
  predicate NoEmptyChunk(chunks: seq<nat>) {
    forall i :: 0 <= i < |chunks| ==> chunks[i] > 0
  }

  /** What the `ondataavailable` handler does with a chunk of the given size:
      it keeps it only when it holds data. */
  function Pushed(chunks: seq<nat>, size: nat): (r: seq<nat>)
    ensures NoEmptyChunk(chunks) ==> NoEmptyChunk(r)
    ensures Sum(r) == Sum(chunks) + size
    ensures size > 0 ==> |r| == |chunks| + 1 && r[..|chunks|] == chunks && r[|chunks|] == size
    ensures size == 0 ==> r == chunks
  {
    SumAppend(chunks, size);
    if size > 0 then chunks + [size] else chunks
  }

  /** What the `onstop` handler resolves with, given the buffered chunks and the
      reader's data URL for their Blob: "" for an empty recording, otherwise the
      video prefix followed by the reader's payload. */
  function StopResult(chunks: seq<nat>, dataUrl: string): (r: string)
    ensures r == [] <==> Sum(chunks) == 0
    ensures Sum(chunks) > 0 ==> VideoPrefix <= r && StripPrefix(r, VideoPrefix) == RecordingPayload(dataUrl)
  {
    if Sum(chunks) > 0 then
      StripAddedPrefix(VideoPrefix, RecordingPayload(dataUrl));
      VideoPrefix + RecordingPayload(dataUrl)
    else []
  }

  /** The reader's data URL for a video Blob is the same prefix followed by base64
      text, which holds no comma: the recorder then hands back exactly that URL. */
  lemma StopKeepsReaderUrl(chunks: seq<nat>, base64: string)
    requires Sum(chunks) > 0
    requires ',' !in base64
    ensures StopResult(chunks, VideoPrefix + base64) == VideoPrefix + base64
  {
    VideoPayload(base64);
  }

  class ScreenRecorder {
    /** `mediaRecorder` has been assigned (it is undefined until the first start). */
    var hasRecorder: bool
    /** `mediaRecorder.state === "recording"`. */
    var recording: bool
    /** The sizes of the Blobs in `recordedChunks`. */
    var chunks: seq<nat>
    /** The tracks of `screenStream` are running. */
    var streamLive: bool
    /** `mediaRecorder.onstop` is the handler that assembles the recording. */
    var onStopAttached: bool

    ghost predicate Valid()
      reads this
    {
      && (recording ==> hasRecorder && !onStopAttached)
      && (onStopAttached ==> hasRecorder)
      && NoEmptyChunk(chunks)
    }

    /** The state when the module is loaded. */
    constructor ()
      ensures Valid()
      ensures !hasRecorder && !recording && chunks == [] && !streamLive && !onStopAttached
    {
      hasRecorder, recording, chunks, streamLive, onStopAttached := false, false, [], false, false;
    }

    /** `startScreenRecording` (src/recordScreen.ts:33-55). When the display
        capture is refused the promise rejects before anything changes. Once it
        is granted, the new stream is kept and the buffer is emptied; then a
        recorder for the VP9 WebM type is built, which throws when the browser
        does not support that type (`supported` is false), leaving the previous
        recorder in place. Otherwise a fresh recorder, without an `onstop`
        handler, starts recording the new stream. */
    method Start(granted: bool, supported: bool) returns (ok: bool)
      requires Valid()
      modifies this
      ensures Valid()
      ensures ok == (granted && supported)
      ensures !granted ==> unchanged(this)
      ensures granted ==> chunks == [] && streamLive
      ensures granted && !supported ==> unchanged(this`hasRecorder, this`recording, this`onStopAttached)
      ensures ok ==> hasRecorder && recording && !onStopAttached
    {
      if !granted {
        return false;
      }
      streamLive := true;
      chunks := [];
      if !supported {
        return false;
      }
      hasRecorder, recording, onStopAttached := true, true, false;
      ok := true;
    }

    /** The recorder's `ondataavailable` handler (src/recordScreen.ts:46-50). */
    method OnDataAvailable(size: nat)
      requires Valid() && hasRecorder
      modifies this`chunks
      ensures Valid()
      ensures chunks == Pushed(old(chunks), size)
    {
      chunks := Pushed(chunks, size);
    }

    /** `stopScreenRecording` (src/recordScreen.ts:57-78). When the recorder is
        recording, it attaches the assembling handler and stops; the recorder
        delivers its last chunk (`flush`) and then runs the handler, which stops
        the display tracks and resolves with the recording's data URI, built
        from the reader's data URL `dataUrl` of the assembled Blob. Otherwise it
        resolves with "" and changes nothing. */
    method Stop(flush: nat, dataUrl: string) returns (uri: string)
      requires Valid()
      modifies this
      ensures Valid()
      ensures old(recording) ==> hasRecorder && !recording && onStopAttached && !streamLive
      ensures old(recording) ==> chunks == Pushed(old(chunks), flush) && uri == StopResult(chunks, dataUrl)
      ensures !old(recording) ==> uri == [] && unchanged(this)
    {
      if hasRecorder && recording {
        onStopAttached := true;
        recording := false;
        OnDataAvailable(flush);
        streamLive := false;
        uri := StopResult(chunks, dataUrl);
      } else {
        uri := [];
      }
    }

    /** `discardScreenRecording` (src/recordScreen.ts:80-87). When the recorder
        is recording, it stops the tracks, detaches `onstop` so that no data URI
        is produced, stops the recorder and empties the buffer. The recorder's
        last chunk (`flush`) arrives after the function returns, so it lands in
        the emptied buffer. Otherwise it does nothing. */
    method Discard(flush: nat)
      requires Valid()
      modifies this
      ensures Valid()
      ensures old(recording) ==> hasRecorder && !recording && !onStopAttached && !streamLive
      ensures old(recording) ==> chunks == Pushed([], flush)
      ensures !old(recording) ==> unchanged(this)
    {
      if hasRecorder && recording {
        streamLive := false;
        onStopAttached := false;
        recording := false;
        chunks := [];
        OnDataAvailable(flush);
      }
    }

    /** The display stream ends from outside, as when the app stops its tracks
        (src/App.tsx:265-267): a recording recorder goes inactive and delivers
        its last chunk (`flush`) to the data handler; no `onstop` handler is
        attached while it records, so nothing is assembled. A recorder that is
        not recording is left as it is. */
    method StreamEnded(flush: nat)
      requires Valid()
      modifies this
      ensures Valid()
      ensures old(recording) ==> !recording && !streamLive && chunks == Pushed(old(chunks), flush)
      ensures old(recording) ==> unchanged(this`hasRecorder, this`onStopAttached)
      ensures !old(recording) ==> unchanged(this)
    {
      if recording {
        recording := false;
        OnDataAvailable(flush);
        streamLive := false;
      }
    }
  }

  /** After a discard, stopping yields "": the discarded recording cannot be
      recovered, and the buffer holds at most the chunk that arrived after
      the discard. */
  method DiscardThenStop(r: ScreenRecorder, last: nat, flush: nat, dataUrl: string) returns (uri: string)
    requires r.Valid() && r.recording
    modifies r
    ensures uri == [] && !r.recording && !r.onStopAttached
    ensures r.chunks == Pushed([], last)
  {
    r.Discard(last);
    uri := r.Stop(flush, dataUrl);
  }
}
