/** The data-URL handling around the recordings: the anchored prefix removal
    before a recording is sent (src/App.tsx:415, 424) and the comma split the
    screen recorder applies to the reader's result (src/recordScreen.ts:95). */
module DataUri {
  import opened Common

  const AudioPrefix: string := "data:audio/webm;base64,"
  /** The head of a video data URL, before the comma that opens the payload. */
  const VideoHead: string := "data:video/webm;base64"
  const VideoPrefix: string := VideoHead + ","
  /** What `${base64}` prints when `split(",")[1]` is undefined. */
  const Undefined: string := "undefined"

  /** `s.replace(/^prefix/, "")` for a prefix without special characters: removes it
      when `s` starts with it, case-sensitively, and leaves `s` alone otherwise. */
  function StripPrefix(s: string, prefix: string): (r: string)
    ensures prefix <= s ==> prefix + r == s
    ensures !(prefix <= s) ==> r == s
  {
    if prefix <= s then s[|prefix|..] else s
  }

  /** Removing the prefix undoes adding it. */
  lemma StripAddedPrefix(prefix: string, payload: string)
    ensures StripPrefix(prefix + payload, prefix) == payload
  {
    assert prefix <= prefix + payload;
  }

  /** The first comma at or after `i`. */
  function CommaFrom(s: string, i: nat): (r: Option<nat>)
    requires i <= |s|
    ensures r.Some? ==> i <= r.value < |s| && s[r.value] == ','
    ensures r.Some? ==> forall k :: i <= k < r.value ==> s[k] != ','
    ensures r.None? ==> forall k :: i <= k < |s| ==> s[k] != ','
    decreases |s| - i
  {
    if i == |s| then None else if s[i] == ',' then Some(i) else CommaFrom(s, i + 1)
  }

  /** `s.split(",")[1]`: the text between the first and the second comma (or the end),
      undefined when `s` has no comma. */
  function SecondField(s: string): (r: Option<string>)
    ensures r.Some? ==> ',' !in r.value
  {
    match CommaFrom(s, 0)
    case None => None
    case Some(i) =>
      var end := match CommaFrom(s, i + 1) case None => |s| case Some(j) => j;
      var field := s[i + 1..end];
      assert forall k :: 0 <= k < |field| ==> field[k] == s[i + 1 + k];
      Some(field)
  }

  /** A data URL whose media type holds no comma splits into that head and its
      payload, comma-free as base64 is. */
  lemma SecondFieldOf(head: string, payload: string)
    requires ',' !in head && ',' !in payload
    ensures SecondField(head + "," + payload) == Some(payload)
  {
    var s := head + "," + payload;
    var n := |head|;
    assert s[n] == ',';
    forall k | 0 <= k < |s| && k != n ensures s[k] != ',' {
      if k < n {
        assert s[k] == head[k] && head[k] in head;
      } else {
        assert s[k] == payload[k - n - 1] && payload[k - n - 1] in payload;
      }
    }
    assert CommaFrom(s, 0) == Some(n);
    assert CommaFrom(s, n + 1) == None;
    assert s[n + 1..|s|] == payload;
  }

  /** Without a comma there is no second field, and the template prints "undefined". */
  lemma NoCommaNoField(s: string)
    requires ',' !in s
    ensures SecondField(s) == None
  {
    forall k | 0 <= k < |s| ensures s[k] != ',' {
      assert s[k] in s;
    }
  }

  /** The screen recording's base64 text (src/recordScreen.ts:90-101). */
  function RecordingPayload(dataUrl: string): string {
    match SecondField(dataUrl)
    case None => Undefined
    case Some(p) => p
  }

  /** The media type and encoding of a video data URL hold no comma. */
  lemma VideoHeadNoComma()
    ensures ',' !in VideoHead
  {
    var h := VideoHead;
    forall k | 0 <= k < |h| ensures h[k] != ',' { }
  }

  /** The comma split recovers the payload of a video data URL. */
  lemma VideoPayload(base64: string)
    requires ',' !in base64
    ensures RecordingPayload(VideoPrefix + base64) == base64
  {
    VideoHeadNoComma();
    assert VideoPrefix + base64 == VideoHead + "," + base64;
    SecondFieldOf(VideoHead, base64);
  }
}
