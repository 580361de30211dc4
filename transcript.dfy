/** The chat transcript of `App` (src/App.tsx:20-37) and the updates the voice and
    typed turns make to it: placeholders appended, resolved in place with `map`,
    removed with `filter`, and messages appended after them.  Each whole turn is
    specified here as a function of the old transcript and of what the browser
    and the backends returned; `App.Session` performs the same steps one by one. */
module Transcript {
  import opened Common
  import opened Strings
  import opened ReplyParser
  import ReplyFormat

  datatype Sender = User | AI

  /** `videoBase` is absent (`None`) on every message but a resolved voice turn. */
  datatype Message = Message(id: int, text: string, sender: Sender, videoBase: Option<string>)

  const Greeting: string := "How may I help you?"
  const Trouble: string := "Sorry, I had trouble understanding that."
  const ApiError: string := "Error reaching Gemini API."
  const Thinking: string := "Thinking..."

  const Listening: string := "listening"
  const Processing: string := "processing"
  const ThinkingStatus: string := "thinking"
  const Generating: string := "generating"

  /** The initial transcript: one AI greeting with id 1. */
  function Initial(): (ms: seq<Message>)
    ensures |ms| == 1 && ms[0].sender == AI && ms[0].id == 1 && ms[0].text == Greeting
  {
    [Message(1, Greeting, AI, None)]
  }

  /** An empty message that is filled in or removed once the backend has answered. */
  function Placeholder(id: int, sender: Sender): Message {
    Message(id, "", sender, None)
  }

  /** No message of `ms` carries `id`. */
  predicate Fresh(ms: seq<Message>, id: int) {
    forall i :: 0 <= i < |ms| ==> ms[i].id != id
  }

  /** Every message has some text: placeholders never outlive their turn. */
  predicate NoEmptyText(ms: seq<Message>) {
    forall i :: 0 <= i < |ms| ==> ms[i].text != []
  }

  // ---------------------------------------------------------------------------
  // filter, map, concat
  // ---------------------------------------------------------------------------

  /** `ms.filter((msg) => msg.id !== id)`. */
  function WithoutId(ms: seq<Message>, id: int): (r: seq<Message>)
    ensures |r| <= |ms|
    decreases |ms|
  {
    if ms == [] then []
    else if ms[0].id == id then WithoutId(ms[1..], id)
    else [ms[0]] + WithoutId(ms[1..], id)
  }

  /** The filter drops exactly the messages carrying `id`... */
  lemma {:induction false} WithoutIdMembers(ms: seq<Message>, id: int)
    ensures forall m :: m in WithoutId(ms, id) <==> m in ms && m.id != id
    decreases |ms|
  {
    if ms != [] {
      WithoutIdMembers(ms[1..], id);
      assert ms == [ms[0]] + ms[1..];
    }
  }

  /** ...and keeps the others in their order. */
  lemma {:induction false} WithoutIdOrder(ms: seq<Message>, id: int)
    ensures IsSubsequence(WithoutId(ms, id), ms)
    decreases |ms|
  {
    if ms != [] {
      var rest := WithoutId(ms[1..], id);
      WithoutIdOrder(ms[1..], id);
      if ms[0].id == id {
        WithoutIdMembers(ms[1..], id);
        assert rest != [] ==> rest[0] in rest && rest[0] != ms[0];
      } else {
        assert ([ms[0]] + rest)[1..] == rest;
      }
    }
  }

  /** `ms.map((msg) => msg.id === id ? { ...msg, text, videoBase } : msg)`, where
      `video` is the `videoBase` the update sets, `None` for an update that leaves it. */
  function Resolve(ms: seq<Message>, id: int, text: string, video: Option<string>): (r: seq<Message>)
    ensures |r| == |ms|
    decreases |ms|
  {
    if ms == [] then []
    else
      var m := ms[0];
      var m' := if m.id == id then m.(text := text, videoBase := if video.Some? then video else m.videoBase) else m;
      [m'] + Resolve(ms[1..], id, text, video)
  }

  /** Every message carrying `id` gets the new text (and video, when one is given);
      every other message stays as it is, in place. */
  lemma {:induction false} ResolveAt(ms: seq<Message>, id: int, text: string, video: Option<string>, i: nat)
    requires i < |ms|
    ensures var r := Resolve(ms, id, text, video)[i];
      && r.id == ms[i].id && r.sender == ms[i].sender
      && (ms[i].id != id ==> r == ms[i])
      && (ms[i].id == id ==> r.text == text && r.videoBase == if video.Some? then video else ms[i].videoBase)
    decreases i
  {
    if i > 0 {
      ResolveAt(ms[1..], id, text, video, i - 1);
    }
  }

  lemma {:induction false} WithoutIdAppend(a: seq<Message>, b: seq<Message>, id: int)
    ensures WithoutId(a + b, id) == WithoutId(a, id) + WithoutId(b, id)
    decreases |a|
  {
    if a != [] {
      assert (a + b)[1..] == a[1..] + b;
      WithoutIdAppend(a[1..], b, id);
      if a[0].id != id {
        assert [a[0]] + WithoutId(a[1..], id) + WithoutId(b, id) == [a[0]] + (WithoutId(a[1..], id) + WithoutId(b, id));
      }
    } else {
      assert a + b == b;
    }
  }

  /** Filtering out an id no message carries changes nothing. */
  lemma {:induction false} WithoutIdFresh(ms: seq<Message>, id: int)
    requires Fresh(ms, id)
    ensures WithoutId(ms, id) == ms
    decreases |ms|
  {
    if ms != [] {
      WithoutIdFresh(ms[1..], id);
      assert [ms[0]] + ms[1..] == ms;
    }
  }

  /** Removing a placeholder just appended with a fresh id restores the transcript. */
  lemma WithoutAppended(ms: seq<Message>, m: Message)
    requires Fresh(ms, m.id)
    ensures WithoutId(ms + [m], m.id) == ms
  {
    WithoutIdAppend(ms, [m], m.id);
    WithoutIdFresh(ms, m.id);
    assert WithoutId([m], m.id) == [];
    assert ms + [] == ms;
  }

  /** Resolving a placeholder just appended with a fresh id changes only that one. */
  lemma ResolveAppended(ms: seq<Message>, m: Message, text: string, video: Option<string>)
    requires Fresh(ms, m.id)
    ensures Resolve(ms + [m], m.id, text, video) ==
              ms + [m.(text := text, videoBase := if video.Some? then video else m.videoBase)]
  {
    var s := ms + [m];
    var r := Resolve(s, m.id, text, video);
    var e := ms + [m.(text := text, videoBase := if video.Some? then video else m.videoBase)];
    forall i | 0 <= i < |s| ensures r[i] == e[i] {
      ResolveAt(s, m.id, text, video, i);
      if i < |ms| {
        assert s[i] == ms[i];
      }
    }
  }

  /** Every message has text except, possibly, those carrying `id`. */
  predicate TextUnlessId(ms: seq<Message>, id: int) {
    forall i :: 0 <= i < |ms| && ms[i].id != id ==> ms[i].text != []
  }

  /** Removing the messages that carry `id` leaves only messages with text. */
  lemma WithoutIdText(ms: seq<Message>, id: int)
    requires TextUnlessId(ms, id)
    ensures NoEmptyText(WithoutId(ms, id))
  {
    var r := WithoutId(ms, id);
    WithoutIdMembers(ms, id);
    forall i | 0 <= i < |r| ensures r[i].text != [] {
      assert r[i] in r;
      var j :| 0 <= j < |ms| && ms[j] == r[i];
    }
  }

  /** Giving the messages that carry `id` some text leaves only messages with text. */
  lemma ResolveText(ms: seq<Message>, id: int, text: string, video: Option<string>)
    requires TextUnlessId(ms, id) && text != []
    ensures NoEmptyText(Resolve(ms, id, text, video))
  {
    forall i | 0 <= i < |ms| ensures Resolve(ms, id, text, video)[i].text != [] {
      ResolveAt(ms, id, text, video, i);
    }
  }

  /** Appending a placeholder, and then messages with text, to a transcript whose
      messages all have text. */
  lemma PendingText(ms: seq<Message>, p: Message, extra: seq<Message>)
    requires NoEmptyText(ms) && NoEmptyText(extra)
    ensures TextUnlessId(ms + [p] + extra, p.id)
  {
    var s := ms + [p] + extra;
    forall i | 0 <= i < |s| && s[i].id != p.id ensures s[i].text != [] {
      if i < |ms| {
        assert s[i] == ms[i];
      } else if i > |ms| {
        assert s[i] == extra[i - |ms| - 1];
      }
    }
  }

  // ---------------------------------------------------------------------------
  // The voice turn (src/App.tsx:110-203)
  // ---------------------------------------------------------------------------

  /** What `handleQuery` hands back to `speechEnd`: the reply text, or nothing when
      the backend call threw (its catch block has already appended the trouble
      message then). A reply whose text is undefined is `Answered("")`. */
  datatype QueryOutcome = Answered(text: string) | QueryFailed

  /** What the reply decides, applied to the transcript once the query has run. */
  function Settle(queried: seq<Message>, pid: int, d: Decision, video: string, aid: int): seq<Message> {
    match d
    case Rejected => WithoutId(queried, pid)
    case Resolved(transcript, result) =>
      Resolve(queried, pid, transcript, Some(video)) + [Message(aid, result, AI, None)]
    case Fallback(text) => WithoutId(queried, pid) + [Message(aid, text, AI, None)]
  }

  /** The transcript after one voice turn, from the one before it.  `placeholderId`,
      `troubleId` and `answerId` are the ids `Date.now()` and `Math.random()` gave;
      `audioSize` and `screenSize` are the sizes of the two assembled blobs; `video`
      is the screen recording's data URL.  The status ends null on every path. */
  function VoiceTurn(ms: seq<Message>, placeholderId: int, audioSize: nat, screenSize: nat,
                     outcome: QueryOutcome, video: string, troubleId: int, answerId: int): seq<Message>
  {
    var pending := ms + [Placeholder(placeholderId, User)];
    if audioSize == 0 || screenSize == 0 then WithoutId(pending, placeholderId)
    else
      var queried := if outcome.QueryFailed? then pending + [Message(troubleId, Trouble, AI, None)] else pending;
      var reply := if outcome.QueryFailed? then "" else outcome.text;
      Settle(queried, placeholderId, Decide(reply), video, answerId)
  }

  /** An empty audio recording, an empty screen recording, or a reply holding the
      rejection token removes exactly the messages carrying the placeholder id and
      appends nothing. */
  lemma VoiceAborts(ms: seq<Message>, pid: int, audioSize: nat, screenSize: nat,
                    reply: string, video: string, tid: int, aid: int)
    requires audioSize == 0 || screenSize == 0 || Contains(reply, Sentinel)
    ensures VoiceTurn(ms, pid, audioSize, screenSize, Answered(reply), video, tid, aid) == WithoutId(ms, pid)
  {
    WithoutIdAppend(ms, [Placeholder(pid, User)], pid);
    assert WithoutId([Placeholder(pid, User)], pid) == [];
    assert WithoutId(ms, pid) + [] == WithoutId(ms, pid);
  }

  /** With a fresh placeholder id the aborted turn leaves the transcript as it was. */
  lemma VoiceAbortsFresh(ms: seq<Message>, pid: int, audioSize: nat, screenSize: nat,
                         reply: string, video: string, tid: int, aid: int)
    requires Fresh(ms, pid)
    requires audioSize == 0 || screenSize == 0 || Contains(reply, Sentinel)
    ensures VoiceTurn(ms, pid, audioSize, screenSize, Answered(reply), video, tid, aid) == ms
  {
    VoiceAborts(ms, pid, audioSize, screenSize, reply, video, tid, aid);
    WithoutIdFresh(ms, pid);
  }

  /** A reply with both fields fills the placeholder in place with the transcript and
      the video, and appends exactly one AI message with the result at the end. */
  lemma VoiceResolves(ms: seq<Message>, pid: int, audioSize: nat, screenSize: nat,
                      reply: string, video: string, tid: int, aid: int)
    requires Fresh(ms, pid) && audioSize > 0 && screenSize > 0
    requires Decide(reply).Resolved?
    ensures VoiceTurn(ms, pid, audioSize, screenSize, Answered(reply), video, tid, aid)
            == ms + [Message(pid, TranscriptField(reply).value, User, Some(video)),
                     Message(aid, ResultField(reply).value, AI, None)]
  {
    ResolveAppended(ms, Placeholder(pid, User), Decide(reply).transcript, Some(video));
  }

  /** Any other reply removes the placeholder and appends one AI message: the result
      field when there is one, the fixed apology otherwise. */
  lemma VoiceFallsBack(ms: seq<Message>, pid: int, audioSize: nat, screenSize: nat,
                       reply: string, video: string, tid: int, aid: int)
    requires Fresh(ms, pid) && audioSize > 0 && screenSize > 0
    requires !Contains(reply, Sentinel) && !Decide(reply).Resolved?
    ensures VoiceTurn(ms, pid, audioSize, screenSize, Answered(reply), video, tid, aid)
            == ms + [Message(aid, Decide(reply).text, AI, None)]
    ensures ResultField(reply).Some? && ResultField(reply).value != [] ==>
              Decide(reply).text == ResultField(reply).value
    ensures ResultField(reply).None? || ResultField(reply).value == [] ==> Decide(reply).text == NotUnderstood
  {
    WithoutAppended(ms, Placeholder(pid, User));
  }

  /** A failed backend call adds two AI messages: the trouble message from
      `handleQuery`, then the fixed apology, since the empty reply has no result. */
  lemma VoiceQueryFails(ms: seq<Message>, pid: int, audioSize: nat, screenSize: nat,
                        video: string, tid: int, aid: int)
    requires Fresh(ms, pid) && pid != tid && audioSize > 0 && screenSize > 0
    ensures VoiceTurn(ms, pid, audioSize, screenSize, QueryFailed, video, tid, aid)
            == ms + [Message(tid, Trouble, AI, None), Message(aid, NotUnderstood, AI, None)]
  {
    ReplyFormat.EmptyReplyFallsBack();
    var p := Placeholder(pid, User);
    var t := Message(tid, Trouble, AI, None);
    assert ms + [p] + [t] == ms + ([p] + [t]);
    WithoutIdAppend(ms, [p] + [t], pid);
    WithoutIdFresh(ms, pid);
    assert WithoutId([p] + [t], pid) == [t];
  }

  lemma AppendText(kept: seq<Message>, last: Message)
    requires NoEmptyText(kept) && last.text != []
    ensures NoEmptyText(kept + [last])
  {
    forall i | 0 <= i < |kept| + 1 ensures (kept + [last])[i].text != [] {
      if i < |kept| {
        assert (kept + [last])[i] == kept[i];
      }
    }
  }

  lemma SettleText(queried: seq<Message>, pid: int, d: Decision, video: string, aid: int)
    requires TextUnlessId(queried, pid)
    requires d.Resolved? ==> d.transcript != [] && d.result != []
    requires d.Fallback? ==> d.text != []
    ensures NoEmptyText(Settle(queried, pid, d, video, aid))
  {
    match d
    case Rejected => WithoutIdText(queried, pid);
    case Resolved(transcript, result) =>
      ResolveText(queried, pid, transcript, Some(video));
      AppendText(Resolve(queried, pid, transcript, Some(video)), Message(aid, result, AI, None));
    case Fallback(text) =>
      WithoutIdText(queried, pid);
      AppendText(WithoutId(queried, pid), Message(aid, text, AI, None));
  }

  /** A voice turn never leaves a message without text behind. */
  lemma VoiceKeepsText(ms: seq<Message>, pid: int, audioSize: nat, screenSize: nat,
                       outcome: QueryOutcome, video: string, tid: int, aid: int)
    requires NoEmptyText(ms)
    ensures NoEmptyText(VoiceTurn(ms, pid, audioSize, screenSize, outcome, video, tid, aid))
  {
    var p := Placeholder(pid, User);
    if audioSize == 0 || screenSize == 0 {
      PendingText(ms, p, []);
      assert ms + [p] + [] == ms + [p];
      WithoutIdText(ms + [p], pid);
    } else {
      var extra := if outcome.QueryFailed? then [Message(tid, Trouble, AI, None)] else [];
      PendingText(ms, p, extra);
      var reply := if outcome.QueryFailed? then "" else outcome.text;
      SettleText(ms + [p] + extra, pid, Decide(reply), video, aid);
      assert ms + [p] + extra == if outcome.QueryFailed? then ms + [p] + [Message(tid, Trouble, AI, None)] else ms + [p];
    }
  }

  // ---------------------------------------------------------------------------
  // The typed turn (src/App.tsx:284-368)
  // ---------------------------------------------------------------------------

  /** The transcript after `sendQueryToAI`: an AI placeholder goes up and is
      filled with the reply (or "Thinking..." when the reply is empty); a
      failed call (`reply == None`) replaces it with the error message. */
  function AIQuery(ms: seq<Message>, placeholderId: int, reply: Option<string>, errorId: int): seq<Message> {
    var pending := ms + [Placeholder(placeholderId, AI)];
    match reply
    case Some(answer) => Resolve(pending, placeholderId, if answer == [] then Thinking else answer, None)
    case None => WithoutId(pending, placeholderId) + [Message(errorId, ApiError, AI, None)]
  }

  /** The transcript after `handleSendMessage` with the input box holding `input`.
      `reply` is the backend's text (`None` when the call threw). */
  function TypedTurn(ms: seq<Message>, input: string, userId: int, placeholderId: int,
                     reply: Option<string>, errorId: int): seq<Message>
  {
    var text := Trim(input);
    if text == [] then ms
    else AIQuery(ms + [Message(userId, text, User, None)], placeholderId, reply, errorId)
  }

  /** Input that trims to nothing changes nothing. */
  lemma TypedBlankInput(ms: seq<Message>, input: string, uid: int, pid: int, reply: Option<string>, eid: int)
    requires AllSpace(input)
    ensures TypedTurn(ms, input, uid, pid, reply, eid) == ms
  {
    TrimStartAllSpace(input);
  }

  /** An answered query leaves one AI message with the reply, or "Thinking..."
      when the reply is empty, after the transcript it started from. */
  lemma AIQueryAnswered(ms: seq<Message>, pid: int, answer: string, eid: int)
    requires Fresh(ms, pid)
    ensures AIQuery(ms, pid, Some(answer), eid) == ms + [Message(pid, if answer == [] then Thinking else answer, AI, None)]
  {
    ResolveAppended(ms, Placeholder(pid, AI), if answer == [] then Thinking else answer, None);
  }

  /** A failed query leaves the error message after the transcript it started from. */
  lemma AIQueryFails(ms: seq<Message>, pid: int, eid: int)
    requires Fresh(ms, pid)
    ensures AIQuery(ms, pid, None, eid) == ms + [Message(eid, ApiError, AI, None)]
  {
    WithoutAppended(ms, Placeholder(pid, AI));
  }

  /** A reply appends the trimmed user message and an AI message with the reply, or
      "Thinking..." when the reply is empty. */
  lemma TypedAnswered(ms: seq<Message>, input: string, uid: int, pid: int, answer: string, eid: int)
    requires Trim(input) != [] && Fresh(ms, pid) && uid != pid
    ensures TypedTurn(ms, input, uid, pid, Some(answer), eid) ==
              ms + [Message(uid, Trim(input), User, None),
                    Message(pid, if answer == [] then Thinking else answer, AI, None)]
  {
    var u := Message(uid, Trim(input), User, None);
    var a := Message(pid, if answer == [] then Thinking else answer, AI, None);
    FreshAppend(ms, u, pid);
    AIQueryAnswered(ms + [u], pid, answer, eid);
    assert ms + [u] + [a] == ms + [u, a];
  }

  lemma FreshAppend(ms: seq<Message>, m: Message, id: int)
    requires Fresh(ms, id) && m.id != id
    ensures Fresh(ms + [m], id)
  {
    assert forall i :: 0 <= i < |ms| ==> (ms + [m])[i] == ms[i];
  }

  /** A failed call replaces the AI placeholder with the error message. */
  lemma TypedFails(ms: seq<Message>, input: string, uid: int, pid: int, eid: int)
    requires Trim(input) != [] && Fresh(ms, pid) && uid != pid
    ensures TypedTurn(ms, input, uid, pid, None, eid) ==
              ms + [Message(uid, Trim(input), User, None), Message(eid, ApiError, AI, None)]
  {
    var u := Message(uid, Trim(input), User, None);
    var e := Message(eid, ApiError, AI, None);
    FreshAppend(ms, u, pid);
    AIQueryFails(ms + [u], pid, eid);
    assert ms + [u] + [e] == ms + [u, e];
  }

  /** The ids are not guaranteed distinct: when the user message and the AI
      placeholder draw the same id, a failed call removes the user message too. */
  lemma TypedIdCollision(ms: seq<Message>, input: string, id: int, eid: int)
    requires Trim(input) != [] && Fresh(ms, id)
    ensures TypedTurn(ms, input, id, id, None, eid) == ms + [Message(eid, ApiError, AI, None)]
  {
    var u := Message(id, Trim(input), User, None);
    var p := Placeholder(id, AI);
    assert ms + [u] + [p] == ms + [u] + [p];
    WithoutIdAppend(ms + [u], [p], id);
    WithoutAppended(ms, u);
    assert WithoutId([p], id) == [];
    assert ms + [] == ms;
  }

  /** A query never leaves a message without text behind. */
  lemma AIQueryKeepsText(ms: seq<Message>, pid: int, reply: Option<string>, eid: int)
    requires NoEmptyText(ms)
    ensures NoEmptyText(AIQuery(ms, pid, reply, eid))
  {
    var p := Placeholder(pid, AI);
    var pending := ms + [p];
    PendingText(ms, p, []);
    assert ms + [p] + [] == pending;
    match reply
    case Some(answer) =>
      ResolveText(pending, pid, if answer == [] then Thinking else answer, None);
    case None =>
      var kept := WithoutId(pending, pid);
      var last := Message(eid, ApiError, AI, None);
      WithoutIdText(pending, pid);
      forall i | 0 <= i < |kept| + 1 ensures (kept + [last])[i].text != [] {
        if i < |kept| {
          assert (kept + [last])[i] == kept[i];
        }
      }
  }

  /** A typed turn never leaves a message without text behind. */
  lemma TypedKeepsText(ms: seq<Message>, input: string, uid: int, pid: int, reply: Option<string>, eid: int)
    requires NoEmptyText(ms)
    ensures NoEmptyText(TypedTurn(ms, input, uid, pid, reply, eid))
  {
    var text := Trim(input);
    if text != [] {
      var u := Message(uid, text, User, None);
      AppendText(ms, u);
      AIQueryKeepsText(ms + [u], pid, reply, eid);
    }
  }

  // ---------------------------------------------------------------------------
  // The history sent with each query (src/App.tsx:298-301, 375-378)
  // ---------------------------------------------------------------------------

  datatype Turn = Turn(role: string, text: string)

  function Role(s: Sender): string {
    if s == User then "user" else "model"
  }

  /** `messages.map((msg) => ({ role: ..., parts: [{ text: msg.text }] }))`. */
  function History(ms: seq<Message>): (h: seq<Turn>)
    ensures |h| == |ms|
    ensures forall i :: 0 <= i < |ms| ==> h[i] == Turn(Role(ms[i].sender), ms[i].text)
    decreases |ms|
  {
    if ms == [] then [] else [Turn(Role(ms[0].sender), ms[0].text)] + History(ms[1..])
  }

  /** Each role names its sender: "user" exactly for user messages, "model" for AI. */
  lemma HistoryRoles(ms: seq<Message>, i: nat)
    requires i < |ms|
    ensures History(ms)[i].role == "user" <==> ms[i].sender == User
    ensures History(ms)[i].role == "model" <==> ms[i].sender == AI
  {
  }

  /** The history of a longer transcript extends the history of the shorter one. */
  lemma HistoryAppend(a: seq<Message>, b: seq<Message>)
    ensures History(a + b) == History(a) + History(b)
  {
    assert forall i :: 0 <= i < |a| ==> (a + b)[i] == a[i];
    assert forall i :: 0 <= i < |b| ==> (a + b)[|a| + i] == b[i];
  }

  // ---------------------------------------------------------------------------
  // Where the status indicator is drawn (src/App.tsx:495-513)
  // ---------------------------------------------------------------------------

  predicate ShowInAIBubble(ms: seq<Message>, idx: int, status: Option<string>) {
    && idx == |ms| - 1 && 0 <= idx
    && ms[idx].sender == AI
    && status.Some? && status.value != [] && status.value in [ThinkingStatus, Generating]
  }

  predicate ShowInUserBubble(ms: seq<Message>, idx: int, status: Option<string>) {
    && idx == |ms| - 1 && 0 <= idx
    && ms[idx].sender == User
    && status.Some? && status.value != [] && status.value in [Listening, Processing]
  }

  /** At most one bubble carries the indicator, always the last one, and never both
      kinds at once. */
  lemma IndicatorPlacement(ms: seq<Message>, status: Option<string>, i: int, j: int)
    ensures ShowInAIBubble(ms, i, status) ==> i == |ms| - 1 && !ShowInUserBubble(ms, j, status)
    ensures ShowInUserBubble(ms, i, status) ==> i == |ms| - 1 && !ShowInAIBubble(ms, j, status)
    ensures ((ShowInAIBubble(ms, i, status) || ShowInUserBubble(ms, i, status)) &&
             (ShowInAIBubble(ms, j, status) || ShowInUserBubble(ms, j, status))) ==> i == j
  {
  }

  /** While a voice reply is awaited, "processing" is drawn on the user placeholder;
      while a typed reply is awaited, "thinking" is drawn on the AI placeholder. */
  lemma IndicatorWhileWaiting(ms: seq<Message>, pid: int, user: Message)
    ensures ShowInUserBubble(ms + [Placeholder(pid, User)], |ms|, Some(Processing))
    ensures ShowInAIBubble(ms + [user, Placeholder(pid, AI)], |ms| + 1, Some(ThinkingStatus))
  {
  }
}
