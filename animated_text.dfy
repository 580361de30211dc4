/** The status animation (src/AnimatedText.tsx): which label, if any, an event
    string draws. */
module AnimatedText {
  import opened Common
  import Transcript

  datatype Label = ListeningLabel | ProcessingLabel | ThinkingLabel

  /** The `if` chain of `AnimatedText`; `None` is the component returning `null`. */
  function Classify(event: string): (r: Option<Label>)
    ensures r == Some(ListeningLabel) <==> event == "recording" || event == "listening"
    ensures r == Some(ProcessingLabel) <==> event == "processing"
    ensures r == Some(ThinkingLabel) <==> event == "generating" || event == "thinking"
    ensures r == None <==> event !in ["recording", "listening", "processing", "generating", "thinking"]
  {
    if event == "recording" || event == "listening" then Some(ListeningLabel)
    else if event == "processing" then Some(ProcessingLabel)
    else if event == "generating" || event == "thinking" then Some(ThinkingLabel)
    else None
  }

  /** Wherever the chat draws the animation, it draws a label: a voice status on
      the user bubble shows Listening or Processing, a typed status on the AI bubble
      shows Thinking. */
  lemma IndicatorHasLabel(ms: seq<Transcript.Message>, idx: int, status: Option<string>)
    ensures Transcript.ShowInUserBubble(ms, idx, status) ==>
              Classify(status.value) in {Some(ListeningLabel), Some(ProcessingLabel)}
    ensures Transcript.ShowInAIBubble(ms, idx, status) ==> Classify(status.value) == Some(ThinkingLabel)
  {
  }

  /** The idle event and every status the app never sets draw nothing. */
  lemma IdleDrawsNothing()
    ensures Classify("idle") == None
    ensures Classify("") == None
  {
  }
}
