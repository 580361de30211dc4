/** The voice-turn reply parser of `speechEnd` (src/App.tsx:160-173).

    The two regular expressions are modelled the way a backtracking engine runs
    them: the search tries each start position in turn, a greedy `\s*` first
    takes the whole run of blanks and gives it back one character at a time, the
    lazy `([^]+?)` grows one character at a time.  The lemmas below then state
    what the matches are in terms of label positions only. */
module ReplyParser {
  import opened Common
  import opened Strings

  const ResultLabel: string := "result:"
  const TranscriptLabel: string := "transcript:"
  /** The rejection token: a reply that contains it anywhere drops the voice turn. */
  const Sentinel: string := "QZOP"
  const NotUnderstood: string := "Sorry, I couldn't understand that."

  /** Length of the run of blanks starting at `i`: what a greedy `\s*` takes first. */
  function SpaceRun(s: string, i: nat): (n: nat)
    requires i <= |s|
    ensures i + n <= |s|
    decreases |s| - i
  {
    if i < |s| && IsSpace(s[i]) then 1 + SpaceRun(s, i + 1) else 0
  }

  /** The run is all blanks and ends on a non-blank or at the end of the input. */
  lemma {:induction false} SpaceRunBlank(s: string, i: nat)
    requires i <= |s|
    ensures SpacesBetween(s, i, i + SpaceRun(s, i))
    ensures i + SpaceRun(s, i) == |s| || !IsSpace(s[i + SpaceRun(s, i)])
    decreases |s| - i
  {
    if i < |s| && IsSpace(s[i]) {
      SpaceRunBlank(s, i + 1);
      assert SpaceAt(s, i);
    }
  }

  /** The run of blanks from `i` is determined by where the first non-blank is. */
  lemma {:induction false} SpaceRunUnique(s: string, i: nat, q: nat)
    requires i <= q <= |s| && SpacesBetween(s, i, q)
    requires q == |s| || !IsSpace(s[q])
    ensures i + SpaceRun(s, i) == q
    decreases q - i
  {
    if i < q {
      assert SpaceAt(s, i);
      SpaceRunUnique(s, i + 1, q);
    }
  }

  /** A label never starts on a blank. */
  lemma NoTranscriptOnSpace(s: string, j: int)
    requires 0 <= j < |s| && IsSpace(s[j])
    ensures !MatchesAt(s, j, TranscriptLabel)
  {
    assert TranscriptLabel[0] == 't';
    assert !EqIgnoreCase(s[j], TranscriptLabel[0]);
  }

  /** The character a label starts on is not blank. */
  lemma TranscriptNotBlank(s: string, j: int)
    requires MatchesAt(s, j, TranscriptLabel)
    ensures 0 <= j < |s| && !IsSpace(s[j])
  {
    assert TranscriptLabel[0] == 't';
    assert EqIgnoreCase(s[j], TranscriptLabel[0]);
  }

  /** No label starts inside a run of blanks. */
  lemma NoTranscriptInRun(s: string, i: nat, j: nat)
    requires i <= j <= |s| && SpacesBetween(s, i, j)
    ensures forall o :: i <= o < j ==> !MatchesAt(s, o, TranscriptLabel)
  {
    forall o | i <= o < j ensures !MatchesAt(s, o, TranscriptLabel) {
      assert SpaceAt(s, o);
      NoTranscriptOnSpace(s, o);
    }
  }

  // ---------------------------------------------------------------------------
  // /result:\s*([^]+?)\s*transcript:/i
  // ---------------------------------------------------------------------------

  /** `\s*transcript:` tried at `e` after the greedy `\s*` took `m` blanks, giving them
      back one at a time.  Only the full run can be followed by the label. */
  predicate SpacesThenTranscript(s: string, e: nat, m: nat)
    requires e + m <= |s|
    decreases m
  {
    MatchesAt(s, e + m, TranscriptLabel) || (m > 0 && SpacesThenTranscript(s, e, m - 1))
  }

  /** Giving back blanks never helps: `transcript:` does not start on a blank. */
  lemma {:induction false} SpacesThenTranscriptAtRun(s: string, e: nat, m: nat)
    requires e + m <= |s| && SpacesBetween(s, e, e + m)
    ensures SpacesThenTranscript(s, e, m) <==> MatchesAt(s, e + m, TranscriptLabel)
    decreases m
  {
    if m > 0 {
      assert SpaceAt(s, e + m - 1);
      NoTranscriptOnSpace(s, e + m - 1);
      SpacesThenTranscriptAtRun(s, e, m - 1);
    }
  }

  /** The lazy group `([^]+?)`: the shortest end, from `e` on, after which
      `\s*transcript:` matches. */
  function LazyGroupEnd(s: string, e: nat): (r: Option<nat>)
    requires e <= |s|
    ensures r.Some? ==> e <= r.value <= |s|
    decreases |s| - e
  {
    if SpacesThenTranscript(s, e, SpaceRun(s, e)) then Some(e)
    else if e == |s| then None
    else LazyGroupEnd(s, e + 1)
  }

  /** Where the lazy group stops, the blanks after it are followed by `transcript:`. */
  lemma {:induction false} LazyGroupEndMatches(s: string, e: nat)
    requires e <= |s|
    ensures LazyGroupEnd(s, e).Some? ==>
              MatchesAt(s, LazyGroupEnd(s, e).value + SpaceRun(s, LazyGroupEnd(s, e).value), TranscriptLabel)
    decreases |s| - e
  {
    SpaceRunBlank(s, e);
    SpacesThenTranscriptAtRun(s, e, SpaceRun(s, e));
    if !SpacesThenTranscript(s, e, SpaceRun(s, e)) && e < |s| {
      LazyGroupEndMatches(s, e + 1);
    }
  }

  /** The match attempt at a label found at `p`, the leading `\s*` holding `k` blanks;
      gives the bounds of capture group 1. */
  function ResultAfterLabel(s: string, p: nat, k: nat): (r: Option<(nat, nat)>)
    requires p + |ResultLabel| + k <= |s|
    ensures r.Some? ==> p + |ResultLabel| <= r.value.0 < r.value.1 <= |s|
    decreases k
  {
    var q := p + |ResultLabel| + k;
    var e := if q < |s| then LazyGroupEnd(s, q + 1) else None;
    if e.Some? then Some((q, e.value))
    else if k == 0 then None
    else ResultAfterLabel(s, p, k - 1)
  }

  /** `String.prototype.match` without the `g` flag: the first start position from
      `p` on where the whole pattern matches. */
  function ResultSearch(s: string, p: nat): (r: Option<(nat, nat)>)
    requires p <= |s|
    ensures r.Some? ==> r.value.0 < r.value.1 <= |s|
    decreases |s| - p
  {
    var here := if MatchesAt(s, p, ResultLabel)
                then ResultAfterLabel(s, p, SpaceRun(s, p + |ResultLabel|)) else None;
    if here.Some? then here
    else if p == |s| then None
    else ResultSearch(s, p + 1)
  }

  /** `responseMatch?.[1]`. */
  function ResultGroup(s: string): Option<string> {
    match ResultSearch(s, 0)
    case None => None
    case Some((a, b)) => Some(s[a..b])
  }

  // ---------------------------------------------------------------------------
  // .replace(/[,\\s]+$/, '') -- the class holds ',', '\' and the letter 's'
  // ---------------------------------------------------------------------------

  predicate IsStripChar(c: char) {
    c == ',' || c == '\\' || c == 's'
  }

  /** Length of the run of class characters from `i`: what a greedy `[,\\s]+` takes first. */
  function StripRun(s: string, i: nat): (n: nat)
    requires i <= |s|
    ensures i + n <= |s|
    decreases |s| - i
  {
    if i < |s| && IsStripChar(s[i]) then 1 + StripRun(s, i + 1) else 0
  }

  /** `[,\\s]+$` tried at `i` with `n` class characters taken, backtracking. */
  predicate StripThenEnd(s: string, i: nat, n: nat)
    requires i + n <= |s|
    ensures StripThenEnd(s, i, n) <==> 1 <= n && i + n == |s|
    decreases n
  {
    n >= 1 && (i + n == |s| || StripThenEnd(s, i, n - 1))
  }

  /** The search for `[,\\s]+$` from position `i`. */
  function TrailingMatch(s: string, i: nat): (r: Option<nat>)
    requires i <= |s|
    requires i == 0 || !IsStripChar(s[i - 1]) || StripRun(s, i) < |s| - i
    ensures r.Some? ==> i <= r.value < |s| && r.value + StripRun(s, r.value) == |s|
    ensures r.Some? ==> r.value == 0 || !IsStripChar(s[r.value - 1])
    ensures r.None? ==> s == [] || !IsStripChar(s[|s| - 1])
    decreases |s| - i
  {
    if StripThenEnd(s, i, StripRun(s, i)) then Some(i)
    else if i == |s| then None
    else TrailingMatch(s, i + 1)
  }

  /** A run of class characters reaching the end is a run of class characters. */
  lemma StripRunChars(s: string, i: nat)
    requires i <= |s|
    ensures forall k :: i <= k < i + StripRun(s, i) ==> IsStripChar(s[k])
    decreases |s| - i
  {
    if i < |s| && IsStripChar(s[i]) {
      StripRunChars(s, i + 1);
    }
  }

  /** `t.replace(/[,\\s]+$/, '')`: drops the longest trailing run of ',', '\' and 's'. */
  function StripTrailing(t: string): (r: string)
    ensures |r| <= |t| && r == t[..|r|]
    ensures forall k :: |r| <= k < |t| ==> IsStripChar(t[k])
    ensures r == [] || !IsStripChar(r[|r| - 1])
  {
    match TrailingMatch(t, 0)
    case None => t
    case Some(i) => StripRunChars(t, i); t[..i]
  }

  /** The stripped text is determined by its two defining properties. */
  lemma StripTrailingOf(u: string, tail: string)
    requires forall k :: 0 <= k < |tail| ==> IsStripChar(tail[k])
    requires u == [] || !IsStripChar(u[|u| - 1])
    ensures StripTrailing(u + tail) == u
  {
    var t := u + tail;
    var r := StripTrailing(t);
    if u != [] {
      assert t[|u| - 1] == u[|u| - 1];
    }
    assert |u| <= |r|;
    assert forall k :: |u| <= k < |t| ==> IsStripChar(t[k]) by {
      forall k | |u| <= k < |t| ensures IsStripChar(t[k]) {
        assert t[k] == tail[k - |u|];
      }
    }
    assert |r| <= |u|;
    assert r == t[..|u|] == u;
  }

  /** `responseMatch?.[1]?.trim() || null`, then the strip when that is non-null. The
      value may be `Some("")`: the strip can empty a non-empty trimmed text. */
  function ResultField(s: string): Option<string> {
    match ResultGroup(s)
    case None => None
    case Some(g) => var t := Trim(g); if t == [] then None else Some(StripTrailing(t))
  }

  // ---------------------------------------------------------------------------
  // /transcript:\s*([^]+)/i
  // ---------------------------------------------------------------------------

  /** The match attempt at a label found at `p` with `k` blanks in `\s*`; greedy
      `([^]+)` takes the rest of the input, so it succeeds whenever one character
      remains. */
  function TranscriptAfterLabel(s: string, p: nat, k: nat): (r: Option<(nat, nat)>)
    requires p + |TranscriptLabel| + k <= |s|
    ensures r.Some? ==> p + |TranscriptLabel| <= r.value.0 <= p + |TranscriptLabel| + k
    ensures r.Some? ==> r.value.0 < r.value.1 == |s|
    decreases k
  {
    var q := p + |TranscriptLabel| + k;
    if q < |s| then Some((q, |s|))
    else if k == 0 then None
    else TranscriptAfterLabel(s, p, k - 1)
  }

  function TranscriptSearch(s: string, p: nat): (r: Option<(nat, nat)>)
    requires p <= |s|
    ensures r.Some? ==> r.value.0 < r.value.1 <= |s|
    decreases |s| - p
  {
    var here := if MatchesAt(s, p, TranscriptLabel)
                then TranscriptAfterLabel(s, p, SpaceRun(s, p + |TranscriptLabel|)) else None;
    if here.Some? then here
    else if p == |s| then None
    else TranscriptSearch(s, p + 1)
  }

  /** `transcriptMatch?.[1]?.trim() || null`. */
  function TranscriptField(s: string): Option<string> {
    match TranscriptSearch(s, 0)
    case None => None
    case Some((a, b)) => var t := Trim(s[a..b]); if t == [] then None else Some(t)
  }

  // ---------------------------------------------------------------------------
  // The decision taken on the reply
  // ---------------------------------------------------------------------------

  datatype Decision =
    | Rejected                                   // the sentinel: drop the turn
    | Resolved(transcript: string, result: string) // both fields truthy
    | Fallback(text: string)                     // an AI-only message

  /** What `speechEnd` does with the reply text (src/App.tsx:160-200). */
  function Decide(reply: string): (d: Decision)
    ensures d.Rejected? <==> Contains(reply, Sentinel)
    ensures d.Resolved? ==> d.transcript != [] && d.result != []
    ensures d.Resolved? ==> TranscriptField(reply) == Some(d.transcript) && ResultField(reply) == Some(d.result)
    ensures d.Fallback? ==> d.text != []
    ensures d.Fallback? && ResultField(reply).Some? && ResultField(reply).value != [] ==>
              d.text == ResultField(reply).value
    ensures d.Fallback? && (ResultField(reply).None? || ResultField(reply).value == []) ==>
              d.text == NotUnderstood
  {
    if Contains(reply, Sentinel) then Rejected
    else
      var result := ResultField(reply);
      var transcript := TranscriptField(reply);
      if transcript.Some? && result.Some? && result.value != [] then Resolved(transcript.value, result.value)
      else Fallback(if result.Some? && result.value != [] then result.value else NotUnderstood)
  }

  /** A reply without the sentinel whose two fields are present, the result
      non-empty, resolves with them. */
  lemma DecideResolves(reply: string, transcript: string, result: string)
    requires !Contains(reply, Sentinel)
    requires TranscriptField(reply) == Some(transcript)
    requires ResultField(reply) == Some(result) && result != []
    ensures Decide(reply) == Resolved(transcript, result)
  {
  }

  // ---------------------------------------------------------------------------
  // What the lazy group finds
  // ---------------------------------------------------------------------------

  /** From `e`, the lazy group stops where only blanks separate it from the first
      `transcript:` at or after `e`. */
  lemma {:induction false} LazyGroupEndFinds(s: string, e: nat, o: nat)
    requires e <= o
    requires MatchesAt(s, o, TranscriptLabel)
    requires forall j :: e <= j < o ==> !MatchesAt(s, j, TranscriptLabel)
    ensures LazyGroupEnd(s, e).Some?
    ensures LazyGroupEnd(s, e).value <= o
    ensures SpacesBetween(s, LazyGroupEnd(s, e).value, o)
    decreases o - e
  {
    var run := SpaceRun(s, e);
    SpaceRunBlank(s, e);
    SpacesThenTranscriptAtRun(s, e, run);
    NoTranscriptInRun(s, e, e + run);
    assert o >= e + run;
    if e + run == o {
      assert LazyGroupEnd(s, e) == Some(e);
    } else {
      assert !MatchesAt(s, e + run, TranscriptLabel);
      assert LazyGroupEnd(s, e) == LazyGroupEnd(s, e + 1);
      LazyGroupEndFinds(s, e + 1, o);
    }
  }

  /** With no `transcript:` from `e` on, the lazy group fails. */
  lemma {:induction false} LazyGroupEndFails(s: string, e: nat)
    requires e <= |s|
    requires forall j :: e <= j <= |s| ==> !MatchesAt(s, j, TranscriptLabel)
    ensures LazyGroupEnd(s, e).None?
    decreases |s| - e
  {
    var run := SpaceRun(s, e);
    SpaceRunBlank(s, e);
    SpacesThenTranscriptAtRun(s, e, run);
    assert !SpacesThenTranscript(s, e, run);
    if e < |s| {
      LazyGroupEndFails(s, e + 1);
    }
  }

  /** Any `transcript:` from `e` on lets the lazy group succeed. */
  lemma {:induction false} LazyGroupEndSucceeds(s: string, e: nat, o: nat)
    requires e <= o && MatchesAt(s, o, TranscriptLabel)
    ensures LazyGroupEnd(s, e).Some?
    decreases o - e
  {
    var run := SpaceRun(s, e);
    SpaceRunBlank(s, e);
    SpacesThenTranscriptAtRun(s, e, run);
    if e == o {
      TranscriptNotBlank(s, o);
      assert run == 0;
    }
    if !MatchesAt(s, e + run, TranscriptLabel) {
      assert e < o;
      assert LazyGroupEnd(s, e) == LazyGroupEnd(s, e + 1);
      LazyGroupEndSucceeds(s, e + 1, o);
    }
  }

  // ---------------------------------------------------------------------------
  // The attempt at one `result:` label
  // ---------------------------------------------------------------------------

  /** Once a `transcript:` follows at `o >= p + 8`, the attempt at `p` succeeds. */
  lemma {:induction false} ResultAfterLabelSucceeds(s: string, p: nat, k: nat, o: nat)
    requires p + |ResultLabel| + k <= |s|
    requires p + |ResultLabel| < o && MatchesAt(s, o, TranscriptLabel)
    ensures ResultAfterLabel(s, p, k).Some?
    decreases k
  {
    var q := p + |ResultLabel| + k;
    if k == 0 {
      assert q < |s|;
      LazyGroupEndSucceeds(s, q + 1, o);
      assert ResultAfterLabel(s, p, k) == Some((q, LazyGroupEnd(s, q + 1).value));
    } else {
      ResultAfterLabelSucceeds(s, p, k - 1, o);
    }
  }

  /** Without a `transcript:` from `p + 8` on, the attempt at `p` fails. */
  lemma {:induction false} ResultAfterLabelFails(s: string, p: nat, k: nat)
    requires p + |ResultLabel| + k <= |s|
    requires forall j :: p + |ResultLabel| < j <= |s| ==> !MatchesAt(s, j, TranscriptLabel)
    ensures ResultAfterLabel(s, p, k).None?
    decreases k
  {
    var q := p + |ResultLabel| + k;
    if q < |s| {
      LazyGroupEndFails(s, q + 1);
    }
    if k > 0 {
      ResultAfterLabelFails(s, p, k - 1);
    }
  }

  /** Inside the blanks before `q`, past which no `transcript:` starts, the lazy
      group can only stop in those blanks. */
  lemma GroupEndBlank(s: string, start: nat, a: nat, q: nat)
    requires start <= a < q <= |s|
    requires SpacesBetween(s, start, q)
    requires forall j :: q < j <= |s| ==> !MatchesAt(s, j, TranscriptLabel)
    ensures LazyGroupEnd(s, a + 1).Some? ==> SpacesBetween(s, a, LazyGroupEnd(s, a + 1).value)
  {
    var e := LazyGroupEnd(s, a + 1);
    if e.Some? {
      var g := e.value;
      LazyGroupEndMatches(s, a + 1);
      NoTranscriptInRun(s, start, q);
      assert MatchesAt(s, g + SpaceRun(s, g), TranscriptLabel);
      assert g + SpaceRun(s, g) == q;
    }
  }

  /** When the only `transcript:` after the label starts on its first non-blank `q`,
      any group found lies in the blanks before `q`. */
  lemma {:induction false} ResultAfterLabelBlank(s: string, p: nat, k: nat, q: nat)
    requires p + |ResultLabel| + k <= q <= |s|
    requires SpacesBetween(s, p + |ResultLabel|, q)
    requires forall j :: q < j <= |s| ==> !MatchesAt(s, j, TranscriptLabel)
    ensures ResultAfterLabel(s, p, k).Some? ==>
              SpacesBetween(s, ResultAfterLabel(s, p, k).value.0, ResultAfterLabel(s, p, k).value.1)
    decreases k
  {
    var start := p + |ResultLabel|;
    var a := start + k;
    if a == q {
      if q < |s| {
        LazyGroupEndFails(s, q + 1);
      }
    } else {
      GroupEndBlank(s, start, a, q);
    }
    if k > 0 {
      ResultAfterLabelBlank(s, p, k - 1, q);
    }
  }

  // ---------------------------------------------------------------------------
  // The search over start positions
  // ---------------------------------------------------------------------------

  /** Every group the attempt at `p` yields is followed by blanks and `transcript:`. */
  lemma {:induction false} ResultAfterLabelMatches(s: string, p: nat, k: nat)
    requires p + |ResultLabel| + k <= |s|
    ensures ResultAfterLabel(s, p, k).Some? ==>
              var b := ResultAfterLabel(s, p, k).value.1; MatchesAt(s, b + SpaceRun(s, b), TranscriptLabel)
    decreases k
  {
    var q := p + |ResultLabel| + k;
    if q < |s| && LazyGroupEnd(s, q + 1).Some? {
      AttemptMatchesHere(s, p, k);
    } else if k > 0 {
      AttemptGivesBack(s, p, k);
      ResultAfterLabelMatches(s, p, k - 1);
    }
  }

  /** When the lazy group fails with `k` blanks taken, `\s*` gives one back. */
  lemma AttemptGivesBack(s: string, p: nat, k: nat)
    requires 0 < k && p + |ResultLabel| + k <= |s|
    requires !(p + |ResultLabel| + k < |s| && LazyGroupEnd(s, p + |ResultLabel| + k + 1).Some?)
    ensures ResultAfterLabel(s, p, k) == ResultAfterLabel(s, p, k - 1)
  { }

  /** The attempt that stops with `k` blanks taken: its group ends where the lazy
      group does. */
  lemma AttemptMatchesHere(s: string, p: nat, k: nat)
    requires p + |ResultLabel| + k < |s|
    requires LazyGroupEnd(s, p + |ResultLabel| + k + 1).Some?
    ensures ResultAfterLabel(s, p, k) == Some((p + |ResultLabel| + k, LazyGroupEnd(s, p + |ResultLabel| + k + 1).value))
    ensures var b := ResultAfterLabel(s, p, k).value.1; MatchesAt(s, b + SpaceRun(s, b), TranscriptLabel)
  {
    LazyGroupEndMatches(s, p + |ResultLabel| + k + 1);
  }

  /** Every group the search yields is followed by blanks and `transcript:`. */
  lemma {:induction false} ResultSearchMatches(s: string, p: nat)
    requires p <= |s|
    ensures ResultSearch(s, p).Some? ==>
              var b := ResultSearch(s, p).value.1; MatchesAt(s, b + SpaceRun(s, b), TranscriptLabel)
    decreases |s| - p
  {
    if MatchesAt(s, p, ResultLabel) {
      ResultAfterLabelMatches(s, p, SpaceRun(s, p + |ResultLabel|));
    }
    if p < |s| {
      ResultSearchMatches(s, p + 1);
    }
  }

  /** Positions without the label are skipped. */
  lemma {:induction false} ResultSearchSkips(s: string, p: nat, p1: nat)
    requires p <= p1 <= |s|
    requires forall j :: p <= j < p1 ==> !MatchesAt(s, j, ResultLabel)
    ensures ResultSearch(s, p) == ResultSearch(s, p1)
    decreases p1 - p
  {
    if p < p1 {
      assert !MatchesAt(s, p, ResultLabel);
      assert ResultSearch(s, p) == ResultSearch(s, p + 1);
      ResultSearchSkips(s, p + 1, p1);
    }
  }

  /** Later labels cannot succeed once no `transcript:` lies beyond an earlier one. */
  lemma {:induction false} ResultSearchFailsAfter(s: string, p: nat, p1: nat)
    requires p < p1 <= |s|
    requires forall j :: p + |ResultLabel| < j <= |s| ==> !MatchesAt(s, j, TranscriptLabel)
    ensures ResultSearch(s, p1).None?
    decreases |s| - p1
  {
    if MatchesAt(s, p1, ResultLabel) {
      ResultAfterLabelFails(s, p1, SpaceRun(s, p1 + |ResultLabel|));
    }
    if p1 < |s| {
      ResultSearchFailsAfter(s, p, p1 + 1);
    }
  }

  /** With no `result:` at all, nothing is found. */
  lemma {:induction false} ResultSearchNoLabel(s: string, p: nat)
    requires p <= |s|
    requires forall j :: p <= j <= |s| ==> !MatchesAt(s, j, ResultLabel)
    ensures ResultSearch(s, p).None?
    decreases |s| - p
  {
    if p < |s| {
      ResultSearchNoLabel(s, p + 1);
    }
  }

  // ---------------------------------------------------------------------------
  // The result field, in terms of label positions
  // ---------------------------------------------------------------------------

  /** The first `result:`, at `p`, is followed by blanks up to `q`, the first
      non-blank (or the end). */
  predicate FirstResultLabel(s: string, p: nat, q: nat) {
    && MatchesAt(s, p, ResultLabel)
    && (forall j :: 0 <= j < p ==> !MatchesAt(s, j, ResultLabel))
    && p + |ResultLabel| <= q <= |s|
    && SpacesBetween(s, p + |ResultLabel|, q)
    && (q == |s| || !IsSpace(s[q]))
  }

  /** The group the search finds after the first `result:`: it starts on the first
      non-blank `q` and ends where only blanks precede the next `transcript:`. */
  lemma ResultGroupAt(s: string, p: nat, q: nat, f: nat) returns (g: nat)
    requires FirstResultLabel(s, p, q)
    requires q < f && MatchesAt(s, f, TranscriptLabel)
    requires forall j :: q < j < f ==> !MatchesAt(s, j, TranscriptLabel)
    ensures q < g <= f && SpacesBetween(s, g, f)
    ensures ResultSearch(s, 0) == Some((q, g))
  {
    var start := p + |ResultLabel|;
    SpaceRunUnique(s, start, q);
    ResultSearchSkips(s, 0, p);
    g := AttemptAtNonBlank(s, p, q, f);
    SearchStopsAt(s, p, (q, g));
  }

  /** The attempt whose `\s*` took the blanks up to `q` finds the group from `q`
      to where the lazy group stops before the `transcript:` at `f`. */
  lemma AttemptAtNonBlank(s: string, p: nat, q: nat, f: nat) returns (g: nat)
    requires p + |ResultLabel| <= q < f && MatchesAt(s, f, TranscriptLabel)
    requires forall j :: q < j < f ==> !MatchesAt(s, j, TranscriptLabel)
    ensures q < g <= f && SpacesBetween(s, g, f)
    ensures ResultAfterLabel(s, p, q - (p + |ResultLabel|)) == Some((q, g))
  {
    LazyGroupEndFinds(s, q + 1, f);
    g := LazyGroupEnd(s, q + 1).value;
  }

  /** The search stops at a label whose attempt succeeds. */
  lemma SearchStopsAt(s: string, p: nat, r: (nat, nat))
    requires MatchesAt(s, p, ResultLabel)
    requires ResultAfterLabel(s, p, SpaceRun(s, p + |ResultLabel|)) == Some(r)
    ensures ResultSearch(s, p) == Some(r)
  { }

  /** The search moves past a label whose attempt fails. */
  lemma SearchPassesLabel(s: string, p: nat)
    requires MatchesAt(s, p, ResultLabel)
    requires ResultAfterLabel(s, p, SpaceRun(s, p + |ResultLabel|)).None?
    ensures ResultSearch(s, p) == ResultSearch(s, p + 1)
  { }

  /** A failed search leaves no result. */
  lemma NoSearchNoField(s: string)
    requires ResultSearch(s, 0).None?
    ensures ResultField(s) == None
  {
    assert ResultGroup(s) == None;
  }

  /** The result field is the text from the first `result:` to the first
      `transcript:` that starts after the first non-blank character following it,
      trimmed, then stripped of its trailing ',', '\' and 's' characters. */
  lemma ResultFieldFound(s: string, p: nat, q: nat, f: nat)
    requires FirstResultLabel(s, p, q)
    requires q < f && MatchesAt(s, f, TranscriptLabel)
    requires forall j :: q < j < f ==> !MatchesAt(s, j, TranscriptLabel)
    ensures Trim(s[p + |ResultLabel|..f]) != []
    ensures ResultField(s) == Some(StripTrailing(Trim(s[p + |ResultLabel|..f])))
  {
    var g := ResultGroupAt(s, p, q, f);
    TrimGroup(s, p + |ResultLabel|, q, g, f);
    FieldOfSearch(s, q, g);
  }

  /** The field computed from the bounds the search found. */
  lemma FieldOfSearch(s: string, a: nat, b: nat)
    requires a <= b <= |s| && ResultSearch(s, 0) == Some((a, b))
    ensures ResultField(s) == (var t := Trim(s[a..b]); if t == [] then None else Some(StripTrailing(t)))
  {
    assert ResultGroup(s) == Some(s[a..b]);
  }

  /** Blanks around a group that opens on a non-blank trim away. */
  lemma TrimGroup(s: string, start: nat, q: nat, g: nat, f: nat)
    requires start <= q < g <= f <= |s|
    requires SpacesBetween(s, start, q) && SpacesBetween(s, g, f) && !IsSpace(s[q])
    ensures Trim(s[q..g]) == Trim(s[start..f]) && Trim(s[q..g]) != []
  {
    var pre, mid, post := s[start..q], s[q..g], s[g..f];
    SpacesBetweenSlice(s, start, q);
    SpacesBetweenSlice(s, g, f);
    assert s[start..f] == pre + mid + post;
    TrimSpacePadding(pre, mid, post);
    assert Trim(mid) != [] by {
      assert mid[0] == s[q];
      assert TrimStart(mid) == mid;
    }
  }

  /** With no `transcript:` after that first non-blank character, there is no result. */
  lemma ResultFieldNoTranscript(s: string, p: nat, q: nat)
    requires FirstResultLabel(s, p, q)
    requires forall j :: q < j <= |s| ==> !MatchesAt(s, j, TranscriptLabel)
    ensures ResultField(s) == None
  {
    SpaceRunUnique(s, p + |ResultLabel|, q);
    ResultSearchSkips(s, 0, p);
    if q > p + |ResultLabel| && MatchesAt(s, q, TranscriptLabel) {
      var r := BlankGroupOnly(s, p, q);
      FieldOfSearch(s, r.0, r.1);
      SpacesBetweenSlice(s, r.0, r.1);
      TrimStartAllSpace(s[r.0..r.1]);
    } else {
      NoGroupAfter(s, p, q);
      NoSearchNoField(s);
    }
  }

  /** When `transcript:` starts right on the first non-blank, the group the
      attempt finds is made of the blanks before it. */
  lemma BlankGroupOnly(s: string, p: nat, q: nat) returns (r: (nat, nat))
    requires p + |ResultLabel| < q <= |s|
    requires SpacesBetween(s, p + |ResultLabel|, q) && MatchesAt(s, q, TranscriptLabel)
    requires forall j :: q < j <= |s| ==> !MatchesAt(s, j, TranscriptLabel)
    requires MatchesAt(s, p, ResultLabel)
    requires p + |ResultLabel| + SpaceRun(s, p + |ResultLabel|) == q
    ensures r.0 <= r.1 <= |s| && SpacesBetween(s, r.0, r.1)
    ensures ResultSearch(s, p) == Some(r)
  {
    var k := q - (p + |ResultLabel|);
    ResultAfterLabelSucceeds(s, p, k, q);
    ResultAfterLabelBlank(s, p, k, q);
    r := ResultAfterLabel(s, p, k).value;
    SearchStopsAt(s, p, r);
  }

  /** With no `transcript:` after the first non-blank nor on it, the attempt
      at the first label fails and so do all later ones. */
  lemma NoGroupAfter(s: string, p: nat, q: nat)
    requires p + |ResultLabel| <= q <= |s|
    requires SpacesBetween(s, p + |ResultLabel|, q)
    requires q == p + |ResultLabel| || !MatchesAt(s, q, TranscriptLabel)
    requires forall j :: q < j <= |s| ==> !MatchesAt(s, j, TranscriptLabel)
    requires MatchesAt(s, p, ResultLabel)
    requires p + |ResultLabel| + SpaceRun(s, p + |ResultLabel|) == q
    ensures ResultSearch(s, p).None?
  {
    var start := p + |ResultLabel|;
    NoTranscriptInRun(s, start, q);
    assert forall j :: start < j <= |s| ==> !MatchesAt(s, j, TranscriptLabel);
    ResultAfterLabelFails(s, p, q - start);
    SearchPassesLabel(s, p);
    ResultSearchFailsAfter(s, p, p + 1);
  }

  /** Without any `result:` there is no result. */
  lemma ResultFieldNoLabel(s: string)
    requires forall j :: 0 <= j <= |s| ==> !MatchesAt(s, j, ResultLabel)
    ensures ResultField(s) == None
  {
    ResultSearchNoLabel(s, 0);
  }

  /** A result needs some `transcript:` label in the reply. */
  lemma ResultFieldNeedsTranscript(s: string)
    requires ResultField(s).Some?
    ensures HasMatch(s, TranscriptLabel)
  {
    ResultFieldSearched(s);
    ResultSearchHasMatch(s);
  }

  /** A successful search has seen a `transcript:` label. */
  lemma ResultSearchHasMatch(s: string)
    ensures ResultSearch(s, 0).Some? ==> HasMatch(s, TranscriptLabel)
  {
    ResultSearchMatches(s, 0);
    if ResultSearch(s, 0).Some? {
      var b := ResultSearch(s, 0).value.1;
      var j := b + SpaceRun(s, b);
      assert 0 <= j <= |s| && MatchesAt(s, j, TranscriptLabel);
    }
  }

  /** A result field comes from a successful search. */
  lemma ResultFieldSearched(s: string)
    ensures ResultField(s).Some? ==> ResultSearch(s, 0).Some?
  {
    if ResultSearch(s, 0).None? {
      assert ResultGroup(s) == None;
    }
  }

  // ---------------------------------------------------------------------------
  // The transcript field, in terms of label positions
  // ---------------------------------------------------------------------------

  lemma {:induction false} TranscriptSearchSkips(s: string, p: nat, p1: nat)
    requires p <= p1 <= |s|
    requires forall j :: p <= j < p1 ==> !MatchesAt(s, j, TranscriptLabel)
    ensures TranscriptSearch(s, p) == TranscriptSearch(s, p1)
    decreases p1 - p
  {
    if p < p1 {
      assert !MatchesAt(s, p, TranscriptLabel);
      assert TranscriptSearch(s, p) == TranscriptSearch(s, p + 1);
      TranscriptSearchSkips(s, p + 1, p1);
    }
  }

  lemma {:induction false} TranscriptSearchNoLabel(s: string, p: nat)
    requires p <= |s|
    requires forall j :: p <= j <= |s| ==> !MatchesAt(s, j, TranscriptLabel)
    ensures TranscriptSearch(s, p).None?
    decreases |s| - p
  {
    if p < |s| {
      TranscriptSearchNoLabel(s, p + 1);
    }
  }

  /** The attempt at a label succeeds exactly when a character follows the label. */
  lemma {:induction false} TranscriptAfterLabelSome(s: string, p: nat, k: nat)
    requires p + |TranscriptLabel| + k <= |s|
    ensures TranscriptAfterLabel(s, p, k).Some? <==> p + |TranscriptLabel| < |s|
    decreases k
  {
    if k > 0 && p + |TranscriptLabel| + k >= |s| {
      TranscriptAfterLabelSome(s, p, k - 1);
    }
  }

  /** The search reaches a label at `p` and stops there when a character follows it. */
  lemma TranscriptSearchAt(s: string, p: nat)
    requires MatchesAt(s, p, TranscriptLabel)
    ensures TranscriptSearch(s, p) ==
              if p + |TranscriptLabel| < |s| then TranscriptAfterLabel(s, p, SpaceRun(s, p + |TranscriptLabel|)) else None
  {
    var start := p + |TranscriptLabel|;
    TranscriptAfterLabelSome(s, p, SpaceRun(s, start));
    if start == |s| {
      TranscriptSearchNoLabel(s, p + 1);
    }
  }

  /** The group the search finds after the first `transcript:`: it starts after some of
      the blanks that follow the label and runs to the end of the input. */
  lemma TranscriptGroupAt(s: string, p: nat) returns (a: nat)
    requires MatchesAt(s, p, TranscriptLabel)
    requires forall j :: 0 <= j < p ==> !MatchesAt(s, j, TranscriptLabel)
    requires p + |TranscriptLabel| < |s|
    ensures p + |TranscriptLabel| <= a < |s| && SpacesBetween(s, p + |TranscriptLabel|, a)
    ensures TranscriptSearch(s, 0) == Some((a, |s|))
  {
    var start := p + |TranscriptLabel|;
    var run := SpaceRun(s, start);
    SpaceRunBlank(s, start);
    TranscriptSearchSkips(s, 0, p);
    TranscriptSearchAt(s, p);
    TranscriptAfterLabelSome(s, p, run);
    a := TranscriptAfterLabel(s, p, run).value.0;
  }

  /** The transcript field is everything after the first case-insensitive
      `transcript:`, trimmed, and null when that is empty. */
  lemma TranscriptFieldFound(s: string, p: nat)
    requires MatchesAt(s, p, TranscriptLabel)
    requires forall j :: 0 <= j < p ==> !MatchesAt(s, j, TranscriptLabel)
    ensures TranscriptField(s) == (var t := Trim(s[p + |TranscriptLabel|..]); if t == [] then None else Some(t))
  {
    var start := p + |TranscriptLabel|;
    if start == |s| {
      TranscriptSearchSkips(s, 0, p);
      TranscriptSearchAt(s, p);
      assert s[start..] == [];
    } else {
      var a := TranscriptGroupAt(s, p);
      TrimLeadingBlanks(s, start, a);
      TranscriptFieldOfSearch(s, a, |s|);
    }
  }

  /** The field computed from the bounds the search found. */
  lemma TranscriptFieldOfSearch(s: string, a: nat, b: nat)
    requires a <= b <= |s| && TranscriptSearch(s, 0) == Some((a, b))
    ensures TranscriptField(s) == (var t := Trim(s[a..b]); if t == [] then None else Some(t))
  {
  }

  /** Blanks in front of a suffix trim away. */
  lemma TrimLeadingBlanks(s: string, start: nat, a: nat)
    requires start <= a <= |s| && SpacesBetween(s, start, a)
    ensures Trim(s[start..]) == Trim(s[a..|s|])
  {
    var pre, rest := s[start..a], s[a..|s|];
    SpacesBetweenSlice(s, start, a);
    assert s[start..] == pre + rest + [];
    TrimSpacePadding(pre, rest, []);
    assert rest + [] == rest;
  }

  /** Without any `transcript:` there is no transcript. */
  lemma TranscriptFieldNoLabel(s: string)
    requires forall j :: 0 <= j <= |s| ==> !MatchesAt(s, j, TranscriptLabel)
    ensures TranscriptField(s) == None
  {
    TranscriptSearchNoLabel(s, 0);
  }
}
