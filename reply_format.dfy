/** The reply layout the voice prompt asks the backend for (src/App.tsx:402-404),
    and what the parser makes of a reply written in that layout. */
module ReplyFormat {
  import opened Common
  import opened Strings
  import opened ReplyParser

  const ResultHead: string := "result: "
  const TranscriptHead: string := "transcript: "

  /** `result: <answer>,` then the line break and indentation `gap`, then
      `transcript: <the user's words>`. */
  function FormatReply(r: string, gap: string, x: string): string {
    ResultHead + r + "," + gap + TranscriptHead + x
  }

  /** A letter or a colon: what the labels are made of. */
  predicate LabelChar(c: char) {
    ('a' <= c <= 'z') || ('A' <= c <= 'Z') || c == ':'
  }

  /** Every character covered by a `transcript:` match is a letter or a colon. */
  lemma MatchesLabelChar(s: string, j: nat, k: nat)
    requires j + k < |s| && k < |TranscriptLabel|
    ensures MatchesAt(s, j, TranscriptLabel) ==> LabelChar(s[j + k])
  {
    if MatchesAt(s, j, TranscriptLabel) {
      MatchesAtChar(s, j, TranscriptLabel, k);
      assert LabelChar(TranscriptLabel[k]);
    }
  }

  /** No `transcript:` match covers a character that is not a letter or a colon. */
  lemma NoLabelOver(s: string, j: nat, c: nat)
    requires j <= c < j + |TranscriptLabel| && c < |s| && !LabelChar(s[c])
    ensures !MatchesAt(s, j, TranscriptLabel)
  {
    MatchesLabelChar(s, j, c - j);
  }

  /** Where the pieces of a formatted reply sit: `s` is laid out with answer `r`,
      indentation `gap` and words `x`. */
  predicate InLayout(s: string, r: string, gap: string, x: string) {
    var f := 9 + |r| + |gap|;
    && |s| == f + 12 + |x|
    && s[..7] == ResultLabel && s[7] == ' '
    && s[8..8 + |r|] == r && s[8 + |r|] == ','
    && s[9 + |r|..f] == gap
    && s[f..f + 11] == TranscriptLabel
    && s[7..f] == " " + (r + ",") + gap
    && s[f + 11..] == " " + x
  }

  lemma FormatReplyLayout(r: string, gap: string, x: string)
    ensures InLayout(FormatReply(r, gap, x), r, gap, x)
  {
    var s := FormatReply(r, gap, x);
    var f := 9 + |r| + |gap|;
    var a := ResultHead + r;
    var b := a + ",";
    var c := b + gap;
    var d := c + TranscriptHead;
    assert s == d + x;
    assert s[..|d|] == d;
    assert d[..|c|] == c;
    assert c[..|b|] == b;
    assert s[..7] == d[..7] == c[..7] == b[..7] == a[..7] == ResultLabel;
    assert s[8..8 + |r|] == a[8..] == r;
    assert s[9 + |r|..f] == c[9 + |r|..] == gap;
    assert s[f..f + 11] == d[f..f + 11] == TranscriptLabel;
    assert s[7..f] == c[7..] == " " + (r + ",") + gap;
    assert s[f + 11..] == " " + x;
  }

  /** The first `transcript:` of a laid-out reply is the one the layout puts there,
      provided the answer holds none. */
  lemma FirstTranscriptInLayout(s: string, r: string, gap: string, x: string)
    requires InLayout(s, r, gap, x)
    requires !HasMatch(r, TranscriptLabel) && AllSpace(gap)
    ensures var f := 9 + |r| + |gap|;
      && MatchesAt(s, f, TranscriptLabel)
      && forall j :: 0 <= j < f ==> !MatchesAt(s, j, TranscriptLabel)
  {
    var f := 9 + |r| + |gap|;
    MatchesFromExact(s, f, TranscriptLabel, 0);
    forall j | 0 <= j < f ensures !MatchesAt(s, j, TranscriptLabel) {
      if j < 8 {
        NoLabelOver(s, j, 7);
      } else if j + 11 <= 8 + |r| {
        var here, there := s[j..j + 11], r[j - 8..j + 3];
        forall k | 0 <= k < 11 ensures here[k] == there[k] {
          assert r[j - 8 + k] == s[8..8 + |r|][j - 8 + k];
        }
        assert here == there;
        MatchesAtSame(s, j, r, j - 8, TranscriptLabel);
      } else if j <= 8 + |r| {
        NoLabelOver(s, j, 8 + |r|);
      } else {
        assert s[j] == s[9 + |r|..f][j - 9 - |r|] == gap[j - 9 - |r|];
        NoTranscriptOnSpace(s, j);
      }
    }
  }

  /** The answer part of the layout trims to the answer and its comma. */
  lemma TrimAnswer(r: string, gap: string)
    requires r != [] && !IsSpace(r[0]) && AllSpace(gap)
    ensures Trim(" " + (r + ",") + gap) == r + ","
  {
    var body := r + ",";
    TrimSpacePadding(" ", body, gap);
    assert TrimStart(body) == body by { assert body[0] == r[0]; }
  }

  /** The strip takes the layout's comma along with the answer's own trailing run. */
  lemma StripWithComma(r: string)
    ensures StripTrailing(r + ",") == StripTrailing(r)
  {
    var u := StripTrailing(r);
    var tail := r[|u|..] + ",";
    assert u + tail == r + ",";
    StripTrailingOf(u, tail);
  }

  /** The first `result:` of a laid-out reply is at its start, and the answer's
      first character follows the blank after it. */
  lemma FirstResultInLayout(s: string, r: string, gap: string, x: string)
    requires InLayout(s, r, gap, x)
    requires r != [] && !IsSpace(r[0])
    ensures FirstResultLabel(s, 0, 8)
  {
    MatchesFromExact(s, 0, ResultLabel, 0);
    assert s[8] == s[8..8 + |r|][0] == r[0];
    assert SpaceAt(s, 7);
  }

  /** The answer of a laid-out reply comes back trimmed and stripped of its
      trailing ',', '\\' and 's' characters. */
  lemma ResultInLayout(s: string, r: string, gap: string, x: string)
    requires InLayout(s, r, gap, x)
    requires r != [] && !IsSpace(r[0])
    requires !HasMatch(r, TranscriptLabel) && AllSpace(gap)
    ensures ResultField(s) == Some(StripTrailing(r))
  {
    var f := 9 + |r| + |gap|;
    FirstTranscriptInLayout(s, r, gap, x);
    FirstResultInLayout(s, r, gap, x);
    ResultFieldFound(s, 0, 8, f);
    assert s[|ResultLabel|..f] == " " + (r + ",") + gap;
    TrimAnswer(r, gap);
    StripWithComma(r);
  }

  /** The blank after `transcript:` in the layout is trimmed away. */
  lemma TrimWords(rest: string, x: string)
    requires rest == " " + x
    ensures Trim(rest) == Trim(x)
  {
    assert rest == " " + x + [];
    TrimSpacePadding(" ", x, []);
  }

  /** The words of a laid-out reply come back trimmed. */
  lemma TranscriptInLayout(s: string, r: string, gap: string, x: string)
    requires InLayout(s, r, gap, x)
    requires !HasMatch(r, TranscriptLabel) && AllSpace(gap)
    ensures TranscriptField(s) == if Trim(x) == [] then None else Some(Trim(x))
  {
    var f := 9 + |r| + |gap|;
    FirstTranscriptInLayout(s, r, gap, x);
    TranscriptFieldFound(s, f);
    TrimWords(s[f + |TranscriptLabel|..], x);
  }

  /** A formatted reply does not contain the rejection token unless the answer or
      the words do. */
  lemma FormatReplyNoSentinel(r: string, gap: string, x: string)
    requires AllSpace(gap) && !Contains(r, Sentinel) && !Contains(x, Sentinel)
    ensures !Contains(FormatReply(r, gap, x), Sentinel)
  {
    var mid := "," + gap + TranscriptHead;
    forall k, l | 0 <= k < |mid| && 0 <= l < |Sentinel| ensures mid[k] != Sentinel[l] {
      if 1 <= k < 1 + |gap| {
        assert mid[k] == gap[k - 1];
      }
    }
    ContainsAcrossSeparator(r, mid, x, Sentinel);
    NotContainsFirst([], Sentinel);
    ContainsAcrossSeparator([], ResultHead, r + mid + x, Sentinel);
    assert FormatReply(r, gap, x) == [] + ResultHead + (r + mid + x);
  }

  /** What `speechEnd` decides on a reply in the prompt's layout: the turn is
      resolved with the trimmed words and the stripped answer, unless the strip
      empties the answer (the fixed apology) or the words are blank (an AI-only
      message with the answer). */
  lemma DecideFormat(r: string, gap: string, x: string)
    requires r != [] && !IsSpace(r[0])
    requires !HasMatch(r, TranscriptLabel) && AllSpace(gap)
    requires !Contains(r, Sentinel) && !Contains(x, Sentinel)
    ensures Decide(FormatReply(r, gap, x)) ==
              var a := StripTrailing(r);
              if a == [] then Fallback(NotUnderstood)
              else if Trim(x) == [] then Fallback(a)
              else Resolved(Trim(x), a)
  {
    FormatReplyNoSentinel(r, gap, x);
    FormatReplyLayout(r, gap, x);
    ResultInLayout(FormatReply(r, gap, x), r, gap, x);
    TranscriptInLayout(FormatReply(r, gap, x), r, gap, x);
  }

  /** Parsing undoes formatting when the answer does not end in ',', '\' or 's' and
      the words are already trimmed. */
  lemma FormatRoundTrip(r: string, gap: string, x: string)
    requires r != [] && !IsSpace(r[0]) && !IsStripChar(r[|r| - 1])
    requires !HasMatch(r, TranscriptLabel) && AllSpace(gap)
    requires !Contains(r, Sentinel) && !Contains(x, Sentinel)
    requires x != [] && Trim(x) == x
    ensures Decide(FormatReply(r, gap, x)) == Resolved(x, r)
  {
    StripTrailingOf(r, []);
    assert r + [] == r;
    DecideFormat(r, gap, x);
  }

  // ---------------------------------------------------------------------------
  // Consequences of the code as written
  // ---------------------------------------------------------------------------

  /** The strip class holds the letter 's', so an answer loses its final s's. */
  lemma StripEatsFinalS()
    ensures StripTrailing("Yes") == "Ye"
    ensures StripTrailing("sss") == ""
  {
    StripTrailingOf("Ye", "s");
    assert "Ye" + "s" == "Yes";
    StripTrailingOf("", "sss");
    assert "" + "sss" == "sss";
  }

  /** An answer ending in 's' (a "Yes", a plural) loses that letter: a reply in the
      prompt's layout resolves with the answer cut short. */
  lemma FinalSDropped(w: string, gap: string, x: string)
    requires w != [] && !IsSpace(w[0]) && !IsStripChar(w[|w| - 1])
    requires !HasMatch(w + "s", TranscriptLabel) && AllSpace(gap)
    requires !Contains(w + "s", Sentinel) && !Contains(x, Sentinel)
    requires Trim(x) != []
    ensures Decide(FormatReply(w + "s", gap, x)) == Resolved(Trim(x), w)
  {
    StripTrailingOf(w, "s");
    assert (w + "s")[0] == w[0];
    DecideFormat(w + "s", gap, x);
  }

  /** The token anywhere in the reply rejects the turn, whatever else it holds. */
  lemma SentinelRejects(a: string, b: string)
    ensures Decide(a + Sentinel + b) == Rejected
  {
    var s := a + Sentinel + b;
    assert s[|a|..|a| + |Sentinel|] == Sentinel;
    assert OccursAt(s, |a|, Sentinel);
  }

  /** A reply without any `result:` falls back to the fixed apology; the empty text a
      failed backend call yields is one. */
  lemma NoResultLabelFallsBack(s: string)
    requires !Contains(s, Sentinel)
    requires forall j :: 0 <= j <= |s| ==> !MatchesAt(s, j, ResultLabel)
    ensures Decide(s) == Fallback(NotUnderstood)
  {
    ResultFieldNoLabel(s);
  }

  lemma EmptyReplyFallsBack()
    ensures Decide("") == Fallback(NotUnderstood)
  {
    NotContainsFirst("", Sentinel);
    NoResultLabelFallsBack("");
  }

  /** A text with a non-blank first character has a non-empty trim. */
  lemma TrimKeepsFirst(y: string)
    requires y != [] && !IsSpace(y[0])
    ensures Trim(y) != []
  {
    assert TrimStart(y) == y;
  }

  /** The labels of a laid-out reply whose answer opens with `transcript:`: that
      one, and the one the layout puts before the words. */
  lemma LabelsWhenAnswerOpensWithLabel(s: string, w: string, gap: string, x: string)
    requires InLayout(s, TranscriptHead + w, gap, x)
    requires !HasMatch(w, TranscriptLabel) && AllSpace(gap)
    ensures var f := 21 + |w| + |gap|;
      && MatchesAt(s, 8, TranscriptLabel) && MatchesAt(s, f, TranscriptLabel)
      && forall j :: 0 <= j < f && j != 8 ==> !MatchesAt(s, j, TranscriptLabel)
  {
    var r := TranscriptHead + w;
    var f := 9 + |r| + |gap|;
    assert s[8..19] == r[..11] == TranscriptLabel;
    assert s[19] == r[11] == ' ';
    MatchesFromExact(s, 8, TranscriptLabel, 0);
    MatchesFromExact(s, f, TranscriptLabel, 0);
    forall j | 0 <= j < f && j != 8 ensures !MatchesAt(s, j, TranscriptLabel) {
      if j < 8 {
        NoLabelOver(s, j, 7);
      } else if j <= 19 {
        NoLabelOver(s, j, 19);
      } else if j + 11 <= 8 + |r| {
        var here, there := s[j..j + 11], w[j - 20..j - 9];
        forall k | 0 <= k < 11 ensures here[k] == there[k] {
          assert w[j - 20 + k] == r[j - 8 + k] == s[8..8 + |r|][j - 8 + k];
        }
        MatchesAtSame(s, j, w, j - 20, TranscriptLabel);
      } else if j <= 8 + |r| {
        NoLabelOver(s, j, 8 + |r|);
      } else {
        assert s[j] == s[9 + |r|..f][j - 9 - |r|] == gap[j - 9 - |r|];
        NoTranscriptOnSpace(s, j);
      }
    }
  }

  /** In a reply whose answer itself opens with `transcript:`, that label is not where
      the result ends, since the lazy group takes one character first: the result
      keeps the label, and the transcript is everything after it. */
  lemma LabelOpeningAnswer(w: string, gap: string, x: string)
    requires w != [] && !IsSpace(w[0])
    requires !HasMatch(w, TranscriptLabel) && AllSpace(gap)
    requires !Contains(w, Sentinel) && !Contains(x, Sentinel)
    ensures Decide(FormatReply(TranscriptHead + w, gap, x)) ==
              Resolved(Trim(w + "," + gap + TranscriptHead + x), StripTrailing(TranscriptHead + w))
  {
    var r := TranscriptHead + w;
    var s := FormatReply(r, gap, x);
    FormatReplyLayout(r, gap, x);
    OpeningLabelTail(w, gap, x);
    ResultWhenAnswerOpensWithLabel(s, w, gap, x);
    TranscriptWhenAnswerOpensWithLabel(s, w, gap, x);
    LabelBeforeNoSentinel(w);
    FormatReplyNoSentinel(r, gap, x);
    StripKeepsLabel(w);
    DecideResolves(s, Trim(w + "," + gap + TranscriptHead + x), StripTrailing(r));
  }

  lemma StripKeepsLabel(w: string)
    ensures StripTrailing(TranscriptHead + w) != []
  {
    var t := TranscriptHead + w;
    assert t[0] == 't' && !IsStripChar(t[0]);
  }

  lemma LabelBeforeNoSentinel(w: string)
    requires !Contains(w, Sentinel)
    ensures !Contains(TranscriptHead + w, Sentinel)
  {
    NotContainsFirst([], Sentinel);
    ContainsAcrossSeparator([], TranscriptHead, w, Sentinel);
    assert TranscriptHead + w == [] + TranscriptHead + w;
  }

  lemma ResultWhenAnswerOpensWithLabel(s: string, w: string, gap: string, x: string)
    requires InLayout(s, TranscriptHead + w, gap, x)
    requires !HasMatch(w, TranscriptLabel) && AllSpace(gap)
    ensures ResultField(s) == Some(StripTrailing(TranscriptHead + w))
  {
    var r := TranscriptHead + w;
    var f := 9 + |r| + |gap|;
    LabelsWhenAnswerOpensWithLabel(s, w, gap, x);
    FirstResultInLayout(s, r, gap, x);
    ResultFieldFound(s, 0, 8, f);
    assert s[|ResultLabel|..f] == " " + (r + ",") + gap;
    TrimAnswer(r, gap);
    StripWithComma(r);
  }

  /** What follows the opening label and its blank. */
  lemma OpeningLabelTail(w: string, gap: string, x: string)
    ensures FormatReply(TranscriptHead + w, gap, x)[19..] == " " + (w + "," + gap + TranscriptHead + x)
  {
    var head := ResultHead + TranscriptLabel;
    var y := w + "," + gap + TranscriptHead + x;
    assert FormatReply(TranscriptHead + w, gap, x) == head + (" " + y);
  }

  lemma TranscriptWhenAnswerOpensWithLabel(s: string, w: string, gap: string, x: string)
    requires InLayout(s, TranscriptHead + w, gap, x)
    requires s[19..] == " " + (w + "," + gap + TranscriptHead + x)
    requires w != [] && !IsSpace(w[0])
    requires !HasMatch(w, TranscriptLabel) && AllSpace(gap)
    ensures TranscriptField(s) == Some(Trim(w + "," + gap + TranscriptHead + x))
  {
    var r := TranscriptHead + w;
    LabelsWhenAnswerOpensWithLabel(s, w, gap, x);
    TranscriptFieldFound(s, 8);
    var y := w + "," + gap + TranscriptHead + x;
    TrimWords(s[19..], y);
    TrimKeepsFirst(y);
  }
}
