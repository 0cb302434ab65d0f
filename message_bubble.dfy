/** The assistant-message splitter of chatfrontend/src/components/MessageBubble.tsx:
    the first `<think>…</think>` span found by `/<think>([\s\S]*?)<\/think>/` (no `g`
    flag) becomes the trimmed reasoning text, the rest of the message, with that one
    span removed and then trimmed, is the answer, and both texts have every newline
    turned into a markdown hard break before they reach the renderer. */
module MessageBubble {
  import opened Text
  import opened ChatLog

  const OpenTag: string := "<think>"
  const CloseTag: string := "</think>"

  /** The `content` prop (`string | React.ReactNode`), which also admits null and
      undefined; `Element` is any non-string node. */
  datatype Content = Null | Undefined | Text(text: string) | Element

  /** A match of the think pattern: `"<think>"` starts at `open`, `"</think>"` at `close`. */
  datatype ThinkMatch = ThinkMatch(open: nat, close: nat)

  /** An opening tag at `i` and a closing tag that begins at or after its end. */
  predicate IsPair(s: string, i: nat, j: nat) {
    OccursAt(s, OpenTag, i) && i + |OpenTag| <= j && OccursAt(s, CloseTag, j)
  }

  /** The match the regular expression reports, described without searching: the
      leftmost start position from which a match exists, and from there the shortest
      body (`*?`), so `close` is the first closing tag after the opening one. */
  ghost predicate IsFirstMatch(s: string, i: nat, j: nat) {
    && IsPair(s, i, j)
    && (forall k: nat, l: nat | k < i :: !IsPair(s, k, l))
    && (forall l: nat | i + |OpenTag| <= l < j :: !OccursAt(s, CloseTag, l))
  }

  /** `text.match(/<think>([\s\S]*?)<\/think>/)`, as a search: the first opening tag,
      then the first closing tag after it. */
  function FindThink(s: string): (m: Option<ThinkMatch>)
    ensures m.Some? ==> IsFirstMatch(s, m.value.open, m.value.close)
    ensures m.None? <==> forall i: nat, j: nat :: !IsPair(s, i, j)
  {
    match FindFrom(s, OpenTag, 0)
    case None => None
    case Some(i) =>
      match FindFrom(s, CloseTag, i + |OpenTag|)
      case None =>
        assert forall k: nat, l: nat :: !IsPair(s, k, l);
        None
      case Some(j) =>
        assert IsPair(s, i, j);
        Some(ThinkMatch(i, j))
  }

  /** The regular expression has exactly one answer on each text. */
  lemma FirstMatchIsUnique(s: string, i: nat, j: nat, i': nat, j': nat)
    requires IsFirstMatch(s, i, j) && IsFirstMatch(s, i', j')
    ensures i == i' && j == j'
  {
    assert IsPair(s, i, j) && IsPair(s, i', j');
    assert OccursAt(s, CloseTag, j) && OccursAt(s, CloseTag, j');
  }

  /** The search finds precisely the match the regular expression defines. */
  lemma FindThinkIsTheMatch(s: string, i: nat, j: nat)
    ensures FindThink(s) == Some(ThinkMatch(i, j)) <==> IsFirstMatch(s, i, j)
  {
    if IsFirstMatch(s, i, j) {
      assert FindThink(s).Some? by { assert IsPair(s, i, j); }
      var m := FindThink(s).value;
      FirstMatchIsUnique(s, i, j, m.open, m.close);
    }
  }

  /** `thinkMatch[0]`: the whole matched span, both tags included. */
  function MatchedSpan(s: string, m: ThinkMatch): string
    requires IsPair(s, m.open, m.close)
  {
    s[m.open..m.close + |CloseTag|]
  }

  /** `thinkMatch[1]`: the text between the tags. */
  function MatchedBody(s: string, m: ThinkMatch): string
    requires IsPair(s, m.open, m.close)
  {
    s[m.open + |OpenTag|..m.close]
  }

  /** The reasoning (`thinkContent`) and the answer (`mainContent`) of a message. */
  datatype Split = Split(thinking: string, main: string)

  /** Lines 17-20: with a match, the trimmed body and the trimmed text left after
      `replace(thinkMatch[0], "")`; without one, no reasoning and the text unchanged. */
  function SplitThink(text: string): (r: Split)
    ensures r.thinking == "" || (!IsJsSpace(r.thinking[0]) && !IsJsSpace(r.thinking[|r.thinking| - 1]))
    ensures FindThink(text).None? ==> r == Split("", text)
  {
    match FindThink(text)
    case None => Split("", text)
    case Some(m) =>
      Split(Trim(MatchedBody(text, m)), Trim(RemoveFirst(text, MatchedSpan(text, m))))
  }

  /** A copy of the matched span elsewhere in the text is itself an opening tag with
      a closing tag after it. */
  lemma CopyOfSpanIsPair(s: string, m: ThinkMatch, k: nat)
    requires IsPair(s, m.open, m.close)
    requires OccursAt(s, MatchedSpan(s, m), k)
    ensures IsPair(s, k, k + (m.close - m.open))
  {
    var span := MatchedSpan(s, m);
    var d := m.close - m.open;
    assert s[k..k + |OpenTag|] == s[k..k + |span|][..|OpenTag|] == span[..|OpenTag|];
    assert span[..|OpenTag|] == s[m.open..m.open + |OpenTag|];
    assert s[k + d..k + d + |CloseTag|] == s[k..k + |span|][d..d + |CloseTag|] == span[d..d + |CloseTag|];
    assert span[d..d + |CloseTag|] == s[m.close..m.close + |CloseTag|];
  }

  /** `replace` with the matched text as a string pattern removes the first place that
      text occurs; no earlier copy can exist (it would start with an opening tag that
      has a pair), so what goes is exactly the matched span. */
  lemma RemoveMatchedSpan(s: string, m: ThinkMatch)
    requires IsFirstMatch(s, m.open, m.close)
    ensures RemoveFirst(s, MatchedSpan(s, m)) == s[..m.open] + s[m.close + |CloseTag|..]
  {
    var span := MatchedSpan(s, m);
    assert OccursAt(s, span, m.open);
    var found := FindFrom(s, span, 0);
    var k := found.value;
    CopyOfSpanIsPair(s, m, k);
    assert k == m.open;
  }

  /** When a `<think>…</think>` pair exists, the reasoning is the trimmed text between
      the first opening tag and the first closing tag after it, and the answer is the
      trimmed concatenation of what comes before and after that span. */
  lemma {:induction false} SplitOfFirstPair(s: string, i: nat, j: nat)
    requires IsFirstMatch(s, i, j)
    ensures SplitThink(s) == Split(Trim(s[i + |OpenTag|..j]), Trim(s[..i] + s[j + |CloseTag|..]))
  {
    var m := ThinkMatch(i, j);
    assert j + |CloseTag| <= |s|;
    FindThinkIsTheMatch(s, i, j);
    assert FindThink(s) == Some(m);
    RemoveMatchedSpan(s, m);
  }

  /** With no opening tag followed by a closing tag, the text is its own answer,
      untrimmed, and there is no reasoning. */
  lemma SplitWithoutPair(s: string)
    requires forall i: nat, j: nat :: !IsPair(s, i, j)
    ensures SplitThink(s) == Split("", s)
  {
  }

  /** An opening tag that is never closed, with no opening tag before it, leaves the
      whole text, tag included, as the answer. */
  lemma UnclosedThinkIsKept(s: string, i: nat)
    requires OccursAt(s, OpenTag, i)
    requires forall k: nat | k < i :: !OccursAt(s, OpenTag, k)
    requires forall j: nat | i + |OpenTag| <= j :: !OccursAt(s, CloseTag, j)
    ensures SplitThink(s) == Split("", s)
  {
    var first := FindFrom(s, OpenTag, 0);
    assert first == Some(i);
    assert FindFrom(s, CloseTag, i + |OpenTag|).None?;
  }

  /** Once a text carries no pair, splitting again changes nothing: the split can be
      applied to every intermediate state of a streamed message. */
  lemma SplitIsStableWithoutMarkers(s: string)
    requires forall i: nat, j: nat :: !IsPair(s, i, j)
    ensures SplitThink(SplitThink(s).main) == SplitThink(s)
  {
    SplitWithoutPair(s);
  }

  /** `t` occurs somewhere in `s`. */
  ghost predicate Contains(s: string, t: string) {
    exists a: nat :: OccursAt(s, t, a)
  }

  /** Text whose first and last characters are not white space survives trimming as
      one piece. */
  lemma TrimKeepsInnerText(x: string, p: nat, q: nat)
    requires p < q <= |x| && !IsJsSpace(x[p]) && !IsJsSpace(x[q - 1])
    ensures Contains(Trim(x), x[p..q])
  {
    NonSpaceSurvivesTrim(x, p);
    NonSpaceSurvivesTrim(x, q - 1);
    var lo, hi := TrimStart(x, 0), TrimEnd(x, |x|);
    SliceOfSlice(x, lo, hi, p - lo, q - lo);
    assert OccursAt(Trim(x), x[p..q], p - lo);
  }

  /** Cutting `s[i..after]` out of `s` moves a piece outside the cut by the cut's length. */
  lemma SliceOfJoin(s: string, i: nat, after: nat, p: nat, q: nat)
    requires i <= after <= |s| && p <= q <= |s| && (q <= i || after <= p)
    ensures q <= i ==> (s[..i] + s[after..])[p..q] == s[p..q]
    ensures after <= p ==> (s[..i] + s[after..])[p - (after - i)..q - (after - i)] == s[p..q]
  {
    var rest := s[..i] + s[after..];
    if q <= i {
      assert forall t | p <= t < q :: rest[t] == s[t];
    } else {
      var d := after - i;
      assert forall t | p <= t < q :: rest[t - d] == s[t];
    }
  }

  /** After cutting `s[i..after]` out and trimming, a piece outside the cut that starts
      and ends with non-space characters is still there. */
  lemma TrimmedCutKeepsPiece(s: string, i: nat, after: nat, p: nat, q: nat)
    requires i <= after <= |s| && p < q <= |s| && (q <= i || after <= p)
    requires !IsJsSpace(s[p]) && !IsJsSpace(s[q - 1])
    ensures Contains(Trim(s[..i] + s[after..]), s[p..q])
  {
    var rest := s[..i] + s[after..];
    var off: nat := if q <= i then p else p - (after - i);
    var len := q - p;
    SliceOfJoin(s, i, after, p, q);
    assert rest[off..off + len] == s[p..q];
    assert rest[off] == rest[off..off + len][0];
    assert rest[off + len - 1] == rest[off..off + len][len - 1];
    TrimKeepsInnerText(rest, off, off + len);
  }

  /** Only the first span is removed: any piece of the text outside it that starts and
      ends with a non-space character (a second `<think>…</think>` pair, an unclosed
      `<think>` after the span, a word) is kept, as it is, inside the answer. */
  lemma TextOutsideSpanStaysInAnswer(s: string, i: nat, j: nat, p: nat, q: nat)
    requires IsFirstMatch(s, i, j)
    requires p < q <= |s| && (q <= i || j + |CloseTag| <= p)
    requires !IsJsSpace(s[p]) && !IsJsSpace(s[q - 1])
    ensures Contains(SplitThink(s).main, s[p..q])
  {
    var after := j + |CloseTag|;
    assert after <= |s|;
    AnswerOfFirstPair(s, i, j);
    CutAnswerKeepsPiece(s, i, after, p, q);
  }

  /** The answer of a split that cut `s[i..after]` out keeps every piece from outside
      the cut that starts and ends with a non-space character. */
  lemma CutAnswerKeepsPiece(s: string, i: nat, after: nat, p: nat, q: nat)
    requires i <= after <= |s| && p < q <= |s| && (q <= i || after <= p)
    requires !IsJsSpace(s[p]) && !IsJsSpace(s[q - 1])
    requires SplitThink(s).main == Trim(s[..i] + s[after..])
    ensures Contains(SplitThink(s).main, s[p..q])
  {
    var a := PieceOfTrimmedCut(s, i, after, p, q);
    assert OccursAt(SplitThink(s).main, s[p..q], a);
  }

  /** The answer half of the split of a text with a first match. */
  lemma AnswerOfFirstPair(s: string, i: nat, j: nat)
    requires IsFirstMatch(s, i, j)
    ensures SplitThink(s).main == Trim(s[..i] + s[j + |CloseTag|..])
  {
    SplitOfFirstPair(s, i, j);
  }

  /** Where a trimmed piece from outside the cut `s[i..after]` lies in the trimmed
      remainder. */
  lemma PieceOfTrimmedCut(s: string, i: nat, after: nat, p: nat, q: nat) returns (a: nat)
    requires i <= after <= |s| && p < q <= |s| && (q <= i || after <= p)
    requires !IsJsSpace(s[p]) && !IsJsSpace(s[q - 1])
    ensures OccursAt(Trim(s[..i] + s[after..]), s[p..q], a)
  {
    TrimmedCutKeepsPiece(s, i, after, p, q);
    a :| OccursAt(Trim(s[..i] + s[after..]), s[p..q], a);
  }

  /** A second `<think>…</think>` pair after the first span stays, tags and all,
      inside the answer. */
  lemma LaterPairStaysInAnswer(s: string, i: nat, j: nat, k: nat, l: nat)
    requires IsFirstMatch(s, i, j)
    requires IsPair(s, k, l) && j + |CloseTag| <= k
    ensures Contains(SplitThink(s).main, s[k..l + |CloseTag|])
  {
    assert s[k] == s[k..k + |OpenTag|][0] == '<';
    assert s[l + |CloseTag| - 1] == s[l..l + |CloseTag|][|CloseTag| - 1] == '>';
    TextOutsideSpanStaysInAnswer(s, i, j, k, l + |CloseTag|);
  }

  /** A reply made of one reasoning part in tags followed by the answer, where the
      reasoning holds no `<`: the first match covers exactly the tagged part. */
  lemma TaggedReplyMatch(body: string, answer: string)
    requires '<' !in body
    ensures IsFirstMatch(OpenTag + body + CloseTag + answer, 0, |OpenTag| + |body|)
  {
    var s := OpenTag + body + CloseTag + answer;
    var j := |OpenTag| + |body|;
    assert s[0..|OpenTag|] == OpenTag;
    assert s[j..j + |CloseTag|] == CloseTag;
    assert s[|OpenTag|..j] == body;
    forall l: nat | |OpenTag| <= l < j ensures !OccursAt(s, CloseTag, l) {
      assert s[l] == body[l - |OpenTag|];
      assert s[l..l + |CloseTag|][0] == s[l];
    }
  }

  /** Such a reply, with reasoning and answer already free of surrounding white
      space, splits back into exactly those two parts. */
  lemma {:induction false} TaggedReplySplits(body: string, answer: string)
    requires '<' !in body
    requires body == "" || (!IsJsSpace(body[0]) && !IsJsSpace(body[|body| - 1]))
    requires answer == "" || (!IsJsSpace(answer[0]) && !IsJsSpace(answer[|answer| - 1]))
    ensures SplitThink(OpenTag + body + CloseTag + answer) == Split(body, answer)
  {
    var s := OpenTag + body + CloseTag + answer;
    var j := |OpenTag| + |body|;
    TaggedReplyMatch(body, answer);
    assert s[|OpenTag|..j] == body;
    assert s[..0] + s[j + |CloseTag|..] == answer;
    SplitOfTrimmedParts(s, 0, j, body, answer);
  }

  /** A first match whose body and surrounding text are already trimmed splits into
      exactly those two parts. */
  lemma SplitOfTrimmedParts(s: string, i: nat, j: nat, body: string, answer: string)
    requires IsFirstMatch(s, i, j)
    requires s[i + |OpenTag|..j] == body && s[..i] + s[j + |CloseTag|..] == answer
    requires body == "" || (!IsJsSpace(body[0]) && !IsJsSpace(body[|body| - 1]))
    requires answer == "" || (!IsJsSpace(answer[0]) && !IsJsSpace(answer[|answer| - 1]))
    ensures SplitThink(s) == Split(body, answer)
  {
    SplitOfFirstPair(s, i, j);
    TrimOfTrimmed(body);
    TrimOfTrimmed(answer);
  }

  /** The worked example: `<think>step one</think>Final answer` comes apart into the
      reasoning `step one` and the answer `Final answer`. */
  lemma StepOneExample()
    ensures SplitThink(OpenTag + "step one" + CloseTag + "Final answer") == Split("step one", "Final answer")
  {
    TaggedReplySplits("step one", "Final answer");
  }

  /** `s.replace(/\n/g, "  \n")`: two spaces before every newline, so that markdown
      renders a line break; every other character is kept. */
  function HardBreaks(s: string): (r: string)
    ensures |r| == |s| + 2 * Newlines(s)
  {
    if s == "" then "" else (if s[0] == '\n' then "  \n" else [s[0]]) + HardBreaks(s[1..])
  }

  /** The number of newline characters in `s`. */
  function Newlines(s: string): nat {
    if s == "" then 0 else (if s[0] == '\n' then 1 else 0) + Newlines(s[1..])
  }

  /** The expansion works character by character, so it distributes over concatenation
      and a streamed prefix expands to a prefix of the final expansion. */
  lemma {:induction false} HardBreaksAppend(a: string, b: string)
    ensures HardBreaks(a + b) == HardBreaks(a) + HardBreaks(b)
  {
    if a != "" {
      assert (a + b)[0] == a[0] && (a + b)[1..] == a[1..] + b;
      HardBreaksAppend(a[1..], b);
    } else {
      assert a + b == b;
    }
  }

  /** Appending one character appends its expansion: a newline becomes two spaces and
      the newline, every other character stays itself. With HardBreaksAppend this fixes
      the expansion of every text. */
  lemma HardBreaksSnoc(s: string, c: char)
    ensures HardBreaks(s + [c]) == HardBreaks(s) + (if c == '\n' then "  \n" else [c])
  {
    HardBreaksAppend(s, [c]);
    assert [c][1..] == "";
  }

  /** A text without newlines is handed to the renderer unchanged. */
  lemma {:induction false} HardBreaksWithoutNewline(s: string)
    requires forall i | 0 <= i < |s| :: s[i] != '\n'
    ensures HardBreaks(s) == s
  {
    if s != "" {
      HardBreaksWithoutNewline(s[1..]);
    }
  }

  /** In the expanded text every newline is preceded by two spaces. */
  lemma {:induction false} EveryNewlineIsHardBreak(s: string)
    ensures forall i | 0 <= i < |HardBreaks(s)| && HardBreaks(s)[i] == '\n' ::
      i >= 2 && HardBreaks(s)[i - 2] == ' ' && HardBreaks(s)[i - 1] == ' '
  {
    if s != "" {
      EveryNewlineIsHardBreak(s[1..]);
      var head := if s[0] == '\n' then "  \n" else [s[0]];
      var r := HardBreaks(s);
      var tail := HardBreaks(s[1..]);
      assert r == head + tail;
      forall i | 0 <= i < |r| && r[i] == '\n'
        ensures i >= 2 && r[i - 2] == ' ' && r[i - 1] == ' '
      {
        if i >= |head| {
          var t := i - |head|;
          assert tail[t] == '\n';
          if t >= 2 {
            assert r[i - 2] == tail[t - 2] && r[i - 1] == tail[t - 1];
          }
        }
      }
    }
  }

  /** What the bubble hands to the markdown renderer: the reasoning block, present
      only when the trimmed reasoning is non-empty, and the answer. */
  datatype Bubble = Bubble(role: Role, reasoning: Option<string>, answer: string)

  /** Lines 13-20, 32, 38 and 57: null or undefined content renders nothing, other
      non-string content is split as the empty string. */
  function Render(role: Role, content: Content): (r: Option<Bubble>)
    ensures r.None? <==> content.Null? || content.Undefined?
    ensures content.Element? ==> r == Some(Bubble(role, None, ""))
    ensures content.Text? ==> r.Some? && r.value.role == role
    ensures content.Text? ==>
      (r.value.reasoning.Some? <==> SplitThink(content.text).thinking != "")
    ensures content.Text? && r.value.reasoning.Some? ==>
      r.value.reasoning.value == HardBreaks(SplitThink(content.text).thinking)
    ensures content.Text? ==> r.value.answer == HardBreaks(SplitThink(content.text).main)
  {
    if content.Null? || content.Undefined? then None
    else
      var text := if content.Text? then content.text else "";
      var split := SplitThink(text);
      var reasoning := if split.thinking != "" then Some(HardBreaks(split.thinking)) else None;
      Some(Bubble(role, reasoning, HardBreaks(split.main)))
  }

  /** A message without any pair is rendered with no reasoning block and its whole
      text, newlines expanded, as the answer. */
  lemma RenderWithoutPair(role: Role, text: string)
    requires forall i: nat, j: nat :: !IsPair(text, i, j)
    ensures Render(role, Text(text)) == Some(Bubble(role, None, HardBreaks(text)))
  {
  }
}
