/** The chat window of components/ChatModal.tsx: how a bubble's text is
    rendered (asterisks dropped while streaming, `*…*` spans in bold once
    final), what a bubble shows, the idle re-engagement timer and its
    flag, and the local send handler. */
module ChatModal {
  import opened Wrappers
  import opened Text
  import opened Transcript

  /** A rendered piece of text: plain, or inside `<strong>`. */
  datatype Segment = Plain(text: string) | Bold(text: string)

  // `s.replace(/\*/g, '')`: every asterisk removed.
  function WithoutAsterisks(s: string): (r: string)
    ensures '*' !in r
    ensures |r| <= |s|
    ensures '*' !in s ==> r == s
  {
    if s == [] then ""
    else (if s[0] == '*' then "" else [s[0]]) + WithoutAsterisks(s[1..])
  }

  /** Exactly the asterisks go: the result is shorter by their number. */
  lemma {:induction false} WithoutAsterisksDropsEachStar(s: string)
    ensures |WithoutAsterisks(s)| == |s| - multiset(s)['*']
  {
    if s != [] {
      assert s == [s[0]] + s[1..];
      WithoutAsterisksDropsEachStar(s[1..]);
    }
  }

  /** Dropping asterisks works piece by piece: the text streamed so far is
      shown the same whether it arrived in one piece or two. */
  lemma {:induction false} WithoutAsterisksAppend(a: string, b: string)
    ensures WithoutAsterisks(a + b) == WithoutAsterisks(a) + WithoutAsterisks(b)
  {
    if a != [] {
      assert (a + b)[0] == a[0] && (a + b)[1..] == a[1..] + b;
      WithoutAsterisksAppend(a[1..], b);
    } else {
      assert a + b == b;
    }
  }

  /** A piece that the regular expression `\*.*?\*` matches: an asterisk,
      characters other than asterisks and line terminators, an asterisk. */
  predicate IsBoldSpan(p: string) {
    |p| >= 2 && p[0] == '*' && p[|p| - 1] == '*'
    && forall i :: 0 < i < |p| - 1 ==> p[i] != '*' && !IsLineTerminator(p[i])
  }

  /** The lazy `.*?\*` after an opening asterisk: the index just past the
      first asterisk at or after `j`, unless a line terminator or the end of
      the text comes first. */
  function ClosingStar(s: string, j: nat): (e: Option<nat>)
    requires j <= |s|
    ensures e.Some? ==> j < e.value <= |s| && s[e.value - 1] == '*'
    ensures e.Some? ==> forall i :: j <= i < e.value - 1 ==> s[i] != '*' && !IsLineTerminator(s[i])
    ensures e.None? ==> forall k :: j <= k < |s| && s[k] == '*' ==>
      exists i :: j <= i < k && IsLineTerminator(s[i])
    decreases |s| - j
  {
    if j == |s| then None
    else if s[j] == '*' then Some(j + 1)
    else if IsLineTerminator(s[j]) then None
    else ClosingStar(s, j + 1)
  }

  /** Where the match starting at `q` ends, if one starts there. */
  function MatchEnd(s: string, q: nat): (e: Option<nat>)
    requires q < |s|
    ensures e.Some? ==> q + 2 <= e.value <= |s| && IsBoldSpan(s[q..e.value])
    ensures e.None? ==> forall j :: q < j <= |s| ==> !IsBoldSpan(s[q..j])
  {
    if s[q] != '*' then None
    else
      var c := ClosingStar(s, q + 1);
      if c.None? then
        assert forall j :: q < j <= |s| ==> !IsBoldSpan(s[q..j]) by {
          forall j | q < j <= |s| && IsBoldSpan(s[q..j])
            ensures false
          {
            var i :| q + 1 <= i < j - 1 && IsLineTerminator(s[i]);
          }
        }
        None
      else
        assert IsBoldSpan(s[q..c.value]) by {
          forall i | 0 < i < c.value - q - 1
            ensures s[q..c.value][i] != '*' && !IsLineTerminator(s[q..c.value][i])
          {
            assert s[q..c.value][i] == s[q + i];
          }
        }
        c
  }

  /** The first match at or after `from`, as its start and end. */
  function FirstMatch(s: string, from: nat): (m: Option<(nat, nat)>)
    requires from <= |s|
    ensures m.Some? ==> from <= m.value.0 < |s| && MatchEnd(s, m.value.0) == Some(m.value.1)
    ensures m.Some? ==> forall x :: from <= x < m.value.0 ==> MatchEnd(s, x).None?
    ensures m.None? ==> forall x :: from <= x < |s| ==> MatchEnd(s, x).None?
    decreases |s| - from
  {
    if from == |s| then None
    else
      match MatchEnd(s, from)
      case Some(e) => Some((from, e))
      case None => FirstMatch(s, from + 1)
  }

  /** `s.split(/(\*.*?\*)/g)`: the text between matches, with each match
      kept (the captured group) between them. */
  function BoldSplit(s: string): (parts: seq<string>)
    ensures |parts| % 2 == 1
    decreases |s|
  {
    match FirstMatch(s, 0)
    case None => [s]
    case Some((q, e)) => [s[..q], s[q..e]] + BoldSplit(s[e..])
  }

  /** The parts put back together give the text. */
  lemma {:induction false} BoldSplitRoundTrip(s: string)
    ensures Flatten(BoldSplit(s)) == s
    decreases |s|
  {
    match FirstMatch(s, 0)
    case None =>
    case Some((q, e)) =>
      BoldSplitRoundTrip(s[e..]);
      var rest := BoldSplit(s[e..]);
      assert ([s[..q], s[q..e]] + rest)[1..] == [s[q..e]] + rest;
      assert ([s[q..e]] + rest)[1..] == rest;
      assert s == s[..q] + (s[q..e] + s[e..]);
  }

  /** Every second part is a match. */
  lemma {:induction false} BoldSplitSpans(s: string)
    ensures forall k :: 0 <= k < |BoldSplit(s)| && k % 2 == 1 ==> IsBoldSpan(BoldSplit(s)[k])
    decreases |s|
  {
    match FirstMatch(s, 0)
    case None =>
    case Some((q, e)) =>
      BoldSplitSpans(s[e..]);
      var rest := BoldSplit(s[e..]);
      var parts := [s[..q], s[q..e]] + rest;
      assert BoldSplit(s) == parts;
      assert IsBoldSpan(s[q..e]);
      forall k | 0 <= k < |parts| && k % 2 == 1
        ensures IsBoldSpan(parts[k])
      {
        if k == 1 {
          assert parts[1] == s[q..e];
        } else {
          var m := k - 2;
          assert parts[k] == rest[m];
          assert m % 2 == 1;
          assert IsBoldSpan(rest[m]);
        }
      }
  }

  /** The lazy match only looks forward: cutting text off the front moves
      a closing asterisk back by as much. */
  lemma {:induction false} ClosingStarAfterCut(s: string, e: nat, j: nat)
    requires e <= |s| && j <= |s| - e
    ensures ClosingStar(s[e..], j).None? == ClosingStar(s, e + j).None?
    ensures ClosingStar(s[e..], j).Some? ==> ClosingStar(s[e..], j).value + e == ClosingStar(s, e + j).value
    decreases |s| - e - j
  {
    if j < |s| - e {
      assert s[e..][j] == s[e + j];
      ClosingStarAfterCut(s, e, j + 1);
    }
  }

  lemma MatchEndAfterCut(s: string, e: nat, y: nat)
    requires e + y < |s|
    ensures MatchEnd(s[e..], y).None? == MatchEnd(s, e + y).None?
  {
    assert s[e..][y] == s[e + y];
    if s[e + y] == '*' {
      ClosingStarAfterCut(s, e, y + 1);
    }
  }

  lemma FlattenPair(a: string, b: string, rest: seq<string>)
    ensures Flatten([a, b] + rest) == a + b + Flatten(rest)
  {
    FlattenAppend([a, b], rest);
    assert [a, b][1..] == [b];
    assert Flatten([b]) == b + Flatten([]);
  }

  /** No match of `\*.*?\*` starts at a position of `s` in `lo..hi`. */
  ghost predicate NoMatchStartsIn(s: string, lo: nat, hi: nat) {
    hi <= |s| && forall x :: lo <= x < hi ==> MatchEnd(s, x).None?
  }

  /** No match starts inside a part of `parts` that is not a captured
      span, positions counted in `s`. */
  ghost predicate MissesNoMatch(s: string, parts: seq<string>) {
    forall k :: 0 <= k < |parts| && k % 2 == 0 ==>
      NoMatchStartsIn(s, |Flatten(parts[..k])|, |Flatten(parts[..k + 1])|)
  }

  /** The split misses no match: no match starts inside a part that is
      not a captured span. */
  lemma {:induction false} BoldSplitFindsEveryMatch(s: string)
    ensures MissesNoMatch(s, BoldSplit(s))
    decreases |s|
  {
    var parts := BoldSplit(s);
    match FirstMatch(s, 0)
    case None =>
      FirstPartBeforeMatch(s, parts, |s|);
    case Some((q, e)) =>
      var rest := BoldSplit(s[e..]);
      BoldSplitFindsEveryMatch(s[e..]);
      assert parts == [s[..q], s[q..e]] + rest;
      FirstPartBeforeMatch(s, parts, q);
      LaterPartsMissNoMatch(s, q, e, rest);
  }

  /** After the first match, the parts of the rest of the text keep their
      property in the whole text. */
  lemma LaterPartsMissNoMatch(s: string, q: nat, e: nat, rest: seq<string>)
    requires q <= e <= |s| && MissesNoMatch(s[e..], rest)
    ensures var parts := [s[..q], s[q..e]] + rest;
      forall k :: 2 <= k < |parts| && k % 2 == 0 ==>
        NoMatchStartsIn(s, |Flatten(parts[..k])|, |Flatten(parts[..k + 1])|)
  {
    var parts := [s[..q], s[q..e]] + rest;
    forall k | 2 <= k < |parts| && k % 2 == 0
      ensures NoMatchStartsIn(s, |Flatten(parts[..k])|, |Flatten(parts[..k + 1])|)
    {
      var m := k - 2;
      assert m % 2 == 0 && m < |rest|;
      SpanAfterFirstMatch(s, q, e, rest, m);
      assert parts[..k] == [s[..q], s[q..e]] + rest[..m];
      assert parts[..k + 1] == [s[..q], s[q..e]] + rest[..m + 1];
    }
  }

  /** The first part of the split holds no match. */
  lemma FirstPartBeforeMatch(s: string, parts: seq<string>, q: nat)
    requires q <= |s| && parts != [] && parts[0] == s[..q]
    requires forall x :: 0 <= x < q ==> MatchEnd(s, x).None?
    ensures NoMatchStartsIn(s, |Flatten(parts[..0])|, |Flatten(parts[..1])|)
  {
    assert parts[..0] == [] && parts[..1] == [s[..q]];
    assert Flatten([s[..q]]) == s[..q] + Flatten([]);
  }

  /** A range of positions free of matches in the text after the first
      match is free of them in the whole text, moved by the cut. */
  lemma SpanAfterFirstMatch(s: string, q: nat, e: nat, rest: seq<string>, m: nat)
    requires q <= e <= |s| && m < |rest|
    requires NoMatchStartsIn(s[e..], |Flatten(rest[..m])|, |Flatten(rest[..m + 1])|)
    ensures NoMatchStartsIn(s, |Flatten([s[..q], s[q..e]] + rest[..m])|, |Flatten([s[..q], s[q..e]] + rest[..m + 1])|)
  {
    FlattenPair(s[..q], s[q..e], rest[..m]);
    FlattenPair(s[..q], s[q..e], rest[..m + 1]);
    assert |s[..q] + s[q..e]| == e;
    forall x | e + |Flatten(rest[..m])| <= x < e + |Flatten(rest[..m + 1])|
      ensures MatchEnd(s, x).None?
    {
      assert |Flatten(rest[..m])| <= x - e < |Flatten(rest[..m + 1])|;
      MatchEndAfterCut(s, e, x - e);
    }
  }

  /** No asterisk at all: the text is one part. */
  lemma NoAsteriskOnePart(s: string)
    ensures '*' !in s ==> BoldSplit(s) == [s]
  {
  }

  /** One part, rendered. */
  function RenderPart(part: string): (seg: Segment)
    ensures seg.Bold? <==> StartsWith(part, "*") && EndsWith(part, "*")
    ensures seg.Plain? ==> seg.text == part
    ensures |part| >= 2 && seg.Bold? ==> "*" + seg.text + "*" == part
  {
    if StartsWith(part, "*") && EndsWith(part, "*") then Bold(Substring(part, 1, |part| - 1))
    else Plain(part)
  }

  function RenderParts(parts: seq<string>): (segs: seq<Segment>)
    ensures |segs| == |parts|
    ensures forall k :: 0 <= k < |parts| ==> segs[k] == RenderPart(parts[k])
  {
    if parts == [] then [] else [RenderPart(parts[0])] + RenderParts(parts[1..])
  }

  /** The text a segment was rendered from, the delimiters put back. */
  function SourceOf(seg: Segment): string {
    match seg
    case Plain(t) => t
    case Bold(t) => "*" + t + "*"
  }

  function Source(segs: seq<Segment>): string {
    if segs == [] then "" else SourceOf(segs[0]) + Source(segs[1..])
  }

  /** `renderFormattedText(text, isFinal)`: the trimmed text, without
      asterisks while streaming, and split into plain and bold pieces once
      final. */
  function RenderFormattedText(text: string, isFinal: bool): (r: seq<Segment>)
    ensures !isFinal ==> r == [Plain(WithoutAsterisks(Trim(text)))] && '*' !in r[0].text
    ensures isFinal ==> |r| % 2 == 1
    ensures isFinal && '*' !in Trim(text) ==> r == [Plain(Trim(text))]
  {
    var clean := Trim(text);
    if !isFinal then [Plain(WithoutAsterisks(clean))]
    else
      NoAsteriskOnePart(clean);
      RenderParts(BoldSplit(clean))
  }

  /** Once final, each match is shown bold without its two asterisks. */
  lemma FinalSpansAreBold(text: string)
    ensures var parts := BoldSplit(Trim(text));
      var r := RenderFormattedText(text, true);
      forall k :: 0 <= k < |r| && k % 2 == 1 ==>
        r[k].Bold? && "*" + r[k].text + "*" == parts[k] && '*' !in r[k].text
  {
    var parts := BoldSplit(Trim(text));
    BoldSplitSpans(Trim(text));
    forall k | 0 <= k < |parts| && k % 2 == 1
      ensures var seg := RenderPart(parts[k]);
        seg.Bold? && "*" + seg.text + "*" == parts[k] && '*' !in seg.text
    {
      BoldSpanRendering(parts[k]);
    }
  }

  /** A matched span is shown bold, without its asterisks. */
  lemma BoldSpanRendering(p: string)
    requires IsBoldSpan(p)
    ensures var seg := RenderPart(p);
      seg.Bold? && "*" + seg.text + "*" == p && '*' !in seg.text
  {
    var seg := RenderPart(p);
    assert p[|p| - 1..] == [p[|p| - 1]];
    assert seg.Bold?;
    assert seg.text == p[1..|p| - 1];
    forall i | 0 <= i < |seg.text|
      ensures seg.text[i] != '*'
    {
      assert seg.text[i] == p[i + 1];
    }
  }

  /** A lone asterisk starts and ends with `*`, and `substring(1, 0)`
      swaps its bounds: it is shown as a bold asterisk. */
  lemma LoneAsteriskIsBold(text: string)
    requires Trim(text) == "*"
    ensures RenderFormattedText(text, true) == [Bold("*")]
  {
    assert '*' in Trim(text);
    assert FirstMatch("*", 0) == None by {
      assert MatchEnd("*", 0) == None;
    }
  }

  lemma {:induction false} SourceOfRenderedParts(parts: seq<string>)
    requires forall k :: 0 <= k < |parts| ==> parts[k] != "*"
    ensures Source(RenderParts(parts)) == Flatten(parts)
  {
    if parts != [] {
      SourceOfRenderedParts(parts[1..]);
      var p := parts[0];
      var seg := RenderPart(p);
      if seg.Bold? {
        assert p[..1] == "*" && p[|p| - 1..] == "*";
        assert |p| >= 2;
      }
      assert RenderParts(parts)[1..] == RenderParts(parts[1..]);
    }
  }

  /** Unless some part is a lone asterisk, putting the asterisks back
      around the bold pieces gives the trimmed text. */
  lemma FinalRenderRoundTrip(text: string)
    requires forall k :: 0 <= k < |BoldSplit(Trim(text))| ==> BoldSplit(Trim(text))[k] != "*"
    ensures Source(RenderFormattedText(text, true)) == Trim(text)
  {
    SourceOfRenderedParts(BoldSplit(Trim(text)));
    BoldSplitRoundTrip(Trim(text));
  }

  /** What one bubble shows. */
  datatype Bubble = Bubble(typing: bool, body: Option<seq<Segment>>, cursor: bool,
                           video: Option<string>, signUpButton: bool)

  const EmbedPrefix := "https://www.youtube.com/embed/"

  /** The last assistant bubble while a reply is loading. */
  predicate IsStreaming(isLoading: bool, msg: Message, isLast: bool) {
    isLoading && msg.sender == Assistant && isLast
  }

  /** The bubble of `msg`: the typing indicator while streaming with no
      text yet, else the rendered text (final unless streaming) with a
      cursor while streaming; the video and the button only when not
      streaming, the video only for a non-empty id. */
  function BubbleFor(msg: Message, isLoading: bool, isLast: bool): (b: Bubble)
    ensures b.typing <==> IsStreaming(isLoading, msg, isLast) && msg.text == ""
    ensures b.typing <==> b.body.None?
    ensures b.body.Some? ==> b.body.value == RenderFormattedText(msg.text, !IsStreaming(isLoading, msg, isLast))
    ensures b.cursor <==> IsStreaming(isLoading, msg, isLast) && msg.text != ""
    ensures b.video.Some? <==> !IsStreaming(isLoading, msg, isLast) && msg.youtubeId.Some? && msg.youtubeId.value != ""
    ensures b.video.Some? ==> b.video.value == EmbedPrefix + msg.youtubeId.value
    ensures b.signUpButton <==> !IsStreaming(isLoading, msg, isLast) && msg.showSignUpButton == Some(true)
  {
    var streaming := IsStreaming(isLoading, msg, isLast);
    var typing := streaming && msg.text == "";
    Bubble(
      typing,
      if typing then None else Some(RenderFormattedText(msg.text, !streaming)),
      !typing && streaming,
      if msg.youtubeId.Some? && msg.youtubeId.value != "" && !streaming then Some(EmbedPrefix + msg.youtubeId.value) else None,
      msg.showSignUpButton == Some(true) && !streaming)
  }

  /** User bubbles, earlier bubbles and every bubble once loading is over
      are never streaming: they show their final text and attachments. */
  lemma SettledBubble(msg: Message, isLoading: bool, isLast: bool)
    requires !isLoading || msg.sender == User || !isLast
    ensures var b := BubbleFor(msg, isLoading, isLast);
      !b.typing && !b.cursor && b.body == Some(RenderFormattedText(msg.text, true))
      && b.signUpButton == (msg.showSignUpButton == Some(true))
  {
  }

  /** The re-engagement timer may be armed: not loading, not yet sent, and
      the last bubble is the assistant's. */
  predicate CanReEngage(isLoading: bool, hasSent: bool, messages: seq<Message>) {
    !isLoading && !hasSent && |messages| > 0 && messages[|messages| - 1].sender == Assistant
  }

  predicate LastIsUser(messages: seq<Message>) {
    |messages| > 0 && messages[|messages| - 1].sender == User
  }

  /** The modal's state: its props `messages` and `isLoading`, the input
      box, the re-engagement flag and whether the idle timer is pending. */
  class ReEngagement {
    var messages: seq<Message>
    var isLoading: bool
    var userInput: string
    var hasSentReEngagement: bool
    var idleTimerArmed: bool

    /** The effects have settled: the timer is pending exactly when
        re-engagement is possible, and the flag is clear after a user
        bubble. */
    predicate Valid()
      reads this
    {
      && idleTimerArmed == CanReEngage(isLoading, hasSentReEngagement, messages)
      && (LastIsUser(messages) ==> !hasSentReEngagement)
    }

    /** Mounting, with both effects run once. */
    constructor (messages0: seq<Message>, isLoading0: bool)
      ensures Valid()
      ensures messages == messages0 && isLoading == isLoading0 && userInput == ""
      ensures !hasSentReEngagement && idleTimerArmed == CanReEngage(isLoading0, false, messages0)
    {
      messages := messages0;
      isLoading := isLoading0;
      userInput := "";
      hasSentReEngagement := false;
      idleTimerArmed := CanReEngage(isLoading0, false, messages0);
    }

    /** The idle-timer effect: clear any pending timer, then start one when
        re-engagement is possible. */
    method ResetIdleTimer()
      modifies this
      ensures idleTimerArmed == CanReEngage(isLoading, hasSentReEngagement, messages)
      ensures messages == old(messages) && isLoading == old(isLoading)
      ensures userInput == old(userInput) && hasSentReEngagement == old(hasSentReEngagement)
    {
      idleTimerArmed := false;
      if CanReEngage(isLoading, hasSentReEngagement, messages) {
        idleTimerArmed := true;
      }
    }

    /** New props: the flag is cleared when the last bubble is the user's,
        then the timer is reset. */
    method Rerender(messages1: seq<Message>, isLoading1: bool)
      modifies this
      ensures Valid()
      ensures messages == messages1 && isLoading == isLoading1 && userInput == old(userInput)
      ensures hasSentReEngagement == (old(hasSentReEngagement) && !LastIsUser(messages1))
    {
      messages := messages1;
      isLoading := isLoading1;
      if |messages| > 0 && messages[|messages| - 1].sender == User {
        hasSentReEngagement := false;
      }
      ResetIdleTimer();
    }

    /** A keystroke: the input changes and the timer restarts. */
    method TypeInput(s: string)
      requires Valid()
      modifies this
      ensures Valid()
      ensures userInput == s && messages == old(messages) && isLoading == old(isLoading)
      ensures hasSentReEngagement == old(hasSentReEngagement) && idleTimerArmed == old(idleTimerArmed)
    {
      userInput := s;
      ResetIdleTimer();
    }

    /** The idle timer fires when it is pending: the parent is asked to
        re-engage (`fired`) and the flag is set, which cancels the timer. */
    method IdleTimeout() returns (fired: bool)
      requires Valid()
      modifies this
      ensures Valid()
      ensures fired == old(idleTimerArmed)
      ensures fired ==> hasSentReEngagement && !idleTimerArmed
      ensures !fired ==> hasSentReEngagement == old(hasSentReEngagement)
      ensures messages == old(messages) && isLoading == old(isLoading) && userInput == old(userInput)
    {
      fired := idleTimerArmed;
      if fired {
        hasSentReEngagement := true;
        ResetIdleTimer();
      }
    }

    /** `handleLocalSendMessage`: nothing happens for blank input or while
        loading; otherwise the input box is cleared and the input, as
        typed, is handed to the parent. */
    method LocalSend() returns (sent: Option<string>)
      requires Valid()
      modifies this
      ensures Valid()
      ensures IsBlank(old(userInput)) || old(isLoading) ==> sent == None && userInput == old(userInput)
      ensures !IsBlank(old(userInput)) && !old(isLoading) ==> sent == Some(old(userInput)) && userInput == ""
      ensures messages == old(messages) && isLoading == old(isLoading)
      ensures hasSentReEngagement == old(hasSentReEngagement) && idleTimerArmed == old(idleTimerArmed)
    {
      if IsBlank(userInput) || isLoading {
        return None;
      }
      sent := Some(userInput);
      userInput := "";
      ResetIdleTimer();
    }
  }

  /** Idle twice after a reply: the first timeout re-engages, the second
      does nothing; after the user's next message and the reply to it the
      timer is pending again. */
  method IdleTwiceFiresOnce(greeting: Message, question: Message, answer: Message)
    returns (first: bool, second: bool, rearmed: bool)
    requires greeting.sender == Assistant && question.sender == User && answer.sender == Assistant
    ensures first && !second && rearmed
  {
    var modal := new ReEngagement([greeting], false);
    first := modal.IdleTimeout();
    second := modal.IdleTimeout();
    modal.Rerender([greeting, question], true);
    modal.Rerender([greeting, question, answer], false);
    rearmed := modal.idleTimerArmed;
  }

  /** The modal hands on exactly the inputs that are not blank, unchanged;
      such an input holds a character that is not white space, which is
      the first clause of the send handler's guard. */
  method SentInputIsNotBlank(input: string) returns (sent: Option<string>)
    ensures sent.Some? <==> !IsBlank(input)
    ensures sent.Some? ==> sent.value == input
    ensures sent.Some? ==> exists i :: 0 <= i < |input| && !IsSpace(input[i])
  {
    var modal := new ReEngagement([], false);
    modal.TypeInput(input);
    sent := modal.LocalSend();
  }
}
