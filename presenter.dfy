/** The streamed-reply presenter of App.tsx: text chunks are buffered,
    everything up to the last space is revealed word by word, the partial
    trailing word is held back until the end of the stream, and a stop
    flag is polled before each chunk, each word and the final flush. */
module Presenter {
  import opened Wrappers
  import opened Text

  /** `chunk.text || ''`: a chunk without text contributes nothing. */
  function ChunkText(chunk: Option<string>): (t: string)
    ensures chunk.None? ==> t == ""
    ensures chunk.Some? ==> t == chunk.value
  {
    if chunk.Some? then chunk.value else ""
  }

  /** Everything the service sent, in arrival order. */
  function Concat(chunks: seq<Option<string>>): string {
    if chunks == [] then "" else ChunkText(chunks[0]) + Concat(chunks[1..])
  }

  /** `s.lastIndexOf(c)`, which is -1 when `c` does not occur. */
  function LastIndexOf(s: string, c: char): (i: int)
    ensures -1 <= i < |s|
    ensures i >= 0 ==> s[i] == c
    ensures forall j :: i < j < |s| ==> s[j] != c
  {
    if s == [] then -1
    else if s[|s| - 1] == c then |s| - 1
    else LastIndexOf(s[..|s| - 1], c)
  }

  /** The buffer split after a chunk arrives: the text up to and including
      the last space is released for display (`textToAnimate`), the rest is
      kept (`unprocessedText`). */
  function ReleaseWholeWords(buffer: string): (r: (string, string))
    ensures r.0 + r.1 == buffer
    ensures ' ' !in r.1
    ensures r.0 == [] || r.0[|r.0| - 1] == ' '
  {
    var i := LastIndexOf(buffer, ' ');
    if i == -1 then ("", buffer) else (buffer[..i + 1], buffer[i + 1..])
  }

  /** The split is the only one whose released part is empty or ends with a
      space and whose kept part has no space. */
  lemma ReleaseWholeWordsIsUnique(buffer: string, released: string, kept: string)
    requires released + kept == buffer && ' ' !in kept
    requires released == [] || released[|released| - 1] == ' '
    ensures ReleaseWholeWords(buffer) == (released, kept)
  {
    var r := ReleaseWholeWords(buffer);
    assert released == buffer[..|released|];
    assert r.0 == buffer[..|r.0|];
  }

  /** Length of the run of characters of one kind (white space or not)
      that starts `s`. */
  function RunLength(s: string): (n: nat)
    requires s != []
    ensures 1 <= n <= |s|
    ensures forall i :: 0 <= i < n ==> IsSpace(s[i]) == IsSpace(s[0])
    ensures n == |s| || IsSpace(s[n]) != IsSpace(s[0])
  {
    if |s| == 1 || IsSpace(s[1]) != IsSpace(s[0]) then 1 else 1 + RunLength(s[1..])
  }

  /** A non-empty run of white space only, or of non-white-space only. */
  predicate Uniform(w: string) {
    w != [] && forall i :: 0 <= i < |w| ==> IsSpace(w[i]) == IsSpace(w[0])
  }

  /** `text.split(/(\s+)/).filter(Boolean)`: the maximal runs of white
      space and of other characters, in order. */
  function Words(s: string): (ws: seq<string>)
    ensures forall k :: 0 <= k < |ws| ==> ws[k] != [] && Uniform(ws[k])
    ensures forall j, k :: 0 <= j && j + 1 == k < |ws| ==> IsSpace(ws[j][0]) != IsSpace(ws[k][0])
    ensures s != [] ==> ws != [] && ws[0][0] == s[0]
    ensures s == [] ==> ws == []
    decreases |s|
  {
    if s == [] then []
    else
      var n := RunLength(s);
      [s[..n]] + Words(s[n..])
  }

  /** The words put back together give the released text exactly. */
  lemma {:induction false} WordsRebuildText(s: string)
    ensures Flatten(Words(s)) == s
    decreases |s|
  {
    if s != [] {
      var n := RunLength(s);
      var ws := Words(s[n..]);
      WordsRebuildText(s[n..]);
      WordsCons(s);
      FlattenCons(s[..n], ws);
      assert s == s[..n] + s[n..];
    }
  }

  lemma WordsCons(s: string)
    requires s != []
    ensures Words(s) == [s[..RunLength(s)]] + Words(s[RunLength(s)..])
  {
  }

  lemma FlattenCons(w: string, ws: seq<string>)
    ensures Flatten([w] + ws) == w + Flatten(ws)
  {
    assert ([w] + ws)[1..] == ws;
  }

  /** One poll of the stop flag: before a chunk is buffered, or before a
      word is appended to the visible reply. */
  datatype Poll = ChunkPoll | WordPoll(word: string)

  function WordPolls(ws: seq<string>): seq<Poll> {
    seq(|ws|, k requires 0 <= k < |ws| => WordPoll(ws[k]))
  }

  /** The polls made while `chunks` are consumed, the buffer holding
      `pending` at the start; nothing is stopped. */
  function TraceFrom(pending: string, chunks: seq<Option<string>>): (polls: seq<Poll>)
    ensures polls == [] <==> chunks == []
    ensures chunks != [] ==> polls[0] == ChunkPoll
    decreases |chunks|
  {
    if chunks == [] then []
    else
      var split := ReleaseWholeWords(pending + ChunkText(chunks[0]));
      [ChunkPoll] + WordPolls(Words(split.0)) + TraceFrom(split.1, chunks[1..])
  }

  /** The text still held back once `chunks` are consumed. */
  function HeldBack(pending: string, chunks: seq<Option<string>>): (kept: string)
    ensures EndsWith(pending + Concat(chunks), kept)
    decreases |chunks|
  {
    if chunks == [] then pending
    else
      var split := ReleaseWholeWords(pending + ChunkText(chunks[0]));
      var kept := HeldBack(split.1, chunks[1..]);
      KeptIsSuffix(pending, ChunkText(chunks[0]), Concat(chunks[1..]), split.0, split.1, kept);
      kept
  }

  lemma KeptIsSuffix(pending: string, text: string, later: string, released: string, rest: string, kept: string)
    requires released + rest == pending + text
    requires EndsWith(rest + later, kept)
    ensures EndsWith(pending + (text + later), kept)
  {
    calc {
      pending + (text + later);
      (pending + text) + later;
      (released + rest) + later;
      released + (rest + later);
    }
    var all := released + (rest + later);
    assert all[|all| - |kept|..] == (rest + later)[|rest + later| - |kept|..];
  }

  function Trace(chunks: seq<Option<string>>): (polls: seq<Poll>)
    ensures polls == [] <==> chunks == []
    ensures chunks != [] ==> polls[0] == ChunkPoll
  {
    TraceFrom("", chunks)
  }

  /** The visible reply after a run of polls: the words appended, in order. */
  function Revealed(polls: seq<Poll>): string {
    if polls == [] then ""
    else
      Revealed(polls[..|polls| - 1]) +
        match polls[|polls| - 1]
        case ChunkPoll => ""
        case WordPoll(w) => w
  }

  lemma {:induction false} RevealedAppend(a: seq<Poll>, b: seq<Poll>)
    ensures Revealed(a + b) == Revealed(a) + Revealed(b)
    decreases |b|
  {
    if b == [] {
      assert a + b == a;
    } else {
      assert (a + b)[..|a + b| - 1] == a + b[..|b| - 1];
      RevealedAppend(a, b[..|b| - 1]);
    }
  }

  lemma {:induction false} RevealedWords(ws: seq<string>)
    ensures Revealed(WordPolls(ws)) == Flatten(ws)
  {
    if ws != [] {
      assert WordPolls(ws) == [WordPoll(ws[0])] + WordPolls(ws[1..]);
      RevealedAppend([WordPoll(ws[0])], WordPolls(ws[1..]));
      assert Revealed([WordPoll(ws[0])]) == ws[0] by {
        assert [WordPoll(ws[0])][..0] == [];
      }
      RevealedWords(ws[1..]);
    }
  }

  /** What the polls of the first chunk reveal is the text released after it. */
  lemma RevealedFirstChunk(pending: string, chunks: seq<Option<string>>)
    requires chunks != []
    ensures var split := ReleaseWholeWords(pending + ChunkText(chunks[0]));
      Revealed(TraceFrom(pending, chunks)) == split.0 + Revealed(TraceFrom(split.1, chunks[1..]))
  {
    var split := ReleaseWholeWords(pending + ChunkText(chunks[0]));
    var words := WordPolls(Words(split.0));
    var rest := TraceFrom(split.1, chunks[1..]);
    assert TraceFrom(pending, chunks) == [ChunkPoll] + words + rest;
    RevealedAppend([ChunkPoll] + words, rest);
    RevealedChunkThenWords(Words(split.0));
    WordsRebuildText(split.0);
  }

  lemma RevealedChunkThenWords(ws: seq<string>)
    ensures Revealed([ChunkPoll] + WordPolls(ws)) == Flatten(ws)
  {
    RevealedAppend([ChunkPoll], WordPolls(ws));
    assert Revealed([ChunkPoll]) == "" by {
      assert [ChunkPoll][..0] == [];
    }
    RevealedWords(ws);
  }

  lemma Regroup(p: string, t: string, a: string, b: string, c: string, r: string, rr: string, h: string)
    requires a + b == p + t && r == a + rr && rr + h == b + c
    ensures r + h == p + (t + c)
  {
    calc {
      r + h;
      a + (rr + h);
      (a + b) + c;
    }
  }

  /** Round trip: what the polls reveal followed by what is still held
      back is exactly the held-back start followed by every chunk. */
  lemma {:induction false} TraceRoundTrip(pending: string, chunks: seq<Option<string>>)
    ensures Revealed(TraceFrom(pending, chunks)) + HeldBack(pending, chunks) == pending + Concat(chunks)
    decreases |chunks|
  {
    if chunks == [] {
      assert TraceFrom(pending, chunks) == [];
    } else {
      var split := ReleaseWholeWords(pending + ChunkText(chunks[0]));
      RevealedFirstChunk(pending, chunks);
      TraceRoundTrip(split.1, chunks[1..]);
      Regroup(pending, ChunkText(chunks[0]), split.0, split.1, Concat(chunks[1..]),
        Revealed(TraceFrom(pending, chunks)), Revealed(TraceFrom(split.1, chunks[1..])),
        HeldBack(split.1, chunks[1..]));
    }
  }

  /** After at least one chunk the held-back text never holds a space. */
  lemma {:induction false} HeldBackHasNoSpace(pending: string, chunks: seq<Option<string>>)
    requires chunks != [] || ' ' !in pending
    ensures ' ' !in HeldBack(pending, chunks)
    decreases |chunks|
  {
    if chunks != [] {
      HeldBackHasNoSpace(ReleaseWholeWords(pending + ChunkText(chunks[0])).1, chunks[1..]);
    }
  }

  /** Every word poll appends a non-empty word. */
  lemma {:induction false} TraceWordsNonEmpty(pending: string, chunks: seq<Option<string>>)
    ensures forall k :: 0 <= k < |TraceFrom(pending, chunks)| && TraceFrom(pending, chunks)[k].WordPoll? ==>
      TraceFrom(pending, chunks)[k].word != []
    decreases |chunks|
  {
    if chunks != [] {
      var split := ReleaseWholeWords(pending + ChunkText(chunks[0]));
      TraceWordsNonEmpty(split.1, chunks[1..]);
    }
  }

  /** Revealing never rewrites: the reply after fewer polls is a prefix of
      the reply after more. */
  lemma {:induction false} RevealedGrows(polls: seq<Poll>, j: nat, k: nat)
    requires j <= k <= |polls|
    ensures Revealed(polls[..j]) <= Revealed(polls[..k])
  {
    assert polls[..k] == polls[..j] + polls[j..k];
    RevealedAppend(polls[..j], polls[j..k]);
  }

  /** Each word poll of a reply makes the visible text a strict
      prefix-extension of what it was; a chunk poll leaves it as it is. */
  lemma RevealStep(chunks: seq<Option<string>>, k: nat)
    requires k < |Trace(chunks)|
    ensures var t := Trace(chunks);
      if t[k].WordPoll? then Revealed(t[..k]) < Revealed(t[..k + 1])
      else Revealed(t[..k]) == Revealed(t[..k + 1])
  {
    var t := Trace(chunks);
    TraceWordsNonEmpty("", chunks);
    assert t[..k + 1][..k] == t[..k];
  }

  /** The stop flag is seen set at poll `poll` (polls are numbered from 0). */
  predicate Seen(stop: Option<nat>, poll: nat) {
    stop.Some? && stop.value <= poll
  }

  /** Some poll at or after `cut` is a chunk poll. When the flag is first
      seen at `cut`, the loop then leaves through its `break` before the
      chunk is buffered, and the stream is not read to its end. */
  predicate ChunkPollFrom(polls: seq<Poll>, cut: nat) {
    exists j :: cut <= j < |polls| && polls[j] == ChunkPoll
  }

  /** How a stream ends: the reply text built, and whether the service's
      error reached the handler. */
  datatype StreamEnd = StreamEnd(response: string, failed: bool)

  /** Reference definition of one streamed reply. `chunks` arrive in order;
      when `failsAtEnd` the stream throws when asked for the chunk after the
      last one; `stop` is the first poll that sees the stop flag set. The
      reply holds the words of the polls before that one, then the
      held-back text unless the stream failed or the flag was seen at the
      final flush. */
  function Presented(chunks: seq<Option<string>>, failsAtEnd: bool, stop: Option<nat>): (r: StreamEnd)
    ensures r.failed ==> failsAtEnd
    ensures stop == Some(0) ==> r.response == ""
  {
    var trace := Trace(chunks);
    var cut := if Seen(stop, |trace|) then stop.value else |trace|;
    var failed := failsAtEnd && !ChunkPollFrom(trace, cut);
    var flushed := if failed || Seen(stop, |trace|) then "" else HeldBack("", chunks);
    StreamEnd(Revealed(trace[..cut]) + flushed, failed)
  }

  /** Once the flag is seen at poll `p`, nothing after that poll is
      appended: neither a later word nor the held-back text. */
  lemma PresentedStopped(chunks: seq<Option<string>>, failsAtEnd: bool, p: nat)
    requires p <= |Trace(chunks)|
    ensures Presented(chunks, failsAtEnd, Some(p)).response == Revealed(Trace(chunks)[..p])
  {
    assert Revealed(Trace(chunks)[..p]) + "" == Revealed(Trace(chunks)[..p]);
  }

  /** Without a stop or a failure the reply is every chunk's text joined. */
  lemma PresentedWithoutStop(chunks: seq<Option<string>>)
    ensures Presented(chunks, false, None) == StreamEnd(Concat(chunks), false)
  {
    var trace := Trace(chunks);
    assert trace[..|trace|] == trace;
    TraceRoundTrip("", chunks);
  }

  /** Whatever happens, the reply is a prefix of every chunk's text joined. */
  lemma PresentedIsPrefix(chunks: seq<Option<string>>, failsAtEnd: bool, stop: Option<nat>)
    ensures Presented(chunks, failsAtEnd, stop).response <= Concat(chunks)
  {
    var trace := Trace(chunks);
    TraceRoundTrip("", chunks);
    assert trace[..|trace|] == trace;
    assert "" + Concat(chunks) == Concat(chunks);
    assert Revealed(trace) <= Concat(chunks);
    if Seen(stop, |trace|) {
      RevealedGrows(trace, stop.value, |trace|);
      assert Presented(chunks, failsAtEnd, stop).response == Revealed(trace[..stop.value]);
    }
  }

  /** Stopping earlier reveals less: the reply of a stop at poll `p` is a
      prefix of the reply of a stop at a later poll `q`. */
  lemma EarlierStopRevealsLess(chunks: seq<Option<string>>, failsAtEnd: bool, p: nat, q: nat)
    requires p <= q
    ensures Presented(chunks, failsAtEnd, Some(p)).response <= Presented(chunks, failsAtEnd, Some(q)).response
  {
    var trace := Trace(chunks);
    var cutP := if p <= |trace| then p else |trace|;
    var cutQ := if q <= |trace| then q else |trace|;
    RevealedGrows(trace, cutP, cutQ);
    if p > |trace| {
      assert ChunkPollFrom(trace, cutP) == ChunkPollFrom(trace, cutQ);
    }
  }

  /** The reply of the end-to-end example: five chunks, no stop. */
  lemma GreetingExample(chunks: seq<Option<string>>)
    requires chunks == [Some("Boa "), Some("tarde"), Some("! "), Some("Como "), Some("vai?")]
    ensures Presented(chunks, false, None) == StreamEnd("Boa tarde! Como vai?", false)
  {
    PresentedWithoutStop(chunks);
    GreetingChunks(chunks);
  }

  lemma GreetingChunks(chunks: seq<Option<string>>)
    requires chunks == [Some("Boa "), Some("tarde"), Some("! "), Some("Como "), Some("vai?")]
    ensures Concat(chunks) == "Boa tarde! Como vai?"
  {
    ConcatOfFive("Boa ", "tarde", "! ", "Como ", "vai?");
  }

  lemma ConcatOfFive(a: string, b: string, c: string, d: string, e: string)
    ensures Concat([Some(a), Some(b), Some(c), Some(d), Some(e)]) == a + b + c + d + e
  {
    ConcatCons(Some(e), []);
    ConcatCons(Some(d), [Some(e)]);
    ConcatCons(Some(c), [Some(d), Some(e)]);
    ConcatCons(Some(b), [Some(c), Some(d), Some(e)]);
    ConcatCons(Some(a), [Some(b), Some(c), Some(d), Some(e)]);
  }

  lemma ConcatCons(chunk: Option<string>, rest: seq<Option<string>>)
    ensures Concat([chunk] + rest) == ChunkText(chunk) + Concat(rest)
  {
    assert ([chunk] + rest)[1..] == rest;
  }
}
