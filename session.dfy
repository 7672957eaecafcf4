/** The chat session of App.tsx: the send handler, the re-engagement
    handler and the stop button, over one transcript. A reply is streamed
    by one loop shared by both handlers; the send handler then parses the
    reply for commands, the re-engagement handler does not. */
module ChatSession {
  import opened Wrappers
  import opened Text
  import opened Transcript
  import opened Presenter
  import opened Directives

  /** What the chat service does with one request: either opening the
      stream fails, or it yields `chunks` in order (`None` for a chunk
      without text) and, when `failsAtEnd`, throws when asked for the chunk
      after the last one. */
  datatype Transport = OpenFails | Streams(chunks: seq<Option<string>>, failsAtEnd: bool)

  /** The text shown when a sent message gets no reply. */
  const ErrorText := "O assistente n\U{e3}o est\U{e1} dispon\U{ed}vel no momento. Tente novamente mais tarde."

  /** The guard of the send handler. */
  predicate CanSend(input: string, loading: bool, ready: bool): (ok: bool)
    ensures ok <==> (exists i :: 0 <= i < |input| && !IsSpace(input[i])) && !loading && ready
  {
    !IsBlank(input) && !loading && ready
  }

  /** The first poll that sees the stop flag: at once when the flag is
      still set as the stream starts, else when the user presses stop
      (`stop`). */
  function FirstSeen(flagAtStart: bool, stop: Option<nat>): (r: Option<nat>)
    ensures flagAtStart ==> r == Some(0)
    ensures !flagAtStart ==> r == stop
  {
    if flagAtStart then Some(0) else stop
  }

  /** How a turn ends. */
  datatype TurnEnd = TurnEnd(messages: seq<Message>, failed: bool)

  /** Reference definition of one reply over `base`: the placeholder bubble
      takes the presented text; a failure removes the placeholder when it is
      still empty; otherwise, when `parse`, the commands are applied. */
  function Reply(base: seq<Message>, transport: Transport, stop: Option<nat>, parse: bool): (r: TurnEnd)
    ensures r.failed <==> transport.OpenFails? || Presented(transport.chunks, transport.failsAtEnd, stop).failed
    ensures transport.OpenFails? ==> r.messages == DropEmptyPlaceholder(base)
    ensures transport.Streams? ==> base <= r.messages && |r.messages| <= |base| + 1
    ensures transport.Streams? && !r.failed ==>
      |r.messages| == |base| + 1 && r.messages[|base|].sender == Assistant
  {
    match transport
    case OpenFails => TurnEnd(DropEmptyPlaceholder(base), true)
    case Streams(chunks, failsAtEnd) =>
      var end := Presented(chunks, failsAtEnd, stop);
      var shown := AssistantMessage(end.response);
      if end.failed then TurnEnd(DropEmptyPlaceholder(base + [shown]), true)
      else if parse then TurnEnd(base + [FinalizeReply(shown)], false)
      else TurnEnd(base + [shown], false)
  }

  /** A sent message: the user bubble, then the reply with commands parsed.
      The stop flag was cleared by the send. */
  function UserTurn(prev: seq<Message>, input: string, transport: Transport, stop: Option<nat>): (r: TurnEnd)
    ensures r.failed <==> transport.OpenFails? || Presented(transport.chunks, transport.failsAtEnd, stop).failed
    ensures !r.failed ==> |r.messages| == |prev| + 2 && r.messages[|prev|] == UserMessage(input)
  {
    Reply(prev + [UserMessage(input)], transport, stop, true)
  }

  /** A re-engagement: no user bubble and no parse; the stop flag is as the
      previous turn left it. */
  function ReEngageTurn(prev: seq<Message>, transport: Transport, flag: bool, stop: Option<nat>): (r: TurnEnd)
    ensures r.failed <==> transport.OpenFails? || Presented(transport.chunks, transport.failsAtEnd, FirstSeen(flag, stop)).failed
    ensures !r.failed ==> |r.messages| == |prev| + 1 && r.messages[..|prev|] == prev
  {
    Reply(prev, transport, FirstSeen(flag, stop), false)
  }

  lemma UserTurnIsReply(prev: seq<Message>, input: string, transport: Transport, stop: Option<nat>)
    ensures UserTurn(prev, input, transport, stop) == Reply(prev + [UserMessage(input)], transport, FirstSeen(false, stop), true)
  {
  }

  /** After a send, the earlier transcript and the user bubble come first;
      at most the reply follows. */
  lemma UserTurnKeepsHistory(prev: seq<Message>, input: string, transport: Transport, stop: Option<nat>)
    ensures var r := UserTurn(prev, input, transport, stop);
      prev + [UserMessage(input)] <= r.messages && |r.messages| <= |prev| + 2
  {
    var base := prev + [UserMessage(input)];
    assert !EndsWithEmptyAssistant(base) by {
      assert base[|base| - 1] == UserMessage(input);
    }
  }

  /** Without a stop and a failure the reply is every chunk joined, with
      its commands applied. */
  lemma UnstoppedUserTurn(prev: seq<Message>, input: string, chunks: seq<Option<string>>)
    ensures UserTurn(prev, input, Streams(chunks, false), None)
         == TurnEnd(prev + [UserMessage(input), FinalizeReply(AssistantMessage(Concat(chunks)))], false)
  {
    var base := prev + [UserMessage(input)];
    PresentedWithoutStop(chunks);
    assert base + [FinalizeReply(AssistantMessage(Concat(chunks)))]
        == prev + [UserMessage(input), FinalizeReply(AssistantMessage(Concat(chunks)))];
  }

  /** A send stopped before a chunk poll still succeeds, and the partial
      reply is parsed for commands like a complete one. */
  lemma StoppedUserTurn(prev: seq<Message>, input: string, chunks: seq<Option<string>>, failsAtEnd: bool, p: nat)
    requires p <= |Trace(chunks)| && ChunkPollFrom(Trace(chunks), p)
    ensures UserTurn(prev, input, Streams(chunks, failsAtEnd), Some(p))
         == TurnEnd(prev + [UserMessage(input), FinalizeReply(AssistantMessage(Revealed(Trace(chunks)[..p])))], false)
  {
    var response := Revealed(Trace(chunks)[..p]);
    PresentedStoppedAt(chunks, failsAtEnd, Trace(chunks)[..p]);
    ReplyStreamed(prev + [UserMessage(input)], chunks, failsAtEnd, Some(p), response);
    var reply := FinalizeReply(AssistantMessage(response));
    assert prev + [UserMessage(input)] + [reply] == prev + [UserMessage(input), reply];
  }

  /** A stream that does not fail adds one bubble holding its reply,
      parsed when asked. */
  lemma ReplyStreamed(base: seq<Message>, chunks: seq<Option<string>>, failsAtEnd: bool, stop: Option<nat>, response: string)
    requires Presented(chunks, failsAtEnd, stop) == StreamEnd(response, false)
    ensures Reply(base, Streams(chunks, failsAtEnd), stop, true)
         == TurnEnd(base + [FinalizeReply(AssistantMessage(response))], false)
  {
  }

  /** A failure before any text was revealed leaves only the user bubble. */
  lemma FailureBeforeTextDropsPlaceholder(prev: seq<Message>, input: string, transport: Transport, stop: Option<nat>)
    requires transport.Streams?
    requires var end := Presented(transport.chunks, transport.failsAtEnd, stop); end.failed && end.response == ""
    ensures UserTurn(prev, input, transport, stop) == TurnEnd(prev + [UserMessage(input)], true)
  {
    var base := prev + [UserMessage(input)];
    assert (base + [AssistantMessage("")])[..|base|] == base;
  }

  /** A failure after some text keeps the partial reply as streamed, with
      no command parsed. */
  lemma FailureAfterTextKeepsPartialReply(prev: seq<Message>, input: string, transport: Transport, stop: Option<nat>)
    requires transport.Streams?
    requires var end := Presented(transport.chunks, transport.failsAtEnd, stop); end.failed && end.response != ""
    ensures var end := Presented(transport.chunks, transport.failsAtEnd, stop);
      UserTurn(prev, input, transport, stop)
        == TurnEnd(prev + [UserMessage(input), AssistantMessage(end.response)], true)
  {
  }

  /** The re-engagement reply keeps its streamed text: a `||` in it is
      shown as is, and no video or button is attached. */
  lemma ReEngageNeverParses(prev: seq<Message>, transport: Transport, flag: bool, stop: Option<nat>)
    requires transport.Streams?
    ensures var r := ReEngageTurn(prev, transport, flag, stop);
      !r.failed ==>
        r.messages == prev + [AssistantMessage(Presented(transport.chunks, transport.failsAtEnd, FirstSeen(flag, stop)).response)]
  {
  }

  /** The re-engagement reply is a prefix of what the service sent; with
      the flag left set it is empty. */
  lemma ReEngageReplyIsPrefix(prev: seq<Message>, chunks: seq<Option<string>>, failsAtEnd: bool, flag: bool, stop: Option<nat>)
    ensures var r := ReEngageTurn(prev, Streams(chunks, failsAtEnd), flag, stop);
      !r.failed ==> r.messages[|prev|].text <= Concat(chunks)
    ensures var r := ReEngageTurn(prev, Streams(chunks, failsAtEnd), flag, stop);
      !r.failed && flag ==> r.messages[|prev|].text == ""
  {
    PresentedIsPrefix(chunks, failsAtEnd, FirstSeen(flag, stop));
    if flag {
      var trace := Trace(chunks);
      assert trace[..0] == [];
    }
  }

  /** When opening the re-engagement stream fails, an empty assistant
      bubble left by an earlier stopped reply is removed too. */
  lemma ReEngageOpenFailureDropsEarlierPlaceholder(prev: seq<Message>, flag: bool, stop: Option<nat>)
    requires prev != [] && prev[|prev| - 1] == AssistantMessage("")
    ensures ReEngageTurn(prev, OpenFails, flag, stop) == TurnEnd(prev[..|prev| - 1], true)
  {
  }

  class Session {
    var messages: seq<Message>
    var isLoading: bool
    var chatError: Option<string>
    /** `stopGenerationRef.current` */
    var stopRequested: bool
    /** A chat session exists. */
    var chatReady: bool

    /** The transcript starts with the assistant's greeting, whose text
        depends on the day of the week. */
    constructor (ready: bool, greeting: string)
      ensures messages == [AssistantMessage(greeting)]
      ensures !isLoading && chatError == None && !stopRequested && chatReady == ready
    {
      messages := [AssistantMessage(greeting)];
      isLoading := false;
      chatError := None;
      stopRequested := false;
      chatReady := ready;
    }

    /** The stop button. */
    method StopGeneration()
      modifies this
      ensures stopRequested
      ensures messages == old(messages) && isLoading == old(isLoading)
      ensures chatError == old(chatError) && chatReady == old(chatReady)
    {
      stopRequested := true;
    }

    /** The loop shared by both handlers. The last bubble is the empty
        placeholder; each word revealed rewrites its text. The flag is
        polled before each chunk, before each word and before the flush;
        the user's press is the first poll `stop` that sees it. Returns the
        reply built and whether the stream threw. */
    method StreamReply(chunks: seq<Option<string>>, failsAtEnd: bool, stop: Option<nat>)
      returns (response: string, failed: bool)
      requires messages != [] && messages[|messages| - 1] == AssistantMessage("")
      modifies this
      ensures StreamEnd(response, failed) == Presented(chunks, failsAtEnd, FirstSeen(old(stopRequested), stop))
      ensures messages == old(messages)[..|old(messages)| - 1] + [AssistantMessage(response)]
      ensures isLoading == old(isLoading) && chatError == old(chatError)
      ensures stopRequested == old(stopRequested) && chatReady == old(chatReady)
    {
      ghost var seen := FirstSeen(stopRequested, stop);
      var base := messages[..|messages| - 1];
      assert messages == base + [AssistantMessage("")];
      var unprocessed, polls, stopped, i;
      ghost var done, skipped;
      unprocessed, polls, response, stopped, i, done, skipped := ConsumeChunks(base, chunks, stop, seen);
      if stopped {
        failed := false;
        StoppedConsumed(chunks, failsAtEnd, seen, done, skipped, unprocessed, i);
      } else {
        failed := failsAtEnd;
        FinishedConsumed(chunks, failsAtEnd, seen, done, skipped, unprocessed);
        if !failed && unprocessed != "" && !(stopRequested || Seen(stop, polls)) {
          response := response + unprocessed;
          messages := base + [AssistantMessage(response)];
        }
      }
    }

    /** The outer loop, over the chunks in order. It ends through its
        `break` (`stopped`), here the loop guard, or when the chunks run
        out. */
    method ConsumeChunks(base: seq<Message>, chunks: seq<Option<string>>, stop: Option<nat>, ghost seen: Option<nat>)
      returns (unprocessed: string, polls: nat, response: string, stopped: bool, i: nat,
               ghost done: seq<Poll>, ghost skipped: seq<string>)
      requires seen == FirstSeen(stopRequested, stop)
      requires messages == base + [AssistantMessage("")]
      modifies this
      ensures (stopped ==> i < |chunks|) && (!stopped ==> i == |chunks|)
      ensures ConsumedUpTo(chunks, i, unprocessed, done, skipped)
      ensures |done| == polls && response == Revealed(done)
      ensures messages == base + [AssistantMessage(response)]
      ensures !(seen.Some? && seen.value < polls)
      ensures skipped != [] ==> Seen(seen, polls)
      ensures stopped ==> Seen(seen, polls)
      ensures isLoading == old(isLoading) && chatError == old(chatError)
      ensures stopRequested == old(stopRequested) && chatReady == old(chatReady)
    {
      response, unprocessed, i, polls, stopped := "", "", 0, 0, false;
      done, skipped := [], [];
      NothingConsumed(chunks);
      while i < |chunks| && !(stopRequested || Seen(stop, polls))
        invariant ConsumedUpTo(chunks, i, unprocessed, done, skipped)
        invariant |done| == polls && response == Revealed(done)
        invariant messages == base + [AssistantMessage(response)]
        invariant !(seen.Some? && seen.value < polls)
        invariant skipped != [] ==> Seen(seen, polls)
        invariant stopRequested == old(stopRequested) && isLoading == old(isLoading)
        invariant chatError == old(chatError) && chatReady == old(chatReady)
      {
        unprocessed, polls, response, done, skipped :=
          ProcessChunk(base, chunks, i, unprocessed, stop, polls, response, done, seen);
        i := i + 1;
      }
      stopped := i < |chunks|;
    }

    /** The body of the outer loop once the chunk poll has passed: the
        chunk is buffered, the buffer split at its last space, and the
        words released are revealed; `skipped` are those the flag held
        back. */
    method ProcessChunk(base: seq<Message>, chunks: seq<Option<string>>, i: nat, pending: string, stop: Option<nat>,
                        polls0: nat, response0: string, ghost done0: seq<Poll>, ghost seen: Option<nat>)
      returns (unprocessed: string, polls: nat, response: string, ghost done: seq<Poll>, ghost skipped: seq<string>)
      requires i < |chunks| && ConsumedUpTo(chunks, i, pending, done0, [])
      requires seen == FirstSeen(stopRequested, stop)
      requires |done0| == polls0 && response0 == Revealed(done0)
      requires messages == base + [AssistantMessage(response0)]
      requires !Seen(seen, polls0)
      modifies this
      ensures ConsumedUpTo(chunks, i + 1, unprocessed, done, skipped)
      ensures |done| == polls && response == Revealed(done)
      ensures messages == base + [AssistantMessage(response)]
      ensures !(seen.Some? && seen.value < polls)
      ensures skipped != [] ==> Seen(seen, polls)
      ensures isLoading == old(isLoading) && chatError == old(chatError)
      ensures stopRequested == old(stopRequested) && chatReady == old(chatReady)
    {
      var split := ReleaseWholeWords(pending + ChunkText(chunks[i]));
      RevealedChunkPoll(done0);
      unprocessed := split.1;
      var words := Words(split.0);
      var k;
      polls, response, done, k := RevealWords(base, words, stop, polls0 + 1, response0, done0 + [ChunkPoll], seen);
      skipped := words[k..];
      ConsumeOneChunk(chunks, i, pending, done0, words, k, done);
    }

    /** The inner loop: one chunk's released words, each revealed after a
        poll of the flag; returns at the first poll that sees it. */
    method RevealWords(base: seq<Message>, words: seq<string>, stop: Option<nat>, polls0: nat,
                       response0: string, ghost done0: seq<Poll>, ghost seen: Option<nat>)
      returns (polls: nat, response: string, ghost done: seq<Poll>, k: nat)
      requires seen == FirstSeen(stopRequested, stop)
      requires |done0| == polls0 && response0 == Revealed(done0)
      requires messages == base + [AssistantMessage(response0)]
      requires !(seen.Some? && seen.value < polls0)
      modifies this
      ensures k <= |words| && done == done0 + WordPolls(words[..k])
      ensures |done| == polls && response == Revealed(done)
      ensures messages == base + [AssistantMessage(response)]
      ensures !(seen.Some? && seen.value < polls)
      ensures k < |words| ==> Seen(seen, polls)
      ensures isLoading == old(isLoading) && chatError == old(chatError)
      ensures stopRequested == old(stopRequested) && chatReady == old(chatReady)
    {
      polls, response, done, k := polls0, response0, done0, 0;
      while k < |words|
        invariant k <= |words| && done == done0 + WordPolls(words[..k])
        invariant |done| == polls && response == Revealed(done)
        invariant messages == base + [AssistantMessage(response)]
        invariant !(seen.Some? && seen.value < polls)
        invariant stopRequested == old(stopRequested) && isLoading == old(isLoading)
        invariant chatError == old(chatError) && chatReady == old(chatReady)
      {
        if stopRequested || Seen(stop, polls) {
          return;
        }
        RevealedWordPoll(done, words[k]);
        WordPollsSnoc(words, k);
        done := done + [WordPoll(words[k])];
        polls := polls + 1;
        response := response + words[k];
        messages := base + [AssistantMessage(response)];
        k := k + 1;
      }
    }

    /** The part the two handlers share: a placeholder bubble, the stream
        into it, and on success (when `parse`) the commands, on failure the
        removal of a placeholder still empty. */
    method Respond(transport: Transport, stop: Option<nat>, parse: bool) returns (failed: bool)
      modifies this
      ensures TurnEnd(messages, failed) == Reply(old(messages), transport, FirstSeen(old(stopRequested), stop), parse)
      ensures isLoading == old(isLoading) && chatError == old(chatError)
      ensures stopRequested == old(stopRequested) && chatReady == old(chatReady)
    {
      failed := true;
      if transport.Streams? {
        messages := messages + [AssistantMessage("")];
        var response;
        response, failed := StreamReply(transport.chunks, transport.failsAtEnd, stop);
        if !failed && parse {
          messages := messages[..|messages| - 1] + [FinalizeReply(messages[|messages| - 1])];
        }
      }
      if failed {
        messages := DropEmptyPlaceholder(messages);
      }
    }

    /** `handleSendMessage`. */
    method SendMessage(input: string, transport: Transport, stop: Option<nat>)
      modifies this
      ensures !CanSend(input, old(isLoading), old(chatReady)) ==>
        messages == old(messages) && isLoading == old(isLoading) && chatError == old(chatError)
        && stopRequested == old(stopRequested) && chatReady == old(chatReady)
      ensures CanSend(input, old(isLoading), old(chatReady)) ==>
        TurnEnd(messages, chatError.Some?) == UserTurn(old(messages), input, transport, stop)
      ensures CanSend(input, old(isLoading), old(chatReady)) ==>
        (chatError == None || chatError == Some(ErrorText)) && !isLoading && !stopRequested && chatReady == old(chatReady)
    {
      if !CanSend(input, isLoading, chatReady) {
        return;
      }
      UserTurnIsReply(messages, input, transport, stop);
      stopRequested := false;
      messages := messages + [UserMessage(input)];
      isLoading := true;
      chatError := None;
      var failed := Respond(transport, stop, true);
      if failed {
        chatError := Some(ErrorText);
      }
      isLoading := false;
      stopRequested := false;
    }

    /** `handleReEngage`: the stop flag is not cleared at the start and a
        failure is not reported. */
    method ReEngage(transport: Transport, stop: Option<nat>)
      modifies this
      ensures old(isLoading) || !old(chatReady) ==>
        messages == old(messages) && isLoading == old(isLoading) && chatError == old(chatError)
        && stopRequested == old(stopRequested) && chatReady == old(chatReady)
      ensures !old(isLoading) && old(chatReady) ==>
        messages == ReEngageTurn(old(messages), transport, old(stopRequested), stop).messages
        && chatError == None && !isLoading && !stopRequested && chatReady
    {
      if isLoading || !chatReady {
        return;
      }
      ghost var turn := ReEngageTurn(messages, transport, stopRequested, stop);
      isLoading := true;
      chatError := None;
      var failed := Respond(transport, stop, false);
      assert TurnEnd(messages, failed) == turn;
      isLoading := false;
      stopRequested := false;
    }
  }

  lemma ChunkStep(pending: string, chunks: seq<Option<string>>, i: nat)
    requires i < |chunks|
    ensures var split := ReleaseWholeWords(pending + ChunkText(chunks[i]));
      TraceFrom(pending, chunks[i..])
        == [ChunkPoll] + WordPolls(Words(split.0)) + TraceFrom(split.1, chunks[i + 1..])
      && HeldBack(pending, chunks[i..]) == HeldBack(split.1, chunks[i + 1..])
  {
    assert chunks[i..][0] == chunks[i] && chunks[i..][1..] == chunks[i + 1..];
  }

  lemma AfterChunk(before: seq<Poll>, ws: seq<string>, rest: seq<Poll>, done: seq<Poll>, skipped: seq<string>)
    requires before + [ChunkPoll] + WordPolls(ws) == done + WordPolls(skipped)
    ensures before + ([ChunkPoll] + WordPolls(ws) + rest) == done + WordPolls(skipped) + rest
  {
  }

  /** The chunks before `i` are consumed, the buffer holding `pending`:
      the polls made (`done`, then the words the flag held back) and the
      polls to come make up the whole trace, and the text still to be held
      back is the stream's. */
  ghost predicate ConsumedUpTo(chunks: seq<Option<string>>, i: nat, pending: string, done: seq<Poll>, skipped: seq<string>) {
    && i <= |chunks|
    && Trace(chunks) == done + WordPolls(skipped) + TraceFrom(pending, chunks[i..])
    && HeldBack(pending, chunks[i..]) == HeldBack("", chunks)
  }

  /** One chunk consumed: its chunk poll, the first `k` of its words
      revealed and the rest held back by the flag. */
  lemma ConsumeOneChunk(chunks: seq<Option<string>>, i: nat, pending: string, done0: seq<Poll>,
                        words: seq<string>, k: nat, done: seq<Poll>)
    requires i < |chunks| && ConsumedUpTo(chunks, i, pending, done0, [])
    requires words == Words(ReleaseWholeWords(pending + ChunkText(chunks[i])).0)
    requires k <= |words| && done == done0 + [ChunkPoll] + WordPolls(words[..k])
    ensures ConsumedUpTo(chunks, i + 1, ReleaseWholeWords(pending + ChunkText(chunks[i])).1, done, words[k..])
  {
    var unprocessed := ReleaseWholeWords(pending + ChunkText(chunks[i])).1;
    var rest := TraceFrom(unprocessed, chunks[i + 1..]);
    ChunkStep(pending, chunks, i);
    AfterWordsSplit(done0 + [ChunkPoll], words, k, done);
    TraceRegroup(Trace(chunks), done0, TraceFrom(pending, chunks[i..]), words, rest, done, words[k..]);
  }

  lemma TraceRegroup(trace: seq<Poll>, done0: seq<Poll>, current: seq<Poll>, ws: seq<string>, rest: seq<Poll>,
                     done: seq<Poll>, skipped: seq<string>)
    requires trace == done0 + WordPolls([]) + current
    requires current == [ChunkPoll] + WordPolls(ws) + rest
    requires done0 + [ChunkPoll] + WordPolls(ws) == done + WordPolls(skipped)
    ensures trace == done + WordPolls(skipped) + rest
  {
    assert WordPolls([]) == [];
    AfterChunk(done0, ws, rest, done, skipped);
  }

  lemma NothingConsumed(chunks: seq<Option<string>>)
    ensures ConsumedUpTo(chunks, 0, "", [], [])
  {
    assert chunks[0..] == chunks;
    assert WordPolls([]) == [];
  }

  lemma AfterWordsSplit(start: seq<Poll>, ws: seq<string>, k: nat, done: seq<Poll>)
    requires k <= |ws| && done == start + WordPolls(ws[..k])
    ensures start + WordPolls(ws) == done + WordPolls(ws[k..])
  {
    assert WordPolls(ws) == WordPolls(ws[..k]) + WordPolls(ws[k..]);
  }

  lemma WordPollsSnoc(ws: seq<string>, k: nat)
    requires k < |ws|
    ensures WordPolls(ws[..k + 1]) == WordPolls(ws[..k]) + [WordPoll(ws[k])]
  {
  }

  lemma RevealedChunkPoll(polls: seq<Poll>)
    ensures Revealed(polls + [ChunkPoll]) == Revealed(polls)
  {
    assert (polls + [ChunkPoll])[..|polls|] == polls;
  }

  lemma RevealedWordPoll(polls: seq<Poll>, w: string)
    ensures Revealed(polls + [WordPoll(w)]) == Revealed(polls) + w
  {
    assert (polls + [WordPoll(w)])[..|polls|] == polls;
  }

  /** The loop left through the chunk poll at `|done|`. */
  lemma StoppedAtChunkPoll(chunks: seq<Option<string>>, failsAtEnd: bool, seen: Option<nat>,
                           done: seq<Poll>, skipped: seq<string>, pending: string, i: nat)
    requires i < |chunks|
    requires Trace(chunks) == done + WordPolls(skipped) + TraceFrom(pending, chunks[i..])
    requires seen == Some(|done|)
    ensures Presented(chunks, failsAtEnd, seen) == StreamEnd(Revealed(done), false)
  {
    TraceFromStartsWithChunkPoll(pending, chunks[i..]);
    ChunkPollAhead(Trace(chunks), done, WordPolls(skipped), TraceFrom(pending, chunks[i..]));
    PresentedStoppedAt(chunks, failsAtEnd, done);
  }

  lemma TraceFromStartsWithChunkPoll(pending: string, chunks: seq<Option<string>>)
    requires chunks != []
    ensures TraceFrom(pending, chunks) != [] && TraceFrom(pending, chunks)[0] == ChunkPoll
  {
  }

  lemma ChunkPollAhead(trace: seq<Poll>, done: seq<Poll>, middle: seq<Poll>, rest: seq<Poll>)
    requires trace == done + middle + rest && rest != [] && rest[0] == ChunkPoll
    ensures |done| <= |trace| && trace[..|done|] == done && ChunkPollFrom(trace, |done|)
  {
    assert trace[|done| + |middle|] == ChunkPoll;
  }

  lemma PresentedStoppedAt(chunks: seq<Option<string>>, failsAtEnd: bool, done: seq<Poll>)
    requires |done| <= |Trace(chunks)| && Trace(chunks)[..|done|] == done && ChunkPollFrom(Trace(chunks), |done|)
    ensures Presented(chunks, failsAtEnd, Some(|done|)) == StreamEnd(Revealed(done), false)
  {
    var trace := Trace(chunks);
    assert Seen(Some(|done|), |trace|);
    assert Revealed(trace[..|done|]) + "" == Revealed(done);
  }

  /** The loop ran out of chunks; `skipped` are the words the last chunk
      did not reveal after the flag was seen. */
  lemma FinishedStream(chunks: seq<Option<string>>, failsAtEnd: bool, seen: Option<nat>,
                       done: seq<Poll>, skipped: seq<string>)
    requires Trace(chunks) == done + WordPolls(skipped)
    requires skipped != [] ==> seen == Some(|done|)
    requires !(seen.Some? && seen.value < |done|)
    ensures Presented(chunks, failsAtEnd, seen)
         == StreamEnd(Revealed(done) + (if failsAtEnd || Seen(seen, |done|) then "" else HeldBack("", chunks)), failsAtEnd)
  {
    var trace := Trace(chunks);
    assert trace[..|done|] == done;
    assert !ChunkPollFrom(trace, |done|) by {
      forall j | |done| <= j < |trace|
        ensures trace[j] != ChunkPoll
      {
        assert trace[j] == WordPolls(skipped)[j - |done|];
      }
    }
    assert Revealed(done) + "" == Revealed(done);
  }

  lemma StoppedConsumed(chunks: seq<Option<string>>, failsAtEnd: bool, seen: Option<nat>,
                        done: seq<Poll>, skipped: seq<string>, pending: string, i: nat)
    requires i < |chunks| && ConsumedUpTo(chunks, i, pending, done, skipped)
    requires Seen(seen, |done|) && !(seen.Some? && seen.value < |done|)
    ensures Presented(chunks, failsAtEnd, seen) == StreamEnd(Revealed(done), false)
  {
    StoppedAtChunkPoll(chunks, failsAtEnd, seen, done, skipped, pending, i);
  }

  lemma FinishedConsumed(chunks: seq<Option<string>>, failsAtEnd: bool, seen: Option<nat>,
                         done: seq<Poll>, skipped: seq<string>, pending: string)
    requires ConsumedUpTo(chunks, |chunks|, pending, done, skipped)
    requires skipped != [] ==> Seen(seen, |done|)
    requires !(seen.Some? && seen.value < |done|)
    ensures Presented(chunks, failsAtEnd, seen)
         == StreamEnd(Revealed(done) + (if failsAtEnd || Seen(seen, |done|) then "" else pending), failsAtEnd)
  {
    assert chunks[|chunks|..] == [];
    FinishedStream(chunks, failsAtEnd, seen, done, skipped);
  }
}
