# Chat core and PDF cache of the Amarasté site, in Dafny

This project models the logic of the single-page site's chat assistant and
its PDF cache, and proves properties of that model. It covers:

- **The streamed-reply presenter** of `App.tsx`, shared by the send and the
  re-engagement handlers. Chunks arrive in order into a buffer. The text up
  to the buffer's last space is released and split into runs of white space
  and non-white space. These runs are revealed one at a time in the last
  bubble. The partial word after the last space is held back until the stream
  ends. The stop flag is polled before each chunk, before each word and
  before the final flush (`presenter.dfy`, `session.dfy`).
- **The `||` command parse** applied to a sent message's reply.
  `YOUTUBE::<id>` attaches a video and `SIGNUP` asks for the sign-up button
  (`directives.dfy`).
- **The handlers' error clean-up.** An empty assistant bubble left at the
  end of the transcript is removed (`transcript.dfy`). The send guard, the
  error text and the state changes of `handleSendMessage`, `handleReEngage`
  and `handleStopGeneration` are modelled as the class `Session`
  (`session.dfy`).
- **The IndexedDB PDF cache** (`savePdfToDb`, `loadPdfFromDb`,
  `removePdfFromDb`). It is modelled as a map from page key to the stored
  record. The two loaders read the cache and, on a miss, fetch the bundled
  PDF, store it and return it (`pdf_cache.dfy`).
- **The chat modal** (`chat_modal.dfy`):
  - `renderFormattedText`: plain text without asterisks while streaming,
    `*bold*` spans once final;
  - the bubble shown for each message;
  - the re-engagement timer and flag;
  - the modal's own send guard.

Each operation that changes state is a method of a class with the
component's state as fields. The methods that stream a reply, run a handler
or load a PDF are proved against a reference function:
- `Presenter.Presented` for one streamed reply;
- `ChatSession.Reply` for one handler run;
- `PdfCache.Fallback` for a loader.

The cache's save and remove are proved against `PdfCache.Put` and
`PdfCache.Delete`. The stop button and the chat modal's timer, keystroke
and send methods state their new fields directly in their contracts.

Lemmas then state what those functions guarantee. For a reply:
- it is a prefix of everything the service sent;
- without a stop or a failure it is all of it;
- stopping earlier never reveals more.

For the command parse:
- the sign-up button is requested exactly when some part is `SIGNUP`;
- the last `YOUTUBE::` part decides the video.

For the cache:
- a save followed by a load reads the blob back;
- a hit never fetches;
- after a successful load, the next load is a hit.

The user's press of the stop button is a parameter `stop`. It gives the
index of the first poll that sees the flag. Polls are counted in the order
the loop makes them. The service's reply is also a parameter (`Transport`):
- either opening the stream fails;
- or it yields given chunks and, possibly, throws after the last one.

## Model

| member | source | states |
|---|---|---|
| Text.Trim | App.tsx:392 | the result is the input without its leading and trailing white space; it is empty exactly when the input is all white space |
| Text.Split | App.tsx:446 | the parts joined with the separator give back the input; no part contains the separator; there is more than one part exactly when the input contains it; the first part ends at the first occurrence; every separator between two parts is the leftmost one after the previous part: no occurrence starts inside a part that a separator follows, even one overlapping that separator |
| Text.Substring | components/ChatModal.tsx:51 | each bound is clamped into the string, and the result is the slice between the smaller and the larger clamped bound; in particular bounds in range give the slice between them whichever comes first |
| Text.SubstringIgnoresOrderAndRange | components/ChatModal.tsx:51 | swapping the two bounds, or replacing a bound outside the string by the nearer end, changes nothing |
| Transcript.DropEmptyPlaceholder | App.tsx:476-482 | the result is a prefix of the transcript, at most one bubble shorter, and differs from it exactly when the last bubble is an assistant bubble with empty text |
| Presenter.ChunkText | App.tsx:410 | a chunk without text contributes the empty string, a chunk with text its text |
| Presenter.LastIndexOf | App.tsx:412 | -1 or an index holding the character, with no occurrence after it |
| Presenter.ReleaseWholeWords | App.tsx:412-416 | released and kept parts rebuild the buffer; the kept part has no space; the released part is empty or ends with a space |
| Presenter.ReleaseWholeWordsIsUnique | App.tsx:412-416 | that split is the only one with those three properties |
| Presenter.Words | App.tsx:418 | every token is a non-empty run of white space only or of non-white space only, adjacent tokens are of different kinds, and the first token starts with the text's first character |
| Presenter.WordsRebuildText | App.tsx:418 | the tokens concatenated give back the released text |
| Presenter.TraceFrom | App.tsx:408-429 | the polls of consuming the chunks from a given buffer: none exactly when there is no chunk, and a chunk poll first otherwise; TraceRoundTrip states what they reveal |
| Presenter.Trace | App.tsx:407-429 | the same from an empty buffer, as at the start of a reply |
| Presenter.HeldBack | App.tsx:410-416 | the text left in the buffer once the chunks are consumed is a suffix of the buffer followed by all the chunks' text |
| Presenter.TraceRoundTrip | App.tsx:407-430 | the words revealed over a whole stream followed by the held-back text are exactly the chunks' text joined |
| Presenter.HeldBackHasNoSpace | App.tsx:412-416 | the text held back at the end of a non-empty stream contains no space |
| Presenter.RevealStep | App.tsx:419-427 | every word poll strictly extends the visible text, every chunk poll leaves it unchanged |
| Presenter.RevealedGrows | App.tsx:419-427 | the visible text after fewer polls is a prefix of the visible text after more |
| Presenter.Presented | App.tsx:407-439 | the reference reply for a stop at a given poll: only a stream that throws fails, and a flag seen at the first poll reveals nothing; the lemmas below give the rest |
| Presenter.PresentedStopped | App.tsx:409-432 | once the flag is seen at a poll, the reply is what the polls before it revealed: no later word is appended and the held-back text is not flushed |
| Presenter.PresentedWithoutStop | App.tsx:407-439 | with no stop and no failure the reply is every chunk's text joined |
| Presenter.PresentedIsPrefix | App.tsx:407-439 | whatever the stop and the failure, the reply is a prefix of every chunk's text joined |
| Presenter.EarlierStopRevealsLess | App.tsx:407-439 | the reply of a stop at an earlier poll is a prefix of the reply of a stop at a later one |
| Presenter.GreetingExample | App.tsx:407-439 | the five chunks `Boa `, `tarde`, `! `, `Como `, `vai?` without a stop give `Boa tarde! Como vai?` |
| Directives.YoutubeIdOf | App.tsx:453 | the id is a prefix of the text after `YOUTUBE::`, contains no `::`, and is followed by `::` when shorter than that text; that `::` is the first one, since the id followed by `:` holds no `::` |
| Directives.YoutubeIdWithoutColons | App.tsx:453 | with no `:` after the prefix the id is all of the rest |
| Directives.ApplyCommand | App.tsx:451-456 | one part: the button is requested when it was already or the trimmed part is `SIGNUP`; a `YOUTUBE::` part sets the video to its id, any other part leaves the video |
| Directives.ScanCommands | App.tsx:450-457 | no part gives no video and no button; a video found is the id of some `YOUTUBE::` part |
| Directives.SignUpIffCommandPresent | App.tsx:450-457 | the button is requested exactly when some command part, trimmed, is `SIGNUP` |
| Directives.NoVideoWithoutCommand | App.tsx:450-457 | with no part starting with `YOUTUBE::` once trimmed, no video is set |
| Directives.LastVideoCommandWins | App.tsx:450-457 | the id comes from the last `YOUTUBE::` part |
| Directives.ParseReply | App.tsx:446-448 | no parse result exactly when the reply contains no `\|\|` |
| Directives.ParseReplyText | App.tsx:446-448 | the display text is what precedes the first `\|\|`, trimmed |
| Directives.ParseReplyCommands | App.tsx:446-457 | the commands are scanned from the parts after the first `\|\|` |
| Directives.ParseReplyAt | App.tsx:446-457 | the whole parse, given the position of the first `\|\|` |
| Directives.ParseReplyAfterText | App.tsx:446-457 | a text without `\|` followed by `\|\|` and a rest parses to the trimmed text and the commands of the rest |
| Directives.ParseReplyExample | App.tsx:441-470 | `Texto\|\|YOUTUBE::abc123\|\|SIGNUP` gives text `Texto`, video `abc123` and the sign-up button |
| Directives.FinalizeReply | App.tsx:460-469 | the sender is kept; without `\|\|` the bubble is unchanged; with one its text becomes the parsed display text, its video the parsed id (none when no `YOUTUBE::` part) and its sign-up field whether a `SIGNUP` part was found |
| Directives.FinalizeReplyExample | App.tsx:441-469 | the streamed bubble `Texto\|\|YOUTUBE::abc123\|\|SIGNUP` becomes the assistant bubble `Texto` with video `abc123` and the sign-up button |
| ChatSession.Reply | App.tsx:400-483 | failure exactly when opening fails or the stream throws; an opening failure only drops an empty placeholder; a streamed reply extends the transcript by at most one bubble, and by exactly one assistant bubble when it succeeds |
| ChatSession.CanSend | App.tsx:392 | a message is sent exactly when the input holds a character that is not white space, no reply is loading and a session exists |
| ChatSession.UserTurn | App.tsx:391-487 | the reference send: it fails exactly when opening fails or the stream throws; a successful send adds the user bubble and one reply bubble |
| ChatSession.ReEngageTurn | App.tsx:489-551 | the reference re-engagement: it fails exactly when opening fails or the stream throws, with the flag at its start seen at the first poll; a successful one adds one bubble after the history |
| ChatSession.UserTurnKeepsHistory | App.tsx:391-487 | after a send the earlier transcript and the user bubble come first and at most the reply follows |
| ChatSession.UnstoppedUserTurn | App.tsx:391-487 | without a stop or a failure the transcript ends with the user bubble and the parsed reply of every chunk's text |
| ChatSession.StoppedUserTurn | App.tsx:407-470 | a send stopped before a chunk poll does not fail, and its bubble is the partial reply with its `\|\|` commands parsed |
| ChatSession.FailureBeforeTextDropsPlaceholder | App.tsx:472-482 | a failure before any text leaves only the user bubble, and the turn is failed |
| ChatSession.FailureAfterTextKeepsPartialReply | App.tsx:472-482 | a failure after some text keeps the partial reply, unparsed |
| ChatSession.ReEngageNeverParses | App.tsx:489-551 | a re-engagement reply is kept as streamed, with no commands applied |
| ChatSession.ReEngageReplyIsPrefix | App.tsx:489-551 | a re-engagement reply is a prefix of what the service sent, and empty when the stop flag was left set |
| ChatSession.ReEngageOpenFailureDropsEarlierPlaceholder | App.tsx:537-546 | when opening the re-engagement stream fails, an empty assistant bubble left by an earlier reply is removed |
| ChatSession.Session.constructor | App.tsx:229-233 | the transcript holds the assistant's greeting bubble alone, not loading, no error, the stop flag clear |
| ChatSession.Session.StopGeneration | App.tsx:387-389 | sets the stop flag and nothing else |
| ChatSession.Session.StreamReply | App.tsx:404-439 | the reply and the failure equal the reference presenter for the flag's first sighting; the placeholder bubble ends holding the reply; no other field changes |
| ChatSession.Session.ConsumeChunks | App.tsx:408-430 | the chunk loop leaves early only once the flag is seen, and no poll before the first sighting is missed; the polls made are the reference trace up to the unread chunks, the bubble holds the text they reveal, and the buffer is the one the trace holds back |
| ChatSession.Session.ProcessChunk | App.tsx:410-429 | one chunk: its polls are the next ones of the reference trace, and the buffer kept is the one the trace holds back |
| ChatSession.Session.RevealWords | App.tsx:419-427 | the word loop reveals words in order until the flag is seen, and the bubble holds the text revealed |
| ChatSession.Session.Respond | App.tsx:400-483 | the transcript and the failure equal the reference reply over the transcript before it |
| ChatSession.Session.SendMessage | App.tsx:391-487 | nothing changes unless the input is not blank, no reply is loading and a session exists; otherwise the transcript is the reference user turn, the error is set exactly when it failed, and loading and the stop flag end cleared |
| ChatSession.Session.ReEngage | App.tsx:489-551 | nothing changes while loading or without a session; otherwise the transcript is the reference re-engagement turn, the stop flag as it was at the start is honoured, no error is shown, and loading and the flag end cleared |
| PdfCache.AssetFor | App.tsx:91-97 | the record carries the page key as id and key, the file's name and bytes, and the time |
| PdfCache.Put | App.tsx:99-102 | an upsert: the key is added, it holds the new bytes, every other key is unchanged |
| PdfCache.Get | App.tsx:115-130 | a blob exactly when the key is stored, and then the stored blob |
| PdfCache.Delete | App.tsx:139-144 | the key is removed and every other entry is kept |
| PdfCache.Fallback | App.tsx:297-318 | a fetch happens exactly on a miss; a thrown load leaves the store unchanged |
| PdfCache.SaveThenLoad | App.tsx:88-130 | a saved file's bytes are loaded back under its key |
| PdfCache.SaveKeepsOtherKeys | App.tsx:99-102 | saving under one key leaves what another key loads |
| PdfCache.SaveOverwrites | App.tsx:102 | a second save under a key replaces the first |
| PdfCache.RemoveThenLoad | App.tsx:139-144 | a removed key loads as missing |
| PdfCache.HitNeverFetches | App.tsx:299-301 | a hit returns the stored blob, without a fetch and without a write |
| PdfCache.MissStoresFetchedBody | App.tsx:301-306 | a miss with an ok response stores the body under the same key with the loader's filename and returns it |
| PdfCache.MissWithoutBodyThrows | App.tsx:302-303 | a miss with a failed request or a response that is not ok throws and leaves the store as it was |
| PdfCache.SecondLoadHits | App.tsx:297-313 | after a successful load, loading again is a hit on the same blob whatever the network does |
| PdfCache.PdfStore.Save | App.tsx:88-113 | the store becomes the upsert of the record |
| PdfCache.PdfStore.Load | App.tsx:115-137 | a blob exactly when the key is stored, and then the stored blob |
| PdfCache.PdfStore.Remove | App.tsx:139-156 | the store loses the key |
| PdfCache.PdfStore.LoadOrFetch | App.tsx:297-318 | the store, the result and whether a fetch happened equal the reference loader |
| PdfCache.PdfStore.LoadMainPdf | App.tsx:297-318 | the reference loader for key `pdf`, file `pdf.pdf` and its not-found message |
| PdfCache.PdfStore.LoadBookerPdf | App.tsx:341-356 | the reference loader for key `booker`, file `booker-page.pdf` and its not-found message |
| PdfCache.MainPdfTwice | App.tsx:297-313 | on an empty cache the first load fetches and the second returns the same bytes with the network down |
| PdfCache.BookerKeyIsSeparate | App.tsx:341-350 | loading the booker page does not fill the main page's entry |
| ChatModal.WithoutAsterisks | components/ChatModal.tsx:39 | the result has no asterisk, is no longer than the input, and is the input when it had none |
| ChatModal.WithoutAsterisksDropsEachStar | components/ChatModal.tsx:39 | the result is shorter than the input by exactly its number of asterisks; with WithoutAsterisksAppend and the identity on asterisk-free text this determines the deletion of every `*` |
| ChatModal.WithoutAsterisksAppend | components/ChatModal.tsx:39 | removing asterisks distributes over concatenation |
| ChatModal.ClosingStar | components/ChatModal.tsx:44 | the lazy `.*?` stops at the first asterisk after the opening one, and crosses no line terminator |
| ChatModal.MatchEnd | components/ChatModal.tsx:44 | a match at a position is an asterisk, characters other than asterisks and line terminators, and an asterisk; no match means no such span starts there |
| ChatModal.FirstMatch | components/ChatModal.tsx:44 | the leftmost position with a match, and no match before it |
| ChatModal.BoldSplit | components/ChatModal.tsx:44 | a split with a capture group gives an odd number of parts; the three lemmas below pin the split down |
| ChatModal.BoldSplitFindsEveryMatch | components/ChatModal.tsx:44 | no match of `\*.*?\*` starts at any position of the text inside an even-numbered part: the split misses no match, searching left to right |
| ChatModal.BoldSplitRoundTrip | components/ChatModal.tsx:44 | the parts concatenated give back the text |
| ChatModal.BoldSplitSpans | components/ChatModal.tsx:44 | every odd-numbered part is a matched `*...*` span |
| ChatModal.NoAsteriskOnePart | components/ChatModal.tsx:44 | text without an asterisk is one part |
| ChatModal.RenderPart | components/ChatModal.tsx:49-54 | bold exactly when the part starts and ends with `*`; a plain part is shown as is; a bold part of two or more characters is shown without its asterisks |
| ChatModal.RenderParts | components/ChatModal.tsx:48-55 | one segment per part, in order |
| ChatModal.RenderFormattedText | components/ChatModal.tsx:33-58 | while streaming one plain segment, the trimmed text with every asterisk removed; once final an odd number of segments, and the trimmed text alone when it has no asterisk |
| ChatModal.FinalSpansAreBold | components/ChatModal.tsx:44-54 | once final every matched span is shown bold, without its two asterisks and with no asterisk inside |
| ChatModal.BoldSpanRendering | components/ChatModal.tsx:49-51 | a matched `*...*` span is shown bold, as the text between its asterisks, with no asterisk inside |
| ChatModal.LoneAsteriskIsBold | components/ChatModal.tsx:49-51 | a text that trims to `*` is shown as a bold asterisk |
| ChatModal.SourceOfRenderedParts | components/ChatModal.tsx:48-55 | putting back the asterisks of bold segments rebuilds the parts, when no part is a lone asterisk |
| ChatModal.FinalRenderRoundTrip | components/ChatModal.tsx:33-58 | the final rendering, asterisks put back, is the trimmed text |
| ChatModal.BubbleFor | components/ChatModal.tsx:163-209 | the typing indicator exactly for the streaming bubble with no text; else the text, final unless streaming; the cursor exactly while streaming with text; the video and the button only when not streaming, the video only for a non-empty id |
| ChatModal.SettledBubble | components/ChatModal.tsx:164-165 | user bubbles, earlier bubbles and all bubbles once loading is over show their final text and no typing indicator or cursor |
| ChatModal.ReEngagement.constructor | components/ChatModal.tsx:71-113 | mounting: empty input, flag clear, the timer pending exactly when re-engagement is possible |
| ChatModal.ReEngagement.ResetIdleTimer | components/ChatModal.tsx:98-113 | the timer is pending exactly when not loading, not yet sent and the last bubble is the assistant's |
| ChatModal.ReEngagement.Rerender | components/ChatModal.tsx:89-113 | new props: the flag is cleared exactly when the last bubble is the user's, and the timer state is re-established |
| ChatModal.ReEngagement.TypeInput | components/ChatModal.tsx:98-113 | a keystroke changes the input and keeps the timer state |
| ChatModal.ReEngagement.IdleTimeout | components/ChatModal.tsx:104-107 | the timeout fires exactly when the timer was pending; then the flag is set and the timer is no longer pending |
| ChatModal.ReEngagement.LocalSend | components/ChatModal.tsx:123-130 | blank input or loading sends nothing; otherwise the input, untrimmed, is sent and the box cleared |
| ChatModal.IdleTwiceFiresOnce | components/ChatModal.tsx:89-113 | idling twice after a reply re-engages once; after the user's next message and its reply the timer is pending again |
| ChatModal.SentInputIsNotBlank | components/ChatModal.tsx:125-129 | the modal hands on an input exactly when it is not blank, and then as typed; an input handed on holds a character that is not white space |

## Left out

- IndexedDB itself is not modelled: opening the database, the upgrade handler, transactions and their errors. A storage error is not modelled either. The store is a map.
- `fetch`, `response.blob()`, `File`, `URL.createObjectURL` and the object URL are not modelled. A fetch is given as its outcome, and a blob is a byte sequence.
- `loadPdfFromDb`'s `instanceof Blob` test is not modelled: every stored record holds a blob.
- The main loader's guard on `PDF_PATH` and its `Nenhum conteúdo` error are not modelled, because they cannot happen: the path is a non-empty constant.
- The generative-AI client, the API key, session creation and the system instruction are not modelled. Whether a session exists is the field `chatReady`, and what the service returns is the `Transport` parameter.
- The prompt text sent for re-engagement and the content of the service's replies are not modelled.
- Timing is not modelled: the 60 ms pause between words and the 10 s idle timer. A timer firing is the method `IdleTimeout`. The user's stop press is the index of the first poll that sees the flag.
- React's state batching and the in-place mutation of the last message object by the functional updaters are not modelled. Each updater is applied at once to the whole transcript.
- ChatSession.Session.constructor: the greeting's text is a parameter; how `getInitialGreetingMessage` builds it from the day of the week is not modelled.
- Scrolling, focus, sound, animation and the rest of the user interface are not modelled.
- The admin panel, navigation, screens and keyboard shortcuts are not modelled.
- `handleUploadPdf` and `handleRemovePdf` are left out beyond the store operations they call: their counters only drive re-rendering.
- The resets done on closing the chat and on the music shortcut are not modelled.
- JavaScript strings are sequences of UTF-16 code units; the model uses Dafny characters. The two agree for all text outside the astral planes.
- ChatSession.Session.StreamReply: the model streams from a given finite sequence of chunks, not an asynchronous iterator.
- The model shares one `Respond` method between the two handlers where the source repeats the code. The re-engagement handler never parses, so it calls `Respond` with `parse` false.

Where the code departs from what its comments and prompts suggest, the model follows the code:

- A re-engagement reply is never parsed for commands, so a `||` in it is shown as is.
- The parse also runs after a stop, on the partial reply.
- On a failure after some text, the partial reply is kept, unparsed, and the error is shown.
- When opening the re-engagement stream fails, an empty assistant bubble left at the end by an earlier reply is removed too.
- The re-engagement handler does not clear the stop flag at its start. A flag left set by a press after the previous reply ended stops it at its first poll.
- Once final, a part that is a lone `*` starts and ends with `*`. `substring(1, 0)` swaps its bounds, so the part is shown as a bold asterisk.
