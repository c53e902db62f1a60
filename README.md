# Streaming chat pipeline: event-stream relay, observer and page reconciler

This project is a Dafny model of the streaming core of the "host your own" chat
app. The app has two sides:

- **The relay.** The server route `POST /api/chat` checks the request and opens
  a streamed query to the upstream agent. It forwards the upstream
  `text/event-stream` bytes unchanged, between a `: stream-start` and a
  `: stream-end` comment. While forwarding, an *observer* cuts the same bytes
  into frames. It records the message id of `metadata` events and the content
  ids of `retrievals` events, keeping the ids in first-seen order without
  duplicates. After a clean end, the relay asks the retrieval-info service for
  page images and sends one extra `content_metadatas` frame.
- **The page.** The chat page's `handleSubmit` reads the relay's stream and
  applies the same normalisation, frame cutting and decoding. It reconciles the
  events into at most one assistant message, whose index it captures on the
  first text delta. After the stream, it fetches the retrieval detail, merges it
  with the retrieved snippets, and writes the final message. `processMessageWithCitations`
  then turns `[n]` citations into clickable spans.

The files, one per part:

| file | contents |
|---|---|
| `text.dfy` | The JavaScript string operations used: `indexOf`, `split('\n')`, `trimStart`, CR/LF normalisation, decimal digits. |
| `json.dfy` | The event fields the handlers read. `JSON.parse` and `JSON.stringify` are function parameters. |
| `event_stream.dfy` | The splitter and decoder that the page and the observer share. `PushChunk` is the page's read loop over one chunk. |
| `observer.dfy` | The observer as a class: `StreamObserver`. |
| `relay.dfy` | The relay's `start` callback as methods on a stream `Controller`, and `POST`'s validation. |
| `merge.dfy` | The metadata merge, pairing by id or by position. |
| `reconciler.dfy` | `handleSubmit`, as the class `ChatPage`, proved against the functional specification `Submitted`. |
| `citations.dfy` | The citation rewrite. |
| `pipeline.dfy` | Lemmas that connect the relay's output to what the page sees. |

Five behaviours of the code a reader may not expect, each stated as a lemma:

- **The message id the relay records is the last one seen.** A later
  `metadata` event with a message id replaces an earlier one (route.ts:81-82).
  It is not the first one. See `Observer.MessageIdIsLatest`.
- **The error frame has no `event` field.** When the upstream fails, the relay
  sends `: stream-start` and then a data frame `{"error": …}`. The page ignores
  that frame, the stream ends cleanly, and the page shows an empty assistant
  message instead of the apology. See `Pipeline.UpstreamErrorShowsEmptyMessage`.
- **Writes are not serialised.** The heartbeat enqueues its comment directly.
  When it falls between two upstream chunks at a frame boundary, nothing
  changes (`Pipeline.CommentAtBoundary`). When it falls inside a data frame,
  the comment is appended to the data line and the frame's event is lost
  (`Pipeline.CommentInsideFrame`).
- **The final write can drop fetched detail.** If the final text is already on
  screen, the final write changes no message, so the detail fetched after the
  stream is never attached (`Reconciler.FinalWriteSkipsShownText`).
- **Chunking independence needs clean cuts.** Each chunk is normalised as it
  arrives. If a CR LF pair is split across two chunks, it becomes two line
  feeds. The independence theorem therefore requires that no chunk boundary
  falls between a CR and its LF. `EventStream.CrLfSplitAcrossChunks` shows the
  counterexample.

## Model

| member | source | states |
|---|---|---|
| Text.IndexOf | 16-matthew-mcconaughey/host-your-own/app/page.tsx:223 | the result is -1 or an index where the pattern occurs, and no earlier index holds it |
| Text.IndexOfMissing | 16-matthew-mcconaughey/host-your-own/app/page.tsx:237 | `indexOf` gives -1 exactly when the pattern does not occur |
| Text.IndexOfAt | 16-matthew-mcconaughey/host-your-own/app/api/chat/route.ts:71 | an occurrence with none before it is the index `indexOf` reports |
| Text.SplitLines | 16-matthew-mcconaughey/host-your-own/app/page.tsx:241 | `split('\n')` gives at least one piece, no piece holds a line feed, and joining the pieces with line feeds gives back the text |
| Text.TrimStart | 16-matthew-mcconaughey/host-your-own/app/page.tsx:246 | `trimStart()` is a suffix that does not start with white space, and every character it drops is white space |
| Text.NormalizeNewlines | 16-matthew-mcconaughey/host-your-own/app/page.tsx:219 | after the two replaces no carriage return is left; text without one is unchanged (so the `includes('\r')` guard changes nothing) |
| Text.NormalizeAppend | 16-matthew-mcconaughey/host-your-own/app/page.tsx:217-219 | normalising a concatenation is normalising both parts, unless the cut falls between a CR and its LF |
| Text.NormalizeAfterClean | 16-matthew-mcconaughey/host-your-own/app/page.tsx:217-219 | a buffer already free of CR is kept as it is when a chunk is appended and the whole is normalised |
| Text.Utf16Length | 16-matthew-mcconaughey/host-your-own/app/page.tsx:300 | JavaScript's `length` counts UTF-16 code units: at least one and at most two per character |
| Text.Utf16LengthAppend | 16-matthew-mcconaughey/host-your-own/app/page.tsx:300 | the JavaScript length of a concatenation is the sum of the lengths |
| Text.Utf16LengthBmp | 16-matthew-mcconaughey/host-your-own/app/page.tsx:300 | for text inside the Basic Multilingual Plane, the JavaScript length is the number of characters |
| Text.AstralCharCountsTwice | 16-matthew-mcconaughey/host-your-own/app/page.tsx:300 | an emoji is one character but has JavaScript length 2 |
| Text.DecimalRoundTrip | 16-matthew-mcconaughey/host-your-own/app/page.tsx:107-109 | `parseInt` of the decimal text of n is n |
| EventStream.SplitAll | 16-matthew-mcconaughey/host-your-own/app/page.tsx:222-239 | what is left in the buffer after cutting holds no blank line |
| EventStream.SplitAllJoin | 16-matthew-mcconaughey/host-your-own/app/page.tsx:238-239 | the frames, each followed by its blank line, then the rest, give back the text: cutting loses nothing |
| EventStream.SplitAllFrames | 16-matthew-mcconaughey/host-your-own/app/page.tsx:238 | every frame cut holds no blank line and does not end with a line feed |
| EventStream.PrefixBeforeSeparator | 16-matthew-mcconaughey/host-your-own/app/page.tsx:223-238 | the text before the earliest blank line is a frame |
| EventStream.SplitAppend | 16-matthew-mcconaughey/host-your-own/app/page.tsx:217-239 | cutting `a + b` gives the frames of `a`, then the cut of its rest followed by `b` |
| EventStream.SplitStep | 16-matthew-mcconaughey/host-your-own/app/page.tsx:223-239 | one iteration of the inner loop: the frame before the earliest blank line, then the cut of what follows it |
| EventStream.SplitFramed | 16-matthew-mcconaughey/host-your-own/app/page.tsx:223-239 | a frame text followed by a blank line is cut off as exactly that frame |
| EventStream.SplitAtBlank | 16-matthew-mcconaughey/host-your-own/app/page.tsx:223-239 | the first two line feeds in a row cut the first frame |
| EventStream.SplitNoBlank | 16-matthew-mcconaughey/host-your-own/app/page.tsx:237 | text without two line feeds in a row stays in the buffer whole |
| EventStream.NoCrLfSeparator | 16-matthew-mcconaughey/host-your-own/app/page.tsx:224-236 | after normalisation the CR LF CR LF search always gives -1, so only the line-feed separator ever cuts |
| EventStream.CutOneFrame | 16-matthew-mcconaughey/host-your-own/app/page.tsx:222-239 | cutting one frame off the buffer keeps the read loop's invariant |
| EventStream.PushChunk | 16-matthew-mcconaughey/host-your-own/app/page.tsx:214-239 | one chunk through the read loop yields the frames of the normalised buffer plus chunk, in order; the new buffer has no CR and no blank line |
| EventStream.NormalizedConcat | 16-matthew-mcconaughey/host-your-own/app/page.tsx:217-219 | the chunks normalised one by one hold no carriage return |
| EventStream.FeedSplitsNormalized | 16-matthew-mcconaughey/host-your-own/app/page.tsx:214-239 | feeding chunks one at a time cuts the chunk-wise normalised stream as a whole |
| EventStream.NormalizedConcatClean | 16-matthew-mcconaughey/host-your-own/app/page.tsx:217-219 | when no boundary splits CR LF, normalising each chunk is normalising the whole |
| EventStream.ChunkingIndependent | 16-matthew-mcconaughey/host-your-own/app/page.tsx:214-239 | when no chunk boundary splits a CR LF pair, any chunking gives the same frames and the same rest as the whole stream in one chunk |
| EventStream.ChunkingIndependentWithoutCr | 16-matthew-mcconaughey/host-your-own/app/api/chat/route.ts:67-74 | for a stream without CR, any chunking gives exactly the cut of the concatenated text |
| EventStream.FeedOne | 16-matthew-mcconaughey/host-your-own/app/page.tsx:214-239 | the whole stream fed at once is the cut of its normalisation |
| EventStream.CrLfSplitAcrossChunks | 16-matthew-mcconaughey/host-your-own/app/page.tsx:217-219 | chunks `"a\r"`, `"\na\n\n"` give two frames `a`, `a`: a CR LF split across chunks reads as two line feeds |
| EventStream.CrLfInOneChunk | 16-matthew-mcconaughey/host-your-own/app/page.tsx:217-219 | the same text in one chunk gives the single frame `"a\na"` |
| EventStream.FeedPrefix | 16-matthew-mcconaughey/host-your-own/app/page.tsx:214-239 | the frames emitted after a prefix of the chunks are a prefix of the frames emitted after all of them |
| EventStream.DecodeFrame | 16-matthew-mcconaughey/host-your-own/app/page.tsx:241-248 | a payload, when a frame has one, is never empty |
| EventStream.NoDataLineNoPayload | 16-matthew-mcconaughey/host-your-own/app/page.tsx:241-248 | a frame with no `data:` line, comment-only frames included, yields no payload |
| EventStream.NoDataValues | 16-matthew-mcconaughey/host-your-own/app/page.tsx:244-247 | lines without a `data:` line contribute no value |
| EventStream.SplitJoinLines | 16-matthew-mcconaughey/host-your-own/app/page.tsx:241 | splitting lines joined by line feeds gives back those lines |
| EventStream.SplitLinesWithoutFeed | 16-matthew-mcconaughey/host-your-own/app/page.tsx:241 | text without a line feed splits into itself alone |
| EventStream.DecodeDataLines | 16-matthew-mcconaughey/host-your-own/app/page.tsx:244-248 | a frame of `data:` lines, each value after optional white space, decodes to the values joined by line feeds |
| EventStream.DataLinesFacts | 16-matthew-mcconaughey/host-your-own/app/page.tsx:244-246 | such lines are single data lines, and filtering, slicing and trimming gives back the values |
| EventStream.TrimWhitespacePrefix | 16-matthew-mcconaughey/host-your-own/app/page.tsx:246 | `trimStart` removes exactly a leading run of white space |
| EventStream.DecodeCommentLine | 16-matthew-mcconaughey/host-your-own/app/api/chat/route.ts:76 | a one-line comment frame yields no payload |
| EventStream.EventsOfAppend | 16-matthew-mcconaughey/host-your-own/app/page.tsx:241-255 | the events of two runs of frames are the events of each, in order |
| EventStream.EventsOfStep | 16-matthew-mcconaughey/host-your-own/app/page.tsx:241-255 | one more frame adds its parsed event, or nothing |
| EventStream.BadFrameSkipped | 16-matthew-mcconaughey/host-your-own/app/page.tsx:248-255 | a frame that fails to decode or parse is skipped, and the frames after it still give their events |
| EventStream.EventsOfPrefix | 16-matthew-mcconaughey/host-your-own/app/page.tsx:241-255 | a prefix of the frames gives a prefix of the events |
| Observer.ContentIds | 16-matthew-mcconaughey/host-your-own/app/api/chat/route.ts:85-86 | one id per content entry, in order |
| Observer.AddAllKeepsList | 16-matthew-mcconaughey/host-your-own/app/api/chat/route.ts:85-88 | the id list only grows, and stays free of duplicates and of the empty id |
| Observer.AddAllMembers | 16-matthew-mcconaughey/host-your-own/app/api/chat/route.ts:87 | an id is in the list exactly when it was before, or it was offered and is not empty |
| Observer.AddAllAppend | 16-matthew-mcconaughey/host-your-own/app/api/chat/route.ts:85-88 | offering two runs of ids is offering one after the other |
| Observer.AddAllFirstSeenOrder | 16-matthew-mcconaughey/host-your-own/app/api/chat/route.ts:85-88 | from an empty list, the ids appear in the order of their first offer, each once |
| Observer.IdsInAppend | 16-matthew-mcconaughey/host-your-own/app/api/chat/route.ts:83-88 | the ids of two runs of events are the ids of each, in order |
| Observer.MessageIdAppend | 16-matthew-mcconaughey/host-your-own/app/api/chat/route.ts:81-82 | the message id after two runs of events is the first run's followed by the second |
| Observer.MessageIdIsLatest | 16-matthew-mcconaughey/host-your-own/app/api/chat/route.ts:81-82 | the recorded message id is that of the last `metadata` event that carries one |
| Observer.MessageIdUnset | 16-matthew-mcconaughey/host-your-own/app/api/chat/route.ts:81-82 | without such an event the message id stays as it was |
| Observer.StreamObserver.constructor | 16-matthew-mcconaughey/host-your-own/app/api/chat/route.ts:64-66 | an empty buffer, no message id, no ids |
| Observer.StreamObserver.ObserveChunk | 16-matthew-mcconaughey/host-your-own/app/api/chat/route.ts:67-94 | the buffer becomes the rest of the normalised cut; the message id and the id list move on by the events of the frames cut; the list stays duplicate-free |
| Observer.StreamObserver.ObserveEvent | 16-matthew-mcconaughey/host-your-own/app/api/chat/route.ts:79-92 | one parsed event updates the message id and the id list as the folds say, and leaves the buffer alone |
| Observer.EventStep | 16-matthew-mcconaughey/host-your-own/app/api/chat/route.ts:79-92 | handling one more event extends both folds by it |
| Observer.ObservedStep | 16-matthew-mcconaughey/host-your-own/app/api/chat/route.ts:67-94 | feeding one more chunk moves the observed id and list on by that chunk's events |
| Relay.FrameTextWithoutFeed | 16-matthew-mcconaughey/host-your-own/app/api/chat/route.ts:41-42 | one-line text is a frame |
| Relay.EncodeSSERoundTrip | 16-matthew-mcconaughey/host-your-own/app/api/chat/route.ts:41 | an encoded data frame is cut off as one frame and decodes to exactly its payload |
| Relay.EncodeCommentRoundTrip | 16-matthew-mcconaughey/host-your-own/app/api/chat/route.ts:42 | an encoded comment is cut off as one frame and decodes to nothing |
| Relay.CommentsOneLine | 16-matthew-mcconaughey/host-your-own/app/api/chat/route.ts:44-50 | none of `stream-start`, `stream-end`, `keep-alive` holds a line feed |
| Relay.Controller.constructor | 16-matthew-mcconaughey/host-your-own/app/api/chat/route.ts:39-40 | a fresh stream: nothing enqueued, open |
| Relay.Controller.Enqueue | 16-matthew-mcconaughey/host-your-own/app/api/chat/route.ts:125 | enqueueing on an open stream appends the piece |
| Relay.Controller.Close | 16-matthew-mcconaughey/host-your-own/app/api/chat/route.ts:151 | closing keeps what was enqueued |
| Relay.ForwardChunks | 16-matthew-mcconaughey/host-your-own/app/api/chat/route.ts:120-133 | every chunk is enqueued as it is, in order, and the observer ends in the state that feeding all the chunks gives |
| Relay.Enrich | 16-matthew-mcconaughey/host-your-own/app/api/chat/route.ts:135-148 | a lookup is made only with a message id and a non-empty id list; a returned reply is enqueued as one `content_metadatas` frame (missing metadata as `[]`), and a failed one enqueues nothing |
| Relay.RelayStreamed | 16-matthew-mcconaughey/host-your-own/app/api/chat/route.ts:118-152 | the chunks, then an error frame after a read error, or else the enrichment and `: stream-end`; the stream ends closed |
| Relay.SendError | 16-matthew-mcconaughey/host-your-own/app/api/chat/route.ts:108-115 | one `{error}` data frame, then the stream is closed |
| Relay.StreamResponse | 16-matthew-mcconaughey/host-your-own/app/api/chat/route.ts:40-161 | the stream holds exactly the relay output (`: stream-start`, then the error frame or the forwarded chunks and their tail) and ends closed; the heartbeat starts exactly when the upstream is readable; lookups only after a clean end |
| Relay.ChunksForwarded | 16-matthew-mcconaughey/host-your-own/app/api/chat/route.ts:120-133 | the upstream chunks appear unchanged and in order right after the start comment |
| Relay.PostValidation | 16-matthew-mcconaughey/host-your-own/app/api/chat/route.ts:9-35 | status 400 exactly for a missing or empty message list; the stream is opened exactly for a non-empty list with both keys configured |
| Merge.AnyIdExists | 16-matthew-mcconaughey/host-your-own/app/page.tsx:342-348 | pairing by id is chosen exactly when some metadata entry has a `content_id` |
| Merge.LastWithId | 16-matthew-mcconaughey/host-your-own/app/page.tsx:343-348 | the map lookup gives an entry with that id taken from the metadata, or there is none with that id |
| Merge.Merged | 16-matthew-mcconaughey/host-your-own/app/page.tsx:349-356 | one entry per snippet, in the snippets' order, with the snippet's text; every image comes from a metadata entry |
| Merge.PlaceholdersAreEmptyMerge | 16-matthew-mcconaughey/host-your-own/app/page.tsx:433-438 | the placeholders are the merge with no metadata |
| Merge.MergeMetadata | 16-matthew-mcconaughey/host-your-own/app/page.tsx:339-356 | the `forEach` filling the map and the `map` over the snippets compute the merge |
| Merge.MergeByIdLastWins | 16-matthew-mcconaughey/host-your-own/app/page.tsx:343-350 | pairing by id, a snippet takes the image of the last entry with its id |
| Merge.LastWithIdAt | 16-matthew-mcconaughey/host-your-own/app/page.tsx:343-348 | the last entry with an id is the one the map holds for it |
| Merge.MergeByIdMissing | 16-matthew-mcconaughey/host-your-own/app/page.tsx:350-353 | pairing by id, a snippet no entry names gets no image |
| Merge.MergeByPosition | 16-matthew-mcconaughey/host-your-own/app/page.tsx:350-353 | with no ids at all, snippet i takes entry i's image, or none past the end |
| Merge.LastWithIdDistinct | 16-matthew-mcconaughey/host-your-own/app/page.tsx:343-348 | with distinct ids, the map holds each entry under its own id |
| Merge.MergeOrderIndependent | 16-matthew-mcconaughey/host-your-own/app/page.tsx:343-356 | with distinct ids on every entry, reordering the metadata does not change the merge |
| Citations.LeadingDigits | 16-matthew-mcconaughey/host-your-own/app/page.tsx:103 | `\d+` takes the longest run of digits |
| Citations.CitationLength | 16-matthew-mcconaughey/host-your-own/app/page.tsx:106 | a match of `\[(\d+)\]` is a bracket, digits and a closing bracket |
| Citations.EmptyParens | 16-matthew-mcconaughey/host-your-own/app/page.tsx:103 | the `()` pairs taken fit in the text |
| Citations.CollapseEmptyLinks | 16-matthew-mcconaughey/host-your-own/app/page.tsx:103 | the collapse never lengthens the text |
| Citations.NoBracketUnchanged | 16-matthew-mcconaughey/host-your-own/app/page.tsx:103-112 | text without `[` passes both replaces unchanged |
| Citations.NoRetrievalsNoLinks | 16-matthew-mcconaughey/host-your-own/app/page.tsx:106-111 | with a count of 0 the linking replace changes no text, so the early return differs from running both replaces only in skipping the collapse |
| Citations.CitationAtHead | 16-matthew-mcconaughey/host-your-own/app/page.tsx:106 | `[digits]` at the head matches with its full length |
| Citations.LeadingDigitsOf | 16-matthew-mcconaughey/host-your-own/app/page.tsx:103 | the digit run stops where the digits do |
| Citations.EmptyParensOf | 16-matthew-mcconaughey/host-your-own/app/page.tsx:103 | `(\(\))+` takes every pair present |
| Citations.ParensLength | 16-matthew-mcconaughey/host-your-own/app/page.tsx:103 | n pairs are 2n characters |
| Citations.CollapseCitation | 16-matthew-mcconaughey/host-your-own/app/page.tsx:103 | `[n]()()…` collapses to `[n]`, and the scan goes on after it |
| Citations.CollapseKeepsBareCitation | 16-matthew-mcconaughey/host-your-own/app/page.tsx:103 | a citation without empty parentheses after it is kept whole, and the collapse goes on with what follows it |
| Citations.CollapseAfterBracketFree | 16-matthew-mcconaughey/host-your-own/app/page.tsx:103 | text holding no `[` is copied by the collapse, which goes on with what follows |
| Citations.CollapseNoLink | 16-matthew-mcconaughey/host-your-own/app/page.tsx:103 | where no collapsible citation starts, the character is kept |
| Citations.LinkCitation | 16-matthew-mcconaughey/host-your-own/app/page.tsx:106-112 | `[n]` becomes the span for index n-1 exactly when 1 <= n <= number of retrievals, else stays as it is |
| Citations.ProcessMessageWithCitations | 16-matthew-mcconaughey/host-your-own/app/page.tsx:96-112 | content holding no `[` is returned unchanged, whatever the retrievals |
| Citations.EarlyReturn | 16-matthew-mcconaughey/host-your-own/app/page.tsx:96-99 | missing or empty retrievals return the content as it is |
| Citations.EarlyReturnKeepsEmptyLink | 16-matthew-mcconaughey/host-your-own/app/page.tsx:96-103 | with no retrievals `[1]()` is shown as written, where running both replaces would give `[1]` |
| Citations.ProcessCitation | 16-matthew-mcconaughey/host-your-own/app/page.tsx:96-112 | with retrievals, `[n]` followed by any number of `()` pairs becomes the span for n-1 when 1 <= n <= the number of retrievals and `[n]` otherwise, and the rest of the message is rewritten on its own |
| Citations.CitationIndexReadsBack | 16-matthew-mcconaughey/host-your-own/app/page.tsx:107-109 | the span's `data-citation` reads back as n-1, a valid retrieval index |
| Reconciler.ContentIdList | 16-matthew-mcconaughey/host-your-own/app/page.tsx:389 | every id sent is non-empty and belongs to a retrieval, every non-empty id is sent, so the list is empty exactly when no retrieval has an id, and it is never longer than the retrievals |
| Reconciler.ContentIdListAppend | 16-matthew-mcconaughey/host-your-own/app/page.tsx:389 | ids come in the retrievals' order, a repeated id once per retrieval |
| Reconciler.ContentIdListOne | 16-matthew-mcconaughey/host-your-own/app/page.tsx:389 | one retrieval gives its id, or nothing when the id is empty |
| Reconciler.ChatPage.constructor | 16-matthew-mcconaughey/host-your-own/app/page.tsx:168-181 | no messages, empty input, not loading, no captured index |
| Reconciler.ChatPage.RenderDelta | 16-matthew-mcconaughey/host-your-own/app/page.tsx:268-330 | a non-empty delta acts on the page as the specification `OnDelta` says |
| Reconciler.ChatPage.AttachMetadatas | 16-matthew-mcconaughey/host-your-own/app/page.tsx:339-371 | a `content_metadatas` event acts as `OnMetadatas` says |
| Reconciler.ChatPage.HandleEvent | 16-matthew-mcconaughey/host-your-own/app/page.tsx:258-379 | one event acts as the `Dispatch` step says, including the throw |
| Reconciler.ChatPage.HandleFrames | 16-matthew-mcconaughey/host-your-own/app/page.tsx:241-380 | the frames of one chunk act as receiving their events, stopping at a throw |
| Reconciler.ChatPage.ReadStream | 16-matthew-mcconaughey/host-your-own/app/page.tsx:203-381 | the read loop acts as receiving the events of all frames the chunks yield |
| Reconciler.ChatPage.Begin | 16-matthew-mcconaughey/host-your-own/app/page.tsx:174-180 | the user's message is appended, the input cleared, loading starts, the refs are reset |
| Reconciler.ChatPage.Apologize | 16-matthew-mcconaughey/host-your-own/app/page.tsx:477-484 | the apology is appended and loading ends |
| Reconciler.ChatPage.FinalizeMessage | 16-matthew-mcconaughey/host-your-own/app/page.tsx:441-475 | the final write as `FinalWrite` says |
| Reconciler.ChatPage.ReadBody | 16-matthew-mcconaughey/host-your-own/app/page.tsx:201-484 | after reading, a throw or read error ends in the apology, else in the detail fetch and final write |
| Reconciler.ChatPage.Submit | 16-matthew-mcconaughey/host-your-own/app/page.tsx:168-485 | `handleSubmit` leaves the page as the specification `Submitted` says |
| Reconciler.ReceiveAppend | 16-matthew-mcconaughey/host-your-own/app/page.tsx:214-381 | handling events in two runs is handling them in one |
| Reconciler.FrameStep | 16-matthew-mcconaughey/host-your-own/app/page.tsx:241-379 | one more frame dispatches its event, if it has one |
| Reconciler.ChunkStep | 16-matthew-mcconaughey/host-your-own/app/page.tsx:214-381 | the frames of one more chunk are handled after those before it, and an exception among them decides the whole stream's result |
| Reconciler.FeedStep | 16-matthew-mcconaughey/host-your-own/app/page.tsx:214-239 | one more chunk adds the frames of its normalised cut |
| Reconciler.ReceiveThrown | 16-matthew-mcconaughey/host-your-own/app/page.tsx:376 | once thrown, later events change nothing |
| Reconciler.ReceivePrefixThrown | 16-matthew-mcconaughey/host-your-own/app/page.tsx:376 | a throw within a prefix of the frames decides the result of all of them |
| Reconciler.ReceiveFramesThrown | 16-matthew-mcconaughey/host-your-own/app/page.tsx:376 | the same for a run of frames that extends one that threw |
| Reconciler.ReceiveThrowsIff | 16-matthew-mcconaughey/host-your-own/app/page.tsx:258-376 | reading ends in an exception exactly when some event is `null` or an `error` event |
| Reconciler.DispatchThrows | 16-matthew-mcconaughey/host-your-own/app/page.tsx:258-376 | one event throws exactly when it is `null` or `error` |
| Reconciler.StartShaped | 16-matthew-mcconaughey/host-your-own/app/page.tsx:174-180 | the page at the start of reading: the user's message last, loading, no index |
| Reconciler.DispatchShaped | 16-matthew-mcconaughey/host-your-own/app/page.tsx:258-379 | each event keeps at most one assistant message after the user's, at the captured index, showing the text last rendered, and never shortens that text's JavaScript length |
| Reconciler.ReceiveShaped | 16-matthew-mcconaughey/host-your-own/app/page.tsx:214-381 | every run of events keeps that shape and never shortens the rendered text's JavaScript length |
| Reconciler.StreamedIsDeltas | 16-matthew-mcconaughey/host-your-own/app/page.tsx:268-270 | without a final message the streamed text is the deltas concatenated in order |
| Reconciler.DispatchDelta | 16-matthew-mcconaughey/host-your-own/app/page.tsx:268-270 | one event that neither throws nor completes adds its delta to the streamed text |
| Reconciler.StreamedAfterComplete | 16-matthew-mcconaughey/host-your-own/app/page.tsx:331-334 | a final message replaces all earlier text; only later deltas follow it |
| Reconciler.FirstDelta | 16-matthew-mcconaughey/host-your-own/app/page.tsx:272-297 | the first non-empty delta appends exactly one assistant message at the end, with the streamed text, captures its index and ends loading |
| Reconciler.LaterDelta | 16-matthew-mcconaughey/host-your-own/app/page.tsx:298-328 | a later delta keeps the index, touches no other message, and rewrites the captured one with the text only when its JavaScript length (UTF-16 code units) exceeds that of the text last rendered |
| Reconciler.EmojiShownKeepsShorterText | 16-matthew-mcconaughey/host-your-own/app/page.tsx:300-303 | with two emoji on screen (length 4), a delta that makes the text "abc" (length 3) renders nothing, although "abc" has more characters |
| Reconciler.RetrievalsReplaced | 16-matthew-mcconaughey/host-your-own/app/page.tsx:263-266 | a `retrievals` event with contents replaces the snapshot, which holds until the next one |
| Reconciler.RetrievalsKept | 16-matthew-mcconaughey/host-your-own/app/page.tsx:263-266 | other events leave the snapshot alone |
| Reconciler.MetadatasBeforeFirstDelta | 16-matthew-mcconaughey/host-your-own/app/page.tsx:357 | a `content_metadatas` event before the first delta changes nothing |
| Reconciler.MetadatasAttach | 16-matthew-mcconaughey/host-your-own/app/page.tsx:339-371 | after it, the merge of the snapshot with the metadata is put into the assistant message, one entry per retrieval and images from the metadata; the text and the other messages stay |
| Reconciler.SubmitIgnoredIff | 16-matthew-mcconaughey/host-your-own/app/page.tsx:170 | a submission leaves the page unchanged exactly when the input is blank or a request is pending |
| Reconciler.SubmittedStream | 16-matthew-mcconaughey/host-your-own/app/page.tsx:201-484 | a readable response ends in the apology after a throw or read error, and in the final write otherwise |
| Reconciler.SubmitSucceeds | 16-matthew-mcconaughey/host-your-own/app/page.tsx:168-475 | a stream without a throw adds exactly the user's message and one assistant message showing the final streamed text; input cleared, loading over |
| Reconciler.ReceiveSucceeds | 16-matthew-mcconaughey/host-your-own/app/page.tsx:214-475 | the same, for the events received |
| Reconciler.FinishShaped | 16-matthew-mcconaughey/host-your-own/app/page.tsx:383-475 | the final write leaves exactly one assistant message after the prefix, with the final text |
| Reconciler.SubmitShowsDeltas | 16-matthew-mcconaughey/host-your-own/app/page.tsx:268-475 | with no final message the assistant message shows the deltas concatenated |
| Reconciler.SubmitFails | 16-matthew-mcconaughey/host-your-own/app/page.tsx:196-198 | a network error, a read error or a throwing event ends with the apology last, after the user's message and at most one assistant message; loading over |
| Reconciler.FailShaped | 16-matthew-mcconaughey/host-your-own/app/page.tsx:477-484 | the apology follows the prefix and at most one assistant message |
| Reconciler.FinalWriteSkipsShownText | 16-matthew-mcconaughey/host-your-own/app/page.tsx:461-464 | when the final text is already shown, the final write changes no message, so fetched detail is not attached |
| Reconciler.FinalDetailAligned | 16-matthew-mcconaughey/host-your-own/app/page.tsx:386-439 | the detail written has one entry per retrieval, in order |
| Pipeline.ConcatAppend | 16-matthew-mcconaughey/host-your-own/app/page.tsx:217 | the text of two runs of pieces is the text of each |
| Pipeline.CommentFrameSkipped | 16-matthew-mcconaughey/host-your-own/app/page.tsx:242 | a comment frame carries no event and does not disturb its neighbours |
| Pipeline.NoCrInFrames | 16-matthew-mcconaughey/host-your-own/app/api/chat/route.ts:41-42 | the relay's own frames add no carriage return |
| Pipeline.RelayOutputWithoutCr | 16-matthew-mcconaughey/host-your-own/app/api/chat/route.ts:44-156 | an upstream stream without CR gives a relay output without CR |
| Pipeline.EnrichmentSplits | 16-matthew-mcconaughey/host-your-own/app/api/chat/route.ts:144 | the enrichment text is cut off as its own frame |
| Pipeline.RelayText | 16-matthew-mcconaughey/host-your-own/app/api/chat/route.ts:44-150 | the relayed text is the start comment, the upstream text, the enrichment and the end comment |
| Pipeline.RelayFrames | 16-matthew-mcconaughey/host-your-own/app/api/chat/route.ts:44-150 | for upstream text ending at a frame boundary, the page cuts the start comment, the upstream frames, the enrichment frame and the end comment, with nothing left over |
| Pipeline.FramesAround | 16-matthew-mcconaughey/host-your-own/app/api/chat/route.ts:44-150 | a comment, text ending at a boundary and then more frames cut as such |
| Pipeline.CommentAlone | 16-matthew-mcconaughey/host-your-own/app/api/chat/route.ts:42 | a comment alone is one frame |
| Pipeline.FramedEvents | 16-matthew-mcconaughey/host-your-own/app/page.tsx:242 | the start and end comments add no event |
| Pipeline.PageSeesRelayedEvents | 16-matthew-mcconaughey/host-your-own/app/api/chat/route.ts:120-150 | however the page receives the relayed text in pieces, it gets the upstream's events in order, then the enrichment event if sent, and nothing else |
| Pipeline.SplitAfterBoundary | 16-matthew-mcconaughey/host-your-own/app/page.tsx:222-239 | text after a frame boundary is cut on its own |
| Pipeline.CommentAtBoundarySplit | 16-matthew-mcconaughey/host-your-own/app/api/chat/route.ts:47-53 | a heartbeat comment at a frame boundary is cut as one frame of its own |
| Pipeline.CommentAtBoundary | 16-matthew-mcconaughey/host-your-own/app/api/chat/route.ts:47-53 | such a comment changes neither the events nor what is left over |
| Pipeline.SplitBlank | 16-matthew-mcconaughey/host-your-own/app/page.tsx:222-239 | a lone blank line is one empty frame |
| Pipeline.DataAlone | 16-matthew-mcconaughey/host-your-own/app/api/chat/route.ts:41 | a data frame alone is one frame |
| Pipeline.OneFrameEvents | 16-matthew-mcconaughey/host-your-own/app/page.tsx:241-255 | one frame gives its parsed event or nothing |
| Pipeline.CommentInsideFrame | 16-matthew-mcconaughey/host-your-own/app/api/chat/route.ts:47-53 | a heartbeat comment between two chunks that split a data frame joins the data line; when the joined payload does not parse, the frame's event is lost |
| Pipeline.LostFrames | 16-matthew-mcconaughey/host-your-own/app/page.tsx:248-255 | a data frame that does not parse and an empty frame give no event |
| Pipeline.ErrorFrameEvents | 16-matthew-mcconaughey/host-your-own/app/api/chat/route.ts:108-115 | the page reads the start comment and the error frame as the error frame's event only |
| Pipeline.CommentThenData | 16-matthew-mcconaughey/host-your-own/app/api/chat/route.ts:44-112 | a comment and a data frame cut into those two frames |
| Pipeline.CommentThenDataEvents | 16-matthew-mcconaughey/host-your-own/app/page.tsx:241-255 | of which only the data frame gives an event |
| Pipeline.EventlessFrameSubmission | 16-matthew-mcconaughey/host-your-own/app/page.tsx:377-455 | an event without `event` is ignored, and the final write appends an empty assistant message |
| Pipeline.UpstreamErrorShowsEmptyMessage | 16-matthew-mcconaughey/host-your-own/app/api/chat/route.ts:108-115 | after an upstream failure the page ends with the user's message and an empty assistant message, not the apology |
| Pipeline.PageTracksObservedMessageId | 16-matthew-mcconaughey/host-your-own/app/page.tsx:259-262 | while nothing throws, the page's message id is the one the relay's observer computes from the same events |

## Left out

- Markup, styling, background music, the citation modal and `handleCitationClick` are not part of this model. They are presentation only.
- The network is not modelled. The upstream `fetch`, the retrieval-info lookup, `fetch('/api/chat')` and `fetch('/api/retrieval-info')` are parameters or datatypes of their outcomes (`Upstream`, `Lookup`, `Response`, `InfoReply`). The `/api/retrieval-info` route itself is not part of this model.
- The heartbeat timer is not modelled as a concurrent task. `StreamResponse` reports whether it was started. Where a keep-alive comment can land is covered by `Pipeline.CommentAtBoundary` and `Pipeline.CommentInsideFrame`. Stopping the timer is not modelled.
- `TextDecoder` and `TextEncoder` are not modelled: the model works on strings, not bytes. A multi-byte character split across chunks is therefore not covered.
- React's deferred state updates are not modelled: each `setMessages` updater runs at once. So the `-1` marker of the first delta is never visible, and the index is captured at once.
- `JSON.parse` and `JSON.stringify` are parameters. A JSON value other than `null` that has no `event` key reads as an event with the name "". Where the pipeline lemmas need it, they assume `JSON.stringify` gives one line starting with `{` (`OneLineStringify`).
- Response headers, console logging, `conversation_id` (read but never used) and the `attributions` and `end` events (handled by doing nothing) are not modelled beyond their effect, which is none.
- `Citations.LinkCitation`: numbers are unbounded, so `parseInt` losing precision on very long digit runs is not modelled.
- `Reconciler.OnMetadatas`: a `null` entry in `content_metadatas`, and `contents` that is not an array, would make the page throw. The model types rule them out.
- The client `cancel` callback and a downstream disconnect are not modelled: the relay model always reads the upstream to its end or to a read error.
- `Relay.Post`: an exception after the stream has been created is not modelled. The catch of route.ts lines 175-181 is modelled only for a body that does not parse. A `messages` value that is not an array is ruled out by the type; the real route lets a truthy non-array through, and `messages.map` then throws inside the stream, which sends an error frame.
