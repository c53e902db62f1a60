/** The chat relay of route.ts: `POST` validates the request, then streams the
    upstream agent's event stream to the page unchanged, framed by a
    `: stream-start` and a `: stream-end` comment. When the stream carried a
    message id and retrieved content ids, one enrichment frame is inserted
    before the end comment. The upstream call, the enrichment lookup and
    `JSON.stringify` are parameters. */
module Relay {
  import opened Text
  import opened Json
  import opened EventStream
  import opened Observer

  /** `encodeSSE(data)`: a data frame. */
  function EncodeSSE(data: string): string {
    "data: " + data + Blank
  }

  /** `encodeComment(comment)`: a comment frame. */
  function EncodeComment(comment: string): string {
    ": " + comment + Blank
  }

  /** Text without a line feed is frame text. */
  lemma FrameTextWithoutFeed(f: string)
    requires '\n' !in f
    ensures IsFrameText(f)
  {
    forall i | 0 <= i <= |f| ensures !OccursAt(f, Blank, i) {
      if i < |f| {
        assert f[i] in f;
      }
    }
    if f != [] {
      assert f[|f| - 1] in f;
    }
  }

  /** A payload fit for one data line: not empty, no line break and no leading
      white space, as `JSON.stringify` output is. */
  predicate SingleLinePayload(p: string) {
    p != [] && '\n' !in p && '\r' !in p && !IsJsWhitespace(p[0])
  }

  /** A data frame is cut off as one frame, and decodes to exactly its payload. */
  lemma EncodeSSERoundTrip(payload: string, rest: string)
    requires SingleLinePayload(payload)
    ensures SplitAll(EncodeSSE(payload) + rest) == (["data: " + payload] + SplitAll(rest).0, SplitAll(rest).1)
    ensures DecodeFrame("data: " + payload) == Some(payload)
  {
    var f := "data: " + payload;
    assert '\n' !in f by {
      assert forall i | 0 <= i < |f| :: f[i] == if i < 6 then "data: "[i] else payload[i - 6];
    }
    FrameTextWithoutFeed(f);
    SplitFramed(f, rest);
    assert EncodeSSE(payload) + rest == f + Blank + rest;
    var lines := DataLines([payload], [" "]);
    assert lines[0] == "data:" + " " + payload == f;
    assert lines == [f];
    assert JoinLines(lines) == f && JoinLines([payload]) == payload;
    DecodeDataLines([payload], [" "]);
  }

  /** A comment frame is cut off as one frame, and decodes to nothing. */
  lemma EncodeCommentRoundTrip(comment: string, rest: string)
    requires '\n' !in comment
    ensures SplitAll(EncodeComment(comment) + rest) == ([": " + comment] + SplitAll(rest).0, SplitAll(rest).1)
    ensures DecodeFrame(": " + comment) == None
  {
    var f := ": " + comment;
    assert '\n' !in f by {
      assert forall i | 0 <= i < |f| :: f[i] == if i < 2 then ": "[i] else comment[i - 2];
    }
    FrameTextWithoutFeed(f);
    SplitFramed(f, rest);
    assert EncodeComment(comment) + rest == f + Blank + rest;
    DecodeCommentLine(comment);
  }

  /** `Upstream error ${status}: ${text}`. */
  function UpstreamErrorText(status: nat, text: string): string {
    "Upstream error " + DecimalString(status) + ": " + text
  }

  /** What the upstream `fetch` gives. `body` is `await upstream.text()`, the
      empty text when reading it fails. */
  datatype Upstream =
    | Unreachable(message: string)                          // fetch throws
    | Rejected(status: nat, body: string)                   // !upstream.ok || !upstream.body
    | Streamed(chunks: seq<string>, readError: Option<string>) // the chunks read, then done or a read error

  /** What `client.agents.query.retrievalInfo` gives: a failure, or a reply whose
      `content_metadatas` may be missing. */
  datatype Lookup =
    | LookupFailed
    | LookupReturned(contentMetadatas: Option<seq<ContentMetadata>>)

  /** An enrichment lookup request: the message id and the content ids. */
  datatype LookupRequest = LookupRequest(messageId: string, contentIds: seq<string>)

  /** The enrichment frame the relay emits for an observed message id and id
      list, if any. */
  function Enrichment(messageId: string, ids: seq<string>, lookup: LookupRequest -> Lookup, stringify: Outgoing -> string): seq<string> {
    if messageId != "" && |ids| > 0 then
      match lookup(LookupRequest(messageId, ids))
      case LookupFailed => []
      case LookupReturned(metas) => [EncodeSSE(stringify(ContentMetadatasEvent(metas.GetOr([]))))]
    else []
  }

  /** The comment the relay opens every stream with. */
  const StreamStart: string := "stream-start"
  /** The comment the relay closes a cleanly ended stream with. */
  const StreamEnd: string := "stream-end"
  /** The comment the heartbeat sends every 15 seconds. */
  const KeepAlive: string := "keep-alive"

  /** None of the relay's comments spans two lines. */
  lemma CommentsOneLine()
    ensures '\n' !in StreamStart && '\n' !in StreamEnd && '\n' !in KeepAlive
  {
  }

  /** The pieces the relay enqueues, in order, before it closes the stream. */
  function RelayOutput(upstream: Upstream, lookup: LookupRequest -> Lookup, parse: string -> Option<Json>, stringify: Outgoing -> string): seq<string> {
    [EncodeComment(StreamStart)] +
    match upstream
    case Unreachable(message) => [EncodeSSE(stringify(ErrorBody(message)))]
    case Rejected(status, body) => [EncodeSSE(stringify(ErrorBody(UpstreamErrorText(status, body))))]
    case Streamed(chunks, readError) => chunks + StreamedTail(chunks, readError, lookup, parse, stringify)
  }

  /** What follows the forwarded chunks: an error frame after a read error,
      otherwise the enrichment, if any, and the end comment. */
  function StreamedTail(chunks: seq<string>, readError: Option<string>, lookup: LookupRequest -> Lookup,
                        parse: string -> Option<Json>, stringify: Outgoing -> string): seq<string> {
    match readError
    case Some(message) => [EncodeSSE(stringify(ErrorBody(message)))]
    case None =>
      Enrichment(ObservedMessageId(chunks, parse), ObservedIds(chunks, parse), lookup, stringify)
      + [EncodeComment(StreamEnd)]
  }

  /** The lookups the relay makes after reading `chunks` to the end. */
  function Lookups(chunks: seq<string>, readError: Option<string>, parse: string -> Option<Json>): seq<LookupRequest> {
    if readError.None? && ObservedMessageId(chunks, parse) != "" && |ObservedIds(chunks, parse)| > 0
    then [LookupRequest(ObservedMessageId(chunks, parse), ObservedIds(chunks, parse))]
    else []
  }

  /** The `ReadableStream` controller, as far as the relay uses it. */
  class Controller {
    var enqueued: seq<string>
    var closed: bool

    constructor ()
      ensures enqueued == [] && !closed
    {
      enqueued := [];
      closed := false;
    }

    /** `controller.enqueue(piece)`; enqueueing into a closed stream throws. */
    method Enqueue(piece: string)
      requires !closed
      modifies this
      ensures enqueued == old(enqueued) + [piece] && !closed
    {
      enqueued := enqueued + [piece];
    }

    method Close()
      requires !closed
      modifies this
      ensures closed && enqueued == old(enqueued)
    {
      closed := true;
    }
  }

  lemma PrefixStep(chunks: seq<string>, i: nat)
    requires i < |chunks|
    ensures chunks[..i + 1] == chunks[..i] + [chunks[i]]
  {
  }

  /** The read loop of the relay (route.ts lines 120-133): every chunk is
      enqueued as it is, and fed to a fresh observer, which ends up in the state
      that observing the concatenated chunks gives. */
  method ForwardChunks(controller: Controller, chunks: seq<string>, parse: string -> Option<Json>)
      returns (observer: StreamObserver)
    requires !controller.closed
    modifies controller
    ensures fresh(observer) && observer.Valid() && !controller.closed
    ensures controller.enqueued == old(controller.enqueued) + chunks
    ensures observer.buffer == Feed("", chunks).1
    ensures observer.messageId == ObservedMessageId(chunks, parse)
    ensures observer.contentIds == ObservedIds(chunks, parse)
  {
    observer := new StreamObserver();
    assert chunks[..0] == [];
    var i := 0;
    while i < |chunks|
      invariant 0 <= i <= |chunks|
      invariant !controller.closed && observer.Valid()
      invariant controller.enqueued == old(controller.enqueued) + chunks[..i]
      invariant observer.buffer == Feed("", chunks[..i]).1
      invariant observer.messageId == ObservedMessageId(chunks[..i], parse)
      invariant observer.contentIds == ObservedIds(chunks[..i], parse)
    {
      controller.Enqueue(chunks[i]);
      observer.ObserveChunk(chunks[i], parse);
      ObservedStep(chunks, i, parse);
      PrefixStep(chunks, i);
      i := i + 1;
    }
    assert chunks[..i] == chunks;
  }

  /** The enrichment step after a clean end of stream (route.ts lines 135-148):
      the lookup is made only with a message id and a non-empty id list, and its
      reply, when there is one, is enqueued as one data frame. */
  method Enrich(controller: Controller, messageId: string, ids: seq<string>,
                lookup: LookupRequest -> Lookup, stringify: Outgoing -> string)
      returns (lookups: seq<LookupRequest>)
    requires !controller.closed
    modifies controller
    ensures !controller.closed
    ensures controller.enqueued == old(controller.enqueued) + Enrichment(messageId, ids, lookup, stringify)
    ensures lookups == if messageId != "" && |ids| > 0 then [LookupRequest(messageId, ids)] else []
  {
    lookups := [];
    if messageId != "" && |ids| > 0 {
      var request := LookupRequest(messageId, ids);
      lookups := [request];
      var reply := lookup(request);
      if reply.LookupReturned? {
        var metas := reply.contentMetadatas.GetOr([]);
        controller.Enqueue(EncodeSSE(stringify(ContentMetadatasEvent(metas))));
      }
    }
  }

  /** The relay of a readable upstream body (route.ts lines 118-152): the chunks,
      then the tail, then the stream is closed. */
  method RelayStreamed(controller: Controller, chunks: seq<string>, readError: Option<string>,
                       lookup: LookupRequest -> Lookup, parse: string -> Option<Json>, stringify: Outgoing -> string)
      returns (lookups: seq<LookupRequest>)
    requires !controller.closed
    modifies controller
    ensures controller.closed
    ensures controller.enqueued == old(controller.enqueued) + chunks + StreamedTail(chunks, readError, lookup, parse, stringify)
    ensures lookups == Lookups(chunks, readError, parse)
  {
    var observer := ForwardChunks(controller, chunks, parse);
    lookups := [];
    if readError.Some? {
      controller.Enqueue(EncodeSSE(stringify(ErrorBody(readError.value))));
    } else {
      lookups := Enrich(controller, observer.messageId, observer.contentIds, lookup, stringify);
      controller.Enqueue(EncodeComment(StreamEnd));
    }
    controller.Close();
  }

  /** The `start` callback of the relay's stream (route.ts lines 40-161): what is
      enqueued, whether the heartbeat was started, and the enrichment lookups
      made. */
  method StreamResponse(controller: Controller, upstream: Upstream, lookup: LookupRequest -> Lookup,
                        parse: string -> Option<Json>, stringify: Outgoing -> string)
      returns (heartbeatStarted: bool, lookups: seq<LookupRequest>)
    requires controller.enqueued == [] && !controller.closed
    modifies controller
    ensures controller.closed
    ensures controller.enqueued == RelayOutput(upstream, lookup, parse, stringify)
    ensures heartbeatStarted <==> upstream.Streamed?
    ensures lookups == if upstream.Streamed? then Lookups(upstream.chunks, upstream.readError, parse) else []
  {
    controller.Enqueue(EncodeComment(StreamStart));
    heartbeatStarted := false;
    lookups := [];
    ghost var start := [EncodeComment(StreamStart)];
    assert controller.enqueued == start;
    match upstream {
      case Unreachable(message) =>
        SendError(controller, message, stringify);
        assert RelayOutput(upstream, lookup, parse, stringify) == start + [EncodeSSE(stringify(ErrorBody(message)))];
      case Rejected(status, body) =>
        SendError(controller, UpstreamErrorText(status, body), stringify);
        assert RelayOutput(upstream, lookup, parse, stringify) ==
          start + [EncodeSSE(stringify(ErrorBody(UpstreamErrorText(status, body))))];
      case Streamed(chunks, readError) =>
        heartbeatStarted := true;
        lookups := RelayStreamed(controller, chunks, readError, lookup, parse, stringify);
        ghost var tail := StreamedTail(chunks, readError, lookup, parse, stringify);
        SeqAssoc(start, chunks, tail);
        assert RelayOutput(upstream, lookup, parse, stringify) == start + (chunks + tail);
    }
  }

  /** The error frame, then the stream is closed. */
  method SendError(controller: Controller, message: string, stringify: Outgoing -> string)
    requires !controller.closed
    modifies controller
    ensures controller.closed
    ensures controller.enqueued == old(controller.enqueued) + [EncodeSSE(stringify(ErrorBody(message)))]
  {
    controller.Enqueue(EncodeSSE(stringify(ErrorBody(message))));
    controller.Close();
  }

  /** The upstream chunks are forwarded unchanged and in order, right after the
      start comment. */
  lemma ChunksForwarded(upstream: Upstream, lookup: LookupRequest -> Lookup, parse: string -> Option<Json>, stringify: Outgoing -> string)
    requires upstream.Streamed?
    ensures var out := RelayOutput(upstream, lookup, parse, stringify);
      |out| >= 1 + |upstream.chunks| && out[1..1 + |upstream.chunks|] == upstream.chunks
  {
  }

  /** One entry of the request's `messages`. */
  datatype ChatTurn = ChatTurn(role: string, content: string)

  datatype PostReply =
    | JsonReply(status: nat, error: string)
    | StreamReply

  const NoMessages := "No messages provided"
  const NoApiKey := "API key not configured. Please set CONTEXTUAL_API_KEY in .env.local"
  const NoAgentId := "Agent ID not configured. Please set CONTEXTUAL_AGENT_ID in .env.local"
  const InternalError := "Internal server error"

  /** `POST` up to the point where the response is built (route.ts lines 9-35,
      175-181). `body` is the request body as `request.json()` yields it: None
      when it does not parse (or is `null`), otherwise its `messages` field, None
      when missing. `apiKey` and `agentId` are the environment values, empty when
      unset. */
  function Post(body: Option<Option<seq<ChatTurn>>>, apiKey: string, agentId: string): PostReply {
    if body.None? then JsonReply(500, InternalError)
    else if body.value.None? || |body.value.value| == 0 then JsonReply(400, NoMessages)
    else if apiKey == "" then JsonReply(500, NoApiKey)
    else if agentId == "" then JsonReply(500, NoAgentId)
    else StreamReply
  }

  /** A missing or empty message list is refused with status 400, whatever the
      configuration, and the stream is only opened for a non-empty list on a
      configured server. */
  lemma PostValidation(body: Option<Option<seq<ChatTurn>>>, apiKey: string, agentId: string)
    ensures Post(body, apiKey, agentId).JsonReply? && Post(body, apiKey, agentId).status == 400
      <==> body.Some? && (body.value.None? || |body.value.value| == 0)
    ensures Post(body, apiKey, agentId) == StreamReply
      <==> body.Some? && body.value.Some? && |body.value.value| > 0 && apiKey != "" && agentId != ""
  {
  }
}
