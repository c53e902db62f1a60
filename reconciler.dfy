/** The chat page's `handleSubmit` (page.tsx lines 168-485): it appends the
    user's message, reads the relay's event stream, and reconciles the events
    into at most one assistant message, whose index it captures on the first
    text delta. React's state setters are taken to run their updaters at once,
    so the `-1` marker of the first delta is never seen; `fetch`, the stream
    reader and `JSON.parse` are parameters. */
module Reconciler {
  import opened Text
  import opened Json
  import opened EventStream
  import opened Merge

  datatype Role = User | Assistant

  /** A chat message; the optional fields are absent from user messages and
      from the apology. */
  datatype Message = Message(role: Role, content: string,
                             retrievalContents: Option<seq<RetrievalContent>>,
                             detailedRetrievals: Option<seq<Detailed>>,
                             messageId: Option<string>)

  function UserMessage(text: string): Message {
    Message(User, text, None, None, None)
  }

  const FallbackText := "Sorry, something went wrong. Please try again."

  /** The message the `catch` block appends. */
  function FallbackMessage(): Message {
    Message(Assistant, FallbackText, None, None, None)
  }

  /** The page state `handleSubmit` reads and writes: the message list, the
      input box, the loading flag and the two refs. */
  datatype Page = Page(messages: seq<Message>, input: string, isLoading: bool,
                       assistantIndex: Option<nat>, lastRendered: string)

  /** The locals of `handleSubmit` that the events update. */
  datatype Locals = Locals(streamed: string, retrievals: seq<RetrievalContent>, messageId: string)

  /** The state after some events: the page, the locals, and whether an
      exception has been thrown (which ends the reading). */
  datatype Reception = Reception(page: Page, locals: Locals, thrown: bool)

  /** The locals as `handleSubmit` sets them up before reading. */
  const Fresh := Locals("", [], "")

  /** An event on which `handleSubmit` throws: `null` (reading `.event` of it
      fails) and the `error` event. */
  predicate Throws(e: Json) {
    e.JsonNull? || e.event == "error"
  }

  /** A non-empty `message_delta` (page.tsx lines 270-329): the text grows; the
      first one appends the assistant message and captures its index, a later
      one rewrites that message when the text has outgrown what was last
      rendered, lengths being JavaScript's UTF-16 code unit counts. */
  function OnDelta(p: Page, l: Locals, delta: string): Reception {
    var streamed := l.streamed + delta;
    var next := l.(streamed := streamed);
    if p.assistantIndex.None? then
      var shown := Message(Assistant, streamed, Some(l.retrievals), Some(Placeholders(l.retrievals)), Some(l.messageId));
      Reception(p.(isLoading := false, lastRendered := streamed, assistantIndex := Some(|p.messages|),
                   messages := p.messages + [shown]), next, false)
    else if Utf16Length(streamed) <= Utf16Length(p.lastRendered) || streamed == p.lastRendered then
      Reception(p, next, false)
    else
      var idx := p.assistantIndex.value;
      var rendered := p.(lastRendered := streamed);
      if idx >= |p.messages| || p.messages[idx].content == streamed then
        Reception(rendered, next, false)
      else
        var m := p.messages[idx].(content := streamed, retrievalContents := Some(l.retrievals), messageId := Some(l.messageId));
        Reception(rendered.(messages := p.messages[idx := m]), next, false)
  }

  /** A `content_metadatas` event (page.tsx lines 339-371): the merge is written
      into the captured message, and dropped when there is none yet. */
  function OnMetadatas(p: Page, l: Locals, metas: seq<ContentMetadata>): Page {
    if p.assistantIndex.Some? && p.assistantIndex.value < |p.messages| then
      var idx := p.assistantIndex.value;
      var m := p.messages[idx].(detailedRetrievals := Some(Merged(l.retrievals, metas)),
                                retrievalContents := Some(l.retrievals), messageId := Some(l.messageId));
      p.(messages := p.messages[idx := m])
    else p
  }

  /** The `switch (evt.event)` of page.tsx lines 256-379, for one parsed event. */
  function Dispatch(r: Reception, e: Json): Reception {
    if r.thrown then r
    else match e
      case JsonNull => r.(thrown := true)
      case JsonObject(event, data) =>
        if event == "metadata" then
          if data.messageId != "" then r.(locals := r.locals.(messageId := data.messageId)) else r
        else if event == "retrievals" then
          if data.contents.Some? then r.(locals := r.locals.(retrievals := data.contents.value)) else r
        else if event == "message_delta" then
          if data.delta != "" then OnDelta(r.page, r.locals, data.delta) else r
        else if event == "message_complete" then
          if data.finalMessage != "" then r.(locals := r.locals.(streamed := data.finalMessage)) else r
        else if event == "content_metadatas" then
          r.(page := OnMetadatas(r.page, r.locals, data.contentMetadatas.GetOr([])))
        else if event == "error" then r.(thrown := true)
        else r
  }

  /** The events handled one after another. */
  function Receive(r: Reception, events: seq<Json>): Reception {
    if events == [] then r else Dispatch(Receive(r, events[..|events| - 1]), events[|events| - 1])
  }

  /** `content_id` of each retrieval, the empty ones filtered out: every id sent
      is non-empty and comes from a retrieval, every non-empty id is sent, and
      so the list is empty exactly when no retrieval has an id. Order and
      repetitions are those of the retrievals (`ContentIdListAppend`). */
  function ContentIdList(rs: seq<RetrievalContent>): (ids: seq<string>)
    ensures |ids| <= |rs|
    ensures forall id <- ids :: id != "" && exists c <- rs :: c.contentId == id
    ensures forall c <- rs :: c.contentId != "" ==> c.contentId in ids
    ensures |ids| == 0 <==> forall c <- rs :: c.contentId == ""
  {
    if rs == [] then []
    else
      var init := ContentIdList(rs[..|rs| - 1]);
      assert forall c <- rs[..|rs| - 1] :: c in rs;
      assert forall c <- rs :: c in rs[..|rs| - 1] || c == rs[|rs| - 1];
      var last := rs[|rs| - 1].contentId;
      if last != "" then init + [last] else init
  }

  /** The ids of two runs of retrievals are the ids of the first run followed
      by those of the second: the list keeps the retrievals' order and sends a
      repeated id once per retrieval. */
  lemma {:induction false} ContentIdListAppend(a: seq<RetrievalContent>, b: seq<RetrievalContent>)
    ensures ContentIdList(a + b) == ContentIdList(a) + ContentIdList(b)
    decreases |b|
  {
    if b == [] {
      assert a + b == a;
    } else {
      assert (a + b)[..|a + b| - 1] == a + b[..|b| - 1];
      ContentIdListAppend(a, b[..|b| - 1]);
    }
  }

  /** One retrieval contributes its id, or nothing when the id is empty. */
  lemma ContentIdListOne(c: RetrievalContent)
    ensures ContentIdList([c]) == if c.contentId != "" then [c.contentId] else []
  {
    assert [c][..0] == [];
  }

  /** A `/api/retrieval-info` request: the message id and the content ids. */
  datatype InfoRequest = InfoRequest(messageId: string, contentIds: seq<string>)

  /** Its outcome: a failure (network error, non-ok status, bad JSON), or the
      reply's `contentMetadatas`, which may be missing. */
  datatype InfoReply = InfoFailed | InfoOk(contentMetadatas: Option<seq<ContentMetadata>>)

  /** The detail fetched after the stream (page.tsx lines 384-431): the merge with
      the reply's metadata, or nothing. */
  function FetchedDetail(l: Locals, info: InfoRequest -> InfoReply): seq<Detailed> {
    if l.messageId != "" && |l.retrievals| > 0 then
      var ids := ContentIdList(l.retrievals);
      if |ids| > 0 then
        match info(InfoRequest(l.messageId, ids))
        case InfoFailed => []
        case InfoOk(metas) => Merged(l.retrievals, metas.GetOr([]))
      else []
    else []
  }

  /** The detail written by the final write: the fetched one, or placeholders
      when nothing was fetched. */
  function FinalDetail(l: Locals, info: InfoRequest -> InfoReply): seq<Detailed> {
    var fetched := FetchedDetail(l, info);
    if |fetched| == 0 then Placeholders(l.retrievals) else fetched
  }

  /** The final `setMessages` (page.tsx lines 441-472). */
  function FinalWrite(p: Page, l: Locals, detail: seq<Detailed>): Page {
    match p.assistantIndex
    case None =>
      var m := Message(Assistant, l.streamed, Some(l.retrievals), Some(detail), Some(l.messageId));
      p.(assistantIndex := Some(|p.messages|), lastRendered := l.streamed, messages := p.messages + [m])
    case Some(idx) =>
      if idx >= |p.messages| || p.messages[idx].content == l.streamed then p
      else
        var m := p.messages[idx].(content := l.streamed, retrievalContents := Some(l.retrievals),
                                  detailedRetrievals := Some(detail), messageId := Some(l.messageId));
        p.(lastRendered := l.streamed, messages := p.messages[idx := m])
  }

  /** A stream read to its end without an exception. */
  function Finish(p: Page, l: Locals, info: InfoRequest -> InfoReply): Page {
    FinalWrite(p.(isLoading := false), l, FinalDetail(l, info))
  }

  /** The `catch` and `finally` blocks: the apology is appended. */
  function Fail(p: Page): Page {
    p.(messages := p.messages + [FallbackMessage()], isLoading := false)
  }

  /** `!input.trim() || isLoading`: the submission is ignored. The trimmed input
      is empty exactly when its `trimStart()` is. */
  predicate Ignored(p: Page) {
    TrimStart(p.input) == [] || p.isLoading
  }

  /** The page as `handleSubmit` leaves it before the request is sent. */
  function Start(p: Page): Page {
    p.(messages := p.messages + [UserMessage(p.input)], input := "", isLoading := true,
       assistantIndex := None, lastRendered := "")
  }

  /** What `fetch('/api/chat')` gives: a failure or a non-ok status, or the chunks
      read from the body, followed by a read error or by the end. */
  datatype Response = NetworkError | Body(chunks: seq<string>, readError: bool)

  /** The page after `handleSubmit` has run to its end. */
  function Submitted(p: Page, response: Response, parse: string -> Option<Json>, info: InfoRequest -> InfoReply): Page {
    if Ignored(p) then p
    else
      var s := Start(p);
      match response
      case NetworkError => Fail(s)
      case Body(chunks, readError) =>
        var r := Receive(Reception(s, Fresh, false), EventsOf(Feed("", chunks).0, parse));
        if r.thrown || readError then Fail(r.page) else Finish(r.page, r.locals, info)
  }

  /** The chat page's state, updated in place as `handleSubmit` runs. */
  class ChatPage {
    var messages: seq<Message>
    var input: string
    var isLoading: bool
    var assistantIndex: Option<nat>
    var lastRendered: string

    function View(): Page
      reads this
    {
      Page(messages, input, isLoading, assistantIndex, lastRendered)
    }

    constructor ()
      ensures View() == Page([], "", false, None, "")
    {
      messages := [];
      input := "";
      isLoading := false;
      assistantIndex := None;
      lastRendered := "";
    }

    /** A non-empty text delta. */
    method RenderDelta(l: Locals, delta: string) returns (next: Locals)
      modifies this
      ensures Reception(View(), next, false) == OnDelta(old(View()), l, delta)
    {
      var streamed := l.streamed + delta;
      next := l.(streamed := streamed);
      if assistantIndex.None? {
        isLoading := false;
        lastRendered := streamed;
        var placeholders := Placeholders(l.retrievals);
        assistantIndex := Some(|messages|);
        messages := messages + [Message(Assistant, streamed, Some(l.retrievals), Some(placeholders), Some(l.messageId))];
      } else if Utf16Length(streamed) <= Utf16Length(lastRendered) || streamed == lastRendered {
      } else {
        lastRendered := streamed;
        var idx := assistantIndex.value;
        if idx < |messages| && messages[idx].content != streamed {
          messages := messages[idx := messages[idx].(content := streamed, retrievalContents := Some(l.retrievals),
                                                     messageId := Some(l.messageId))];
        }
      }
    }

    /** A `content_metadatas` event. */
    method AttachMetadatas(l: Locals, metas: seq<ContentMetadata>)
      modifies this
      ensures View() == OnMetadatas(old(View()), l, metas)
    {
      var merged := MergeMetadata(l.retrievals, metas);
      if assistantIndex.Some? && assistantIndex.value < |messages| {
        var idx := assistantIndex.value;
        messages := messages[idx := messages[idx].(detailedRetrievals := Some(merged),
                                                   retrievalContents := Some(l.retrievals), messageId := Some(l.messageId))];
      }
    }

    /** One parsed event; `thrown` reports the exception that ends the reading. */
    method HandleEvent(l: Locals, e: Json) returns (next: Locals, thrown: bool)
      modifies this
      ensures Reception(View(), next, thrown) == Dispatch(Reception(old(View()), l, false), e)
    {
      next, thrown := l, false;
      if e.JsonNull? {
        thrown := true;
      } else if e.event == "metadata" {
        if e.data.messageId != "" {
          next := l.(messageId := e.data.messageId);
        }
      } else if e.event == "retrievals" {
        if e.data.contents.Some? {
          next := l.(retrievals := e.data.contents.value);
        }
      } else if e.event == "message_delta" {
        if e.data.delta != "" {
          next := RenderDelta(l, e.data.delta);
        }
      } else if e.event == "message_complete" {
        if e.data.finalMessage != "" {
          next := l.(streamed := e.data.finalMessage);
        }
      } else if e.event == "content_metadatas" {
        AttachMetadatas(l, e.data.contentMetadatas.GetOr([]));
      } else if e.event == "error" {
        thrown := true;
      }
    }

    /** The frames cut from one chunk, decoded, parsed and handled in order until
        one throws. */
    method HandleFrames(l: Locals, frames: seq<string>, parse: string -> Option<Json>) returns (next: Locals, thrown: bool)
      modifies this
      ensures Reception(View(), next, thrown) == Receive(Reception(old(View()), l, false), EventsOf(frames, parse))
    {
      ghost var start := Reception(View(), l, false);
      next, thrown := l, false;
      var i := 0;
      assert frames[..0] == [];
      while i < |frames|
        invariant 0 <= i <= |frames|
        invariant Reception(View(), next, thrown) == Receive(start, EventsOf(frames[..i], parse))
        invariant thrown ==> Receive(start, EventsOf(frames, parse)) == Receive(start, EventsOf(frames[..i], parse))
      {
        if thrown {
          break;
        }
        ghost var before := Reception(View(), next, false);
        FrameStep(start, frames, i, parse);
        var payload := DecodeFrame(frames[i]);
        var evt := if payload.Some? then parse(payload.value) else None;
        assert evt == FrameEvent(frames[i], parse);
        if evt.Some? {
          next, thrown := HandleEvent(next, evt.value);
          assert Reception(View(), next, thrown) == Dispatch(before, evt.value);
        }
        if thrown {
          ReceivePrefixThrown(start, frames, i + 1, parse);
        }
        i := i + 1;
      }
      if !thrown {
        assert frames[..i] == frames;
      }
    }

    /** The read loop (page.tsx lines 210-381): each chunk is added to the buffer,
        the frames it completes are handled, and an exception ends the loop. */
    method ReadStream(chunks: seq<string>, parse: string -> Option<Json>) returns (l: Locals, thrown: bool)
      modifies this
      ensures Reception(View(), l, thrown) == Receive(Reception(old(View()), Fresh, false), EventsOf(Feed("", chunks).0, parse))
    {
      ghost var start := Reception(View(), Fresh, false);
      var buffer := "";
      l, thrown := Fresh, false;
      var i := 0;
      assert chunks[..0] == [];
      while i < |chunks|
        invariant 0 <= i <= |chunks|
        invariant buffer == Feed("", chunks[..i]).1
        invariant Reception(View(), l, thrown) == Receive(start, EventsOf(Feed("", chunks[..i]).0, parse))
        invariant thrown ==> Receive(start, EventsOf(Feed("", chunks).0, parse)) == Reception(View(), l, thrown)
      {
        if thrown {
          break;
        }
        var frames, rest := PushChunk(buffer, chunks[i]);
        ChunkStep(start, chunks, i, parse);
        buffer := rest;
        l, thrown := HandleFrames(l, frames, parse);
        i := i + 1;
      }
      if !thrown {
        assert chunks[..i] == chunks;
      }
    }

    /** `handleSubmit`. */
    method Submit(response: Response, parse: string -> Option<Json>, info: InfoRequest -> InfoReply)
      modifies this
      ensures View() == Submitted(old(View()), response, parse, info)
    {
      if TrimStart(input) == [] || isLoading {
        return;
      }
      ghost var before := View();
      Begin();
      match response {
        case NetworkError =>
          Apologize();
        case Body(chunks, readError) =>
          SubmittedStream(before, chunks, readError, parse, info);
          ReadBody(chunks, readError, parse, info);
      }
    }

    /** The `try` block from the request on: the stream is read, then either
        the apology or the final write. */
    method ReadBody(chunks: seq<string>, readError: bool, parse: string -> Option<Json>, info: InfoRequest -> InfoReply)
      modifies this
      ensures var r := Receive(Reception(old(View()), Fresh, false), EventsOf(Feed("", chunks).0, parse));
        View() == if r.thrown || readError then Fail(r.page) else Finish(r.page, r.locals, info)
    {
      var l, thrown := ReadStream(chunks, parse);
      if thrown || readError {
        Apologize();
      } else {
        isLoading := false;
        var detail := FinalDetail(l, info);
        FinalizeMessage(l, detail);
      }
    }

    /** The `catch` and `finally` blocks. */
    method Apologize()
      modifies this
      ensures View() == Fail(old(View()))
    {
      messages := messages + [FallbackMessage()];
      isLoading := false;
    }

    /** The user's message is appended, the input cleared and loading begins. */
    method Begin()
      modifies this
      ensures View() == Start(old(View()))
    {
      messages := messages + [UserMessage(input)];
      input := "";
      isLoading := true;
      assistantIndex := None;
      lastRendered := "";
    }

    /** The final `setMessages`. */
    method FinalizeMessage(l: Locals, detail: seq<Detailed>)
      modifies this
      ensures View() == FinalWrite(old(View()), l, detail)
    {
      if assistantIndex.None? {
        assistantIndex := Some(|messages|);
        lastRendered := l.streamed;
        messages := messages + [Message(Assistant, l.streamed, Some(l.retrievals), Some(detail), Some(l.messageId))];
      } else {
        var idx := assistantIndex.value;
        if idx < |messages| && messages[idx].content != l.streamed {
          lastRendered := l.streamed;
          messages := messages[idx := messages[idx].(content := l.streamed, retrievalContents := Some(l.retrievals),
                                                     detailedRetrievals := Some(detail), messageId := Some(l.messageId))];
        }
      }
    }
  }

  /** The frames after one more chunk. */
  lemma FeedStep(chunks: seq<string>, i: nat)
    requires i < |chunks|
    ensures var prev := Feed("", chunks[..i]);
      var step := SplitAll(NormalizeNewlines(prev.1 + chunks[i]));
      Feed("", chunks[..i + 1]) == (prev.0 + step.0, step.1)
  {
    assert chunks[..i + 1][..i] == chunks[..i];
  }

  /** One more chunk: its frames are handled after those of the chunks before
      it, and an exception among them decides the result of the whole stream. */
  lemma ChunkStep(start: Reception, chunks: seq<string>, i: nat, parse: string -> Option<Json>)
    requires i < |chunks|
    ensures var prev := Feed("", chunks[..i]);
      var step := SplitAll(NormalizeNewlines(prev.1 + chunks[i]));
      var after := Receive(Receive(start, EventsOf(prev.0, parse)), EventsOf(step.0, parse));
      && Feed("", chunks[..i + 1]).1 == step.1
      && Receive(start, EventsOf(Feed("", chunks[..i + 1]).0, parse)) == after
      && (after.thrown ==> Receive(start, EventsOf(Feed("", chunks).0, parse)) == after)
  {
    var prev := Feed("", chunks[..i]);
    var step := SplitAll(NormalizeNewlines(prev.1 + chunks[i]));
    FeedStep(chunks, i);
    EventsOfAppend(prev.0, step.0, parse);
    ReceiveAppend(start, EventsOf(prev.0, parse), EventsOf(step.0, parse));
    var after := Receive(start, EventsOf(Feed("", chunks[..i + 1]).0, parse));
    if after.thrown {
      FeedPrefix("", chunks, i + 1);
      ReceiveFramesThrown(start, Feed("", chunks[..i + 1]).0, Feed("", chunks).0, parse);
    }
  }

  /** Handling events in two runs is handling them in one. */
  lemma {:induction false} ReceiveAppend(r: Reception, a: seq<Json>, b: seq<Json>)
    ensures Receive(r, a + b) == Receive(Receive(r, a), b)
    decreases |b|
  {
    if b == [] {
      assert a + b == a;
    } else {
      var init := b[..|b| - 1];
      assert (a + b)[..|a + b| - 1] == a + init;
      ReceiveAppend(r, a, init);
    }
  }

  /** Handling one more frame: its event, if it has one, is dispatched. */
  lemma FrameStep(r: Reception, frames: seq<string>, i: nat, parse: string -> Option<Json>)
    requires i < |frames|
    ensures var before := Receive(r, EventsOf(frames[..i], parse));
      Receive(r, EventsOf(frames[..i + 1], parse)) ==
        match FrameEvent(frames[i], parse)
        case None => before
        case Some(e) => Dispatch(before, e)
  {
    EventsOfStep(frames, i, parse);
    var seen := EventsOf(frames[..i], parse);
    var e := FrameEvent(frames[i], parse);
    if e.Some? {
      var all := seen + [e.value];
      assert all[..|all| - 1] == seen && all[|all| - 1] == e.value;
      assert Receive(r, all) == Dispatch(Receive(r, seen), e.value);
    } else {
      assert EventsOf(frames[..i + 1], parse) == seen;
    }
  }

  /** Once an exception is thrown, later events change nothing. */
  lemma {:induction false} ReceiveThrown(r: Reception, events: seq<Json>)
    requires r.thrown
    ensures Receive(r, events) == r
  {
    if events != [] {
      ReceiveThrown(r, events[..|events| - 1]);
    }
  }

  lemma ReceivePrefixThrown(r: Reception, frames: seq<string>, n: nat, parse: string -> Option<Json>)
    requires n <= |frames| && Receive(r, EventsOf(frames[..n], parse)).thrown
    ensures Receive(r, EventsOf(frames, parse)) == Receive(r, EventsOf(frames[..n], parse))
  {
    ReceiveFramesThrown(r, frames[..n], frames, parse);
  }

  lemma ReceiveFramesThrown(r: Reception, a: seq<string>, b: seq<string>, parse: string -> Option<Json>)
    requires a <= b && Receive(r, EventsOf(a, parse)).thrown
    ensures Receive(r, EventsOf(b, parse)) == Receive(r, EventsOf(a, parse))
  {
    assert b == a + b[|a|..];
    EventsOfAppend(a, b[|a|..], parse);
    ReceiveAppend(r, EventsOf(a, parse), EventsOf(b[|a|..], parse));
    ReceiveThrown(Receive(r, EventsOf(a, parse)), EventsOf(b[|a|..], parse));
  }

  /** The reading ends in an exception exactly when one of the events throws. */
  lemma {:induction false} ReceiveThrowsIff(r: Reception, events: seq<Json>)
    ensures Receive(r, events).thrown <==> r.thrown || exists e <- events :: Throws(e)
  {
    if events != [] {
      var init := events[..|events| - 1];
      var e := events[|events| - 1];
      ReceiveThrowsIff(r, init);
      assert events == init + [e];
      DispatchThrows(Receive(r, init), e);
    }
  }

  lemma DispatchThrows(r: Reception, e: Json)
    ensures Dispatch(r, e).thrown <==> r.thrown || Throws(e)
  {
  }

  /** The shape `handleSubmit` keeps while reading, for the messages `prefix`
      there were when reading started: at most one message after them, the
      assistant message at the captured index, showing the text last rendered;
      the page is loading until that message appears. */
  predicate Shaped(prefix: seq<Message>, p: Page) {
    && |p.messages| == |prefix| + (if p.assistantIndex.Some? then 1 else 0)
    && p.messages[..|prefix|] == prefix
    && p.input == ""
    && (p.assistantIndex.None? ==> p.isLoading && p.lastRendered == "")
    && (p.assistantIndex.Some? ==>
          && p.assistantIndex.value == |prefix| && !p.isLoading
          && p.messages[|prefix|].role == Assistant && p.messages[|prefix|].content == p.lastRendered)
  }

  /** The page as reading starts has that shape. */
  lemma StartShaped(p: Page)
    ensures Shaped(p.messages + [UserMessage(p.input)], Start(p))
  {
  }

  /** One event keeps the shape, and never shortens the rendered text. */
  lemma DispatchShaped(prefix: seq<Message>, r: Reception, e: Json)
    requires Shaped(prefix, r.page)
    ensures Shaped(prefix, Dispatch(r, e).page)
    ensures Utf16Length(Dispatch(r, e).page.lastRendered) >= Utf16Length(r.page.lastRendered)
  {
    var p := r.page;
    if !r.thrown && e.JsonObject? && e.event == "message_delta" && e.data.delta != "" {
      var q := OnDelta(p, r.locals, e.data.delta).page;
      if p.assistantIndex.None? {
        assert q.messages[..|prefix|] == p.messages[..|prefix|];
      } else if q.messages != p.messages {
        assert q.messages[..|prefix|] == p.messages[..|prefix|];
      }
    } else if !r.thrown && e.JsonObject? && e.event == "content_metadatas" {
      var q := OnMetadatas(p, r.locals, e.data.contentMetadatas.GetOr([]));
      if q.messages != p.messages {
        assert q.messages[..|prefix|] == p.messages[..|prefix|];
      }
    }
  }

  /** Every run of events keeps the shape, and the rendered text never gets
      shorter while the stream is read. */
  lemma {:induction false} ReceiveShaped(prefix: seq<Message>, r: Reception, events: seq<Json>)
    requires Shaped(prefix, r.page)
    ensures Shaped(prefix, Receive(r, events).page)
    ensures Utf16Length(Receive(r, events).page.lastRendered) >= Utf16Length(r.page.lastRendered)
  {
    if events != [] {
      var init := events[..|events| - 1];
      ReceiveShaped(prefix, r, init);
      DispatchShaped(prefix, Receive(r, init), events[|events| - 1]);
    }
  }

  /** An event that replaces the streamed text with the final message. */
  predicate Completes(e: Json) {
    e.JsonObject? && e.event == "message_complete" && e.data.finalMessage != ""
  }

  /** The text the `message_delta` events carry, in order. */
  function Deltas(events: seq<Json>): string {
    if events == [] then ""
    else
      var e := events[|events| - 1];
      Deltas(events[..|events| - 1]) + DeltaOf(e)
  }

  /** Without an exception or a final message, the streamed text is the deltas
      appended one after another. */
  lemma {:induction false} StreamedIsDeltas(r: Reception, events: seq<Json>)
    requires !r.thrown
    requires forall e <- events :: !Throws(e) && !Completes(e)
    ensures !Receive(r, events).thrown
    ensures Receive(r, events).locals.streamed == r.locals.streamed + Deltas(events)
  {
    if events == [] {
      assert r.locals.streamed + "" == r.locals.streamed;
    } else {
      var init := events[..|events| - 1];
      assert forall e <- init :: e in events;
      StreamedIsDeltas(r, init);
      var e := events[|events| - 1];
      assert e in events;
      DispatchDelta(Receive(r, init), e);
      SeqAssoc(r.locals.streamed, Deltas(init), DeltaOf(e));
    }
  }

  /** The text one event adds to the streamed text, when it is not a final message. */
  function DeltaOf(e: Json): string {
    if e.JsonObject? && e.event == "message_delta" then e.data.delta else ""
  }

  /** One event that neither throws nor completes adds its delta. */
  lemma DispatchDelta(r: Reception, e: Json)
    requires !r.thrown && !Throws(e) && !Completes(e)
    ensures !Dispatch(r, e).thrown && Dispatch(r, e).locals.streamed == r.locals.streamed + DeltaOf(e)
  {
    assert r.locals.streamed + "" == r.locals.streamed;
  }

  /** A final message replaces all the text streamed before it; only the deltas
      after it are added to it. */
  lemma StreamedAfterComplete(r: Reception, before: seq<Json>, e: Json, after: seq<Json>)
    requires !r.thrown && Completes(e)
    requires forall x <- before :: !Throws(x)
    requires forall x <- after :: !Throws(x) && !Completes(x)
    ensures Receive(r, before + [e] + after).locals.streamed == e.data.finalMessage + Deltas(after)
  {
    ReceiveAppend(r, before + [e], after);
    ReceiveThrowsIff(r, before);
    var mid := Receive(r, before + [e]);
    var all := before + [e];
    assert all[..|all| - 1] == before;
    assert mid.locals.streamed == e.data.finalMessage && !mid.thrown;
    StreamedIsDeltas(mid, after);
  }

  /** The first non-empty delta appends exactly one assistant message, at the
      end of the list, showing the text streamed so far, and captures its index. */
  lemma FirstDelta(r: Reception, data: EventData)
    requires !r.thrown && r.page.assistantIndex.None? && data.delta != ""
    ensures var q := Dispatch(r, JsonObject("message_delta", data)).page;
      var n := |r.page.messages|;
      && |q.messages| == n + 1 && q.messages[..n] == r.page.messages
      && q.messages[n].role == Assistant && q.messages[n].content == r.locals.streamed + data.delta
      && q.assistantIndex == Some(n) && q.lastRendered == r.locals.streamed + data.delta && !q.isLoading
  {
    var q := Dispatch(r, JsonObject("message_delta", data)).page;
    assert q.messages[..|r.page.messages|] == r.page.messages;
  }

  /** A later delta keeps the captured index and touches no other message; it
      rewrites the captured message only when the text has outgrown (in UTF-16
      code units) what was
      last rendered and the index is in range, and then with that text. */
  lemma LaterDelta(r: Reception, data: EventData)
    requires !r.thrown && r.page.assistantIndex.Some? && data.delta != ""
    ensures var q := Dispatch(r, JsonObject("message_delta", data)).page;
      var idx := r.page.assistantIndex.value;
      var text := r.locals.streamed + data.delta;
      && q.assistantIndex == r.page.assistantIndex
      && |q.messages| == |r.page.messages|
      && (forall j :: 0 <= j < |q.messages| && j != idx ==> q.messages[j] == r.page.messages[j])
      && (Utf16Length(text) <= Utf16Length(r.page.lastRendered) || idx >= |r.page.messages| ==> q.messages == r.page.messages)
      && (Utf16Length(text) > Utf16Length(r.page.lastRendered) && idx < |r.page.messages| ==>
            q.messages[idx].content == text && q.lastRendered == text)
  {
  }

  /** Lengths are compared in UTF-16 code units: two emoji on screen are four
      units, so a three-letter text that replaced them after a final message
      is not rendered by a delta. */
  lemma EmojiShownKeepsShorterText()
    ensures var shown := "\U{1F600}\U{1F600}";
      var p := Page([Message(Assistant, shown, None, None, None)], "", false, Some(0), shown);
      var r := OnDelta(p, Locals("ab", [], ""), "c");
      |"abc"| > |shown| && r.page == p && r.locals.streamed == "abc"
  {
    var shown := "\U{1F600}\U{1F600}";
    assert shown[..1] == "\U{1F600}" && shown[..1][..0] == [];
    assert "abc"[..2] == "ab" && "ab"[..1] == "a" && "a"[..0] == [];
    assert Utf16Length(shown) == 4;
    assert Utf16Length("abc") == 3;
  }

  /** A `retrievals` event with `contents` replaces the snapshot as a whole:
      after it, the snapshot is its contents until the next such event. */
  lemma RetrievalsReplaced(r: Reception, before: seq<Json>, data: EventData, after: seq<Json>)
    requires !r.thrown && data.contents.Some?
    requires forall x <- before :: !Throws(x)
    requires forall x <- after :: !SetsRetrievals(x)
    ensures Receive(r, before + [JsonObject("retrievals", data)] + after).locals.retrievals == data.contents.value
  {
    var e := JsonObject("retrievals", data);
    ReceiveAppend(r, before + [e], after);
    ReceiveAppend(r, before, [e]);
    ReceiveThrowsIff(r, before);
    assert [e][..0] == [];
    RetrievalsKept(Receive(r, before + [e]), after);
  }

  /** A `retrievals` event that carries `contents`. */
  predicate SetsRetrievals(e: Json) {
    e.JsonObject? && e.event == "retrievals" && e.data.contents.Some?
  }

  /** Events that set no snapshot leave it as it is. */
  lemma {:induction false} RetrievalsKept(r: Reception, events: seq<Json>)
    requires forall x <- events :: !SetsRetrievals(x)
    ensures Receive(r, events).locals.retrievals == r.locals.retrievals
    decreases |events|
  {
    if events != [] {
      var init := events[..|events| - 1];
      assert events[|events| - 1] in events;
      assert forall x <- init :: x in events;
      RetrievalsKept(r, init);
    }
  }

  /** A `content_metadatas` event before the first delta is dropped: nothing
      changes. */
  lemma MetadatasBeforeFirstDelta(r: Reception, data: EventData)
    requires r.page.assistantIndex.None?
    ensures Dispatch(r, JsonObject("content_metadatas", data)) == r
  {
  }

  /** After the first delta, a `content_metadatas` event puts the merge of the
      retrievals seen so far with its metadata into the assistant message, and
      changes nothing else: each entry stands for one retrieval, in order, and
      every image comes from the metadata. */
  lemma MetadatasAttach(prefix: seq<Message>, r: Reception, data: EventData)
    requires Shaped(prefix, r.page) && r.page.assistantIndex.Some? && !r.thrown
    ensures var q := Dispatch(r, JsonObject("content_metadatas", data));
      var metas := data.contentMetadatas.GetOr([]);
      var m := q.page.messages[|prefix|];
      && q.locals == r.locals && q.page.messages[..|prefix|] == prefix
      && |q.page.messages| == |prefix| + 1
      && m.content == r.page.messages[|prefix|].content
      && m.detailedRetrievals.Some? && |m.detailedRetrievals.value| == |r.locals.retrievals|
      && (forall i :: 0 <= i < |r.locals.retrievals| ==> m.detailedRetrievals.value[i].retrievalContent == r.locals.retrievals[i])
      && (forall d <- m.detailedRetrievals.value :: d.pageImg.Some? ==> exists x <- metas :: x.pageImg == d.pageImg.value)
  {
    var metas := data.contentMetadatas.GetOr([]);
    var merged := Merged(r.locals.retrievals, metas);
    var q := Dispatch(r, JsonObject("content_metadatas", data));
    assert q.page.messages[..|prefix|] == r.page.messages[..|prefix|];
    forall d <- merged | d.pageImg.Some? ensures exists x <- metas :: x.pageImg == d.pageImg.value {
      var i :| 0 <= i < |merged| && merged[i] == d;
    }
  }

  /** A blank input or a pending request leaves the page as it is; any other
      submission changes it. */
  lemma SubmitIgnoredIff(p: Page, response: Response, parse: string -> Option<Json>, info: InfoRequest -> InfoReply)
    ensures Submitted(p, response, parse, info) == p <==> Ignored(p)
  {
    if !Ignored(p) {
      var prefix := p.messages + [UserMessage(p.input)];
      StartShaped(p);
      if response.Body? {
        var r := Receive(Reception(Start(p), Fresh, false), EventsOf(Feed("", response.chunks).0, parse));
        ReceiveShaped(prefix, Reception(Start(p), Fresh, false), EventsOf(Feed("", response.chunks).0, parse));
        assert |r.page.messages| >= |prefix|;
      }
      assert |Submitted(p, response, parse, info).messages| > |p.messages|;
    }
  }

  /** A submission whose stream is read to its end without an exception adds
      exactly two messages: the user's, then one assistant message showing the
      final streamed text; the input is cleared and loading is over. */
  lemma SubmitSucceeds(p: Page, chunks: seq<string>, parse: string -> Option<Json>, info: InfoRequest -> InfoReply)
    requires !Ignored(p)
    requires forall e <- EventsOf(Feed("", chunks).0, parse) :: !Throws(e)
    ensures var q := Submitted(p, Body(chunks, false), parse, info);
      var r := Receive(Reception(Start(p), Fresh, false), EventsOf(Feed("", chunks).0, parse));
      && |q.messages| == |p.messages| + 2
      && q.messages[..|p.messages|] == p.messages
      && q.messages[|p.messages|] == UserMessage(p.input)
      && q.messages[|p.messages| + 1].role == Assistant
      && q.messages[|p.messages| + 1].content == r.locals.streamed
      && q.lastRendered == r.locals.streamed
      && !q.isLoading && q.input == ""
  {
    SubmittedStream(p, chunks, false, parse, info);
    ReceiveSucceeds(p, EventsOf(Feed("", chunks).0, parse), info);
  }

  /** The events of a stream that throws nothing, received and finished. */
  lemma ReceiveSucceeds(p: Page, events: seq<Json>, info: InfoRequest -> InfoReply)
    requires !Ignored(p)
    requires forall e <- events :: !Throws(e)
    ensures var r := Receive(Reception(Start(p), Fresh, false), events);
      var q := Finish(r.page, r.locals, info);
      && !r.thrown
      && |q.messages| == |p.messages| + 2
      && q.messages[..|p.messages|] == p.messages
      && q.messages[|p.messages|] == UserMessage(p.input)
      && q.messages[|p.messages| + 1].role == Assistant
      && q.messages[|p.messages| + 1].content == r.locals.streamed
      && q.lastRendered == r.locals.streamed
      && !q.isLoading && q.input == ""
  {
    var prefix := p.messages + [UserMessage(p.input)];
    var start := Reception(Start(p), Fresh, false);
    StartShaped(p);
    ReceiveShaped(prefix, start, events);
    ReceiveThrowsIff(start, events);
    var r := Receive(start, events);
    FinishShaped(prefix, r.page, r.locals, info);
    PrefixParts(Finish(r.page, r.locals, info).messages, p.messages, UserMessage(p.input));
  }

  /** A sequence that starts with `a + [u]` starts with `a`, then `u`. */
  lemma PrefixParts(s: seq<Message>, a: seq<Message>, u: Message)
    requires |s| > |a| && s[..|a| + 1] == a + [u]
    ensures s[..|a|] == a && s[|a|] == u
  {
    assert s[..|a|] == s[..|a| + 1][..|a|];
  }

  lemma SubmittedStream(p: Page, chunks: seq<string>, readError: bool, parse: string -> Option<Json>, info: InfoRequest -> InfoReply)
    requires !Ignored(p)
    ensures var r := Receive(Reception(Start(p), Fresh, false), EventsOf(Feed("", chunks).0, parse));
      Submitted(p, Body(chunks, readError), parse, info) ==
        if r.thrown || readError then Fail(r.page) else Finish(r.page, r.locals, info)
  {
  }

  /** The final write, on the shape reading leaves: the assistant message, now
      the only message after `prefix`, shows the final streamed text. */
  lemma FinishShaped(prefix: seq<Message>, p: Page, l: Locals, info: InfoRequest -> InfoReply)
    requires Shaped(prefix, p)
    ensures var q := Finish(p, l, info);
      && |q.messages| == |prefix| + 1 && q.messages[..|prefix|] == prefix
      && q.messages[|prefix|].role == Assistant && q.messages[|prefix|].content == l.streamed
      && q.lastRendered == l.streamed && !q.isLoading && q.input == ""
  {
    var q := Finish(p, l, info);
    assert q.messages[..|prefix|] == p.messages[..|prefix|];
  }

  /** With no final message, the assistant message shows the deltas of the
      stream, concatenated. */
  lemma SubmitShowsDeltas(p: Page, chunks: seq<string>, parse: string -> Option<Json>, info: InfoRequest -> InfoReply)
    requires !Ignored(p)
    requires forall e <- EventsOf(Feed("", chunks).0, parse) :: !Throws(e) && !Completes(e)
    ensures var q := Submitted(p, Body(chunks, false), parse, info);
      |q.messages| == |p.messages| + 2 && q.messages[|p.messages| + 1].content == Deltas(EventsOf(Feed("", chunks).0, parse))
  {
    var events := EventsOf(Feed("", chunks).0, parse);
    SubmitSucceeds(p, chunks, parse, info);
    StreamedIsDeltas(Reception(Start(p), Fresh, false), events);
    assert "" + Deltas(events) == Deltas(events);
  }

  /** A failed request, a read error or an event that throws ends with the
      apology as the last message, after the user's message and at most one
      assistant message; loading is over. */
  lemma SubmitFails(p: Page, response: Response, parse: string -> Option<Json>, info: InfoRequest -> InfoReply)
    requires !Ignored(p)
    requires response.NetworkError? || response.readError
      || exists e <- EventsOf(Feed("", response.chunks).0, parse) :: Throws(e)
    ensures var q := Submitted(p, response, parse, info);
      && |p.messages| + 2 <= |q.messages| <= |p.messages| + 3
      && q.messages[..|p.messages| + 1] == p.messages + [UserMessage(p.input)]
      && q.messages[|q.messages| - 1] == FallbackMessage()
      && !q.isLoading
  {
    var prefix := p.messages + [UserMessage(p.input)];
    StartShaped(p);
    if response.Body? {
      var events := EventsOf(Feed("", response.chunks).0, parse);
      var start := Reception(Start(p), Fresh, false);
      SubmittedStream(p, response.chunks, response.readError, parse, info);
      ReceiveShaped(prefix, start, events);
      ReceiveThrowsIff(start, events);
      FailShaped(prefix, Receive(start, events).page);
    } else {
      FailShaped(prefix, Start(p));
    }
  }

  /** The apology, on the shape reading leaves: it follows the prefix and at
      most one assistant message. */
  lemma FailShaped(prefix: seq<Message>, p: Page)
    requires Shaped(prefix, p)
    ensures var q := Fail(p);
      && |prefix| + 1 <= |q.messages| <= |prefix| + 2
      && q.messages[..|prefix|] == prefix
      && q.messages[|q.messages| - 1] == FallbackMessage()
      && !q.isLoading
  {
    assert Fail(p).messages[..|prefix|] == p.messages[..|prefix|];
  }

  /** When the text the stream ended with is already on screen, the final write
      changes no message: the detail fetched after the stream is not written,
      and the assistant message keeps the detail it had. */
  lemma FinalWriteSkipsShownText(prefix: seq<Message>, p: Page, l: Locals, info: InfoRequest -> InfoReply)
    requires Shaped(prefix, p) && p.assistantIndex.Some? && l.streamed == p.lastRendered
    ensures Finish(p, l, info).messages == p.messages
  {
  }

  /** The detail the final write uses lines up with the retrievals: one entry per
      retrieval, in order. */
  lemma FinalDetailAligned(l: Locals, info: InfoRequest -> InfoReply)
    ensures |FinalDetail(l, info)| == |l.retrievals|
    ensures forall i :: 0 <= i < |l.retrievals| ==> FinalDetail(l, info)[i].retrievalContent == l.retrievals[i]
  {
  }
}
