/** The relay and the page together: what the page's reader gets out of the
    relay's output, and what it then shows. */
module Pipeline {
  import opened Text
  import opened Json
  import opened EventStream
  import opened Observer
  import opened Relay
  import opened Reconciler
  import opened Merge

  lemma {:induction false} ConcatAppend(a: seq<string>, b: seq<string>)
    ensures Concat(a + b) == Concat(a) + Concat(b)
    decreases |b|
  {
    if b == [] {
      assert a + b == a;
    } else {
      var init := b[..|b| - 1];
      assert (a + b)[..|a + b| - 1] == a + init;
      ConcatAppend(a, init);
    }
  }

  lemma ConcatOne(s: string)
    ensures Concat([s]) == s
  {
    assert [s][..0] == [];
  }

  /** A comment frame carries no event. */
  lemma CommentFrameSkipped(a: seq<string>, comment: string, b: seq<string>, parse: string -> Option<Json>)
    requires '\n' !in comment
    ensures EventsOf(a + [": " + comment] + b, parse) == EventsOf(a, parse) + EventsOf(b, parse)
  {
    DecodeCommentLine(comment);
    BadFrameSkipped(a, ": " + comment, b, parse);
  }

  /** `JSON.stringify` of what the relay sends is one line that starts with `{`. */
  ghost predicate OneLineStringify(stringify: Outgoing -> string) {
    forall o :: SingleLinePayload(stringify(o))
  }

  lemma NoCrInFrames(payload: string, comment: string)
    requires '\r' !in payload && '\r' !in comment
    ensures '\r' !in EncodeSSE(payload) && '\r' !in EncodeComment(comment)
  {
    var d := EncodeSSE(payload);
    var c := EncodeComment(comment);
    assert forall i | 0 <= i < |d| :: d[i] == if i < 6 then "data: "[i] else if i < 6 + |payload| then payload[i - 6] else '\n';
    assert forall i | 0 <= i < |c| :: c[i] == if i < 2 then ": "[i] else if i < 2 + |comment| then comment[i - 2] else '\n';
  }

  /** Without CR in the upstream chunks, the relay's output has none either, so
      the page's reader may receive it in any pieces (see PageSeesRelayedEvents). */
  lemma RelayOutputWithoutCr(upstream: Upstream, lookup: LookupRequest -> Lookup,
                             parse: string -> Option<Json>, stringify: Outgoing -> string)
    requires OneLineStringify(stringify)
    requires upstream.Streamed? ==> forall c <- upstream.chunks :: '\r' !in c
    ensures forall piece <- RelayOutput(upstream, lookup, parse, stringify) :: '\r' !in piece
  {
    CommentsOneLine();
    assert '\r' !in StreamStart && '\r' !in StreamEnd;
    forall o: Outgoing ensures '\r' !in EncodeSSE(stringify(o)) {
      assert SingleLinePayload(stringify(o));
      NoCrInFrames(stringify(o), StreamStart);
    }
    NoCrInFrames("", StreamStart);
    NoCrInFrames("", StreamEnd);
  }

  /** The enrichment frames the relay sends, as frame texts. */
  function EnrichmentFrames(messageId: string, ids: seq<string>, lookup: LookupRequest -> Lookup, stringify: Outgoing -> string): seq<string> {
    if messageId != "" && |ids| > 0 then
      match lookup(LookupRequest(messageId, ids))
      case LookupFailed => []
      case LookupReturned(metas) => ["data: " + stringify(ContentMetadatasEvent(metas.GetOr([])))]
    else []
  }

  /** The enrichment frames are cut off as such from the enrichment text. */
  lemma EnrichmentSplits(messageId: string, ids: seq<string>, lookup: LookupRequest -> Lookup, stringify: Outgoing -> string, rest: string)
    requires OneLineStringify(stringify)
    ensures var e := Enrichment(messageId, ids, lookup, stringify);
      SplitAll(Concat(e) + rest) == (EnrichmentFrames(messageId, ids, lookup, stringify) + SplitAll(rest).0, SplitAll(rest).1)
  {
    var e := Enrichment(messageId, ids, lookup, stringify);
    if e == [] {
      assert Concat(e) + rest == rest;
      assert EnrichmentFrames(messageId, ids, lookup, stringify) == [];
      assert [] + SplitAll(rest).0 == SplitAll(rest).0;
    } else {
      var metas := lookup(LookupRequest(messageId, ids)).contentMetadatas.GetOr([]);
      var payload := stringify(ContentMetadatasEvent(metas));
      ConcatOne(EncodeSSE(payload));
      EncodeSSERoundTrip(payload, rest);
    }
  }

  /** The text the relay sends when the upstream stream ends cleanly: the start
      comment, the upstream text, the enrichment and the end comment. */
  lemma RelayText(chunks: seq<string>, lookup: LookupRequest -> Lookup, parse: string -> Option<Json>, stringify: Outgoing -> string)
    ensures Concat(RelayOutput(Streamed(chunks, None), lookup, parse, stringify)) ==
      EncodeComment(StreamStart) + (Concat(chunks) +
        (Concat(Enrichment(ObservedMessageId(chunks, parse), ObservedIds(chunks, parse), lookup, stringify))
         + EncodeComment(StreamEnd)))
  {
    var start := [EncodeComment(StreamStart)];
    var e := Enrichment(ObservedMessageId(chunks, parse), ObservedIds(chunks, parse), lookup, stringify);
    var end := [EncodeComment(StreamEnd)];
    assert RelayOutput(Streamed(chunks, None), lookup, parse, stringify) == start + (chunks + (e + end));
    ConcatAppend(start, chunks + (e + end));
    ConcatAppend(chunks, e + end);
    ConcatAppend(e, end);
    ConcatOne(EncodeComment(StreamStart));
    ConcatOne(EncodeComment(StreamEnd));
  }

  /** The frames of the relay's output, for an upstream text that ends at a
      frame boundary: the start comment, the upstream frames, the enrichment
      frame if any, and the end comment, with nothing left over. */
  lemma RelayFrames(chunks: seq<string>, lookup: LookupRequest -> Lookup, parse: string -> Option<Json>, stringify: Outgoing -> string)
    requires OneLineStringify(stringify)
    requires SplitAll(Concat(chunks)).1 == ""
    ensures SplitAll(Concat(RelayOutput(Streamed(chunks, None), lookup, parse, stringify))) ==
      ([": " + StreamStart] + SplitAll(Concat(chunks)).0
       + EnrichmentFrames(ObservedMessageId(chunks, parse), ObservedIds(chunks, parse), lookup, stringify)
       + [": " + StreamEnd], "")
  {
    var u := Concat(chunks);
    var mid := ObservedMessageId(chunks, parse);
    var ids := ObservedIds(chunks, parse);
    var e := Concat(Enrichment(mid, ids, lookup, stringify));
    var ef := EnrichmentFrames(mid, ids, lookup, stringify);
    var end := EncodeComment(StreamEnd);
    RelayText(chunks, lookup, parse, stringify);
    CommentsOneLine();
    CommentAlone(StreamEnd);
    EnrichmentSplits(mid, ids, lookup, stringify, end);
    FramesAround(StreamStart, u, e + end, ef + [": " + StreamEnd]);
    SeqAssoc4([": " + StreamStart], SplitAll(u).0, ef, [": " + StreamEnd]);
  }

  /** A comment, text that ends at a frame boundary, then text that splits
      into `tail` with nothing left over. */
  lemma FramesAround(comment: string, u: string, rest: string, tail: seq<string>)
    requires '\n' !in comment && SplitAll(u).1 == "" && SplitAll(rest) == (tail, "")
    ensures SplitAll(EncodeComment(comment) + (u + rest)) == ([": " + comment] + (SplitAll(u).0 + tail), "")
  {
    SplitAfterBoundary(u, rest);
    EncodeCommentRoundTrip(comment, u + rest);
  }

  /** A comment frame with nothing after it. */
  lemma CommentAlone(comment: string)
    requires '\n' !in comment
    ensures SplitAll(EncodeComment(comment)) == ([": " + comment], "")
  {
    EncodeCommentRoundTrip(comment, "");
    SplitNoBlank("");
    SeqEmptyRight(EncodeComment(comment));
    SeqEmptyRight([": " + comment]);
  }

  /** The event the enrichment frame carries, if any. */
  function EnrichmentEvents(messageId: string, ids: seq<string>, lookup: LookupRequest -> Lookup,
                            parse: string -> Option<Json>, stringify: Outgoing -> string): seq<Json> {
    EventsOf(EnrichmentFrames(messageId, ids, lookup, stringify), parse)
  }

  /** However the page's reader receives the relay's output in pieces, it gets
      the upstream's events in order, then the enrichment event if the relay sent
      one, and nothing else: the relay's comments carry no event. The upstream
      text is taken to be free of CR and to end at a frame boundary, and
      `JSON.stringify` to give one line. */
  lemma PageSeesRelayedEvents(chunks: seq<string>, received: seq<string>, lookup: LookupRequest -> Lookup,
                              parse: string -> Option<Json>, stringify: Outgoing -> string)
    requires OneLineStringify(stringify)
    requires forall c <- chunks :: '\r' !in c
    requires SplitAll(Concat(chunks)).1 == ""
    requires forall c <- received :: '\r' !in c
    requires Concat(received) == Concat(RelayOutput(Streamed(chunks, None), lookup, parse, stringify))
    ensures Feed("", received).1 == ""
    ensures EventsOf(Feed("", received).0, parse) ==
      EventsOf(Feed("", chunks).0, parse)
      + EnrichmentEvents(ObservedMessageId(chunks, parse), ObservedIds(chunks, parse), lookup, parse, stringify)
  {
    var ef := EnrichmentFrames(ObservedMessageId(chunks, parse), ObservedIds(chunks, parse), lookup, stringify);
    var uf := SplitAll(Concat(chunks)).0;
    ChunkingIndependentWithoutCr(received);
    ChunkingIndependentWithoutCr(chunks);
    RelayFrames(chunks, lookup, parse, stringify);
    FramedEvents(uf, ef, parse);
  }

  /** The start and end comments around the frames carry no event. */
  lemma FramedEvents(uf: seq<string>, ef: seq<string>, parse: string -> Option<Json>)
    ensures EventsOf([": " + StreamStart] + uf + ef + [": " + StreamEnd], parse) ==
      EventsOf(uf, parse) + EventsOf(ef, parse)
  {
    CommentsOneLine();
    var cs := ": " + StreamStart;
    var ce := ": " + StreamEnd;
    CommentFrameSkipped([], StreamStart, uf + ef + [ce], parse);
    assert [] + [cs] + (uf + ef + [ce]) == [cs] + uf + ef + [ce];
    CommentFrameSkipped(uf + ef, StreamEnd, [], parse);
    assert uf + ef + [ce] + [] == uf + ef + [ce];
    EventsOfAppend(uf, ef, parse);
    assert EventsOf([], parse) == [];
  }

  /** Text that follows a frame boundary is cut on its own. */
  lemma SplitAfterBoundary(before: string, rest: string)
    requires SplitAll(before).1 == ""
    ensures SplitAll(before + rest) == (SplitAll(before).0 + SplitAll(rest).0, SplitAll(rest).1)
  {
    SplitAppend(before, rest);
    assert "" + rest == rest;
  }

  /** A comment enqueued where the forwarded text ends at a frame boundary,
      as the heartbeat's `keep-alive` may be, becomes a frame of its own. */
  lemma CommentAtBoundarySplit(before: string, comment: string, after: string)
    requires SplitAll(before).1 == "" && '\n' !in comment
    ensures SplitAll(before + EncodeComment(comment) + after) ==
      (SplitAll(before).0 + [": " + comment] + SplitAll(after).0, SplitAll(after).1)
  {
    var k := EncodeComment(comment);
    assert before + k + after == before + (k + after) by {
      SeqAssoc(before, k, after);
    }
    SplitAfterBoundary(before, k + after);
    EncodeCommentRoundTrip(comment, after);
    SeqAssoc(SplitAll(before).0, [": " + comment], SplitAll(after).0);
  }

  /** Such a comment changes neither the events nor what is left over. */
  lemma CommentAtBoundary(before: string, comment: string, after: string, parse: string -> Option<Json>)
    requires SplitAll(before).1 == "" && '\n' !in comment
    ensures SplitAll(before + EncodeComment(comment) + after).1 == SplitAll(before + after).1
    ensures EventsOf(SplitAll(before + EncodeComment(comment) + after).0, parse) ==
            EventsOf(SplitAll(before + after).0, parse)
  {
    CommentAtBoundarySplit(before, comment, after);
    SplitAfterBoundary(before, after);
    var bf := SplitAll(before).0;
    var af := SplitAll(after).0;
    CommentFrameSkipped(bf, comment, af, parse);
    EventsOfAppend(bf, af, parse);
  }

  /** The text after a blank line: one empty frame. */
  lemma SplitBlank()
    ensures SplitAll(Blank) == ([""], "")
  {
    SplitNoBlank("");
    SplitAtBlank(Blank, 0);
    assert Blank[..0] == "" && Blank[2..] == "";
    assert [""] + [] == [""];
  }

  /** A data frame with nothing after it. */
  lemma DataAlone(payload: string)
    requires SingleLinePayload(payload)
    ensures SplitAll(EncodeSSE(payload)) == (["data: " + payload], "")
  {
    EncodeSSERoundTrip(payload, "");
    SplitNoBlank("");
    SeqEmptyRight(EncodeSSE(payload));
    SeqEmptyRight(["data: " + payload]);
  }

  /** The events of one frame. */
  lemma OneFrameEvents(f: string, parse: string -> Option<Json>)
    ensures EventsOf([f], parse) == match FrameEvent(f, parse) case None => [] case Some(e) => [e]
  {
    assert [f][..0] == [];
  }

  /** A comment enqueued between two upstream chunks that split a data frame
      before its blank line, as the heartbeat's `keep-alive` may be, becomes
      part of that frame: the payload gets the comment appended, and when that
      no longer parses the event is lost. */
  lemma CommentInsideFrame(payload: string, comment: string, parse: string -> Option<Json>)
    requires SingleLinePayload(payload) && '\n' !in comment && '\r' !in comment
    requires parse(payload).Some? && parse(payload + ": " + comment) == None
    ensures EventsOf(SplitAll("data: " + payload + Blank).0, parse) == [parse(payload).value]
    ensures SplitAll("data: " + payload + EncodeComment(comment) + Blank).0 == ["data: " + payload + ": " + comment, ""]
    ensures EventsOf(SplitAll("data: " + payload + EncodeComment(comment) + Blank).0, parse) == []
  {
    DataAlone(payload);
    EncodeSSERoundTrip(payload, "");
    OneFrameEvents("data: " + payload, parse);
    var joined := payload + ": " + comment;
    assert SingleLinePayload(joined) by {
      assert forall i | 0 <= i < |joined| ::
        joined[i] == if i < |payload| then payload[i] else if i < |payload| + 2 then ": "[i - |payload|] else comment[i - |payload| - 2];
    }
    assert "data: " + payload + EncodeComment(comment) + Blank == EncodeSSE(joined) + Blank;
    assert "data: " + joined == "data: " + payload + ": " + comment;
    SplitBlank();
    EncodeSSERoundTrip(joined, Blank);
    var frames := ["data: " + joined, ""];
    assert ["data: " + joined] + [""] == frames;
    LostFrames(joined, parse);
  }

  lemma LostFrames(joined: string, parse: string -> Option<Json>)
    requires SingleLinePayload(joined) && parse(joined) == None
    ensures EventsOf(["data: " + joined, ""], parse) == []
  {
    var frames := ["data: " + joined, ""];
    EncodeSSERoundTrip(joined, "");
    assert DecodeFrame("") == None by {
      SplitLinesWithoutFeed("");
    }
    EventsOfStep(frames, 0, parse);
    EventsOfStep(frames, 1, parse);
    assert frames[..0] == [] && frames[..2] == frames;
  }

  /** The error frame the relay sends when the upstream fails has no `event`
      field; the page ignores it and, the stream ending cleanly, shows an empty
      assistant message rather than the apology. */
  lemma UpstreamErrorShowsEmptyMessage(p: Page, error: string, received: seq<string>,
                                       parse: string -> Option<Json>, stringify: Outgoing -> string,
                                       info: InfoRequest -> InfoReply)
    requires !Ignored(p) && OneLineStringify(stringify)
    requires parse(stringify(ErrorBody(error))) == Some(JsonObject("", NoData))
    requires forall c <- received :: '\r' !in c
    requires Concat(received) == EncodeComment(StreamStart) + EncodeSSE(stringify(ErrorBody(error)))
    ensures Submitted(p, Body(received, false), parse, info).messages ==
      p.messages + [UserMessage(p.input), Message(Assistant, "", Some([]), Some([]), Some(""))]
  {
    ErrorFrameEvents(stringify(ErrorBody(error)), received, parse);
    SubmittedStream(p, received, false, parse, info);
    EventlessFrameSubmission(p, info);
  }

  /** An event with no `event` field, received and finished. */
  lemma EventlessFrameSubmission(p: Page, info: InfoRequest -> InfoReply)
    requires !Ignored(p)
    ensures var r := Receive(Reception(Start(p), Fresh, false), [JsonObject("", NoData)]);
      !r.thrown && Finish(r.page, r.locals, info).messages ==
      p.messages + [UserMessage(p.input), Message(Assistant, "", Some([]), Some([]), Some(""))]
  {
    var e := JsonObject("", NoData);
    var start := Reception(Start(p), Fresh, false);
    assert Receive(start, [e]) == Dispatch(Receive(start, []), e) by {
      assert [e][..0] == [];
    }
    assert Dispatch(start, e) == start;
    assert FinalDetail(Fresh, info) == [] by {
      assert Placeholders([]) == [];
    }
    var m := Message(Assistant, "", Some([]), Some([]), Some(""));
    SeqAssoc(p.messages, [UserMessage(p.input)], [m]);
  }

  /** The client's events for a stream of the start comment and one data frame. */
  lemma ErrorFrameEvents(payload: string, received: seq<string>, parse: string -> Option<Json>)
    requires SingleLinePayload(payload) && parse(payload).Some?
    requires forall c <- received :: '\r' !in c
    requires Concat(received) == EncodeComment(StreamStart) + EncodeSSE(payload)
    ensures EventsOf(Feed("", received).0, parse) == [parse(payload).value]
  {
    ChunkingIndependentWithoutCr(received);
    CommentsOneLine();
    CommentThenData(StreamStart, payload);
    CommentThenDataEvents(StreamStart, payload, parse);
  }

  /** The frames of a comment followed by a data frame. */
  lemma CommentThenData(comment: string, payload: string)
    requires '\n' !in comment && SingleLinePayload(payload)
    ensures SplitAll(EncodeComment(comment) + EncodeSSE(payload)).0 == [": " + comment, "data: " + payload]
  {
    DataAlone(payload);
    EncodeCommentRoundTrip(comment, EncodeSSE(payload));
  }

  /** The events of a comment frame followed by a data frame. */
  lemma CommentThenDataEvents(comment: string, payload: string, parse: string -> Option<Json>)
    requires '\n' !in comment && SingleLinePayload(payload) && parse(payload).Some?
    ensures EventsOf([": " + comment, "data: " + payload], parse) == [parse(payload).value]
  {
    CommentFrameSkipped([], comment, ["data: " + payload], parse);
    assert [] + [": " + comment] + ["data: " + payload] == [": " + comment, "data: " + payload];
    OneFrameEvents("data: " + payload, parse);
    EncodeSSERoundTrip(payload, "");
    assert EventsOf([], parse) == [];
  }

  /** The page and the relay's observer agree on the message id: while no
      exception is thrown, the page's `messageId` is the observer's, the most
      recent non-empty `message_id` of a `metadata` event. */
  lemma {:induction false} PageTracksObservedMessageId(r: Reception, events: seq<Json>)
    requires !r.thrown
    requires forall e <- events :: !Throws(e)
    ensures !Receive(r, events).thrown
    ensures Receive(r, events).locals.messageId == MessageIdAfter(r.locals.messageId, events)
    decreases |events|
  {
    if events != [] {
      var init := events[..|events| - 1];
      var e := events[|events| - 1];
      assert e in events;
      assert forall x <- init :: x in events;
      PageTracksObservedMessageId(r, init);
      DispatchThrows(Receive(r, init), e);
    }
  }
}
