/** The relay's observer (route.ts lines 64-94): while forwarding the upstream
    stream it reads the same frames itself and records the latest non-empty
    `message_id` of a `metadata` event and the `content_id`s of `retrievals`
    events, without duplicates or empty ids, in the order first seen. */
module Observer {
  import opened Text
  import opened Json
  import opened EventStream

  /** The `content_id`s of a retrievals snapshot, in order. */
  function ContentIds(contents: seq<RetrievalContent>): (ids: seq<string>)
    ensures |ids| == |contents| && forall i :: 0 <= i < |ids| ==> ids[i] == contents[i].contentId
  {
    seq(|contents|, i requires 0 <= i < |contents| => contents[i].contentId)
  }

  /** The ids an event offers the observer: those of a `retrievals` event, where a
      missing `contents` counts as none. */
  function EventIds(e: Json): seq<string> {
    match e
    case JsonObject("retrievals", data) => ContentIds(data.contents.GetOr([]))
    case _ => []
  }

  /** The ids the events offer, in order, repetitions and empty ids included. */
  function IdsIn(events: seq<Json>): seq<string> {
    if events == [] then [] else IdsIn(events[..|events| - 1]) + EventIds(events[|events| - 1])
  }

  /** The id list after `ids` has been offered the ids `offered` one by one:
      each non-empty id not yet present is pushed. */
  function AddAll(ids: seq<string>, offered: seq<string>): seq<string> {
    if offered == [] then ids
    else
      var prev := AddAll(ids, offered[..|offered| - 1]);
      var id := offered[|offered| - 1];
      if id != "" && id !in prev then prev + [id] else prev
  }

  /** The message id after a run of events: that of the last `metadata` event with
      a non-empty `message_id`, or `start` when there is none. `null` and events
      without a name leave it alone. */
  function MessageIdAfter(start: string, events: seq<Json>): string {
    if events == [] then start
    else
      var e := events[|events| - 1];
      if e.JsonObject? && e.event == "metadata" && e.data.messageId != "" then e.data.messageId
      else MessageIdAfter(start, events[..|events| - 1])
  }

  predicate NoDuplicates(ids: seq<string>) {
    forall i, j :: 0 <= i < j < |ids| ==> ids[i] != ids[j]
  }

  /** The index of the first occurrence of `x` in `xs`. */
  function FirstIndex(xs: seq<string>, x: string): (k: nat)
    requires x in xs
    ensures k < |xs| && xs[k] == x && forall j :: 0 <= j < k ==> xs[j] != x
  {
    if xs[0] == x then 0 else 1 + FirstIndex(xs[1..], x)
  }

  /** The id list only grows, and keeps no duplicate and no empty id. */
  lemma {:induction false} AddAllKeepsList(ids: seq<string>, offered: seq<string>)
    ensures ids <= AddAll(ids, offered)
    ensures NoDuplicates(ids) && "" !in ids ==> NoDuplicates(AddAll(ids, offered)) && "" !in AddAll(ids, offered)
    decreases |offered|
  {
    if offered != [] {
      AddAllKeepsList(ids, offered[..|offered| - 1]);
    }
  }

  /** An id is in the list exactly when it was there before or was offered and
      is not empty. */
  lemma {:induction false} AddAllMembers(ids: seq<string>, offered: seq<string>, x: string)
    ensures x in AddAll(ids, offered) <==> x in ids || (x != "" && x in offered)
    decreases |offered|
  {
    if offered != [] {
      var init := offered[..|offered| - 1];
      AddAllMembers(ids, init, x);
      assert offered == init + [offered[|offered| - 1]];
    }
  }

  /** Offering two runs of ids is offering them one after the other. */
  lemma {:induction false} AddAllAppend(ids: seq<string>, xs: seq<string>, ys: seq<string>)
    ensures AddAll(ids, xs + ys) == AddAll(AddAll(ids, xs), ys)
    decreases |ys|
  {
    if ys == [] {
      assert xs + ys == xs;
    } else {
      var init := ys[..|ys| - 1];
      assert (xs + ys)[..|xs + ys| - 1] == xs + init;
      AddAllAppend(ids, xs, init);
    }
  }

  /** Starting from nothing, the list holds the offered non-empty ids in the order
      of their first occurrence. */
  lemma {:induction false} AddAllFirstSeenOrder(offered: seq<string>)
    ensures var r := AddAll([], offered);
      forall i, j :: 0 <= i < j < |r| ==>
        r[i] in offered && r[j] in offered && FirstIndex(offered, r[i]) < FirstIndex(offered, r[j])
    decreases |offered|
  {
    var r := AddAll([], offered);
    if offered != [] {
      var init := offered[..|offered| - 1];
      var last := offered[|offered| - 1];
      var prev := AddAll([], init);
      AddAllFirstSeenOrder(init);
      forall x | x in init ensures x in offered && FirstIndex(offered, x) == FirstIndex(init, x) {
        FirstIndexPrefix(init, last, x);
      }
      forall x | x in prev ensures x in init {
        AddAllMembers([], init, x);
      }
      if last != "" && last !in prev {
        AddAllMembers([], init, last);
        assert last !in init;
        FirstIndexLast(init, last);
        forall i, j | 0 <= i < j < |r|
          ensures r[i] in offered && r[j] in offered && FirstIndex(offered, r[i]) < FirstIndex(offered, r[j])
        {
          assert r[i] == prev[i] && r[i] in prev;
          if j < |prev| {
            assert r[j] == prev[j] && r[j] in prev;
          } else {
            assert r[j] == last;
          }
        }
      } else {
        forall i, j | 0 <= i < j < |r|
          ensures r[i] in offered && r[j] in offered && FirstIndex(offered, r[i]) < FirstIndex(offered, r[j])
        {
          assert r[i] in prev && r[j] in prev;
        }
      }
    }
  }

  lemma FirstIndexPrefix(xs: seq<string>, y: string, x: string)
    requires x in xs
    ensures x in xs + [y] && FirstIndex(xs + [y], x) == FirstIndex(xs, x)
  {
    var k := FirstIndex(xs, x);
    assert (xs + [y])[k] == x;
  }

  lemma FirstIndexLast(xs: seq<string>, y: string)
    requires y !in xs
    ensures y in xs + [y] && FirstIndex(xs + [y], y) == |xs|
  {
    assert (xs + [y])[|xs|] == y;
    assert forall j :: 0 <= j < |xs| ==> xs[j] != y;
  }

  lemma {:induction false} IdsInAppend(a: seq<Json>, b: seq<Json>)
    ensures IdsIn(a + b) == IdsIn(a) + IdsIn(b)
    decreases |b|
  {
    if b == [] {
      assert a + b == a;
    } else {
      var init := b[..|b| - 1];
      var last := b[|b| - 1];
      assert (a + b)[..|a + b| - 1] == a + init && (a + b)[|a + b| - 1] == last;
      IdsInAppend(a, init);
      assert IdsIn(a + b) == IdsIn(a + init) + EventIds(last);
      assert (IdsIn(a) + IdsIn(init)) + EventIds(last) == IdsIn(a) + (IdsIn(init) + EventIds(last));
    }
  }

  lemma {:induction false} MessageIdAppend(start: string, a: seq<Json>, b: seq<Json>)
    ensures MessageIdAfter(start, a + b) == MessageIdAfter(MessageIdAfter(start, a), b)
    decreases |b|
  {
    if b == [] {
      assert a + b == a;
    } else {
      var init := b[..|b| - 1];
      assert (a + b)[..|a + b| - 1] == a + init;
      MessageIdAppend(start, a, init);
    }
  }

  /** A `metadata` event carrying a message id. */
  predicate SetsMessageId(e: Json) {
    e.JsonObject? && e.event == "metadata" && e.data.messageId != ""
  }

  /** The observer keeps the most recent message id it saw, not the first. */
  lemma {:induction false} MessageIdIsLatest(start: string, before: seq<Json>, e: Json, after: seq<Json>)
    requires SetsMessageId(e)
    requires forall x <- after :: !SetsMessageId(x)
    ensures MessageIdAfter(start, before + [e] + after) == e.data.messageId
    decreases |after|
  {
    var all := before + [e] + after;
    if after == [] {
      assert all[..|all| - 1] == before && all[|all| - 1] == e;
    } else {
      var init := after[..|after| - 1];
      assert all[..|all| - 1] == before + [e] + init;
      assert after[|after| - 1] in after;
      assert forall x <- init :: x in after;
      MessageIdIsLatest(start, before, e, init);
    }
  }

  /** Without a `metadata` event carrying an id, the message id stays as it was. */
  lemma {:induction false} MessageIdUnset(start: string, events: seq<Json>)
    requires forall x <- events :: !SetsMessageId(x)
    ensures MessageIdAfter(start, events) == start
    decreases |events|
  {
    if events != [] {
      var init := events[..|events| - 1];
      assert events[|events| - 1] in events;
      assert forall x <- init :: x in events;
      MessageIdUnset(start, init);
    }
  }

  /** The observer's state: `observeBuffer`, `observedMessageId` (empty for
      `null`) and `observedContentIds`. */
  class StreamObserver {
    var buffer: string
    var messageId: string
    var contentIds: seq<string>

    /** What the observer keeps true between chunks. */
    predicate Valid()
      reads this
    {
      '\r' !in buffer && !Contains(buffer, Blank) && NoDuplicates(contentIds) && "" !in contentIds
    }

    constructor ()
      ensures Valid()
      ensures buffer == "" && messageId == "" && contentIds == []
    {
      buffer := "";
      messageId := "";
      contentIds := [];
    }

    /** `observeChunk(text)`: append the chunk, cut the frames it completes and
        record what their events carry. */
    method ObserveChunk(text: string, parse: string -> Option<Json>)
      requires Valid()
      modifies this
      ensures Valid()
      ensures var step := SplitAll(NormalizeNewlines(old(buffer) + text));
        var events := EventsOf(step.0, parse);
        && buffer == step.1
        && messageId == MessageIdAfter(old(messageId), events)
        && contentIds == AddAll(old(contentIds), IdsIn(events))
    {
      var frames, rest := PushChunk(buffer, text);
      buffer := rest;
      ghost var startIds := contentIds;
      ghost var startId := messageId;
      var i := 0;
      while i < |frames|
        invariant 0 <= i <= |frames| && buffer == rest
        invariant messageId == MessageIdAfter(startId, EventsOf(frames[..i], parse))
        invariant contentIds == AddAll(startIds, IdsIn(EventsOf(frames[..i], parse)))
      {
        ghost var seen := EventsOf(frames[..i], parse);
        EventsOfStep(frames, i, parse);
        var evt := FrameEvent(frames[i], parse);
        if evt.Some? {
          ObserveEvent(evt.value);
          EventStep(startId, startIds, seen, evt.value);
          assert EventsOf(frames[..i + 1], parse) == seen + [evt.value];
        } else {
          assert EventsOf(frames[..i + 1], parse) == seen;
        }
        i := i + 1;
      }
      assert frames[..i] == frames;
      AddAllKeepsList(old(contentIds), IdsIn(EventsOf(frames, parse)));
    }

    /** The handling of one parsed event inside `observeChunk`. */
    method ObserveEvent(e: Json)
      modifies this
      ensures buffer == old(buffer)
      ensures messageId == MessageIdAfter(old(messageId), [e])
      ensures contentIds == AddAll(old(contentIds), EventIds(e))
    {
      if e.JsonObject? && e.event == "metadata" {
        if e.data.messageId != "" {
          messageId := e.data.messageId;
        }
      } else if e.JsonObject? && e.event == "retrievals" {
        var contents := e.data.contents.GetOr([]);
        var j := 0;
        while j < |contents|
          invariant 0 <= j <= |contents|
          invariant buffer == old(buffer) && messageId == old(messageId)
          invariant contentIds == AddAll(old(contentIds), ContentIds(contents[..j]))
        {
          var cid := contents[j].contentId;
          assert ContentIds(contents[..j + 1])[..j] == ContentIds(contents[..j]);
          if cid != "" && cid !in contentIds {
            contentIds := contentIds + [cid];
          }
          j := j + 1;
        }
        assert contents[..j] == contents;
      }
    }
  }

  /** Handling one more event extends both folds by that event. */
  lemma EventStep(startId: string, startIds: seq<string>, seen: seq<Json>, e: Json)
    ensures MessageIdAfter(startId, seen + [e]) == MessageIdAfter(MessageIdAfter(startId, seen), [e])
    ensures AddAll(startIds, IdsIn(seen + [e])) == AddAll(AddAll(startIds, IdsIn(seen)), EventIds(e))
  {
    MessageIdAppend(startId, seen, [e]);
    assert (seen + [e])[..|seen|] == seen;
    AddAllAppend(startIds, IdsIn(seen), EventIds(e));
  }

  /** The message id observed once the chunks have been fed to a fresh observer. */
  function ObservedMessageId(chunks: seq<string>, parse: string -> Option<Json>): string {
    MessageIdAfter("", EventsOf(Feed("", chunks).0, parse))
  }

  /** The id list observed once the chunks have been fed to a fresh observer. */
  function ObservedIds(chunks: seq<string>, parse: string -> Option<Json>): seq<string> {
    AddAll([], IdsIn(EventsOf(Feed("", chunks).0, parse)))
  }

  /** Feeding one more chunk moves the observed values on by that chunk's events. */
  lemma ObservedStep(chunks: seq<string>, i: nat, parse: string -> Option<Json>)
    requires i < |chunks|
    ensures var prev := Feed("", chunks[..i]);
      var step := SplitAll(NormalizeNewlines(prev.1 + chunks[i]));
      var events := EventsOf(step.0, parse);
      && Feed("", chunks[..i + 1]) == (prev.0 + step.0, step.1)
      && ObservedMessageId(chunks[..i + 1], parse) == MessageIdAfter(ObservedMessageId(chunks[..i], parse), events)
      && ObservedIds(chunks[..i + 1], parse) == AddAll(ObservedIds(chunks[..i], parse), IdsIn(events))
  {
    var prev := Feed("", chunks[..i]);
    var step := SplitAll(NormalizeNewlines(prev.1 + chunks[i]));
    assert chunks[..i + 1][..i] == chunks[..i];
    EventsOfAppend(prev.0, step.0, parse);
    var before := EventsOf(prev.0, parse);
    var events := EventsOf(step.0, parse);
    MessageIdAppend("", before, events);
    IdsInAppend(before, events);
    AddAllAppend([], IdsIn(before), IdsIn(events));
  }
}
