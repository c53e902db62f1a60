/** The parts of a decoded event-stream payload that the relay and the chat page
    read. `JSON.parse` and `JSON.stringify` themselves are not modelled: they enter
    the model as function parameters. A text field the code tests for truthiness
    (`if (evt.data?.delta)`) is a `string` here, with the empty string standing for
    an absent, null or empty value alike. */
module Json {

  datatype Option<+T> = None | Some(value: T) {
    /** `x || fallback` for a value that is present or not. */
    function GetOr(fallback: T): T {
      match this
      case Some(v) => v
      case None => fallback
    }
  }

  /** One retrieved source snippet (`{content_id, content_text}`). */
  datatype RetrievalContent = RetrievalContent(contentId: string, contentText: string)

  /** One enrichment entry (`{content_id?, page_img?}`). */
  datatype ContentMetadata = ContentMetadata(contentId: string, pageImg: string)

  /** The fields of `evt.data` that some event handler reads. `contents` and
      `contentMetadatas` are `None` when the field is missing. */
  datatype EventData = EventData(
    messageId: string,
    conversationId: string,
    contents: Option<seq<RetrievalContent>>,
    delta: string,
    finalMessage: string,
    contentMetadatas: Option<seq<ContentMetadata>>)

  /** A value `JSON.parse` can return, as far as the event handlers can tell
      them apart: `null` (on which `evt.event` throws), or anything else with the
      `event` name it carries ("" when it has none, as for a number, a string, an
      array or an object without that key). */
  datatype Json =
    | JsonNull
    | JsonObject(event: string, data: EventData)

  /** `evt.data` with none of the fields the handlers read. */
  const NoData := EventData("", "", None, "", "", None)

  /** An object the relay serialises with `JSON.stringify`. */
  datatype Outgoing =
    | ErrorBody(error: string)
    | ContentMetadatasEvent(contentMetadatas: seq<ContentMetadata>)
}
