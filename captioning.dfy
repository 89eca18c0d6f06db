/** What both pages share about the caption request: the request they send,
    the outcome they get back, and the placeholder caption used on failure.
    The network exchange itself is not modelled; its outcome is a parameter. */
module Captioning {
  import opened Text

  datatype Option<T> = None | Some(value: T)

  /** How the captioning call ended: with the text of the first content item
      of the reply, or with any failure (network error, a body that is not
      JSON, a reply without content). */
  datatype Outcome = Replied(text: string) | Failed

  /** The parts of the caption request that depend on the page's state: the
      base64 payload of the image (`None` stands for `undefined`) and the
      media-type label. */
  datatype Request = Request(data: Option<string>, mediaType: string)

  /** The caption shown when the request fails. */
  const ErrorCaption: string := "Error generating caption. Try again!"

  /** The caption a page keeps after a request ends with `outcome`: the reply
      trimmed, or the placeholder when the request failed. Either way it has
      no white space at its ends. */
  function CaptionAfter(outcome: Outcome): (caption: string)
    ensures outcome.Failed? ==> caption == ErrorCaption
    ensures outcome.Replied? ==> caption == Trim(outcome.text)
    ensures caption == [] || (!IsWhite(caption[0]) && !IsWhite(caption[|caption| - 1]))
  {
    match outcome
    case Replied(text) => Trim(text)
    case Failed => ErrorCaption
  }

  /** `dataUrl.split(',')[1]`: the text between the first comma and the next
      one, or `undefined` when there is no comma at all. */
  function Payload(dataUrl: string): (data: Option<string>)
    ensures data.Some? <==> ',' in dataUrl
    ensures data.Some? ==> ',' !in data.value
  {
    var parts := Split(dataUrl, ',');
    SplitCount(dataUrl, ',');
    if |parts| > 1 then Some(parts[1]) else None
  }

  /** A data URL `header,body` (neither part holding a comma) yields its body. */
  lemma PayloadOfDataUrl(header: string, body: string)
    requires ',' !in header && ',' !in body
    ensures Payload(header + "," + body) == Some(body)
  {
    SplitAppend(header, body, ',');
    SplitNoSep(header, ',');
    SplitNoSep(body, ',');
    assert header + "," + body == header + [','] + body;
  }

  /** JavaScript truthiness of the image slot: `null` and the empty string are
      false, every other string is true. */
  predicate Loaded(image: Option<string>): (truthy: bool)
    ensures image == None ==> !truthy
    ensures image == Some("") ==> !truthy
    ensures forall url :: image == Some(url) && url != "" ==> truthy
  {
    image.Some? && image.value != ""
  }
}
